/**
  The newer writer: an ordered registry of columns, aggregation lists keyed by
  aggregate id, and a row counter. Every column is a `Fields.Field`; writing a
  row evaluates each one through the per-row memo.

  The csv writer itself is the sequence `sink` of rows it has been given.
 */
module List2Csv {
  import opened Host
  import opened Fields

  /**
    The memo log of one field: the rows `_eval` ran for, strictly increasing and
    never ahead of the row counter, the last of them being the memoised row
    (`-1` before the first evaluation).
   */
  ghost predicate MemoLog(computed: seq<int>, lastRow: int, rowCount: int)
  {
    Increasing(computed) &&
    (if computed == [] then lastRow == -1 else 0 <= computed[0] && computed[|computed| - 1] == lastRow) &&
    lastRow <= rowCount
  }

  /** Evaluating a field for the current row, when its memo is for an earlier one, keeps the log. */
  lemma MemoStep(computed: seq<int>, lastRow: int, rowCount: int)
    requires MemoLog(computed, lastRow, rowCount) && lastRow != rowCount && 0 <= rowCount
    ensures MemoLog(computed + [rowCount], rowCount, rowCount)
  {
    if computed != [] {
      assert computed[|computed| - 1] < rowCount;
    }
  }

  /** Every field of `U` keeps its memo log. */
  ghost predicate MemosLogged(U: set<Field>, rowCount: int)
    reads U
  {
    forall g {:trigger MemoLog(g.computed, g.lastRow, rowCount)} :: g in U ==> MemoLog(g.computed, g.lastRow, rowCount)
  }

  /** No field of `U` has a memo for row `n` or a later one. */
  ghost predicate MemosBefore(U: set<Field>, n: int)
    reads U
  {
    forall g :: g in U ==> g.lastRow < n
  }

  /** Memo logs kept for one row counter are kept for any later one. */
  lemma MemosLater(U: set<Field>, n: int, m: int)
    requires MemosLogged(U, n) && n <= m
    ensures MemosLogged(U, m)
  {
    forall g | g in U ensures MemoLog(g.computed, g.lastRow, m) {
      assert MemoLog(g.computed, g.lastRow, n);
    }
  }

  /** A field with no memo yet joins `U` without breaking its memo invariants. */
  lemma MemosAdd(U: set<Field>, n: int, f: Field)
    requires MemosLogged(U, n) && CounterMemos(U) && f.lastRow == -1 && f.computed == [] && 0 <= n
    ensures MemosLogged(U + {f}, n) && CounterMemos(U + {f})
    ensures MemosBefore(U, n) ==> MemosBefore(U + {f}, n)
  {
  }

  /** A log whose entries strictly increase. */
  ghost predicate Increasing(s: seq<int>)
  {
    forall i :: 0 < i < |s| ==> s[i - 1] < s[i]
  }

  /**
    In a strictly increasing log every row number occurs at most once, and a
    row number below the first entry does not occur at all.
   */
  lemma {:induction false} AtMostOnce(s: seq<int>, row: int)
    requires Increasing(s)
    ensures multiset(s)[row] <= 1
    ensures (s == [] || row < s[0]) ==> multiset(s)[row] == 0
    decreases |s|
  {
    if s != [] {
      assert s == [s[0]] + s[1..];
      assert Increasing(s[1..]) by {
        forall i | 0 < i < |s[1..]| ensures s[1..][i - 1] < s[1..][i] {
          assert s[1..][i - 1] == s[i] && s[1..][i] == s[i + 1];
        }
      }
      AtMostOnce(s[1..], row);
    }
  }

  /**
    The row `write_row` puts out for `item` at row number `n`: every field's
    reference value, formatted with the field's data format, in registry order;
    or the first error.
   */
  ghost function RowOf(fmt: Formatter, fs: seq<Field>, item: Item, n: int, G: Graph): Result<seq<string>>
    requires Acyclic(G) && forall h :: h in fs ==> h in G.U
    decreases |fs|
  {
    if fs == [] then Ok([])
    else
      match Denote(fs[0], item, n, G)
      case Err(e) => Err(e)
      case Ok(v) => Prepend([fmt(fs[0].dataFormat, v)], RowOf(fmt, fs[1..], item, n, G))
  }

  /**
    `write_row`'s row succeeds exactly when every field's value does, and then
    holds one formatted value per field, in registry order.
   */
  lemma {:induction false} RowValues(fmt: Formatter, fs: seq<Field>, item: Item, n: int, G: Graph)
    requires Acyclic(G) && forall h :: h in fs ==> h in G.U
    ensures RowOf(fmt, fs, item, n, G).Ok? <==> forall k :: 0 <= k < |fs| ==> Denote(fs[k], item, n, G).Ok?
    ensures RowOf(fmt, fs, item, n, G).Ok? ==> (
      |RowOf(fmt, fs, item, n, G).value| == |fs| &&
      forall k :: 0 <= k < |fs| ==>
        RowOf(fmt, fs, item, n, G).value[k] == fmt(fs[k].dataFormat, Denote(fs[k], item, n, G).value))
    decreases |fs|
  {
    if fs != [] {
      RowValues(fmt, fs[1..], item, n, G);
      assert forall k :: 1 <= k < |fs| ==> fs[1..][k - 1] == fs[k];
    }
  }

  /** One step of `RowOf` along a suffix of `fs`. */
  lemma RowOfStep(fmt: Formatter, fs: seq<Field>, i: nat, item: Item, n: int, G: Graph)
    requires i < |fs| && Acyclic(G) && forall h :: h in fs ==> h in G.U
    ensures RowOf(fmt, fs[i..], item, n, G) ==
      match Denote(fs[i], item, n, G)
      case Err(e) => Err(e)
      case Ok(v) => Prepend([fmt(fs[i].dataFormat, v)], RowOf(fmt, fs[i + 1..], item, n, G))
  {
    assert fs[i..][0] == fs[i] && fs[i..][1..] == fs[i + 1..];
  }

  /** A row fails with the error of its first failing field. */
  lemma {:induction false} RowFailsAt(fmt: Formatter, fs: seq<Field>, item: Item, n: int, G: Graph, k: nat)
    requires Acyclic(G) && forall h :: h in fs ==> h in G.U
    requires k < |fs| && Denote(fs[k], item, n, G).Err?
    requires forall j :: 0 <= j < k ==> Denote(fs[j], item, n, G).Ok?
    ensures RowOf(fmt, fs, item, n, G) == Err(Denote(fs[k], item, n, G).error)
    decreases k
  {
    if k > 0 {
      assert forall j :: 0 <= j < k - 1 ==> fs[1..][j] == fs[j + 1];
      RowFailsAt(fmt, fs[1..], item, n, G, k - 1);
    }
  }

  /**
    A multi column whose sequence is too short is accepted when it is declared
    and fails only when a row is written: the row for an item whose tuple has no
    element `idx` fails with IndexError(idx), provided no earlier column failed.
   */
  lemma ShortMultiFails(fmt: Formatter, fs: seq<Field>, item: Item, n: int, G: Graph, k: nat)
    requires Acyclic(G) && forall h :: h in fs ==> h in G.U
    requires k < |fs| && fs[k].kind.Multi?
    requires var s := Denote(fs[k].kind.seqField, item, n, G); s.Ok? && s.value.Seq? && |s.value.elems| <= fs[k].kind.idx
    requires forall j :: 0 <= j < k ==> Denote(fs[j], item, n, G).Ok?
    ensures RowOf(fmt, fs, item, n, G) == Err(IndexError(fs[k].kind.idx))
  {
    MultiValue(fs[k], item, n, G);
    RowFailsAt(fmt, fs, item, n, G, k);
  }

  /**
    The rows `write_all` puts out: one `write_row` per item, numbered from `n`,
    stopping at the first row that fails.
   */
  ghost function Table(fmt: Formatter, fs: seq<Field>, items: seq<Item>, n: int, G: Graph): Written
    requires Acyclic(G) && forall h :: h in fs ==> h in G.U
    decreases |items|
  {
    if items == [] then Written([], Pass)
    else
      match RowOf(fmt, fs, items[0], n, G)
      case Err(e) => Written([], Fail(e))
      case Ok(row) => After(row, Table(fmt, fs, items[1..], n + 1, G))
  }

  /** One step of `Table` along a suffix of `items`. */
  lemma TableStep(fmt: Formatter, fs: seq<Field>, items: seq<Item>, i: nat, n: int, G: Graph)
    requires i < |items| && Acyclic(G) && forall h :: h in fs ==> h in G.U
    ensures Table(fmt, fs, items[i..], n, G) ==
      match RowOf(fmt, fs, items[i], n, G)
      case Err(e) => Written([], Fail(e))
      case Ok(row) => After(row, Table(fmt, fs, items[i + 1..], n + 1, G))
  {
    assert items[i..][0] == items[i] && items[i..][1..] == items[i + 1..];
  }

  /**
    After `done` rows of `write_all`, the table is those rows followed by the
    table of the remaining items.
   */
  ghost predicate TableSoFar(fmt: Formatter, fs: seq<Field>, items: seq<Item>, n: int, G: Graph,
                             done: seq<seq<string>>)
    requires Acyclic(G) && forall h :: h in fs ==> h in G.U
  {
    var i := |done|;
    i <= |items| &&
    var t := Table(fmt, fs, items[i..], n + i, G);
    Table(fmt, fs, items, n, G) == Written(done + t.rows, t.outcome)
  }

  /** Before any row, the table is all still to come. */
  lemma TableFrom(fmt: Formatter, fs: seq<Field>, items: seq<Item>, n: int, G: Graph)
    requires Acyclic(G) && forall h :: h in fs ==> h in G.U
    ensures TableSoFar(fmt, fs, items, n, G, [])
  {
    assert items[0..] == items;
    assert [] + Table(fmt, fs, items, n, G).rows == Table(fmt, fs, items, n, G).rows;
  }

  /** A row written for the next item is the table's next row. */
  lemma TableGrows(fmt: Formatter, fs: seq<Field>, items: seq<Item>, n: int, G: Graph,
                   done: seq<seq<string>>, row: seq<string>)
    requires Acyclic(G) && forall h :: h in fs ==> h in G.U
    requires TableSoFar(fmt, fs, items, n, G, done) && |done| < |items|
    requires RowOf(fmt, fs, items[|done|], n + |done|, G) == Ok(row)
    ensures TableSoFar(fmt, fs, items, n, G, done + [row])
  {
    var i := |done|;
    TableStep(fmt, fs, items, i, n + i, G);
    var t := Table(fmt, fs, items[i + 1..], n + i + 1, G);
    assert done + ([row] + t.rows) == (done + [row]) + t.rows;
  }

  /** A row that fails for the next item ends the table there, with its error. */
  lemma TableFails(fmt: Formatter, fs: seq<Field>, items: seq<Item>, n: int, G: Graph,
                   done: seq<seq<string>>, e: Error)
    requires Acyclic(G) && forall h :: h in fs ==> h in G.U
    requires TableSoFar(fmt, fs, items, n, G, done) && |done| < |items|
    requires RowOf(fmt, fs, items[|done|], n + |done|, G) == Err(e)
    ensures Table(fmt, fs, items, n, G) == Written(done, Fail(e))
  {
    TableStep(fmt, fs, items, |done|, n + |done|, G);
    assert done + [] == done;
  }

  /** Once every item has its row, the table is exactly those rows. */
  lemma TableDone(fmt: Formatter, fs: seq<Field>, items: seq<Item>, n: int, G: Graph, done: seq<seq<string>>)
    requires Acyclic(G) && forall h :: h in fs ==> h in G.U
    requires TableSoFar(fmt, fs, items, n, G, done) && |done| == |items|
    ensures Table(fmt, fs, items, n, G) == Written(done, Pass)
  {
    assert items[|done|..] == [] && done + [] == done;
  }

  /**
    `write_all` is repeated `write_row`: row `k` of the table is the row for item
    `k` at row number `n + k`.
   */
  lemma {:induction false} TableRows(fmt: Formatter, fs: seq<Field>, items: seq<Item>, n: int, G: Graph)
    requires Acyclic(G) && forall h :: h in fs ==> h in G.U
    ensures var w := Table(fmt, fs, items, n, G);
      |w.rows| <= |items| &&
      forall k :: 0 <= k < |w.rows| ==> RowOf(fmt, fs, items[k], n + k, G) == Ok(w.rows[k])
    decreases |items|
  {
    if items != [] && RowOf(fmt, fs, items[0], n, G).Ok? {
      TableRows(fmt, fs, items[1..], n + 1, G);
      var w := Table(fmt, fs, items, n, G);
      var w' := Table(fmt, fs, items[1..], n + 1, G);
      assert w.rows == [RowOf(fmt, fs, items[0], n, G).value] + w'.rows;
      forall k | 1 <= k < |w.rows|
        ensures RowOf(fmt, fs, items[k], n + k, G) == Ok(w.rows[k])
      {
        assert items[1..][k - 1] == items[k] && w.rows[k] == w'.rows[k - 1];
      }
    }
  }

  /**
    `write_all` stops exactly at the first failing item and reports its error;
    it passes exactly when every item was written.
   */
  lemma {:induction false} TableOutcome(fmt: Formatter, fs: seq<Field>, items: seq<Item>, n: int, G: Graph)
    requires Acyclic(G) && forall h :: h in fs ==> h in G.U
    ensures var w := Table(fmt, fs, items, n, G);
      |w.rows| <= |items| &&
      (w.outcome.Pass? <==> |w.rows| == |items|) &&
      (w.outcome.Fail? ==> RowOf(fmt, fs, items[|w.rows|], n + |w.rows|, G) == Err(w.outcome.error))
    decreases |items|
  {
    if items != [] && RowOf(fmt, fs, items[0], n, G).Ok? {
      TableOutcome(fmt, fs, items[1..], n + 1, G);
      var w' := Table(fmt, fs, items[1..], n + 1, G);
      if w'.outcome.Fail? {
        assert items[1..][|w'.rows|] == items[|w'.rows| + 1];
      }
    }
  }

  /**
    `_Counter._eval`: in every row of a run, a counter column holds
    `start + row_number * step`, whatever the item.
   */
  lemma CounterColumn(fmt: Formatter, fs: seq<Field>, items: seq<Item>, n: int, G: Graph, c: nat)
    requires Acyclic(G) && forall h :: h in fs ==> h in G.U
    requires c < |fs| && fs[c].kind.Counter?
    ensures var w := Table(fmt, fs, items, n, G);
      forall k :: 0 <= k < |w.rows| ==>
        |w.rows[k]| == |fs| && w.rows[k][c] == fmt(fs[c].dataFormat, Int(fs[c].kind.start + (n + k) * fs[c].kind.step))
  {
    TableRows(fmt, fs, items, n, G);
    var w := Table(fmt, fs, items, n, G);
    forall k | 0 <= k < |w.rows|
      ensures |w.rows[k]| == |fs| && w.rows[k][c] == fmt(fs[c].dataFormat, Int(fs[c].kind.start + (n + k) * fs[c].kind.step))
    {
      RowValues(fmt, fs, items[k], n + k, G);
    }
  }

  /** `f` is the column with header `header` and data format `dataFormat` that reads element `idx` of `seqField`. */
  ghost predicate IsMultiColumn(f: Field, header: string, dataFormat: string, seqField: Field, idx: nat)
  {
    f.header == header && f.dataFormat == dataFormat &&
    f.kind.Multi? && f.kind.seqField == seqField && f.kind.idx == idx
  }

  /**
    `cols` are the columns of one `add_multi`, in order: column `k` is headed
    `headerTemplate.format(k + 1)` and reads element `k` of `seqField`.
   */
  ghost predicate MultiColumns(cols: seq<Field>, fmt: Formatter, headerTemplate: string, dataFormat: string,
                               seqField: Field)
  {
    forall k :: 0 <= k < |cols| ==> IsMultiColumn(cols[k], fmt(headerTemplate, Int(k + 1)), dataFormat, seqField, k)
  }

  /** The next column of an `add_multi` extends its columns. */
  lemma MultiColumnsAppend(cols: seq<Field>, fmt: Formatter, headerTemplate: string, dataFormat: string,
                           seqField: Field, f: Field)
    requires MultiColumns(cols, fmt, headerTemplate, dataFormat, seqField)
    requires IsMultiColumn(f, fmt(headerTemplate, Int(|cols| + 1)), dataFormat, seqField, |cols|)
    ensures MultiColumns(cols + [f], fmt, headerTemplate, dataFormat, seqField)
  {
    forall k | 0 <= k < |cols| + 1
      ensures IsMultiColumn((cols + [f])[k], fmt(headerTemplate, Int(k + 1)), dataFormat, seqField, k)
    {
      if k < |cols| {
        assert (cols + [f])[k] == cols[k];
      }
    }
  }

  /** Appending one element to the end of a concatenation. */
  lemma AppendOne<T>(a: seq<T>, b: seq<T>, x: T)
    ensures a + (b + [x]) == (a + b) + [x]
  {
  }

  /** The set of the elements of `s` grows by `x` when `x` is appended. */
  lemma ElementsAppend<T>(s: seq<T>, x: T)
    ensures (set y | y in s + [x]) == (set y | y in s) + {x}
  {
  }

  /** Every id bound in `a` is still bound in `b`, to the same list object. */
  ghost predicate Keeps(a: map<string, FieldList>, b: map<string, FieldList>)
  {
    forall id :: id in a ==> id in b && b[id] == a[id]
  }

  /** The header row: every field's header, in registry order. */
  function Headers(fs: seq<Field>): (hs: seq<string>)
    ensures |hs| == |fs| && forall k :: 0 <= k < |fs| ==> hs[k] == fs[k].header
  {
    if fs == [] then [] else [fs[0].header] + Headers(fs[1..])
  }

  /** `row`, written at row number `n`, has one entry per column, and every counter column holds `start + n * step`, formatted. */
  ghost predicate CounterRow(fmt: Formatter, fs: seq<Field>, row: seq<string>, n: int)
  {
    |row| == |fs| &&
    forall c :: 0 <= c < |fs| && fs[c].kind.Counter? ==>
      row[c] == fmt(fs[c].dataFormat, Int(fs[c].kind.start + n * fs[c].kind.step))
  }

  /** A row made of its fields' memos for row `n` is right on its counter columns. */
  lemma CounterRowOfMemos(fmt: Formatter, fs: seq<Field>, row: seq<string>, n: int, U: set<Field>)
    requires 0 <= n && CounterMemos(U) && forall h :: h in fs ==> h in U
    requires |row| == |fs| && forall k :: 0 <= k < |fs| ==> fs[k].lastRow == n && row[k] == fmt(fs[k].dataFormat, fs[k].lastValue)
    ensures CounterRow(fmt, fs, row, n)
  {
    forall c | 0 <= c < |fs| && fs[c].kind.Counter?
      ensures row[c] == fmt(fs[c].dataFormat, Int(fs[c].kind.start + n * fs[c].kind.step))
    {
      assert fs[c] in U;
    }
  }

  /** `CounterRow` for each of `rows`, written at row numbers `n`, `n + 1`, and so on. */
  ghost predicate CounterRows(fmt: Formatter, fs: seq<Field>, rows: seq<seq<string>>, n: int)
  {
    forall k :: 0 <= k < |rows| ==> CounterRow(fmt, fs, rows[k], n + k)
  }

  /** One more row, written at the next row number, keeps `CounterRows`. */
  lemma CounterRowsAppend(fmt: Formatter, fs: seq<Field>, rows: seq<seq<string>>, n: int, row: seq<string>)
    requires CounterRows(fmt, fs, rows, n) && CounterRow(fmt, fs, row, n + |rows|)
    ensures CounterRows(fmt, fs, rows + [row], n)
  {
    forall k | 0 <= k < |rows| + 1 ensures CounterRow(fmt, fs, (rows + [row])[k], n + k) {
      if k < |rows| {
        assert (rows + [row])[k] == rows[k];
      }
    }
  }

  /** The aggregation graph over the fields `U` and the lists `Ls` as they are now, ranked by `rank`. */
  ghost function Picture(U: set<Field>, Ls: set<FieldList>, rank: map<Field, nat>): Graph
    reads Ls
  {
    Graph(U, map l | l in Ls :: l.fields, rank)
  }

  /**
    The loop of `write_row`: each field of `fs` in order, evaluated through its
    memo for `item` at row `n` and formatted; the first error stops the row.
   */
  method EvalRow(fmt: Formatter, fs: seq<Field>, item: Item, n: int, ghost G: Graph) returns (r: Result<seq<string>>)
    requires Closed(G) && Current(G) && forall h :: h in fs ==> h in G.U
    modifies G.U
    ensures r.Ok? ==> |r.value| == |fs|
    ensures forall g {:trigger g in G.U} :: g in G.U ==>
      (g.lastRow == old(g.lastRow) && g.lastValue == old(g.lastValue) && g.computed == old(g.computed)) ||
      (old(g.lastRow) != n && g.lastRow == n && g.computed == old(g.computed) + [n])
    ensures old(Sound(G, item, n, {})) ==> r == RowOf(fmt, fs, item, n, G)
    // a field whose memo is already for row `n` writes its memoised value, whatever the item
    ensures r.Ok? ==> forall k :: 0 <= k < |fs| && old(fs[k].lastRow) == n ==>
      r.value[k] == fmt(fs[k].dataFormat, old(fs[k].lastValue))
    // the field that raised keeps its mark for row `n`
    ensures r.Err? ==> exists k :: 0 <= k < |fs| && fs[k].lastRow == n
    // every column written is its field's memo for row `n`
    ensures r.Ok? ==> forall k :: 0 <= k < |fs| ==> fs[k].lastRow == n && r.value[k] == fmt(fs[k].dataFormat, fs[k].lastValue)
    ensures old(CounterMemos(G.U)) ==> CounterMemos(G.U)
  {
    ghost var cm := CounterMemos(G.U);
    ghost var hyp := Sound(G, item, n, {});
    var row: seq<string> := [];
    var i := 0;
    assert fs[0..] == fs;
    assert hyp ==> RowOf(fmt, fs, item, n, G) == Prepend(row, RowOf(fmt, fs[i..], item, n, G)) by {
      if hyp {
        PrependNothing(RowOf(fmt, fs, item, n, G));
      }
    }
    while i < |fs|
      invariant 0 <= i <= |fs| && |row| == i
      invariant forall g {:trigger g in G.U} :: g in G.U ==>
        (g.lastRow == old(g.lastRow) && g.lastValue == old(g.lastValue) && g.computed == old(g.computed)) ||
        (old(g.lastRow) != n && g.lastRow == n && g.computed == old(g.computed) + [n])
      invariant hyp ==> Sound(G, item, n, {})
      invariant hyp ==> RowOf(fmt, fs, item, n, G) == Prepend(row, RowOf(fmt, fs[i..], item, n, G))
      invariant forall k :: 0 <= k < i ==> fs[k].lastRow == n && row[k] == fmt(fs[k].dataFormat, fs[k].lastValue)
      invariant cm ==> CounterMemos(G.U)
    {
      var v := fs[i].Eval(item, n, G, {});
      if hyp {
        RowOfStep(fmt, fs, i, item, n, G);
        if v.Ok? {
          PrependTwice(row, fmt(fs[i].dataFormat, v.value), RowOf(fmt, fs[i + 1..], item, n, G));
        }
      }
      if v.Err? {
        assert fs[i].lastRow == n;
        return Err(v.error);
      }
      row := row + [fmt(fs[i].dataFormat, v.value)];
      i := i + 1;
    }
    assert fs[i..] == [] && row + [] == row;
    r := Ok(row);
  }

  class Writer {
    /** `str.format` as the csv rows see it. */
    const fmt: Formatter
    /** `_fields`: the columns, in the order they were added. */
    var fields: seq<Field>
    /** `_to_aggregate`: the aggregation list of every aggregate id used so far. */
    var toAggregate: map<string, FieldList>
    /** `_row_count`: the number of rows written. */
    var rowCount: nat
    /** The rows handed to the csv writer, header rows included. */
    var sink: seq<seq<string>>
    /** Every field reachable from the writer, including the sequence fields of multi columns. */
    ghost var Universe: set<Field>
    /** Every aggregation list. */
    ghost var Lists: set<FieldList>

    /**
      Every id has its own list, every list is known, and the lists hold known
      fields only.
     */
    ghost predicate Registry()
      reads this, Lists
    {
      (forall id :: id in toAggregate ==> toAggregate[id] in Lists) &&
      (forall a, b :: a in toAggregate && b in toAggregate && toAggregate[a] == toAggregate[b] ==> a == b) &&
      (forall l, k :: l in Lists && 0 <= k < |l.fields| ==> l.fields[k] in Universe)
    }

    ghost predicate Valid()
      reads this, Universe, Lists
    {
      Registry() &&
      (forall k :: 0 <= k < |fields| ==> fields[k] in Universe) &&
      (forall g :: g in Universe ==>
        (g.kind.Aggregator? ==> g.kind.members in Lists) && (g.kind.Multi? ==> g.kind.seqField in Universe)) &&
      MemosLogged(Universe, rowCount) && CounterMemos(Universe)
    }

    /** `rank` orders the aggregation graph: no aggregator depends on itself, directly or not. */
    ghost predicate Ranked(rank: map<Field, nat>)
      reads this, Lists
    {
      Acyclic(Picture(Universe, Lists, rank))
    }

    /** No memo is for the row about to be written (false only after a failed write). */
    ghost predicate Fresh()
      reads this, Universe
    {
      MemosBefore(Universe, rowCount)
    }

    /** The fields aggregated under `id`, in registration order. */
    ghost function Members(id: string): seq<Field>
      reads this, toAggregate.Values
    {
      if id in toAggregate then toAggregate[id].fields else []
    }

    constructor (fmt: Formatter)
      ensures Valid() && Fresh()
      ensures this.fmt == fmt && fields == [] && toAggregate == map[] && rowCount == 0 && sink == []
      ensures Universe == {} && Lists == {}
    {
      this.fmt := fmt;
      fields := [];
      toAggregate := map[];
      rowCount := 0;
      sink := [];
      Universe := {};
      Lists := {};
    }

    /** `_to_aggregate[id]` on the defaultdict: the list for `id`, created empty when missing. */
    method Lookup(id: string) returns (l: FieldList)
      requires Registry()
      modifies this`toAggregate, this`Lists
      ensures Registry() && (old(Valid()) ==> Valid())
      ensures id in toAggregate && l == toAggregate[id] && l in Lists
      ensures id in old(toAggregate) ==> toAggregate == old(toAggregate) && Lists == old(Lists)
      ensures id !in old(toAggregate) ==>
        fresh(l) && l.fields == [] && toAggregate == old(toAggregate)[id := l] && Lists == old(Lists) + {l}
      ensures forall other :: Members(other) == old(Members(other))
      ensures forall other :: other in old(toAggregate) ==> other in toAggregate && toAggregate[other] == old(toAggregate)[other]
      ensures old(Lists) <= Lists
    {
      if id in toAggregate {
        l := toAggregate[id];
      } else {
        l := new FieldList();
        toAggregate := toAggregate[id := l];
        Lists := Lists + {l};
      }
    }

    /** `self._to_aggregate[id_].append(field)`. */
    method AppendTo(id: string, f: Field)
      requires Registry() && f in Universe
      modifies this`toAggregate, this`Lists, Lists
      ensures Registry()
      ensures forall other :: other in old(toAggregate) ==> other in toAggregate && toAggregate[other] == old(toAggregate)[other]
      ensures Members(id) == old(Members(id)) + [f]
      ensures forall other :: other != id ==> Members(other) == old(Members(other))
      ensures old(Lists) <= Lists && forall l :: l in Lists ==> l in old(Lists) || fresh(l)
    {
      var l := Lookup(id);
      l.fields := l.fields + [f];
    }

    /** `_add_to_aggregate`: appends `f` to the list of every id in `ids`. */
    method AddToAggregate(f: Field, ids: set<string>)
      requires Registry() && f in Universe
      modifies this`toAggregate, this`Lists, Lists
      ensures Registry()
      ensures forall id :: id in old(toAggregate) ==> id in toAggregate && toAggregate[id] == old(toAggregate)[id]
      ensures forall id :: id in ids ==> Members(id) == old(Members(id)) + [f]
      ensures forall id :: id !in ids ==> Members(id) == old(Members(id))
      ensures old(Lists) <= Lists && forall l :: l in Lists ==> l in old(Lists) || fresh(l)
    {
      var todo := ids;
      ghost var done: set<string> := {};
      while todo != {}
        invariant todo == ids - done && done <= ids
        invariant Registry()
        invariant forall id :: id in old(toAggregate) ==> id in toAggregate && toAggregate[id] == old(toAggregate)[id]
        invariant forall id :: id in done ==> Members(id) == old(Members(id)) + [f]
        invariant forall id :: id !in done ==> Members(id) == old(Members(id))
        invariant old(Lists) <= Lists && forall l :: l in Lists ==> l in old(Lists) || fresh(l)
        decreases todo
      {
        var id :| id in todo;
        AppendTo(id, f);
        done := done + {id};
        todo := todo - {id};
      }
    }

    /** `self._fields.append(field)` followed by `self._add_to_aggregate(field, aggregate_ids)`. */
    method Register(f: Field, aggregateIds: set<string>)
      requires Valid() && f.lastRow == -1 && f.computed == []
      requires f.kind.Aggregator? ==> f.kind.members in Lists
      requires f.kind.Multi? ==> f.kind.seqField in Universe
      modifies this`fields, this`Universe, this`toAggregate, this`Lists, Lists
      ensures Valid() && (old(Fresh()) ==> Fresh())
      ensures fields == old(fields) + [f] && Universe == old(Universe) + {f}
      ensures Keeps(old(toAggregate), toAggregate)
      ensures forall id :: Members(id) == old(Members(id)) + (if id in aggregateIds then [f] else [])
      ensures old(Lists) <= Lists && forall l :: l in Lists ==> l in old(Lists) || fresh(l)
    {
      MemosAdd(Universe, rowCount, f);
      fields := fields + [f];
      Universe := Universe + {f};
      AddToAggregate(f, aggregateIds);
    }

    /** `add_column`: a simple column, appended to the registry and to the lists of `aggregateIds`. */
    method AddColumn(header: string, evaluator: Evaluator, dataFormat: string := "{}", aggregateIds: set<string> := {})
      requires Valid()
      modifies this`fields, this`Universe, this`toAggregate, this`Lists, Lists
      ensures Valid() && (old(Fresh()) ==> Fresh())
      ensures |fields| == |old(fields)| + 1 && fields[..|old(fields)|] == old(fields)
      ensures var f := fields[|old(fields)|];
        fresh(f) && f.header == header && f.dataFormat == dataFormat &&
        f.kind.Simple? && f.kind.evaluator == Normalise(evaluator)
      ensures Keeps(old(toAggregate), toAggregate)
      ensures forall id :: Members(id) == old(Members(id)) + (if id in aggregateIds then [fields[|old(fields)|]] else [])
      ensures Universe == old(Universe) + {fields[|old(fields)|]}
      ensures old(Lists) <= Lists && forall l :: l in Lists ==> l in old(Lists) || fresh(l)
    {
      var f := new Field(header, dataFormat, Simple(Normalise(evaluator)));
      Register(f, aggregateIds);
    }

    /**
      `add_aggregator`: a column applying `aggregate` to the fields registered
      under `aggregateId`. It holds the id's list itself, so fields registered
      under that id later are aggregated too.
     */
    method AddAggregator(aggregateId: string, header: string, aggregate: seq<Value> -> Value,
                         dataFormat: string := "{}", aggregateIds: set<string> := {})
      requires Valid()
      modifies this`fields, this`Universe, this`toAggregate, this`Lists, Lists
      ensures Valid() && (old(Fresh()) ==> Fresh())
      ensures |fields| == |old(fields)| + 1 && fields[..|old(fields)|] == old(fields)
      ensures var f := fields[|old(fields)|];
        fresh(f) && f.header == header && f.dataFormat == dataFormat &&
        f.kind.Aggregator? && f.kind.aggregate == aggregate &&
        aggregateId in toAggregate && f.kind.members == toAggregate[aggregateId]
      ensures Keeps(old(toAggregate), toAggregate)
      ensures forall id :: Members(id) == old(Members(id)) + (if id in aggregateIds then [fields[|old(fields)|]] else [])
      ensures Universe == old(Universe) + {fields[|old(fields)|]}
      ensures old(Lists) <= Lists && forall l :: l in Lists ==> l in old(Lists) || fresh(l)
    {
      var l := Lookup(aggregateId);
      var f := new Field(header, dataFormat, Aggregator(aggregate, l));
      Register(f, aggregateIds);
    }

    /** `add_counter`: a column holding `start + row_number * step`, formatted with `{}`. */
    method AddCounter(header: string, start: int := 1, step: int := 1, aggregateIds: set<string> := {})
      requires Valid()
      modifies this`fields, this`Universe, this`toAggregate, this`Lists, Lists
      ensures Valid() && (old(Fresh()) ==> Fresh())
      ensures |fields| == |old(fields)| + 1 && fields[..|old(fields)|] == old(fields)
      ensures var f := fields[|old(fields)|];
        fresh(f) && f.header == header && f.dataFormat == "{}" && f.kind == Counter(start, step)
      ensures Keeps(old(toAggregate), toAggregate)
      ensures forall id :: Members(id) == old(Members(id)) + (if id in aggregateIds then [fields[|old(fields)|]] else [])
      ensures Universe == old(Universe) + {fields[|old(fields)|]}
      ensures old(Lists) <= Lists && forall l :: l in Lists ==> l in old(Lists) || fresh(l)
    {
      var f := new Field(header, "{}", Counter(start, step));
      Register(f, aggregateIds);
    }

    /** One column of `add_multi`: element `idx` of `sf`, registered like any other field. */
    method AddMultiItem(sf: Field, header: string, dataFormat: string, idx: nat, aggregateIds: set<string>)
      returns (f: Field)
      requires Valid() && sf in Universe
      modifies this`fields, this`Universe, this`toAggregate, this`Lists, Lists
      ensures Valid() && (old(Fresh()) ==> Fresh()) && sf in Universe
      ensures fields == old(fields) + [f] && fresh(f) && IsMultiColumn(f, header, dataFormat, sf, idx)
      ensures forall id :: Members(id) == old(Members(id)) + (if id in aggregateIds then [f] else [])
      ensures Universe == old(Universe) + {f}
      ensures Keeps(old(toAggregate), toAggregate)
      ensures old(Lists) <= Lists && forall l :: l in Lists ==> l in old(Lists) || fresh(l)
    {
      f := new Field(header, dataFormat, Multi(sf, idx));
      Register(f, aggregateIds);
    }

    /**
      The loop of `add_multi`: columns `1..numItems`, each reading its element of
      `sf` and registered in turn; `added` are the new columns, in order.
     */
    method AddMultiColumns(sf: Field, headerTemplate: string, numItems: int, dataFormat: string,
                           aggregateIds: set<string>)
      returns (ghost added: seq<Field>)
      requires Valid() && sf in Universe
      modifies this`fields, this`Universe, this`toAggregate, this`Lists, Lists
      ensures Valid() && (old(Fresh()) ==> Fresh())
      ensures |added| == (if numItems < 0 then 0 else numItems) && fields == old(fields) + added
      ensures (forall f :: f in added ==> fresh(f)) && MultiColumns(added, fmt, headerTemplate, dataFormat, sf)
      ensures forall id :: Members(id) == old(Members(id)) + (if id in aggregateIds then added else [])
      ensures Universe == old(Universe) + (set f | f in added)
      ensures Keeps(old(toAggregate), toAggregate)
      ensures old(Lists) <= Lists && forall l :: l in Lists ==> l in old(Lists) || fresh(l)
    {
      added := [];
      var i := 1;
      while i <= numItems
        invariant 1 <= i <= (if numItems < 1 then 1 else numItems + 1) && |added| == i - 1
        invariant Valid() && (old(Fresh()) ==> Fresh()) && sf in Universe
        invariant fields == old(fields) + added
        invariant (forall f :: f in added ==> fresh(f)) && MultiColumns(added, fmt, headerTemplate, dataFormat, sf)
        invariant forall id :: Members(id) == old(Members(id)) + (if id in aggregateIds then added else [])
        invariant old(Lists) <= Lists && forall l :: l in Lists ==> l in old(Lists) || fresh(l)
        invariant Universe == old(Universe) + (set f | f in added)
        invariant Keeps(old(toAggregate), toAggregate)
      {
        ghost var prev := added;
        var f := AddMultiItem(sf, fmt(headerTemplate, Int(i)), dataFormat, i - 1, aggregateIds);
        added := added + [f];
        ElementsAppend(prev, f);
        forall id
          ensures Members(id) == old(Members(id)) + (if id in aggregateIds then added else [])
        {
          if id in aggregateIds {
            AppendOne(old(Members(id)), prev, f);
          } else {
            assert old(Members(id)) + [] == old(Members(id));
          }
        }
        MultiColumnsAppend(prev, fmt, headerTemplate, dataFormat, sf, f);
        i := i + 1;
      }
    }

    /** The hidden field of `add_multi` joins the writer's fields, but neither the registry nor any list. */
    method AddHidden(sf: Field)
      requires Valid() && sf.lastRow == -1 && sf.computed == []
      requires sf.kind.Simple?
      modifies this`Universe
      ensures Valid() && (old(Fresh()) ==> Fresh())
      ensures Universe == old(Universe) + {sf}
      ensures forall id :: Members(id) == old(Members(id))
    {
      MemosAdd(Universe, rowCount, sf);
      Universe := Universe + {sf};
    }

    /**
      `add_multi`: one hidden field holding `tuple(evaluator(item))`, then
      `numItems` columns, the `i`-th headed `headerTemplate.format(i)` and
      reading element `i - 1` of that tuple.
     */
    method AddMulti(headerTemplate: string, evaluator: Evaluator, numItems: int,
                    dataFormat: string := "{}", aggregateIds: set<string> := {})
      returns (ghost seqField: Field)
      requires Valid()
      modifies this`fields, this`Universe, this`toAggregate, this`Lists, Lists
      ensures Valid() && (old(Fresh()) ==> Fresh())
      ensures fresh(seqField) && seqField.header == "" && seqField.dataFormat == "{}" &&
        seqField.kind.Simple? && seqField.kind.evaluator == Tupled(Normalise(evaluator))
      ensures |fields| == |old(fields)| + (if numItems < 0 then 0 else numItems)
      ensures fields[..|old(fields)|] == old(fields)
      ensures (forall f :: f in fields[|old(fields)|..] ==> fresh(f)) &&
        MultiColumns(fields[|old(fields)|..], fmt, headerTemplate, dataFormat, seqField)
      ensures forall id :: Members(id) == old(Members(id)) + (if id in aggregateIds then fields[|old(fields)|..] else [])
      ensures Universe == old(Universe) + {seqField} + (set f | f in fields[|old(fields)|..])
      ensures Keeps(old(toAggregate), toAggregate)
      ensures old(Lists) <= Lists && forall l :: l in Lists ==> l in old(Lists) || fresh(l)
    {
      var sf := new Field("", "{}", Simple(Tupled(Normalise(evaluator))));
      AddHidden(sf);
      seqField := sf;
      ghost var added := AddMultiColumns(sf, headerTemplate, numItems, dataFormat, aggregateIds);
      assert fields[|old(fields)|..] == added;
    }

    /** `write_header`: one row of the column headers, in registry order. */
    method WriteHeader()
      modifies this`sink
      ensures sink == old(sink) + [Headers(fields)]
    {
      sink := sink + [Headers(fields)];
    }

    /** The picture of a valid writer is closed and agrees with the heap. */
    lemma PictureClosed(rank: map<Field, nat>)
      requires Valid()
      ensures Picture(Universe, Lists, rank).U == Universe
      ensures Closed(Picture(Universe, Lists, rank)) && Current(Picture(Universe, Lists, rank))
      ensures forall h :: h in fields ==> h in Universe
    {
      var G := Picture(Universe, Lists, rank);
      forall g | g in G.U && g.kind.Aggregator?
        ensures g.kind.members in G.lists && forall h :: h in G.lists[g.kind.members] ==> h in G.U
      {
        var l := g.kind.members;
        forall h | h in G.lists[l] ensures h in G.U {
          var k :| 0 <= k < |l.fields| && l.fields[k] == h;
        }
      }
      forall h | h in fields ensures h in Universe {
        var k :| 0 <= k < |fields| && fields[k] == h;
      }
    }

    /** In a valid writer, `_eval` has run at most once per field and row. */
    lemma EvaluatedAtMostOnce(row: int)
      requires Valid()
      ensures forall g :: g in Universe ==> multiset(g.computed)[row] <= 1
    {
      forall g | g in Universe ensures multiset(g.computed)[row] <= 1 {
        assert MemoLog(g.computed, g.lastRow, rowCount);
        AtMostOnce(g.computed, row);
      }
    }

    /**
      An aggregator registered for `id` aggregates the fields registered under
      `id` when the row is written, those added after it included, in the order
      they were added: it succeeds exactly when all of them do.
     */
    lemma AggregatesMembers(f: Field, id: string, item: Item, row: int, rank: map<Field, nat>)
      requires Valid() && Ranked(rank) && f in Universe && f.kind.Aggregator?
      requires id in toAggregate && f.kind.members == toAggregate[id]
      ensures var G := Picture(Universe, Lists, rank);
        var fs := Members(id);
        (forall h :: h in fs ==> h in G.U) &&
        (Denote(f, item, row, G).Ok? <==> forall k :: 0 <= k < |fs| ==> Denote(fs[k], item, row, G).Ok?) &&
        (Denote(f, item, row, G).Ok? ==>
          exists vs: seq<Value> ::
            |vs| == |fs| && (forall k :: 0 <= k < |fs| ==> vs[k] == Denote(fs[k], item, row, G).value) &&
            Denote(f, item, row, G).value == f.kind.aggregate(vs))
    {
      var G := Picture(Universe, Lists, rank);
      PictureClosed(rank);
      assert G.lists[f.kind.members] == Members(id);
      AggregatorValue(f, item, row, G);
    }

    /**
      The evaluation part of `write_row`: every column through its memo, for
      row `_row_count`; the memo logs stay in order and no memo gets ahead of
      that row.
     */
    method EvalFields(item: Item, ghost rank: map<Field, nat>, ghost G: Graph) returns (r: Result<seq<string>>)
      requires Valid() && G == Picture(Universe, Lists, rank) && Closed(G) && Current(G)
      requires forall h :: h in fields ==> h in Universe
      modifies Universe
      ensures Picture(Universe, Lists, rank) == G
      ensures MemosLogged(Universe, rowCount) && MemosBefore(Universe, rowCount + 1)
      ensures r.Ok? ==> |r.value| == |fields|
      ensures forall g :: g in Universe ==>
        g.computed == old(g.computed) || g.computed == old(g.computed) + [rowCount]
      ensures old(Sound(G, item, rowCount, {})) ==> r == RowOf(fmt, fields, item, rowCount, G)
      ensures r.Ok? ==> forall k :: 0 <= k < |fields| && old(fields[k].lastRow) == rowCount ==>
        r.value[k] == fmt(fields[k].dataFormat, old(fields[k].lastValue))
      ensures r.Err? ==> !Fresh()
      ensures CounterMemos(Universe)
      ensures r.Ok? ==> CounterRow(fmt, fields, r.value, rowCount)
    {
      r := EvalRow(fmt, fields, item, rowCount, G);
      forall g | g in Universe
        ensures MemoLog(g.computed, g.lastRow, rowCount) && g.lastRow < rowCount + 1
      {
        assert MemoLog(old(g.computed), old(g.lastRow), rowCount);
        if g.computed != old(g.computed) {
          MemoStep(old(g.computed), old(g.lastRow), rowCount);
        }
      }
      assert Current(G);
      if r.Ok? {
        CounterRowOfMemos(fmt, fields, r.value, rowCount, Universe);
      }
    }

    /**
      `write_row`: every column's value for `item` at row `_row_count`, through
      the memo, formatted and handed to the csv writer as one row; then the
      counter moves on. The first error propagates, nothing is written and the
      counter stays, but memos already updated keep their new values.
     */
    method WriteRow(item: Item, ghost rank: map<Field, nat>) returns (r: Result<seq<string>>)
      requires Valid()
      modifies this`sink, this`rowCount, Universe
      ensures Valid()
      ensures r.Ok? ==> sink == old(sink) + [r.value] && rowCount == old(rowCount) + 1 && Fresh()
      ensures r.Err? ==> sink == old(sink) && rowCount == old(rowCount)
      // a failed row leaves a memo for the row number the next row will reuse
      ensures r.Err? ==> !Fresh()
      ensures r.Ok? ==> |r.value| == |fields|
      // a column whose memo is already for this row number writes its memoised value, whatever the item
      ensures r.Ok? ==> forall k :: 0 <= k < |fields| && old(fields[k].lastRow) == old(rowCount) ==>
        r.value[k] == fmt(fields[k].dataFormat, old(fields[k].lastValue))
      // `_eval` runs at most once per field for this row
      ensures forall g :: g in Universe ==>
        g.computed == old(g.computed) || g.computed == old(g.computed) + [old(rowCount)]
      // a counter column holds `start + row_number * step`, even after a failed row or beside a cycle
      ensures r.Ok? ==> CounterRow(fmt, fields, r.value, old(rowCount))
      // on an acyclic graph with no stale memo, the row is the reference row
      ensures old(Ranked(rank) && Fresh()) ==> r == RowOf(fmt, fields, item, old(rowCount), old(Picture(Universe, Lists, rank)))
      // the registry and the aggregation lists are left alone
      ensures Picture(Universe, Lists, rank) == old(Picture(Universe, Lists, rank))
    {
      ghost var G := Picture(Universe, Lists, rank);
      PictureClosed(rank);
      var n := rowCount;
      ghost var hyp := Acyclic(G) && Fresh();
      assert hyp ==> Sound(G, item, n, {});
      r := EvalFields(item, rank, G);
      if r.Ok? {
        sink := sink + [r.value];
        rowCount := rowCount + 1;
        MemosLater(Universe, n, rowCount);
      }
    }

    /**
      One turn of the `write_all` loop: `write_row` for item `|done|`, with the
      table and the counter columns of the rows written so far carried on.
     */
    method WriteNext(item: Item, ghost rank: map<Field, nat>, ghost G: Graph, ghost hyp: bool,
                     ghost items: seq<Item>, ghost n: int, ghost done: seq<seq<string>>) returns (r: Result<seq<string>>)
      requires Valid() && Picture(Universe, Lists, rank) == G
      requires |done| < |items| && item == items[|done|] && rowCount == n + |done|
      requires hyp ==> Acyclic(G) && Fresh() && TableSoFar(fmt, fields, items, n, G, done)
      requires CounterRows(fmt, fields, done, n)
      modifies this`sink, this`rowCount, Universe
      ensures Valid() && Picture(Universe, Lists, rank) == G
      ensures r.Ok? ==> sink == old(sink) + [r.value] && rowCount == old(rowCount) + 1
      ensures r.Ok? ==> CounterRows(fmt, fields, done + [r.value], n)
      ensures r.Ok? && hyp ==> Fresh() && TableSoFar(fmt, fields, items, n, G, done + [r.value])
      ensures r.Err? ==> sink == old(sink) && rowCount == old(rowCount)
      ensures r.Err? && hyp ==> Table(fmt, fields, items, n, G) == Written(done, Fail(r.error))
    {
      PictureClosed(rank);
      r := WriteRow(item, rank);
      if hyp {
        if r.Ok? {
          TableGrows(fmt, fields, items, n, G, done, r.value);
        } else {
          TableFails(fmt, fields, items, n, G, done, r.error);
        }
      }
      if r.Ok? {
        CounterRowsAppend(fmt, fields, done, n, r.value);
      }
    }

    /**
      `write_all`: `write_row` for each item in turn; the first error propagates
      and the items after it are not written.
     */
    method WriteAll(items: seq<Item>, ghost rank: map<Field, nat>) returns (r: Outcome)
      requires Valid()
      modifies this`sink, this`rowCount, Universe
      ensures Valid()
      ensures rowCount - old(rowCount) == |sink| - |old(sink)| >= 0 && sink[..|old(sink)|] == old(sink)
      ensures r.Pass? ==> rowCount == old(rowCount) + |items|
      ensures r.Fail? ==> rowCount < old(rowCount) + |items|
      // every counter column holds `start + row_number * step` in every row written
      ensures CounterRows(fmt, fields, sink[|old(sink)|..], old(rowCount))
      // on an acyclic graph with no stale memo, the rows are the reference table
      ensures old(Ranked(rank) && Fresh()) ==>
        var w := Table(fmt, fields, items, old(rowCount), old(Picture(Universe, Lists, rank)));
        sink == old(sink) + w.rows && r == w.outcome
    {
      ghost var G := Picture(Universe, Lists, rank);
      ghost var hyp := Acyclic(G) && Fresh();
      ghost var fs := fields;
      ghost var n := rowCount;
      ghost var done: seq<seq<string>> := [];
      PictureClosed(rank);
      if hyp {
        TableFrom(fmt, fs, items, n, G);
      }
      r := Pass;
      var i := 0;
      while i < |items|
        invariant 0 <= i <= |items| && |done| == i
        invariant Valid() && Picture(Universe, Lists, rank) == G && fields == fs
        invariant sink == old(sink) + done && rowCount == n + i
        invariant hyp ==> Acyclic(G) && Fresh() && TableSoFar(fmt, fs, items, n, G, done)
        invariant CounterRows(fmt, fs, done, n)
      {
        var row := WriteNext(items[i], rank, G, hyp, items, n, done);
        if row.Err? {
          r := Fail(row.error);
          assert sink[|old(sink)|..] == done;
          return;
        }
        done := done + [row.value];
        i := i + 1;
      }
      assert sink[|old(sink)|..] == done;
      if hyp {
        TableDone(fmt, fs, items, n, G, done);
      }
    }
  }
}
