/**
  The columns of the newer writer (`_Field` and its four kinds) and their
  memoised evaluation.

  A field remembers the last row number it was evaluated for and the value it
  produced then. `Eval` marks the row BEFORE computing, so a field reached again
  while it is being computed (an aggregator aggregating itself, or two
  aggregators aggregating each other) returns its previous value instead of
  recursing. `Denote` is the reference semantics: the value a field has for an
  item and a row when the aggregation graph is acyclic.
 */
module Fields {
  import opened Host

  /** The list object `_to_aggregate[id]`, shared by the writer and every aggregator for `id`. */
  class FieldList {
    var fields: seq<Field>

    constructor ()
      ensures fields == []
    {
      fields := [];
    }
  }

  /** The four kinds of field and what each one's `_eval` needs. */
  datatype Kind =
    | Simple(evaluator: Item -> Result<Value>)
    | Aggregator(aggregate: seq<Value> -> Value, members: FieldList)
    | Counter(start: int, step: int)
    | Multi(seqField: Field, idx: nat)

  /**
    A ghost picture of the fields reachable during one evaluation: the fields
    `U`, the contents of the aggregation lists, and a ranking of the fields
    (meaningful only when the aggregation graph is acyclic).
   */
  datatype Graph = Graph(U: set<Field>, lists: map<FieldList, seq<Field>>, rank: map<Field, nat>)

  class Field {
    const header: string
    const dataFormat: string
    const kind: Kind
    var lastRow: int
    var lastValue: Value
    /** Every row number `_eval` was started for, oldest first. */
    ghost var computed: seq<int>

    constructor (header: string, dataFormat: string, kind: Kind)
      ensures this.header == header && this.dataFormat == dataFormat && this.kind == kind
      ensures lastRow == -1 && lastValue == NoneValue && computed == []
    {
      this.header := header;
      this.dataFormat := dataFormat;
      this.kind := kind;
      lastRow := -1;
      lastValue := NoneValue;
      computed := [];
    }

    /**
      `_Field.eval`: the memoised value of this field for `item` at row `row`.
      `busy` holds the fields whose evaluation is under way further up the call chain.
     */
    method Eval(item: Item, row: int, ghost G: Graph, ghost busy: set<Field>) returns (r: Result<Value>)
      requires this in G.U && Closed(G) && Current(G)
      modifies G.U
      decreases Pending(G.U, row), 3
      ensures lastRow == row
      // a repeated call for the same row answers from the memo and changes nothing
      ensures old(lastRow) == row ==> r == Ok(old(lastValue)) && unchanged(G.U)
      // otherwise `_eval` runs exactly once for this field
      ensures old(lastRow) != row ==> computed == old(computed) + [row]
      ensures r.Ok? ==> lastValue == r.value
      ensures r.Err? ==> lastValue == old(lastValue)
      // every other field is either untouched or evaluated once for `row`
      ensures forall g {:trigger g in G.U} :: g in G.U ==>
        (g.lastRow == old(g.lastRow) && g.lastValue == old(g.lastValue) && g.computed == old(g.computed)) ||
        (old(g.lastRow) != row && g.lastRow == row && g.computed == old(g.computed) + [row])
      // on an acyclic graph whose memo agrees with the reference semantics, so does the result
      ensures old(Sound(G, item, row, busy)) && Outranked(G, this, busy) ==>
        r == Denote(this, item, row, G) && (r.Ok? ==> Sound(G, item, row, busy))
      // counters keep their memoised values right
      ensures old(CounterMemos(G.U)) ==> CounterMemos(G.U)
    {
      if lastRow == row {
        return Ok(lastValue);
      }
      ghost var hyp := Sound(G, item, row, busy) && Outranked(G, this, busy);
      ghost var cm := CounterMemos(G.U);
      lastRow := row;
      computed := computed + [row];
      assert !kind.Counter? ==> (cm ==> CounterMemos(G.U));
      assert Pending(G.U, row) + {this} == old(Pending(G.U, row)) by {
        assert this in old(Pending(G.U, row)) && this !in Pending(G.U, row);
      }
      assert hyp ==> Sound(G, item, row, busy + {this});
      r := Compute(item, row, G, busy);
      if r.Ok? {
        lastValue := r.value;
      }
      if cm && kind.Counter? {
        forall g | g in G.U && g.kind.Counter? && g.lastRow != -1
          ensures g.lastValue == Int(g.kind.start + g.lastRow * g.kind.step)
        {
          if g != this {
            assert old(g.lastRow) == g.lastRow && old(g.lastValue) == g.lastValue;
          }
        }
      }
      if hyp && r.Ok? {
        assert Sound(G, item, row, busy + {this});
        SoundAdd(G, item, row, busy, this);
      }
    }

    /** `_eval` of each kind of field, for a field already marked for `row`. */
    method Compute(item: Item, row: int, ghost G: Graph, ghost busy: set<Field>) returns (r: Result<Value>)
      requires this in G.U && lastRow == row && Closed(G) && Current(G)
      modifies G.U
      decreases Pending(G.U, row) + {this}, 2
      ensures forall g {:trigger g in G.U} :: g in G.U ==>
        (g.lastRow == old(g.lastRow) && g.lastValue == old(g.lastValue) && g.computed == old(g.computed)) ||
        (old(g.lastRow) != row && g.lastRow == row && g.computed == old(g.computed) + [row])
      ensures old(Sound(G, item, row, busy + {this})) && Outranked(G, this, busy) ==>
        r == Denote(this, item, row, G) && (r.Ok? ==> Sound(G, item, row, busy + {this}))
      // a counter's value depends on the row number alone
      ensures kind.Counter? ==> r == Ok(Int(kind.start + row * kind.step)) && unchanged(G.U)
      ensures !kind.Counter? && old(CounterMemos(G.U)) ==> CounterMemos(G.U)
    {
      match kind {
        case Simple(evaluator) =>
          r := evaluator(item);
        case Counter(start, step) =>
          r := Ok(Int(start + row * step));
        case Multi(seqField, idx) =>
          var s := seqField.Eval(item, row, G, busy + {this});
          r := if s.Ok? then Index(s.value, idx) else Err(s.error);
        case Aggregator(aggregate, members) =>
          var values := EvalAll(members.fields, item, row, this, G, busy + {this});
          r := if values.Ok? then Ok(aggregate(values.value)) else Err(values.error);
      }
    }
  }

  /**
    The generator `(field.eval(item, row_number) for field in to_aggregate)` of
    `_Aggregator._eval`, consumed in order; the first error propagates. `top` is
    the aggregator being evaluated, already marked for `row`.
   */
  method EvalAll(fs: seq<Field>, item: Item, row: int, ghost top: Field, ghost G: Graph, ghost busy: set<Field>)
    returns (r: Result<seq<Value>>)
    requires top in G.U && top.lastRow == row && Closed(G) && Current(G)
    requires forall h :: h in fs ==> h in G.U
    modifies G.U
    decreases Pending(G.U, row) + {top}, 1
    ensures r.Ok? ==> |r.value| == |fs|
    ensures forall g {:trigger g in G.U} :: g in G.U ==>
      (g.lastRow == old(g.lastRow) && g.lastValue == old(g.lastValue) && g.computed == old(g.computed)) ||
      (old(g.lastRow) != row && g.lastRow == row && g.computed == old(g.computed) + [row])
    ensures old(Sound(G, item, row, busy)) && top in busy && (forall h :: h in fs ==> Outranked(G, h, busy)) ==>
      r == DenoteAll(fs, item, row, G, RankOf(G, top)) && (r.Ok? ==> Sound(G, item, row, busy))
    ensures old(CounterMemos(G.U)) ==> CounterMemos(G.U)
  {
    ghost var cm := CounterMemos(G.U);
    ghost var hyp := Sound(G, item, row, busy) && top in busy && forall h :: h in fs ==> Outranked(G, h, busy);
    ghost var bound := RankOf(G, top);
    var values: seq<Value> := [];
    var i := 0;
    assert fs[0..] == fs;
    assert hyp ==> forall h :: h in fs ==> h in G.U && G.rank[h] < bound;
    assert hyp ==> DenoteAll(fs, item, row, G, bound) == Prepend(values, DenoteAll(fs[i..], item, row, G, bound)) by {
      if hyp {
        PrependNothing(DenoteAll(fs, item, row, G, bound));
      }
    }
    while i < |fs|
      invariant 0 <= i <= |fs| && |values| == i
      invariant forall g {:trigger g in G.U} :: g in G.U ==>
        (g.lastRow == old(g.lastRow) && g.lastValue == old(g.lastValue) && g.computed == old(g.computed)) ||
        (old(g.lastRow) != row && g.lastRow == row && g.computed == old(g.computed) + [row])
      invariant hyp ==> Sound(G, item, row, busy)
      invariant cm ==> CounterMemos(G.U)
      invariant hyp ==> DenoteAll(fs, item, row, G, bound) == Prepend(values, DenoteAll(fs[i..], item, row, G, bound))
    {
      assert Pending(G.U, row) < old(Pending(G.U, row)) + {top};
      var v := fs[i].Eval(item, row, G, busy);
      if hyp {
        assert fs[i] in fs;
        DenoteAllStep(fs, i, item, row, G, bound);
        if v.Ok? {
          PrependTwice(values, v.value, DenoteAll(fs[i + 1..], item, row, G, bound));
        }
      }
      if v.Err? {
        return Err(v.error);
      }
      values := values + [v.value];
      i := i + 1;
    }
    assert fs[i..] == [] && values + [] == values;
    r := Ok(values);
  }

  /** The fields of `U` whose memo is not for `row`; `Eval` shrinks this set at every nested call. */
  ghost function Pending(U: set<Field>, row: int): set<Field>
    reads U
  {
    set g | g in U && g.lastRow != row
  }

  /** Every counter of `U` that holds a memo holds `start + row_number * step` for its memoised row. */
  ghost predicate CounterMemos(U: set<Field>)
    reads U
  {
    forall g {:trigger g.lastValue} :: g in U && g.kind.Counter? && g.lastRow != -1 ==> g.lastValue == Int(g.kind.start + g.lastRow * g.kind.step)
  }

  /** Every field and list reachable from `G.U` is pictured in `G`. */
  ghost predicate Closed(G: Graph)
  {
    forall g :: g in G.U ==>
      (g.kind.Aggregator? ==> g.kind.members in G.lists && forall h :: h in G.lists[g.kind.members] ==> h in G.U) &&
      (g.kind.Multi? ==> g.kind.seqField in G.U)
  }

  /** The pictured lists hold what the heap holds. */
  ghost predicate Current(G: Graph)
    reads G.lists.Keys
  {
    forall l :: l in G.lists ==> l.fields == G.lists[l]
  }

  /** The ranking orders the aggregation graph: a field depends only on lower-ranked fields. */
  ghost predicate Acyclic(G: Graph)
  {
    Closed(G) &&
    forall g :: g in G.U ==>
      g in G.rank &&
      (g.kind.Aggregator? ==> forall h :: h in G.lists[g.kind.members] ==> h in G.rank && G.rank[h] < G.rank[g]) &&
      (g.kind.Multi? ==> g.kind.seqField in G.rank && G.rank[g.kind.seqField] < G.rank[g])
  }

  /** The rank of `f`, or 0 for a field outside the ranking. */
  ghost function RankOf(G: Graph, f: Field): nat
  {
    if f in G.rank then G.rank[f] else 0
  }

  /** The value `f` has for `item` at row `row`: what `_eval` computes when nothing is memoised. */
  ghost function Denote(f: Field, item: Item, row: int, G: Graph): Result<Value>
    requires f in G.U && Acyclic(G)
    decreases G.rank[f], 1, 0
  {
    match f.kind
    case Simple(evaluator) => evaluator(item)
    case Counter(start, step) => Ok(Int(start + row * step))
    case Multi(seqField, idx) =>
      (match Denote(seqField, item, row, G)
       case Ok(v) => Index(v, idx)
       case Err(e) => Err(e))
    case Aggregator(aggregate, members) =>
      (match DenoteAll(G.lists[members], item, row, G, G.rank[f])
       case Ok(vs) => Ok(aggregate(vs))
       case Err(e) => Err(e))
  }

  /** The values of `fs` in order, or the first error among them. */
  ghost function DenoteAll(fs: seq<Field>, item: Item, row: int, G: Graph, bound: nat): Result<seq<Value>>
    requires Acyclic(G)
    requires forall h :: h in fs ==> h in G.U && G.rank[h] < bound
    decreases bound, 0, |fs|
  {
    if fs == [] then Ok([])
    else
      match Denote(fs[0], item, row, G)
      case Err(e) => Err(e)
      case Ok(v) => Prepend([v], DenoteAll(fs[1..], item, row, G, bound))
  }

  /** One step of `DenoteAll` along a suffix of `fs`. */
  lemma DenoteAllStep(fs: seq<Field>, i: nat, item: Item, row: int, G: Graph, bound: nat)
    requires i < |fs| && Acyclic(G)
    requires forall h :: h in fs ==> h in G.U && G.rank[h] < bound
    ensures DenoteAll(fs[i..], item, row, G, bound) ==
      match Denote(fs[i], item, row, G)
      case Err(e) => Err(e)
      case Ok(v) => Prepend([v], DenoteAll(fs[i + 1..], item, row, G, bound))
  {
    assert fs[i..][0] == fs[i] && fs[i..][1..] == fs[i + 1..];
  }

  /**
    On an acyclic graph, every field whose memo claims `row` holds its reference
    value, except the fields in `busy`, whose evaluation is under way.
   */
  ghost predicate Sound(G: Graph, item: Item, row: int, busy: set<Field>)
    reads G.U
  {
    Acyclic(G) &&
    forall g :: g in G.U && g.lastRow == row && g !in busy ==> Denote(g, item, row, G) == Ok(g.lastValue)
  }

  /** A field whose memo holds its reference value can leave `busy`. */
  lemma SoundAdd(G: Graph, item: Item, row: int, busy: set<Field>, f: Field)
    requires Sound(G, item, row, busy + {f})
    requires f in G.U && f.lastRow == row && Denote(f, item, row, G) == Ok(f.lastValue)
    ensures Sound(G, item, row, busy)
  {
  }

  /** `f` is not under way and ranks below every field that is. */
  ghost predicate Outranked(G: Graph, f: Field, busy: set<Field>)
  {
    f !in busy && forall p :: p in busy ==> RankOf(G, f) < RankOf(G, p)
  }

  /**
    `DenoteAll` succeeds exactly when every field does, and then lists their
    values in order.
   */
  lemma {:induction false} DenoteAllValues(fs: seq<Field>, item: Item, row: int, G: Graph, bound: nat)
    requires Acyclic(G)
    requires forall h :: h in fs ==> h in G.U && G.rank[h] < bound
    ensures DenoteAll(fs, item, row, G, bound).Ok? <==> forall k :: 0 <= k < |fs| ==> Denote(fs[k], item, row, G).Ok?
    ensures DenoteAll(fs, item, row, G, bound).Ok? ==>
      |DenoteAll(fs, item, row, G, bound).value| == |fs| &&
      forall k :: 0 <= k < |fs| ==> DenoteAll(fs, item, row, G, bound).value[k] == Denote(fs[k], item, row, G).value
    decreases |fs|
  {
    if fs != [] {
      DenoteAllValues(fs[1..], item, row, G, bound);
      assert forall k :: 1 <= k < |fs| ==> fs[1..][k - 1] == fs[k];
    }
  }

  /**
    `_Aggregator._eval`: an aggregator on an acyclic graph succeeds exactly when
    every field in its list does, and then applies its function to their values,
    taken in the order the list holds them.
   */
  lemma AggregatorValue(f: Field, item: Item, row: int, G: Graph)
    requires f in G.U && Acyclic(G) && f.kind.Aggregator?
    ensures var fs := G.lists[f.kind.members];
      (Denote(f, item, row, G).Ok? <==> forall k :: 0 <= k < |fs| ==> Denote(fs[k], item, row, G).Ok?) &&
      (Denote(f, item, row, G).Ok? ==>
        exists vs: seq<Value> ::
          |vs| == |fs| && (forall k :: 0 <= k < |fs| ==> vs[k] == Denote(fs[k], item, row, G).value) &&
          Denote(f, item, row, G).value == f.kind.aggregate(vs))
  {
    var fs := G.lists[f.kind.members];
    DenoteAllValues(fs, item, row, G, G.rank[f]);
    var d := DenoteAll(fs, item, row, G, G.rank[f]);
    if d.Ok? {
      assert Denote(f, item, row, G).value == f.kind.aggregate(d.value);
    }
  }

  /**
    `_Multi._eval`: a multi column yields element `idx` of its sequence field's
    tuple, and fails with an IndexError when that tuple is too short.
   */
  lemma MultiValue(f: Field, item: Item, row: int, G: Graph)
    requires f in G.U && Acyclic(G) && f.kind.Multi?
    ensures var s := Denote(f.kind.seqField, item, row, G);
      (s.Err? ==> Denote(f, item, row, G) == s) &&
      (s.Ok? && s.value.Seq? && f.kind.idx < |s.value.elems| ==> Denote(f, item, row, G) == Ok(s.value.elems[f.kind.idx])) &&
      (s.Ok? && s.value.Seq? && |s.value.elems| <= f.kind.idx ==> Denote(f, item, row, G) == Err(IndexError(f.kind.idx)))
  {
  }
}
