/**
  The older writer: a flat list of fields, each a header name, a function of
  the item and a data format. There is no memo, no counter and no aggregation;
  a row is every field's formatted value, in the order the fields were added.

  The csv writer itself is the sequence `sink` of rows it has been given.
 */
module List2CsvLegacy {
  import opened Host

  /** `_Field` once `__post_init__` has run: `function` (here `fn`) is always a function of the item. */
  datatype Field = Field(name: string, fn: Item -> Result<Value>, dataFormat: string)

  /**
    `_Field(name, function, data_format)`: `__post_init__` turns an attribute
    name into an attribute getter and keeps a callable as it is.
   */
  function NewField(name: string, evaluator: Evaluator, dataFormat: string): (f: Field)
    ensures f.name == name && f.dataFormat == dataFormat
    ensures evaluator.Attr? ==> forall item :: f.fn(item) == GetAttr(evaluator.name, item)
    ensures evaluator.Call? ==> forall item :: f.fn(item) == Ok(evaluator.f(item))
  {
    Field(name, Normalise(evaluator), dataFormat)
  }

  /** `_Field.eval`: the field's value for `item`, formatted with its data format. */
  function Eval(fmt: Formatter, f: Field, item: Item): (r: Result<string>)
    ensures r.Ok? <==> f.fn(item).Ok?
    ensures r.Ok? ==> r.value == fmt(f.dataFormat, f.fn(item).value)
    ensures r.Err? ==> r.error == f.fn(item).error
  {
    match f.fn(item)
    case Ok(v) => Ok(fmt(f.dataFormat, v))
    case Err(e) => Err(e)
  }

  /**
    A field given by an attribute name and one given by a callable that reads
    that attribute write the same value for every item that has it.
   */
  lemma NameOrCallable(fmt: Formatter, name: string, attr: string, g: Item -> Value, dataFormat: string, item: Item)
    requires attr in item.attrs && g(item) == item.attrs[attr]
    ensures Eval(fmt, NewField(name, Attr(attr), dataFormat), item) == Eval(fmt, NewField(name, Call(g), dataFormat), item)
    ensures Eval(fmt, NewField(name, Attr(attr), dataFormat), item) == Ok(fmt(dataFormat, item.attrs[attr]))
  {
  }

  /** A field given by an attribute name the item lacks fails with an AttributeError for that name. */
  lemma MissingAttribute(fmt: Formatter, name: string, attr: string, dataFormat: string, item: Item)
    requires attr !in item.attrs
    ensures Eval(fmt, NewField(name, Attr(attr), dataFormat), item) == Err(AttributeError(attr))
  {
  }

  /** The header row: every field's name, in the order the fields were added. */
  function Names(fs: seq<Field>): (ns: seq<string>)
    ensures |ns| == |fs|
    ensures forall k :: 0 <= k < |fs| ==> ns[k] == fs[k].name
  {
    if fs == [] then [] else [fs[0].name] + Names(fs[1..])
  }

  /** `[field.eval(item) for field in self._fields]`: the row for `item`, or the first error. */
  function Row(fmt: Formatter, fs: seq<Field>, item: Item): (r: Result<seq<string>>)
    ensures r.Ok? ==> |r.value| == |fs|
    ensures r.Err? ==> exists k :: 0 <= k < |fs| && fs[k].fn(item) == Err(r.error)
    decreases |fs|
  {
    if fs == [] then Ok([])
    else
      match Eval(fmt, fs[0], item)
      case Err(e) => Err(e)
      case Ok(s) => Prepend([s], Row(fmt, fs[1..], item))
  }

  /**
    The row succeeds exactly when every field's function does, and then holds
    one entry per field, the `k`-th being the `k`-th field's formatted value.
   */
  lemma {:induction false} RowEntries(fmt: Formatter, fs: seq<Field>, item: Item)
    ensures Row(fmt, fs, item).Ok? <==> forall k :: 0 <= k < |fs| ==> fs[k].fn(item).Ok?
    ensures Row(fmt, fs, item).Ok? ==>
      |Row(fmt, fs, item).value| == |fs| &&
      forall k :: 0 <= k < |fs| ==> Row(fmt, fs, item).value[k] == fmt(fs[k].dataFormat, fs[k].fn(item).value)
    decreases |fs|
  {
    if fs != [] {
      RowEntries(fmt, fs[1..], item);
      assert forall k :: 1 <= k < |fs| ==> fs[1..][k - 1] == fs[k];
    }
  }

  /** The row fails with the error of its first failing field. */
  lemma {:induction false} RowFailsAt(fmt: Formatter, fs: seq<Field>, item: Item, k: nat)
    requires k < |fs| && fs[k].fn(item).Err?
    requires forall j :: 0 <= j < k ==> fs[j].fn(item).Ok?
    ensures Row(fmt, fs, item) == Err(fs[k].fn(item).error)
    decreases k
  {
    if k > 0 {
      assert forall j :: 0 <= j < k - 1 ==> fs[1..][j] == fs[j + 1];
      RowFailsAt(fmt, fs[1..], item, k - 1);
    }
  }

  /** Fields that write the same value for `item`, position by position, write the same row. */
  lemma {:induction false} RowsAgree(fmt: Formatter, fs: seq<Field>, gs: seq<Field>, item: Item)
    requires |fs| == |gs|
    requires forall k :: 0 <= k < |fs| ==> Eval(fmt, fs[k], item) == Eval(fmt, gs[k], item)
    ensures Row(fmt, fs, item) == Row(fmt, gs, item)
    decreases |fs|
  {
    if fs != [] {
      assert forall k :: 0 <= k < |fs| - 1 ==> fs[1..][k] == fs[k + 1] && gs[1..][k] == gs[k + 1];
      RowsAgree(fmt, fs[1..], gs[1..], item);
      assert Eval(fmt, fs[0], item) == Eval(fmt, gs[0], item);
    }
  }

  /** The rows `write_all` puts out: one row per item, stopping at the first that fails. */
  function Table(fmt: Formatter, fs: seq<Field>, items: seq<Item>): Written
    decreases |items|
  {
    if items == [] then Written([], Pass)
    else
      match Row(fmt, fs, items[0])
      case Err(e) => Written([], Fail(e))
      case Ok(row) => After(row, Table(fmt, fs, items[1..]))
  }

  /** Row `k` of the table is the row for item `k`; there are never more rows than items. */
  lemma {:induction false} TableRows(fmt: Formatter, fs: seq<Field>, items: seq<Item>)
    ensures var w := Table(fmt, fs, items);
      |w.rows| <= |items| &&
      forall k :: 0 <= k < |w.rows| ==> Row(fmt, fs, items[k]) == Ok(w.rows[k])
    decreases |items|
  {
    if items != [] && Row(fmt, fs, items[0]).Ok? {
      TableRows(fmt, fs, items[1..]);
      var w := Table(fmt, fs, items);
      var w' := Table(fmt, fs, items[1..]);
      assert w.rows == [Row(fmt, fs, items[0]).value] + w'.rows;
      forall k | 1 <= k < |w.rows|
        ensures Row(fmt, fs, items[k]) == Ok(w.rows[k])
      {
        assert items[1..][k - 1] == items[k] && w.rows[k] == w'.rows[k - 1];
      }
    }
  }

  /**
    `write_all` passes exactly when every item has its row, and otherwise fails
    with the error of the item after the last row written.
   */
  lemma {:induction false} TableOutcome(fmt: Formatter, fs: seq<Field>, items: seq<Item>)
    ensures var w := Table(fmt, fs, items);
      (w.outcome.Pass? <==> |w.rows| == |items|) &&
      (w.outcome.Fail? ==> |w.rows| < |items| && Row(fmt, fs, items[|w.rows|]) == Err(w.outcome.error))
    decreases |items|
  {
    if items != [] && Row(fmt, fs, items[0]).Ok? {
      TableOutcome(fmt, fs, items[1..]);
      var w := Table(fmt, fs, items);
      var w' := Table(fmt, fs, items[1..]);
      assert |w.rows| == |w'.rows| + 1;
      if w.outcome.Fail? {
        assert items[|w.rows|] == items[1..][|w'.rows|];
      }
    }
  }

  /** One step of `Table` along a suffix of `items`. */
  lemma TableStep(fmt: Formatter, fs: seq<Field>, items: seq<Item>, i: nat)
    requires i < |items|
    ensures Table(fmt, fs, items[i..]) ==
      match Row(fmt, fs, items[i])
      case Err(e) => Written([], Fail(e))
      case Ok(row) => After(row, Table(fmt, fs, items[i + 1..]))
  {
    assert items[i..][0] == items[i] && items[i..][1..] == items[i + 1..];
  }

  class Writer {
    /** `str.format` as the csv rows see it. */
    const fmt: Formatter
    /** `_fields`: the fields, in the order they were added. */
    var fields: seq<Field>
    /** The rows handed to the csv writer, header rows included. */
    var sink: seq<seq<string>>

    constructor (fmt: Formatter)
      ensures this.fmt == fmt && fields == [] && sink == []
    {
      this.fmt := fmt;
      fields := [];
      sink := [];
    }

    /** `add_field`: appends exactly one field, built as `_Field` builds it. */
    method AddField(header: string, evaluator: Evaluator, dataFormat: string := "{}")
      modifies this`fields
      ensures fields == old(fields) + [NewField(header, evaluator, dataFormat)]
    {
      fields := fields + [NewField(header, evaluator, dataFormat)];
    }

    /** `write_header`: one row of the field names; the fields are left alone. */
    method WriteHeader()
      modifies this`sink
      ensures sink == old(sink) + [Names(fields)]
    {
      sink := sink + [Names(fields)];
    }

    /**
      `write`: the row for `item` goes to the csv writer; when a field's function
      fails, the error propagates and nothing is written.
     */
    method Write(item: Item) returns (r: Result<seq<string>>)
      modifies this`sink
      ensures r == Row(fmt, fields, item)
      ensures r.Ok? ==> |r.value| == |fields| && sink == old(sink) + [r.value]
      ensures r.Err? ==> sink == old(sink)
    {
      r := Row(fmt, fields, item);
      RowEntries(fmt, fields, item);
      if r.Ok? {
        sink := sink + [r.value];
      }
    }

    /** `write_all`: `write` for each item in turn, until one fails. */
    method WriteAll(items: seq<Item>) returns (r: Outcome)
      modifies this`sink
      ensures sink == old(sink) + Table(fmt, fields, items).rows
      ensures r == Table(fmt, fields, items).outcome
    {
      ghost var done: seq<seq<string>> := [];
      assert items[0..] == items;
      assert [] + Table(fmt, fields, items).rows == Table(fmt, fields, items).rows;
      r := Pass;
      var i := 0;
      while i < |items|
        invariant 0 <= i <= |items|
        invariant sink == old(sink) + done
        invariant var t := Table(fmt, fields, items[i..]);
          Table(fmt, fields, items) == Written(done + t.rows, t.outcome)
      {
        var row := Write(items[i]);
        TableStep(fmt, fields, items, i);
        if row.Err? {
          r := Fail(row.error);
          assert done + [] == done;
          return;
        }
        assert done + ([row.value] + Table(fmt, fields, items[i + 1..]).rows) ==
          (done + [row.value]) + Table(fmt, fields, items[i + 1..]).rows;
        done := done + [row.value];
        i := i + 1;
      }
      assert items[i..] == [] && done + [] == done;
    }
  }
}
