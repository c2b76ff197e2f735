/**
  The host-language services both CSV writers rely on: the values an evaluator
  can produce, the items rows are written for, the errors a write can raise,
  attribute lookup (`operator.attrgetter`), the conversion of a value to a
  tuple (`tuple(...)`) and tuple indexing; and, shared by both writers' models,
  the record of a run of writes (`Written`) with its helpers `Prepend` and
  `After`.
 */
module Host {

  /** A run-time value as seen by the writers. `Seq` stands for tuples and lists. */
  datatype Value =
    | NoneValue
    | Int(i: int)
    | Str(s: string)
    | Seq(elems: seq<Value>)

  /** An item to be written: an object with named attributes. */
  datatype Item = Item(attrs: map<string, Value>)

  /** The exceptions an evaluation can raise. */
  datatype Error =
    | AttributeError(name: string)  // the item has no such attribute
    | IndexError(index: int)        // a multi column's tuple is too short
    | TypeError                     // the value is not iterable or not subscriptable

  datatype Result<T> = Ok(value: T) | Err(error: Error)

  /** The outcome of an operation that returns nothing but may raise. */
  datatype Outcome = Pass | Fail(error: Error)

  /** `template.format(value)`: the host's string formatting, left abstract. */
  type Formatter = (string, Value) -> string

  /** What a caller may pass as an evaluator: a callable or an attribute name. */
  datatype Evaluator = Call(f: Item -> Value) | Attr(name: string)

  /** `attrgetter(name)(item)`: the attribute, or an AttributeError when it is missing. */
  function GetAttr(name: string, item: Item): (r: Result<Value>)
    ensures r.Ok? <==> name in item.attrs
    ensures r.Ok? ==> r.value == item.attrs[name]
    ensures r.Err? ==> r.error == AttributeError(name)
  {
    if name in item.attrs then Ok(item.attrs[name]) else Err(AttributeError(name))
  }

  /**
    `normalise_evaluator`: an attribute name becomes an attribute getter, decided
    once; a callable is kept. Only the getter can fail, and only when it is applied.
   */
  function Normalise(e: Evaluator): (g: Item -> Result<Value>)
    ensures e.Attr? ==> forall item :: g(item) == GetAttr(e.name, item)
    ensures e.Call? ==> forall item :: g(item) == Ok(e.f(item))
  {
    match e
    case Call(f) => (item: Item) => Ok(f(item))
    case Attr(name) => (item: Item) => GetAttr(name, item)
  }

  /** `tuple(v)`: tuples and lists keep their elements, a string splits into characters. */
  function ToTuple(v: Value): (r: Result<Value>)
    ensures r.Ok? <==> v.Seq? || v.Str?
    ensures r.Ok? ==> r.value.Seq?
    ensures v.Seq? ==> r == Ok(v)
    ensures v.Str? ==> |r.value.elems| == |v.s| &&
                       forall k :: 0 <= k < |v.s| ==> r.value.elems[k] == Str([v.s[k]])
    ensures r.Err? ==> r.error == TypeError
  {
    match v
    case Seq(_) => Ok(v)
    case Str(s) => Ok(Seq(seq(|s|, k requires 0 <= k < |s| => Str([s[k]]))))
    case _ => Err(TypeError)
  }

  /** `lambda item: tuple(g(item))`: the evaluator of a multi column's shared sequence field. */
  function Tupled(g: Item -> Result<Value>): (t: Item -> Result<Value>)
    ensures forall item :: g(item).Ok? ==> t(item) == ToTuple(g(item).value)
    ensures forall item :: g(item).Err? ==> t(item) == g(item)
  {
    (item: Item) => match g(item) case Ok(v) => ToTuple(v) case Err(e) => Err(e)
  }

  /** `v[idx]` for a non-negative index. */
  function Index(v: Value, idx: nat): (r: Result<Value>)
    ensures r.Ok? <==> v.Seq? && idx < |v.elems|
    ensures r.Ok? ==> r.value == v.elems[idx]
    ensures v.Seq? && |v.elems| <= idx ==> r == Err(IndexError(idx))
    ensures !v.Seq? ==> r == Err(TypeError)
  {
    if !v.Seq? then Err(TypeError)
    else if idx < |v.elems| then Ok(v.elems[idx])
    else Err(IndexError(idx))
  }

  /** Prefixes a successful sequence with `xs`; an error passes through unchanged. */
  function Prepend<T>(xs: seq<T>, r: Result<seq<T>>): (p: Result<seq<T>>)
    ensures p.Ok? <==> r.Ok?
    ensures r.Ok? ==> p.value == xs + r.value
    ensures r.Err? ==> p == r
  {
    match r
    case Ok(ys) => Ok(xs + ys)
    case Err(e) => Err(e)
  }

  /** The rows a run of writes put out, and how the run ended. */
  datatype Written = Written(rows: seq<seq<string>>, outcome: Outcome)

  /** A row written before the rest of a run. */
  function After(row: seq<string>, w: Written): Written
  {
    Written([row] + w.rows, w.outcome)
  }

  /** Prefixing nothing changes nothing. */
  lemma PrependNothing<T>(r: Result<seq<T>>)
    ensures Prepend([], r) == r
  {
    if r.Ok? {
      assert [] + r.value == r.value;
    }
  }

  /** Prefixing in two steps is prefixing the concatenation. */
  lemma PrependTwice<T>(xs: seq<T>, x: T, r: Result<seq<T>>)
    ensures Prepend(xs, Prepend([x], r)) == Prepend(xs + [x], r)
  {
    if r.Ok? {
      assert xs + ([x] + r.value) == (xs + [x]) + r.value;
    }
  }
}
