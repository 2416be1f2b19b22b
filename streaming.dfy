/** The operator<< layer: each overload and manipulator forwards to exactly
    one writer method, so a chain `w << a << b << ...` is the sequence of the
    corresponding calls, stopping at the first one that throws. */
module Streaming {
  import S = WriterSpec
  import E = JsonEscape
  import D = Decimal
  import W = Writer

  /** The SIMPLE_JSON_VALUE operand types: each is written by one value()
      overload. */
  datatype Scalar =
    | Int(i: D.Int32)
    | Long(l: D.Int64)
    | Double(rendered: string)  // the stream's 16-digit rendering
    | Float(rendered: string)   // the stream's 8-digit rendering
    | Str(s: string)            // const std::string&
    | CStr(buf: string)         // const char*: the characters up to and including its NUL
    | Bool(b: bool)

  /** The right-hand operands operator<< accepts: a value, one of the five
      manipulator objects, or a Name. */
  datatype Item =
    | Value(v: Scalar)
    | BeginArray
    | EndArray
    | BeginObject
    | EndObject
    | Null
    | Name(n: string)

  /** A const char* operand must point at a NUL-terminated string. */
  predicate WellFormed(it: Item) {
    it.Value? && it.v.CStr? ==> '\0' in it.v.buf
  }

  predicate AllWellFormed(items: seq<Item>) {
    forall k :: 0 <= k < |items| ==> WellFormed(items[k])
  }

  /** The text each value() overload writes after switch_state_value. */
  function Text(v: Scalar): string
    requires v.CStr? ==> '\0' in v.buf
  {
    match v
    case Int(i) => D.IntToDecimal(i)
    case Long(l) => D.IntToDecimal(l)
    case Double(t) => t
    case Float(t) => t
    case Str(s) => E.Quoted(s)
    case CStr(b) => E.Quoted(W.CString(b))
    case Bool(b) => if b then "true" else "false"
  }

  /** The writer method each operand is forwarded to. */
  function Apply(c: S.Config, it: Item): S.Outcome
    requires WellFormed(it)
  {
    match it
    case Value(v) => S.WriteValue(c, Text(v))
    case BeginArray => S.BeginArray(c)
    case EndArray => S.EndArray(c)
    case BeginObject => S.BeginObject(c)
    case EndObject => S.EndObject(c)
    case Null => S.WriteValue(c, "null")
    case Name(n) => S.Name(c, n)
  }

  /** A chain of insertions: each call in turn, until one throws. */
  function Run(c: S.Config, items: seq<Item>): S.Outcome
    requires AllWellFormed(items)
    decreases |items|
  {
    if items == [] then S.Done(c)
    else match Apply(c, items[0])
      case Thrown(c1) => S.Thrown(c1)
      case Done(c1) => Run(c1, items[1..])
  }

  /** Once the first part of a chain is accepted, the rest runs from where
      it left off. */
  lemma RunThen(c: S.Config, a: seq<Item>, b: seq<Item>, c1: S.Config)
    requires AllWellFormed(a) && AllWellFormed(b) && Run(c, a) == S.Done(c1)
    ensures AllWellFormed(a + b) && Run(c, a + b) == Run(c1, b)
  {
    RunAppend(c, a, b);
  }

  /** A chain of one insertion is that insertion. */
  lemma RunOne(c: S.Config, it: Item)
    requires WellFormed(it)
    ensures Run(c, [it]) == Apply(c, it)
  {
    assert [it][1..] == [];
  }

  /** One operator<< overload: forwards to its writer method. */
  method Shift(w: W.JsonWriter, it: Item) returns (ok: bool)
    requires WellFormed(it)
    modifies w
    ensures ok == Apply(old(w.View()), it).Done?
    ensures w.View() == Apply(old(w.View()), it).cfg
  {
    match it
    case Value(v) => ok := ShiftValue(w, v);
    case BeginArray => ok := w.BeginArray();
    case EndArray => ok := w.EndArray();
    case BeginObject => ok := w.BeginObject();
    case EndObject => ok := w.EndObject();
    case Null => ok := w.ValueNull();
    case Name(n) => ok := w.Name(n);
  }

  method ShiftValue(w: W.JsonWriter, v: Scalar) returns (ok: bool)
    requires v.CStr? ==> '\0' in v.buf
    modifies w
    ensures ok == S.WriteValue(old(w.View()), Text(v)).Done?
    ensures w.View() == S.WriteValue(old(w.View()), Text(v)).cfg
  {
    match v
    case Int(i) => ok := w.ValueInt(i);
    case Long(l) => ok := w.ValueLong(l);
    case Double(t) => ok := w.ValueFloating(t);
    case Float(t) => ok := w.ValueFloating(t);
    case Str(s) => ok := w.ValueString(s);
    case CStr(b) => ok := w.ValueCString(b);
    case Bool(b) => ok := w.ValueBool(b);
  }

  /** Values write their text after the separator; the rest are the
      structural calls. */
  predicate IsScalar(it: Item) {
    it.Value? || it.Null?
  }

  /** Every operand keeps the invariant, and in a valid configuration a
      throwing operand changes nothing. */
  lemma ApplyPreserves(c: S.Config, it: Item)
    requires S.Valid(c) && WellFormed(it)
    ensures S.Valid(Apply(c, it).cfg)
    ensures Apply(c, it).Thrown? ==> Apply(c, it).cfg == c
  {
    match it
    case BeginArray => S.BeginPreserves(c);
    case BeginObject => S.BeginPreserves(c);
    case EndArray => S.EndPreserves(c);
    case EndObject => S.EndPreserves(c);
    case Name(n) => S.NamePreserves(c, n);
    case _ => S.SwitchValuePreserves(c); S.ThrowIsAtomic(c, "", "");
  }

  /** Every scalar operand is accepted exactly where a value is expected and
      leaves level() alone; every structural one is accepted exactly as the
      transition table says. */
  lemma ApplyAccepts(c: S.Config, it: Item)
    requires S.Valid(c) && WellFormed(it)
    ensures IsScalar(it) ==> (Apply(c, it).Done? <==> S.ValueExpected(c.state))
    ensures IsScalar(it) ==> S.Level(Apply(c, it).cfg) == S.Level(c)
    ensures it.BeginArray? || it.BeginObject? ==> (Apply(c, it).Done? <==> S.ValueExpected(c.state))
    ensures it.EndArray? ==> (Apply(c, it).Done? <==> S.InArray(c.state))
    ensures it.EndObject? ==> (Apply(c, it).Done? <==> S.InObject(c.state))
    ensures it.Name? ==> (Apply(c, it).Done? <==> S.InObject(c.state))
  {
    S.SwitchValueTable(c);
    S.BeginSpec(c);
    S.EndSpec(c);
  }

  /** Chains compose: running `a + b` runs `a`, then `b` from where `a` left
      off, unless `a` threw. */
  lemma {:induction false} RunAppend(c: S.Config, a: seq<Item>, b: seq<Item>)
    requires AllWellFormed(a) && AllWellFormed(b)
    ensures AllWellFormed(a + b)
    ensures Run(c, a + b) == match Run(c, a)
      case Done(c1) => Run(c1, b)
      case Thrown(c1) => S.Thrown(c1)
    decreases |a|
  {
    assert AllWellFormed(a + b) by {
      forall k | 0 <= k < |a + b| ensures WellFormed((a + b)[k]) {
        if k >= |a| { assert (a + b)[k] == b[k - |a|]; }
      }
    }
    if a == [] {
      assert a + b == b;
    } else {
      assert (a + b)[0] == a[0];
      assert (a + b)[1..] == a[1..] + b;
      assert AllWellFormed(a[1..]) by {
        forall k | 0 <= k < |a[1..]| ensures WellFormed(a[1..][k]) { assert a[1..][k] == a[k + 1]; }
      }
      match Apply(c, a[0])
      case Thrown(c1) =>
      case Done(c1) => RunAppend(c1, a[1..], b);
    }
  }

  /** A chain keeps the invariant, and a chain that throws leaves the writer
      exactly as its last successful insertion did. */
  lemma {:induction false} RunPreserves(c: S.Config, items: seq<Item>)
    requires S.Valid(c) && AllWellFormed(items)
    ensures S.Valid(Run(c, items).cfg)
    decreases |items|
  {
    if items != [] {
      ApplyPreserves(c, items[0]);
      assert AllWellFormed(items[1..]) by {
        forall k | 0 <= k < |items[1..]| ensures WellFormed(items[1..][k]) { assert items[1..][k] == items[k + 1]; }
      }
      match Apply(c, items[0])
      case Thrown(c1) =>
      case Done(c1) => RunPreserves(c1, items[1..]);
    }
  }

  function Opens(items: seq<Item>): nat {
    if items == [] then 0
    else (if items[0].BeginArray? || items[0].BeginObject? then 1 else 0) + Opens(items[1..])
  }

  function Closes(items: seq<Item>): nat {
    if items == [] then 0
    else (if items[0].EndArray? || items[0].EndObject? then 1 else 0) + Closes(items[1..])
  }

  /** level() counts open braces: after a chain that does not throw, it has
      grown by the number of begins and shrunk by the number of ends. */
  lemma {:induction false} RunLevel(c: S.Config, items: seq<Item>)
    requires S.Valid(c) && AllWellFormed(items)
    ensures Run(c, items).Done? ==>
      S.Level(Run(c, items).cfg) == S.Level(c) + Opens(items) - Closes(items)
    decreases |items|
  {
    if items != [] {
      var it := items[0];
      ApplyPreserves(c, it);
      ApplyAccepts(c, it);
      S.BeginSpec(c);
      S.EndSpec(c);
      S.NameSpec(c, "");
      if it.Name? { S.NameSpec(c, it.n); }
      assert AllWellFormed(items[1..]) by {
        forall k | 0 <= k < |items[1..]| ensures WellFormed(items[1..][k]) { assert items[1..][k] == items[k + 1]; }
      }
      match Apply(c, it)
      case Thrown(c1) =>
      case Done(c1) => RunLevel(c1, items[1..]);
    }
  }
}
