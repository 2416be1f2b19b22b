/** What the writer is for: any JSON document, sent to the writer as the
    natural sequence of calls (begin, the elements or name/value members in
    order, end), is accepted and comes out as its compact serialization. */
module Documents {
  import S = WriterSpec
  import E = JsonEscape
  import D = Decimal
  import St = Streaming

  /** A JSON document as a tree. Numbers are either 64-bit integers or the
      already rendered text of a floating-point value. */
  datatype Json =
    | JNull
    | JBool(b: bool)
    | JInt(i: D.Int64)
    | JNumber(rendered: string)
    | JString(s: string)
    | JArray(elems: seq<Json>)
    | JObject(members: seq<Member>)

  datatype Member = Member(key: string, value: Json)

  /** Compact JSON text: no whitespace, ',' between siblings, ':' after names. */
  function Serialize(j: Json): string
    decreases j, 1
  {
    match j
    case JNull => "null"
    case JBool(b) => if b then "true" else "false"
    case JInt(i) => D.IntToDecimal(i)
    case JNumber(t) => t
    case JString(s) => E.Quoted(s)
    case JArray(es) => "[" + SerializeElems(es) + "]"
    case JObject(ms) => "{" + SerializeMembers(ms) + "}"
  }

  function SerializeElems(es: seq<Json>): string
    decreases es, 0
  {
    if es == [] then ""
    else if |es| == 1 then Serialize(es[0])
    else Serialize(es[0]) + "," + SerializeElems(es[1..])
  }

  function SerializeMember(m: Member): string
    decreases m, 0
  {
    E.Quoted(m.key) + ":" + Serialize(m.value)
  }

  function SerializeMembers(ms: seq<Member>): string
    decreases ms, 0
  {
    if ms == [] then ""
    else if |ms| == 1 then SerializeMember(ms[0])
    else SerializeMember(ms[0]) + "," + SerializeMembers(ms[1..])
  }

  /** The calls that write a document. */
  function Items(j: Json): (r: seq<St.Item>)
    ensures St.AllWellFormed(r)
    decreases j, 1
  {
    match j
    case JNull => [St.Null]
    case JBool(b) => [St.Value(St.Bool(b))]
    case JInt(i) => [St.Value(St.Long(i))]
    case JNumber(t) => [St.Value(St.Double(t))]
    case JString(s) => [St.Value(St.Str(s))]
    case JArray(es) => Wrap(St.BeginArray, ElemItems(es), St.EndArray)
    case JObject(ms) => Wrap(St.BeginObject, MemberItems(ms), St.EndObject)
  }

  function Wrap(open: St.Item, body: seq<St.Item>, close: St.Item): (r: seq<St.Item>)
    requires St.AllWellFormed(body) && !open.Value? && !close.Value?
    ensures St.AllWellFormed(r)
  {
    var r := [open] + body + [close];
    assert forall k :: 0 < k < |r| - 1 ==> r[k] == body[k - 1];
    r
  }

  function Cat(a: seq<St.Item>, b: seq<St.Item>): (r: seq<St.Item>)
    requires St.AllWellFormed(a) && St.AllWellFormed(b)
    ensures St.AllWellFormed(r) && r == a + b
  {
    assert forall k :: |a| <= k < |a + b| ==> (a + b)[k] == b[k - |a|];
    a + b
  }

  function ElemItems(es: seq<Json>): (r: seq<St.Item>)
    ensures St.AllWellFormed(r)
    decreases es, 0
  {
    if es == [] then [] else Cat(Items(es[0]), ElemItems(es[1..]))
  }

  function MemberItems(ms: seq<Member>): (r: seq<St.Item>)
    ensures St.AllWellFormed(r)
    decreases ms, 0
  {
    if ms == [] then [] else Cat(Cat([St.Name(ms[0].key)], Items(ms[0].value)), MemberItems(ms[1..]))
  }

  /** Writing one document anywhere a value is expected: the calls are all
      accepted, the separator and the serialization are appended, the stack
      ends as it began and the state is the post-value state. */
  lemma {:induction false} WriteDocument(c: S.Config, j: Json)
    requires S.ValueExpected(c.state)
    ensures St.Run(c, Items(j)) ==
      S.Done(S.Config(S.AfterValue(c.state), c.stack, c.out + S.Separator(c.state) + Serialize(j)))
    decreases j, 2
  {
    match j
    case JArray(es) =>
      WriteArray(c, es);
    case JObject(ms) =>
      WriteObject(c, ms);
    case _ => WriteScalar(c, j);
  }

  lemma WriteScalar(c: S.Config, j: Json)
    requires S.ValueExpected(c.state) && !j.JArray? && !j.JObject?
    ensures St.Run(c, Items(j)) ==
      S.Done(S.Config(S.AfterValue(c.state), c.stack, c.out + S.Separator(c.state) + Serialize(j)))
  {
    S.WriteValueSpec(c, Serialize(j));
    var it := Items(j);
    assert |it| == 1 && it[1..] == [];
    assert St.Apply(c, it[0]) == S.WriteValue(c, Serialize(j));
  }

  lemma {:induction false} WriteArray(c: S.Config, es: seq<Json>)
    requires S.ValueExpected(c.state)
    ensures St.Run(c, Wrap(St.BeginArray, ElemItems(es), St.EndArray)) ==
      S.Done(S.Config(S.AfterValue(c.state), c.stack, c.out + S.Separator(c.state) + ("[" + SerializeElems(es) + "]")))
    decreases es, 1
  {
    var c1 := S.Config(S.ArrayEmpty, c.stack + [S.AfterValue(c.state)], c.out + S.Separator(c.state) + "[");
    assert St.Apply(c, St.BeginArray) == S.Done(c1) by { S.BeginSpec(c); }
    var c2 := S.Config(if es == [] then S.ArrayEmpty else S.ArrayNonEmpty, c1.stack, c1.out + SerializeElems(es));
    assert St.Run(c1, ElemItems(es)) == S.Done(c2) by { WriteElems(c1, es); }
    var done := S.Done(S.Config(S.AfterValue(c.state), c.stack, c.out + S.Separator(c.state) + ("[" + SerializeElems(es) + "]")));
    assert St.Apply(c2, St.EndArray) == done by {
      Close(c2, c.stack, S.AfterValue(c.state), c.out + S.Separator(c.state), "[", SerializeElems(es));
    }
    RunWrap(c, St.BeginArray, ElemItems(es), St.EndArray, c1, c2);
  }

  lemma {:induction false} WriteObject(c: S.Config, ms: seq<Member>)
    requires S.ValueExpected(c.state)
    ensures St.Run(c, Wrap(St.BeginObject, MemberItems(ms), St.EndObject)) ==
      S.Done(S.Config(S.AfterValue(c.state), c.stack, c.out + S.Separator(c.state) + ("{" + SerializeMembers(ms) + "}")))
    decreases ms, 1
  {
    var c1 := S.Config(S.ObjEmpty, c.stack + [S.AfterValue(c.state)], c.out + S.Separator(c.state) + "{");
    assert St.Apply(c, St.BeginObject) == S.Done(c1) by { S.BeginSpec(c); }
    var c2 := S.Config(if ms == [] then S.ObjEmpty else S.ObjNonEmpty, c1.stack, c1.out + SerializeMembers(ms));
    if ms == [] {
      assert MemberItems(ms) == [] && SerializeMembers(ms) == "";
      assert c2 == c1;
    } else {
      WriteMembers(c1, ms);
    }
    var done := S.Done(S.Config(S.AfterValue(c.state), c.stack, c.out + S.Separator(c.state) + ("{" + SerializeMembers(ms) + "}")));
    assert St.Apply(c2, St.EndObject) == done by {
      Close(c2, c.stack, S.AfterValue(c.state), c.out + S.Separator(c.state), "{", SerializeMembers(ms));
    }
    RunWrap(c, St.BeginObject, MemberItems(ms), St.EndObject, c1, c2);
  }

  /** The closing bracket of a finished body restores the saved state. */
  lemma Close(c2: S.Config, stack: seq<S.State>, saved: S.State, pre: string, open: string, body: string)
    requires c2.stack == stack + [saved] && c2.out == pre + open + body
    ensures S.InArray(c2.state) ==>
      S.EndArray(c2) == S.Done(S.Config(saved, stack, pre + (open + body + "]")))
    ensures S.InObject(c2.state) ==>
      S.EndObject(c2) == S.Done(S.Config(saved, stack, pre + (open + body + "}")))
  {
    assert c2.stack[..|c2.stack| - 1] == stack;
  }

  /** A wrapped chain whose opening call and body are accepted runs on to
      the closing call. */
  lemma RunWrap(c: S.Config, open: St.Item, body: seq<St.Item>, close: St.Item, c1: S.Config, c2: S.Config)
    requires St.AllWellFormed(body) && !open.Value? && !close.Value?
    requires St.Apply(c, open) == S.Done(c1) && St.Run(c1, body) == S.Done(c2)
    ensures St.Run(c, Wrap(open, body, close)) == St.Apply(c2, close)
  {
    var r := Wrap(open, body, close);
    assert r[0] == open && r[1..] == body + [close];
    St.RunAppend(c1, body, [close]);
    St.RunOne(c2, close);
  }

  /** The elements of an array, written after '[' or after earlier elements. */
  lemma {:induction false} WriteElems(c: S.Config, es: seq<Json>)
    requires S.InArray(c.state)
    ensures St.Run(c, ElemItems(es)) ==
      S.Done(S.Config(if es == [] then c.state else S.ArrayNonEmpty, c.stack,
                      (if es != [] && c.state == S.ArrayNonEmpty then c.out + "," else c.out) + SerializeElems(es)))
    decreases es, 0
  {
    if es == [] {
      assert c.out + "" == c.out;
    } else {
      var lead := if c.state == S.ArrayNonEmpty then c.out + "," else c.out;
      assert c.out + S.Separator(c.state) == lead;
      var c1 := S.Config(S.ArrayNonEmpty, c.stack, lead + Serialize(es[0]));
      WriteDocument(c, es[0]);
      St.RunThen(c, Items(es[0]), ElemItems(es[1..]), c1);
      WriteElems(c1, es[1..]);
      if |es| == 1 {
        assert es[1..] == [];
        assert c1.out + "" == c1.out;
      } else {
        Regroup(lead, Serialize(es[0]), ",", SerializeElems(es[1..]));
      }
    }
  }

  /** The members of an object, written after '{' or after earlier members. */
  lemma {:induction false} WriteMembers(c: S.Config, ms: seq<Member>)
    requires S.InObject(c.state)
    ensures St.Run(c, MemberItems(ms)) ==
      S.Done(S.Config(if ms == [] then c.state else S.ObjNonEmpty, c.stack,
                      (if ms != [] && c.state == S.ObjNonEmpty then c.out + "," else c.out) + SerializeMembers(ms)))
    decreases ms, 0
  {
    if ms == [] {
      assert c.out + "" == c.out;
    } else {
      var lead := if c.state == S.ObjNonEmpty then c.out + "," else c.out;
      var c1 := S.Config(S.ObjNonEmpty, c.stack, lead + SerializeMember(ms[0]));
      WriteMember(c, ms[0]);
      St.RunThen(c, Cat([St.Name(ms[0].key)], Items(ms[0].value)), MemberItems(ms[1..]), c1);
      WriteMembers(c1, ms[1..]);
      if |ms| == 1 {
        assert ms[1..] == [];
        assert c1.out + "" == c1.out;
      } else {
        Regroup(lead, SerializeMember(ms[0]), ",", SerializeMembers(ms[1..]));
      }
    }
  }

  /** Associativity over abstract pieces: the serializations above are long
      concatenations, and proving the regrouping once on four variables is
      far cheaper for the solver than on the concrete terms. */
  lemma Regroup(lead: string, first: string, sep: string, rest: string)
    ensures lead + first + sep + rest == lead + (first + sep + rest)
  {
  }

  /** One member: its name, then its value. */
  lemma {:induction false} WriteMember(c: S.Config, m: Member)
    requires S.InObject(c.state)
    ensures St.Run(c, Cat([St.Name(m.key)], Items(m.value))) ==
      S.Done(S.Config(S.ObjNonEmpty, c.stack,
                      (if c.state == S.ObjNonEmpty then c.out + "," else c.out) + SerializeMember(m)))
    decreases m, 1
  {
    var lead := if c.state == S.ObjNonEmpty then c.out + "," else c.out;
    var c0 := S.Config(S.ObjHasName, c.stack, lead + E.Quoted(m.key) + ":");
    assert S.Name(c, m.key) == S.Done(c0);
    St.RunOne(c, St.Name(m.key));
    St.RunThen(c, [St.Name(m.key)], Items(m.value), c0);
    WriteDocument(c0, m.value);
    assert c0.out + S.Separator(c0.state) == c0.out;
    Regroup(lead, E.Quoted(m.key), ":", Serialize(m.value));
  }

  /** A fresh writer accepts every document's calls, ends Finished at level 0
      holding exactly the serialization, and then passes assert_finished. */
  lemma WriteWholeDocument(j: Json)
    ensures St.Run(S.Init(""), Items(j)) == S.Done(S.Config(S.Finished, [], Serialize(j)))
    ensures S.AssertFinished(St.Run(S.Init(""), Items(j)).cfg).Done?
  {
    WriteDocument(S.Init(""), j);
  }
}
