/** The repository's unit tests, and a few misuses, as runs of a fresh
    writer: each method performs the calls of one test and its postcondition
    states the output, token by token, and the levels and verdicts expected.
    The tests use an empty stream; here the stream may already hold any text
    `os`. */
module Scenarios {
  import S = WriterSpec
  import E = JsonEscape
  import D = Decimal
  import W = Writer

  /** The text value(const char*) writes for a plain lower-case word. */
  lemma QuotedWord(w: string, q: string)
    requires forall i :: 0 <= i < |w| ==> 'a' <= w[i] <= 'z'
    requires q == "\"" + w + "\""
    ensures E.Quoted(W.CString(w + "\0" + "")) == q
  {
    E.PlainUnchanged(w);
    W.CStringOf(w, "");
  }

  /** The text name() writes for a plain lower-case word, before the ':'. */
  lemma QuotedName(w: string, q: string)
    requires forall i :: 0 <= i < |w| ==> 'a' <= w[i] <= 'z'
    requires q == "\"" + w + "\""
    ensures E.Quoted(w) == q
  {
    E.PlainUnchanged(w);
  }

  /** The decimal texts the tests expect. */
  lemma Numbers()
    ensures D.IntToDecimal(-1) == "-1" && D.IntToDecimal(1000) == "1000"
  {
  }

  /** SingleValues/Creation: one top-level value after another, with reset()
      in between (the test also empties its stream between values; here the
      texts accumulate). Each value leaves level() at 0. */
  method SingleValues(os: string) returns (text: string, levels: seq<nat>)
    ensures text == os + "1" + "true" + "false" + "null" + "\"hello\""
    ensures levels == [0, 0, 0, 0, 0]
  {
    QuotedWord("hello", "\"hello\"");
    assert D.IntToDecimal(1) == "1";
    var w := new W.JsonWriter(os, 0);
    var ok := w.ValueInt(1);
    assert w.View() == S.Config(S.Finished, [], os + "1");
    levels := [w.Level()];
    w.Reset();
    ok := w.ValueBool(true);
    assert w.View() == S.Config(S.Finished, [], os + "1" + "true");
    levels := levels + [w.Level()];
    w.Reset();
    ok := w.ValueBool(false);
    assert w.View() == S.Config(S.Finished, [], os + "1" + "true" + "false");
    levels := levels + [w.Level()];
    w.Reset();
    ok := w.ValueNull();
    assert w.View() == S.Config(S.Finished, [], os + "1" + "true" + "false" + "null");
    levels := levels + [w.Level()];
    w.Reset();
    ok := w.ValueCString("hello" + "\0" + "");
    levels := levels + [w.Level()];
    text := w.out;
  }

  /** The shape of the test's string: four words separated by '\n', '\n', '\t'. */
  function Joined(w1: string, w2: string, w3: string, w4: string): string {
    w1 + "\n" + w2 + "\n" + w3 + "\t" + w4
  }

  /** value(const char*) of such a string writes each separator as a
      two-character escape and the words unchanged. */
  lemma JoinedText(w1: string, w2: string, w3: string, w4: string)
    requires E.NoSpecial(w1) && E.NoSpecial(w2) && E.NoSpecial(w3) && E.NoSpecial(w4)
    ensures '\0' !in Joined(w1, w2, w3, w4)
    ensures E.Quoted(W.CString(Joined(w1, w2, w3, w4) + "\0" + "")) ==
      "\"" + (w1 + "\\n" + w2 + "\\n" + w3 + "\\t" + w4) + "\""
  {
    assert '\0' !in w1 && '\0' !in w2 && '\0' !in w3 && '\0' !in w4;
    E.QuotedSample(w1, w2, w3, w4);
    W.CStringOf(Joined(w1, w2, w3, w4), "");
  }

  lemma TestWords()
    ensures E.NoSpecial("hello") && E.NoSpecial("it") && E.NoSpecial("is") && E.NoSpecial("me")
  {
  }

  /** SingleValues/StringEscaping: newlines and a tab inside a C string. */
  method StringEscaping(os: string) returns (text: string)
    ensures text == os + ("\"" + ("hello" + "\\n" + "it" + "\\n" + "is" + "\\t" + "me") + "\"")
  {
    TestWords();
    JoinedText("hello", "it", "is", "me");
    var w := new W.JsonWriter(os, 0);
    var ok := w.ValueCString(Joined("hello", "it", "is", "me") + "\0" + "");
    text := w.out;
  }

  /** Arrays/General: five scalars of four kinds between '[' and ']'. */
  method ArraysGeneral(os: string) returns (text: string, inside: nat, after: nat)
    ensures inside == 1 && after == 0
    ensures text == os + "[" + "-1" + "," + "\"hello\"" + "," + "\"\"" + "," + "null" + "," + "false" + "]"
  {
    Numbers();
    QuotedWord("hello", "\"hello\"");
    QuotedWord("", "\"\"");
    var w := new W.JsonWriter(os, 0);
    var ok := w.BeginArray();
    assert w.View() == S.Config(S.ArrayEmpty, [S.Finished], os + "[");
    inside := w.Level();
    ok := w.ValueInt(-1);
    assert w.View() == S.Config(S.ArrayNonEmpty, [S.Finished], os + "[" + "-1");
    ok := w.ValueCString("hello" + "\0" + "");
    assert w.View() == S.Config(S.ArrayNonEmpty, [S.Finished], os + "[" + "-1" + "," + "\"hello\"");
    ok := w.ValueCString("" + "\0" + "");
    var sofar := os + "[" + "-1" + "," + "\"hello\"" + "," + "\"\"";
    assert w.View() == S.Config(S.ArrayNonEmpty, [S.Finished], sofar);
    ok := w.ValueNull();
    assert w.View() == S.Config(S.ArrayNonEmpty, [S.Finished], sofar + "," + "null");
    ok := w.ValueBool(false);
    assert w.View() == S.Config(S.ArrayNonEmpty, [S.Finished], sofar + "," + "null" + "," + "false");
    ok := w.EndArray();
    after := w.Level();
    text := w.out;
  }

  /** Arrays/Empty and Objects/Empty. */
  method EmptyContainers(os: string)
    returns (brackets: string, braces: string, afterArray: nat, inside: nat, after: nat)
    ensures brackets == os + "[" + "]" && braces == os + "{" + "}"
    ensures afterArray == 0 && inside == 1 && after == 0
  {
    var w := new W.JsonWriter(os, 0);
    var ok := w.BeginArray();
    ok := w.EndArray();
    brackets := w.out;
    afterArray := w.Level();
    var v := new W.JsonWriter(os, 0);
    ok := v.BeginObject();
    inside := v.Level();
    ok := v.EndObject();
    after := v.Level();
    braces := v.out;
  }

  /** Objects/General: four names, each followed by a value. */
  method ObjectsGeneral(os: string) returns (text: string)
    ensures text == os + "{" + "\"a\"" + ":" + "\"hello\"" + "," + "\"b\"" + ":" + "1000" + ","
                        + "\"c\"" + ":" + "null" + "," + "\"d\"" + ":" + "true" + "}"
  {
    QuotedName("a", "\"a\"");
    QuotedWord("hello", "\"hello\"");
    QuotedName("b", "\"b\"");
    Numbers();
    var w := new W.JsonWriter(os, 0);
    var ok := w.BeginObject();
    assert w.View() == S.Config(S.ObjEmpty, [S.Finished], os + "{");
    ok := w.Name("a");
    assert w.View() == S.Config(S.ObjHasName, [S.Finished], os + "{" + "\"a\"" + ":");
    ok := w.ValueCString("hello" + "\0" + "");
    var a := os + "{" + "\"a\"" + ":" + "\"hello\"";
    assert w.View() == S.Config(S.ObjNonEmpty, [S.Finished], a);
    ok := w.Name("b");
    assert w.View() == S.Config(S.ObjHasName, [S.Finished], a + "," + "\"b\"" + ":");
    ok := w.ValueInt(1000);
    ObjectsGeneralRest(w, a + "," + "\"b\"" + ":" + "1000");
    text := w.out;
  }

  /** The second half of Objects/General: members "c" and "d", then '}'. */
  method ObjectsGeneralRest(w: W.JsonWriter, before: string)
    requires w.View() == S.Config(S.ObjNonEmpty, [S.Finished], before)
    modifies w
    ensures w.View() == S.Config(S.Finished, [],
      before + "," + "\"c\"" + ":" + "null" + "," + "\"d\"" + ":" + "true" + "}")
  {
    QuotedName("c", "\"c\"");
    QuotedName("d", "\"d\"");
    var ok := w.Name("c");
    assert w.View() == S.Config(S.ObjHasName, [S.Finished], before + "," + "\"c\"" + ":");
    ok := w.ValueNull();
    var c := before + "," + "\"c\"" + ":" + "null";
    assert w.View() == S.Config(S.ObjNonEmpty, [S.Finished], c);
    ok := w.Name("d");
    assert w.View() == S.Config(S.ObjHasName, [S.Finished], c + "," + "\"d\"" + ":");
    ok := w.ValueBool(true);
    assert w.View() == S.Config(S.ObjNonEmpty, [S.Finished], c + "," + "\"d\"" + ":" + "true");
    ok := w.EndObject();
  }

  /** A name directly inside an array is refused, and nothing is written. */
  method NameInArray(os: string) returns (ok: bool, text: string)
    ensures !ok && text == os + "["
  {
    var w := new W.JsonWriter(os, 0);
    ok := w.BeginArray();
    ok := w.Name("x");
    text := w.out;
  }

  /** A name directly after a name is refused; the stream holds exactly
      the opening brace and the first name. */
  method NameAfterName(os: string) returns (first: bool, second: bool, text: string)
    ensures first && !second && text == os + "{" + "\"a\"" + ":"
  {
    QuotedName("a", "\"a\"");
    var w := new W.JsonWriter(os, 0);
    var ok := w.BeginObject();
    first := w.Name("a");
    second := w.Name("b");
    text := w.out;
  }

  /** After one top-level value: a second value is refused, close_all() has
      nothing to close and assert_finished() passes. On a fresh writer
      close_all() is accepted as well (the loop never runs), while
      assert_finished() fails. */
  method CloseAllAtTopLevel(os: string)
    returns (again: bool, closed: bool, finished: bool, closedFresh: bool, finishedFresh: bool, text: string)
    ensures !again && closed && finished && text == os + "1"
    ensures closedFresh && !finishedFresh
  {
    assert D.IntToDecimal(1) == "1";
    var w := new W.JsonWriter(os, 0);
    var ok := w.ValueInt(1);
    again := w.ValueInt(1);
    closed := w.CloseAll(0);
    finished := w.AssertFinished();
    text := w.out;
    var v := new W.JsonWriter(os, 0);
    closedFresh := v.CloseAll(0);
    finishedFresh := v.AssertFinished();
  }
}
