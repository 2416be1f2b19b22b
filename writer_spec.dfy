/** The JSON writer's state machine as pure functions: one function per
    operation of JsonWriter, from the configuration before the call to the
    outcome of the call. The class in module Writer is proved to follow them. */
module WriterSpec {
  import E = JsonEscape

  /** JsonWriter::State: what the next token may be. */
  datatype State =
    | Empty           // nothing written yet
    | ArrayEmpty      // just after '['
    | ArrayNonEmpty   // inside an array, after at least one element
    | ObjEmpty        // just after '{'
    | ObjHasName      // inside an object, after "name":
    | ObjNonEmpty     // inside an object, after at least one member
    | Finished        // one complete top-level value written

  /** What a call can see and change: the current state, the stack of saved
      states (one per open '[' or '{'), and everything written to the stream. */
  datatype Config = Config(state: State, stack: seq<State>, out: string)

  /** The result of a call. A throwing call also carries the configuration at
      the moment of the throw, since the stream is never rolled back. */
  datatype Outcome = Done(cfg: Config) | Thrown(cfg: Config)

  /** The configuration of a freshly constructed writer over a stream that
      already holds `out`. */
  function Init(out: string): Config {
    Config(Empty, [], out)
  }

  /** level(): the number of open braces. */
  function Level(c: Config): nat {
    |c.stack|
  }

  // ----- The transition table, stated on its own -----

  /** The states in which a value (scalar or nested container) may be written. */
  predicate ValueExpected(st: State) {
    st == Empty || st == ArrayEmpty || st == ArrayNonEmpty || st == ObjHasName
  }

  /** The state after a value written in `st`. */
  function AfterValue(st: State): State
    requires ValueExpected(st)
  {
    match st
    case Empty => Finished
    case ArrayEmpty => ArrayNonEmpty
    case ArrayNonEmpty => ArrayNonEmpty
    case ObjHasName => ObjNonEmpty
  }

  /** The separator written before a value in `st`. */
  function Separator(st: State): string {
    if st == ArrayNonEmpty then "," else ""
  }

  predicate InArray(st: State) { st == ArrayEmpty || st == ArrayNonEmpty }

  predicate InObject(st: State) { st == ObjEmpty || st == ObjNonEmpty }

  // ----- The operations -----

  /** switch_state_value: the check and state change shared by every value. */
  function SwitchValue(c: Config): Outcome {
    match c.state
    case Empty => Done(c.(state := Finished))
    case ArrayEmpty => Done(c.(state := ArrayNonEmpty))
    case ArrayNonEmpty => Done(c.(out := c.out + ","))
    case ObjHasName => Done(c.(state := ObjNonEmpty))
    case _ => Thrown(c)
  }

  /** Every scalar value overload: switch_state_value, then the value's text. */
  function WriteValue(c: Config, text: string): Outcome {
    match SwitchValue(c)
    case Thrown(c1) => Thrown(c1)
    case Done(c1) => Done(c1.(out := c1.out + text))
  }

  function PushState(c: Config): Config {
    c.(stack := c.stack + [c.state])
  }

  /** pop_state: restores the innermost saved state; throws on an empty stack. */
  function PopState(c: Config): (r: Outcome)
    ensures r.Done? ==> |r.cfg.stack| + 1 == |c.stack|
  {
    if c.stack == [] then Thrown(c)
    else Done(c.(state := c.stack[|c.stack| - 1], stack := c.stack[..|c.stack| - 1]))
  }

  function BeginArray(c: Config): Outcome {
    match SwitchValue(c)
    case Thrown(c1) => Thrown(c1)
    case Done(c1) =>
      var c2 := PushState(c1);
      Done(c2.(state := ArrayEmpty, out := c2.out + "["))
  }

  /** end_array writes ']' before pop_state, so a throw from an empty stack
      leaves the ']' in the stream. */
  function EndArray(c: Config): (r: Outcome)
    ensures r.Done? ==> |r.cfg.stack| + 1 == |c.stack|
  {
    if InArray(c.state) then PopState(c.(out := c.out + "]")) else Thrown(c)
  }

  function BeginObject(c: Config): Outcome {
    match SwitchValue(c)
    case Thrown(c1) => Thrown(c1)
    case Done(c1) =>
      var c2 := PushState(c1);
      Done(c2.(state := ObjEmpty, out := c2.out + "{"))
  }

  function EndObject(c: Config): (r: Outcome)
    ensures r.Done? ==> |r.cfg.stack| + 1 == |c.stack|
  {
    if InObject(c.state) then PopState(c.(out := c.out + "}")) else Thrown(c)
  }

  /** name(n): a member name, with a ',' before all but the first. */
  function Name(c: Config, n: string): Outcome {
    match c.state
    case ObjNonEmpty => Done(Config(ObjHasName, c.stack, c.out + "," + E.Quoted(n) + ":"))
    case ObjEmpty => Done(Config(ObjHasName, c.stack, c.out + E.Quoted(n) + ":"))
    case _ => Thrown(c)
  }

  /** close_all(to): closes the innermost scope until `to` scopes remain. */
  function CloseAll(c: Config, to: nat): Outcome
    decreases |c.stack|
  {
    if |c.stack| <= to then Done(c)
    else if InObject(c.state) then
      match EndObject(c)
      case Done(c1) => CloseAll(c1, to)
      case Thrown(c1) => Thrown(c1)
    else if InArray(c.state) then
      match EndArray(c)
      case Done(c1) => CloseAll(c1, to)
      case Thrown(c1) => Thrown(c1)
    else Thrown(c)
  }

  /** reset(): back to the initial state; the stream keeps what was written. */
  function Reset(c: Config): Config {
    Config(Empty, [], c.out)
  }

  /** assert_state(s) and assert_finished(). */
  function AssertState(c: Config, s: State): Outcome {
    if c.state == s then Done(c) else Thrown(c)
  }

  function AssertFinished(c: Config): Outcome {
    AssertState(c, Finished)
  }

  // ----- The invariant of every reachable configuration -----

  /** The stack is empty exactly at top level (Empty or Finished); its bottom
      entry is Finished (what the top-level container leaves behind) and every
      other entry is the state after a value inside an array or an object. */
  predicate Valid(c: Config) {
    (c.stack == [] <==> (c.state == Empty || c.state == Finished))
    && (c.stack != [] ==> c.stack[0] == Finished)
    && (forall i :: 0 < i < |c.stack| ==> c.stack[i] == ArrayNonEmpty || c.stack[i] == ObjNonEmpty)
  }

  lemma InitValid(out: string)
    ensures Valid(Init(out)) && Level(Init(out)) == 0
  {
  }

  // ----- Values -----

  /** switch_state_value follows the table: it succeeds exactly where a value
      is expected, moves to the post-value state, writes the separator and
      leaves the stack alone; elsewhere it throws with nothing changed. */
  lemma SwitchValueTable(c: Config)
    ensures SwitchValue(c).Done? <==> ValueExpected(c.state)
    ensures ValueExpected(c.state) ==>
      SwitchValue(c).cfg == Config(AfterValue(c.state), c.stack, c.out + Separator(c.state))
    ensures !ValueExpected(c.state) ==> SwitchValue(c).cfg == c
  {
  }

  /** Every scalar value writes its text after the separator, and nothing else
      changes beyond the table's state; a rejected value writes nothing. */
  lemma WriteValueSpec(c: Config, text: string)
    ensures WriteValue(c, text).Done? <==> ValueExpected(c.state)
    ensures ValueExpected(c.state) ==>
      WriteValue(c, text).cfg == Config(AfterValue(c.state), c.stack, c.out + Separator(c.state) + text)
    ensures !ValueExpected(c.state) ==> WriteValue(c, text).cfg == c
  {
    SwitchValueTable(c);
  }

  /** A value can never be written once the document is Finished, nor inside
      an object before a name. */
  lemma NoValueAfterFinishOrWithoutName(c: Config, text: string)
    requires c.state == Finished || c.state == ObjEmpty || c.state == ObjNonEmpty
    ensures WriteValue(c, text) == Thrown(c)
  {
  }

  // ----- Nesting -----

  /** begin_array and begin_object are values to the enclosing context: they
      succeed exactly where a scalar value would, save the post-value state,
      and raise level() by exactly one. */
  lemma BeginSpec(c: Config)
    ensures BeginArray(c).Done? <==> ValueExpected(c.state)
    ensures BeginObject(c).Done? <==> ValueExpected(c.state)
    ensures ValueExpected(c.state) ==>
      BeginArray(c).cfg == Config(ArrayEmpty, c.stack + [AfterValue(c.state)], c.out + Separator(c.state) + "[")
      && BeginObject(c).cfg == Config(ObjEmpty, c.stack + [AfterValue(c.state)], c.out + Separator(c.state) + "{")
      && Level(BeginArray(c).cfg) == Level(c) + 1 && Level(BeginObject(c).cfg) == Level(c) + 1
    ensures !ValueExpected(c.state) ==> BeginArray(c).cfg == c && BeginObject(c).cfg == c
  {
    SwitchValueTable(c);
  }

  /** A top-level '[' saves Finished, so the matching ']' ends the document. */
  lemma TopLevelBeginSavesFinished(out: string)
    ensures BeginArray(Init(out)) == Done(Config(ArrayEmpty, [Finished], out + "["))
    ensures BeginObject(Init(out)) == Done(Config(ObjEmpty, [Finished], out + "{"))
  {
  }

  /** In a valid configuration, end_array succeeds exactly inside an array and
      end_object exactly inside an object; on success the closing bracket is
      written, the saved state comes back and level() drops by one; otherwise
      nothing changes. */
  lemma EndSpec(c: Config)
    requires Valid(c)
    ensures EndArray(c).Done? <==> InArray(c.state)
    ensures EndObject(c).Done? <==> InObject(c.state)
    ensures InArray(c.state) ==>
      EndArray(c).cfg == Config(c.stack[|c.stack| - 1], c.stack[..|c.stack| - 1], c.out + "]")
    ensures InObject(c.state) ==>
      EndObject(c).cfg == Config(c.stack[|c.stack| - 1], c.stack[..|c.stack| - 1], c.out + "}")
    ensures EndArray(c).Done? ==> Level(EndArray(c).cfg) + 1 == Level(c)
    ensures EndObject(c).Done? ==> Level(EndObject(c).cfg) + 1 == Level(c)
    ensures !InArray(c.state) ==> EndArray(c) == Thrown(c)
    ensures !InObject(c.state) ==> EndObject(c) == Thrown(c)
  {
  }

  /** An empty container is just a value: '[' then ']' (or '{' then '}') has
      the effect of writing the scalar text "[]" (or "{}"). */
  lemma BeginEndIsValue(c: Config)
    requires ValueExpected(c.state)
    ensures BeginArray(c).Done? && EndArray(BeginArray(c).cfg) == WriteValue(c, "[]")
    ensures BeginObject(c).Done? && EndObject(BeginObject(c).cfg) == WriteValue(c, "{}")
    ensures Level(WriteValue(c, "[]").cfg) == Level(c)
  {
    BeginSpec(c);
    WriteValueSpec(c, "[]");
    WriteValueSpec(c, "{}");
    var a := BeginArray(c).cfg;
    assert a.stack[..|a.stack| - 1] == c.stack;
    assert c.out + Separator(c.state) + "[" + "]" == c.out + Separator(c.state) + "[]";
    var o := BeginObject(c).cfg;
    assert o.stack[..|o.stack| - 1] == c.stack;
    assert c.out + Separator(c.state) + "{" + "}" == c.out + Separator(c.state) + "{}";
  }

  /** The atomicity the source promises does depend on the invariant: an
      array state over an empty stack (not reachable) writes ']' and throws. */
  lemma EndArrayNotAtomicOffInvariant()
    ensures !Valid(Config(ArrayEmpty, [], ""))
    ensures EndArray(Config(ArrayEmpty, [], "")) == Thrown(Config(ArrayEmpty, [], "]"))
  {
  }

  // ----- Names -----

  /** name(n) succeeds only directly inside an object and not after another
      name; it writes a ',' exactly when a member precedes, then the quoted
      name and ':', and the object then awaits the value. */
  lemma NameSpec(c: Config, n: string)
    ensures Name(c, n).Done? <==> InObject(c.state)
    ensures InObject(c.state) ==>
      Name(c, n).cfg == Config(ObjHasName, c.stack, c.out + (if c.state == ObjNonEmpty then "," else "") + E.Quoted(n) + ":")
    ensures !InObject(c.state) ==> Name(c, n) == Thrown(c)
    ensures Level(Name(c, n).cfg) == Level(c)
  {
  }

  /** A name and its value together write "name":value and leave the object
      non-empty. */
  lemma NameThenValue(c: Config, n: string, text: string)
    requires InObject(c.state)
    ensures WriteValue(Name(c, n).cfg, text) ==
      Done(Config(ObjNonEmpty, c.stack, c.out + (if c.state == ObjNonEmpty then "," else "") + E.Quoted(n) + ":" + text))
  {
  }

  // ----- Invariant preservation and atomicity -----

  lemma SwitchValuePreserves(c: Config)
    requires Valid(c)
    ensures Valid(SwitchValue(c).cfg)
  {
  }

  lemma BeginPreserves(c: Config)
    requires Valid(c)
    ensures Valid(BeginArray(c).cfg) && Valid(BeginObject(c).cfg)
  {
    SwitchValueTable(c);
    if ValueExpected(c.state) {
      var s := c.stack + [AfterValue(c.state)];
      assert forall i :: 0 < i < |s| ==> s[i] == ArrayNonEmpty || s[i] == ObjNonEmpty by {
        forall i | 0 < i < |s| ensures s[i] == ArrayNonEmpty || s[i] == ObjNonEmpty {
          if i < |c.stack| { assert s[i] == c.stack[i]; }
        }
      }
    }
  }

  lemma EndPreserves(c: Config)
    requires Valid(c)
    ensures Valid(EndArray(c).cfg) && Valid(EndObject(c).cfg)
  {
    if c.stack != [] {
      var s := c.stack[..|c.stack| - 1];
      assert forall i :: 0 < i < |s| ==> s[i] == c.stack[i];
    }
  }

  /** Scopes close back to a state that never awaits a value after a name. */
  lemma EndRestoresNoPendingName(c: Config)
    requires Valid(c)
    ensures EndArray(c).Done? ==> EndArray(c).cfg.state != ObjHasName
    ensures EndObject(c).Done? ==> EndObject(c).cfg.state != ObjHasName
  {
  }

  lemma NamePreserves(c: Config, n: string)
    requires Valid(c)
    ensures Valid(Name(c, n).cfg)
  {
  }

  /** In every reachable configuration a failed call changes nothing at all:
      not the state, not the stack, not the stream. */
  lemma ThrowIsAtomic(c: Config, n: string, text: string)
    requires Valid(c)
    ensures SwitchValue(c).Thrown? ==> SwitchValue(c).cfg == c
    ensures WriteValue(c, text).Thrown? ==> WriteValue(c, text).cfg == c
    ensures BeginArray(c).Thrown? ==> BeginArray(c).cfg == c
    ensures BeginObject(c).Thrown? ==> BeginObject(c).cfg == c
    ensures EndArray(c).Thrown? ==> EndArray(c).cfg == c
    ensures EndObject(c).Thrown? ==> EndObject(c).cfg == c
    ensures Name(c, n).Thrown? ==> Name(c, n).cfg == c
  {
  }

  /** Nothing written is ever taken back: every call only appends. */
  lemma OnlyAppends(c: Config, n: string, text: string)
    ensures c.out <= SwitchValue(c).cfg.out
    ensures c.out <= WriteValue(c, text).cfg.out
    ensures c.out <= BeginArray(c).cfg.out && c.out <= BeginObject(c).cfg.out
    ensures c.out <= EndArray(c).cfg.out && c.out <= EndObject(c).cfg.out
    ensures c.out <= Name(c, n).cfg.out
  {
  }

  // ----- close_all -----

  /** The bracket end_array or end_object writes for a scope in state `st`. */
  function Bracket(st: State): string {
    if InArray(st) then "]" else "}"
  }

  /** What close_all writes when the innermost open scope is in state `st`
      and `above` holds the saved states (outermost first) of the further
      scopes it closes: one matching bracket per scope, innermost first. */
  function ClosingText(st: State, above: seq<State>): string
    decreases |above|
  {
    if above == [] then Bracket(st)
    else Bracket(st) + ClosingText(above[|above| - 1], above[..|above| - 1])
  }

  /** One bracket per closed scope. */
  lemma {:induction false} ClosingTextLength(st: State, above: seq<State>)
    ensures |ClosingText(st, above)| == |above| + 1
    decreases |above|
  {
    if above != [] {
      ClosingTextLength(above[|above| - 1], above[..|above| - 1]);
    }
  }

  /** close_all(to) on a valid configuration: a no-op when level() <= to;
      otherwise it throws exactly when an object awaits a value after a name,
      and on success it leaves exactly `to` scopes open, has written exactly
      the matching bracket of each closed scope, innermost first, and keeps
      the invariant. */
  lemma {:induction false} CloseAllSpec(c: Config, to: nat)
    requires Valid(c)
    ensures Level(c) <= to ==> CloseAll(c, to) == Done(c)
    ensures CloseAll(c, to).Thrown? <==> Level(c) > to && c.state == ObjHasName
    ensures CloseAll(c, to).Thrown? ==> CloseAll(c, to).cfg == c
    ensures Valid(CloseAll(c, to).cfg)
    ensures CloseAll(c, to).Done? && Level(c) > to ==>
      var r := CloseAll(c, to).cfg;
      Level(r) == to && r.stack == c.stack[..to]
      && r.out == c.out + ClosingText(c.state, c.stack[to + 1..])
      && |r.out| == |c.out| + Level(c) - to
    decreases |c.stack|
  {
    if Level(c) > to && c.state != ObjHasName {
      var c1 := CloseStep(c, to);
      CloseAllSpec(c1, to);
      if Level(c1) > to {
        assert c.stack[..|c.stack| - 1][..to] == c.stack[..to];
      }
      CloseAllText(c, to);
      ClosingTextLength(c.state, c.stack[to + 1..]);
    }
  }

  /** The text close_all appends, by induction on the open scopes. */
  lemma {:induction false} CloseAllText(c: Config, to: nat)
    requires Valid(c) && Level(c) > to && c.state != ObjHasName
    ensures CloseAll(c, to).Done?
    ensures CloseAll(c, to).cfg.out == c.out + ClosingText(c.state, c.stack[to + 1..])
    decreases |c.stack|
  {
    var c1 := CloseStep(c, to);
    var above := c.stack[to + 1..];
    if Level(c1) > to {
      CloseAllText(c1, to);
      assert above[|above| - 1] == c1.state;
      assert above[..|above| - 1] == c1.stack[to + 1..];
      Regroup(c.out, Bracket(c.state), ClosingText(c1.state, c1.stack[to + 1..]));
    } else {
      assert above == [];
    }
  }

  /** Associativity of concatenation over abstract pieces: stated once here
      so that the solver does not re-derive it on the concrete, longer
      strings of CloseAllText, where that costs several times as much. */
  lemma Regroup(a: string, b: string, d: string)
    ensures a + b + d == a + (b + d)
  {
  }

  /** One round of close_all's loop: the innermost scope is closed by its
      matching bracket, the state it had saved comes back, and the loop goes
      on from there. */
  lemma CloseStep(c: Config, to: nat) returns (c1: Config)
    requires Valid(c) && Level(c) > to && c.state != ObjHasName
    ensures CloseAll(c, to) == CloseAll(c1, to)
    ensures Valid(c1) && c1.state != ObjHasName
    ensures c1.state == c.stack[|c.stack| - 1] && c1.stack == c.stack[..|c.stack| - 1]
    ensures c1.out == c.out + Bracket(c.state)
  {
    EndPreserves(c);
    EndRestoresNoPendingName(c);
    c1 := if InObject(c.state) then EndObject(c).cfg else EndArray(c).cfg;
  }

  /** close_all(0) from inside any nest of scopes (not awaiting a value
      after a name) finishes the document. */
  lemma CloseAllFinishes(c: Config)
    requires Valid(c) && Level(c) > 0 && c.state != ObjHasName
    ensures CloseAll(c, 0).Done?
    ensures CloseAll(c, 0).cfg.state == Finished && Level(CloseAll(c, 0).cfg) == 0
    ensures AssertFinished(CloseAll(c, 0).cfg).Done?
  {
    CloseAllSpec(c, 0);
    var r := CloseAll(c, 0).cfg;
    assert r.stack == [];
    CloseAllKeepsTopLevel(c, 0);
  }

  /** If any scope is closed, close_all ends up in the state the outermost
      closed scope had saved. */
  lemma {:induction false} CloseAllKeepsTopLevel(c: Config, to: nat)
    requires Valid(c) && Level(c) > to
    ensures CloseAll(c, to).Done? ==> CloseAll(c, to).cfg.state == c.stack[to]
    decreases |c.stack|
  {
    if c.state != ObjHasName {
      EndPreserves(c);
      var c1 := if InObject(c.state) then EndObject(c).cfg else EndArray(c).cfg;
      assert CloseAll(c, to) == CloseAll(c1, to);
      assert c1.stack == c.stack[..|c.stack| - 1];
      if Level(c1) > to {
        CloseAllKeepsTopLevel(c1, to);
      }
    }
  }

  // ----- reset, assert_state -----

  /** reset() gives exactly a fresh writer on the same stream. */
  lemma ResetSpec(c: Config)
    ensures Reset(c) == Init(c.out)
    ensures Valid(Reset(c)) && Level(Reset(c)) == 0
    ensures Reset(Reset(c)) == Reset(c)
  {
  }

  /** assert_state(s) succeeds exactly in state s and never changes anything. */
  lemma AssertStateSpec(c: Config, s: State)
    ensures AssertState(c, s).Done? <==> c.state == s
    ensures AssertState(c, s).cfg == c
    ensures AssertFinished(c).Done? <==> c.state == Finished
  {
  }
}
