/** The JsonWriter class: its state, its stack of saved states and the
    stream it appends to, updated in place by each call. Every method returns
    `true` where the C++ method returns normally and `false` where it throws
    JsonWriterStateError, and is proved to do exactly what the matching
    function of WriterSpec says. */
module Writer {
  import S = WriterSpec
  import E = JsonEscape
  import D = Decimal

  /** JsonWriter::flags. */
  const F_AUTO_CLOSE: bv32 := 0x1
  const F_STRICT: bv32 := 0x2
  const F_VERIFY_ON_EXIT: bv32 := 0x4

  /** Whether option bit `flag` is set in the flags word. */
  predicate HasFlag(flags: bv32, flag: bv32) { flags & flag != 0 }

  /** The flags word with exactly the named options set. */
  function Flags(autoClose: bool, strict: bool, verifyOnExit: bool): bv32 {
    (if autoClose then F_AUTO_CLOSE else 0)
    | (if strict then F_STRICT else 0)
    | (if verifyOnExit then F_VERIFY_ON_EXIT else 0)
  }

  /** The three options are independent bits: each predicate reads back
      exactly its own option. */
  lemma FlagsIndependent(autoClose: bool, strict: bool, verifyOnExit: bool)
    ensures HasFlag(Flags(autoClose, strict, verifyOnExit), F_AUTO_CLOSE) == autoClose
    ensures HasFlag(Flags(autoClose, strict, verifyOnExit), F_STRICT) == strict
    ensures HasFlag(Flags(autoClose, strict, verifyOnExit), F_VERIFY_ON_EXIT) == verifyOnExit
  {
  }

  /** Setting the auto-close bit of any flags word sets that option and
      leaves the other two as they were. */
  lemma SetAutoClose(f: bv32)
    ensures HasFlag(f | F_AUTO_CLOSE, F_AUTO_CLOSE)
    ensures HasFlag(f | F_AUTO_CLOSE, F_STRICT) == HasFlag(f, F_STRICT)
    ensures HasFlag(f | F_AUTO_CLOSE, F_VERIFY_ON_EXIT) == HasFlag(f, F_VERIFY_ON_EXIT)
  {
  }

  /** Likewise for the strict bit. */
  lemma SetStrict(f: bv32)
    ensures HasFlag(f | F_STRICT, F_STRICT)
    ensures HasFlag(f | F_STRICT, F_AUTO_CLOSE) == HasFlag(f, F_AUTO_CLOSE)
    ensures HasFlag(f | F_STRICT, F_VERIFY_ON_EXIT) == HasFlag(f, F_VERIFY_ON_EXIT)
  {
  }

  /** Likewise for the verify-on-exit bit. */
  lemma SetVerifyOnExit(f: bv32)
    ensures HasFlag(f | F_VERIFY_ON_EXIT, F_VERIFY_ON_EXIT)
    ensures HasFlag(f | F_VERIFY_ON_EXIT, F_AUTO_CLOSE) == HasFlag(f, F_AUTO_CLOSE)
    ensures HasFlag(f | F_VERIFY_ON_EXIT, F_STRICT) == HasFlag(f, F_STRICT)
  {
  }

  /** The position of a C string's terminating NUL: the first one. */
  function NulIndex(buf: string): (k: nat)
    requires '\0' in buf
    ensures k < |buf| && buf[k] == '\0'
    ensures forall j :: 0 <= j < k ==> buf[j] != '\0'
  {
    if buf[0] == '\0' then 0 else 1 + NulIndex(buf[1..])
  }

  /** The characters of a C string: those before its terminating NUL. */
  function CString(buf: string): string
    requires '\0' in buf
  {
    buf[..NulIndex(buf)]
  }

  /** A string literal passed as const char* is the literal itself: the
      characters before the NUL the compiler appends. */
  lemma CStringOf(s: string, rest: string)
    requires '\0' !in s
    ensures '\0' in s + "\0" + rest && CString(s + "\0" + rest) == s
  {
    var buf := s + "\0" + rest;
    assert buf[|s|] == '\0';
    assert forall j :: 0 <= j < |s| ==> buf[j] == s[j];
    assert buf[..|s|] == s;
  }

  class JsonWriter {
    var state: S.State
    var stack: seq<S.State>
    /** The output stream: everything written so far. */
    var out: string
    const flags: bv32

    /** The part of the writer the state machine speaks about. */
    function View(): S.Config
      reads this
    {
      S.Config(state, stack, out)
    }

    ghost predicate Valid()
      reads this
    {
      S.Valid(View())
    }

    /** JsonWriter(os, flags_): `os` is what the stream already holds. */
    constructor (os: string, flags_: bv32)
      ensures View() == S.Init(os) && flags == flags_
      ensures Valid() && Level() == 0
    {
      state := S.Empty;
      stack := [];
      out := os;
      flags := flags_;
    }

    predicate IsAutoClose() { HasFlag(flags, F_AUTO_CLOSE) }
    predicate IsStrict() { HasFlag(flags, F_STRICT) }
    predicate IsVerifyOnExit() { HasFlag(flags, F_VERIFY_ON_EXIT) }

    /** level(): the number of open braces. */
    function Level(): nat
      reads this
    {
      |stack|
    }

    /** assert_state(s): reports, never changes. */
    function AssertState(s: S.State): (ok: bool)
      reads this
      ensures ok == S.AssertState(View(), s).Done?
    {
      state == s
    }

    method AssertFinished() returns (ok: bool)
      ensures ok == S.AssertFinished(View()).Done?
      ensures ok <==> state == S.Finished
    {
      ok := AssertState(S.Finished);
    }

    method Reset()
      modifies this
      ensures View() == S.Reset(old(View()))
      ensures Valid() && Level() == 0 && out == old(out)
    {
      state := S.Empty;
      stack := [];
    }

    /** switch_state_value. */
    method SwitchStateValue() returns (ok: bool)
      modifies this
      ensures ok == S.SwitchValue(old(View())).Done?
      ensures View() == S.SwitchValue(old(View())).cfg
      ensures old(Valid()) ==> Valid()
      ensures old(Valid()) && !ok ==> View() == old(View())
    {
      if Valid() {
        S.SwitchValuePreserves(View());
        S.ThrowIsAtomic(View(), "", "");
      }
      match state
      case Empty =>
        state := S.Finished;
        ok := true;
      case ArrayEmpty =>
        state := S.ArrayNonEmpty;
        ok := true;
      case ArrayNonEmpty =>
        out := out + ",";
        ok := true;
      case ObjHasName =>
        state := S.ObjNonEmpty;
        ok := true;
      case _ =>
        ok := false;
    }

    method PushState()
      modifies this
      ensures View() == S.PushState(old(View()))
    {
      stack := stack + [state];
    }

    method PopState() returns (ok: bool)
      modifies this
      ensures ok == S.PopState(old(View())).Done?
      ensures View() == S.PopState(old(View())).cfg
    {
      if stack == [] {
        return false;
      }
      state := stack[|stack| - 1];
      stack := stack[..|stack| - 1];
      ok := true;
    }

    /** put_str: the loop writes put_char of each character in turn. */
    method PutStr(s: string)
      modifies this
      ensures View() == old(View()).(out := old(out) + E.Quoted(s))
    {
      out := out + "\"";
      var i := 0;
      while i < |s|
        invariant 0 <= i <= |s|
        invariant state == old(state) && stack == old(stack)
        invariant out == old(out) + "\"" + E.EscapeString(s[..i])
      {
        E.EscapePrefixStep(s, i);
        out := out + E.Escape(s[i]);
        i := i + 1;
      }
      assert s[..i] == s;
      E.QuotedAfter(old(out), s);
      out := out + "\"";
    }

    /** The common shape of the scalar overloads, for their postconditions. */
    ghost predicate WroteValue(before: S.Config, text: string, ok: bool)
      reads this
    {
      ok == S.WriteValue(before, text).Done? && View() == S.WriteValue(before, text).cfg
    }

    /** value(const char*): switch_state_value, then the C string in quotes. */
    method ValueCString(buf: string) returns (ok: bool)
      requires '\0' in buf
      modifies this
      ensures WroteValue(old(View()), E.Quoted(CString(buf)), ok)
      ensures old(Valid()) ==> Valid()
      ensures old(Valid()) && !ok ==> View() == old(View())
    {
      ok := SwitchStateValue();
      if ok {
        PutCString(buf);
      }
    }

    /** The loop of value(const char*): put_char of each character up to the NUL. */
    method PutCString(buf: string)
      requires '\0' in buf
      modifies this
      ensures View() == old(View()).(out := old(out) + E.Quoted(CString(buf)))
    {
      ghost var n := NulIndex(buf);
      out := out + "\"";
      var i := 0;
      while buf[i] != '\0'
        invariant 0 <= i <= n
        invariant state == old(state) && stack == old(stack)
        invariant out == old(out) + "\"" + E.EscapeString(buf[..i])
        decreases n - i
      {
        E.EscapePrefixStep(buf, i);
        out := out + E.Escape(buf[i]);
        i := i + 1;
      }
      assert i == n;
      E.QuotedAfter(old(out), CString(buf));
      out := out + "\"";
    }

    /** value(int) and value(long): switch_state_value, then the decimal text. */
    method ValueInt(v: D.Int32) returns (ok: bool)
      modifies this
      ensures WroteValue(old(View()), D.IntToDecimal(v), ok)
      ensures old(Valid()) ==> Valid()
      ensures old(Valid()) && !ok ==> View() == old(View())
    {
      ok := SwitchStateValue();
      if ok {
        out := out + D.IntToDecimal(v);
      }
    }

    method ValueLong(v: D.Int64) returns (ok: bool)
      modifies this
      ensures WroteValue(old(View()), D.IntToDecimal(v), ok)
      ensures old(Valid()) ==> Valid()
      ensures old(Valid()) && !ok ==> View() == old(View())
    {
      ok := SwitchStateValue();
      if ok {
        out := out + D.IntToDecimal(v);
      }
    }

    /** value(double) and value(float): `rendered` stands for the stream's
        rendering of the number at 16 (double) or 8 (float) significant digits. */
    method ValueFloating(rendered: string) returns (ok: bool)
      modifies this
      ensures WroteValue(old(View()), rendered, ok)
      ensures old(Valid()) ==> Valid()
      ensures old(Valid()) && !ok ==> View() == old(View())
    {
      ok := SwitchStateValue();
      if ok {
        out := out + rendered;
      }
    }

    method ValueChar(c: char) returns (ok: bool)
      modifies this
      ensures WroteValue(old(View()), E.Quoted([c]), ok)
      ensures old(Valid()) ==> Valid()
      ensures old(Valid()) && !ok ==> View() == old(View())
    {
      ok := SwitchStateValue();
      if ok {
        assert E.EscapeString([c]) == E.Escape(c) + E.EscapeString([]);
        out := out + "\"" + E.Escape(c) + "\"";
      }
    }

    method ValueString(s: string) returns (ok: bool)
      modifies this
      ensures WroteValue(old(View()), E.Quoted(s), ok)
      ensures old(Valid()) ==> Valid()
      ensures old(Valid()) && !ok ==> View() == old(View())
    {
      ok := SwitchStateValue();
      if ok {
        PutStr(s);
      }
    }

    method ValueBool(b: bool) returns (ok: bool)
      modifies this
      ensures WroteValue(old(View()), if b then "true" else "false", ok)
      ensures old(Valid()) ==> Valid()
      ensures old(Valid()) && !ok ==> View() == old(View())
    {
      ok := SwitchStateValue();
      if ok {
        out := out + (if b then "true" else "false");
      }
    }

    method ValueNull() returns (ok: bool)
      modifies this
      ensures WroteValue(old(View()), "null", ok)
      ensures old(Valid()) ==> Valid()
      ensures old(Valid()) && !ok ==> View() == old(View())
    {
      ok := SwitchStateValue();
      if ok {
        out := out + "null";
      }
    }

    method BeginArray() returns (ok: bool)
      modifies this
      ensures ok == S.BeginArray(old(View())).Done?
      ensures View() == S.BeginArray(old(View())).cfg
      ensures old(Valid()) ==> Valid()
      ensures old(Valid()) && !ok ==> View() == old(View())
    {
      if Valid() {
        S.BeginPreserves(View());
        S.ThrowIsAtomic(View(), "", "");
      }
      ok := SwitchStateValue();
      if ok {
        PushState();
        state := S.ArrayEmpty;
        out := out + "[";
      }
    }

    method EndArray() returns (ok: bool)
      modifies this
      ensures ok == S.EndArray(old(View())).Done?
      ensures View() == S.EndArray(old(View())).cfg
      ensures old(Valid()) ==> Valid()
      ensures old(Valid()) && !ok ==> View() == old(View())
    {
      if Valid() {
        S.EndPreserves(View());
        S.ThrowIsAtomic(View(), "", "");
      }
      if state == S.ArrayEmpty || state == S.ArrayNonEmpty {
        out := out + "]";
        ok := PopState();
      } else {
        ok := false;
      }
    }

    method BeginObject() returns (ok: bool)
      modifies this
      ensures ok == S.BeginObject(old(View())).Done?
      ensures View() == S.BeginObject(old(View())).cfg
      ensures old(Valid()) ==> Valid()
      ensures old(Valid()) && !ok ==> View() == old(View())
    {
      if Valid() {
        S.BeginPreserves(View());
        S.ThrowIsAtomic(View(), "", "");
      }
      ok := SwitchStateValue();
      if ok {
        PushState();
        state := S.ObjEmpty;
        out := out + "{";
      }
    }

    method EndObject() returns (ok: bool)
      modifies this
      ensures ok == S.EndObject(old(View())).Done?
      ensures View() == S.EndObject(old(View())).cfg
      ensures old(Valid()) ==> Valid()
      ensures old(Valid()) && !ok ==> View() == old(View())
    {
      if Valid() {
        S.EndPreserves(View());
        S.ThrowIsAtomic(View(), "", "");
      }
      if state == S.ObjEmpty || state == S.ObjNonEmpty {
        out := out + "}";
        ok := PopState();
      } else {
        ok := false;
      }
    }

    method Name(n: string) returns (ok: bool)
      modifies this
      ensures ok == S.Name(old(View()), n).Done?
      ensures View() == S.Name(old(View()), n).cfg
      ensures old(Valid()) ==> Valid()
      ensures old(Valid()) && !ok ==> View() == old(View())
    {
      if Valid() {
        S.NamePreserves(View(), n);
        S.ThrowIsAtomic(View(), n, "");
      }
      match state {
        case ObjNonEmpty =>
          out := out + ",";
        case ObjEmpty =>
        case _ =>
          return false;
      }
      state := S.ObjHasName;
      PutStr(n);
      out := out + ":";
      ok := true;
    }

    /** close_all(to): while more than `to` scopes are open, close the
        innermost one with the matching end_*. */
    method CloseAll(to: nat) returns (ok: bool)
      modifies this
      ensures ok == S.CloseAll(old(View()), to).Done?
      ensures View() == S.CloseAll(old(View()), to).cfg
      ensures old(Valid()) ==> Valid()
      ensures old(Valid()) && !ok ==> View() == old(View())
    {
      if Valid() {
        S.CloseAllSpec(View(), to);
      }
      while Level() > to
        invariant S.CloseAll(View(), to) == S.CloseAll(old(View()), to)
        decreases |stack|
      {
        if state == S.ObjNonEmpty || state == S.ObjEmpty {
          // Cannot throw: level() > to >= 0, so the stack is not empty.
          var closed := EndObject();
          assert closed;
        } else if state == S.ArrayNonEmpty || state == S.ArrayEmpty {
          var closed := EndArray();
          assert closed;
        } else {
          return false;
        }
      }
      ok := true;
    }

    /** The destructor: with the auto-close option set, close every open
        scope. */
    method Finish() returns (ok: bool)
      modifies this
      ensures IsAutoClose() ==> ok == S.CloseAll(old(View()), 0).Done? && View() == S.CloseAll(old(View()), 0).cfg
      ensures !IsAutoClose() ==> ok && View() == old(View())
      ensures old(Valid()) ==> Valid()
      ensures old(Valid()) && !ok ==> View() == old(View())
    {
      ok := true;
      if IsAutoClose() {
        ok := CloseAll(0);
      }
    }
  }
}
