# JsonWriter in Dafny

A model of `JsonWriter`, a small streaming JSON writer. Callers make a
sequence of calls: scalar `value(...)` overloads, `value_null`,
`begin_array`/`end_array`, `begin_object`/`end_object`, `name`,
`close_all`, `reset` and `assert_finished`. The writer checks each call
against its current state, appends the corresponding tokens to an output
stream, and throws `JsonWriterStateError` when a call does not fit.

The state machine is a current `State` plus a stack of saved states, one
per open `[` or `{`. Each `begin_*` first counts as a value in the
enclosing context. It then pushes the state *after* that value, so the
matching `end_*` restores it. For example, a top-level `[` saves
`S_FINISHED`.

The model has these modules:

- `JsonEscape` (escape.dfy) covers `put_char` and `put_str`.
  - `Escape` is the one pure per-character mapping. It rewrites NUL, CR, LF, TAB and `"`, and writes every other character unchanged, backslash included.
  - `Quoted` is the quoted text `put_str` writes.
  - As an independent reference, the module defines `Unescape`/`DecodeQuoted`, a decoder for the string syntax of section 7 of RFC 8259.
  - Against that decoder it proves that every string without a backslash and without a control character other than NUL, CR, LF and TAB is reproduced. It also gives strings with a backslash or another control character that are not. The converse (that only such strings are reproduced) is not proved.
  - The escaping is not RFC 8259 conformant, and the model does not claim it is.
- `Decimal` (decimal.dfy) is the decimal text that `value(int)` and `value(long)` write. It has a reference parser and a round-trip proof.
- `WriterSpec` (writer_spec.dfy) is the state machine as pure functions.
  - A `Config(state, stack, out)` goes to an `Outcome`, which is either `Done(cfg)` or `Thrown(cfg)`. A throwing call keeps the configuration at the moment of the throw, because the stream is never rolled back.
  - `Valid` is the invariant of every reachable configuration: the stack is empty exactly when the state is `Empty` or `Finished`, its bottom entry is `Finished`, and its other entries are `ArrayNonEmpty` or `ObjNonEmpty`.
  - The module's lemmas state the transition table, nesting, atomicity of failures, append-only output and `close_all`.
- `Writer` (writer.dfy) is the class `JsonWriter`.
  - Its fields are `state`, `stack: seq<State>`, `out: string` (the stream) and `flags: bv32`, and its methods update them in place.
  - Each method returns `true` where the C++ method returns normally and `false` where it throws.
  - Each method is proved to end in exactly the configuration the matching `WriterSpec` function gives.
  - Each public operation also keeps the class invariant `Valid()`. From a valid writer, a call that fails leaves `state`, `stack` and `out` exactly as they were.
  - The loops of `put_str`, `value(const char*)` and `close_all` are kept as loops with invariants.
  - The destructor's auto-close is the method `Finish`.
- `Streaming` (streaming.dfy) is the `operator<<` layer.
  - Every overload and manipulator is an `Item`, forwarded by `Shift` to one writer method.
  - A chain `w << a << b ...` is `Run`: the calls in order until the first one throws.
- `Documents` (documents.dfy) is what the writer is for. A JSON tree, sent as its natural sequence of calls, is accepted, and the writer ends holding its compact serialization.
- `Scenarios` (scenarios.dfy) models the repository's unit tests and three misuses as runs of a fresh writer. Each method's postcondition states the exact output and the expected levels and verdicts.

## Model

| member | source | states |
|---|---|---|
| JsonEscape.Escape | src/json_writer.cpp:45-55 | put_char writes at least one character; it rewrites a character exactly when it is one of the five special ones, and every rewrite starts with a backslash |
| JsonEscape.EscapeString | src/json_writer.cpp:57-65 | the body put_str writes: put_char of every character in order; stated by `EscapeStringConcat`, `EscapeStringLength`, `EscapeStringNoRawControl` and `UnescapeEscapeString` |
| JsonEscape.Quoted | src/json_writer.cpp:57-65 | the whole put_str text, quotes included; stated by `QuotedAfter`, `QuotedRoundTrip` and the backslash lemmas |
| JsonEscape.EscapeTable | src/json_writer.cpp:45-55 | the five rewrites are `\u0000`, `\r`, `\n`, `\t` and `\"`; a backslash is written as a single backslash |
| JsonEscape.EscapeNewlineTab | src/json_writer.cpp:50-51 | a newline is written as `\n` and a tab as `\t` |
| JsonEscape.EscapeStringConcat | src/json_writer.cpp:57-65 | escaping a string is done character by character, so it distributes over concatenation |
| JsonEscape.EscapePrefixStep | src/json_writer.cpp:61-63 | one turn of put_str's loop extends the escaped prefix by the next character's put_char text |
| JsonEscape.QuotedAfter | src/json_writer.cpp:57-65 | the opening quote, the escaped characters and the closing quote, written in turn, append the quoted literal |
| JsonEscape.EscapeStringLength | src/json_writer.cpp:45-65 | escaping never shortens a string; it leaves the string unchanged if and only if it holds no special character, which is also exactly when it keeps its length |
| JsonEscape.PlainUnchanged | src/json_writer.cpp:57-65 | a string without special characters is written as itself between quotes |
| JsonEscape.EscapeStringNoRawControl | src/json_writer.cpp:45-55 | the escaped text never holds a raw NUL, CR, LF or TAB |
| JsonEscape.UnescapeEscape | src/json_writer.cpp:45-55 | the RFC 8259 decoder reads each put_char text back as its character, for every character that is not a backslash or another control character |
| JsonEscape.UnescapeEscapeString | src/json_writer.cpp:57-65 | decoding undoes escaping on every string with no backslash and no control character other than NUL, CR, LF and TAB |
| JsonEscape.QuotedRoundTrip | src/json_writer.cpp:57-65 | for every such string, put_str writes a complete JSON string literal that decodes back to the argument |
| JsonEscape.BackslashBreaksLiteral | src/json_writer.cpp:53 | a lone backslash comes out raw, and the literal written for it is not a complete JSON string |
| JsonEscape.BackslashChangesValue | src/json_writer.cpp:53 | a backslash followed by `n` comes out raw and reads back as a newline, so the value changes |
| JsonEscape.RawControlRejected | src/json_writer.cpp:53 | every control character other than NUL, CR, LF and TAB is written raw, and JSON rejects the resulting literal |
| JsonEscape.QuotedSample | test/unit_writer.cpp:55-62 | plain words separated by newlines and a tab come out with each separator as its two-character escape and the words unchanged |
| Decimal.IntToDecimal | src/json_writer.cpp:110-119 | the text the stream writes for an integer; stated by `IntRoundTrip` and `IntToDecimalInjective` |
| Decimal.NatToDecimalCorrect | src/json_writer.cpp:110-119 | the digits written for a natural number are canonical (only digits, no leading zero) and read back as the number |
| Decimal.IntRoundTrip | src/json_writer.cpp:110-119 | the text value(int)/value(long) writes is canonical (optional `-`, no `-0`) and parses back to the value |
| Decimal.IntToDecimalInjective | src/json_writer.cpp:110-119 | distinct integers are written as distinct texts |
| WriterSpec.InitValid | include/json_writer.hpp:39-42 | a fresh writer is in a valid configuration at level 0 |
| WriterSpec.Valid | src/json_writer.cpp:88-98 | the invariant of every reachable configuration: stack empty exactly at top level, Finished at its bottom, post-value states above; it holds initially (`InitValid`) and is kept by every operation (`SwitchValuePreserves`, `BeginPreserves`, `EndPreserves`, `NamePreserves`, `CloseAllSpec`, `ResetSpec`) |
| WriterSpec.SwitchValue | src/json_writer.cpp:68-87 | switch_state_value; its table is stated by `SwitchValueTable` |
| WriterSpec.WriteValue | src/json_writer.cpp:99-151 | every scalar value overload; stated by `WriteValueSpec` |
| WriterSpec.PushState | src/json_writer.cpp:88-91 | push_state appends the current state; its use in begin_* is stated by `BeginSpec` |
| WriterSpec.BeginArray | src/json_writer.cpp:152-158 | begin_array; stated by `BeginSpec` and `TopLevelBeginSavesFinished` |
| WriterSpec.BeginObject | src/json_writer.cpp:171-177 | begin_object; stated by `BeginSpec` and `TopLevelBeginSavesFinished` |
| WriterSpec.Name | src/json_writer.cpp:190-203 | name; stated by `NameSpec` and `NameThenValue` |
| WriterSpec.CloseAll | src/json_writer.cpp:24-40 | close_all; stated by `CloseAllSpec`, `CloseAllText` and `CloseAllFinishes` |
| WriterSpec.Reset | src/json_writer.cpp:13-17 | reset; stated by `ResetSpec` |
| WriterSpec.AssertState | include/json_writer.hpp:70-71 | assert_state; stated by `AssertStateSpec` |
| WriterSpec.AssertFinished | src/json_writer.cpp:41-44 | assert_finished; stated by `AssertStateSpec` |
| WriterSpec.PopState | src/json_writer.cpp:92-98 | a successful pop_state shortens the stack by exactly one |
| WriterSpec.EndArray | src/json_writer.cpp:159-170 | a successful end_array lowers the stack depth by exactly one |
| WriterSpec.EndObject | src/json_writer.cpp:178-189 | a successful end_object lowers the stack depth by exactly one |
| WriterSpec.SwitchValueTable | src/json_writer.cpp:68-87 | switch_state_value succeeds exactly in Empty, ArrayEmpty, ArrayNonEmpty and ObjHasName; it moves to the post-value state, writes `,` only in ArrayNonEmpty and keeps the stack; anywhere else it throws with nothing changed |
| WriterSpec.WriteValueSpec | src/json_writer.cpp:99-151 | every scalar overload is accepted exactly where a value is expected and then appends the separator followed by its text; a rejected value changes nothing |
| WriterSpec.NoValueAfterFinishOrWithoutName | src/json_writer.cpp:84-86 | no value is accepted once the document is Finished, nor inside an object before a name |
| WriterSpec.BeginSpec | src/json_writer.cpp:152-177 | begin_array/begin_object succeed exactly where a value is expected; they push the post-value state, enter ArrayEmpty/ObjEmpty, append the separator and the bracket, and raise level() by exactly one; otherwise nothing changes |
| WriterSpec.TopLevelBeginSavesFinished | src/json_writer.cpp:152-177 | a top-level `[` or `{` saves Finished on the stack |
| WriterSpec.EndSpec | src/json_writer.cpp:159-189 | in a valid configuration, end_array succeeds exactly inside an array and end_object exactly inside an object; on success they append the bracket, restore the saved state and lower level() by one; otherwise nothing changes |
| WriterSpec.BeginEndIsValue | test/unit_writer.cpp:82-101 | begin followed at once by end has the effect of the scalar text `[]` or `{}`, and level() returns to its earlier value |
| WriterSpec.EndArrayNotAtomicOffInvariant | src/json_writer.cpp:159-170 | off the invariant (an array state over an empty stack), end_array writes `]` and then throws from pop_state; the invariant is needed for atomicity |
| WriterSpec.NameSpec | src/json_writer.cpp:190-203 | name(n) succeeds exactly in ObjEmpty or ObjNonEmpty; it writes `,` exactly when a member precedes, then the quoted name and `:`; it enters ObjHasName and keeps level(); elsewhere it throws with nothing changed |
| WriterSpec.NameThenValue | src/json_writer.cpp:190-203 | a name and its value together write `"name":value` and leave the object non-empty |
| WriterSpec.SwitchValuePreserves | src/json_writer.cpp:68-87 | switch_state_value keeps the invariant |
| WriterSpec.BeginPreserves | src/json_writer.cpp:152-177 | begin_array and begin_object keep the invariant |
| WriterSpec.EndPreserves | src/json_writer.cpp:159-189 | end_array and end_object keep the invariant |
| WriterSpec.EndRestoresNoPendingName | src/json_writer.cpp:159-189 | closing a scope never restores ObjHasName |
| WriterSpec.NamePreserves | src/json_writer.cpp:190-203 | name keeps the invariant |
| WriterSpec.ThrowIsAtomic | src/json_writer.cpp:68-203 | in every reachable configuration, a failing switch_state_value, value, begin_*, end_* or name changes neither the state, nor the stack, nor the stream |
| WriterSpec.OnlyAppends | src/json_writer.cpp:45-203 | every operation only appends to the stream |
| WriterSpec.CloseAllSpec | src/json_writer.cpp:24-40 | close_all(to) is a no-op when level() <= to; otherwise it throws exactly when an object awaits a value after a name, and then changes nothing; on success exactly `to` scopes remain, namely the bottom `to` stack entries, and the stream has gained exactly `ClosingText`: the matching bracket of each closed scope, innermost first, one per scope; the invariant is kept |
| WriterSpec.CloseAllText | src/json_writer.cpp:24-40 | a close_all that has scopes to close and no pending name succeeds and appends exactly the matching `]` or `}` of each closed scope, innermost first |
| WriterSpec.ClosingTextLength | src/json_writer.cpp:26-38 | the closing text holds one bracket per closed scope |
| WriterSpec.ClosingText | src/json_writer.cpp:27-35 | the brackets close_all writes: the current scope's bracket, then those of the saved states above `to`, innermost first; its length is stated by `ClosingTextLength` and its use by `CloseAllText` |
| WriterSpec.Bracket | src/json_writer.cpp:27-35 | `]` for an array state and `}` for an object state, the bracket of the end_* call close_all picks; used by `CloseStep` |
| WriterSpec.CloseStep | src/json_writer.cpp:26-38 | one turn of close_all's loop appends the bracket matching the innermost scope, restores the state that scope had saved, pops it, keeps the invariant and never reaches ObjHasName |
| WriterSpec.CloseAllFinishes | src/json_writer.cpp:24-44 | close_all(0) inside any nest of scopes that is not awaiting a value finishes the document at level 0, and assert_finished then passes |
| WriterSpec.CloseAllKeepsTopLevel | src/json_writer.cpp:24-40 | a close_all that closes a scope ends in the state that the outermost closed scope had saved |
| WriterSpec.ResetSpec | src/json_writer.cpp:13-17 | reset gives exactly a fresh writer on the same stream, valid at level 0; it is idempotent |
| WriterSpec.AssertStateSpec | include/json_writer.hpp:70-71 | assert_state(s) succeeds exactly in state s and never changes anything; assert_finished succeeds exactly in Finished |
| Writer.FlagsIndependent | include/json_writer.hpp:27-46 | with flags built from three options, is_auto_close, is_strict and is_verify_on_exit (bits 0x1, 0x2, 0x4) each read back exactly their own option |
| Writer.SetAutoClose | include/json_writer.hpp:27-46 | setting bit 0x1 in any flags word turns is_auto_close on and leaves the other two predicates unchanged |
| Writer.SetStrict | include/json_writer.hpp:27-46 | setting bit 0x2 in any flags word turns is_strict on and leaves the other two predicates unchanged |
| Writer.SetVerifyOnExit | include/json_writer.hpp:27-46 | setting bit 0x4 in any flags word turns is_verify_on_exit on and leaves the other two predicates unchanged |
| Writer.JsonWriter.IsAutoClose | include/json_writer.hpp:44 | the flag test `(flags & F_AUTO_CLOSE) != 0`; its meaning is stated by `FlagsIndependent` and `SetAutoClose` |
| Writer.JsonWriter.IsStrict | include/json_writer.hpp:45 | the flag test for F_STRICT; stated by `FlagsIndependent` and `SetStrict` |
| Writer.JsonWriter.IsVerifyOnExit | include/json_writer.hpp:46 | the flag test for F_VERIFY_ON_EXIT; stated by `FlagsIndependent` and `SetVerifyOnExit` |
| Writer.JsonWriter.Level | include/json_writer.hpp:65-66 | a query that reads the writer and changes nothing: the number of open scopes, the depth of the stack; how each call moves it is stated by `WriterSpec.BeginSpec`, `WriterSpec.EndSpec`, `WriterSpec.CloseAllSpec` and `Streaming.RunLevel` |
| Writer.NulIndex | src/json_writer.cpp:103-106 | the loop of value(const char*) stops at the first NUL |
| Writer.CStringOf | src/json_writer.cpp:99-108 | a string literal passed as `const char*` is read as exactly its characters, up to the NUL the compiler appends |
| Writer.JsonWriter.constructor | include/json_writer.hpp:39-42 | a new writer is Empty, with an empty stack, over the given stream and flags; it is valid at level 0 |
| Writer.JsonWriter.AssertState | include/json_writer.hpp:70-71 | the query succeeds exactly when `WriterSpec.AssertState` does |
| Writer.JsonWriter.AssertFinished | src/json_writer.cpp:41-44 | succeeds exactly in Finished and changes nothing |
| Writer.JsonWriter.Reset | src/json_writer.cpp:13-17 | clears the state and the stack and leaves the stream, as `WriterSpec.Reset` |
| Writer.JsonWriter.SwitchStateValue | src/json_writer.cpp:68-87 | verdict and new configuration are those of `WriterSpec.SwitchValue`. It keeps `Valid()`; from a valid writer, a failing call changes nothing |
| Writer.JsonWriter.PushState | src/json_writer.cpp:88-91 | appends the current state to the stack, as `WriterSpec.PushState` |
| Writer.JsonWriter.PopState | src/json_writer.cpp:92-98 | verdict and new configuration are those of `WriterSpec.PopState` |
| Writer.JsonWriter.PutStr | src/json_writer.cpp:57-65 | the loop appends exactly the quoted, escaped string and changes nothing else |
| Writer.JsonWriter.PutCString | src/json_writer.cpp:102-107 | the loop up to the NUL appends exactly the quoted, escaped C string and changes nothing else |
| Writer.JsonWriter.ValueCString | src/json_writer.cpp:99-108 | verdict and new configuration are those of `WriterSpec.WriteValue` with the quoted C string. It keeps `Valid()`; from a valid writer, a failing call changes nothing |
| Writer.JsonWriter.ValueInt | src/json_writer.cpp:110-114 | verdict and new configuration are those of `WriterSpec.WriteValue` with the 32-bit value's decimal text. It keeps `Valid()`; from a valid writer, a failing call changes nothing |
| Writer.JsonWriter.ValueLong | src/json_writer.cpp:115-119 | verdict and new configuration are those of `WriterSpec.WriteValue` with the 64-bit value's decimal text. It keeps `Valid()`; from a valid writer, a failing call changes nothing |
| Writer.JsonWriter.ValueFloating | src/json_writer.cpp:120-129 | verdict and new configuration are those of `WriterSpec.WriteValue` with the stream's rendering of the number. It keeps `Valid()`; from a valid writer, a failing call changes nothing |
| Writer.JsonWriter.ValueChar | src/json_writer.cpp:130-136 | verdict and new configuration are those of `WriterSpec.WriteValue` with the one character quoted and escaped. It keeps `Valid()`; from a valid writer, a failing call changes nothing |
| Writer.JsonWriter.ValueString | src/json_writer.cpp:137-141 | verdict and new configuration are those of `WriterSpec.WriteValue` with the quoted string. It keeps `Valid()`; from a valid writer, a failing call changes nothing |
| Writer.JsonWriter.ValueBool | src/json_writer.cpp:142-146 | verdict and new configuration are those of `WriterSpec.WriteValue` with `true` or `false`. It keeps `Valid()`; from a valid writer, a failing call changes nothing |
| Writer.JsonWriter.ValueNull | src/json_writer.cpp:147-151 | verdict and new configuration are those of `WriterSpec.WriteValue` with `null`. It keeps `Valid()`; from a valid writer, a failing call changes nothing |
| Writer.JsonWriter.BeginArray | src/json_writer.cpp:152-158 | verdict and new configuration are those of `WriterSpec.BeginArray`. It keeps `Valid()`; from a valid writer, a failing call changes nothing |
| Writer.JsonWriter.EndArray | src/json_writer.cpp:159-170 | verdict and new configuration are those of `WriterSpec.EndArray`. It keeps `Valid()`; from a valid writer, a failing call changes nothing |
| Writer.JsonWriter.BeginObject | src/json_writer.cpp:171-177 | verdict and new configuration are those of `WriterSpec.BeginObject`. It keeps `Valid()`; from a valid writer, a failing call changes nothing |
| Writer.JsonWriter.EndObject | src/json_writer.cpp:178-189 | verdict and new configuration are those of `WriterSpec.EndObject`. It keeps `Valid()`; from a valid writer, a failing call changes nothing |
| Writer.JsonWriter.Name | src/json_writer.cpp:190-203 | verdict and new configuration are those of `WriterSpec.Name`. It keeps `Valid()`; from a valid writer, a failing call changes nothing |
| Writer.JsonWriter.CloseAll | src/json_writer.cpp:24-40 | the loop's verdict and final configuration are those of `WriterSpec.CloseAll`. It keeps `Valid()`; from a valid writer, a failing call changes nothing |
| Writer.JsonWriter.Finish | src/json_writer.cpp:18-22 | with the auto-close bit set it behaves as close_all(0); without it, nothing changes. It keeps `Valid()`; from a valid writer, a failing call changes nothing |
| Streaming.Shift | include/json_writer.hpp:99-135 | each `operator<<` operand is forwarded to exactly one writer method, whose verdict and new configuration it has |
| Streaming.ShiftValue | include/json_writer.hpp:99-113 | each SIMPLE_JSON_VALUE overload has the effect of the matching value() overload |
| Streaming.RunOne | include/json_writer.hpp:99-135 | a chain of one insertion is that one call |
| Streaming.RunAppend | include/json_writer.hpp:99-135 | chains compose: `a` then `b` runs `a`, then `b` from where `a` left off, unless `a` threw |
| Streaming.RunThen | include/json_writer.hpp:99-135 | once a prefix of a chain is accepted, the rest continues from the prefix's configuration |
| Streaming.ApplyPreserves | include/json_writer.hpp:99-135 | every operand keeps the invariant, and in a valid configuration a refused operand changes nothing |
| Streaming.ApplyAccepts | include/json_writer.hpp:99-135 | scalars and begins are accepted exactly where a value is expected; end_array exactly inside an array; end_object and names exactly inside an object; scalars keep level() |
| Streaming.RunPreserves | include/json_writer.hpp:99-135 | every chain, accepted or not, leaves a valid configuration |
| Streaming.RunLevel | include/json_writer.hpp:99-135 | after an accepted chain, level() has grown by the number of begins and dropped by the number of ends |
| Documents.WriteDocument | src/json_writer.cpp:68-203 | wherever a value is expected, the calls of any JSON document are all accepted; they append the separator followed by the document's compact serialization, leave the stack as it was and end in the post-value state |
| Documents.WriteScalar | src/json_writer.cpp:99-151 | the same holds for a scalar document, which is a single value call |
| Documents.WriteArray | src/json_writer.cpp:152-170 | the same holds for an array: `[`, the elements separated by `,`, and `]` |
| Documents.WriteObject | src/json_writer.cpp:171-203 | the same holds for an object: `{`, the members separated by `,`, and `}` |
| Documents.WriteElems | src/json_writer.cpp:68-87 | inside an array, a sequence of elements is accepted and appends the elements separated by `,`, with a leading `,` when an element already precedes |
| Documents.WriteMembers | src/json_writer.cpp:190-203 | inside an object, a sequence of name/value members is accepted and appends the members separated by `,`, with a leading `,` when a member already precedes |
| Documents.WriteMember | src/json_writer.cpp:190-203 | one member appends `"key":value` and leaves the object non-empty |
| Documents.WriteWholeDocument | src/json_writer.cpp:41-44 | a fresh writer accepts every document's calls, ends Finished at level 0 holding exactly the serialization, and then passes assert_finished |
| Scenarios.SingleValues | test/unit_writer.cpp:5-45 | with reset() between them, the values 1, true, false, null and "hello" are written as `1`, `true`, `false`, `null` and `"hello"`, each at level 0 |
| Scenarios.JoinedText | test/unit_writer.cpp:60-61 | a C string of plain words separated by newlines and a tab is written with `\n` and `\t` escapes |
| Scenarios.StringEscaping | test/unit_writer.cpp:55-62 | `hello\nit\nis\tme` comes out as `"hello\nit\nis\tme"` with the escapes spelled out |
| Scenarios.ArraysGeneral | test/unit_writer.cpp:64-80 | the array test writes exactly `[-1,"hello","",null,false]`, with level 1 inside and 0 after |
| Scenarios.EmptyContainers | test/unit_writer.cpp:82-101 | begin then end writes `[]` or `{}`; level() is 0 after `]`, 1 inside the object and 0 after `}` |
| Scenarios.ObjectsGeneral | test/unit_writer.cpp:103-120 | the object test writes exactly `{"a":"hello","b":1000,"c":null,"d":true}` |
| Scenarios.NameInArray | src/json_writer.cpp:190-199 | a name directly inside an array is refused and writes nothing |
| Scenarios.NameAfterName | src/json_writer.cpp:190-199 | a name directly after a name is refused; the stream holds exactly `{"a":` |
| Scenarios.CloseAllAtTopLevel | src/json_writer.cpp:24-44 | after one top-level value, a second value is refused, close_all() succeeds with nothing to close and assert_finished passes; on a fresh writer close_all() succeeds too, while assert_finished fails |

## Left out

- Floating-point rendering: value(double) and value(float) format with 16 and 8 significant digits, which is iostream behaviour. The rendered text is a parameter of `ValueFloating`, and only the state change and the placement of that text are modelled.
- Scenarios.SingleValues: the 3.1415 double case and its read-back through the stream are left out, because they depend on that floating-point formatting.
- Scenarios.SingleValues: the unit test empties its stream before each value. The model keeps one stream, so the texts accumulate and the postcondition states their concatenation.
- `std::ostream` is an append-only `out: string`. Stream flags, flushing and stream errors are not modelled.
- `JsonWriterStateError` and its message texts become a `false` verdict or a `Thrown` outcome. A single failure kind is kept.
- The global manipulator objects and the reference-holding `Name` struct are C++ object and lifetime syntax. The operands are plain `Item` values.
- F_STRICT and F_VERIFY_ON_EXIT are never consulted by any method. Only their bits and predicates are modelled.
- The header declares `switch_state_value(bool is_atomic)`, but the implementation defines and calls it without a parameter. The model follows the implementation.
- The destructor reads `auto_close`, which is not declared anywhere. `Finish` models it with `is_auto_close()`.
- Writer.JsonWriter.Finish: an exception that leaves a C++ destructor terminates the program. The model returns the verdict instead.
- The stream's integer formatting is modelled as plain decimal digits with a leading `-`. C++ `long` is taken as 64 bits and `int` as 32 bits. `flags` is a 32-bit word.
- `w << 'c'`: the header has no `char` overload of `operator<<`, so C++ picks it by integer promotion (`value(int)`). `Streaming.Item` therefore has no char operand. `value(char)` itself is `Writer.JsonWriter.ValueChar`.
- `value(const char*)` reads up to the first NUL. Its argument is modelled as the characters up to and including that NUL, and the requirement that a NUL exists is the C requirement of a terminated string.
- JsonEscape.Unescape: it does not decode UTF-16 surrogate pairs written as two `\u` escapes. The writer never produces them.
- close_all with nothing open succeeds even when the document is not Finished, because the loop at src/json_writer.cpp:26 never runs. Only assert_finished reports the unfinished document. See `Scenarios.CloseAllAtTopLevel` and `WriterSpec.CloseAllSpec`.
- Backslash is not escaped by put_char, and neither are control characters other than NUL, CR, LF and TAB. This is kept as written. The consequences are stated as lemmas (`BackslashBreaksLiteral`, `BackslashChangesValue`, `RawControlRejected`). The round trip is proved only for strings without those characters (`QuotedRoundTrip`).
- src/sample.cpp, a demo program with an iterator-pair `operator<<`, is not part of this model.
- C++ `char` and `std::string` hold bytes, while the model uses Dafny characters. Nothing is lost: put_char rewrites only five ASCII characters and passes every other one through unchanged.
- The default arguments of `close_all(size_t to_level = 0)` and `JsonWriter(os, int flags_ = 0)` are explicit parameters in the model.
