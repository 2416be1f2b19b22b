/** String escaping of the JSON writer (put_char / put_str), and, as an
    independent reference, a decoder for the string syntax of section 7 of
    RFC 8259 that shows which strings the writer's escaping reproduces. */
module JsonEscape {

  datatype Option<T> = None | Some(value: T)

  /** The five characters put_char rewrites. Backslash is not among them. */
  predicate IsSpecial(c: char) {
    c == '\0' || c == '\r' || c == '\n' || c == '\t' || c == '"'
  }

  /** put_char: the text written for one character of a string. */
  function Escape(c: char): (r: string)
    ensures 1 <= |r|
    ensures IsSpecial(c) <==> r != [c]
    ensures IsSpecial(c) ==> 2 <= |r| && r[0] == '\\'
  {
    match c
    case '\0' => "\\u0000"
    case '\r' => "\\r"
    case '\n' => "\\n"
    case '\t' => "\\t"
    case '"' => "\\\""
    case _ => [c]
  }

  /** The body put_str writes between the quotes: put_char over every character. */
  function EscapeString(s: string): string
  {
    if s == [] then [] else Escape(s[0]) + EscapeString(s[1..])
  }

  /** put_str: opening quote, escaped body, closing quote. */
  function Quoted(s: string): string
  {
    "\"" + EscapeString(s) + "\""
  }

  /** Writing the quote, the escaped characters and the closing quote one
      after another appends the quoted literal. */
  lemma QuotedAfter(o: string, s: string)
    ensures o + "\"" + EscapeString(s) + "\"" == o + Quoted(s)
  {
  }

  lemma EscapeTable()
    ensures Escape('\0') == "\\u0000" && Escape('\r') == "\\r" && Escape('\n') == "\\n"
    ensures Escape('\t') == "\\t" && Escape('"') == "\\\""
    ensures Escape('\\') == "\\"
  {
  }

  /** Escaping is done character by character, so it distributes over concatenation. */
  lemma {:induction false} EscapeStringConcat(a: string, b: string)
    ensures EscapeString(a + b) == EscapeString(a) + EscapeString(b)
  {
    if a == [] {
      assert a + b == b;
    } else {
      assert (a + b)[0] == a[0];
      assert (a + b)[1..] == a[1..] + b;
      EscapeStringConcat(a[1..], b);
    }
  }

  /** Escaping a string one more character at a time: what put_str's loop does. */
  lemma EscapePrefixStep(s: string, i: nat)
    requires i < |s|
    ensures EscapeString(s[..i + 1]) == EscapeString(s[..i]) + Escape(s[i])
  {
    assert s[..i + 1] == s[..i] + [s[i]];
    EscapeStringConcat(s[..i], [s[i]]);
    assert EscapeString([s[i]]) == Escape(s[i]) + EscapeString([]);
  }

  predicate NoSpecial(s: string) {
    forall i :: 0 <= i < |s| ==> !IsSpecial(s[i])
  }

  /** Escaping never shortens a string, and leaves it exactly as it was if and
      only if it holds none of the five special characters. */
  lemma {:induction false} EscapeStringLength(s: string)
    ensures |EscapeString(s)| >= |s|
    ensures EscapeString(s) == s <==> NoSpecial(s)
    ensures |EscapeString(s)| == |s| <==> NoSpecial(s)
  {
    if s != [] {
      EscapeStringLength(s[1..]);
      assert NoSpecial(s) <==> !IsSpecial(s[0]) && NoSpecial(s[1..]) by {
        if !IsSpecial(s[0]) && NoSpecial(s[1..]) {
          forall i | 0 <= i < |s| ensures !IsSpecial(s[i]) {
            if i > 0 { assert s[i] == s[1..][i - 1]; }
          }
        }
      }
      if EscapeString(s) == s {
        assert |Escape(s[0])| + |EscapeString(s[1..])| == |s|;
        assert Escape(s[0]) == EscapeString(s)[..|Escape(s[0])|];
        assert |Escape(s[0])| == 1;
        assert EscapeString(s[1..]) == s[1..] by {
          assert EscapeString(s)[1..] == EscapeString(s[1..]);
        }
      }
      if NoSpecial(s) {
        assert s == [s[0]] + s[1..];
      }
    }
  }

  /** The characters that survive escaping never include a raw NUL, CR, LF or TAB. */
  lemma {:induction false} EscapeStringNoRawControl(s: string)
    ensures forall i :: 0 <= i < |EscapeString(s)| ==>
      EscapeString(s)[i] !in {'\0', '\r', '\n', '\t'}
  {
    if s != [] {
      EscapeStringNoRawControl(s[1..]);
      var h, t := Escape(s[0]), EscapeString(s[1..]);
      assert EscapeString(s) == h + t;
      forall i | 0 <= i < |h + t| ensures (h + t)[i] !in {'\0', '\r', '\n', '\t'} {
        if i >= |h| { assert (h + t)[i] == t[i - |h|]; }
      }
    }
  }

  // ----- Reference: the string grammar of section 7 of RFC 8259 -----

  function HexDigit(c: char): (r: Option<nat>)
    ensures r.Some? ==> r.value < 16
  {
    if '0' <= c <= '9' then Some(c as nat - '0' as nat)
    else if 'a' <= c <= 'f' then Some(c as nat - 'a' as nat + 10)
    else if 'A' <= c <= 'F' then Some(c as nat - 'A' as nat + 10)
    else None
  }

  /** The value of four hexadecimal digits, as written after "\u". */
  function Hex4(h: string): (r: Option<nat>)
    requires |h| == 4
    ensures r.Some? ==> r.value < 0x10000
  {
    match (HexDigit(h[0]), HexDigit(h[1]), HexDigit(h[2]), HexDigit(h[3]))
    case (Some(a), Some(b), Some(c), Some(d)) =>
      var ab := a * 16 + b;
      assert ab < 256;
      var abc := ab * 16 + c;
      assert abc < 4096;
      Some(abc * 16 + d)
    case _ => None
  }

  /** The character a two-character escape "\x" stands for. */
  function ShortEscape(x: char): Option<char>
  {
    match x
    case '"' => Some('"')
    case '\\' => Some('\\')
    case '/' => Some('/')
    case 'b' => Some(8 as char)
    case 'f' => Some(12 as char)
    case 'n' => Some('\n')
    case 'r' => Some('\r')
    case 't' => Some('\t')
    case _ => None
  }

  function Prepend(c: char, rest: Option<string>): Option<string>
  {
    match rest
    case Some(r) => Some([c] + r)
    case None => None
  }

  /** Decodes the characters between the quotes of a JSON string. An unescaped
      quote or control character, or a malformed escape, fails. A "\u" escape
      naming a UTF-16 surrogate fails too (surrogate pairs are not decoded). */
  function Unescape(t: string): Option<string>
    decreases |t|
  {
    if t == [] then Some([])
    else if t[0] == '"' || t[0] < ' ' then None
    else if t[0] != '\\' then Prepend(t[0], Unescape(t[1..]))
    else if |t| < 2 then None
    else if ShortEscape(t[1]).Some? then Prepend(ShortEscape(t[1]).value, Unescape(t[2..]))
    else if t[1] != 'u' || |t| < 6 then None
    else match Hex4(t[2..6])
      case Some(v) =>
        if v < 0xD800 || 0xE000 <= v then Prepend(v as char, Unescape(t[6..])) else None
      case None => None
  }

  /** Decodes a complete JSON string literal, quotes included. */
  function DecodeQuoted(t: string): Option<string>
  {
    if |t| >= 2 && t[0] == '"' && t[|t| - 1] == '"' then Unescape(t[1..|t| - 1]) else None
  }

  /** Strings the writer's escaping reproduces exactly: no backslash, and no
      control character other than the four put_char escapes. */
  predicate Reproducible(s: string) {
    forall i :: 0 <= i < |s| ==>
      s[i] != '\\' && (s[i] < ' ' ==> s[i] == '\0' || s[i] == '\r' || s[i] == '\n' || s[i] == '\t')
  }

  lemma UnescapeEscape(c: char, rest: string)
    requires c != '\\'
    requires c < ' ' ==> c == '\0' || c == '\r' || c == '\n' || c == '\t'
    ensures Unescape(Escape(c) + rest) == Prepend(c, Unescape(rest))
  {
    var t := Escape(c) + rest;
    if c == '\0' {
      assert t[..6] == "\\u0000";
      assert t[2..6] == "0000";
      assert Hex4(t[2..6]) == Some(0);
      assert t[6..] == rest;
    } else if IsSpecial(c) {
      assert t[..2] == Escape(c);
      assert t[2..] == rest;
    } else {
      assert t[0] == c && t[1..] == rest;
    }
  }

  /** Decoding undoes escaping on every reproducible string. */
  lemma {:induction false} UnescapeEscapeString(s: string)
    requires Reproducible(s)
    ensures Unescape(EscapeString(s)) == Some(s)
  {
    if s != [] {
      assert Reproducible(s[1..]) by {
        forall i | 0 <= i < |s[1..]| ensures s[1..][i] == s[i + 1] { }
      }
      UnescapeEscapeString(s[1..]);
      UnescapeEscape(s[0], EscapeString(s[1..]));
      assert [s[0]] + s[1..] == s;
    }
  }

  /** put_str writes a valid JSON string literal that decodes back to its
      argument, for every reproducible argument. */
  lemma QuotedRoundTrip(s: string)
    requires Reproducible(s)
    ensures DecodeQuoted(Quoted(s)) == Some(s)
  {
    var q := Quoted(s);
    assert q[1..|q| - 1] == EscapeString(s);
    UnescapeEscapeString(s);
  }

  /** A lone backslash is written unescaped, and the literal it produces ("\")
      is not a complete JSON string. */
  lemma BackslashBreaksLiteral()
    ensures Quoted("\\") == "\"\\\""
    ensures DecodeQuoted(Quoted("\\")) == None
  {
    assert EscapeString("\\") == "\\";
    var q := Quoted("\\");
    assert q[1..|q| - 1] == "\\";
  }

  /** A backslash followed by 'n' is written as is and reads back as a newline. */
  lemma BackslashChangesValue()
    ensures DecodeQuoted(Quoted("\\n")) == Some("\n")
  {
    var b := "\\n";
    assert EscapeString(b) == b by {
      assert b[1..] == "n" && "n"[1..] == [];
      assert EscapeString("n") == "n";
    }
    var q := Quoted(b);
    assert q[1..|q| - 1] == b;
    assert b[0] == '\\' && b[1] == 'n' && b[2..] == [];
    assert Unescape([]) == Some([]);
    assert Unescape(b) == Prepend('\n', Unescape(b[2..]));
    assert Unescape(b[2..]) == Some([]);
    assert ['\n'] + [] == "\n";
    assert Unescape(b) == Some("\n");
    assert q[0] == '"' && q[|q| - 1] == '"';
    assert DecodeQuoted(q) == Unescape(b);
  }

  /** Any other control character is written raw, which JSON does not allow. */
  lemma RawControlRejected(c: char)
    requires c < ' ' && c != '\0' && c != '\r' && c != '\n' && c != '\t'
    ensures DecodeQuoted(Quoted([c])) == None
  {
    assert EscapeString([c]) == [c];
    var q := Quoted([c]);
    assert q[1..|q| - 1] == [c];
  }

  /** The shape of the escaping unit test "hello\nit\nis\tme": plain words
      separated by newlines and a tab come out with each separator written as
      its two-character escape and the words untouched. */
  lemma QuotedSample(w1: string, w2: string, w3: string, w4: string)
    requires NoSpecial(w1) && NoSpecial(w2) && NoSpecial(w3) && NoSpecial(w4)
    ensures Quoted(w1 + "\n" + w2 + "\n" + w3 + "\t" + w4)
         == "\"" + (w1 + "\\n" + w2 + "\\n" + w3 + "\\t" + w4) + "\""
  {
    PlainUnchanged(w1);
    PlainUnchanged(w2);
    PlainUnchanged(w3);
    PlainUnchanged(w4);
    EscapeNewlineTab();
    EscapeSeparated(w1, w2, w3, w4, "\n", "\t", "\\n", "\\t");
  }

  lemma EscapeNewlineTab()
    ensures EscapeString("\n") == "\\n" && EscapeString("\t") == "\\t"
  {
  }

  lemma EscapeSeparated(w1: string, w2: string, w3: string, w4: string,
                        nl: string, tab: string, enl: string, etab: string)
    requires EscapeString(w1) == w1 && EscapeString(w2) == w2
    requires EscapeString(w3) == w3 && EscapeString(w4) == w4
    requires EscapeString(nl) == enl && EscapeString(tab) == etab
    ensures EscapeString(w1 + nl + w2 + nl + w3 + tab + w4)
         == w1 + enl + w2 + enl + w3 + etab + w4
  {
    EscapeAppend(w1, nl, w1, enl);
    EscapeAppend(w1 + nl, w2, w1 + enl, w2);
    EscapeAppend(w1 + nl + w2, nl, w1 + enl + w2, enl);
    EscapeAppend(w1 + nl + w2 + nl, w3, w1 + enl + w2 + enl, w3);
    EscapeAppend(w1 + nl + w2 + nl + w3, tab, w1 + enl + w2 + enl + w3, etab);
    EscapeAppend(w1 + nl + w2 + nl + w3 + tab, w4, w1 + enl + w2 + enl + w3 + etab, w4);
  }

  /** A string without special characters is written as itself. */
  lemma PlainUnchanged(w: string)
    requires NoSpecial(w)
    ensures EscapeString(w) == w
  {
    EscapeStringLength(w);
  }

  /** EscapeStringConcat with the two results named: EscapeSeparated chains
      it over long concatenations, and naming the pieces keeps the solver
      from unfolding EscapeString on each concrete prefix. */
  lemma EscapeAppend(a: string, b: string, ea: string, eb: string)
    requires EscapeString(a) == ea && EscapeString(b) == eb
    ensures EscapeString(a + b) == ea + eb
  {
    EscapeStringConcat(a, b);
  }
}
