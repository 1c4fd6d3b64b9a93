/** The JSON text primitives the tool-call code relies on: string escaping and the brace counter. */
module JsonText {
  import opened Wrappers

  function HexDigit(n: nat): char
    requires n < 16
  {
    "0123456789abcdef"[n]
  }

  /** One character inside a JSON string literal, as the JSON library's `dump` writes it. */
  function EscapeChar(c: char): string {
    if c == '"' then "\\\""
    else if c == '\\' then "\\\\"
    else if c == '\n' then "\\n"
    else if c == '\r' then "\\r"
    else if c == '\t' then "\\t"
    else if c == 8 as char then "\\b"
    else if c == 12 as char then "\\f"
    else if c < 32 as char then "\\u00" + [HexDigit(c as int / 16), HexDigit(c as int % 16)]
    else [c]
  }

  /** The inner content of a JSON string literal (`escape_json_string_inner`). */
  function Escape(s: string): string {
    if s == "" then "" else EscapeChar(s[0]) + Escape(s[1..])
  }

  /** A whole JSON string literal (`ordered_json(s).dump()`). */
  function Quote(s: string): string {
    "\"" + Escape(s) + "\""
  }

  lemma {:induction false} EscapeConcat(a: string, b: string)
    ensures Escape(a + b) == Escape(a) + Escape(b)
  {
    if a == "" {
      assert a + b == b;
    } else {
      assert (a + b)[1..] == a[1..] + b;
      EscapeConcat(a[1..], b);
    }
  }

  /** Escaping a truncated string gives a truncation of the escaped string. */
  lemma EscapeIsMonotone(a: string, b: string)
    requires a <= b
    ensures Escape(a) <= Escape(b)
  {
    assert b == a + b[|a|..];
    EscapeConcat(a, b[|a|..]);
  }

  function UnhexDigit(c: char): (r: int)
    ensures -1 <= r < 16
  {
    if '0' <= c <= '9' then c as int - '0' as int
    else if 'a' <= c <= 'f' then c as int - 'a' as int + 10
    else -1
  }

  /** An independent reader: the content of a JSON string up to its closing quote, and what follows. */
  function ReadString(s: string): Option<(string, string)>
    decreases |s|
  {
    if s == "" || s[0] < 32 as char then None
    else if s[0] == '"' then Some(("", s[1..]))
    else if s[0] != '\\' then Prepend(s[0], ReadString(s[1..]))
    else if |s| < 2 then None
    else if s[1] == 'u' then
      if |s| >= 6 && s[2..4] == "00" && UnhexDigit(s[4]) >= 0 && UnhexDigit(s[5]) >= 0
      then Prepend((UnhexDigit(s[4]) * 16 + UnhexDigit(s[5])) as char, ReadString(s[6..]))
      else None
    else match Unescaped(s[1])
      case Some(c) => Prepend(c, ReadString(s[2..]))
      case None => None
  }

  function Unescaped(c: char): Option<char> {
    match c
    case '"' => Some('"')
    case '\\' => Some('\\')
    case 'n' => Some('\n')
    case 'r' => Some('\r')
    case 't' => Some('\t')
    case 'b' => Some(8 as char)
    case 'f' => Some(12 as char)
    case _ => None
  }

  function Prepend(c: char, r: Option<(string, string)>): Option<(string, string)> {
    match r
    case None => None
    case Some((s, rest)) => Some(([c] + s, rest))
  }

  lemma ReadEscapedChar(c: char, rest: string)
    ensures ReadString(EscapeChar(c) + rest) == Prepend(c, ReadString(rest))
  {
    var e := EscapeChar(c);
    var s := e + rest;
    assert s[|e|..] == rest;
    if |e| == 6 {
      assert s[2..4] == "00";
      var n := c as int;
      HexRoundTrip(n / 16);
      HexRoundTrip(n % 16);
      assert s[4] == HexDigit(n / 16) && s[5] == HexDigit(n % 16);
    } else if |e| == 1 {
      assert s[0] == c;
    }
  }

  lemma HexRoundTrip(n: nat)
    requires n < 16
    ensures UnhexDigit(HexDigit(n)) == n
  {
  }

  /** Nothing is lost in an escaped string: an independent reader recovers it and stops at its quote. */
  lemma {:induction false} ReadQuoted(s: string, rest: string)
    ensures ReadString(Escape(s) + "\"" + rest) == Some((s, rest))
  {
    if s == "" {
      assert Escape(s) + "\"" + rest == "\"" + rest;
    } else {
      assert Escape(s) + "\"" + rest == EscapeChar(s[0]) + (Escape(s[1..]) + "\"" + rest);
      ReadEscapedChar(s[0], Escape(s[1..]) + "\"" + rest);
      ReadQuoted(s[1..], rest);
      assert [s[0]] + s[1..] == s;
    }
  }

  /** No shorter text is read as a character than its escape, which is therefore the short form where there is one. */
  lemma EscapeIsShortest(c: char, e: string)
    requires ReadString(e + "\"") == Some(([c], ""))
    ensures |EscapeChar(c)| <= |e|
  {
    FirstRead(e + "\"", c);
    EscapeSizes(c);
    hide ReadString, EscapeChar, Unescaped;
    assert e != "" ==> (e + "\"")[0] == e[0];
  }

  /** What a text that is read as one character begins with. */
  lemma FirstRead(s: string, c: char)
    requires ReadString(s) == Some(([c], ""))
    ensures |s| > 1 && (s[0] != '\\' ==> c == s[0] && c >= 32 as char && c != '"')
    ensures s[0] == '\\' ==> |s| > 6 || (|s| > 2 && Unescaped(s[1]) == Some(c))
  {
    hide Unescaped;
    if s[0] == '\\' {
      if s[1] == 'u' {
        assert ReadString(s[6..]).Some?;
      } else {
        assert ReadString(s[2..]).Some?;
        assert [Unescaped(s[1]).value][0] == Unescaped(s[1]).value;
      }
    } else if s[0] != '"' {
      assert ReadString(s[1..]).Some?;
      assert [c][0] == s[0];
    }
  }

  lemma EscapeSizes(c: char)
    ensures |EscapeChar(c)| <= 6
    ensures c >= 32 as char && c != '"' && c != '\\' ==> |EscapeChar(c)| == 1
    ensures forall x :: Unescaped(x) == Some(c) ==> |EscapeChar(c)| == 2
  {
  }

  // ----- json_brace_depth -----

  /** The three loop variables of the brace counter. */
  datatype Scan = Scan(depth: int, inString: bool, escaped: bool)

  function Advance(st: Scan, c: char): Scan {
    if st.escaped then st.(escaped := false)
    else if c == '\\' && st.inString then st.(escaped := true)
    else if c == '"' then st.(inString := !st.inString)
    else if st.inString then st
    else if c == '{' then st.(depth := st.depth + 1)
    else if c == '}' then st.(depth := st.depth - 1)
    else st
  }

  function ScanAll(st: Scan, s: string): Scan
    decreases |s|
  {
    if s == "" then st else ScanAll(Advance(st, s[0]), s[1..])
  }

  function Outside(depth: int): Scan {
    Scan(depth, false, false)
  }

  function BraceDepth(s: string): int {
    ScanAll(Outside(0), s).depth
  }

  method JsonBraceDepth(s: string) returns (depth: int)
    ensures depth == BraceDepth(s)
  {
    depth := 0;
    var inString, escaped := false, false;
    var i := 0;
    while i < |s|
      invariant 0 <= i <= |s|
      invariant ScanAll(Scan(depth, inString, escaped), s[i..]) == ScanAll(Outside(0), s)
    {
      var c := s[i];
      assert s[i..][0] == c && s[i..][1..] == s[i + 1..];
      i := i + 1;
      if escaped {
        escaped := false;
        continue;
      }
      if c == '\\' && inString {
        escaped := true;
        continue;
      }
      if c == '"' {
        inString := !inString;
        continue;
      }
      if !inString {
        if c == '{' {
          depth := depth + 1;
        } else if c == '}' {
          depth := depth - 1;
        }
      }
    }
  }

  lemma {:induction false} ScanConcat(st: Scan, a: string, b: string)
    ensures ScanAll(st, a + b) == ScanAll(ScanAll(st, a), b)
    decreases |a|
  {
    if a == "" {
      assert a + b == b;
    } else {
      assert (a + b)[1..] == a[1..] + b;
      ScanConcat(Advance(st, a[0]), a[1..], b);
    }
  }

  /** A text that the counter leaves at the depth, and outside strings, where it found it. */
  ghost predicate Balanced(s: string) {
    forall d: int :: ScanAll(Outside(d), s) == Outside(d)
  }

  lemma ScanEscapedChar(c: char, d: int)
    ensures ScanAll(Scan(d, true, false), EscapeChar(c)) == Scan(d, true, false)
  {
    var e := EscapeChar(c);
    var st := Scan(d, true, false);
    if |e| == 1 {
      assert ScanAll(st, e) == ScanAll(Advance(st, e[0]), e[1..]);
    } else if |e| == 2 {
      ScanTwo(st, e);
    } else {
      var n := c as int;
      assert e == "\\u" + ("00" + [HexDigit(n / 16), HexDigit(n % 16)]);
      ScanConcat(st, "\\u", "00" + [HexDigit(n / 16), HexDigit(n % 16)]);
      ScanTwo(st, "\\u");
      ScanConcat(st, "00", [HexDigit(n / 16), HexDigit(n % 16)]);
      ScanTwo(st, "00");
      ScanTwo(st, [HexDigit(n / 16), HexDigit(n % 16)]);
    }
  }

  lemma ScanTwo(st: Scan, s: string)
    requires |s| == 2
    ensures ScanAll(st, s) == Advance(Advance(st, s[0]), s[1])
  {
    assert s[1..][0] == s[1] && s[1..][1..] == "";
    assert ScanAll(st, s) == ScanAll(Advance(st, s[0]), s[1..]);
  }

  lemma {:induction false} ScanEscaped(s: string, d: int)
    ensures ScanAll(Scan(d, true, false), Escape(s)) == Scan(d, true, false)
  {
    if s != "" {
      ScanConcat(Scan(d, true, false), EscapeChar(s[0]), Escape(s[1..]));
      ScanEscapedChar(s[0], d);
      ScanEscaped(s[1..], d);
    }
  }

  /** Braces inside a string literal never count, whatever the string holds. */
  lemma QuotedIsBalanced(s: string)
    ensures Balanced(Quote(s))
  {
    forall d: int
      ensures ScanAll(Outside(d), Quote(s)) == Outside(d)
    {
      var st := Outside(d);
      assert Quote(s) == "\"" + (Escape(s) + "\"");
      ScanConcat(st, "\"", Escape(s) + "\"");
      ScanConcat(Scan(d, true, false), Escape(s), "\"");
      ScanEscaped(s, d);
      ScanOne(st, '"');
      ScanOne(Scan(d, true, false), '"');
    }
  }

  lemma ScanOne(st: Scan, c: char)
    ensures ScanAll(st, [c]) == Advance(st, c)
  {
  }

  lemma BalancedConcat(a: string, b: string)
    requires Balanced(a) && Balanced(b)
    ensures Balanced(a + b)
  {
    forall d: int
      ensures ScanAll(Outside(d), a + b) == Outside(d)
    {
      ScanConcat(Outside(d), a, b);
    }
  }

  predicate Plain(c: char) {
    c != '"' && c != '{' && c != '}'
  }

  /** Text without quotes and braces is balanced. */
  lemma {:induction false} PlainIsBalanced(s: string)
    requires forall i :: 0 <= i < |s| ==> Plain(s[i])
    ensures Balanced(s)
  {
    forall d: int
      ensures ScanAll(Outside(d), s) == Outside(d)
    {
      PlainScan(s, d);
    }
  }

  lemma {:induction false} PlainScan(s: string, d: int)
    requires forall i :: 0 <= i < |s| ==> Plain(s[i])
    ensures ScanAll(Outside(d), s) == Outside(d)
  {
    if s != "" {
      PlainScan(s[1..], d);
    }
  }

  lemma BracedIsBalanced(s: string)
    requires Balanced(s)
    ensures Balanced("{" + s + "}")
  {
    forall d: int
      ensures ScanAll(Outside(d), "{" + s + "}") == Outside(d)
    {
      assert "{" + s + "}" == "{" + (s + "}");
      ScanConcat(Outside(d), "{", s + "}");
      ScanOne(Outside(d), '{');
      ScanConcat(Outside(d + 1), s, "}");
      ScanOne(Outside(d + 1), '}');
    }
  }
}
