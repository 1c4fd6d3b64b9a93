/**
  Rewriting Python literals as JSON text (`normalize_quotes_to_json`): quotes, escapes and the three named
  constants. The rewriter is proved to preserve the value that was printed, and the exact condition under which
  its output on a streamed prefix is a prefix of its final output is given.
*/
module QuoteNormalizer {
  import opened Wrappers
  import opened JsonText

  /** `in_single_quoted` and `in_double_quoted`, which are never both set. */
  datatype Mode = Bare | Single | Double

  predicate IsWordChar(c: char) {
    'a' <= c <= 'z' || 'A' <= c <= 'Z' || '0' <= c <= '9' || c == '_'
  }

  /** Length of the run of word characters that `s` starts with. */
  function WordRun(s: string): (n: nat)
    ensures n <= |s|
    ensures forall i :: 0 <= i < n ==> IsWordChar(s[i])
    ensures n < |s| ==> !IsWordChar(s[n])
  {
    if s != "" && IsWordChar(s[0]) then 1 + WordRun(s[1..]) else 0
  }

  /** The JSON text for a token that is a named Python constant or a streamed prefix of one. */
  function Literal(token: string): (r: Option<string>)
    ensures r.Some? ==> |r.value| == |token|
  {
    if token <= "True" then Some("true"[..|token|])
    else if token <= "False" then Some("false"[..|token|])
    else if token <= "None" then Some("null"[..|token|])
    else None
  }

  predicate StartsConstant(c: char) {
    c == 'T' || c == 'F' || c == 'N'
  }

  function Toggle(mode: Mode, c: char): Mode {
    match mode
    case Bare => if c == '"' then Double else if c == '\'' then Single else Bare
    case Single => if c == '\'' then Bare else Single
    case Double => if c == '"' then Bare else Double
  }

  /** What one character that is neither an escape nor part of a named constant is rewritten to. */
  function Rewrite(mode: Mode, c: char): string {
    if c == '"' && mode == Single then "\\\""
    else if c == '\'' && mode != Double then "\""
    else [c]
  }

  /** What the two characters of an escape inside a quoted string are rewritten to. */
  function RewritePair(mode: Mode, c: char): string {
    if mode == Single && c == '\'' then "'" else ['\\', c]
  }

  /** The rewriting of `s` when it follows a word character or not, and starts in `mode`. */
  function Normalize(s: string, afterWord: bool, mode: Mode): string
    decreases |s|
  {
    if s == "" then ""
    else if s[0] == '\\' && |s| > 1 && mode != Bare then
      RewritePair(mode, s[1]) + Normalize(s[2..], IsWordChar(s[1]), mode)
    else if mode == Bare && StartsConstant(s[0]) && !afterWord && Literal(s[..WordRun(s)]).Some? then
      Literal(s[..WordRun(s)]).value + Normalize(s[WordRun(s)..], true, Bare)
    else
      Rewrite(mode, s[0]) + Normalize(s[1..], IsWordChar(s[0]), Toggle(mode, s[0]))
  }

  /** The whole rewriter. */
  function ToJson(s: string): string {
    Normalize(s, false, Bare)
  }

  /** The inner loop that measures a token. */
  method ScanWord(input: string, i: nat) returns (n: nat)
    requires i <= |input|
    ensures n == WordRun(input[i..])
  {
    n := 0;
    while i + n < |input| && IsWordChar(input[i + n])
      invariant i + n <= |input|
      invariant n + WordRun(input[i + n..]) == WordRun(input[i..])
    {
      assert input[i + n..][1..] == input[i + n + 1..];
      n := n + 1;
    }
  }

  /** What the loop still has to produce when it stands at index `i`. */
  ghost function Rest(input: string, i: nat, mode: Mode): string
    requires i <= |input|
  {
    Normalize(input[i..], i > 0 && IsWordChar(input[i - 1]), mode)
  }

  lemma RestAtEnd(input: string, mode: Mode)
    ensures Rest(input, |input|, mode) == ""
  {
  }

  lemma RestOfPair(input: string, i: nat, mode: Mode, done: string)
    requires i + 1 < |input| && input[i] == '\\' && mode != Bare
    ensures done + Rest(input, i, mode) == done + RewritePair(mode, input[i + 1]) + Rest(input, i + 2, mode)
  {
    assert input[i..][1] == input[i + 1] && input[i..][2..] == input[i + 2..];
  }

  lemma RestOfConstant(input: string, i: nat, n: nat, done: string)
    requires i < |input| && n == WordRun(input[i..]) && StartsConstant(input[i])
    requires i == 0 || !IsWordChar(input[i - 1])
    requires Literal(input[i..i + n]).Some?
    ensures n > 0
    ensures done + Rest(input, i, Bare) == done + Literal(input[i..i + n]).value + Rest(input, i + n, Bare)
  {
    assert input[i..][..n] == input[i..i + n] && input[i..][n..] == input[i + n..];
    assert IsWordChar(input[i..][n - 1]);
  }

  lemma RestOfChar(input: string, i: nat, mode: Mode, done: string)
    requires i < |input|
    requires input[i] == '\\' && i + 1 < |input| ==> mode == Bare
    requires mode == Bare && StartsConstant(input[i]) && (i == 0 || !IsWordChar(input[i - 1]))
             ==> Literal(input[i..i + WordRun(input[i..])]).None?
    ensures done + Rest(input, i, mode)
            == done + Rewrite(mode, input[i]) + Rest(input, i + 1, Toggle(mode, input[i]))
  {
    assert input[i..][1..] == input[i + 1..];
    assert input[i..][..WordRun(input[i..])] == input[i..i + WordRun(input[i..])];
  }

  /** The branches for quotes and ordinary characters: the text appended, and the two flags afterwards. */
  method RewriteOne(c: char, inSingle: bool, inDouble: bool) returns (text: string, inSingle': bool, inDouble': bool)
    requires !(inSingle && inDouble)
    ensures text == Rewrite(ModeOf(inSingle, inDouble), c)
    ensures !(inSingle' && inDouble') && ModeOf(inSingle', inDouble') == Toggle(ModeOf(inSingle, inDouble), c)
  {
    inSingle', inDouble' := inSingle, inDouble;
    if c == '"' {
      if inSingle {
        text := "\\\"";
      } else {
        inDouble' := !inDouble;
        text := [c];
      }
    } else if c == '\'' {
      if inDouble {
        text := [c];
      } else if inSingle {
        inSingle' := false;
        text := "\"";
      } else {
        inSingle' := true;
        text := "\"";
      }
    } else {
      text := [c];
    }
  }

  function ModeOf(inSingle: bool, inDouble: bool): Mode {
    if inSingle then Single else if inDouble then Double else Bare
  }

  method NormalizeQuotesToJson(input: string) returns (result: string)
    ensures result == ToJson(input)
  {
    hide Normalize, WordRun, Literal;
    result := "";
    var inSingle, inDouble := false, false;
    var i := 0;
    while i < |input|
      invariant 0 <= i <= |input|
      invariant !(inSingle && inDouble)
      invariant result + Rest(input, i, ModeOf(inSingle, inDouble)) == ToJson(input)
    {
      var c := input[i];
      ghost var mode := ModeOf(inSingle, inDouble);
      if c == '\\' && i + 1 < |input| && (inSingle || inDouble) {
        var next := input[i + 1];
        RestOfPair(input, i, mode, result);
        if inSingle && next == '\'' {
          result := result + "'";
        } else {
          result := result + [c, next];
        }
        i := i + 2;
      } else {
        var n := 0;
        if !inSingle && !inDouble && (c == 'T' || c == 'F' || c == 'N') && (i == 0 || !IsWordChar(input[i - 1])) {
          n := ScanWord(input, i);
        }
        var js := Literal(input[i..i + n]);
        if n > 0 && js.Some? {
          RestOfConstant(input, i, n, result);
          result := result + js.value;
          i := i + n;
        } else {
          RestOfChar(input, i, mode, result);
          var text;
          text, inSingle, inDouble := RewriteOne(c, inSingle, inDouble);
          result := result + text;
          i := i + 1;
        }
      }
    }
    RestAtEnd(input, ModeOf(inSingle, inDouble));
  }

  // ----- Streaming: when is the output on a prefix a prefix of the output? -----

  /** The quoting mode at the end of `p`. */
  function ModeAfter(p: string, mode: Mode): Mode
    decreases |p|
  {
    if p == "" then mode
    else if p[0] == '\\' && |p| > 1 && mode != Bare then ModeAfter(p[2..], mode)
    else ModeAfter(p[1..], Toggle(mode, p[0]))
  }

  /** Does `p` end in a backslash that is not itself escaped, inside single quotes? */
  predicate EndsMidEscape(p: string, mode: Mode)
    decreases |p|
  {
    if p == "" then false
    else if p[0] == '\\' && mode != Bare then
      if |p| == 1 then mode == Single else EndsMidEscape(p[2..], mode)
    else EndsMidEscape(p[1..], Toggle(mode, p[0]))
  }

  /** The stream was cut between a backslash and the single quote it escapes. */
  predicate CutsEscapedQuote(p: string, q: string, mode: Mode) {
    q != "" && q[0] == '\'' && EndsMidEscape(p, mode)
  }

  predicate AllWordChars(s: string) {
    WordRun(s) == |s|
  }

  /** The word that `p` ends in. */
  function LastWord(p: string): (w: string)
    ensures |w| <= |p|
  {
    if AllWordChars(p) then p else LastWord(p[1..])
  }

  /** The stream was cut inside a bare word that so far looks like a Python constant but is not one. */
  predicate CutsFalseConstant(p: string, q: string, afterWord: bool, mode: Mode) {
    var w := LastWord(p);
    && w != "" && StartsConstant(w[0]) && ModeAfter(p, mode) == Bare
    && (|w| < |p| || !afterWord)
    && Literal(w).Some? && Literal(w + q[..WordRun(q)]).None?
  }

  lemma {:induction false} WordRunConcat(p: string, q: string)
    ensures WordRun(p + q) == if AllWordChars(p) then |p| + WordRun(q) else WordRun(p)
  {
    if p == "" {
      assert p + q == q;
    } else {
      assert (p + q)[1..] == p[1..] + q;
      WordRunConcat(p[1..], q);
    }
  }

  lemma {:induction false} LastWordSkipsRun(p: string, n: nat)
    requires n <= WordRun(p) < |p|
    ensures LastWord(p) == LastWord(p[n..]) && |LastWord(p)| < |p| - n
    ensures ModeAfter(p, Bare) == ModeAfter(p[n..], Bare)
  {
    if n > 0 {
      assert p[1..][n - 1..] == p[n..];
      LastWordSkipsRun(p[1..], n - 1);
    } else {
      assert p[n..] == p;
    }
  }

  lemma {:induction false} WordsKeepMode(p: string, mode: Mode)
    requires AllWordChars(p)
    ensures ModeAfter(p, mode) == mode && !EndsMidEscape(p, mode)
  {
    if p != "" {
      WordsKeepMode(p[1..], mode);
    }
  }

  lemma {:induction false} RunsEndOutsideEscapes(p: string, n: nat)
    requires n <= WordRun(p)
    ensures EndsMidEscape(p, Bare) == EndsMidEscape(p[n..], Bare)
  {
    if n > 0 {
      assert p[1..][n - 1..] == p[n..];
      RunsEndOutsideEscapes(p[1..], n - 1);
    } else {
      assert p[n..] == p;
    }
  }

  lemma PrefixUnderSame(x: string, a: string, b: string)
    ensures x + a <= x + b <==> a <= b
  {
    if x + a <= x + b {
      assert a == (x + a)[|x|..] && b == (x + b)[|x|..];
      assert (x + b)[..|x + a|][|x|..] == b[..|a|];
    }
    if a <= b {
      assert x + b == (x + a) + b[|a|..];
    }
  }

  /**
    The rewriting of a stream's prefix is a prefix of the rewriting of the whole, except exactly when the cut
    falls between a backslash and the single quote it escapes, or inside a bare word such as `Trash` that so far
    reads as the beginning of `True`, `False` or `None`.
  */
  lemma {:induction false} PrefixRewritesToPrefix(p: string, q: string, afterWord: bool, mode: Mode)
    ensures Normalize(p, afterWord, mode) <= Normalize(p + q, afterWord, mode)
            <==> !CutsEscapedQuote(p, q, mode) && !CutsFalseConstant(p, q, afterWord, mode)
    decreases |p|, 2
  {
    if p == "" {
    } else if p[0] == '\\' && mode != Bare {
      PrefixAtEscape(p, q, afterWord, mode);
    } else if mode == Bare && StartsConstant(p[0]) && !afterWord {
      PrefixAtWord(p, q);
    } else {
      PrefixAtChar(p, q, afterWord, mode);
    }
  }

  lemma {:induction false} PrefixAtEscape(p: string, q: string, afterWord: bool, mode: Mode)
    requires p != "" && p[0] == '\\' && mode != Bare
    ensures Normalize(p, afterWord, mode) <= Normalize(p + q, afterWord, mode)
            <==> !CutsEscapedQuote(p, q, mode) && !CutsFalseConstant(p, q, afterWord, mode)
    decreases |p|, 1
  {
    if |p| == 1 {
      assert p == "\\" && (p + q)[1..] == q;
      assert Normalize(p, afterWord, mode) == "\\";
      if q != "" {
        assert (p + q)[1] == q[0];
      }
    } else {
      var p' := p[2..];
      assert (p + q)[2..] == p' + q && (p + q)[1] == p[1];
      PrefixRewritesToPrefix(p', q, IsWordChar(p[1]), mode);
      PrefixUnderSame(RewritePair(mode, p[1]), Normalize(p', IsWordChar(p[1]), mode),
                      Normalize(p' + q, IsWordChar(p[1]), mode));
      CutsAfterPair(p, q, afterWord, mode);
    }
  }

  lemma {:induction false} CutsAfterPair(p: string, q: string, afterWord: bool, mode: Mode)
    requires |p| > 1 && p[0] == '\\' && mode != Bare
    ensures CutsEscapedQuote(p, q, mode) == CutsEscapedQuote(p[2..], q, mode)
    ensures CutsFalseConstant(p, q, afterWord, mode) == CutsFalseConstant(p[2..], q, IsWordChar(p[1]), mode)
  {
    assert p[1..][1..] == p[2..];
    assert LastWord(p) == LastWord(p[1..]);
    if AllWordChars(p[2..]) {
      WordsKeepMode(p[2..], mode);
    }
  }

  lemma {:induction false} PrefixAtWord(p: string, q: string)
    requires p != "" && StartsConstant(p[0])
    ensures Normalize(p, false, Bare) <= Normalize(p + q, false, Bare)
            <==> !CutsEscapedQuote(p, q, Bare) && !CutsFalseConstant(p, q, false, Bare)
    decreases |p|, 1
  {
    var n := WordRun(p);
    if Literal(p[..n]).None? {
      PrefixAtPlainChar(p, q, false, Bare);
    } else if n == |p| {
      assert p[..n] == p;
      PrefixAtLastConstant(p, q);
    } else {
      var js := Literal(p[..n]).value;
      assert Normalize(p + q, false, Bare) == js + Normalize(p[n..] + q, true, Bare) by {
        WordRunConcat(p, q);
        assert (p + q)[..n] == p[..n] && (p + q)[n..] == p[n..] + q;
      }
      assert Normalize(p, false, Bare) == js + Normalize(p[n..], true, Bare);
      LastWordSkipsRun(p, n);
      RunsEndOutsideEscapes(p, n);
      PrefixRewritesToPrefix(p[n..], q, true, Bare);
      hide Normalize, Literal, WordRun, LastWord, ModeAfter, EndsMidEscape;
      PrefixUnderSame(js, Normalize(p[n..], true, Bare), Normalize(p[n..] + q, true, Bare));
    }
  }

  /** The prefix ends in a word that may still grow. */
  lemma {:induction false} PrefixAtLastConstant(p: string, q: string)
    requires p != "" && StartsConstant(p[0]) && AllWordChars(p) && Literal(p).Some?
    ensures Normalize(p, false, Bare) <= Normalize(p + q, false, Bare)
            <==> !CutsEscapedQuote(p, q, Bare) && !CutsFalseConstant(p, q, false, Bare)
  {
    var m := WordRun(p + q);
    var w := p + q[..WordRun(q)];
    WordsKeepMode(p, Bare);
    assert (p + q)[..m] == w by { WordRunConcat(p, q); }
    assert Normalize(p, false, Bare) == Literal(p).value by {
      assert p[..|p|] == p && p[|p|..] == "";
    }
    var whole := Normalize(p + q, false, Bare);
    assert (p + q)[0] == p[0];
    if Literal(w).None? {
      assert whole == Rewrite(Bare, p[0]) + Normalize((p + q)[1..], IsWordChar(p[0]), Toggle(Bare, p[0]));
      assert whole[0] == p[0] != Literal(p).value[0];
    } else {
      assert whole == Literal(w).value + Normalize((p + q)[m..], true, Bare);
      LiteralsGrow(p, w);
    }
  }

  lemma {:induction false} PrefixAtChar(p: string, q: string, afterWord: bool, mode: Mode)
    requires p != "" && (p[0] == '\\' ==> mode == Bare)
    requires !(mode == Bare && StartsConstant(p[0]) && !afterWord)
    ensures Normalize(p, afterWord, mode) <= Normalize(p + q, afterWord, mode)
            <==> !CutsEscapedQuote(p, q, mode) && !CutsFalseConstant(p, q, afterWord, mode)
    decreases |p|, 1
  {
    if AllWordChars(p) {
      WordsKeepMode(p, mode);
    }
    PrefixAtPlainChar(p, q, afterWord, mode);
  }

  /** One character rewritten on its own, on both sides. */
  lemma {:induction false} PrefixAtPlainChar(p: string, q: string, afterWord: bool, mode: Mode)
    requires p != "" && (p[0] == '\\' ==> mode == Bare)
    requires mode == Bare && StartsConstant(p[0]) && !afterWord ==> Literal(p[..WordRun(p)]).None?
    ensures Normalize(p, afterWord, mode) <= Normalize(p + q, afterWord, mode)
            <==> !CutsEscapedQuote(p, q, mode) && !CutsFalseConstant(p, q, afterWord, mode)
    decreases |p|, 0
  {
    var p' := p[1..];
    var aw, m := IsWordChar(p[0]), Toggle(mode, p[0]);
    CharUnfolds(p, q, afterWord, mode);
    CutsAfterChar(p, q, afterWord, mode);
    hide Normalize, Literal, WordRun, Rewrite, EndsMidEscape, ModeAfter, LastWord, CutsFalseConstant, CutsEscapedQuote;
    PrefixRewritesToPrefix(p', q, aw, m);
    PrefixUnderSame(Rewrite(mode, p[0]), Normalize(p', aw, m), Normalize(p' + q, aw, m));
  }

  lemma CharUnfolds(p: string, q: string, afterWord: bool, mode: Mode)
    requires p != "" && (p[0] == '\\' ==> mode == Bare)
    requires mode == Bare && StartsConstant(p[0]) && !afterWord
             ==> Literal(p[..WordRun(p)]).None?
    ensures var aw, m := IsWordChar(p[0]), Toggle(mode, p[0]);
            && Normalize(p, afterWord, mode) == Rewrite(mode, p[0]) + Normalize(p[1..], aw, m)
            && Normalize(p + q, afterWord, mode) == Rewrite(mode, p[0]) + Normalize(p[1..] + q, aw, m)
  {
    WordRunConcat(p, q);
    var n := WordRun(p + q);
    assert (p + q)[1..] == p[1..] + q;
    if AllWordChars(p) {
      assert p[..WordRun(p)] == p <= (p + q)[..n];
      if Literal((p + q)[..n]).Some? {
        LiteralsGrow(p, (p + q)[..n]);
      }
    } else {
      assert (p + q)[..n] == p[..n];
    }
  }

  /** A token with a JSON text so far had one at every earlier point of the stream. */
  lemma LiteralsGrow(p: string, w: string)
    requires p != "" && p <= w && Literal(w).Some?
    ensures Literal(p).Some? && Literal(p).value <= Literal(w).value
  {
    assert p[0] == w[0];
  }

  lemma {:induction false} CutsAfterChar(p: string, q: string, afterWord: bool, mode: Mode)
    requires p != "" && (p[0] == '\\' ==> mode == Bare)
    requires mode == Bare && StartsConstant(p[0]) && !afterWord ==> Literal(p[..WordRun(p)]).None?
    ensures CutsEscapedQuote(p, q, mode) == CutsEscapedQuote(p[1..], q, Toggle(mode, p[0]))
    ensures CutsFalseConstant(p, q, afterWord, mode)
            == CutsFalseConstant(p[1..], q, IsWordChar(p[0]), Toggle(mode, p[0]))
  {
    if AllWordChars(p) {
      WordsKeepMode(p, mode);
      assert p[..WordRun(p)] == p;
    }
  }

  // ----- The output never gets shorter -----

  lemma {:induction false} WordCharsAreCopied(p: string, q: string)
    requires AllWordChars(p)
    ensures |Normalize(p + q, true, Bare)| >= |p|
    decreases |p|
  {
    if p != "" {
      assert (p + q)[1..] == p[1..] + q;
      WordCharsAreCopied(p[1..], q);
    }
  }

  /** However the cut falls, the rewriting of the whole is no shorter than that of the prefix. */
  lemma {:induction false} LengthIsMonotone(p: string, q: string, afterWord: bool, mode: Mode)
    ensures |Normalize(p, afterWord, mode)| <= |Normalize(p + q, afterWord, mode)|
    decreases |p|
  {
    hide WordRun, Literal, IsWordChar;
    if p == "" {
    } else if p[0] == '\\' && mode != Bare {
      assert (p + q)[1..] == p[1..] + q;
      if |p| > 1 {
        assert (p + q)[2..] == p[2..] + q && (p + q)[1] == p[1];
        LengthIsMonotone(p[2..], q, IsWordChar(p[1]), mode);
      } else {
        assert p[1..] == "" && Normalize(p, afterWord, mode) == "\\";
      }
    } else if mode == Bare && StartsConstant(p[0]) && !afterWord && Literal(p[..WordRun(p)]).Some? {
      LengthAtWord(p, q);
    } else {
      CharUnfolds(p, q, afterWord, mode);
      LengthIsMonotone(p[1..], q, IsWordChar(p[0]), Toggle(mode, p[0]));
    }
  }

  lemma {:induction false} LengthAtWord(p: string, q: string)
    requires p != "" && StartsConstant(p[0]) && Literal(p[..WordRun(p)]).Some?
    ensures |Normalize(p, false, Bare)| <= |Normalize(p + q, false, Bare)|
    decreases |p|, 0
  {
    var n := WordRun(p);
    if n == |p| {
      assert p[..n] == p;
      LengthAtLastWord(p, q);
    } else {
      WordRunConcat(p, q);
      assert (p + q)[..n] == p[..n] && (p + q)[n..] == p[n..] + q;
      LengthIsMonotone(p[n..], q, true, Bare);
    }
  }

  lemma {:induction false} LengthAtLastWord(p: string, q: string)
    requires p != "" && StartsConstant(p[0]) && AllWordChars(p) && Literal(p).Some?
    ensures |Normalize(p, false, Bare)| <= |Normalize(p + q, false, Bare)|
  {
    var m := WordRun(p + q);
    WordRunConcat(p, q);
    assert p[..|p|] == p && p[|p|..] == "";
    assert (p + q)[0] == p[0];
    if Literal((p + q)[..m]).None? {
      assert (p + q)[1..] == p[1..] + q;
      WordCharsAreCopied(p[1..], q);
    }
  }
}
