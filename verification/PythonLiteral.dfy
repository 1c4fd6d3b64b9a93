/**
  Python value literals as models emit them in tool calls, and their JSON counterparts. The rewriter of
  `QuoteNormalizer` turns the one into the other, leaves JSON alone, and does so monotonically on a stream.
*/
module PythonLiteral {
  import opened Wrappers
  import opened Basics
  import opened JsonText
  import opened QuoteNormalizer

  /** A value; strings and keys remember which quotes Python used for them, and containers the white space in them. */
  datatype Value =
    | Null
    | Bool(b: bool)
    | Number(digits: string)
    | Text(s: string, singleQuoted: bool)
    | List(gap: string, items: seq<Item>)
    | Dict(gap: string, entries: seq<Entry>)

  /** A value with the white space around it. */
  datatype Item = Item(before: string, value: Value, after: string)

  /** A key with the white space around it, and its value. */
  datatype Entry = Entry(before: string, key: string, singleQuoted: bool, middle: string, item: Item)

  datatype Dialect = Python | Json

  predicate IsNumberText(s: string) {
    s != "" && forall i :: 0 <= i < |s| ==> IsNumberChar(s[i])
  }

  predicate IsNumberChar(c: char) {
    '0' <= c <= '9' || c == '+' || c == '-' || c == '.' || c == 'e' || c == 'E'
  }

  predicate IsGapChar(c: char) {
    c == ' ' || c == '\t' || c == '\n' || c == '\r'
  }

  predicate IsGap(s: string) {
    forall i :: 0 <= i < |s| ==> IsGapChar(s[i])
  }

  ghost predicate WellFormed(v: Value)
    decreases v, 0
  {
    match v
    case Number(digits) => IsNumberText(digits)
    case List(gap, items) => IsGap(gap) && forall x :: x in items ==> WellFormedItem(x)
    case Dict(gap, entries) => IsGap(gap) && forall e :: e in entries ==> WellFormedEntry(e)
    case _ => true
  }

  ghost predicate WellFormedItem(x: Item)
    decreases x, 0
  {
    IsGap(x.before) && IsGap(x.after) && WellFormed(x.value)
  }

  ghost predicate WellFormedEntry(e: Entry)
    decreases e, 0
  {
    IsGap(e.before) && IsGap(e.middle) && WellFormedItem(e.item)
  }

  /** A character inside single quotes: the quote is escaped, a double quote is not. */
  function PyEscapeChar(c: char): string {
    if c == '\'' then "\\'" else if c == '"' then "\"" else EscapeChar(c)
  }

  function PyEscape(s: string): string {
    if s == "" then "" else PyEscapeChar(s[0]) + PyEscape(s[1..])
  }

  function RenderText(s: string, single: bool, d: Dialect): string {
    if d == Python && single then "'" + PyEscape(s) + "'" else Quote(s)
  }

  function Render(v: Value, d: Dialect): string {
    match v
    case Null => if d == Python then "None" else "null"
    case Bool(b) => if d == Python then (if b then "True" else "False") else (if b then "true" else "false")
    case Number(digits) => digits
    case Text(s, single) => RenderText(s, single, d)
    case List(gap, items) => "[" + (gap + RenderItems(items, d))
    case Dict(gap, entries) => "{" + (gap + RenderEntries(entries, d))
  }

  function RenderItem(x: Item, d: Dialect): string {
    x.before + (Render(x.value, d) + x.after)
  }

  /** The elements of a list, separated by commas, and the closing bracket. */
  function RenderItems(items: seq<Item>, d: Dialect): string {
    if items == [] then "]"
    else RenderItem(items[0], d) + (if |items| > 1 then "," else "") + RenderItems(items[1..], d)
  }

  function RenderEntries(entries: seq<Entry>, d: Dialect): string {
    if entries == [] then "}"
    else RenderEntry(entries[0], d) + (if |entries| > 1 then "," else "") + RenderEntries(entries[1..], d)
  }

  function RenderEntry(e: Entry, d: Dialect): string {
    e.before + (RenderText(e.key, e.singleQuoted, d) + (e.middle + (":" + RenderItem(e.item, d))))
  }

  /** Every bare word of `s` that starts like a Python constant is one, or a prefix of one. */
  predicate CleanWords(s: string, afterWord: bool, mode: Mode)
    decreases |s|
  {
    if s == "" then true
    else if s[0] == '\\' && |s| > 1 && mode != Bare then CleanWords(s[2..], IsWordChar(s[1]), mode)
    else if mode == Bare && StartsConstant(s[0]) && !afterWord then
      Literal(s[..WordRun(s)]).Some? && CleanWords(s[WordRun(s)..], true, Bare)
    else CleanWords(s[1..], IsWordChar(s[0]), Toggle(mode, s[0]))
  }

  predicate AtBoundary(rest: string) {
    rest == "" || !IsWordChar(rest[0])
  }

  /** In front of `rest`, outside strings, the rewriter turns `s` into `t`. */
  predicate Rewrites(s: string, t: string, rest: string) {
    && Normalize(s + rest, false, Bare) == t + Normalize(rest, false, Bare)
    && CleanWords(s + rest, false, Bare) == CleanWords(rest, false, Bare)
  }

  lemma Chain(a: string, a': string, b: string, b': string, rest: string)
    requires Rewrites(a, a', b + rest) && Rewrites(b, b', rest)
    ensures Rewrites(a + b, a' + b', rest)
  {
    assert a + b + rest == a + (b + rest);
    assert a' + b' + Normalize(rest, false, Bare) == a' + (b' + Normalize(rest, false, Bare));
  }

  /** One character rewritten on its own. */
  lemma StepChar(c: char, tail: string, aw: bool, mode: Mode)
    requires (c == '\\' ==> mode == Bare) && !(mode == Bare && StartsConstant(c) && !aw)
    ensures Normalize([c] + tail, aw, mode) == Rewrite(mode, c) + Normalize(tail, IsWordChar(c), Toggle(mode, c))
    ensures CleanWords([c] + tail, aw, mode) == CleanWords(tail, IsWordChar(c), Toggle(mode, c))
  {
    assert ([c] + tail)[1..] == tail;
  }

  /** One escape inside a string. */
  lemma StepPair(c: char, tail: string, aw: bool, mode: Mode)
    requires mode != Bare
    ensures Normalize(['\\', c] + tail, aw, mode) == RewritePair(mode, c) + Normalize(tail, IsWordChar(c), mode)
    ensures CleanWords(['\\', c] + tail, aw, mode) == CleanWords(tail, IsWordChar(c), mode)
  {
    assert (['\\', c] + tail)[2..] == tail;
  }

  lemma PunctuationRewrites(c: char, rest: string)
    requires c == '[' || c == ']' || c == '{' || c == '}' || c == ',' || c == ':' || IsGapChar(c)
    ensures Rewrites([c], [c], rest)
  {
    assert ([c] + rest)[1..] == rest;
  }

  lemma NothingRewrites(rest: string)
    ensures Rewrites("", "", rest)
  {
    assert "" + rest == rest && "" + Normalize(rest, false, Bare) == Normalize(rest, false, Bare);
  }

  lemma {:induction false} GapRewrites(s: string, rest: string)
    requires IsGap(s)
    ensures Rewrites(s, s, rest)
  {
    hide Rewrites;
    if s == "" {
      NothingRewrites(rest);
    } else {
      PunctuationRewrites(s[0], s[1..] + rest);
      GapRewrites(s[1..], rest);
      Chain([s[0]], [s[0]], s[1..], s[1..], rest);
      assert s == [s[0]] + s[1..];
    }
  }

  /** A comma, if there is one. */
  lemma SeparatorRewrites(comma: string, rest: string)
    requires comma == "" || comma == ","
    ensures Rewrites(comma, comma, rest)
  {
    hide Rewrites;
    if comma == "" {
      NothingRewrites(rest);
    } else {
      PunctuationRewrites(',', rest);
    }
  }

  lemma ConstantRewrites(token: string, rest: string)
    requires token != "" && StartsConstant(token[0]) && AllWordChars(token) && Literal(token).Some?
    requires AtBoundary(rest)
    ensures Rewrites(token, Literal(token).value, rest)
  {
    WordRunConcat(token, rest);
    assert (token + rest)[..|token|] == token && (token + rest)[|token|..] == rest;
  }

  predicate PassesThrough(c: char) {
    c != '"' && c != '\'' && c != '\\' && !StartsConstant(c)
  }

  /** Text without quotes, backslashes and leading capitals passes through. */
  lemma {:induction false} PlainPasses(s: string, rest: string, aw: bool)
    requires forall i :: 0 <= i < |s| ==> PassesThrough(s[i])
    requires AtBoundary(rest)
    ensures Normalize(s + rest, aw, Bare) == s + Normalize(rest, false, Bare)
    ensures CleanWords(s + rest, aw, Bare) == CleanWords(rest, false, Bare)
  {
    if s == "" {
      assert s + rest == rest;
      BoundaryForgetsWord(rest, aw);
    } else {
      hide Normalize, CleanWords;
      assert s + rest == [s[0]] + (s[1..] + rest);
      StepChar(s[0], s[1..] + rest, aw, Bare);
      PlainPasses(s[1..], rest, IsWordChar(s[0]));
    }
  }

  lemma BoundaryForgetsWord(rest: string, aw: bool)
    requires AtBoundary(rest)
    ensures Normalize(rest, aw, Bare) == Normalize(rest, false, Bare)
    ensures CleanWords(rest, aw, Bare) == CleanWords(rest, false, Bare)
  {
  }

  lemma PlainRewrites(s: string, rest: string)
    requires forall i :: 0 <= i < |s| ==> PassesThrough(s[i])
    requires AtBoundary(rest)
    ensures Rewrites(s, s, rest)
  {
    PlainPasses(s, rest, false);
  }

  /** A string body as Python writes it in the given quotes. */
  function Body(s: string, mode: Mode): string {
    if mode == Single then PyEscape(s) + "'" else Escape(s) + "\""
  }

  /** The body of a string literal and its closing quote, read in either quoting mode. */
  lemma {:induction false} BodyPasses(s: string, mode: Mode, rest: string, aw: bool)
    requires mode != Bare
    ensures Normalize(Body(s, mode) + rest, aw, mode) == Escape(s) + "\"" + Normalize(rest, false, Bare)
    ensures CleanWords(Body(s, mode) + rest, aw, mode) == CleanWords(rest, false, Bare)
  {
    hide Normalize, CleanWords, PyEscapeChar, EscapeChar;
    if s == "" {
      assert Body(s, mode) + rest == [if mode == Single then '\'' else '"'] + rest;
      StepChar(if mode == Single then '\'' else '"', rest, aw, mode);
    } else {
      var e := if mode == Single then PyEscapeChar(s[0]) else EscapeChar(s[0]);
      var tail := Body(s[1..], mode) + rest;
      BodyUnfolds(s, mode, rest);
      hide Body;
      BodyPasses(s[1..], mode, rest, false);
      BodyPasses(s[1..], mode, rest, true);
      CharPasses(s[0], mode, tail, aw);
      Associate(EscapeChar(s[0]), Escape(s[1..]), "\"");
      Associate(EscapeChar(s[0]), Escape(s[1..]) + "\"", Normalize(rest, false, Bare));
    }
  }

  lemma BodyUnfolds(s: string, mode: Mode, rest: string)
    requires s != ""
    ensures Body(s, mode) + rest
            == (if mode == Single then PyEscapeChar(s[0]) else EscapeChar(s[0])) + (Body(s[1..], mode) + rest)
  {
    hide PyEscapeChar, EscapeChar;
    if mode == Single {
      Associate(PyEscapeChar(s[0]), PyEscape(s[1..]), "'");
    } else {
      Associate(EscapeChar(s[0]), Escape(s[1..]), "\"");
    }
  }

  lemma CharPasses(c: char, mode: Mode, tail: string, aw: bool)
    requires mode != Bare
    requires Normalize(tail, true, mode) == Normalize(tail, false, mode)
    requires CleanWords(tail, true, mode) == CleanWords(tail, false, mode)
    ensures var e := if mode == Single then PyEscapeChar(c) else EscapeChar(c);
            && Normalize(e + tail, aw, mode) == EscapeChar(c) + Normalize(tail, false, mode)
            && CleanWords(e + tail, aw, mode) == CleanWords(tail, false, mode)
  {
    hide Normalize, CleanWords;
    var e := if mode == Single then PyEscapeChar(c) else EscapeChar(c);
    if |e| == 1 {
      StepChar(e[0], tail, aw, mode);
    } else if |e| == 2 {
      assert e == ['\\', e[1]];
      StepPair(e[1], tail, aw, mode);
    } else {
      UnicodePasses(HexDigit(c as int / 16), HexDigit(c as int % 16), mode, tail, aw);
      assert e == "\\u00" + [HexDigit(c as int / 16), HexDigit(c as int % 16)];
    }
  }

  predicate IsHexDigit(c: char) {
    '0' <= c <= '9' || 'a' <= c <= 'f'
  }

  lemma UnicodePasses(h: char, l: char, mode: Mode, tail: string, aw: bool)
    requires mode != Bare && IsHexDigit(h) && IsHexDigit(l)
    requires Normalize(tail, true, mode) == Normalize(tail, false, mode)
    requires CleanWords(tail, true, mode) == CleanWords(tail, false, mode)
    ensures Normalize("\\u00" + [h, l] + tail, aw, mode) == "\\u00" + [h, l] + Normalize(tail, false, mode)
    ensures CleanWords("\\u00" + [h, l] + tail, aw, mode) == CleanWords(tail, false, mode)
  {
    hide Normalize, CleanWords;
    var t1 := [l] + tail;
    var t2 := [h] + t1;
    var t3 := ['0'] + t2;
    var t4 := ['0'] + t3;
    assert "\\u00" + [h, l] + tail == ['\\', 'u'] + t4;
    StepPair('u', t4, aw, mode);
    StepChar('0', t3, true, mode);
    StepChar('0', t2, true, mode);
    StepChar(h, t1, true, mode);
    StepChar(l, tail, IsWordChar(h), mode);
  }

  lemma TextRewrites(s: string, single: bool, d: Dialect, rest: string)
    ensures Rewrites(RenderText(s, single, d), RenderText(s, single, Json), rest)
  {
    hide Normalize, CleanWords, PyEscape, Escape;
    var mode := if d == Python && single then Single else Double;
    var quote := if mode == Single then '\'' else '"';
    BodyPasses(s, mode, rest, false);
    assert RenderText(s, single, d) == [quote] + Body(s, mode) by {
      Associate([quote], if mode == Single then PyEscape(s) else Escape(s), [quote]);
    }
    hide Body;
    Associate([quote], Body(s, mode), rest);
    StepChar(quote, Body(s, mode) + rest, false, Bare);
    Associate("\"", Escape(s), "\"");
    Associate("\"", Escape(s) + "\"", Normalize(rest, false, Bare));
  }

  /** Whichever dialect a value is written in, it is rewritten to its JSON text. */
  lemma {:induction false} ValueRewrites(v: Value, d: Dialect, rest: string)
    requires WellFormed(v) && AtBoundary(rest)
    ensures Rewrites(Render(v, d), Render(v, Json), rest)
    decreases v, 0
  {
    hide Rewrites;
    match v
    case List(gap, items) =>
      ItemsRewrite(items, d, rest);
      ContainerRewrites('[', gap, RenderItems(items, d), RenderItems(items, Json), rest);
    case Dict(gap, entries) =>
      EntriesRewrite(entries, d, rest);
      ContainerRewrites('{', gap, RenderEntries(entries, d), RenderEntries(entries, Json), rest);
    case _ => ScalarRewrites(v, d, rest);
  }

  lemma ContainerRewrites(c: char, gap: string, body: string, body': string, rest: string)
    requires (c == '[' || c == '{') && IsGap(gap) && Rewrites(body, body', rest)
    ensures Rewrites([c] + (gap + body), [c] + (gap + body'), rest)
  {
    hide Rewrites;
    GapRewrites(gap, body + rest);
    Chain(gap, gap, body, body', rest);
    PunctuationRewrites(c, (gap + body) + rest);
    Chain([c], [c], gap + body, gap + body', rest);
  }

  lemma GapKeepsBoundary(gap: string, rest: string)
    requires IsGap(gap) && AtBoundary(rest)
    ensures AtBoundary(gap + rest)
  {
  }

  lemma {:induction false} ItemRewrites(x: Item, d: Dialect, rest: string)
    requires WellFormedItem(x) && AtBoundary(rest)
    ensures Rewrites(RenderItem(x, d), RenderItem(x, Json), rest)
    decreases x, 0
  {
    hide Rewrites, Render, IsGap;
    var text, text' := Render(x.value, d), Render(x.value, Json);
    GapKeepsBoundary(x.after, rest);
    ValueRewrites(x.value, d, x.after + rest);
    GapRewrites(x.after, rest);
    Chain(text, text', x.after, x.after, rest);
    GapRewrites(x.before, (text + x.after) + rest);
    Chain(x.before, x.before, text + x.after, text' + x.after, rest);
  }

  lemma ScalarRewrites(v: Value, d: Dialect, rest: string)
    requires WellFormed(v) && !v.List? && !v.Dict? && AtBoundary(rest)
    ensures Rewrites(Render(v, d), Render(v, Json), rest)
  {
    hide Rewrites;
    match v
    case Text(s, single) => TextRewrites(s, single, d, rest);
    case Number(digits) => PlainRewrites(digits, rest);
    case Null => NamedConstantRewrites("None", "null", d, rest);
    case Bool(b) =>
      if b {
        NamedConstantRewrites("True", "true", d, rest);
      } else {
        NamedConstantRewrites("False", "false", d, rest);
      }
  }

  lemma NamedConstantRewrites(python: string, json: string, d: Dialect, rest: string)
    requires AtBoundary(rest)
    requires (python, json) in {("True", "true"), ("False", "false"), ("None", "null")}
    ensures Rewrites(if d == Python then python else json, json, rest)
  {
    hide Rewrites;
    if d == Json {
      PlainRewrites(json, rest);
    } else {
      assert |python| == |json| && StartsConstant(python[0]);
      assert Literal(python).Some? && Literal(python).value == json;
      ConstantRewrites(python, rest);
    }
  }

  lemma {:induction false} ItemsRewrite(items: seq<Item>, d: Dialect, rest: string)
    requires forall x :: x in items ==> WellFormedItem(x)
    ensures Rewrites(RenderItems(items, d), RenderItems(items, Json), rest)
    decreases items, 1
  {
    hide Rewrites, RenderItem, WellFormedItem;
    if items == [] {
      PunctuationRewrites(']', rest);
    } else {
      ItemsRewrite(items[1..], d, rest);
      ItemsStartAtBoundary(items, d, rest);
      ItemRewrites(items[0], d, (if |items| > 1 then "," else "") + (RenderItems(items[1..], d) + rest));
      ListRewrites(RenderItem(items[0], d), RenderItem(items[0], Json), if |items| > 1 then "," else "",
                   RenderItems(items[1..], d), RenderItems(items[1..], Json), rest);
    }
  }

  /** What follows an item of a list. */
  lemma ItemsStartAtBoundary(items: seq<Item>, d: Dialect, rest: string)
    requires items != []
    ensures AtBoundary((if |items| > 1 then "," else "") + (RenderItems(items[1..], d) + rest))
  {
    hide RenderItem;
  }

  lemma EntriesStartAtBoundary(entries: seq<Entry>, d: Dialect, rest: string)
    requires entries != []
    ensures AtBoundary((if |entries| > 1 then "," else "") + (RenderEntries(entries[1..], d) + rest))
  {
    hide RenderEntry;
  }

  lemma ListRewrites(first: string, first': string, comma: string, tail: string, tail': string, rest: string)
    requires (comma == "" || comma == ",") && Rewrites(tail, tail', rest)
    requires Rewrites(first, first', comma + (tail + rest))
    ensures Rewrites(first + comma + tail, first' + comma + tail', rest)
  {
    hide Rewrites;
    SeparatorRewrites(comma, tail + rest);
    Chain(first, first', comma, comma, tail + rest);
    Chain(first + comma, first' + comma, tail, tail', rest);
  }

  lemma {:induction false} EntriesRewrite(entries: seq<Entry>, d: Dialect, rest: string)
    requires forall e :: e in entries ==> WellFormedEntry(e)
    ensures Rewrites(RenderEntries(entries, d), RenderEntries(entries, Json), rest)
    decreases entries, 1
  {
    hide Rewrites, RenderEntry, WellFormedEntry;
    if entries == [] {
      PunctuationRewrites('}', rest);
    } else {
      EntriesRewrite(entries[1..], d, rest);
      EntriesStartAtBoundary(entries, d, rest);
      EntryRewrites(entries[0], d, (if |entries| > 1 then "," else "") + (RenderEntries(entries[1..], d) + rest));
      ListRewrites(RenderEntry(entries[0], d), RenderEntry(entries[0], Json), if |entries| > 1 then "," else "",
                   RenderEntries(entries[1..], d), RenderEntries(entries[1..], Json), rest);
    }
  }

  lemma {:induction false} EntryRewrites(e: Entry, d: Dialect, rest: string)
    requires WellFormedEntry(e) && AtBoundary(rest)
    ensures Rewrites(RenderEntry(e, d), RenderEntry(e, Json), rest)
    decreases e, 0
  {
    hide Rewrites, RenderText, RenderItem, WellFormedItem;
    var key, key' := RenderText(e.key, e.singleQuoted, d), RenderText(e.key, e.singleQuoted, Json);
    var value, value' := RenderItem(e.item, d), RenderItem(e.item, Json);
    ItemRewrites(e.item, d, rest);
    PunctuationRewrites(':', value + rest);
    Chain(":", ":", value, value', rest);
    GapRewrites(e.middle, (":" + value) + rest);
    Chain(e.middle, e.middle, ":" + value, ":" + value', rest);
    TextRewrites(e.key, e.singleQuoted, d, (e.middle + (":" + value)) + rest);
    Chain(key, key', e.middle + (":" + value), e.middle + (":" + value'), rest);
    GapRewrites(e.before, (key + (e.middle + (":" + value))) + rest);
    Chain(e.before, e.before, key + (e.middle + (":" + value)), key' + (e.middle + (":" + value')), rest);
  }

  /**
    The intent of the rewriter: Python values become JSON values, and JSON values are left alone, whatever the white
    space in them and around them.
  */
  lemma RewriterPreservesValues(x: Item)
    requires WellFormedItem(x)
    ensures ToJson(RenderItem(x, Python)) == RenderItem(x, Json)
    ensures ToJson(RenderItem(x, Json)) == RenderItem(x, Json)
  {
    forall d: Dialect
      ensures ToJson(RenderItem(x, d)) == RenderItem(x, Json)
    {
      ItemRewrites(x, d, "");
      assert RenderItem(x, d) + "" == RenderItem(x, d);
    }
  }

  lemma {:induction false} CleanTextHasNoFalseConstant(p: string, q: string, afterWord: bool, mode: Mode)
    requires CleanWords(p + q, afterWord, mode)
    ensures !CutsFalseConstant(p, q, afterWord, mode)
    decreases |p|
  {
    if p == "" {
    } else if p[0] == '\\' && mode != Bare {
      CleanAtEscape(p, q, afterWord, mode);
    } else if mode == Bare && StartsConstant(p[0]) && !afterWord {
      CleanAtWord(p, q);
    } else {
      CleanAtChar(p, q, afterWord, mode);
    }
  }

  lemma {:induction false} CleanAtEscape(p: string, q: string, afterWord: bool, mode: Mode)
    requires p != "" && p[0] == '\\' && mode != Bare && CleanWords(p + q, afterWord, mode)
    ensures !CutsFalseConstant(p, q, afterWord, mode)
    decreases |p|, 0
  {
    hide Literal;
    if |p| > 1 {
      assert (p + q)[2..] == p[2..] + q && (p + q)[1] == p[1];
      hide CutsFalseConstant, IsWordChar;
      CleanTextHasNoFalseConstant(p[2..], q, IsWordChar(p[1]), mode);
      CutsAfterPair(p, q, afterWord, mode);
    }
  }

  lemma {:induction false} CleanAtWord(p: string, q: string)
    requires p != "" && StartsConstant(p[0]) && CleanWords(p + q, false, Bare)
    ensures !CutsFalseConstant(p, q, false, Bare)
    decreases |p|, 0
  {
    hide Literal;
    var n := WordRun(p);
    WordRunConcat(p, q);
    assert (p + q)[0] == p[0];
    if n < |p| {
      assert (p + q)[n..] == p[n..] + q;
      CleanTextHasNoFalseConstant(p[n..], q, true, Bare);
      LastWordSkipsRun(p, n);
    } else {
      assert (p + q)[..WordRun(p + q)] == p + q[..WordRun(q)];
    }
  }

  lemma {:induction false} CleanAtChar(p: string, q: string, afterWord: bool, mode: Mode)
    requires p != "" && !(p[0] == '\\' && mode != Bare) && !(mode == Bare && StartsConstant(p[0]) && !afterWord)
    requires CleanWords(p + q, afterWord, mode)
    ensures !CutsFalseConstant(p, q, afterWord, mode)
    decreases |p|, 0
  {
    hide Literal, CutsFalseConstant, IsWordChar;
    assert (p + q)[1..] == p[1..] + q;
    CleanTextHasNoFalseConstant(p[1..], q, IsWordChar(p[0]), Toggle(mode, p[0]));
    CutsAfterChar(p, q, afterWord, mode);
  }

  /** Streaming a value: only a cut between a backslash and the single quote it escapes shows wrong text. */
  lemma StreamedValueIsMonotone(x: Item, d: Dialect, p: string, q: string)
    requires WellFormedItem(x) && RenderItem(x, d) == p + q
    ensures ToJson(p) <= RenderItem(x, Json) <==> !CutsEscapedQuote(p, q, Bare)
  {
    RewriterPreservesValues(x);
    ItemRewrites(x, d, "");
    assert RenderItem(x, d) + "" == RenderItem(x, d);
    CleanTextHasNoFalseConstant(p, q, false, Bare);
    PrefixRewritesToPrefix(p, q, false, Bare);
  }

  /** The brace counter is at its starting depth after the JSON text of any value. */
  lemma {:induction false} JsonIsBalanced(v: Value)
    requires WellFormed(v)
    ensures Balanced(Render(v, Json))
    decreases v, 0
  {
    hide Balanced;
    match v
    case List(gap, items) =>
      PlainIsBalanced("[" + gap);
      ItemsBalanced(items);
      BalancedConcat("[" + gap, RenderItems(items, Json));
      Associate("[", gap, RenderItems(items, Json));
    case Dict(gap, entries) =>
      var body := EntriesBalanced(entries);
      PlainIsBalanced(gap);
      BalancedConcat(gap, body);
      BracedIsBalanced(gap + body);
      Associate(gap, body, "}");
      Associate("{", gap + body, "}");
    case _ => ScalarIsBalanced(v);
  }

  lemma ScalarIsBalanced(v: Value)
    requires WellFormed(v) && !v.List? && !v.Dict?
    ensures Balanced(Render(v, Json))
  {
    hide Balanced;
    match v
    case Text(s, _) => QuotedIsBalanced(s);
    case Number(digits) => PlainIsBalanced(digits);
    case Null => PlainIsBalanced("null");
    case Bool(b) => if b { PlainIsBalanced("true"); } else { PlainIsBalanced("false"); }
  }

  lemma {:induction false} ItemIsBalanced(x: Item)
    requires WellFormedItem(x)
    ensures Balanced(RenderItem(x, Json))
    decreases x, 0
  {
    hide Balanced, Render;
    JsonIsBalanced(x.value);
    PlainIsBalanced(x.before);
    PlainIsBalanced(x.after);
    BalancedConcat(Render(x.value, Json), x.after);
    BalancedConcat(x.before, Render(x.value, Json) + x.after);
  }

  lemma {:induction false} ItemsBalanced(items: seq<Item>)
    requires forall x :: x in items ==> WellFormedItem(x)
    ensures Balanced(RenderItems(items, Json))
    decreases items, 1
  {
    hide Balanced, RenderItem, WellFormedItem;
    if items == [] {
      PlainIsBalanced("]");
    } else {
      var comma := if |items| > 1 then "," else "";
      ItemIsBalanced(items[0]);
      ItemsBalanced(items[1..]);
      PlainIsBalanced(comma);
      BalancedConcat(RenderItem(items[0], Json), comma);
      BalancedConcat(RenderItem(items[0], Json) + comma, RenderItems(items[1..], Json));
    }
  }

  lemma {:induction false} EntriesBalanced(entries: seq<Entry>) returns (body: string)
    requires forall e :: e in entries ==> WellFormedEntry(e)
    ensures Balanced(body) && RenderEntries(entries, Json) == body + "}"
    decreases entries, 1
  {
    hide Balanced, RenderEntry, WellFormedEntry;
    if entries == [] {
      body := "";
      PlainIsBalanced("");
    } else {
      var comma := if |entries| > 1 then "," else "";
      var tail := EntriesBalanced(entries[1..]);
      EntryBalanced(entries[0]);
      PlainIsBalanced(comma);
      BalancedConcat(RenderEntry(entries[0], Json), comma);
      BalancedConcat(RenderEntry(entries[0], Json) + comma, tail);
      body := RenderEntry(entries[0], Json) + comma + tail;
      Associate(RenderEntry(entries[0], Json) + comma, tail, "}");
    }
  }

  lemma {:induction false} EntryBalanced(e: Entry)
    requires WellFormedEntry(e)
    ensures Balanced(RenderEntry(e, Json))
    decreases e, 0
  {
    hide Balanced, RenderItem, WellFormedItem;
    var value := RenderItem(e.item, Json);
    ItemIsBalanced(e.item);
    QuotedIsBalanced(e.key);
    PlainIsBalanced(":");
    PlainIsBalanced(e.middle);
    PlainIsBalanced(e.before);
    BalancedConcat(":", value);
    BalancedConcat(e.middle, ":" + value);
    BalancedConcat(Quote(e.key), e.middle + (":" + value));
    BalancedConcat(e.before, Quote(e.key) + (e.middle + (":" + value)));
  }

  // ----- What the rewriter leaves alone -----

  /** Does the place `i` stand inside a JSON string, by the scan that counts braces? */
  predicate InString(s: string, i: nat)
    requires i <= |s|
  {
    ScanAll(Outside(0), s[..i]).inString
  }

  /** A single quote, or a bare word that reads as a beginning of True, False or None. */
  predicate IsForeign(s: string, i: nat, afterWord: bool)
    requires i < |s|
  {
    s[i] == '\'' || (!afterWord && StartsConstant(s[i]) && Literal(s[i..][..WordRun(s[i..])]).Some?)
  }

  predicate FollowsWord(s: string, i: nat)
    requires i <= |s|
  {
    i > 0 && IsWordChar(s[i - 1])
  }

  /** What is left of a text from a place where the scan is in state `st`. */
  predicate Untouched(s: string, i: nat, st: Scan)
    requires i <= |s|
    decreases |s| - i
  {
    i == |s|
    || ((st.inString || !IsForeign(s, i, FollowsWord(s, i))) && Untouched(s, i + 1, Advance(st, s[i])))
  }

  function ModeOfScan(st: Scan): Mode {
    if st.inString then Double else Bare
  }

  lemma {:induction false} UntouchedFrom(s: string, i: nat, st: Scan)
    requires i <= |s| && !st.escaped
    ensures Normalize(s[i..], FollowsWord(s, i), ModeOfScan(st)) == s[i..] <==> Untouched(s, i, st)
    decreases |s| - i
  {
    if i < |s| {
      var c, tail := s[i], s[i..][1..];
      assert s[i..] == [c] + tail && tail == s[i + 1..];
      if st.inString && c == '\\' {
        UntouchedAtEscape(s, i, st);
      } else if !st.inString && IsForeign(s, i, FollowsWord(s, i)) {
        ForeignIsTouched(s, i);
      } else {
        UntouchedAtChar(s, i, st);
      }
    }
  }

  lemma {:induction false} UntouchedAtChar(s: string, i: nat, st: Scan)
    requires i < |s| && !st.escaped && !(st.inString && s[i] == '\\')
    requires st.inString || !IsForeign(s, i, FollowsWord(s, i))
    ensures Normalize(s[i..], FollowsWord(s, i), ModeOfScan(st)) == s[i..] <==> Untouched(s, i, st)
    decreases |s| - i, 0
  {
    var c, tail := s[i], s[i..][1..];
    assert s[i..] == [c] + tail && tail == s[i + 1..];
    OneCopied(s[i..], FollowsWord(s, i), ModeOfScan(st));
    assert FollowsWord(s, i + 1) == IsWordChar(c);
    hide Normalize, IsForeign, WordRun, Literal;
    UntouchedFrom(s, i + 1, Advance(st, c));
    assert [c] + Normalize(tail, IsWordChar(c), Toggle(ModeOfScan(st), c)) == [c] + tail
        <==> Normalize(tail, IsWordChar(c), Toggle(ModeOfScan(st), c)) == tail by {
      PrefixUnderSame([c], Normalize(tail, IsWordChar(c), Toggle(ModeOfScan(st), c)), tail);
      PrefixUnderSame([c], tail, Normalize(tail, IsWordChar(c), Toggle(ModeOfScan(st), c)));
    }
  }

  /** A character that stays as it is. */
  lemma OneCopied(t: string, aw: bool, mode: Mode)
    requires t != "" && mode != Single && (mode == Double ==> t[0] != '\\')
    requires mode == Bare ==> t[0] != '\'' && !(!aw && StartsConstant(t[0]) && Literal(t[..WordRun(t)]).Some?)
    ensures Normalize(t, aw, mode) == [t[0]] + Normalize(t[1..], IsWordChar(t[0]), Toggle(mode, t[0]))
  {
    hide Literal, WordRun, IsWordChar;
  }

  lemma {:induction false} UntouchedAtEscape(s: string, i: nat, st: Scan)
    requires i < |s| && !st.escaped && st.inString && s[i] == '\\'
    ensures Normalize(s[i..], FollowsWord(s, i), Double) == s[i..] <==> Untouched(s, i, st)
    decreases |s| - i, 0
  {
    var st1 := Advance(st, s[i]);
    if i + 1 < |s| {
      var st2 := Advance(st1, s[i + 1]);
      UntouchedFrom(s, i + 2, st2);
      assert s[i..] == s[i..i + 2] + s[i + 2..] && s[i..][2..] == s[i + 2..];
      assert Untouched(s, i + 1, st1) == Untouched(s, i + 2, st2);
    } else {
      assert s[i..] == "\\" && s[i..][1..] == "";
    }
  }

  lemma ForeignIsTouched(s: string, i: nat)
    requires i < |s| && IsForeign(s, i, FollowsWord(s, i))
    ensures Normalize(s[i..], FollowsWord(s, i), Bare) != s[i..]
  {
    var t := s[i..];
    var r := Normalize(t, FollowsWord(s, i), Bare);
    assert t[0] == s[i];
    if s[i] == '\'' {
      assert r[0] == '"';
    } else {
      assert WordRun(t) > 0;
      assert r[0] == Literal(t[..WordRun(t)]).value[0] != t[0];
    }
  }

  lemma {:induction false} UntouchedEverywhere(s: string, i: nat, st: Scan)
    requires i <= |s| && st == ScanAll(Outside(0), s[..i])
    ensures Untouched(s, i, st) <==>
              forall k :: i <= k < |s| && !InString(s, k) ==> !IsForeign(s, k, FollowsWord(s, k))
    decreases |s| - i
  {
    hide IsForeign, FollowsWord;
    if i < |s| {
      ScanConcat(Outside(0), s[..i], [s[i]]);
      assert s[..i + 1] == s[..i] + [s[i]] && [s[i]][1..] == "";
      assert ScanAll(st, [s[i]]) == Advance(st, s[i]);
      UntouchedEverywhere(s, i + 1, Advance(st, s[i]));
    }
  }

  /**
    The rewriter leaves a text alone exactly when, outside JSON strings, it has no single quote and no bare word that
    reads as a beginning of True, False or None.
  */
  lemma LeftAloneExactly(s: string)
    ensures ToJson(s) == s <==>
              forall k :: 0 <= k < |s| && !InString(s, k) ==> !IsForeign(s, k, FollowsWord(s, k))
  {
    assert s[..0] == "" && s[0..] == s;
    UntouchedFrom(s, 0, Outside(0));
    UntouchedEverywhere(s, 0, Outside(0));
  }

  /** The characters that JSON has outside its strings (section 2 of RFC 8259), the quote included. */
  predicate IsJsonChar(c: char) {
    c == '[' || c == ']' || c == '{' || c == '}' || c == ',' || c == ':' || c == '"' || IsGapChar(c)
    || IsNumberChar(c) || 'a' <= c <= 'z'
  }

  /** So every JSON text is left alone, whatever its spacing and the escapes in its strings. */
  lemma JsonIsLeftAlone(s: string)
    requires forall k :: 0 <= k < |s| && !InString(s, k) ==> IsJsonChar(s[k])
    ensures ToJson(s) == s
  {
    LeftAloneExactly(s);
  }

  // ----- Strings in single quotes, however they are written -----

  /** An independent reader of Python: the content of a string in single quotes up to its end, and what follows. */
  function ReadSingleQuoted(s: string): Option<(string, string)>
    decreases |s|
  {
    if s == "" || s[0] < 32 as char then None
    else if s[0] == '\'' then Some(("", s[1..]))
    else if s[0] != '\\' then Prepend(s[0], ReadSingleQuoted(s[1..]))
    else if |s| < 2 then None
    else if s[1] == '\'' then Prepend('\'', ReadSingleQuoted(s[2..]))
    else if s[1] == 'u' then
      if |s| >= 6 && s[2..4] == "00" && UnhexDigit(s[4]) >= 0 && UnhexDigit(s[5]) >= 0
      then Prepend((UnhexDigit(s[4]) * 16 + UnhexDigit(s[5])) as char, ReadSingleQuoted(s[6..]))
      else None
    else match Unescaped(s[1])
      case Some(c) => Prepend(c, ReadSingleQuoted(s[2..]))
      case None => None
  }

  lemma QuotesForgetWord(s: string, aw: bool)
    ensures Normalize(s, aw, Single) == Normalize(s, false, Single)
  {
  }

  lemma ReadPlainFirst(c: char, t: string)
    requires c >= 32 as char && c != '"' && c != '\\'
    ensures ReadString([c] + t) == Prepend(c, ReadString(t))
  {
    assert ([c] + t)[1..] == t;
  }

  lemma ReadPairFirst(c: char, t: string)
    requires c != 'u' && Unescaped(c).Some?
    ensures ReadString(['\\', c] + t) == Prepend(Unescaped(c).value, ReadString(t))
  {
    assert (['\\', c] + t)[2..] == t;
  }

  lemma ReadUnicodeFirst(h: char, l: char, t: string)
    requires UnhexDigit(h) >= 0 && UnhexDigit(l) >= 0
    ensures ReadString("\\u00" + [h, l] + t) == Prepend((UnhexDigit(h) * 16 + UnhexDigit(l)) as char, ReadString(t))
  {
    var s := "\\u00" + [h, l] + t;
    assert s[6..] == t && s[2..4] == "00" && s[4] == h && s[5] == l;
  }

  /** The JSON string that the rewriter makes of it has the same content, and ends where the other did. */
  lemma {:induction false} SingleQuotedMeansSame(s: string, aw: bool)
    requires ReadSingleQuoted(s).Some?
    ensures var (v, rest) := ReadSingleQuoted(s).value;
            ReadString(Normalize(s, aw, Single)) == Some((v, Normalize(rest, false, Bare)))
    decreases |s|
  {
    hide ReadString, Unescaped;
    if s[0] == '\'' {
      assert s == ['\''] + s[1..];
      StepChar('\'', s[1..], aw, Single);
      ReadClosing(Normalize(s[1..], false, Bare));
    } else if s[0] != '\\' {
      SingleQuotedChar(s, aw);
    } else if s[1] == 'u' {
      SingleQuotedUnicode(s, aw);
    } else {
      SingleQuotedPair(s, aw);
    }
  }

  lemma ReadClosing(t: string)
    ensures ReadString("\"" + t) == Some(("", t))
  {
    assert ("\"" + t)[1..] == t;
  }

  lemma {:induction false} SingleQuotedChar(s: string, aw: bool)
    requires ReadSingleQuoted(s).Some? && s[0] != '\'' && s[0] != '\\'
    ensures var (v, rest) := ReadSingleQuoted(s).value;
            ReadString(Normalize(s, aw, Single)) == Some((v, Normalize(rest, false, Bare)))
    decreases |s|, 0
  {
    hide ReadString, Unescaped;
    var c, tail := s[0], s[1..];
    assert s == [c] + tail;
    StepChar(c, tail, aw, Single);
    SingleQuotedMeansSame(tail, IsWordChar(c));
    var t := Normalize(tail, IsWordChar(c), Single);
    hide Normalize;
    if c == '"' {
      QuoteIsEscaped();
      ReadPairFirst('"', t);
      assert "\\\"" + t == ['\\', '"'] + t;
    } else {
      ReadPlainFirst(c, t);
    }
  }

  lemma QuoteIsEscaped()
    ensures Unescaped('"') == Some('"')
  {
  }

  lemma {:induction false} SingleQuotedPair(s: string, aw: bool)
    requires ReadSingleQuoted(s).Some? && s[0] == '\\' && s[1] != 'u'
    ensures var (v, rest) := ReadSingleQuoted(s).value;
            ReadString(Normalize(s, aw, Single)) == Some((v, Normalize(rest, false, Bare)))
    decreases |s|, 0
  {
    hide ReadString, Unescaped;
    var c, tail := s[1], s[2..];
    assert s == ['\\', c] + tail;
    StepPair(c, tail, aw, Single);
    SingleQuotedMeansSame(tail, IsWordChar(c));
    var t := Normalize(tail, IsWordChar(c), Single);
    hide Normalize;
    if c == '\'' {
      ReadPlainFirst('\'', t);
    } else {
      ReadPairFirst(c, t);
    }
  }

  lemma {:induction false} SingleQuotedUnicode(s: string, aw: bool)
    requires ReadSingleQuoted(s).Some? && s[0] == '\\' && s[1] == 'u'
    ensures var (v, rest) := ReadSingleQuoted(s).value;
            ReadString(Normalize(s, aw, Single)) == Some((v, Normalize(rest, false, Bare)))
    decreases |s|, 0
  {
    hide ReadString, Unescaped, CleanWords;
    var h, l, tail := s[4], s[5], s[6..];
    assert s == "\\u00" + [h, l] + tail by {
      assert s == s[..2] + s[2..4] + s[4..6] + s[6..] && s[..2] == "\\u" && s[4..6] == [h, l];
    }
    HexPasses(h, l, tail, aw);
    SingleQuotedMeansSame(tail, false);
    hide Normalize;
    ReadUnicodeFirst(h, l, Normalize(tail, false, Single));
  }

  lemma HexPasses(h: char, l: char, tail: string, aw: bool)
    requires UnhexDigit(h) >= 0 && UnhexDigit(l) >= 0
    ensures Normalize("\\u00" + [h, l] + tail, aw, Single) == "\\u00" + [h, l] + Normalize(tail, false, Single)
  {
    hide Normalize, CleanWords;
    var t1 := [l] + tail;
    var t2 := [h] + t1;
    var t3 := ['0'] + t2;
    var t4 := ['0'] + t3;
    assert "\\u00" + [h, l] + tail == ['\\', 'u'] + t4;
    StepPair('u', t4, aw, Single);
    StepChar('0', t3, true, Single);
    StepChar('0', t2, true, Single);
    StepChar(h, t1, true, Single);
    StepChar(l, tail, IsWordChar(h), Single);
    QuotesForgetWord(tail, IsWordChar(l));
  }
}
