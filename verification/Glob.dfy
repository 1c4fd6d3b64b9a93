/**
  Glob patterns (`glob_match`): `*` spans text without a slash, `**` any text, `?` is one character but a slash, and
  `[...]` is one character of a class. A pattern is a sequence of items, and matching is splitting the text into one
  piece for each item.
*/
module Glob {

  datatype Range = Range(lo: char, hi: char)

  datatype Item = Star | DoubleStar | AnyChar | Literal(c: char) | Class(negated: bool, ranges: seq<Range>)

  // ----- Patterns -----

  /** Single characters and ranges such as a-z. */
  function Ranges(s: string): seq<Range> {
    if s == "" then []
    else if |s| > 2 && s[1] == '-' && s[2] != ']' then [Range(s[0], s[2])] + Ranges(s[3..])
    else [Range(s[0], s[0])] + Ranges(s[1..])
  }

  predicate IsLeadingLiteral(c: char) {
    c == ']' || c == '-'
  }

  /** What stands between the brackets: an optional `!`, then the characters, the first of which may be `]` or `-`. */
  function ParseClass(content: string): Item {
    var negated := content != "" && content[0] == '!';
    var s := if negated then content[1..] else content;
    if s != "" && IsLeadingLiteral(s[0]) then Class(negated, [Range(s[0], s[0])] + Ranges(s[1..]))
    else Class(negated, Ranges(s))
  }

  /** The first `]` at or after `i`, or the end. */
  function FindClose(p: string, i: nat): (n: nat)
    requires i <= |p|
    ensures i <= n <= |p| && (n < |p| ==> p[n] == ']')
    ensures forall k :: i <= k < n ==> p[k] != ']'
    decreases |p| - i
  {
    if i < |p| && p[i] != ']' then FindClose(p, i + 1) else i
  }

  /** Where the class that begins with `p[0]` ends; its first character may be `]`. */
  function ClassEnd(p: string): (n: nat)
    requires p != ""
    ensures 1 <= n <= |p| && (n < |p| ==> p[n] == ']')
  {
    FindClose(p, if |p| > 1 && IsLeadingLiteral(p[1]) then 2 else 1)
  }

  function Parse(p: string): seq<Item>
    decreases |p|
  {
    if p == "" then []
    else if p[0] == '*' then
      if |p| > 1 && p[1] == '*' then [DoubleStar] + Parse(p[2..]) else [Star] + Parse(p[1..])
    else if p[0] == '?' then [AnyChar] + Parse(p[1..])
    else if p[0] == '[' && ClassEnd(p) < |p| then [ParseClass(p[1..ClassEnd(p)])] + Parse(p[ClassEnd(p) + 1..])
    else [Literal(p[0])] + Parse(p[1..])
  }

  // ----- What a pattern matches -----

  predicate InRanges(ranges: seq<Range>, c: char) {
    exists i :: 0 <= i < |ranges| && ranges[i].lo <= c <= ranges[i].hi
  }

  predicate Accepts(item: Item, c: char) {
    match item
    case AnyChar => c != '/'
    case Literal(l) => c == l
    case Class(negated, ranges) => InRanges(ranges, c) != negated
    case _ => false
  }

  predicate Denotes(item: Item, piece: string) {
    match item
    case Star => forall i :: 0 <= i < |piece| ==> piece[i] != '/'
    case DoubleStar => true
    case _ => |piece| == 1 && Accepts(item, piece[0])
  }

  function Join(pieces: seq<string>): string {
    if pieces == [] then "" else pieces[0] + Join(pieces[1..])
  }

  predicate DenotesAll(items: seq<Item>, pieces: seq<string>) {
    |items| == |pieces| && forall i :: 0 <= i < |items| ==> Denotes(items[i], pieces[i])
  }

  /** The text can be split into one piece for each item. */
  ghost predicate Matches(items: seq<Item>, s: string) {
    exists pieces :: DenotesAll(items, pieces) && Join(pieces) == s
  }

  lemma NothingMatchesEmpty(s: string)
    ensures Matches([], s) <==> s == ""
  {
    if s == "" {
      assert DenotesAll([], []) && Join([]) == s;
    }
  }

  /** Taking the first piece off. */
  lemma FirstPiece(item: Item, rest: seq<Item>, s: string) returns (k: nat)
    requires Matches([item] + rest, s)
    ensures k <= |s| && Denotes(item, s[..k]) && Matches(rest, s[k..])
  {
    var pieces :| DenotesAll([item] + rest, pieces) && Join(pieces) == s;
    k := |pieces[0]|;
    assert s[..k] == pieces[0] && s[k..] == Join(pieces[1..]);
    assert ([item] + rest)[0] == item;
    forall i | 0 <= i < |rest| ensures Denotes(rest[i], pieces[1..][i]) {
      assert rest[i] == ([item] + rest)[i + 1];
    }
    assert DenotesAll(rest, pieces[1..]);
  }

  lemma PutPieceFirst(item: Item, rest: seq<Item>, piece: string, s: string)
    requires Denotes(item, piece) && Matches(rest, s)
    ensures Matches([item] + rest, piece + s)
  {
    var pieces :| DenotesAll(rest, pieces) && Join(pieces) == s;
    var all := [piece] + pieces;
    assert all[1..] == pieces;
    assert DenotesAll([item] + rest, all) && Join(all) == piece + s;
  }

  /** What a span may take next. */
  predicate Spans(item: Item, s: string)
    requires item.Star? || item.DoubleStar?
  {
    s != "" && (item.DoubleStar? || s[0] != '/')
  }

  lemma SpanShrinks(item: Item, rest: seq<Item>, s: string)
    requires (item.Star? || item.DoubleStar?) && Matches([item] + rest, s)
    ensures Matches(rest, s) || (Spans(item, s) && Matches([item] + rest, s[1..]))
  {
    hide Matches;
    var k := FirstPiece(item, rest, s);
    if k == 0 {
      assert s[0..] == s;
    } else {
      var shorter := s[1..][..k - 1];
      assert Denotes(item, shorter) by {
        assert forall i :: 0 <= i < |shorter| ==> shorter[i] == s[..k][i + 1];
      }
      assert item.Star? ==> s[..k][0] != '/';
      PutPieceFirst(item, rest, shorter, s[k..]);
      assert shorter + s[k..] == s[1..];
    }
  }

  lemma SpanGrows(item: Item, rest: seq<Item>, s: string)
    requires (item.Star? || item.DoubleStar?) && Spans(item, s) && Matches([item] + rest, s[1..])
    ensures Matches([item] + rest, s)
  {
    hide Matches;
    var k := FirstPiece(item, rest, s[1..]);
    var piece := [s[0]] + s[1..][..k];
    assert Denotes(item, piece) by {
      assert forall i :: 0 < i < |piece| ==> piece[i] == s[1..][..k][i - 1];
    }
    PutPieceFirst(item, rest, piece, s[1..][k..]);
    assert piece + s[1..][k..] == s;
  }

  /** The two spans take nothing, or one character and go on. */
  lemma SpanStep(item: Item, rest: seq<Item>, s: string)
    requires item.Star? || item.DoubleStar?
    ensures Matches([item] + rest, s) <==> Matches(rest, s) || (Spans(item, s) && Matches([item] + rest, s[1..]))
  {
    hide Matches;
    if Matches([item] + rest, s) {
      SpanShrinks(item, rest, s);
    }
    if Matches(rest, s) {
      PutPieceFirst(item, rest, "", s);
      assert "" + s == s;
    }
    if Spans(item, s) && Matches([item] + rest, s[1..]) {
      SpanGrows(item, rest, s);
    }
  }

  lemma SingleStep(item: Item, rest: seq<Item>, s: string)
    requires !item.Star? && !item.DoubleStar?
    ensures Matches([item] + rest, s) <==> s != "" && Accepts(item, s[0]) && Matches(rest, s[1..])
  {
    if Matches([item] + rest, s) {
      var k := FirstPiece(item, rest, s);
      assert k == |s[..k]| == 1;
    }
    if s != "" && Accepts(item, s[0]) && Matches(rest, s[1..]) {
      PutPieceFirst(item, rest, [s[0]], s[1..]);
      assert [s[0]] + s[1..] == s;
    }
  }

  // ----- Matching -----

  /** The text of a C string: all up to the first null character. */
  function CStr(s: string): (t: string)
    ensures '\0' !in t && t <= s
  {
    if s == "" || s[0] == '\0' then "" else [s[0]] + CStr(s[1..])
  }

  /** Reading a C string: the end is a null character. */
  function At(s: string, i: nat): char
    requires i <= |s|
  {
    if i < |s| then s[i] else '\0'
  }

  lemma RangesStep(s: string, i: nat, c: char)
    requires i < |s|
    ensures var step := if i + 2 < |s| && s[i + 1] == '-' && s[i + 2] != ']' then 3 else 1;
            var hi := if step == 3 then s[i + 2] else s[i];
            InRanges(Ranges(s[i..]), c) <==> s[i] <= c <= hi || InRanges(Ranges(s[i + step..]), c)
  {
    var step := if i + 2 < |s| && s[i + 1] == '-' && s[i + 2] != ']' then 3 else 1;
    var hi := if step == 3 then s[i + 2] else s[i];
    assert s[i..][step..] == s[i + step..];
    var first, rest := Range(s[i], hi), Ranges(s[i + step..]);
    assert Ranges(s[i..]) == [first] + rest;
    InRangesStep(first, rest, c);
  }

  lemma StepInClass(p: string, i: nat, end: nat, c: char)
    requires i < end <= |p|
    ensures var step := if i + 2 < end && p[i + 1] == '-' && p[i + 2] != ']' then 3 else 1;
            var hi := if step == 3 then p[i + 2] else p[i];
            InRanges(Ranges(p[i..end]), c) <==> p[i] <= c <= hi || InRanges(Ranges(p[i + step..end]), c)
  {
    hide Ranges;
    RangesStep(p[..end], i, c);
    var step := if i + 2 < end && p[i + 1] == '-' && p[i + 2] != ']' then 3 else 1;
    assert p[..end][i..] == p[i..end] && p[..end][i + step..] == p[i + step..end];
  }

  lemma NoRanges(c: char)
    ensures !InRanges(Ranges(""), c)
  {
  }

  lemma InRangesStep(first: Range, rest: seq<Range>, c: char)
    ensures InRanges([first] + rest, c) <==> first.lo <= c <= first.hi || InRanges(rest, c)
  {
    var all := [first] + rest;
    if first.lo <= c <= first.hi {
      assert all[0] == first;
    }
    if InRanges(rest, c) {
      var i :| 0 <= i < |rest| && rest[i].lo <= c <= rest[i].hi;
      assert all[i + 1] == rest[i];
    }
  }

  /** `p[start..end]` is what stands between the brackets, and `p[end]` the closing bracket. */
  method GlobClassMatch(c: char, p: string, start: nat, end: nat) returns (r: bool)
    requires start < end < |p| && p[end] == ']'
    ensures r <==> Accepts(ParseClass(p[start..end]), c)
  {
    var content := p[start..end];
    var classStart, negated := start, false;
    if p[classStart] == '!' {
      negated := true;
      classStart := classStart + 1;
    }
    ghost var s := p[classStart..end];
    assert s == if negated then content[1..] else content;
    hide Ranges;
    NoRanges(c);
    if p[classStart] == ']' || p[classStart] == '-' {
      if classStart < end {
        assert s[0] == p[classStart] && s[1..] == p[classStart + 1..end];
        InRangesStep(Range(s[0], s[0]), Ranges(s[1..]), c);
      }
      hide InRanges;
      if classStart < end && p[classStart] == c {
        return !negated;
      }
      classStart := classStart + 1;
    }
    hide InRanges;
    var matched := MatchRanges(c, p, classStart, end);
    r := if negated then !matched else matched;
  }

  /** The loop over the ranges; it does not run when the leading literal was the closing bracket itself. */
  method MatchRanges(c: char, p: string, start: nat, end: nat) returns (matched: bool)
    requires start <= end + 1 && end < |p|
    ensures matched <==> start <= end && InRanges(Ranges(p[start..end]), c)
  {
    NoRanges(c);
    hide Ranges, InRanges;
    var classStart := start;
    matched := false;
    while classStart < end
      invariant !matched && start <= classStart && (start <= end ==> classStart <= end)
      invariant start <= end ==> InRanges(Ranges(p[start..end]), c) == InRanges(Ranges(p[classStart..end]), c)
    {
      StepInClass(p, classStart, end, c);
      if classStart + 2 < end && p[classStart + 1] == '-' && p[classStart + 2] != ']' {
        var startChar, endChar := p[classStart], p[classStart + 2];
        if c >= startChar && c <= endChar {
          matched := true;
          break;
        }
        classStart := classStart + 3;
      } else {
        if p[classStart] == c {
          matched := true;
          break;
        }
        classStart := classStart + 1;
      }
    }
    assert p[end..end] == "";
  }

  /** Matching on two C strings, by recursion on both positions. */
  method GlobMatchAt(p: string, s: string) returns (r: bool)
    requires '\0' !in p && '\0' !in s
    ensures r <==> Matches(Parse(p), s)
    decreases |p|, |s|
  {
    hide Matches;
    if At(p, 0) == '\0' {
      NothingMatchesEmpty(s);
      return At(s, 0) == '\0';
    }
    if p[0] == '*' && At(p, 1) == '*' {
      SpanStep(DoubleStar, Parse(p[2..]), s);
      r := GlobMatchAt(p[2..], s);
      if r {
        return true;
      }
      if At(s, 0) != '\0' {
        r := GlobMatchAt(p, s[1..]);
        return;
      }
      return false;
    }
    if p[0] == '*' {
      r := MatchSpan(p, s);
      return;
    }
    if p[0] == '?' && At(s, 0) != '\0' && s[0] != '/' {
      SingleStep(AnyChar, Parse(p[1..]), s);
      r := GlobMatchAt(p[1..], s[1..]);
      return;
    }
    if p[0] == '[' {
      r := MatchBracket(p, s);
      return;
    }
    SingleStep(if p[0] == '?' then AnyChar else Literal(p[0]), Parse(p[1..]), s);
    if p[0] == At(s, 0) {
      r := GlobMatchAt(p[1..], s[1..]);
      return;
    }
    r := false;
  }

  /** `*`: the rest is tried at every position up to the next slash. */
  method MatchSpan(p: string, s: string) returns (r: bool)
    requires '\0' !in p && '\0' !in s && p != "" && p[0] == '*' && At(p, 1) != '*'
    ensures r <==> Matches(Parse(p), s)
    decreases |p|, |s|, 0
  {
    hide Matches;
    ghost var rest := Parse(p[1..]);
    var i := 0;
    assert s[0..] == s;
    while At(s, i) != '\0' && s[i] != '/'
      invariant i <= |s|
      invariant Matches([Star] + rest, s[i..]) <==> Matches(Parse(p), s)
      decreases |s| - i
    {
      SpanStep(Star, rest, s[i..]);
      r := GlobMatchAt(p[1..], s[i..]);
      if r {
        return true;
      }
      assert s[i..][1..] == s[i + 1..];
      i := i + 1;
    }
    SpanStep(Star, rest, s[i..]);
    r := GlobMatchAt(p[1..], s[i..]);
  }

  /** `[`: a class if a closing bracket follows, else the character itself. */
  method MatchBracket(p: string, s: string) returns (r: bool)
    requires '\0' !in p && '\0' !in s && p != "" && p[0] == '['
    ensures r <==> Matches(Parse(p), s)
    decreases |p|, |s|, 0
  {
    hide Matches;
    var classEnd := 1;
    if At(p, classEnd) == ']' || At(p, classEnd) == '-' {
      classEnd := classEnd + 1;
    }
    while At(p, classEnd) != '\0' && p[classEnd] != ']'
      invariant 1 <= classEnd <= |p| && FindClose(p, classEnd) == ClassEnd(p)
      decreases |p| - classEnd
    {
      classEnd := classEnd + 1;
    }
    if At(p, classEnd) == ']' {
      SingleStep(ParseClass(p[1..classEnd]), Parse(p[classEnd + 1..]), s);
      if At(s, 0) == '\0' {
        return false;
      }
      var matched := GlobClassMatch(s[0], p, 1, classEnd);
      if !matched {
        return false;
      }
      r := GlobMatchAt(p[classEnd + 1..], s[1..]);
    } else {
      SingleStep(Literal('['), Parse(p[1..]), s);
      if At(s, 0) == '[' {
        r := GlobMatchAt(p[1..], s[1..]);
        return;
      }
      r := false;
    }
  }

  /** Sound and complete: the answer is yes exactly when the text can be split as the pattern says. */
  method GlobMatch(pattern: string, str: string) returns (r: bool)
    ensures r <==> Matches(Parse(CStr(pattern)), CStr(str))
  {
    r := GlobMatchAt(CStr(pattern), CStr(str));
  }

  // ----- What the items mean for whole patterns -----

  predicate IsPlain(p: string) {
    forall i :: 0 <= i < |p| ==> p[i] != '*' && p[i] != '?' && p[i] != '['
  }

  /** A pattern without special characters matches itself and nothing else. */
  lemma {:induction false} PlainMatchesItself(p: string, s: string)
    requires IsPlain(p)
    ensures Matches(Parse(p), s) <==> s == p
    decreases |p|
  {
    hide Matches;
    if p == "" {
      NothingMatchesEmpty(s);
    } else {
      SingleStep(Literal(p[0]), Parse(p[1..]), s);
      if s != "" {
        PlainMatchesItself(p[1..], s[1..]);
        assert s == [s[0]] + s[1..] && p == [p[0]] + p[1..];
      }
    }
  }

  /** How many slashes a text has. */
  function Slashes(s: string): nat {
    if s == "" then 0 else (if s[0] == '/' then 1 else 0) + Slashes(s[1..])
  }

  predicate HasNoDeepItem(items: seq<Item>) {
    forall i :: 0 <= i < |items| ==> !items[i].DoubleStar? && !items[i].Class?
  }

  function LiteralSlashes(items: seq<Item>): nat {
    if items == [] then 0 else (if items[0] == Literal('/') then 1 else 0) + LiteralSlashes(items[1..])
  }

  lemma {:induction false} SlashesConcat(a: string, b: string)
    ensures Slashes(a + b) == Slashes(a) + Slashes(b)
    decreases |a|
  {
    if a == "" {
      assert a + b == b;
    } else {
      assert (a + b)[1..] == a[1..] + b;
      SlashesConcat(a[1..], b);
    }
  }

  lemma {:induction false} NoSlash(a: string)
    requires forall i :: 0 <= i < |a| ==> a[i] != '/'
    ensures Slashes(a) == 0
  {
    if a != "" {
      NoSlash(a[1..]);
    }
  }

  /** Without `**` and classes, every slash of the text is one that the pattern spells out. */
  lemma {:induction false} SlashesAreSpeltOut(items: seq<Item>, s: string)
    requires HasNoDeepItem(items) && Matches(items, s)
    ensures Slashes(s) == LiteralSlashes(items)
    decreases |items|
  {
    if items == [] {
      NothingMatchesEmpty(s);
    } else {
      var item, rest := items[0], items[1..];
      assert items == [item] + rest;
      var k := FirstPiece(item, rest, s);
      hide Matches;
      assert HasNoDeepItem(rest);
      SlashesAreSpeltOut(rest, s[k..]);
      SlashesConcat(s[..k], s[k..]);
      assert s[..k] + s[k..] == s;
      if item.Star? {
        NoSlash(s[..k]);
      } else {
        assert s[..k][1..] == "";
      }
    }
  }

  /**
    A `]` right after `[!` closes the class, whatever follows, although the code's own comment calls it a literal: `[!]`
    excludes nothing and takes any one character.
  */
  lemma BracketAfterNegationCloses(rest: string, s: string)
    ensures Parse("[!]" + rest) == [Class(true, [])] + Parse(rest)
    ensures Matches(Parse("[!]" + rest), s) <==> s != "" && Matches(Parse(rest), s[1..])
  {
    var p := "[!]" + rest;
    assert p[1] == '!' && p[2] == ']';
    assert ClassEnd(p) == 2;
    assert p[1..2] == "!" && p[3..] == rest && "!"[1..] == "";
    assert Parse(p) == [ParseClass(p[1..2])] + Parse(p[3..]);
    hide Matches;
    SingleStep(Class(true, []), Parse(rest), s);
  }

  // ----- Patterns by their first character -----

  /** A question mark takes one character that is no slash; a character without a special meaning takes itself. */
  lemma OneCharacterMeans(c: char, rest: string, s: string)
    ensures Matches(Parse("?" + rest), s) <==> s != "" && s[0] != '/' && Matches(Parse(rest), s[1..])
    ensures c !in {'*', '?', '['} ==>
              (Matches(Parse([c] + rest), s) <==> s != "" && s[0] == c && Matches(Parse(rest), s[1..]))
  {
    assert ("?" + rest)[1..] == rest && ([c] + rest)[1..] == rest;
    hide Matches;
    SingleStep(AnyChar, Parse(rest), s);
    SingleStep(Literal(c), Parse(rest), s);
  }

  predicate IsWithoutSlash(s: string) {
    forall i :: 0 <= i < |s| ==> s[i] != '/'
  }

  /** Two stars take any text, one star any text without a slash. */
  lemma StarsMean(rest: string, s: string)
    ensures Matches(Parse("**" + rest), s) <==> exists k :: 0 <= k <= |s| && Matches(Parse(rest), s[k..])
    ensures (rest == "" || rest[0] != '*') ==>
              (Matches(Parse("*" + rest), s)
               <==> exists k :: 0 <= k <= |s| && IsWithoutSlash(s[..k]) && Matches(Parse(rest), s[k..]))
  {
    assert ("**" + rest)[2..] == rest && ("*" + rest)[1..] == rest;
    hide Matches;
    SpanMeans(DoubleStar, Parse(rest), s);
    if rest == "" || rest[0] != '*' {
      SpanMeans(Star, Parse(rest), s);
    }
  }

  lemma SpanMeans(item: Item, rest: seq<Item>, s: string)
    requires item.Star? || item.DoubleStar?
    ensures Matches([item] + rest, s)
            <==> exists k :: 0 <= k <= |s| && (item.DoubleStar? || IsWithoutSlash(s[..k])) && Matches(rest, s[k..])
  {
    hide Matches;
    if Matches([item] + rest, s) {
      var k := FirstPiece(item, rest, s);
      assert item.DoubleStar? || IsWithoutSlash(s[..k]);
    }
    if k :| 0 <= k <= |s| && (item.DoubleStar? || IsWithoutSlash(s[..k])) && Matches(rest, s[k..]) {
      PutPieceFirst(item, rest, s[..k], s[k..]);
      assert s[..k] + s[k..] == s;
    }
  }

  /** A class of one range, such as `[a-z]`, takes a character in it; with `!`, one that is not. */
  lemma ClassMeans(lo: char, hi: char, rest: string, s: string)
    requires lo !in {'!', ']', '-'} && hi != ']'
    ensures Matches(Parse("[" + [lo, '-', hi] + "]" + rest), s)
            <==> s != "" && lo <= s[0] <= hi && Matches(Parse(rest), s[1..])
    ensures Matches(Parse("[!" + [lo, '-', hi] + "]" + rest), s)
            <==> s != "" && !(lo <= s[0] <= hi) && Matches(Parse(rest), s[1..])
    ensures Matches(Parse("[" + [lo] + "]" + rest), s) <==> s != "" && s[0] == lo && Matches(Parse(rest), s[1..])
  {
    ParseOneClass("[" + [lo, '-', hi] + "]" + rest, [lo, '-', hi], rest);
    ParseOneClass("[!" + [lo, '-', hi] + "]" + rest, "!" + [lo, '-', hi], rest);
    ParseOneClass("[" + [lo] + "]" + rest, [lo], rest);
    OneRange(lo, hi);
    hide Matches, Parse, ParseClass;
    SingleStep(Class(false, [Range(lo, hi)]), Parse(rest), s);
    SingleStep(Class(true, [Range(lo, hi)]), Parse(rest), s);
    SingleStep(Class(false, [Range(lo, lo)]), Parse(rest), s);
    if s != "" {
      InOneRange(lo, hi, s[0]);
      InOneRange(lo, lo, s[0]);
    }
  }

  lemma OneRange(lo: char, hi: char)
    requires lo !in {'!', ']', '-'} && hi != ']'
    ensures ParseClass([lo, '-', hi]) == Class(false, [Range(lo, hi)])
    ensures ParseClass("!" + [lo, '-', hi]) == Class(true, [Range(lo, hi)])
    ensures ParseClass([lo]) == Class(false, [Range(lo, lo)])
  {
    assert ("!" + [lo, '-', hi])[1..] == [lo, '-', hi];
    assert [lo, '-', hi][3..] == "" && [lo][1..] == "";
    assert Ranges([lo, '-', hi]) == [Range(lo, hi)] + Ranges("") == [Range(lo, hi)];
  }

  lemma InOneRange(lo: char, hi: char, c: char)
    ensures InRanges([Range(lo, hi)], c) <==> lo <= c <= hi
  {
    if lo <= c <= hi {
      assert [Range(lo, hi)][0].lo <= c <= [Range(lo, hi)][0].hi;
    }
  }

  lemma ParseOneClass(p: string, content: string, rest: string)
    requires p == "[" + content + "]" + rest && content != "" && content[0] != '-'
    requires forall i :: 0 <= i < |content| ==> content[i] != ']'
    ensures Parse(p) == [ParseClass(content)] + Parse(rest)
  {
    var n := |content| + 1;
    assert p[n] == ']' && forall i :: 1 <= i < n ==> p[i] == content[i - 1];
    assert ClassEnd(p) == n;
    assert p[1..n] == content && p[n + 1..] == rest;
  }

  // ----- Null characters -----

  /** Both texts end at their first null character. */
  lemma {:induction false} CStrExactly(s: string, rest: string)
    requires '\0' !in s
    ensures CStr(s) == s && CStr(s + "\0" + rest) == s
    decreases |s|
  {
    if s == "" {
      assert s + "\0" + rest == "\0" + rest;
    } else {
      assert (s + "\0" + rest)[1..] == s[1..] + "\0" + rest;
      CStrExactly(s[1..], rest);
      assert s == [s[0]] + s[1..];
    }
  }
}
