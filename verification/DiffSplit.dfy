/**
  Comparing two rendered templates (`calculate_diff_split`): both texts are cut into markers and plain text, and what
  they share at either end is split off. It is shown exactly when the parts still make up both texts.
*/
module DiffSplit {
  import opened Wrappers

  datatype SegmentType = TEXT | MARKER

  datatype Segment = Segment(kind: SegmentType, value: string)

  predicate IsOpener(c: char) {
    c == '<' || c == '['
  }

  function Closer(opener: char): char {
    if opener == '<' then '>' else ']'
  }

  /** The segments of `text[border..]` when the scan stands at `cur`, inside a marker or not. */
  function SegmentsFrom(text: string, border: nat, cur: nat, opener: Option<char>): seq<Segment>
    requires border <= cur <= |text|
    decreases |text| - cur
  {
    if cur == |text| then
      if border < cur then [Segment(TEXT, text[border..])] else []
    else if opener.None? && IsOpener(text[cur]) then
      (if border < cur then [Segment(TEXT, text[border..cur])] else [])
      + SegmentsFrom(text, cur, cur + 1, Some(text[cur]))
    else if opener.Some? && text[cur] == Closer(opener.value) then
      [Segment(MARKER, text[border..cur + 1])] + SegmentsFrom(text, cur + 1, cur + 1, None)
    else SegmentsFrom(text, border, cur + 1, opener)
  }

  function Segments(text: string): seq<Segment> {
    SegmentsFrom(text, 0, 0, None)
  }

  lemma MarkerOpens(done: seq<Segment>, text: string, border: nat, cur: nat)
    requires border <= cur < |text| && IsOpener(text[cur])
    ensures done + SegmentsFrom(text, border, cur, None)
            == (if border < cur then done + [Segment(TEXT, text[border..cur])] else done)
               + SegmentsFrom(text, cur, cur + 1, Some(text[cur]))
  {
  }

  lemma MarkerCloses(done: seq<Segment>, text: string, border: nat, cur: nat, opener: char)
    requires border <= cur < |text| && text[cur] == Closer(opener)
    ensures done + SegmentsFrom(text, border, cur, Some(opener))
            == done + [Segment(MARKER, text[border..cur + 1])] + SegmentsFrom(text, cur + 1, cur + 1, None)
  {
  }

  lemma ScanGoesOn(text: string, border: nat, cur: nat, opener: Option<char>)
    requires border <= cur < |text|
    requires if opener.Some? then text[cur] != Closer(opener.value) else !IsOpener(text[cur])
    ensures SegmentsFrom(text, border, cur, opener) == SegmentsFrom(text, border, cur + 1, opener)
  {
  }

  method SegmentizeMarkers(text: string) returns (result: seq<Segment>)
    ensures result == Segments(text)
  {
    result := [];
    var inMarker, opener := false, '\0';
    var lastBorder := 0;
    for cur := 0 to |text|
      invariant lastBorder <= cur
      invariant inMarker ==> IsOpener(opener)
      invariant result + SegmentsFrom(text, lastBorder, cur, if inMarker then Some(opener) else None) == Segments(text)
    {
      hide SegmentsFrom;
      if !inMarker && IsOpener(text[cur]) {
        MarkerOpens(result, text, lastBorder, cur);
        if lastBorder < cur {
          result := result + [Segment(TEXT, text[lastBorder..cur])];
        }
        lastBorder := cur;
        inMarker := true;
        opener := text[cur];
      } else if inMarker && ((opener == '<' && text[cur] == '>') || (opener == '[' && text[cur] == ']')) {
        MarkerCloses(result, text, lastBorder, cur, opener);
        result := result + [Segment(MARKER, text[lastBorder..cur + 1])];
        lastBorder := cur + 1;
        inMarker := false;
        opener := '\0';
      } else {
        ScanGoesOn(text, lastBorder, cur, if inMarker then Some(opener) else None);
      }
    }
    if lastBorder < |text| {
      result := result + [Segment(TEXT, text[lastBorder..])];
    }
  }

  /** The texts of all segments, one after the other. */
  function Concat(segs: seq<Segment>): string {
    if segs == [] then "" else segs[0].value + Concat(segs[1..])
  }

  lemma {:induction false} ConcatConcat(a: seq<Segment>, b: seq<Segment>)
    ensures Concat(a + b) == Concat(a) + Concat(b)
    decreases |a|
  {
    if a == [] {
      assert a + b == b;
    } else {
      assert (a + b)[1..] == a[1..] + b;
      ConcatConcat(a[1..], b);
    }
  }

  /** A marker runs from its opener to the first matching closer; a text has no opener, unless one is never closed. */
  predicate WellShaped(s: Segment, last: bool) {
    var v := s.value;
    v != "" &&
    if s.kind == MARKER then
      && IsOpener(v[0]) && v[|v| - 1] == Closer(v[0]) && |v| > 1
      && forall i :: 1 <= i < |v| - 1 ==> v[i] != Closer(v[0])
    else
      || (forall i :: 0 <= i < |v| ==> !IsOpener(v[i]))
      || (last && IsOpener(v[0]) && forall i :: 1 <= i < |v| ==> v[i] != Closer(v[0]))
  }

  predicate AllShaped(segs: seq<Segment>) {
    segs == [] || (WellShaped(segs[0], |segs| == 1) && AllShaped(segs[1..]))
  }

  /** What the scan knows about the characters since the last border. */
  ghost predicate Scanned(text: string, border: nat, cur: nat, opener: Option<char>) {
    && border <= cur <= |text|
    && match opener
       case None => forall i :: border <= i < cur ==> !IsOpener(text[i])
       case Some(o) => border < cur && text[border] == o && IsOpener(o)
                       && forall i :: border < i < cur ==> text[i] != Closer(o)
  }

  /** Cutting a text into segments loses nothing. */
  lemma {:induction false} SegmentsAreLossless(text: string, border: nat, cur: nat, opener: Option<char>)
    requires border <= cur <= |text|
    ensures Concat(SegmentsFrom(text, border, cur, opener)) == text[border..]
    decreases |text| - cur
  {
    if cur == |text| {
    } else if opener.None? && IsOpener(text[cur]) {
      SegmentsAreLossless(text, cur, cur + 1, Some(text[cur]));
      var first := if border < cur then [Segment(TEXT, text[border..cur])] else [];
      ConcatConcat(first, SegmentsFrom(text, cur, cur + 1, Some(text[cur])));
      assert text[border..] == text[border..cur] + text[cur..];
    } else if opener.Some? && text[cur] == Closer(opener.value) {
      SegmentsAreLossless(text, cur + 1, cur + 1, None);
      assert text[border..] == text[border..cur + 1] + text[cur + 1..];
    } else {
      SegmentsAreLossless(text, border, cur + 1, opener);
    }
  }

  /** Every segment is a whole marker or plain text. */
  lemma {:induction false} SegmentsAreShaped(text: string, border: nat, cur: nat, opener: Option<char>)
    requires Scanned(text, border, cur, opener)
    ensures AllShaped(SegmentsFrom(text, border, cur, opener))
    ensures border < |text| ==> SegmentsFrom(text, border, cur, opener) != []
    decreases |text| - cur
  {
    if cur == |text| {
      ShapedAtEnd(text, border, opener);
    } else if opener.None? && IsOpener(text[cur]) {
      SegmentsAreShaped(text, cur, cur + 1, Some(text[cur]));
      var rest := SegmentsFrom(text, cur, cur + 1, Some(text[cur]));
      assert SegmentsFrom(text, border, cur, opener)
          == (if border < cur then [Segment(TEXT, text[border..cur])] else []) + rest;
      if border < cur {
        PlainIsShaped(text, border, cur);
        assert ([Segment(TEXT, text[border..cur])] + rest)[1..] == rest;
      } else {
        assert [] + rest == rest;
      }
    } else if opener.Some? && text[cur] == Closer(opener.value) {
      SegmentsAreShaped(text, cur + 1, cur + 1, None);
      var rest := SegmentsFrom(text, cur + 1, cur + 1, None);
      MarkerIsShaped(text, border, cur, |rest| == 0);
      assert ([Segment(MARKER, text[border..cur + 1])] + rest)[1..] == rest;
    } else {
      SegmentsAreShaped(text, border, cur + 1, opener);
    }
  }

  lemma PlainIsShaped(text: string, border: nat, cur: nat)
    requires Scanned(text, border, cur, None) && border < cur
    ensures WellShaped(Segment(TEXT, text[border..cur]), false)
  {
    var v := text[border..cur];
    assert forall i :: 0 <= i < |v| ==> v[i] == text[border + i];
  }

  lemma MarkerIsShaped(text: string, border: nat, cur: nat, last: bool)
    requires border < cur < |text| && Scanned(text, border, cur, Some(text[border]))
    requires text[cur] == Closer(text[border])
    ensures WellShaped(Segment(MARKER, text[border..cur + 1]), last)
  {
    var v := text[border..cur + 1];
    assert forall i :: 0 <= i < |v| ==> v[i] == text[border + i];
  }

  lemma ShapedAtEnd(text: string, border: nat, opener: Option<char>)
    requires Scanned(text, border, |text|, opener)
    ensures AllShaped(SegmentsFrom(text, border, |text|, opener))
  {
    if border < |text| {
      var s := Segment(TEXT, text[border..]);
      assert forall i :: 0 <= i < |s.value| ==> s.value[i] == text[border + i];
      assert WellShaped(s, true);
      assert [s][1..] == [];
    }
  }

  // ----- The comparison -----

  datatype Split = Split(prefix: string, left: string, right: string, suffix: string)

  /** The four iterators, the two flags and the shared text found so far. */
  datatype Ends = Ends(ls: nat, le: nat, rs: nat, re: nat, leftUsedUp: bool, rightUsedUp: bool,
                       prefix: string, suffix: string)

  /** The segments that one side still holds between its iterators. */
  function Remainder(segs: seq<Segment>, i: nat, j: nat, usedUp: bool): string
    requires i <= j < |segs|
  {
    Concat(segs[i..if usedUp then j else j + 1])
  }

  predicate InRange(L: seq<Segment>, R: seq<Segment>, e: Ends) {
    && e.ls <= e.le < |L| && e.rs <= e.re < |R|
    && (e.leftUsedUp ==> e.ls == e.le) && (e.rightUsedUp ==> e.rs == e.re)
  }

  function LeftRest(L: seq<Segment>, R: seq<Segment>, e: Ends): string
    requires InRange(L, R, e)
  {
    Remainder(L, e.ls, e.le, e.leftUsedUp)
  }

  function RightRest(L: seq<Segment>, R: seq<Segment>, e: Ends): string
    requires InRange(L, R, e)
  {
    Remainder(R, e.rs, e.re, e.rightUsedUp)
  }

  /** Nothing has been lost or used twice. */
  predicate Accounts(L: seq<Segment>, R: seq<Segment>, e: Ends) {
    && InRange(L, R, e)
    && e.prefix + LeftRest(L, R, e) + e.suffix == Concat(L)
    && e.prefix + RightRest(L, R, e) + e.suffix == Concat(R)
  }

  predicate BothOpen(e: Ends) {
    e.ls != e.le && e.rs != e.re
  }

  function TakeFirst(L: seq<Segment>, R: seq<Segment>, e: Ends): Ends
    requires InRange(L, R, e) && BothOpen(e)
  {
    if L[e.ls] == R[e.rs] then e.(prefix := e.prefix + L[e.ls].value, ls := e.ls + 1, rs := e.rs + 1) else e
  }

  function TakeLast(L: seq<Segment>, R: seq<Segment>, e: Ends): Ends
    requires InRange(L, R, e)
  {
    if L[e.le] == R[e.re] then
      e.(suffix := L[e.le].value + e.suffix,
         le := if e.ls != e.le then e.le - 1 else e.le, leftUsedUp := e.leftUsedUp || e.ls == e.le,
         re := if e.rs != e.re then e.re - 1 else e.re, rightUsedUp := e.rightUsedUp || e.rs == e.re)
    else e
  }

  /** The loop: equal segments are taken off both ends while both sides hold more than one. */
  function Shrink(L: seq<Segment>, R: seq<Segment>, e: Ends): (e': Ends)
    requires InRange(L, R, e) && !e.leftUsedUp && !e.rightUsedUp
    ensures InRange(L, R, e')
    decreases e.le - e.ls + e.re - e.rs
  {
    if !BothOpen(e) then e
    else
      var e' := TakeLast(L, R, TakeFirst(L, R, e));
      if e' == e || e'.leftUsedUp || e'.rightUsedUp then e' else Shrink(L, R, e')
  }

  /** The three branches after the loop, for a side that is down to one segment. */
  function TakeSingle(L: seq<Segment>, R: seq<Segment>, e: Ends): (e': Ends)
    requires InRange(L, R, e)
    ensures InRange(L, R, e')
  {
    if e.ls == e.le && e.rs != e.re then
      if L[e.ls] == R[e.re] then
        e.(suffix := R[e.re].value + e.suffix, re := e.re - 1, leftUsedUp := true)
      else if L[e.ls] == R[e.rs] then
        e.(prefix := e.prefix + R[e.rs].value, rs := e.rs + 1, leftUsedUp := true)
      else e
    else if e.rs == e.re && e.ls != e.le then
      if L[e.le] == R[e.rs] then
        e.(suffix := L[e.le].value + e.suffix, le := e.le - 1, rightUsedUp := true)
      else if L[e.ls] == R[e.rs] then
        e.(prefix := e.prefix + L[e.ls].value, ls := e.ls + 1, rightUsedUp := true)
      else e
    else if e.ls == e.le && e.rs == e.re && L[e.ls] == R[e.rs] && L[e.ls].kind == MARKER then
      e.(prefix := e.prefix + R[e.rs].value, leftUsedUp := true, rightUsedUp := true)
    else e
  }

  function CommonPrefixLen(a: string, b: string): (n: nat)
    ensures n <= |a| && n <= |b| && a[..n] == b[..n]
    ensures n < |a| && n < |b| ==> a[n] != b[n]
  {
    if a != "" && b != "" && a[0] == b[0] then
      var n := CommonPrefixLen(a[1..], b[1..]);
      assert a[..n + 1] == [a[0]] + a[1..][..n] && b[..n + 1] == [b[0]] + b[1..][..n];
      n + 1
    else 0
  }

  function CommonSuffixLen(a: string, b: string): (n: nat)
    ensures n <= |a| && n <= |b|
    decreases |a|
  {
    if a != "" && b != "" && a[|a| - 1] == b[|b| - 1] then 1 + CommonSuffixLen(a[..|a| - 1], b[..|b| - 1]) else 0
  }

  /** It is the length of the longest common suffix. */
  lemma {:induction false} CommonSuffixIsLongest(a: string, b: string)
    ensures var n := CommonSuffixLen(a, b);
            && a[|a| - n..] == b[|b| - n..]
            && (n < |a| && n < |b| ==> a[|a| - 1 - n] != b[|b| - 1 - n])
    decreases |a|
  {
    if a != "" && b != "" && a[|a| - 1] == b[|b| - 1] {
      var a', b' := a[..|a| - 1], b[..|b| - 1];
      CommonSuffixIsLongest(a', b');
      var n := CommonSuffixLen(a', b');
      assert CommonSuffixLen(a, b) == n + 1;
      hide CommonSuffixLen;
      SuffixGrows(a, b, n);
    }
  }

  lemma SuffixGrows(a: string, b: string, n: nat)
    requires a != "" && b != "" && a[|a| - 1] == b[|b| - 1] && n < |a| && n < |b|
    requires a[..|a| - 1][|a| - 1 - n..] == b[..|b| - 1][|b| - 1 - n..]
    ensures a[|a| - n - 1..] == b[|b| - n - 1..]
    ensures n + 1 < |a| ==> a[..|a| - 1][|a| - 2 - n] == a[|a| - 2 - n]
    ensures n + 1 < |b| ==> b[..|b| - 1][|b| - 2 - n] == b[|b| - 2 - n]
  {
    EndOf(a, n);
    EndOf(b, n);
  }

  lemma EndOf(a: string, n: nat)
    requires n < |a|
    ensures a[|a| - n - 1..] == a[..|a| - 1][|a| - 1 - n..] + [a[|a| - 1]]
  {
  }

  /** Plain text at the ends of the remainders `l` and `r` is compared character by character. */
  function SplitRests(prefix: string, l: string, r: string, suffix: string, textFirst: bool, textLast: bool): Split {
    var n := if textLast then CommonSuffixLen(l, r) else 0;
    var l', r' := l[..|l| - n], r[..|r| - n];
    var m := if textFirst then CommonPrefixLen(l', r') else 0;
    Split(prefix + l'[..m], l'[m..], r'[m..], l[|l| - n..] + suffix)
  }

  function SplitText(L: seq<Segment>, R: seq<Segment>, e: Ends): Split
    requires InRange(L, R, e)
  {
    SplitRests(e.prefix, LeftRest(L, R, e), RightRest(L, R, e), e.suffix,
               R[e.rs].kind == TEXT && L[e.ls].kind == TEXT, L[e.le].kind == TEXT && R[e.re].kind == TEXT)
  }

  /** The two corrections at the end. */
  function Correct(left: string, right: string, d: Split): Split {
    if d.left == "" && d.right == "" then d.(prefix := left, suffix := "")
    else if d.left == "" && left <= right then Split(left, "", right[|left|..], "")
    else d
  }

  function Start(L: seq<Segment>, R: seq<Segment>): Ends
    requires L != [] && R != []
  {
    Ends(0, |L| - 1, 0, |R| - 1, false, false, "", "")
  }

  function DiffOf(left: string, right: string): Split {
    var L, R := Segments(left), Segments(right);
    if L == [] then Split("", "", right, "")
    else if R == [] then Split("", left, "", "")
    else Correct(left, right, SplitText(L, R, TakeSingle(L, R, Shrink(L, R, Start(L, R)))))
  }

  method CalculateDiffSplit(left: string, right: string) returns (result: Split)
    ensures result == DiffOf(left, right)
  {
    hide Segments, Shrink, TakeSingle, SplitText;
    var L := SegmentizeMarkers(left);
    var R := SegmentizeMarkers(right);
    if L == [] {
      return Split("", "", right, "");
    }
    if R == [] {
      return Split("", left, "", "");
    }
    var e := ShrinkLoop(L, R);
    result := CompareRemainders(L, R, TakeSingle(L, R, e));
    if result.left == "" && result.right == "" {
      result := result.(prefix := left, suffix := "");
    }
    if result.left == "" && result.right != "" && |left| <= |right| && right[..|left|] == left {
      result := Split(left, "", right[|left|..], "");
    }
  }

  method CompareRemainders(L: seq<Segment>, R: seq<Segment>, e: Ends) returns (result: Split)
    requires InRange(L, R, e)
    ensures result == SplitText(L, R, e)
  {
    hide Concat, SplitRests;
    var canHaveTextSuffix := L[e.le].kind == TEXT && R[e.re].kind == TEXT;
    var canHaveTextPrefix := R[e.rs].kind == TEXT && L[e.ls].kind == TEXT;
    var remainderLeft := Concat(L[e.ls..if e.leftUsedUp then e.le else e.le + 1]);
    var remainderRight := Concat(R[e.rs..if e.rightUsedUp then e.re else e.re + 1]);
    result := SplitRemainders(e.prefix, remainderLeft, remainderRight, e.suffix, canHaveTextPrefix, canHaveTextSuffix);
  }

  method SplitRemainders(prefix: string, remainderLeft: string, remainderRight: string, suffix: string,
                         canHaveTextPrefix: bool, canHaveTextSuffix: bool) returns (result: Split)
    ensures result == SplitRests(prefix, remainderLeft, remainderRight, suffix, canHaveTextPrefix, canHaveTextSuffix)
  {
    hide CommonSuffixLen, CommonPrefixLen;
    var suffixLen, prefixLen := 0, 0;
    if canHaveTextSuffix {
      suffixLen := MeasureCommonSuffix(remainderLeft, remainderRight);
    }
    var l, r := remainderLeft[..|remainderLeft| - suffixLen], remainderRight[..|remainderRight| - suffixLen];
    if canHaveTextPrefix {
      prefixLen := MeasureCommonPrefix(l, r);
    }
    result := Split(prefix + l[..prefixLen], l[prefixLen..], r[prefixLen..],
                    remainderLeft[|remainderLeft| - suffixLen..] + suffix);
  }

  method ShrinkLoop(L: seq<Segment>, R: seq<Segment>) returns (e: Ends)
    requires L != [] && R != []
    ensures e == Shrink(L, R, Start(L, R))
  {
    e := Start(L, R);
    var done := false;
    while BothOpen(e) && !done
      invariant InRange(L, R, e)
      invariant if done || e.leftUsedUp || e.rightUsedUp then e == Shrink(L, R, Start(L, R))
                else Shrink(L, R, e) == Shrink(L, R, Start(L, R))
      decreases !done, e.le - e.ls + e.re - e.rs
    {
      ghost var before := e;
      var advanced := false;
      if L[e.ls] == R[e.rs] {
        e := e.(prefix := e.prefix + L[e.ls].value, ls := e.ls + 1, rs := e.rs + 1);
        advanced := true;
      }
      if L[e.le] == R[e.re] {
        e := e.(suffix := L[e.le].value + e.suffix);
        if e.ls != e.le {
          e := e.(le := e.le - 1);
        } else {
          e := e.(leftUsedUp := true);
        }
        if e.rs != e.re {
          e := e.(re := e.re - 1);
        } else {
          e := e.(rightUsedUp := true);
        }
        advanced := true;
      }
      assert e == TakeLast(L, R, TakeFirst(L, R, before));
      if !advanced {
        done := true;
      }
    }
  }

  method MeasureCommonPrefix(a: string, b: string) returns (n: nat)
    ensures n == CommonPrefixLen(a, b)
  {
    n := 0;
    while n < |a| && n < |b| && a[n] == b[n]
      invariant n <= |a| && n <= |b|
      invariant n + CommonPrefixLen(a[n..], b[n..]) == CommonPrefixLen(a, b)
    {
      assert a[n..][1..] == a[n + 1..] && b[n..][1..] == b[n + 1..];
      n := n + 1;
    }
  }

  lemma OneShorter(a: string, n: nat)
    requires n < |a|
    ensures var x := a[..|a| - n]; x[|x| - 1] == a[|a| - 1 - n] && x[..|x| - 1] == a[..|a| - (n + 1)]
  {
  }

  method MeasureCommonSuffix(a: string, b: string) returns (n: nat)
    ensures n == CommonSuffixLen(a, b)
  {
    n := 0;
    assert a[..|a|] == a && b[..|b|] == b;
    while n < |a| && n < |b| && a[|a| - 1 - n] == b[|b| - 1 - n]
      invariant n <= |a| && n <= |b|
      invariant n + CommonSuffixLen(a[..|a| - n], b[..|b| - n]) == CommonSuffixLen(a, b)
    {
      OneShorter(a, n);
      OneShorter(b, n);
      n := n + 1;
    }
  }

  // ----- When are both texts still there? -----

  predicate Lossless(d: Split, left: string, right: string) {
    d.prefix + d.left + d.suffix == left && d.prefix + d.right + d.suffix == right
  }

  /**
    The loop has used up the last segment of just one side, and the code after it matches that segment against the
    other side once more.
  */
  predicate UsesSegmentTwice(L: seq<Segment>, R: seq<Segment>, e: Ends)
    requires InRange(L, R, e)
  {
    e.leftUsedUp != e.rightUsedUp && TakeSingle(L, R, e) != e
  }

  lemma TakeFirstAccounts(L: seq<Segment>, R: seq<Segment>, e: Ends)
    requires Accounts(L, R, e) && BothOpen(e)
    ensures Accounts(L, R, TakeFirst(L, R, e))
  {
    if L[e.ls] == R[e.rs] {
      var v := L[e.ls].value;
      PeelFirst(L, e.ls, e.le);
      PeelFirst(R, e.rs, e.re);
      hide Concat;
      Regroup(e.prefix, v, Concat(L[e.ls + 1..e.le + 1]), e.suffix);
      Regroup(e.prefix, v, Concat(R[e.rs + 1..e.re + 1]), e.suffix);
    }
  }

  lemma PeelFirst(segs: seq<Segment>, i: nat, j: nat)
    requires i <= j < |segs|
    ensures Concat(segs[i..j + 1]) == segs[i].value + Concat(segs[i + 1..j + 1])
  {
    assert segs[i..j + 1][1..] == segs[i + 1..j + 1];
  }

  lemma PeelLast(segs: seq<Segment>, i: nat, j: nat)
    requires i <= j < |segs|
    ensures Concat(segs[i..j + 1]) == Concat(segs[i..j]) + segs[j].value
  {
    assert segs[i..j + 1] == segs[i..j] + [segs[j]];
    ConcatConcat(segs[i..j], [segs[j]]);
    assert [segs[j]][1..] == [];
  }

  lemma Regroup(a: string, b: string, c: string, d: string)
    ensures a + (b + c) + d == (a + b) + c + d && a + (b + c) + d == a + b + (c + d)
  {
  }

  /** Taking off the last segment, whether or not it is the only one. */
  lemma RestWithoutLast(segs: seq<Segment>, i: nat, j: nat)
    requires i <= j < |segs|
    ensures Remainder(segs, i, j, false) == Remainder(segs, i, if i != j then j - 1 else j, i == j) + segs[j].value
  {
    PeelLast(segs, i, j);
  }

  lemma TakeLastAccounts(L: seq<Segment>, R: seq<Segment>, e: Ends)
    requires Accounts(L, R, e) && !e.leftUsedUp && !e.rightUsedUp
    ensures Accounts(L, R, TakeLast(L, R, e))
  {
    if L[e.le] == R[e.re] {
      var v, e' := L[e.le].value, TakeLast(L, R, e);
      RestWithoutLast(L, e.ls, e.le);
      RestWithoutLast(R, e.rs, e.re);
      hide Concat, Remainder;
      Regroup2(e.prefix, LeftRest(L, R, e'), v, e.suffix);
      Regroup2(e.prefix, RightRest(L, R, e'), v, e.suffix);
    }
  }

  lemma Regroup2(a: string, b: string, c: string, d: string)
    ensures a + (b + c) + d == a + b + (c + d)
  {
  }

  lemma {:induction false} ShrinkAccounts(L: seq<Segment>, R: seq<Segment>, e: Ends)
    requires Accounts(L, R, e) && !e.leftUsedUp && !e.rightUsedUp
    ensures Accounts(L, R, Shrink(L, R, e))
    decreases e.le - e.ls + e.re - e.rs
  {
    if BothOpen(e) {
      TakeFirstAccounts(L, R, e);
      TakeLastAccounts(L, R, TakeFirst(L, R, e));
      hide Accounts;
      var e' := TakeLast(L, R, TakeFirst(L, R, e));
      if e' != e && !e'.leftUsedUp && !e'.rightUsedUp {
        ShrinkAccounts(L, R, e');
      }
    }
  }

  lemma RestWithoutFirst(segs: seq<Segment>, i: nat, j: nat)
    requires i <= j < |segs|
    ensures Remainder(segs, i, j, false) == segs[i].value + Remainder(segs, if i != j then i + 1 else i, j, i == j)
  {
    PeelFirst(segs, i, j);
  }

  predicate MatchesLast(L: seq<Segment>, R: seq<Segment>, e: Ends)
    requires InRange(L, R, e)
  {
    (e.ls == e.le) != (e.rs == e.re) && L[e.le] == R[e.re]
  }

  lemma TakeSingleAccounts(L: seq<Segment>, R: seq<Segment>, e: Ends)
    requires Accounts(L, R, e) && !e.leftUsedUp && !e.rightUsedUp
    ensures Accounts(L, R, TakeSingle(L, R, e))
  {
    var e' := TakeSingle(L, R, e);
    if MatchesLast(L, R, e) {
      RestWithoutLast(L, e.ls, e.le);
      RestWithoutLast(R, e.rs, e.re);
      hide Concat, Remainder;
      Regroup2(e.prefix, LeftRest(L, R, e'), L[e.le].value, e.suffix);
      Regroup2(e.prefix, RightRest(L, R, e'), L[e.le].value, e.suffix);
    } else if e' != e {
      SingleFromFirst(L, R, e);
    }
  }

  lemma SingleFromFirst(L: seq<Segment>, R: seq<Segment>, e: Ends)
    requires Accounts(L, R, e) && !e.leftUsedUp && !e.rightUsedUp
    requires TakeSingle(L, R, e) != e && !MatchesLast(L, R, e)
    ensures Accounts(L, R, TakeSingle(L, R, e))
  {
    var e' := TakeSingle(L, R, e);
    RestWithoutFirst(L, e.ls, e.le);
    RestWithoutFirst(R, e.rs, e.re);
    hide Concat, Remainder;
    Regroup1(e.prefix, L[e.ls].value, LeftRest(L, R, e'), e.suffix);
    Regroup1(e.prefix, L[e.ls].value, RightRest(L, R, e'), e.suffix);
  }

  lemma Regroup1(a: string, b: string, c: string, d: string)
    ensures a + (b + c) + d == (a + b) + c + d
  {
  }

  lemma SplitRestsRejoins(prefix: string, l: string, r: string, suffix: string, textFirst: bool, textLast: bool)
    ensures Lossless(SplitRests(prefix, l, r, suffix, textFirst, textLast), prefix + l + suffix, prefix + r + suffix)
  {
    CommonSuffixIsLongest(l, r);
    hide CommonSuffixLen, CommonPrefixLen;
    var n := if textLast then CommonSuffixLen(l, r) else 0;
    var l', r' := l[..|l| - n], r[..|r| - n];
    var m := if textFirst then CommonPrefixLen(l', r') else 0;
    Rejoin(prefix, l, m, n, suffix);
    Rejoin(prefix, r, m, n, suffix);
  }

  lemma Rejoin(prefix: string, t: string, m: nat, n: nat, suffix: string)
    requires m <= |t| - n && n <= |t|
    ensures prefix + t[..|t| - n][..m] + t[..|t| - n][m..] + (t[|t| - n..] + suffix) == prefix + t + suffix
  {
  }

  lemma CorrectKeepsLossless(left: string, right: string, d: Split)
    requires Lossless(d, left, right)
    ensures Lossless(Correct(left, right, d), left, right)
  {
  }

  /** A side that is used up leaves the other side whole. */
  lemma NothingToCompare(prefix: string, l: string, r: string, suffix: string, textFirst: bool, textLast: bool)
    requires l == "" || r == ""
    ensures SplitRests(prefix, l, r, suffix, textFirst, textLast) == Split(prefix, l, r, suffix)
  {
    assert l[..|l|] == l && r[..|r|] == r;
    assert l[|l|..] + suffix == suffix && prefix + l[..0] == prefix;
  }

  lemma SharedTextTooLong(left: string, right: string, d: Split)
    requires |d.prefix| + |d.suffix| > |left| && |right| > |left| && d.left == ""
    ensures Lossless(Correct(left, right, d), left, right) <==> d.right != "" && left <= right
  {
  }

  lemma SharedTextTooLongForRight(left: string, right: string, d: Split)
    requires |d.prefix| + |d.suffix| > |right| && |left| > |right| && d.right == ""
    ensures !Lossless(Correct(left, right, d), left, right)
  {
  }

  ghost predicate NonEmpty(segs: seq<Segment>) {
    forall i :: 0 <= i < |segs| ==> segs[i].value != ""
  }

  lemma {:induction false} ShapedIsNonEmpty(segs: seq<Segment>)
    requires AllShaped(segs)
    ensures NonEmpty(segs)
  {
    if segs != [] {
      ShapedIsNonEmpty(segs[1..]);
      assert segs == [segs[0]] + segs[1..];
      forall i | 0 <= i < |segs| ensures segs[i].value != "" {
        if i > 0 { assert segs[i] == segs[1..][i - 1]; }
      }
    }
  }

  /** A side that is not used up still holds text. */
  lemma OpenSideHoldsText(segs: seq<Segment>, i: nat, j: nat)
    requires NonEmpty(segs) && i <= j < |segs|
    ensures Remainder(segs, i, j, false) != ""
  {
    PeelFirst(segs, i, j);
  }

  lemma UsedUpSideIsEmpty(segs: seq<Segment>, i: nat)
    requires i < |segs|
    ensures Remainder(segs, i, i, true) == ""
  {
  }

  /** What a second match of a used-up left side leaves: a shared part longer than the whole left text. */
  lemma LeftMatchedAgain(L: seq<Segment>, R: seq<Segment>, e: Ends)
    requires InRange(L, R, e) && NonEmpty(L) && NonEmpty(R) && e.leftUsedUp && !e.rightUsedUp
    requires TakeSingle(L, R, e) != e
    ensures LeftRest(L, R, e) == "" && RightRest(L, R, e) != ""
    ensures var e' := TakeSingle(L, R, e);
            && |e'.prefix| + |e'.suffix| > |e.prefix| + |e.suffix|
            && LeftRest(L, R, e') == "" && (RightRest(L, R, e') != "" <==> e.rs != e.re)
  {
    var e' := TakeSingle(L, R, e);
    UsedUpSideIsEmpty(L, e.ls);
    UsedUpSideIsEmpty(R, e.rs);
    OpenSideHoldsText(R, e.rs, e.re);
    if e.rs != e.re {
      OpenSideHoldsText(R, e'.rs, e'.re);
    }
  }

  lemma RightMatchedAgain(L: seq<Segment>, R: seq<Segment>, e: Ends)
    requires InRange(L, R, e) && NonEmpty(L) && NonEmpty(R) && e.rightUsedUp && !e.leftUsedUp
    requires TakeSingle(L, R, e) != e
    ensures RightRest(L, R, e) == "" && LeftRest(L, R, e) != ""
    ensures var e' := TakeSingle(L, R, e);
            |e'.prefix| + |e'.suffix| > |e.prefix| + |e.suffix| && RightRest(L, R, e') == ""
  {
    var e' := TakeSingle(L, R, e);
    UsedUpSideIsEmpty(R, e.rs);
    UsedUpSideIsEmpty(L, e.ls);
    OpenSideHoldsText(L, e.ls, e.le);
  }

  /** What the code after the loop makes of the ends it is given. */
  function Finished(L: seq<Segment>, R: seq<Segment>, e: Ends, left: string, right: string): Split
    requires InRange(L, R, e)
  {
    Correct(left, right, SplitText(L, R, e))
  }

  lemma AccountedForIsLossless(L: seq<Segment>, R: seq<Segment>, e: Ends)
    requires Accounts(L, R, e)
    ensures Lossless(Finished(L, R, e, Concat(L), Concat(R)), Concat(L), Concat(R))
  {
    SplitRestsRejoins(e.prefix, LeftRest(L, R, e), RightRest(L, R, e), e.suffix,
                      R[e.rs].kind == TEXT && L[e.ls].kind == TEXT, L[e.le].kind == TEXT && R[e.re].kind == TEXT);
    hide SplitRests, Concat, Remainder;
    CorrectKeepsLossless(Concat(L), Concat(R), SplitText(L, R, e));
  }

  lemma OneRestEmpty(L: seq<Segment>, R: seq<Segment>, e: Ends)
    requires InRange(L, R, e) && (LeftRest(L, R, e) == "" || RightRest(L, R, e) == "")
    ensures SplitText(L, R, e) == Split(e.prefix, LeftRest(L, R, e), RightRest(L, R, e), e.suffix)
  {
    hide Concat, Remainder, SplitRests;
    NothingToCompare(e.prefix, LeftRest(L, R, e), RightRest(L, R, e), e.suffix,
                     R[e.rs].kind == TEXT && L[e.ls].kind == TEXT, L[e.le].kind == TEXT && R[e.re].kind == TEXT);
  }

  lemma BothUsedUpIsLossless(L: seq<Segment>, R: seq<Segment>, e: Ends)
    requires Accounts(L, R, e) && e.leftUsedUp && e.rightUsedUp
    ensures Lossless(Finished(L, R, TakeSingle(L, R, e), Concat(L), Concat(R)), Concat(L), Concat(R))
  {
    var e' := TakeSingle(L, R, e);
    assert e'.ls == e.ls && e'.rs == e.rs && e'.leftUsedUp && e'.rightUsedUp;
    UsedUpSideIsEmpty(L, e.ls);
    UsedUpSideIsEmpty(R, e.rs);
    assert Concat(L) == Concat(R) by {
      hide Concat, Remainder, TakeSingle;
    }
    hide Concat, Remainder, TakeSingle, SplitText;
    OneRestEmpty(L, R, e');
  }

  lemma LossAfterLoop(L: seq<Segment>, R: seq<Segment>, e: Ends, left: string, right: string)
    requires Accounts(L, R, e) && NonEmpty(L) && NonEmpty(R) && left == Concat(L) && right == Concat(R)
    ensures Lossless(Finished(L, R, TakeSingle(L, R, e), left, right), left, right)
            <==> !UsesSegmentTwice(L, R, e) || (e.leftUsedUp && e.rs != e.re && left <= right)
  {
    var e' := TakeSingle(L, R, e);
    if e.leftUsedUp && e.rightUsedUp {
      BothUsedUpIsLossless(L, R, e);
    } else if e' == e || (!e.leftUsedUp && !e.rightUsedUp) {
      if e' != e {
        TakeSingleAccounts(L, R, e);
      }
      AccountedForIsLossless(L, R, e');
    } else if e.leftUsedUp {
      LeftMatchedAgain(L, R, e);
      hide TakeSingle, Concat, LeftRest, RightRest, SplitText, Correct, Lossless;
      OneRestEmpty(L, R, e');
      SharedTextTooLong(left, right, SplitText(L, R, e'));
    } else {
      RightMatchedAgain(L, R, e);
      hide TakeSingle, Concat, LeftRest, RightRest, SplitText, Correct, Lossless;
      OneRestEmpty(L, R, e');
      SharedTextTooLongForRight(left, right, SplitText(L, R, e'));
    }
  }

  /** Where the loop stops on the two texts. */
  function LoopEnd(left: string, right: string): Ends
    requires Segments(left) != [] && Segments(right) != []
  {
    Shrink(Segments(left), Segments(right), Start(Segments(left), Segments(right)))
  }

  /** A segment is matched a second time, and the final correction does not hide it. */
  predicate LosesText(left: string, right: string) {
    var L, R := Segments(left), Segments(right);
    L != [] && R != [] &&
    var e := LoopEnd(left, right);
    UsesSegmentTwice(L, R, e) && !(e.leftUsedUp && e.rs != e.re && left <= right)
  }

  lemma SegmentsCover(text: string)
    ensures Concat(Segments(text)) == text && NonEmpty(Segments(text))
  {
    SegmentsAreLossless(text, 0, 0, None);
    assert text[0..] == text;
    SegmentsAreShaped(text, 0, 0, None);
    ShapedIsNonEmpty(Segments(text));
  }

  /**
    The parts put together again give both texts, exactly when the loop did not use up one side alone and then let the
    code after it match that side's last segment a second time: in terms of the segments, when neither side repeats
    inside the other, or the left text is corrected to be a prefix of the right one.
  */
  lemma DiffIsLosslessExactly(left: string, right: string)
    ensures Lossless(DiffOf(left, right), left, right) <==> !LosesText(left, right)
    ensures var L, R := Segments(left), Segments(right);
            Lossless(DiffOf(left, right), left, right)
            <==> !RepeatsInside(R, L) && (RepeatsInside(L, R) ==> |R| > |L| + 1 && left <= right)
  {
    LosesTextExactly(left, right);
    LoopLosesExactly(left, right);
  }

  lemma LoopLosesExactly(left: string, right: string)
    ensures Lossless(DiffOf(left, right), left, right) <==> !LosesText(left, right)
  {
    SegmentsCover(left);
    SegmentsCover(right);
    var L, R := Segments(left), Segments(right);
    if L != [] && R != [] {
      var start := Start(L, R);
      assert L[0..|L|] == L && R[0..|R|] == R;
      assert Accounts(L, R, start);
      ShrinkAccounts(L, R, start);
      var e := LoopEnd(left, right);
      LossAfterLoop(L, R, LoopEnd(left, right), left, right);
    }
  }

  // ----- The same condition, read off the segments -----

  /** From the `j`-th segment on, both halves of `A` stand at the ends of the longer `B`. */
  predicate HalvesFrame(A: seq<Segment>, B: seq<Segment>, j: nat) {
    var k := |A| / 2;
    && |A| == 2 * k && j < k && |A| < |B|
    && forall i :: j <= i < k ==> EndsMatch(A, B, i)
  }

  /** The `i`-th segments from the front are equal, and those from the back. */
  predicate EndsMatch(A: seq<Segment>, B: seq<Segment>, i: int)
    requires 0 <= i < |A| && i < |B|
  {
    A[i] == B[i] && A[|A| - 1 - i] == B[|B| - 1 - i]
  }

  predicate LeftAlone(e: Ends) {
    e.leftUsedUp && !e.rightUsedUp
  }

  predicate RightAlone(e: Ends) {
    e.rightUsedUp && !e.leftUsedUp
  }

  /** The loop has taken off `j` segments at each of the four ends. */
  predicate After(L: seq<Segment>, R: seq<Segment>, e: Ends, j: nat) {
    && InRange(L, R, e) && !e.leftUsedUp && !e.rightUsedUp
    && e.ls == e.rs == j && e.le == |L| - 1 - j && e.re == |R| - 1 - j
  }

  /** The loop uses up one side alone exactly when the halves of that side stand at the ends of the other one. */
  lemma {:induction false} UsedUpAloneExactly(L: seq<Segment>, R: seq<Segment>, e: Ends, j: nat)
    requires After(L, R, e, j)
    ensures var e' := Shrink(L, R, e);
            && (LeftAlone(e') <==> HalvesFrame(L, R, j)) && (RightAlone(e') <==> HalvesFrame(R, L, j))
            && (LeftAlone(e') ==> e'.ls == e'.le == e'.rs == |L| / 2 && e'.re == |R| - 1 - |L| / 2)
            && (RightAlone(e') ==> e'.rs == e'.re == e'.ls == |R| / 2 && e'.le == |L| - 1 - |R| / 2)
    decreases |L| - j
  {
    if BothOpen(e) {
      assert HalvesFrame(L, R, j) ==> EndsMatch(L, R, j);
      assert HalvesFrame(R, L, j) ==> EndsMatch(R, L, j);
    }
    if !BothOpen(e) {
    } else if L[j] != R[j] {
      NoSideUsedUpFromFirst(L, R, e);
    } else if L[e.le] != R[e.re] {
      NoSideUsedUpFromLast(L, R, e);
    } else {
      var e' := TakeLast(L, R, TakeFirst(L, R, e));
      OneRoundMore(L, R, j);
      if !e'.leftUsedUp && !e'.rightUsedUp {
        UsedUpAloneExactly(L, R, e', j + 1);
      }
    }
  }

  lemma OneRoundMore(L: seq<Segment>, R: seq<Segment>, j: nat)
    requires 2 * j + 1 < |L| && 2 * j + 1 < |R|
    requires L[j] == R[j] && L[|L| - 1 - j] == R[|R| - 1 - j]
    ensures HalvesFrame(L, R, j) <==> HalvesFrame(L, R, j + 1) || (|L| == 2 * j + 2 && |L| < |R|)
    ensures HalvesFrame(R, L, j) <==> HalvesFrame(R, L, j + 1) || (|R| == 2 * j + 2 && |R| < |L|)
  {
  }

  /**
    The halves of `A` stand at the ends of `B`, and what stands between them in `B` begins with the second half's first
    segment or ends with it; a single segment between them must be a marker.
  */
  predicate RepeatsInside(A: seq<Segment>, B: seq<Segment>) {
    var k := |A| / 2;
    HalvesFrame(A, B, 0)
    && if |B| == |A| + 1 then B[k] == A[k] && B[k].kind == MARKER else B[k] == A[k] || B[|B| - 1 - k] == A[k]
  }

  /** Text is lost exactly when one side repeats inside the other, and no correction at the end hides it. */
  lemma LosesTextExactly(left: string, right: string)
    ensures var L, R := Segments(left), Segments(right);
            LosesText(left, right)
            <==> (RepeatsInside(L, R) && !(|R| > |L| + 1 && left <= right)) || RepeatsInside(R, L)
  {
    hide Segments;
    var L, R := Segments(left), Segments(right);
    if L != [] && R != [] {
      UsedUpAloneExactly(L, R, Start(L, R), 0);
      hide Shrink;
    }
  }

  lemma {:induction false} NoSideUsedUpFromLast(L: seq<Segment>, R: seq<Segment>, e: Ends)
    requires InRange(L, R, e) && !e.leftUsedUp && !e.rightUsedUp && L[e.le] != R[e.re]
    ensures var e' := Shrink(L, R, e); !e'.leftUsedUp && !e'.rightUsedUp
    decreases e.le - e.ls + e.re - e.rs
  {
    if BothOpen(e) {
      var e' := TakeLast(L, R, TakeFirst(L, R, e));
      if e' != e {
        NoSideUsedUpFromLast(L, R, e');
      }
    }
  }

  lemma {:induction false} NoSideUsedUpFromFirst(L: seq<Segment>, R: seq<Segment>, e: Ends)
    requires InRange(L, R, e) && !e.leftUsedUp && !e.rightUsedUp && L[e.ls] != R[e.rs]
    ensures var e' := Shrink(L, R, e); !e'.leftUsedUp && !e'.rightUsedUp
    decreases e.le - e.ls + e.re - e.rs
  {
    if BothOpen(e) {
      var e' := TakeLast(L, R, TakeFirst(L, R, e));
      if e' != e {
        NoSideUsedUpFromFirst(L, R, e');
      }
    }
  }

  /** Texts that differ in their first or in their last segment are never cut wrongly. */
  lemma DifferingEndsAreLossless(left: string, right: string)
    requires var L, R := Segments(left), Segments(right);
             L == [] || R == [] || L[0] != R[0] || L[|L| - 1] != R[|R| - 1]
    ensures Lossless(DiffOf(left, right), left, right)
  {
    var L, R := Segments(left), Segments(right);
    if L != [] && R != [] {
      if L[0] != R[0] {
        NoSideUsedUpFromFirst(L, R, Start(L, R));
      } else {
        NoSideUsedUpFromLast(L, R, Start(L, R));
      }
    }
    DiffIsLosslessExactly(left, right);
  }

  lemma {:induction false} MarkerIsOneSegment(text: string, i: nat, cur: nat, j: nat)
    requires i < cur <= j < |text| && text[j] == Closer(text[i])
    requires forall k :: cur <= k < j ==> text[k] != Closer(text[i])
    ensures SegmentsFrom(text, i, cur, Some(text[i]))
            == [Segment(MARKER, text[i..j + 1])] + SegmentsFrom(text, j + 1, j + 1, None)
    decreases j - cur
  {
    if cur < j {
      MarkerIsOneSegment(text, i, cur + 1, j);
    }
  }

  const TAG_A := Segment(MARKER, "<a>")

  const TAG_B := Segment(MARKER, "<b>")

  lemma SegmentsOfExample()
    ensures Segments("<a><b>") == [TAG_A, TAG_B] && Segments("<a><b><b>") == [TAG_A, TAG_B, TAG_B]
  {
    var left, right := "<a><b>", "<a><b><b>";
    MarkerIsOneSegment(left, 0, 1, 2);
    MarkerIsOneSegment(left, 3, 4, 5);
    MarkerIsOneSegment(right, 0, 1, 2);
    MarkerIsOneSegment(right, 3, 4, 5);
    MarkerIsOneSegment(right, 6, 7, 8);
    assert SegmentsFrom(left, 6, 6, None) == [] && SegmentsFrom(right, 9, 9, None) == [];
    assert left[0..3] == right[0..3] == "<a>" && left[3..6] == right[3..6] == right[6..9] == "<b>";
  }

  lemma LoopEndOfExample()
    ensures Shrink([TAG_A, TAG_B], [TAG_A, TAG_B, TAG_B], Start([TAG_A, TAG_B], [TAG_A, TAG_B, TAG_B]))
            == Ends(1, 1, 1, 1, true, false, "<a>", "<b>")
  {
    var L, R := [TAG_A, TAG_B], [TAG_A, TAG_B, TAG_B];
    assert TakeLast(L, R, TakeFirst(L, R, Start(L, R))) == Ends(1, 1, 1, 1, true, false, "<a>", "<b>");
  }

  /** A marker that ends the left text and is doubled in the right one: the second copy is lost. */
  lemma DoubledMarkerIsLost()
    ensures LosesText("<a><b>", "<a><b><b>")
    ensures !Lossless(DiffOf("<a><b>", "<a><b><b>"), "<a><b>", "<a><b><b>")
  {
    hide SegmentsFrom, Segments, Shrink, DiffOf, Lossless;
    SegmentsOfExample();
    LoopEndOfExample();
    DiffIsLosslessExactly("<a><b>", "<a><b><b>");
  }

  // ----- Nothing shared is left at the ends -----

  /** One of the parts is empty, or they begin with different characters. */
  predicate StartsDiffer(a: string, b: string) {
    a == "" || b == "" || a[0] != b[0]
  }

  predicate EndsDiffer(a: string, b: string) {
    a == "" || b == "" || a[|a| - 1] != b[|b| - 1]
  }

  lemma RestsDiffer(prefix: string, l: string, r: string, suffix: string, textFirst: bool, textLast: bool)
    ensures var d := SplitRests(prefix, l, r, suffix, textFirst, textLast);
            && (textFirst ==> StartsDiffer(d.left, d.right))
            && (textLast ==> EndsDiffer(d.left, d.right))
  {
    var n := if textLast then CommonSuffixLen(l, r) else 0;
    var l', r' := l[..|l| - n], r[..|r| - n];
    var m := if textFirst then CommonPrefixLen(l', r') else 0;
    assert SplitRests(prefix, l, r, suffix, textFirst, textLast)
        == Split(prefix + l'[..m], l'[m..], r'[m..], l[|l| - n..] + suffix);
    hide CommonSuffixLen, CommonPrefixLen, SplitRests, StartsDiffer, EndsDiffer;
    if textFirst {
      FrontsDiffer(l', r');
    }
    if textLast {
      SuffixStops(l, r);
      BacksDiffer(l, r, m, n);
    }
  }

  lemma FrontsDiffer(l: string, r: string)
    ensures var m := CommonPrefixLen(l, r); StartsDiffer(l[m..], r[m..])
  {
    hide CommonPrefixLen;
  }

  lemma BacksDiffer(l: string, r: string, m: nat, n: nat)
    requires m + n <= |l| && m + n <= |r| && (n < |l| && n < |r| ==> l[|l| - 1 - n] != r[|r| - 1 - n])
    ensures EndsDiffer(l[..|l| - n][m..], r[..|r| - n][m..])
  {
    LastOfRest(l, m, n);
    LastOfRest(r, m, n);
  }

  lemma SuffixStops(l: string, r: string)
    ensures var n := CommonSuffixLen(l, r); n < |l| && n < |r| ==> l[|l| - 1 - n] != r[|r| - 1 - n]
  {
    hide CommonSuffixLen;
    CommonSuffixIsLongest(l, r);
  }

  lemma LastOfRest(t: string, m: nat, n: nat)
    requires m + n <= |t|
    ensures var a := t[..|t| - n][m..]; |a| == |t| - n - m && (a != "" ==> a[|a| - 1] == t[|t| - 1 - n])
  {
  }

  lemma CorrectKeepsDiffering(left: string, right: string, d: Split)
    ensures StartsDiffer(d.left, d.right) ==>
              StartsDiffer(Correct(left, right, d).left, Correct(left, right, d).right)
    ensures EndsDiffer(d.left, d.right) ==> EndsDiffer(Correct(left, right, d).left, Correct(left, right, d).right)
  {
  }

  /** Where the comparison of segments stops. */
  function EndsOf(left: string, right: string): Ends
    requires Segments(left) != [] && Segments(right) != []
  {
    TakeSingle(Segments(left), Segments(right), LoopEnd(left, right))
  }

  /**
    Where plain text stands at the front of both remainders, the parts of the answer do not begin with the same
    character; and so at the end.
  */
  lemma PartsShareNoEnds(left: string, right: string)
    requires Segments(left) != [] && Segments(right) != []
    ensures var L, R, e, d := Segments(left), Segments(right), EndsOf(left, right), DiffOf(left, right);
            && (L[e.ls].kind == TEXT && R[e.rs].kind == TEXT ==> StartsDiffer(d.left, d.right))
            && (L[e.le].kind == TEXT && R[e.re].kind == TEXT ==> EndsDiffer(d.left, d.right))
  {
    var L, R, e := Segments(left), Segments(right), EndsOf(left, right);
    RestsDiffer(e.prefix, LeftRest(L, R, e), RightRest(L, R, e), e.suffix,
                R[e.rs].kind == TEXT && L[e.ls].kind == TEXT, L[e.le].kind == TEXT && R[e.re].kind == TEXT);
    hide Segments, Shrink, TakeSingle, SplitRests, Correct;
    CorrectKeepsDiffering(left, right, SplitText(L, R, e));
  }

  predicate HasNoOpener(text: string) {
    forall i :: 0 <= i < |text| ==> text[i] != '<' && text[i] != '['
  }

  lemma {:induction false} PlainIsOneSegment(text: string, cur: nat)
    requires HasNoOpener(text) && cur <= |text| && text != ""
    ensures SegmentsFrom(text, 0, cur, None) == [Segment(TEXT, text)]
    decreases |text| - cur
  {
    if cur < |text| {
      PlainIsOneSegment(text, cur + 1);
    } else {
      assert text[0..] == text;
    }
  }

  /**
    Texts without markers: what they share at the front and at the back is all there is to share, and the parts between
    have no first and no last character in common, unless one of them is empty.
  */
  lemma PlainTextsAreSplit(left: string, right: string)
    requires HasNoOpener(left) && HasNoOpener(right)
    ensures var d := DiffOf(left, right);
            && d.prefix + d.left + d.suffix == left && d.prefix + d.right + d.suffix == right
            && StartsDiffer(d.left, d.right) && EndsDiffer(d.left, d.right)
  {
    if left != "" && right != "" {
      PlainIsOneSegment(left, 0);
      PlainIsOneSegment(right, 0);
      var L, R := [Segment(TEXT, left)], [Segment(TEXT, right)];
      assert LoopEnd(left, right) == Start(L, R) == EndsOf(left, right);
      PartsShareNoEnds(left, right);
      assert !LosesText(left, right);
    }
    DiffIsLosslessExactly(left, right);
  }

  // ----- The segments taken off are the equal ones -----

  /** How many segments are taken off at the back. */
  function TakenLast(segs: seq<Segment>, last: nat, usedUp: bool): int {
    |segs| - 1 - last + (if usedUp then 1 else 0)
  }

  /** `e` has taken off equal segments, as many at the front of one side as of the other, and as many at the back. */
  predicate TookEqual(L: seq<Segment>, R: seq<Segment>, e: Ends) {
    var j := TakenLast(L, e.le, e.leftUsedUp);
    && InRange(L, R, e) && e.ls == e.rs && j == TakenLast(R, e.re, e.rightUsedUp) && 0 <= j <= |L| && j <= |R|
    && L[..e.ls] == R[..e.rs] && e.prefix == Concat(L[..e.ls])
    && L[|L| - j..] == R[|R| - j..] && e.suffix == Concat(L[|L| - j..])
  }

  lemma FirstTakesEqual(L: seq<Segment>, R: seq<Segment>, e: Ends)
    requires TookEqual(L, R, e) && BothOpen(e)
    ensures TookEqual(L, R, TakeFirst(L, R, e))
  {
    if L[e.ls] == R[e.rs] {
      ConcatLast(L, e.ls);
      assert L[..e.ls + 1] == L[..e.ls] + [L[e.ls]] && R[..e.rs + 1] == R[..e.rs] + [R[e.rs]];
    }
  }

  lemma ConcatLast(segs: seq<Segment>, i: nat)
    requires i < |segs|
    ensures Concat(segs[..i + 1]) == Concat(segs[..i]) + segs[i].value
  {
    assert segs[..i + 1] == segs[..i] + [segs[i]];
    ConcatConcat(segs[..i], [segs[i]]);
    assert [segs[i]][1..] == [];
  }

  lemma LastTakesEqual(L: seq<Segment>, R: seq<Segment>, e: Ends)
    requires TookEqual(L, R, e) && !e.leftUsedUp && !e.rightUsedUp
    ensures TookEqual(L, R, TakeLast(L, R, e))
  {
    if L[e.le] == R[e.re] {
      assert L[e.le..] == [L[e.le]] + L[e.le + 1..] && R[e.re..] == [R[e.re]] + R[e.re + 1..];
      hide Concat;
      assert Concat(L[e.le..]) == L[e.le].value + Concat(L[e.le + 1..]) by { ConcatFirst(L, e.le); }
    }
  }

  lemma ConcatFirst(segs: seq<Segment>, i: nat)
    requires i < |segs|
    ensures Concat(segs[i..]) == segs[i].value + Concat(segs[i + 1..])
  {
    assert segs[i..][0] == segs[i] && segs[i..][1..] == segs[i + 1..];
  }

  /** The loop takes off equal segments, and goes on until a side is down to one or neither end matches. */
  lemma {:induction false} LoopTakesAllEqual(L: seq<Segment>, R: seq<Segment>, e: Ends)
    requires TookEqual(L, R, e) && !e.leftUsedUp && !e.rightUsedUp
    ensures var e' := Shrink(L, R, e);
            && TookEqual(L, R, e')
            && (BothOpen(e') ==> L[e'.ls] != R[e'.rs] && L[e'.le] != R[e'.re])
    decreases e.le - e.ls + e.re - e.rs
  {
    if BothOpen(e) {
      FirstTakesEqual(L, R, e);
      LastTakesEqual(L, R, TakeFirst(L, R, e));
      hide TookEqual;
      var e' := TakeLast(L, R, TakeFirst(L, R, e));
      if e' != e && !e'.leftUsedUp && !e'.rightUsedUp {
        LoopTakesAllEqual(L, R, e');
      }
    }
  }

  /** For the two texts: what the loop has taken off, and that no equal segments are left at the ends. */
  lemma EqualSegmentsAreTaken(left: string, right: string)
    requires Segments(left) != [] && Segments(right) != []
    ensures var L, R, e := Segments(left), Segments(right), LoopEnd(left, right);
            && TookEqual(L, R, e)
            && (BothOpen(e) ==> L[e.ls] != R[e.rs] && L[e.le] != R[e.re])
  {
    var L, R := Segments(left), Segments(right);
    assert L[..0] == [] == R[..0] && L[|L|..] == [] == R[|R|..];
    assert TookEqual(L, R, Start(L, R));
    LoopTakesAllEqual(L, R, Start(L, R));
  }

  /** A segment left alone on one side is then taken off as well, if it equals the last or the first of the others. */
  lemma SingleIsTaken(L: seq<Segment>, R: seq<Segment>, e: Ends)
    requires InRange(L, R, e) && !e.leftUsedUp && !e.rightUsedUp
    ensures var e' := TakeSingle(L, R, e);
            && (e.ls == e.le && e.rs < e.re ==>
                  && (e'.leftUsedUp <==> L[e.ls] == R[e.re] || L[e.ls] == R[e.rs])
                  && (L[e.ls] == R[e.re] ==> e'.suffix == R[e.re].value + e.suffix && e'.re == e.re - 1)
                  && (L[e.ls] != R[e.re] && L[e.ls] == R[e.rs] ==>
                        e'.prefix == e.prefix + R[e.rs].value && e'.rs == e.rs + 1))
            && (e.rs == e.re && e.ls < e.le ==>
                  && (e'.rightUsedUp <==> L[e.le] == R[e.rs] || L[e.ls] == R[e.rs])
                  && (L[e.le] == R[e.rs] ==> e'.suffix == L[e.le].value + e.suffix && e'.le == e.le - 1)
                  && (L[e.le] != R[e.rs] && L[e.ls] == R[e.rs] ==>
                        e'.prefix == e.prefix + L[e.ls].value && e'.ls == e.ls + 1))
            && (e.ls == e.le && e.rs == e.re ==>
                  (e'.leftUsedUp && e'.rightUsedUp && e'.prefix == e.prefix + L[e.ls].value
                   <==> L[e.ls] == R[e.rs] && L[e.ls].kind == MARKER))
            && (BothOpen(e) ==> e' == e)
  {
  }

  /** Plain text is not cut up: two texts stand side by side only if the second is a marker that is never closed. */
  predicate TextsAreWhole(segs: seq<Segment>) {
    forall i :: 0 < i < |segs| && segs[i - 1].kind == TEXT && segs[i].kind == TEXT ==>
      i == |segs| - 1 && segs[i].value != "" && IsOpener(segs[i].value[0])
  }

  predicate IsUnclosed(segs: seq<Segment>) {
    |segs| == 1 && segs[0].value != "" && IsOpener(segs[0].value[0])
  }

  lemma PutInFront(s: Segment, rest: seq<Segment>)
    requires TextsAreWhole(rest)
    requires s.kind == TEXT && rest != [] && rest[0].kind == TEXT ==> IsUnclosed(rest)
    ensures TextsAreWhole([s] + rest)
  {
    var segs := [s] + rest;
    forall i | 0 < i < |segs| && segs[i - 1].kind == TEXT && segs[i].kind == TEXT
      ensures i == |segs| - 1 && segs[i].value != "" && IsOpener(segs[i].value[0])
    {
      assert segs[i] == rest[i - 1];
      if i > 1 {
        assert segs[i - 1] == rest[i - 2];
      }
    }
  }

  lemma {:induction false} SegmentsAreWhole(text: string, border: nat, cur: nat, opener: Option<char>)
    requires Scanned(text, border, cur, opener)
    ensures var segs := SegmentsFrom(text, border, cur, opener);
            TextsAreWhole(segs) && (opener.Some? && segs != [] && segs[0].kind == TEXT ==> IsUnclosed(segs))
    decreases |text| - cur
  {
    hide TextsAreWhole;
    if cur == |text| {
      AtMostOneIsWhole(SegmentsFrom(text, border, cur, opener));
    } else if opener.None? && IsOpener(text[cur]) {
      var rest := SegmentsFrom(text, cur, cur + 1, Some(text[cur]));
      SegmentsAreWhole(text, cur, cur + 1, Some(text[cur]));
      PutInFront(Segment(TEXT, text[border..cur]), rest);
      assert [] + rest == rest;
    } else if opener.Some? && text[cur] == Closer(opener.value) {
      SegmentsAreWhole(text, cur + 1, cur + 1, None);
      PutInFront(Segment(MARKER, text[border..cur + 1]), SegmentsFrom(text, cur + 1, cur + 1, None));
    } else {
      SegmentsAreWhole(text, border, cur + 1, opener);
    }
  }

  lemma AtMostOneIsWhole(segs: seq<Segment>)
    requires |segs| <= 1
    ensures TextsAreWhole(segs)
  {
  }
}
