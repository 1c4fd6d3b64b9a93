/**
  The UTF-8 helpers of the console line editor (section 3 of RFC 3629), with masks and shifts written as division
  and remainder.
*/
module Utf8 {
  import opened Basics

  type CodePoint = c: int | 0 <= c <= 0x10FFFF

  const REPLACEMENT: CodePoint := 0xFFFD

  /** `append_utf8` of a code point up to 0x10FFFF. */
  function EncodeOne(c: CodePoint): (bytes: seq<byte>)
    ensures 1 <= |bytes| <= 4
  {
    if c <= 0x7F then [c]
    else if c <= 0x7FF then [0xC0 + c / 64 % 32, 0x80 + c % 64]
    else if c <= 0xFFFF then [0xE0 + c / 4096 % 16, 0x80 + c / 64 % 64, 0x80 + c % 64]
    else [0xF0 + c / 262144 % 8, 0x80 + c / 4096 % 64, 0x80 + c / 64 % 64, 0x80 + c % 64]
  }

  function Encode(cps: seq<CodePoint>): seq<byte> {
    if cps == [] then [] else Encode(cps[..|cps| - 1]) + EncodeOne(cps[|cps| - 1])
  }

  predicate IsContinuation(b: byte) {
    b / 64 == 2
  }

  /** `decode_utf8`: the code point at `pos` and how far to advance. */
  function DecodeOne(input: seq<byte>, pos: nat): (r: (nat, nat))
    requires pos < |input|
    ensures 1 <= r.1 <= 4 && pos + r.1 <= |input|
  {
    var c: int := input[pos];
    var c1: int := if pos + 1 < |input| then input[pos + 1] else 0;
    var c2: int := if pos + 2 < |input| then input[pos + 2] else 0;
    var c3: int := if pos + 3 < |input| then input[pos + 3] else 0;
    if c < 0x80 then (c, 1)
    else if c / 32 == 6 && pos + 1 < |input| then
      if !IsContinuation(c1) then (REPLACEMENT, 1) else (Join2(c, c1), 2)
    else if c / 16 == 14 && pos + 2 < |input| then
      if !IsContinuation(c1) || !IsContinuation(c2) then (REPLACEMENT, 1) else (Join3(c, c1, c2), 3)
    else if c / 8 == 30 && pos + 3 < |input| then
      if !IsContinuation(c1) || !IsContinuation(c2) || !IsContinuation(c3) then (REPLACEMENT, 1)
      else (Join4(c, c1, c2, c3), 4)
    else (REPLACEMENT, 1)
  }

  function Join2(c: int, c1: int): nat {
    c % 32 * 64 + c1 % 64
  }

  function Join3(c: int, c1: int, c2: int): nat {
    c % 16 * 4096 + c1 % 64 * 64 + c2 % 64
  }

  function Join4(c: int, c1: int, c2: int, c3: int): nat {
    c % 8 * 262144 + c1 % 64 * 4096 + c2 % 64 * 64 + c3 % 64
  }

  /** All code points of a line, read as the editor reads it. */
  function Decode(line: seq<byte>, pos: nat): seq<nat>
    requires pos <= |line|
    decreases |line| - pos
  {
    if pos == |line| then []
    else [DecodeOne(line, pos).0] + Decode(line, pos + DecodeOne(line, pos).1)
  }

  lemma JoinsInvertSplits(c: CodePoint)
    ensures var e := EncodeOne(c);
            && (|e| == 1 ==> e[0] == c)
            && (|e| == 2 ==> e[0] / 32 == 6 && Join2(e[0], e[1]) == c)
            && (|e| == 3 ==> e[0] / 16 == 14 && Join3(e[0], e[1], e[2]) == c)
            && (|e| == 4 ==> e[0] / 8 == 30 && Join4(e[0], e[1], e[2], e[3]) == c)
  {
    if 0x7F < c <= 0x7FF {
      SplitInTwo(c);
    } else if 0x7FF < c <= 0xFFFF {
      SplitInThree(c);
    } else if c > 0xFFFF {
      SplitInFour(c);
    }
  }

  /** The payload of a continuation byte. */
  lemma Payload(x: int)
    requires 0 <= x < 64
    ensures (0x80 + x) % 64 == x
  {
  }

  lemma SplitInTwo(c: int)
    requires 0x7F < c <= 0x7FF
    ensures (0xC0 + c / 64 % 32) / 32 == 6 && Join2(0xC0 + c / 64 % 32, 0x80 + c % 64) == c
  {
    var x := c / 64;
    assert 0 <= x < 32 && c == x * 64 + c % 64;
    assert x % 32 == x && (0xC0 + x) % 32 == x && (0xC0 + x) / 32 == 6;
    Payload(c % 64);
  }

  lemma SplitInThree(c: int)
    requires 0x7FF < c <= 0xFFFF
    ensures (0xE0 + c / 4096 % 16) / 16 == 14
    ensures Join3(0xE0 + c / 4096 % 16, 0x80 + c / 64 % 64, 0x80 + c % 64) == c
  {
    var x, y := c / 4096, c / 64;
    assert c == y * 64 + c % 64;
    assert y / 64 == x && y == x * 64 + y % 64;
    assert 0 <= x < 16 && x % 16 == x && (0xE0 + x) % 16 == x && (0xE0 + x) / 16 == 14;
    Payload(y % 64);
    Payload(c % 64);
  }

  lemma SplitInFour(c: int)
    requires 0xFFFF < c <= 0x10FFFF
    ensures (0xF0 + c / 262144 % 8) / 8 == 30
    ensures Join4(0xF0 + c / 262144 % 8, 0x80 + c / 4096 % 64, 0x80 + c / 64 % 64, 0x80 + c % 64) == c
  {
    var w, x, y := c / 262144, c / 4096, c / 64;
    assert c == y * 64 + c % 64;
    assert y / 64 == x && y == x * 64 + y % 64;
    assert x / 64 == w && x == w * 64 + x % 64;
    assert 0 <= w < 8 && w % 8 == w && (0xF0 + w) % 8 == w && (0xF0 + w) / 8 == 30;
    Payload(x % 64);
    Payload(y % 64);
    Payload(c % 64);
  }

  lemma EncodedOneDecodes(c: CodePoint, before: seq<byte>, after: seq<byte>)
    ensures DecodeOne(before + EncodeOne(c) + after, |before|) == (c, |EncodeOne(c)|)
  {
    var e := EncodeOne(c);
    var line := before + e + after;
    JoinsInvertSplits(c);
    EncodedOneShape(c);
    assert |e| == 1 <==> c <= 0x7F;
    hide EncodeOne, Join2, Join3, Join4;
    assert forall i :: 0 <= i < |e| ==> line[|before| + i] == e[i];
    assert line[|before|] == e[0];
    if |e| > 1 {
      assert line[|before| + 1] == e[1];
    }
    if |e| > 2 {
      assert line[|before| + 2] == e[2];
    }
    if |e| > 3 {
      assert line[|before| + 3] == e[3];
    }
  }

  /** The first byte of a code point is no continuation byte, and the others are. */
  lemma EncodedOneShape(c: CodePoint)
    ensures !IsContinuation(EncodeOne(c)[0])
    ensures forall i :: 1 <= i < |EncodeOne(c)| ==> IsContinuation(EncodeOne(c)[i])
  {
  }

  lemma {:induction false} EncodeConcat(a: seq<CodePoint>, b: seq<CodePoint>)
    ensures Encode(a + b) == Encode(a) + Encode(b)
    decreases |b|
  {
    hide EncodeOne;
    if b == [] {
      assert a + b == a;
    } else {
      assert (a + b)[..|a + b| - 1] == a + b[..|b| - 1];
      EncodeConcat(a, b[..|b| - 1]);
      Associate(Encode(a), Encode(b[..|b| - 1]), EncodeOne(b[|b| - 1]));
    }
  }

  lemma EncodeSingle(c: CodePoint)
    ensures Encode([c]) == EncodeOne(c)
  {
    assert [c][..0] == [];
  }

  lemma OnlyEmptyEncodesEmpty(cps: seq<CodePoint>)
    ensures Encode(cps) == [] <==> cps == []
  {
  }

  /** A line ends in an ASCII byte exactly when its last code point is that character. */
  lemma LastByte(cps: seq<CodePoint>, c: CodePoint)
    requires cps != [] && c <= 0x7F
    ensures Encode(cps) != []
    ensures Encode(cps)[|Encode(cps)| - 1] == c <==> cps[|cps| - 1] == c
    ensures cps[|cps| - 1] == c ==> Encode(cps)[..|Encode(cps)| - 1] == Encode(cps[..|cps| - 1])
  {
    var e := EncodeOne(cps[|cps| - 1]);
    assert Encode(cps)[|Encode(cps)| - 1] == e[|e| - 1];
  }

  /** Where the `k`-th code point of an encoded line starts. */
  function Offset(cps: seq<CodePoint>, k: nat): nat
    requires k <= |cps|
  {
    |Encode(cps[..k])|
  }

  /** An encoded line around its `k`-th code point. */
  lemma EncodeAround(cps: seq<CodePoint>, k: nat)
    requires k < |cps|
    ensures Encode(cps) == Encode(cps[..k]) + EncodeOne(cps[k]) + Encode(cps[k + 1..])
    ensures Offset(cps, k + 1) == Offset(cps, k) + |EncodeOne(cps[k])| <= |Encode(cps)|
  {
    assert cps == cps[..k + 1] + cps[k + 1..];
    EncodeConcat(cps[..k + 1], cps[k + 1..]);
    assert cps[..k + 1][..k] == cps[..k];
  }

  lemma EncodeAt(cps: seq<CodePoint>, k: nat)
    requires k <= |cps|
    ensures Encode(cps) == Encode(cps[..k]) + Encode(cps[k..])
    ensures Offset(cps, k) <= |Encode(cps)|
  {
    assert cps == cps[..k] + cps[k..];
    EncodeConcat(cps[..k], cps[k..]);
  }

  /** The first byte at a code point's start is no continuation byte; neither is anything at the end of the line. */
  lemma StartsAreNoContinuations(cps: seq<CodePoint>, k: nat)
    requires k <= |cps|
    ensures Offset(cps, k) <= |Encode(cps)|
    ensures k < |cps| <==> Offset(cps, k) < |Encode(cps)|
    ensures k < |cps| ==> !IsContinuation(Encode(cps)[Offset(cps, k)])
  {
    EncodeAt(cps, k);
    if k < |cps| {
      EncodeAround(cps, k);
      EncodedOneShape(cps[k]);
    } else {
      assert cps[..k] == cps;
    }
  }

  lemma InnerBytesAreContinuations(cps: seq<CodePoint>, k: nat, i: nat)
    requires k < |cps| && Offset(cps, k) < i < Offset(cps, k + 1)
    ensures i < |Encode(cps)| && IsContinuation(Encode(cps)[i])
  {
    EncodeAround(cps, k);
    EncodedOneShape(cps[k]);
    assert Encode(cps)[i] == EncodeOne(cps[k])[i - Offset(cps, k)];
  }

  lemma DecodesAt(cps: seq<CodePoint>, k: nat)
    requires k < |cps|
    ensures Offset(cps, k) < |Encode(cps)|
    ensures DecodeOne(Encode(cps), Offset(cps, k)) == (cps[k], Offset(cps, k + 1) - Offset(cps, k))
  {
    EncodeAround(cps, k);
    EncodedOneDecodes(cps[k], Encode(cps[..k]), Encode(cps[k + 1..]));
  }

  /** Decoding inverts encoding. */
  lemma {:induction false} DecodeInvertsEncode(cps: seq<CodePoint>, k: nat)
    requires k <= |cps|
    ensures Offset(cps, k) <= |Encode(cps)| && Decode(Encode(cps), Offset(cps, k)) == cps[k..]
    decreases |cps| - k
  {
    hide Encode, DecodeOne, EncodeOne;
    StartsAreNoContinuations(cps, k);
    if k < |cps| {
      DecodesAt(cps, k);
      DecodeInvertsEncode(cps, k + 1);
    }
  }

  lemma EncodeIsInjective(a: seq<CodePoint>, b: seq<CodePoint>)
    requires Encode(a) == Encode(b)
    ensures a == b
  {
    DecodeInvertsEncode(a, 0);
    DecodeInvertsEncode(b, 0);
    assert a[..0] == [] && b[..0] == [] && a[0..] == a && b[0..] == b;
  }

  ghost predicate IsWellFormed(line: seq<byte>) {
    exists cps: seq<CodePoint> :: line == Encode(cps)
  }

  /** The code points of a well-formed line. */
  ghost function Chars(line: seq<byte>): (cps: seq<CodePoint>)
    requires IsWellFormed(line)
    ensures line == Encode(cps)
  {
    var cps: seq<CodePoint> :| line == Encode(cps); cps
  }

  lemma CharsOfEncoded(cps: seq<CodePoint>)
    ensures IsWellFormed(Encode(cps)) && Chars(Encode(cps)) == cps
  {
    EncodeIsInjective(Chars(Encode(cps)), cps);
  }

  /** The first byte of a code point tells how many bytes it has. */
  lemma LeadByteTellsLength(c: CodePoint, d: CodePoint)
    requires EncodeOne(c)[0] == EncodeOne(d)[0]
    ensures |EncodeOne(c)| == |EncodeOne(d)|
  {
    JoinsInvertSplits(c);
    JoinsInvertSplits(d);
    SingleBytes(c);
    SingleBytes(d);
    hide EncodeOne, Join2, Join3, Join4;
  }

  lemma SingleBytes(c: CodePoint)
    ensures |EncodeOne(c)| == 1 <==> c <= 0x7F
  {
  }

  /** A line that ends in only the first bytes of a code point is not well-formed. */
  lemma TruncatedIsMalformed(cps: seq<CodePoint>, c: CodePoint, n: nat)
    requires 0 < n < |EncodeOne(c)|
    ensures !IsWellFormed(Encode(cps) + EncodeOne(c)[..n])
  {
    var line := Encode(cps) + EncodeOne(c)[..n];
    if IsWellFormed(line) {
      var d := Chars(line);
      OnlyEmptyEncodesEmpty(d);
      var k := |d| - 1;
      assert line == Encode(d[..k]) + EncodeOne(d[k]);
      EncodedOneShape(c);
      EncodedOneShape(d[k]);
      hide Encode, EncodeOne;
      SameLastStart(Encode(cps), EncodeOne(c)[..n], Encode(d[..k]), EncodeOne(d[k]));
      LeadByteTellsLength(c, d[k]);
      assert false;
    }
  }

  /** The last byte that is no continuation byte is where the last code point starts. */
  lemma SameLastStart(a: seq<byte>, e: seq<byte>, b: seq<byte>, f: seq<byte>)
    requires a + e == b + f && e != [] && f != []
    requires !IsContinuation(e[0]) && forall i :: 1 <= i < |e| ==> IsContinuation(e[i])
    requires !IsContinuation(f[0]) && forall i :: 1 <= i < |f| ==> IsContinuation(f[i])
    ensures e == f
  {
    hide IsContinuation;
    if |a| < |b| {
      LaterStart(a, e, b, f);
    } else if |b| < |a| {
      LaterStart(b, f, a, e);
    } else {
      assert e == (a + e)[|a|..] && f == (b + f)[|b|..];
    }
  }

  lemma LaterStart(a: seq<byte>, e: seq<byte>, b: seq<byte>, f: seq<byte>)
    requires a + e == b + f && f != [] && |a| < |b|
    ensures |b| - |a| < |e| && e[|b| - |a|] == f[0]
  {
    assert (a + e)[|b|] == e[|b| - |a|] && (b + f)[|b|] == f[0];
  }

  lemma EncodeOneMore(cps: seq<CodePoint>, b: CodePoint)
    requires b <= 0x7F
    ensures Encode(cps + [b]) == Encode(cps) + [b]
  {
    EncodeConcat(cps, [b]);
    EncodeSingle(b);
    hide Encode;
  }

  lemma EncodeOneLess(cps: seq<CodePoint>, line: seq<byte>, b: byte)
    requires b <= 0x7F && Encode(cps) == line + [b]
    ensures cps != [] && Encode(cps[..|cps| - 1]) == line
  {
    OnlyEmptyEncodesEmpty(cps);
    LastByte(cps, b);
    hide Encode;
    assert line == (line + [b])[..|line|];
  }

  /** A character of one byte at the end does not matter. */
  lemma WellFormedWithout(line: seq<byte>, b: byte)
    requires b <= 0x7F
    ensures IsWellFormed(line + [b]) <==> IsWellFormed(line)
    ensures IsWellFormed(line) ==> Chars(line + [b]) == Chars(line) + [b]
  {
    hide Encode, Chars;
    if IsWellFormed(line + [b]) {
      EncodeOneLess(Chars(line + [b]), line, b);
    }
    if IsWellFormed(line) {
      EncodeOneMore(Chars(line), b);
      CharsOfEncoded(Chars(line) + [b]);
    }
  }

  lemma FirstOffset(cps: seq<CodePoint>)
    ensures Offset(cps, 0) == 0
  {
    assert cps[..0] == [];
  }

  /** `prev_utf8_char_pos`, which finds the start of the code point before the one at `pos`. */
  method PrevCharPos(line: seq<byte>, pos: nat, ghost cps: seq<CodePoint>, ghost k: nat) returns (r: nat)
    requires line == Encode(cps) && k <= |cps| && pos == Offset(cps, k)
    ensures r == if k == 0 then 0 else Offset(cps, k - 1)
  {
    hide Encode, EncodeOne, Offset, IsContinuation;
    FirstOffset(cps);
    if k > 0 {
      EncodeAround(cps, k - 1);
    }
    if pos == 0 {
      return 0;
    }
    StartsAreNoContinuations(cps, k - 1);
    StartsAreNoContinuations(cps, k);
    r := pos - 1;
    while r > 0 && IsContinuation(line[r])
      invariant Offset(cps, k - 1) <= r < pos
    {
      r := r - 1;
    }
    if r > Offset(cps, k - 1) {
      InnerBytesAreContinuations(cps, k - 1, r);
    }
  }

  /** `next_utf8_char_pos`, which finds the start of the code point after the one at `pos`. */
  method NextCharPos(line: seq<byte>, pos: nat, ghost cps: seq<CodePoint>, ghost k: nat) returns (r: nat)
    requires line == Encode(cps) && k <= |cps| && pos == Offset(cps, k)
    ensures r == if k == |cps| then |line| else Offset(cps, k + 1)
  {
    StartsAreNoContinuations(cps, k);
    if pos >= |line| {
      return |line|;
    }
    EncodeAround(cps, k);
    StartsAreNoContinuations(cps, k + 1);
    r := pos + 1;
    while r < |line| && IsContinuation(line[r])
      invariant pos < r <= Offset(cps, k + 1)
    {
      r := r + 1;
    }
    if r < Offset(cps, k + 1) {
      InnerBytesAreContinuations(cps, k, r);
    }
  }

  // ----- Known encodings -----

  /** One code point of each size (section 7 of RFC 3629 has the first three in its examples). */
  lemma KnownEncodings()
    ensures EncodeOne(0x41) == [0x41] && EncodeOne(0x391) == [0xCE, 0x91]
    ensures EncodeOne(0xD55C) == [0xED, 0x95, 0x9C] && EncodeOne(0x233B4) == [0xF0, 0xA3, 0x8E, 0xB4]
  {
  }

  /** A byte that begins no code point, and one that the end of the line cuts off, are replaced one by one. */
  lemma MalformedIsReplaced(line: seq<byte>, pos: nat)
    requires pos < |line|
    ensures 0x80 <= line[pos] < 0xC0 || line[pos] >= 0xF8 ==> DecodeOne(line, pos) == (0xFFFD, 1)
    ensures pos == |line| - 1 && line[pos] >= 0x80 ==> DecodeOne(line, pos) == (0xFFFD, 1)
    ensures line[pos] < 0x80 ==> DecodeOne(line, pos) == (line[pos], 1)
  {
  }
}
