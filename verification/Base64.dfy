/**
  The base64 codec (sections 4 and 5 of RFC 4648): `encode`, `decode`, decoding in place and the two size formulas.
  A character is its code, so that the buffer of an in-place decoding can hold both the text and the bytes.
*/
module Base64 {
  import opened Wrappers
  import opened Basics

  type digit = x: int | 0 <= x < 64

  datatype Alphabet = Auto | Standard | UrlFilenameSafe

  datatype Behavior = Moderate | Loose

  const PAD: byte := 61

  const INVALID := "invalid base64 character."

  // ----- Encoding -----

  function Symbol(alphabet: Alphabet, v: digit): (c: byte)
    ensures c != PAD
  {
    if v < 26 then 'A' as int + v
    else if v < 52 then 'a' as int + (v - 26)
    else if v < 62 then '0' as int + (v - 52)
    else if v == 62 then (if alphabet == UrlFilenameSafe then '-' as int else '+' as int)
    else (if alphabet == UrlFilenameSafe then '_' as int else '/' as int)
  }

  // The four digits of three bytes; shifts and masks as divisions and remainders.

  function First(a: byte): digit {
    a / 4
  }

  function Second(a: byte, b: byte): digit {
    a % 4 * 16 + b / 16
  }

  function Third(b: byte, c: byte): digit {
    b % 16 * 4 + c / 64
  }

  function Fourth(c: byte): digit {
    c % 64
  }

  /** One to three bytes make four characters; what is missing counts as zero bits and is padded. */
  function EncodedGroup(s: seq<byte>, alphabet: Alphabet): (t: seq<byte>)
    requires 1 <= |s| <= 3
    ensures |t| == 4
  {
    var b := if |s| < 2 then 0 else s[1];
    var c := if |s| < 3 then 0 else s[2];
    [Symbol(alphabet, First(s[0])), Symbol(alphabet, Second(s[0], b)),
     if |s| < 2 then PAD else Symbol(alphabet, Third(b, c)),
     if |s| < 3 then PAD else Symbol(alphabet, Fourth(c))]
  }

  function Encoded(s: seq<byte>, alphabet: Alphabet): seq<byte> {
    if s == [] then []
    else if |s| <= 3 then EncodedGroup(s, alphabet)
    else EncodedGroup(s[..3], alphabet) + Encoded(s[3..], alphabet)
  }

  function RequiredEncodeSize(size: nat): nat {
    (size / 3 + if size % 3 != 0 then 1 else 0) * 4
  }

  function MaxDecodeSize(size: nat): nat {
    (size / 4 + if size % 4 != 0 then 1 else 0) * 3
  }

  method Encode(s: seq<byte>, alphabet: Alphabet) returns (out: seq<byte>)
    ensures out == Encoded(s, alphabet)
  {
    out := [];
    var i := 0;
    while i != |s|
      invariant i <= |s|
      invariant out + Encoded(s[i..], alphabet) == Encoded(s, alphabet)
    {
      FirstGroup(s, i, alphabet);
      hide Encoded, Symbol, First, Second, Third, Fourth;
      ghost var was := out;
      var i0 := s[i];
      i := i + 1;
      out := out + [Symbol(alphabet, First(i0))];
      if i == |s| {
        out := out + [Symbol(alphabet, Second(i0, 0))];
        out := out + [PAD];
        out := out + [PAD];
        Four(was, Symbol(alphabet, First(i0)), Symbol(alphabet, Second(i0, 0)), PAD, PAD);
        return;
      }
      var i1 := s[i];
      i := i + 1;
      out := out + [Symbol(alphabet, Second(i0, i1))];
      if i == |s| {
        out := out + [Symbol(alphabet, Third(i1, 0))];
        out := out + [PAD];
        Four(was, Symbol(alphabet, First(i0)), Symbol(alphabet, Second(i0, i1)), Symbol(alphabet, Third(i1, 0)), PAD);
        return;
      }
      var i2 := s[i];
      i := i + 1;
      out := out + [Symbol(alphabet, Third(i1, i2))];
      out := out + [Symbol(alphabet, Fourth(i2))];
      Four(was, Symbol(alphabet, First(i0)), Symbol(alphabet, Second(i0, i1)),
           Symbol(alphabet, Third(i1, i2)), Symbol(alphabet, Fourth(i2)));
      Associate(was, [Symbol(alphabet, First(i0)), Symbol(alphabet, Second(i0, i1)),
                    Symbol(alphabet, Third(i1, i2)), Symbol(alphabet, Fourth(i2))], Encoded(s[i..], alphabet));
    }
  }

  lemma Four(was: seq<byte>, a: byte, b: byte, c: byte, d: byte)
    ensures was + [a] + [b] + [c] + [d] == was + [a, b, c, d]
  {
  }

  lemma FirstGroup(s: seq<byte>, i: nat, alphabet: Alphabet)
    requires i < |s|
    ensures |s| - i == 1 ==> Encoded(s[i..], alphabet)
                             == [Symbol(alphabet, First(s[i])), Symbol(alphabet, Second(s[i], 0)), PAD, PAD]
    ensures |s| - i == 2 ==> Encoded(s[i..], alphabet)
                             == [Symbol(alphabet, First(s[i])), Symbol(alphabet, Second(s[i], s[i + 1])),
                                 Symbol(alphabet, Third(s[i + 1], 0)), PAD]
    ensures |s| - i >= 3 ==> Encoded(s[i..], alphabet)
                             == [Symbol(alphabet, First(s[i])), Symbol(alphabet, Second(s[i], s[i + 1])),
                                 Symbol(alphabet, Third(s[i + 1], s[i + 2])), Symbol(alphabet, Fourth(s[i + 2]))]
                                + Encoded(s[i + 3..], alphabet)
  {
    var rest := s[i..];
    hide Symbol, First, Second, Third, Fourth;
    if |rest| == 3 {
      assert rest[3..] == [] == s[i + 3..];
    } else if |rest| > 3 {
      assert rest[3..] == s[i + 3..];
    }
  }

  // ----- Decoding -----

  /** The value of a character, and the alphabet that is used from then on. */
  function Value(alphabet: Alphabet, c: byte): (r: Option<(digit, Alphabet)>)
    ensures r.Some? ==> c != PAD
  {
    if 'A' as int <= c <= 'Z' as int then Some((c - 'A' as int, alphabet))
    else if 'a' as int <= c <= 'z' as int then Some((c - 'a' as int + 26, alphabet))
    else if '0' as int <= c <= '9' as int then Some((c - '0' as int + 52, alphabet))
    else if alphabet != UrlFilenameSafe && c == '+' as int then Some((62, Standard))
    else if alphabet != UrlFilenameSafe && c == '/' as int then Some((63, Standard))
    else if alphabet != Standard && c == '-' as int then Some((62, UrlFilenameSafe))
    else if alphabet != Standard && c == '_' as int then Some((63, UrlFilenameSafe))
    else None
  }

  predicate BitCount(bits: int) {
    bits == 0 || bits == 2 || bits == 4 || bits == 6
  }

  function Pow2(bits: int): int {
    if bits == 0 then 1 else if bits == 2 then 4 else if bits == 4 then 16 else if bits == 6 then 64 else 256
  }

  /** The byte made of the low `bits` bits of the last digit and the high bits of the next one. */
  function Combine(last: digit, part: digit, bits: int): byte
    requires BitCount(bits) && bits != 0
  {
    // (last << (8 - bits)) | (part >> (bits - 2)), kept in eight bits; the two operands share no bit
    last * Pow2(8 - bits) % 256 + part / Pow2(bits - 2)
  }

  predicate AllPadding(text: seq<byte>) {
    forall i :: 0 <= i < |text| ==> text[i] == PAD
  }

  /** Everything that is decoded from `text` on, in the state the loop has reached. */
  function DecodeFrom(text: seq<byte>, alphabet: Alphabet, behavior: Behavior, last: digit, bits: int)
    : (r: Result<seq<byte>, string>)
    requires BitCount(bits)
    decreases |text|
  {
    if text == [] then Ok([])
    else if text[0] == PAD then
      if behavior == Loose || AllPadding(text[1..]) then Ok([]) else Err(INVALID)
    else
      match Value(alphabet, text[0])
      case None => Err(INVALID)
      case Some((part, alphabet')) =>
        if bits + 6 >= 8 then
          match DecodeFrom(text[1..], alphabet', behavior, part, bits - 2)
          case Ok(rest) => Ok([Combine(last, part, bits)] + rest)
          case Err(e) => Err(e)
        else DecodeFrom(text[1..], alphabet', behavior, part, bits + 6)
  }

  function Decoded(text: seq<byte>, alphabet: Alphabet, behavior: Behavior): Result<seq<byte>, string> {
    DecodeFrom(text, alphabet, behavior, 0, 0)
  }

  /** What the whole decoding is when `done` has been written and the rest decodes to `r`. */
  function After(done: seq<byte>, r: Result<seq<byte>, string>): Result<seq<byte>, string> {
    match r
    case Ok(rest) => Ok(done + rest)
    case Err(e) => Err(e)
  }

  /** What one character does. */
  lemma NextCharacter(text: seq<byte>, i: nat, alphabet: Alphabet, behavior: Behavior, last: digit, bits: int)
    requires i < |text| && BitCount(bits)
    ensures var r, v := DecodeFrom(text[i..], alphabet, behavior, last, bits), Value(alphabet, text[i]);
            if text[i] == PAD then r == if behavior == Loose || AllPadding(text[i + 1..]) then Ok([]) else Err(INVALID)
            else if v.None? then r == Err(INVALID)
            else if bits == 0 then r == DecodeFrom(text[i + 1..], v.value.1, behavior, v.value.0, 6)
            else r == After([Combine(last, v.value.0, bits)],
                            DecodeFrom(text[i + 1..], v.value.1, behavior, v.value.0, bits - 2))
  {
    assert text[i..][1..] == text[i + 1..];
  }

  method OnlyPaddingFrom(text: seq<byte>, start: nat) returns (ok: bool)
    requires start <= |text|
    ensures ok <==> AllPadding(text[start..])
  {
    for i := start to |text|
      invariant forall k :: start <= k < i ==> text[k] == PAD
    {
      if text[i] != PAD {
        assert text[start..][i - start] != PAD;
        return false;
      }
    }
    ok := true;
  }

  method Decode(text: seq<byte>, alphabet: Alphabet, behavior: Behavior)
    returns (r: Result<seq<byte>, string>)
    ensures r == Decoded(text, alphabet, behavior)
  {
    var out: seq<byte>, current := [], alphabet;
    var last: digit, bits := 0, 0;
    var i := 0;
    assert text[0..] == text;
    AfterNothing(Decoded(text, alphabet, behavior));
    while i != |text|
      invariant i <= |text| && BitCount(bits)
      invariant After(out, DecodeFrom(text[i..], current, behavior, last, bits)) == Decoded(text, alphabet, behavior)
    {
      NextCharacter(text, i, current, behavior, last, bits);
      hide DecodeFrom, Combine, Value;
      var c := text[i];
      i := i + 1;
      if c == PAD {
        break;
      }
      var v := Value(current, c);
      if v.None? {
        return Err(INVALID);
      }
      var part := v.value.0;
      current := v.value.1;
      if bits + 6 >= 8 {
        AfterMore(out, Combine(last, part, bits), DecodeFrom(text[i..], current, behavior, part, bits - 2));
        out := out + [Combine(last, part, bits)];
        bits := bits - 2;
      } else {
        bits := bits + 6;
      }
      last := part;
    }
    if behavior != Loose {
      var ok := OnlyPaddingFrom(text, i);
      if !ok {
        return Err(INVALID);
      }
    }
    assert out + [] == out;
    r := Ok(out);
  }

  lemma AfterNothing(r: Result<seq<byte>, string>)
    ensures After([], r) == r
  {
    if r.Ok? {
      assert [] + r.value == r.value;
    }
  }

  lemma AfterMore(done: seq<byte>, b: byte, r: Result<seq<byte>, string>)
    ensures After(done + [b], r) == After(done, After([b], r))
  {
    if r.Ok? {
      assert done + [b] + r.value == done + ([b] + r.value);
    }
  }

  // ----- Sizes -----

  lemma {:induction false} EncodedSize(s: seq<byte>, alphabet: Alphabet)
    ensures |Encoded(s, alphabet)| == RequiredEncodeSize(|s|)
    decreases |s|
  {
    if |s| > 3 {
      hide RequiredEncodeSize, EncodedGroup;
      EncodedSize(s[3..], alphabet);
      OneGroupMore(|s| - 3);
    }
  }

  lemma OneGroupMore(size: nat)
    ensures RequiredEncodeSize(size + 3) == 4 + RequiredEncodeSize(size)
  {
  }

  /** The values of the characters before the first padding, if all of them belong to the alphabet. */
  function DigitsOf(text: seq<byte>, alphabet: Alphabet): Option<seq<digit>> {
    if text == [] || text[0] == PAD then Some([])
    else match Value(alphabet, text[0])
      case None => None
      case Some((part, alphabet')) =>
        match DigitsOf(text[1..], alphabet')
        case None => None
        case Some(rest) => Some([part] + rest)
  }

  /** Where the first padding stands, or the length. */
  function BodySize(text: seq<byte>): (n: nat)
    ensures n <= |text|
  {
    if text == [] || text[0] == PAD then 0 else 1 + BodySize(text[1..])
  }

  /** Text is accepted exactly when its body is written in the alphabet and only padding follows the body. */
  lemma {:induction false} AcceptsExactly(text: seq<byte>, alphabet: Alphabet, behavior: Behavior, last: digit,
                                          bits: int)
    requires BitCount(bits)
    ensures DecodeFrom(text, alphabet, behavior, last, bits).Ok?
            <==> DigitsOf(text, alphabet).Some? && (behavior == Loose || AllPadding(text[BodySize(text)..]))
    decreases |text|
  {
    if text == [] {
    } else if text[0] == PAD {
      assert text == [text[0]] + text[1..];
      assert AllPadding(text) <==> AllPadding(text[1..]) by {
        if AllPadding(text[1..]) {
          forall i | 0 <= i < |text| ensures text[i] == PAD {
            assert i > 0 ==> text[i] == text[1..][i - 1];
          }
        }
      }
      assert text[0..] == text;
    } else if Value(alphabet, text[0]).Some? {
      var (part, alphabet') := Value(alphabet, text[0]).value;
      AcceptsExactly(text[1..], alphabet', behavior, part, if bits + 6 >= 8 then bits - 2 else bits + 6);
      assert text[1..][BodySize(text[1..])..] == text[BodySize(text)..];
    }
  }

  /** The number that `s`, read from the left in the given base, appends to `acc`. */
  function Number(acc: int, base: int, s: seq<int>): int
    decreases |s|
  {
    if s == [] then acc else Number(acc * base + s[0], base, s[1..])
  }

  /** The number of the digits `d` is the number of the bytes `out`, followed by `low` in the bits left over. */
  predicate Matches(start: int, d: seq<digit>, acc: int, out: seq<byte>, bits: int, low: int) {
    var left := bits + 6 * |d| - 8 * |out|;
    && BitCount(left) && 0 <= low < Pow2(left)
    && Number(start, 64, d) == Number(acc, 256, out) * Pow2(left) + low
  }

  lemma MatchesDigit(start: int, part: digit, d: seq<digit>, acc: int, out: seq<byte>, low: int)
    requires Matches(start * 64 + part, d, acc, out, 6, low)
    ensures Matches(start, [part] + d, acc, out, 0, low)
  {
    NumberStep(start, 64, part, d);
    hide Number, Pow2;
  }

  lemma MatchesByte(start: int, part: digit, d: seq<digit>, acc: int, b: byte, out: seq<byte>, bits: int, low: int)
    requires Matches(start * 64 + part, d, acc * 256 + b, out, bits - 2, low)
    ensures Matches(start, [part] + d, acc, [b] + out, bits, low)
  {
    NumberStep(start, 64, part, d);
    NumberStep(acc, 256, b, out);
    hide Number, Pow2;
  }

  lemma NothingLeft(acc: int, last: digit, bits: int) returns (low: int)
    requires BitCount(bits)
    ensures Matches(acc * Pow2(bits) + last % Pow2(bits), [], acc, [], bits, low)
  {
    low := last % Pow2(bits);
  }

  /**
    The digits read as one binary number are the bytes read as one binary number and fewer than eight further bits.
    `acc` stands for what was decoded before.
  */
  lemma {:induction false} BytesAreLeadingBits(text: seq<byte>, alphabet: Alphabet, behavior: Behavior,
                                               last: digit, bits: int, acc: int) returns (low: int)
    requires BitCount(bits) && DecodeFrom(text, alphabet, behavior, last, bits).Ok?
    ensures DigitsOf(text, alphabet).Some?
    ensures Matches(acc * Pow2(bits) + last % Pow2(bits), DigitsOf(text, alphabet).value,
                    acc, DecodeFrom(text, alphabet, behavior, last, bits).value, bits, low)
    decreases |text|
  {
    if text == [] || text[0] == PAD {
      low := NothingLeft(acc, last, bits);
    } else {
      AcceptsExactly(text, alphabet, behavior, last, bits);
      var (part, alphabet') := Value(alphabet, text[0]).value;
      var d := DigitsOf(text[1..], alphabet').value;
      assert DigitsOf(text, alphabet).value == [part] + d;
      NextCharacter(text, 0, alphabet, behavior, last, bits);
      assert text[0..] == text;
      var start := acc * Pow2(bits) + last % Pow2(bits);
      hide DecodeFrom, DigitsOf, Value, Combine, Number, Matches;
      if bits == 0 {
        low := BytesAreLeadingBits(text[1..], alphabet', behavior, part, 6, acc);
        DigitAlone(acc, last, part);
        MatchesDigit(start, part, d, acc, DecodeFrom(text, alphabet, behavior, last, bits).value, low);
      } else {
        var b := Combine(last, part, bits);
        low := BytesAreLeadingBits(text[1..], alphabet', behavior, part, bits - 2, acc * 256 + b);
        ShiftIn(acc, last, part, bits);
        MatchesByte(start, part, d, acc, b, DecodeFrom(text[1..], alphabet', behavior, part, bits - 2).value, bits,
                    low);
      }
    }
  }

  lemma NumberStep(acc: int, base: int, x: int, rest: seq<int>)
    ensures Number(acc, base, [x] + rest) == Number(acc * base + x, base, rest)
  {
    assert ([x] + rest)[1..] == rest;
  }

  lemma DigitAlone(acc: int, last: digit, part: digit)
    ensures (acc * Pow2(0) + last % Pow2(0)) * 64 + part == acc * Pow2(6) + part % Pow2(6)
  {
  }

  /** One digit more is one byte more and two pending bits less. */
  lemma ShiftIn(acc: int, last: digit, part: digit, bits: int)
    requires BitCount(bits) && bits != 0
    ensures (acc * Pow2(bits) + last % Pow2(bits)) * 64 + part
            == (acc * 256 + Combine(last, part, bits)) * Pow2(bits - 2) + part % Pow2(bits - 2)
  {
    CombinedBits(last, part, bits);
    hide Combine;
    Rescale(acc, last % Pow2(bits), part, Combine(last, part, bits), part % Pow2(bits - 2), Pow2(bits), Pow2(bits - 2));
  }

  lemma Rescale(acc: int, x: int, part: int, b: int, low: int, scale: int, rest: int)
    requires (scale == 4 && rest == 1) || (scale == 16 && rest == 4) || (scale == 64 && rest == 16)
    requires b * rest + low == x * 64 + part
    ensures (acc * scale + x) * 64 + part == (acc * 256 + b) * rest + low
  {
  }

  lemma CombinedBits(last: digit, part: digit, bits: int)
    requires BitCount(bits) && bits != 0
    ensures Combine(last, part, bits) * Pow2(bits - 2) + part % Pow2(bits - 2) == last % Pow2(bits) * 64 + part
  {
    if bits == 2 {
      KeepLowBits(last, 4, 64);
    } else if bits == 4 {
      KeepLowBits(last, 16, 16);
      assert part / 4 * 4 + part % 4 == part;
    } else {
      KeepLowBits(last, 64, 4);
      assert part / 16 * 16 + part % 16 == part;
    }
  }

  /** Shifting left in eight bits keeps the low bits only. */
  lemma KeepLowBits(last: digit, low: int, shift: int)
    requires (low == 4 && shift == 64) || (low == 16 && shift == 16) || (low == 64 && shift == 4)
    ensures last * shift % 256 == last % low * shift
  {
    if low == 4 {
      Modulo256(last * 64, last / 4, last % 4 * 64);
    } else if low == 16 {
      Modulo256(last * 16, last / 16, last % 16 * 16);
    } else {
      Modulo256(last * 4, 0, last * 4);
    }
  }

  lemma Modulo256(n: int, q: int, r: int)
    requires n == q * 256 + r && 0 <= r < 256
    ensures n % 256 == r
  {
  }

  /** A decoding never needs more room than `max_decode_size` promises. */
  lemma DecodedSize(text: seq<byte>, alphabet: Alphabet, behavior: Behavior)
    requires Decoded(text, alphabet, behavior).Ok?
    ensures |Decoded(text, alphabet, behavior).value| == 6 * BodySize(text) / 8 <= MaxDecodeSize(|text|)
  {
    var low := BytesAreLeadingBits(text, alphabet, behavior, 0, 0, 0);
    DigitCount(text, alphabet);
    hide DecodeFrom, DigitsOf, Number;
  }

  /** The result is the whole bytes that the digits begin with: the bits left over are dropped. */
  lemma DecodesWholeBytes(text: seq<byte>, alphabet: Alphabet, behavior: Behavior)
    requires Decoded(text, alphabet, behavior).Ok?
    ensures DigitsOf(text, alphabet).Some?
    ensures var d, out := DigitsOf(text, alphabet).value, Decoded(text, alphabet, behavior).value;
            var left := 6 * |d| - 8 * |out|;
            BitCount(left) && Number(0, 256, out) == Number(0, 64, d) / Pow2(left)
  {
    var low := BytesAreLeadingBits(text, alphabet, behavior, 0, 0, 0);
    var d, out := DigitsOf(text, alphabet).value, Decoded(text, alphabet, behavior).value;
    hide DecodeFrom, DigitsOf;
    assert 0 * Pow2(0) + 0 % Pow2(0) == 0;
    hide Number;
    Quotient(Number(0, 64, d), Number(0, 256, out), low, 6 * |d| - 8 * |out|);
  }

  lemma Quotient(n: int, q: int, low: int, bits: int)
    requires BitCount(bits) && 0 <= low < Pow2(bits) && n == q * Pow2(bits) + low
    ensures n / Pow2(bits) == q
  {
    if bits == 0 {
    } else if bits == 2 {
    } else if bits == 4 {
    } else {
    }
  }

  lemma {:induction false} DigitCount(text: seq<byte>, alphabet: Alphabet)
    requires DigitsOf(text, alphabet).Some?
    ensures |DigitsOf(text, alphabet).value| == BodySize(text)
    decreases |text|
  {
    if text != [] && text[0] != PAD {
      DigitCount(text[1..], Value(alphabet, text[0]).value.1);
    }
  }

  // ----- Round trip -----

  /** `decoding` reads what was written in `encoding`. */
  predicate Reads(decoding: Alphabet, encoding: Alphabet) {
    decoding == Auto || decoding == (if encoding == UrlFilenameSafe then UrlFilenameSafe else Standard)
  }

  lemma ValueOfSymbol(encoding: Alphabet, v: digit, decoding: Alphabet)
    requires Reads(decoding, encoding)
    ensures var r := Value(decoding, Symbol(encoding, v));
            r.Some? && r.value.0 == v && Reads(r.value.1, encoding)
  {
  }

  /** Reading one symbol. */
  lemma TakeSymbol(encoding: Alphabet, v: digit, rest: seq<byte>, decoding: Alphabet, behavior: Behavior,
                   last: digit, bits: int) returns (next: Alphabet)
    requires Reads(decoding, encoding) && BitCount(bits)
    ensures Reads(next, encoding)
    ensures DecodeFrom([Symbol(encoding, v)] + rest, decoding, behavior, last, bits)
            == if bits == 0 then DecodeFrom(rest, next, behavior, v, 6)
               else After([Combine(last, v, bits)], DecodeFrom(rest, next, behavior, v, bits - 2))
  {
    ValueOfSymbol(encoding, v, decoding);
    next := Value(decoding, Symbol(encoding, v)).value.1;
    assert ([Symbol(encoding, v)] + rest)[1..] == rest;
  }

  lemma BytesComeBack(a: byte, b: byte, c: byte)
    ensures Combine(First(a), Second(a, b), 6) == a
    ensures Combine(Second(a, b), Third(b, c), 4) == b
    ensures Combine(Third(b, c), Fourth(c), 2) == c
  {
    FirstComesBack(a, b);
    SecondComesBack(a, b, c);
    ThirdComesBack(b, c);
    hide Combine, First, Second, Third, Fourth;
  }

  lemma FirstComesBack(a: byte, b: byte)
    ensures Combine(First(a), Second(a, b), 6) == a
  {
    KeepLowBits(First(a), 64, 4);
    assert Second(a, b) / 16 == a % 4;
    hide Second;
  }

  lemma SecondComesBack(a: byte, b: byte, c: byte)
    ensures Combine(Second(a, b), Third(b, c), 4) == b
  {
    hide Second, Third;
    KeepLowBits(Second(a, b), 16, 16);
    LowOfSecond(a, b);
    HighOfThird(b, c);
  }

  lemma LowOfSecond(a: byte, b: byte)
    ensures Second(a, b) % 16 == b / 16
  {
  }

  lemma HighOfThird(b: byte, c: byte)
    ensures Third(b, c) / 4 == b % 16
  {
  }

  lemma ThirdComesBack(b: byte, c: byte)
    ensures Combine(Third(b, c), Fourth(c), 2) == c
  {
    KeepLowBits(Third(b, c), 4, 64);
    assert Third(b, c) % 4 == c / 64;
    assert c / 64 * 64 + c % 64 == c;
    hide Third;
  }

  lemma TakeTwoSymbols(encoding: Alphabet, d0: digit, d1: digit, rest: seq<byte>, decoding: Alphabet,
                       behavior: Behavior, last: digit) returns (next: Alphabet)
    requires Reads(decoding, encoding)
    ensures Reads(next, encoding)
    ensures DecodeFrom([Symbol(encoding, d0), Symbol(encoding, d1)] + rest, decoding, behavior, last, 0)
            == After([Combine(d0, d1, 6)], DecodeFrom(rest, next, behavior, d1, 4))
  {
    hide DecodeFrom, Symbol, Combine, After;
    next := TakeSymbol(encoding, d0, [Symbol(encoding, d1)] + rest, decoding, behavior, last, 0);
    assert [Symbol(encoding, d0), Symbol(encoding, d1)] + rest
        == [Symbol(encoding, d0)] + ([Symbol(encoding, d1)] + rest);
    next := TakeSymbol(encoding, d1, rest, next, behavior, d0, 6);
  }

  lemma TakeOne(a: byte, encoding: Alphabet, decoding: Alphabet, behavior: Behavior, last: digit)
    requires Reads(decoding, encoding)
    ensures DecodeFrom(EncodedGroup([a], encoding), decoding, behavior, last, 0) == Ok([a])
  {
    hide First, Second, Third, Fourth, Combine, Symbol, DecodeFrom;
    var d0, d1 := First(a), Second(a, 0);
    BytesComeBack(a, 0, 0);
    assert EncodedGroup([a], encoding) == [Symbol(encoding, d0), Symbol(encoding, d1)] + [PAD, PAD];
    hide EncodedGroup;
    var next := TakeTwoSymbols(encoding, d0, d1, [PAD, PAD], decoding, behavior, last);
    PaddingEnds([PAD, PAD], next, behavior, d1, 4);
    assert [a] + [] == [a];
  }

  lemma TakeTwo(a: byte, b: byte, encoding: Alphabet, decoding: Alphabet, behavior: Behavior, last: digit)
    requires Reads(decoding, encoding)
    ensures DecodeFrom(EncodedGroup([a, b], encoding), decoding, behavior, last, 0) == Ok([a, b])
  {
    hide First, Second, Third, Fourth, Combine, Symbol, DecodeFrom;
    var d0, d1, d2 := First(a), Second(a, b), Third(b, 0);
    BytesComeBack(a, b, 0);
    var end := [Symbol(encoding, d2)] + [PAD];
    assert EncodedGroup([a, b], encoding) == [Symbol(encoding, d0), Symbol(encoding, d1)] + end;
    hide EncodedGroup;
    var next := TakeTwoSymbols(encoding, d0, d1, end, decoding, behavior, last);
    next := TakeSymbol(encoding, d2, [PAD], next, behavior, d1, 4);
    PaddingEnds([PAD], next, behavior, d2, 2);
    assert [a] + ([b] + []) == [a, b];
  }

  lemma TakeThree(s: seq<byte>, encoding: Alphabet, rest: seq<byte>, decoding: Alphabet, behavior: Behavior,
                  last: digit)
    returns (next: Alphabet, pending: digit)
    requires Reads(decoding, encoding) && |s| == 3
    ensures Reads(next, encoding)
    ensures DecodeFrom(EncodedGroup(s, encoding) + rest, decoding, behavior, last, 0)
            == After(s, DecodeFrom(rest, next, behavior, pending, 0))
  {
    hide First, Second, Third, Fourth, Combine, Symbol, DecodeFrom;
    var a, b, c := s[0], s[1], s[2];
    var d0, d1, d2, d3 := First(a), Second(a, b), Third(b, c), Fourth(c);
    BytesComeBack(a, b, c);
    var end := [Symbol(encoding, d2)] + ([Symbol(encoding, d3)] + rest);
    assert EncodedGroup(s, encoding) + rest == [Symbol(encoding, d0), Symbol(encoding, d1)] + end;
    hide EncodedGroup;
    next := TakeTwoSymbols(encoding, d0, d1, end, decoding, behavior, last);
    next := TakeSymbol(encoding, d2, [Symbol(encoding, d3)] + rest, next, behavior, d1, 4);
    next := TakeSymbol(encoding, d3, rest, next, behavior, d2, 2);
    pending := d3;
    var r := DecodeFrom(rest, next, behavior, d3, 0);
    AfterMore([a], b, After([c], r));
    AfterMore([a] + [b], c, r);
    assert s == [a] + [b] + [c];
  }

  /** Decoding gives back what was encoded, in the alphabet of the encoding or detecting it. */
  lemma {:induction false} DecodeInvertsEncode(s: seq<byte>, encoding: Alphabet, decoding: Alphabet, behavior: Behavior,
                                               last: digit)
    requires Reads(decoding, encoding)
    ensures DecodeFrom(Encoded(s, encoding), decoding, behavior, last, 0) == Ok(s)
    decreases |s|
  {
    if |s| == 1 {
      TakeOne(s[0], encoding, decoding, behavior, last);
      assert s == [s[0]];
    } else if |s| == 2 {
      TakeTwo(s[0], s[1], encoding, decoding, behavior, last);
      assert s == [s[0], s[1]];
    } else if |s| >= 3 {
      assert |s| == 3 ==> s[..3] == s && s[3..] == [];
      assert Encoded(s, encoding) == EncodedGroup(s[..3], encoding) + Encoded(s[3..], encoding);
      hide Encoded, EncodedGroup, DecodeFrom;
      var next, pending := TakeThree(s[..3], encoding, Encoded(s[3..], encoding), decoding, behavior, last);
      DecodeInvertsEncode(s[3..], encoding, next, behavior, pending);
      assert s == s[..3] + s[3..];
    }
  }

  lemma PaddingEnds(text: seq<byte>, alphabet: Alphabet, behavior: Behavior, last: digit, bits: int)
    requires BitCount(bits) && text != [] && AllPadding(text)
    ensures DecodeFrom(text, alphabet, behavior, last, bits) == Ok([])
  {
  }

  // ----- Detecting the alphabet -----

  /** Detection accepts exactly the text that one of the fixed alphabets accepts, and decodes it to the same bytes. */
  lemma {:induction false} AutoIsEitherAlphabet(text: seq<byte>, behavior: Behavior, last: digit, bits: int)
    requires BitCount(bits)
    ensures var detected := DecodeFrom(text, Auto, behavior, last, bits);
            var standard := DecodeFrom(text, Standard, behavior, last, bits);
            var url := DecodeFrom(text, UrlFilenameSafe, behavior, last, bits);
            && (detected.Ok? <==> standard.Ok? || url.Ok?)
            && (standard.Ok? ==> detected == standard)
            && (url.Ok? ==> detected == url)
    decreases |text|
  {
    if text != [] && text[0] != PAD && Value(Auto, text[0]).Some? {
      var (part, alphabet') := Value(Auto, text[0]).value;
      if alphabet' == Auto {
        AutoIsEitherAlphabet(text[1..], behavior, part, if bits + 6 >= 8 then bits - 2 else bits + 6);
      }
    }
  }

  // ----- Decoding in place -----

  /** Decoding over the source: no byte is written before the character there has been read. */
  method DecodeInPlace(str: array<byte>, size: nat, alphabet: Alphabet, behavior: Behavior)
    returns (r: Result<nat, string>)
    requires size <= str.Length
    modifies str
    ensures match Decoded(old(str[..size]), alphabet, behavior)
            case Ok(bytes) =>
              && r == Ok(|bytes|) && |bytes| <= size && str[..|bytes|] == bytes
              && forall k :: |bytes| <= k < str.Length ==> str[k] == old(str[k])
            case Err(e) => r == Err(e)
  {
    hide Combine, Value;
    ghost var text := str[..size];
    ghost var done: seq<byte> := [];
    var current := alphabet;
    var last: digit, bits := 0, 0;
    var i, n := 0, 0;
    assert text[0..] == text;
    AfterNothing(Decoded(text, alphabet, behavior));
    while i != size
      invariant n <= i <= size && BitCount(bits)
      invariant forall k :: n <= k < str.Length ==> str[k] == old(str[k])
      invariant |done| == n && forall k :: 0 <= k < n ==> str[k] == done[k]
      invariant After(done, DecodeFrom(text[i..], current, behavior, last, bits)) == Decoded(text, alphabet, behavior)
    {
      NextCharacter(text, i, current, behavior, last, bits);
      hide DecodeFrom, Combine, Value, AllPadding;
      var c := str[i];
      i := i + 1;
      if c == PAD {
        break;
      }
      var v := Value(current, c);
      if v.None? {
        return Err(INVALID);
      }
      var part := v.value.0;
      current := v.value.1;
      if bits + 6 >= 8 {
        AfterMore(done, Combine(last, part, bits), DecodeFrom(text[i..], current, behavior, part, bits - 2));
        str[n] := Combine(last, part, bits);
        done := done + [Combine(last, part, bits)];
        n := n + 1;
        bits := bits - 2;
      } else {
        bits := bits + 6;
      }
      last := part;
    }
    hide Combine, Value;
    if behavior != Loose {
      for k := i to size
        invariant forall m :: i <= m < k ==> text[m] == PAD
      {
        if str[k] != PAD {
          assert text[i..][k - i] != PAD;
          return Err(INVALID);
        }
      }
    }
    assert done + [] == done == str[..n];
    r := Ok(n);
  }

  // ----- Known encodings -----

  /** A text as its character codes. */
  function Codes(s: string): (r: seq<byte>)
    requires forall i :: 0 <= i < |s| ==> s[i] as int < 256
    ensures |r| == |s|
  {
    seq(|s|, i requires 0 <= i < |s| => s[i] as int)
  }

  /** The longest vectors of section 10 of RFC 4648, one for each length of the last group. */
  lemma KnownVectors()
    ensures Encoded(Codes("foobar"), Standard) == Codes("Zm9vYmFy")
    ensures Encoded(Codes("fooba"), Standard) == Codes("Zm9vYmE=")
    ensures Encoded(Codes("foob"), Standard) == Codes("Zm9vYg==")
  {
    FooGroup(Codes("foobar"), "bar");
    FooGroup(Codes("fooba"), "ba");
    FooGroup(Codes("foob"), "b");
    KnownGroups();
    hide Encoded, EncodedGroup, Codes;
    CodesConcat("Zm9v", "YmFy");
    CodesConcat("Zm9v", "YmE=");
    CodesConcat("Zm9v", "Yg==");
  }

  lemma CodesConcat(a: string, b: string)
    requires forall i :: 0 <= i < |a| ==> a[i] as int < 256
    requires forall i :: 0 <= i < |b| ==> b[i] as int < 256
    ensures Codes(a + b) == Codes(a) + Codes(b)
  {
  }

  lemma KnownGroups()
    ensures EncodedGroup(Codes("foo"), Standard) == Codes("Zm9v")
    ensures EncodedGroup(Codes("bar"), Standard) == Codes("YmFy")
    ensures EncodedGroup(Codes("ba"), Standard) == Codes("YmE=")
    ensures EncodedGroup(Codes("b"), Standard) == Codes("Yg==")
  {
  }

  lemma FooGroup(s: seq<byte>, last: string)
    requires 1 <= |last| <= 3 && (forall i :: 0 <= i < |last| ==> last[i] as int < 256)
    requires s == Codes("foo" + last)
    ensures Encoded(s, Standard) == EncodedGroup(Codes("foo"), Standard) + EncodedGroup(Codes(last), Standard)
  {
    assert s[..3] == Codes("foo") && s[3..] == Codes(last);
  }

  /** The last two symbols, in which the alphabets differ. */
  lemma AlphabetsDiffer()
    ensures Encoded([0xFB, 0xFF], Standard) == Codes("+/8=")
    ensures Encoded([0xFB, 0xFF], UrlFilenameSafe) == Codes("-_8=")
  {
    assert Codes("+/8=") == ['+' as int, '/' as int, '8' as int, '=' as int];
    assert Codes("-_8=") == ['-' as int, '_' as int, '8' as int, '=' as int];
  }
}
