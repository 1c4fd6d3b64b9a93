/** Little-endian numbers as both file formats store them, and bytes standing somewhere in a file. */
module LittleEndian {
  import opened Basics

  function Pow256(width: nat): (p: nat)
    ensures p >= 1
  {
    if width == 0 then 1 else 256 * Pow256(width - 1)
  }

  function Unsigned(s: seq<byte>): (n: nat)
    ensures n < Pow256(|s|)
  {
    if s == [] then 0 else s[0] + 256 * Unsigned(s[1..])
  }

  function Signed(s: seq<byte>): int {
    var n := Unsigned(s);
    if 2 * n >= Pow256(|s|) then n - Pow256(|s|) else n
  }

  function Bytes(n: nat, width: nat): (s: seq<byte>)
    ensures |s| == width
  {
    if width == 0 then [] else [n % 256] + Bytes(n / 256, width - 1)
  }

  lemma {:induction false} BytesReadBack(n: nat, width: nat)
    requires n < Pow256(width)
    ensures Unsigned(Bytes(n, width)) == n
  {
    if width != 0 {
      BytesReadBack(n / 256, width - 1);
    }
  }

  /** The last bytes count most: zeros behind them change nothing, and a zero in front makes 256 times as much. */
  lemma {:induction false} LastBytesCountMost(s: seq<byte>)
    ensures Unsigned(s + [0]) == Unsigned(s) && Unsigned([0] + s) == 256 * Unsigned(s)
    decreases |s|
  {
    assert ([0] + s)[1..] == s;
    if s == [] {
      assert s + [0] == [0] && [0][1..] == [];
    } else {
      assert (s + [0])[1..] == s[1..] + [0];
      LastBytesCountMost(s[1..]);
    }
  }

  /** Two's complement: the number without a sign, or less than it by the whole range. */
  lemma SignedIsComplement(s: seq<byte>)
    ensures Signed(s) == Unsigned(s) || Signed(s) == Unsigned(s) - Pow256(|s|)
    ensures 0 <= 2 * Signed(s) + Pow256(|s|) && 2 * Signed(s) < Pow256(|s|)
  {
  }

  predicate At(data: seq<byte>, pos: nat, bytes: seq<byte>) {
    pos + |bytes| <= |data| && data[pos..pos + |bytes|] == bytes
  }

  lemma AtConcat(data: seq<byte>, pos: nat, a: seq<byte>, b: seq<byte>)
    requires At(data, pos, a + b)
    ensures At(data, pos, a) && At(data, pos + |a|, b)
  {
    assert data[pos..pos + |a|] == (a + b)[..|a|];
    assert data[pos + |a|..pos + |a| + |b|] == (a + b)[|a|..];
  }
}
