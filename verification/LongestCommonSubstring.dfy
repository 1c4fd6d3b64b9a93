/** The dynamic program for the longest common substring (`string_lcs`). */
module LongestCommonSubstring {

  /** The length of the longest common suffix of `a[..i]` and `b[..j]`, the meaning of a table entry. */
  function CommonSuffix(a: string, b: string, i: nat, j: nat): (n: nat)
    requires i <= |a| && j <= |b|
    ensures n <= i && n <= j
  {
    if i > 0 && j > 0 && a[i - 1] == b[j - 1] then CommonSuffix(a, b, i - 1, j - 1) + 1 else 0
  }

  /** `a` has the same `n` characters before `i` as `b` has before `j`. */
  predicate CommonAt(a: string, b: string, i: nat, j: nat, n: nat) {
    n <= i <= |a| && n <= j <= |b| && a[i - n..i] == b[j - n..j]
  }

  /** The entry is the longest such `n`. */
  lemma {:induction false} CommonSuffixIsLongest(a: string, b: string, i: nat, j: nat, n: nat)
    requires i <= |a| && j <= |b|
    ensures CommonAt(a, b, i, j, n) <==> n <= CommonSuffix(a, b, i, j)
    decreases i
  {
    if n > 0 && i > 0 && j > 0 {
      CommonSuffixIsLongest(a, b, i - 1, j - 1, n - 1);
      if n <= i && n <= j {
        LastCharacter(a, i, n);
        LastCharacter(b, j, n);
        if a[i - n..i] == b[j - n..j] {
          assert a[i - n..i][..n - 1] == b[j - n..j][..n - 1];
        }
      }
    }
  }

  lemma LastCharacter(s: string, i: nat, n: nat)
    requires 0 < n <= i <= |s|
    ensures s[i - n..i] == s[i - 1 - (n - 1)..i - 1] + [s[i - 1]]
    ensures s[i - n..i][..n - 1] == s[i - 1 - (n - 1)..i - 1] && s[i - n..i][n - 1] == s[i - 1]
  {
  }

  /** `r` occurs in both strings, nothing longer does, and in `a` nothing as long ends earlier. */
  ghost predicate IsFirstLongest(a: string, b: string, r: string) {
    exists i: nat, j: nat ::
      && CommonAt(a, b, i, j, |r|) && a[i - |r|..i] == r
      && (forall i': nat, j': nat, n: nat :: CommonAt(a, b, i', j', n) ==> n <= |r|)
      && (forall i': nat, j': nat :: CommonAt(a, b, i', j', |r|) ==> i <= i' || r == "")
  }

  /** The best entry among the rows before `i` and the first `j` entries of row `i`, and where it first occurs. */
  ghost predicate BestSoFar(a: string, b: string, i: nat, j: nat, best: nat, endA: nat, endB: nat) {
    && endA <= |a| && endB <= |b| && best == CommonSuffix(a, b, endA, endB)
    && (endA < i || (endA == i && endB < j) || endA == 0)
    && (forall x: nat, y: nat :: x <= |a| && y <= |b| && (x < i || (x == i && y < j)) ==>
          CommonSuffix(a, b, x, y) <= best)
    && (forall x: nat, y: nat :: x < endA && y <= |b| ==> CommonSuffix(a, b, x, y) < best)
  }

  ghost predicate RowsFilled(dp: array2<nat>, a: string, b: string, i: nat)
    reads dp
  {
    && dp.Length0 == |a| + 1 && dp.Length1 == |b| + 1
    && (forall x: nat, y: nat :: x < i && x <= |a| && y <= |b| ==> dp[x, y] == CommonSuffix(a, b, x, y))
    && (forall x: nat, y: nat :: i <= x <= |a| && y <= |b| ==> dp[x, y] == 0)
  }

  /** The inner loop. */
  method FillRow(dp: array2<nat>, a: string, b: string, i: nat, best0: nat, endA0: nat, ghost endB0: nat)
    returns (best: nat, endA: nat, ghost endB: nat)
    requires 0 < i <= |a| && RowsFilled(dp, a, b, i)
    requires BestSoFar(a, b, i, 0, best0, endA0, endB0)
    modifies dp
    ensures RowsFilled(dp, a, b, i + 1)
    ensures BestSoFar(a, b, i + 1, 0, best, endA, endB)
  {
    best, endA, endB := best0, endA0, endB0;
    for j := 1 to |b| + 1
      invariant forall x: nat, y: nat :: x < i && y <= |b| ==> dp[x, y] == CommonSuffix(a, b, x, y)
      invariant forall y: nat :: y < j ==> dp[i, y] == CommonSuffix(a, b, i, y)
      invariant forall x: nat, y: nat :: i <= x <= |a| && y <= |b| && (x > i || y >= j) ==> dp[x, y] == 0
      invariant BestSoFar(a, b, i, j, best, endA, endB)
    {
      if a[i - 1] == b[j - 1] {
        dp[i, j] := dp[i - 1, j - 1] + 1;
        if dp[i, j] > best {
          best := dp[i, j];
          endA := i;
          endB := j;
        }
      }
    }
  }

  method StringLcs(a: string, b: string) returns (r: string)
    ensures IsFirstLongest(a, b, r)
  {
    if a == "" || b == "" {
      r := "";
      assert CommonAt(a, b, 0, 0, 0) && a[0..0] == r;
      return;
    }
    var dp := new nat[|a| + 1, |b| + 1]((_, _) => 0);
    var best: nat, endA: nat := 0, 0;
    ghost var endB: nat := 0;
    for i := 1 to |a| + 1
      invariant RowsFilled(dp, a, b, i)
      invariant BestSoFar(a, b, i, 0, best, endA, endB)
    {
      best, endA, endB := FillRow(dp, a, b, i, best, endA, endB);
    }
    r := a[endA - best..endA];
    BestIsFirstLongest(a, b, best, endA, endB);
  }

  lemma BestIsFirstLongest(a: string, b: string, best: nat, endA: nat, endB: nat)
    requires BestSoFar(a, b, |a| + 1, 0, best, endA, endB)
    ensures IsFirstLongest(a, b, a[endA - best..endA])
  {
    var r := a[endA - best..endA];
    CommonSuffixIsLongest(a, b, endA, endB, best);
    forall i: nat, j: nat, n: nat | CommonAt(a, b, i, j, n)
      ensures n <= best && (n == best ==> endA <= i || r == "")
    {
      CommonSuffixIsLongest(a, b, i, j, n);
    }
  }

  /** However two strings are taken apart around a common part, that part is no longer than the result. */
  lemma CommonPartsAreBounded(a: string, b: string, r: string,
                              beforeA: string, beforeB: string, x: string, afterA: string, afterB: string)
    requires IsFirstLongest(a, b, r)
    requires a == beforeA + x + afterA && b == beforeB + x + afterB
    ensures |x| <= |r|
  {
    var i, j := |beforeA| + |x|, |beforeB| + |x|;
    assert a[i - |x|..i] == x && b[j - |x|..j] == x;
    assert CommonAt(a, b, i, j, |x|);
  }
}
