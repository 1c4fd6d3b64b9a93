/**
  Permuting the axes of the factored tensor, scaling it, and joining several of them, and what each does to the product.
*/
module FactoredPermute {
  import opened Wrappers
  import opened Tensor
  import opened FactoredTensor
  import opened FactoredReshape

  // ----- Permuting -----

  function Normalized(dims: seq<int>, n: nat): (d: seq<int>)
    ensures |d| == |dims|
  {
    if dims == [] then [] else [Normal(dims[0], n)] + Normalized(dims[1..], n)
  }

  /** Axes may be counted from the end. The last axis must stay, or a matrix be transposed. */
  function GetPermute(l: Lora, dims: seq<int>): Option<Lora>
    requires Valid(l)
  {
    var n := |l.B.shape|;
    var d := Normalized(dims, n);
    if !IsPermutation(d, n) then None
    else if d[n - 1] == n - 1 then
      if AllOnes(FirstAxes(l.A)) then Some(Lora(l.A, Permute(l.B, d))) else None
    else if n == 2 then Some(Lora(Permute(l.B, d), Permute(l.A, d)))
    else None
  }

  /** `transpose` exchanges two axes, which may be counted from the end. */
  function Exchange(n: nat, i: int, j: int): (dims: seq<int>)
    requires 0 <= i < n && 0 <= j < n
    ensures |dims| == n
  {
    seq(n, k requires 0 <= k < n => if k == i then j else if k == j then i else k)
  }

  function GetTranspose(l: Lora, i: int, j: int): Option<Lora>
    requires Valid(l)
  {
    var n := |l.B.shape|;
    if -n <= i < n && -n <= j < n then GetPermute(l, Exchange(n, Normal(i, n), Normal(j, n))) else None
  }

  lemma {:induction false} NormalizedAgain(dims: seq<int>, n: nat)
    requires forall k :: 0 <= k < |dims| ==> 0 <= dims[k]
    ensures Normalized(dims, n) == dims
  {
    if dims != [] {
      NormalizedAgain(dims[1..], n);
    }
  }

  /** The exchange is a permutation, and its own inverse. */
  lemma {:induction false} ExchangeIsPermutation(n: nat, i: int, j: int)
    requires 0 <= i < n && 0 <= j < n
    ensures IsPermutation(Exchange(n, i, j), n)
  {
    var dims := Exchange(n, i, j);
    forall d | 0 <= d < n ensures d in dims {
      var k := if d == i then j else if d == j then i else d;
      assert dims[k] == d;
    }
  }

  /** When the last axis stays, the others are permuted whatever the last index is. */
  lemma {:induction false} LastAxisStays(dims: seq<int>, x: seq<int>, q: int, c: int)
    requires IsPermutation(dims, |x| + 1) && dims[|x|] == |x|
    ensures var o := Unpermuted(dims, x + [c]);
            Unpermuted(dims, x + [q]) == o[..|x|] + [q] && o == o[..|x|] + [c]
  {
    var n := |x|;
    var o, p := Unpermuted(dims, x + [c]), Unpermuted(dims, x + [q]);
    assert o[dims[n]] == c && p[dims[n]] == q;
    forall d | 0 <= d < n ensures p[d] == o[d] {
      assert d in dims;
      var i := IndexOf(dims, d);
      assert i != n;
      assert p[dims[i]] == (x + [q])[i] == x[i];
      assert o[dims[i]] == (x + [c])[i] == x[i];
    }
  }

  /** The sizes of the axes before the last. */
  function Reordered(s: seq<int>, dims: seq<int>): (r: seq<int>)
    requires |dims| == |s| + 1 && forall i :: 0 <= i < |s| ==> 0 <= dims[i] < |s|
    ensures |r| == |s| && (IsShape(s) ==> IsShape(r))
  {
    seq(|s|, i requires 0 <= i < |s| => s[dims[i]])
  }

  lemma {:induction false} PermuteLeadingAxes(t: Tensor, s: seq<int>, k: int, dims: seq<int>)
    requires t.shape == s + [k] && IsPermutation(dims, |s| + 1) && dims[|s|] == |s|
    ensures forall i :: 0 <= i < |s| ==> 0 <= dims[i] < |s|
    ensures Permute(t, dims).shape == Reordered(s, dims) + [k]
  {
    assert forall i :: 0 <= i < |s| ==> dims[i] != dims[|s|];
  }

  lemma {:induction false} PermutedShape(l: Lora, ab: seq<int>, bb: seq<int>, rows: int, rank: int, cols: int,
                                         dims: seq<int>)
    returns (pb: seq<int>, prows: int)
    requires Valid(l) && Parts(l, ab, bb, rows, rank, cols) && AllOnes(ab)
    requires var n := |l.B.shape|; IsPermutation(dims, n) && dims[n - 1] == n - 1
    ensures Permute(l.B, dims).shape == pb + [prows, rank] && |pb| == |bb|
    ensures |Shape(l)| == |dims| && Permute(Dense(l), dims).shape == pb + [prows, cols]
    ensures Valid(Lora(l.A, Permute(l.B, dims)))
  {
    ValidParts(l, ab, bb, rows, rank, cols);
    ShapeParts(bb, rows, rank);
    OneByOne(bb, rows, rank);
    OneByOne(bb, rows, cols);
    var lead := bb + [rows];
    LeadingShape(bb, rows);
    hide IsPermutation, IsShape, Dense, Valid, Permute;
    PermuteLeadingAxes(l.B, lead, rank, dims);
    PermuteLeadingAxes(Dense(l), lead, cols, dims);
    var r := Reordered(lead, dims);
    pb, prows := r[..|bb|], r[|bb|];
    LastOne(r, |bb|);
    OneByOne(pb, prows, rank);
    OneByOne(pb, prows, cols);
    LeadingShape(pb, prows);
    ValidParts(Lora(l.A, Permute(l.B, dims)), ab, pb, prows, rank, cols);
  }

  lemma {:induction false} LastOne(r: seq<int>, n: nat)
    requires |r| == n + 1
    ensures r == r[..n] + [r[n]]
  {
  }

  lemma {:induction false} LeadingShape(s: seq<int>, k: int)
    ensures IsShape(s + [k]) <==> IsShape(s) && k >= 0
  {
    var t := s + [k];
    if IsShape(t) {
      assert forall i :: 0 <= i < |s| ==> s[i] == t[i];
      assert t[|s|] == k;
    }
  }

  lemma {:induction false} PermutedValue(l: Lora, ab: seq<int>, bb: seq<int>, rows: int, rank: int, cols: int,
                                         dims: seq<int>,
                      x: seq<int>, i: int, c: int)
    requires Valid(l) && Parts(l, ab, bb, rows, rank, cols) && AllOnes(ab) && |x| == |bb|
    requires var n := |l.B.shape|; IsPermutation(dims, n) && dims[n - 1] == n - 1
    ensures Valid(Lora(l.A, Permute(l.B, dims))) && |Shape(l)| == |dims|
    ensures Dense(Lora(l.A, Permute(l.B, dims))).at(x + [i, c]) == Permute(Dense(l), dims).at(x + [i, c])
  {
    var m, n := Lora(l.A, Permute(l.B, dims)), |bb|;
    var pb, prows := PermutedShape(l, ab, bb, rows, rank, cols, dims);
    ValidParts(l, ab, bb, rows, rank, cols);
    ValidParts(m, ab, pb, prows, rank, cols);
    var o := Unpermuted(dims, x + [i, c]);
    var y, j := o[..n], o[n];
    hide Valid, Dense, Term, IsShape, Narrow, FirstAxes, Times, Unpermuted, IsPermutation, Parts;
    LastTwoStay(dims, x, i, c, c);
    forall q | 0 <= q < rank ensures Term(m, x, i, c, q) == Term(l, y, j, c, q) {
      LastTwoStay(dims, x, i, q, c);
      PermutedTerm(l, ab, bb, rows, rank, cols, dims, x, i, c, q);
    }
    SumsAgree(m, x, i, c, l, y, j, c, rank);
    DenseAt(m, x, i, c);
    DenseAt(l, y, j, c);
  }

  lemma {:induction false} LastTwoStay(dims: seq<int>, x: seq<int>, i: int, q: int, c: int)
    requires IsPermutation(dims, |x| + 2) && dims[|x| + 1] == |x| + 1
    ensures var n, o := |x|, Unpermuted(dims, x + [i, c]);
            o == o[..n] + [o[n], c] && Unpermuted(dims, x + [i, q]) == o[..n] + [o[n], q]
  {
    OneByOne(x, i, c);
    OneByOne(x, i, q);
    LastAxisStays(dims, x + [i], q, c);
  }

  lemma {:induction false} PermutedTerm(l: Lora, ab: seq<int>, bb: seq<int>, rows: int, rank: int, cols: int,
                                        dims: seq<int>, x: seq<int>, i: int, c: int, q: int)
    requires Valid(l) && Parts(l, ab, bb, rows, rank, cols) && AllOnes(ab) && |x| == |bb|
    requires IsPermutation(dims, |bb| + 2) && dims[|bb| + 1] == |bb| + 1
    ensures var m, o := Lora(l.A, Permute(l.B, dims)), Unpermuted(dims, x + [i, c]);
            && |l.A.shape| == |x| + 2
            && Term(m, x, i, c, q) == Term(l, o[..|bb|], o[|bb|], c, q)
  {
    ValidParts(l, ab, bb, rows, rank, cols);
    var m, o := Lora(l.A, Permute(l.B, dims)), Unpermuted(dims, x + [i, c]);
    hide Valid, Term, Narrow, Times, Unpermuted, IsPermutation, IsShape;
    LastTwoStay(dims, x, i, q, c);
    TermOf(m, ab, rank, cols, x, i, c, q);
    TermOf(l, ab, rank, cols, o[..|bb|], o[|bb|], c, q);
    NarrowToZeros(ab, x);
    NarrowToZeros(ab, o[..|bb|]);
  }

  lemma {:induction false} PermuteCommutes(l: Lora, dims: seq<int>)
    requires Valid(l) && GetPermute(l, dims).Some?
    ensures var m, d := GetPermute(l, dims).value, Normalized(dims, |l.B.shape|);
            Valid(m) && IsPermutation(d, |Shape(l)|) && Same(Dense(m), Permute(Dense(l), d))
  {
    var ab, bb, rows, rank, cols := PartsOf(l);
    ValidParts(l, ab, bb, rows, rank, cols);
    FirstAxesOf(l.A, ab, rank, cols);
    var n, d := |l.B.shape|, Normalized(dims, |l.B.shape|);
    assert |Shape(l)| == n;
    if d[n - 1] == n - 1 {
      var m := Lora(l.A, Permute(l.B, d));
      var pb, prows := PermutedShape(l, ab, bb, rows, rank, cols, d);
      ValidParts(m, ab, pb, prows, rank, cols);
      hide Dense, Permute, Valid, IsPermutation;
      forall ix | Within(ix, pb + [prows, cols]) ensures Dense(m).at(ix) == Permute(Dense(l), d).at(ix) {
        var x, i, c := WithinTwo(ix, pb, prows, cols);
        PermutedValue(l, ab, bb, rows, rank, cols, d, x, i, c);
      }
    } else {
      TransposeCommutes(l, rows, rank, cols, d);
    }
  }

  lemma {:induction false} Commutes(a: real, b: real)
    ensures Times(a, b) == Times(b, a)
  {
  }

  /** Transposing a matrix exchanges the factors. */
  lemma {:induction false} TransposeCommutes(l: Lora, rows: int, rank: int, cols: int, d: seq<int>)
    requires Valid(l) && Parts(l, [], [], rows, rank, cols) && IsPermutation(d, 2) && d[1] != 1
    ensures var m := Lora(Permute(l.B, d), Permute(l.A, d));
            Valid(m) && |Shape(l)| == 2 && Same(Dense(m), Permute(Dense(l), d))
  {
    var m := Lora(Permute(l.B, d), Permute(l.A, d));
    ValidParts(l, [], [], rows, rank, cols);
    assert d[0] == 1 && d[1] == 0;
    assert [] + [rank, cols] == [rank, cols] && [] + [rows, rank] == [rows, rank] && [] + [rows, cols] == [rows, cols];
    assert [] + [rank, rows] == [rank, rows] && [] + [cols, rank] == [cols, rank] && [] + [cols, rows] == [cols, rows];
    assert m.A.shape == [rank, rows] && m.B.shape == [cols, rank];
    ValidParts(m, [], [], cols, rank, rows);
    var t := Permute(Dense(l), d);
    assert t.shape == [cols, rows];
    hide Valid, Dense, Term, IsShape;
    forall ix | Within(ix, [cols, rows]) ensures Dense(m).at(ix) == t.at(ix) {
      var i, c := ix[0], ix[1];
      assert ix == [] + [i, c];
      forall q ensures Term(m, [], i, c, q) == Term(l, [], c, i, q) {
        TransposedTerm(l, rows, rank, cols, d, i, c, q);
      }
      SumsAgree(m, [], i, c, l, [], c, i, rank);
      DenseAt(m, [], i, c);
      DenseAt(l, [], c, i);
      ExchangedPair(d, i, c);
    }
  }

  lemma {:induction false} ExchangedPair(d: seq<int>, i: int, c: int)
    requires IsPermutation(d, 2) && d[0] == 1 && d[1] == 0
    ensures Unpermuted(d, [] + [i, c]) == [] + [c, i]
  {
    var o := Unpermuted(d, [] + [i, c]);
    assert o[d[0]] == i && o[d[1]] == c;
  }

  lemma {:induction false} TransposedTerm(l: Lora, rows: int, rank: int, cols: int, d: seq<int>, i: int, c: int, q: int)
    requires Valid(l) && Parts(l, [], [], rows, rank, cols) && IsPermutation(d, 2) && d[0] == 1 && d[1] == 0
    ensures var m := Lora(Permute(l.B, d), Permute(l.A, d));
            |m.A.shape| == 2 && |l.A.shape| == 2 && Term(m, [], i, c, q) == Term(l, [], c, i, q)
  {
    var m := Lora(Permute(l.B, d), Permute(l.A, d));
    assert [] + [rank, cols] == [rank, cols] && [] + [rows, rank] == [rows, rank];
    assert m.A.shape == [] + [rank, rows];
    ExchangedPair(d, i, q);
    ExchangedPair(d, q, c);
    hide Term, Times, Valid, Unpermuted;
    TermOf(m, [], rank, rows, [], i, c, q);
    TermOf(l, [], rank, cols, [], c, i, q);
    assert Narrow([], []) == [];
    Commutes(m.B.at([] + [i, q]), m.A.at([] + [q, c]));
  }

  // ----- Scaling -----

  /** Only factors that do not depend on the columns. */
  function GetScaled(l: Lora, m: Tensor): Option<Lora>
    requires Valid(l)
  {
    if m.shape != [] && m.shape[|m.shape| - 1] != 1 then None
    else if !Spreads(m, l.B.shape) then None
    else Some(Lora(l.A, Scale(l.B, m)))
  }

  lemma {:induction false} SpreadIgnoresLast(m: Tensor, lx: seq<int>, q: int, c: int)
    requires m.shape == [] || m.shape[|m.shape| - 1] == 1
    requires |m.shape| <= |lx| + 1
    ensures Spread(m, lx + [q]) == Spread(m, lx + [c])
  {
    assert forall k :: 0 <= k < |lx| ==> (lx + [q])[k] == (lx + [c])[k];
  }

  lemma {:induction false} TimesScaled(b: real, a: real, k: real)
    ensures Times(b * k, a) == Times(b, a) * k
  {
  }

  lemma {:induction false} SumScaled(l: Lora, y: seq<int>, j: int, m: Lora, x: seq<int>, i: int, c: int, r: int,
                                     k: real)
    requires |l.A.shape| == |y| + 2 && |m.A.shape| == |x| + 2
    requires forall q :: 0 <= q < r ==> Term(m, x, i, c, q) == Term(l, y, j, c, q) * k
    ensures Sum(m, x, i, c, r) == Sum(l, y, j, c, r) * k
    decreases r
  {
    hide Term;
    if r > 0 {
      SumScaled(l, y, j, m, x, i, c, r - 1, k);
      assert Sum(l, y, j, c, r) == Sum(l, y, j, c, r - 1) + Term(l, y, j, c, r - 1);
      Distribute(Sum(l, y, j, c, r - 1), Term(l, y, j, c, r - 1), k);
    }
  }

  lemma {:induction false} Distribute(a: real, b: real, k: real)
    ensures (a + b) * k == a * k + b * k
  {
  }

  /** The shape of the enlarged B by its parts: the factor leaves the last axis as it is. */
  lemma {:induction false} EnlargedParts(m: seq<int>, bb: seq<int>, rows: int, last: int)
    returns (bb': seq<int>, rows': int)
    requires |m| <= |bb| + 2 && (m == [] || m[|m| - 1] == 1)
    ensures Enlarged(m, bb + [rows, last]) == bb' + [rows', last] && |bb'| == |bb|
    ensures IsShape(m) && IsShape(bb) && rows >= 0 ==> IsShape(bb') && rows' >= 0
    ensures forall i :: 0 <= i < |bb| ==> bb'[i] == bb[i] || bb[i] == 1
    ensures forall other :: Enlarged(m, bb + [rows, other]) == bb' + [rows', other]
  {
    var s := bb + [rows, last];
    var e := Enlarged(m, s);
    var n := |bb|;
    bb', rows' := e[..n], e[n];
    forall other ensures Enlarged(m, bb + [rows, other]) == bb' + [rows', other] {
      var u := bb + [rows, other];
      var r := Enlarged(m, u);
      LastTwo(bb, rows, other);
      LastTwo(bb, rows, last);
      forall i | 0 <= i < n + 2 ensures r[i] == (bb' + [rows', other])[i] {
        assert r[i] == MetAxis(m, u, i);
        if i <= n {
          assert u[i] == s[i];
          assert MetAxis(m, u, i) == MetAxis(m, s, i) == e[i];
        }
      }
    }
    assert forall i :: 0 <= i < n ==> bb'[i] == MetAxis(m, s, i) && s[i] == bb[i];
  }

  lemma {:induction false} ScaledParts(l: Lora, m: Tensor, ab: seq<int>, bb: seq<int>, rows: int, rank: int, cols: int)
    returns (bb': seq<int>, rows': int)
    requires Valid(l) && Parts(l, ab, bb, rows, rank, cols) && GetScaled(l, m).Some?
    ensures var s := GetScaled(l, m).value;
            && Spreads(m, Shape(l)) && Enlarged(m.shape, Shape(l)) == bb' + [rows', cols]
            && Parts(s, ab, bb', rows', rank, cols) && Valid(s)
    ensures |bb'| == |bb|
  {
    ValidParts(l, ab, bb, rows, rank, cols);
    SpreadsIgnoresLast(m, bb, rows, rank, cols);
    bb', rows' := EnlargedParts(m.shape, bb, rows, rank);
    assert SpreadsOver(ab, bb');
    hide Valid, IsShape, Spreads, Enlarged, SpreadsOver;
    ValidParts(GetScaled(l, m).value, ab, bb', rows', rank, cols);
  }

  lemma {:induction false} SpreadsIgnoresLast(m: Tensor, bb: seq<int>, rows: int, rank: int, cols: int)
    requires Spreads(m, bb + [rows, rank]) && (m.shape == [] || m.shape[|m.shape| - 1] == 1)
    ensures Spreads(m, bb + [rows, cols])
  {
    var s, u, k := bb + [rows, rank], bb + [rows, cols], |bb| + 2 - |m.shape|;
    forall i | 0 <= i < |m.shape| ensures AxesMeet(m.shape[i], u[k + i]) {
      if i < |m.shape| - 1 {
        assert u[k + i] == s[k + i];
      }
    }
  }

  /** Lowering acts on the parts of an index, and reads A where the enlarged index does. */
  lemma {:induction false} LoweredParts(bb: seq<int>, rows: int, last: int, x: seq<int>, i: int, c: int)
    requires |x| == |bb| && 0 <= c < last
    ensures Lowered(bb + [rows, last], x + [i, c]) == Lowered(bb, x) + [if rows == 1 then 0 else i, c]
  {
    LastTwo(bb, rows, last);
    LastTwo(x, i, c);
    var s, ix := bb + [rows, last], x + [i, c];
    var r, u := Lowered(s, ix), Lowered(bb, x) + [if rows == 1 then 0 else i, c];
    forall k | 0 <= k < |r| ensures r[k] == u[k] {
      assert k < |bb| ==> s[k] == bb[k] && ix[k] == x[k];
    }
  }

  lemma {:induction false} NarrowLowered(ab: seq<int>, bb: seq<int>, x: seq<int>)
    requires |x| == |ab| && SpreadsOver(ab, bb)
    ensures Narrow(ab, Lowered(bb, x)) == Narrow(ab, x)
    decreases |x|
  {
    if ab != [] {
      NarrowLowered(ab[1..], bb[1..], x[1..]);
      assert Lowered(bb, x)[1..] == Lowered(bb[1..], x[1..]);
      assert ab[0] == bb[0] || ab[0] == 1;
    }
  }

  lemma {:induction false} ScaledTerm(l: Lora, s: Lora, m: Tensor, ab: seq<int>, bb: seq<int>, rows: int, rank: int,
                                      cols: int, x: seq<int>, i: int, c: int, q: int)
    requires Valid(l) && Parts(l, ab, bb, rows, rank, cols) && GetScaled(l, m) == Some(s)
    requires |x| == |bb| && 0 <= q < rank
    ensures |s.A.shape| == |x| + 2 && |m.shape| <= |x| + 2
    ensures Term(s, x, i, c, q)
         == Term(l, Lowered(bb, x), if rows == 1 then 0 else i, c, q) * m.at(Spread(m, x + [i, c]))
  {
    ValidParts(l, ab, bb, rows, rank, cols);
    NarrowLowered(ab, bb, x);
    LoweredParts(bb, rows, rank, x, i, q);
    OneByOne(x, i, q);
    OneByOne(x, i, c);
    SpreadIgnoresLast(m, x + [i], q, c);
    hide Valid, Narrow, Lowered, Times, IsShape, SpreadsOver, Term, Enlarged, Spread;
    TermOf(s, ab, rank, cols, x, i, c, q);
    var j := if rows == 1 then 0 else i;
    TermOf(l, ab, rank, cols, Lowered(bb, x), j, c, q);
    TimesScaled(l.B.at(Lowered(bb, x) + [j, q]), l.A.at(Narrow(ab, x) + [q, c]), m.at(Spread(m, x + [i, c])));
  }

  /** The value of the scaled product. */
  lemma {:induction false} ScaledPlainValue(l: Lora, m: Tensor, bb: seq<int>, rows: int, cols: int,
                                            x: seq<int>, i: int, c: int)
    requires Valid(l) && Shape(l) == bb + [rows, cols] && Spreads(m, Shape(l))
    requires |x| == |bb| && 0 <= c < cols
    ensures |l.A.shape| == |x| + 2 && |m.shape| <= |x| + 2
    ensures Scale(Dense(l), m).at(x + [i, c])
         == Sum(l, Lowered(bb, x), if rows == 1 then 0 else i, c, Rank(l)) * m.at(Spread(m, x + [i, c]))
  {
    LoweredParts(bb, rows, cols, x, i, c);
    DenseAt(l, Lowered(bb, x), if rows == 1 then 0 else i, c);
    DenseShape(l);
    hide Dense, Lowered, Spread, Sum, Rank;
  }

  lemma {:induction false} ScaledValue(l: Lora, m: Tensor, ab: seq<int>, bb: seq<int>, rows: int, rank: int, cols: int,
                                       x: seq<int>, i: int, c: int)
    requires Valid(l) && Parts(l, ab, bb, rows, rank, cols) && GetScaled(l, m).Some?
    requires |x| == |bb| && 0 <= c < cols
    ensures Spreads(m, Shape(l)) && Valid(GetScaled(l, m).value)
    ensures Dense(GetScaled(l, m).value).at(x + [i, c]) == Scale(Dense(l), m).at(x + [i, c])
  {
    hide Valid, Dense, Term, IsShape, Lowered, Spreads, GetScaled, Parts, Enlarged, Sum, Spread, Scale, Rank, Shape;
    var bb', rows' := ScaledParts(l, m, ab, bb, rows, rank, cols);
    ValidParts(l, ab, bb, rows, rank, cols);
    var s := GetScaled(l, m).value;
    ValidParts(s, ab, bb', rows', rank, cols);
    ScaledPlainValue(l, m, bb, rows, cols, x, i, c);
    var k, y, j := m.at(Spread(m, x + [i, c])), Lowered(bb, x), if rows == 1 then 0 else i;
    forall q | 0 <= q < rank ensures |s.A.shape| == |x| + 2 && Term(s, x, i, c, q) == Term(l, y, j, c, q) * k {
      ScaledTerm(l, s, m, ab, bb, rows, rank, cols, x, i, c, q);
    }
    RanksOf(s, ab, bb', rows', rank, cols);
    SumScaled(l, y, j, s, x, i, c, rank, k);
    DenseAt(s, x, i, c);
  }

  lemma {:induction false} RanksOf(l: Lora, ab: seq<int>, bb: seq<int>, rows: int, rank: int, cols: int)
    requires Valid(l) && Parts(l, ab, bb, rows, rank, cols)
    ensures |l.A.shape| == |l.B.shape| == |bb| + 2
  {
  }

  /** Scaling the output side of the factors scales the product. */
  lemma {:induction false} ScaleCommutes(l: Lora, m: Tensor)
    requires Valid(l) && GetScaled(l, m).Some?
    ensures var s := GetScaled(l, m).value;
            Valid(s) && Spreads(m, Shape(l)) && Same(Dense(s), Scale(Dense(l), m))
  {
    var ab, bb, rows, rank, cols := PartsOf(l);
    var bb', rows' := ScaledParts(l, m, ab, bb, rows, rank, cols);
    var s := GetScaled(l, m).value;
    ValidParts(s, ab, bb', rows', rank, cols);
    ScaledShape(l, m);
    hide Dense, Scale, Valid, GetScaled, Spreads, Enlarged;
    forall ix | Within(ix, bb' + [rows', cols]) ensures Dense(s).at(ix) == Scale(Dense(l), m).at(ix) {
      var x, i, c := WithinTwo(ix, bb', rows', cols);
      ScaledValue(l, m, ab, bb, rows, rank, cols, x, i, c);
    }
  }

  lemma {:induction false} ScaledShape(l: Lora, m: Tensor)
    requires Valid(l) && Spreads(m, Shape(l))
    ensures Scale(Dense(l), m).shape == Enlarged(m.shape, Shape(l))
  {
  }
}
