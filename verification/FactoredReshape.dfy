/**
  Reshaping, permuting and scaling the factored tensor, and what each does to the product.
*/
module FactoredReshape {
  import opened Wrappers
  import opened Basics
  import opened Tensor
  import opened FactoredTensor

  // ----- Reshaping -----

  function OnesFor(shape: seq<int>): (s: seq<int>)
    ensures |s| == |shape|
  {
    if shape == [] then [] else [if shape[0] == -1 then 1 else shape[0]] + OnesFor(shape[1..])
  }

  function Replaced(shape: seq<int>, n: int): (s: seq<int>)
    ensures |s| == |shape|
  {
    if shape == [] then [] else [if shape[0] == -1 then n else shape[0]] + Replaced(shape[1..], n)
  }

  /** Every -1 stands for what is left of the elements. */
  function Expand(shape: seq<int>, elements: int): (r: Option<seq<int>>)
    ensures r.Some? ==> |r.value| == |shape|
  {
    if -1 !in shape then Some(shape)
    else
      var given := Product(OnesFor(shape));
      if given == 0 || elements % given != 0 then None else Some(Replaced(shape, elements / given))
  }

  lemma {:induction false} ReplacedAt(shape: seq<int>, n: int, i: nat)
    requires i < |shape|
    ensures Replaced(shape, n)[i] == if shape[i] == -1 then n else shape[i]
    ensures OnesFor(shape)[i] == if shape[i] == -1 then 1 else shape[i]
    decreases i
  {
    if i > 0 {
      ReplacedAt(shape[1..], n, i - 1);
    }
  }

  /** Setting one size sets the product. */
  lemma {:induction false} ProductOfOne(s: seq<int>, i: nat, n: int)
    requires i < |s| && s[i] == 1
    ensures Product(s[i := n]) == Product(s) * n
    decreases |s|
  {
    var k := |s| - 1;
    if i == k {
      assert s[i := n][..k] == s[..k];
    } else {
      ProductOfOne(s[..k], i, n);
      assert s[i := n][..k] == s[..k][i := n];
      MulSwap(Product(s[..k]), n, s[k]);
    }
  }

  lemma {:induction false} MulSwap(a: int, b: int, c: int)
    ensures a * b * c == a * c * b
  {
  }

  /** A single -1 becomes the size with which the elements are used up; the other sizes stay. */
  lemma {:induction false} ExpandFillsIn(shape: seq<int>, elements: int, i: nat)
    requires i < |shape| && shape[i] == -1 && forall k :: 0 <= k < |shape| && k != i ==> shape[k] != -1
    requires Expand(shape, elements).Some?
    ensures var e := Expand(shape, elements).value;
            (forall k :: 0 <= k < |shape| && k != i ==> e[k] == shape[k]) && Product(e) == elements
  {
    var s, e := OnesFor(shape), Expand(shape, elements).value;
    var n := elements / Product(s);
    forall k | 0 <= k < |shape| ensures e[k] == if k == i then n else shape[k] {
      ReplacedAt(shape, n, k);
    }
    forall k | 0 <= k < |shape| ensures s[k] == if k == i then 1 else shape[k] {
      ReplacedAt(shape, n, k);
    }
    assert e == s[i := n];
    ProductOfOne(s, i, n);
    assert elements == Product(s) * n;
  }

  function Ones(n: nat): (s: seq<int>)
    ensures |s| == n && forall i :: 0 <= i < n ==> s[i] == 1
  {
    if n == 0 then [] else [1] + Ones(n - 1)
  }

  /** The shapes that the two factors take: the rows go to B, and A becomes one matrix for all. */
  function FactorShapes(shape: seq<int>, rank: int): (seq<int>, seq<int>)
    requires |shape| >= 2
  {
    var n := |shape|;
    (Ones(n - 2) + [rank, shape[n - 1]], shape[..n - 1] + [rank])
  }

  function ReshapeTo(l: Lora, shape: seq<int>): Option<Lora>
    requires Valid(l)
  {
    if |shape| < 2 || shape[|shape| - 1] != Shape(l)[|l.B.shape| - 1] || !IsShape(shape) then None
    else
      var (a, b) := FactorShapes(shape, Rank(l));
      if Product(a) != Product(l.A.shape) || Product(b) != Product(l.B.shape) then None
      else Make(Reshape(l.A, a), Reshape(l.B, b))
  }

  function GetReshape(l: Lora, shape: seq<int>): Option<Lora>
    requires Valid(l)
  {
    if |shape| < 2 then None
    else match Expand(shape, Product(Shape(l)))
      case None => None
      case Some(s) => ReshapeTo(l, s)
  }

  predicate AllOnes(s: seq<int>) {
    forall i :: 0 <= i < |s| ==> s[i] == 1
  }

  lemma {:induction false} ProductAppend(s: seq<int>, k: int)
    ensures Product(s + [k]) == Product(s) * k
  {
    assert (s + [k])[..|s|] == s;
  }

  lemma {:induction false} ProductIsNatural(s: seq<int>)
    requires IsShape(s)
    ensures Product(s) >= 0
    decreases |s|
  {
    if s != [] {
      ProductIsNatural(s[..|s| - 1]);
      MulMonotone(0, Product(s[..|s| - 1]), s[|s| - 1]);
    }
  }

  lemma {:induction false} OnesProduct(n: nat)
    ensures Product(Ones(n)) == 1
  {
    if n != 0 {
      OnesProduct(n - 1);
      assert Ones(n) == Ones(n - 1) + [1];
      ProductAppend(Ones(n - 1), 1);
    }
  }

  lemma {:induction false} TimesIsOne(p: int, k: int)
    requires p >= 0 && k >= 0 && p * k == 1
    ensures p == 1 && k == 1
  {
    if k >= 2 && p >= 1 {
      MulMonotone(1, p, k);
    } else if k == 1 {
    }
  }

  lemma {:induction false} ProductOneIsOnes(s: seq<int>)
    requires IsShape(s) && Product(s) == 1
    ensures AllOnes(s)
    decreases |s|
  {
    if s != [] {
      var t := s[..|s| - 1];
      ProductIsNatural(t);
      TimesIsOne(Product(t), s[|s| - 1]);
      ProductOneIsOnes(t);
      assert s == t + [s[|s| - 1]];
    }
  }

  lemma {:induction false} CancelFactor(p: int, k: int)
    requires k > 0 && p * k == k
    ensures p == 1
  {
    assert (p - 1) * k == 0;
    if p >= 2 {
      MulMonotone(1, p - 1, k);
    } else if p <= 0 {
      MulMonotone(p - 1, -1, k);
    }
  }

  /** A factor A that can be reshaped has one matrix for all, unless it has no elements. */
  lemma {:induction false} ReshapedHasOneMatrix(ab: seq<int>, rank: int, cols: int, n: nat)
    requires IsShape(ab) && rank > 0 && cols > 0
    requires Product(Ones(n) + [rank, cols]) == Product(ab + [rank, cols])
    ensures AllOnes(ab)
  {
    TwoFactors(Ones(n), rank, cols);
    TwoFactors(ab, rank, cols);
    OnesProduct(n);
    ProductIsNatural(ab);
    MulMonotone(1, rank, cols);
    CancelFactor(Product(ab), rank * cols);
    ProductOneIsOnes(ab);
  }

  lemma {:induction false} TwoFactors(s: seq<int>, m: int, n: int)
    ensures Product(s + [m, n]) == Product(s) * (m * n)
  {
    assert s + [m, n] == s + [m] + [n];
    ProductAppend(s + [m], n);
    ProductAppend(s, m);
    assert Product(s) * m * n == Product(s) * (m * n);
  }

  // ----- One matrix for all -----

  lemma {:induction false} NarrowToZeros(a: seq<int>, x: seq<int>)
    requires AllOnes(a) && |a| == |x|
    ensures Narrow(a, x) == Zeros(|a|)
    decreases |a|
  {
    if a != [] {
      NarrowToZeros(a[1..], x[1..]);
    }
  }

  lemma {:induction false} ZerosAppend(n: nat)
    ensures Zeros(n + 1) == Zeros(n) + [0]
  {
    if n != 0 {
      ZerosAppend(n - 1);
    }
  }

  lemma {:induction false} RavelZeros(s: seq<int>)
    ensures Ravel(Zeros(|s|), s) == 0
    decreases |s|
  {
    if s != [] {
      var n := |s| - 1;
      ZerosAppend(n);
      RavelZeros(s[..n]);
    }
  }

  lemma {:induction false} UnravelZeros(s: seq<int>)
    requires AllOnes(s)
    ensures Unravel(0, s) == Zeros(|s|)
    decreases |s|
  {
    if s != [] {
      var n := |s| - 1;
      ZerosAppend(n);
      UnravelZeros(s[..n]);
    }
  }

  /** Reshaping a factor of one matrix leaves its values in their places. */
  lemma {:induction false} OneMatrixStays(a: seq<int>, b: seq<int>, rank: int, cols: int, q: int, c: int)
    requires AllOnes(a) && AllOnes(b) && 0 <= q < rank && 0 <= c < cols
    ensures Unravel(Ravel(Zeros(|a|) + [q, c], a + [rank, cols]), b + [rank, cols]) == Zeros(|b|) + [q, c]
  {
    hide *;
    OneByOne(Zeros(|a|), q, c);
    OneByOne(Zeros(|b|), q, c);
    OneByOne(a, rank, cols);
    OneByOne(b, rank, cols);
    RavelLast(Zeros(|a|) + [q], c, a + [rank], b + [rank], cols);
    RavelLast(Zeros(|a|), q, a, b, rank);
    RavelZeros(a);
    UnravelZeros(b);
  }

  lemma {:induction false} ReshapedTerm(l: Lora, ab: seq<int>, bb: seq<int>, rows: int, rank: int, cols: int,
                     sb: seq<int>, srows: int, x: seq<int>, i: int, c: int, q: int)
    requires Valid(l) && Parts(l, ab, bb, rows, rank, cols) && AllOnes(ab)
    requires Product(Ones(|sb|) + [rank, cols]) == Product(l.A.shape)
    requires Product(sb + [srows, rank]) == Product(l.B.shape)
    requires |x| == |sb| && 0 <= q < rank && 0 <= c < cols
    ensures var m := Lora(Reshape(l.A, Ones(|sb|) + [rank, cols]), Reshape(l.B, sb + [srows, rank]));
            var o := Unravel(Ravel(x + [i], sb + [srows]), bb + [rows]);
            && |m.A.shape| == |x| + 2 && |o| == |ab| + 1 && |l.A.shape| == |o| + 1
            && Term(m, x, i, c, q) == Term(l, o[..|ab|], o[|ab|], c, q)
  {
    ValidParts(l, ab, bb, rows, rank, cols);
    hide Ravel, Unravel, Term, Times, Product, Valid, Zeros, Narrow;
    var m := Lora(Reshape(l.A, Ones(|sb|) + [rank, cols]), Reshape(l.B, sb + [srows, rank]));
    var o := Unravel(Ravel(x + [i], sb + [srows]), bb + [rows]);
    var y, j := o[..|ab|], o[|ab|];
    TermOf(m, Ones(|sb|), rank, cols, x, i, c, q);
    TermOf(l, ab, rank, cols, y, j, c, q);
    NarrowToZeros(Ones(|sb|), x);
    NarrowToZeros(ab, y);
    OneMatrixStays(Ones(|sb|), ab, rank, cols, q, c);
    RavelLast(x + [i], q, sb + [srows], bb + [rows], rank);
    assert x + [i, q] == x + [i] + [q] && y + [j, q] == o + [q];
    assert sb + [srows, rank] == sb + [srows] + [rank] && bb + [rows, rank] == bb + [rows] + [rank];
  }

  lemma {:induction false} FirstThenLast(o: seq<int>, n: nat, c: int)
    requires |o| == n + 1
    ensures o + [c] == o[..n] + [o[n], c]
  {
  }

  lemma {:induction false} NoTerms(l: Lora, x: seq<int>, i: int, c: int, r: int)
    requires |l.A.shape| == |x| + 2 && r <= 0
    ensures Sum(l, x, i, c, r) == 0.0
  {
  }

  /** The value of the product at an index of the new shape. */
  lemma {:induction false} ReshapedValue(l: Lora, ab: seq<int>, bb: seq<int>, rows: int, rank: int, cols: int,
                      sb: seq<int>, srows: int, x: seq<int>, i: int, c: int)
    requires Valid(l) && Parts(l, ab, bb, rows, rank, cols) && IsShape(sb) && srows >= 0
    requires Product(Ones(|sb|) + [rank, cols]) == Product(l.A.shape)
    requires Product(sb + [srows, rank]) == Product(l.B.shape)
    requires |x| == |sb| && 0 <= c < cols
    ensures var m := Lora(Reshape(l.A, Ones(|sb|) + [rank, cols]), Reshape(l.B, sb + [srows, rank]));
            && Valid(m)
            && Dense(m).at(x + [i, c]) == Dense(l).at(Unravel(Ravel(x + [i], sb + [srows]), bb + [rows]) + [c])
  {
    var m := Lora(Reshape(l.A, Ones(|sb|) + [rank, cols]), Reshape(l.B, sb + [srows, rank]));
    var o := Unravel(Ravel(x + [i], sb + [srows]), bb + [rows]);
    ValidParts(l, ab, bb, rows, rank, cols);
    ReshapedIsValid(l, ab, bb, rows, rank, cols, sb, srows);
    var n := |bb|;
    hide Ravel, Unravel, Term, Product, Valid, Dense, Reshape, IsShape;
    FirstThenLast(o, n, c);
    DenseAt(m, x, i, c);
    DenseAt(l, o[..n], o[n], c);
    if rank == 0 {
      NoTerms(m, x, i, c, rank);
      NoTerms(l, o[..n], o[n], c, rank);
    } else {
      ReshapedHasOneMatrix(ab, rank, cols, |sb|);
      forall q | 0 <= q < rank ensures Term(m, x, i, c, q) == Term(l, o[..n], o[n], c, q) {
        ReshapedTerm(l, ab, bb, rows, rank, cols, sb, srows, x, i, c, q);
      }
      SumsAgree(m, x, i, c, l, o[..n], o[n], c, rank);
    }
  }

  lemma {:induction false} ReshapedIsValid(l: Lora, ab: seq<int>, bb: seq<int>, rows: int, rank: int, cols: int,
                                           sb: seq<int>, srows: int)
    requires Valid(l) && Parts(l, ab, bb, rows, rank, cols) && IsShape(sb) && srows >= 0
    requires Product(Ones(|sb|) + [rank, cols]) == Product(l.A.shape)
    requires Product(sb + [srows, rank]) == Product(l.B.shape)
    ensures var m := Lora(Reshape(l.A, Ones(|sb|) + [rank, cols]), Reshape(l.B, sb + [srows, rank]));
            Parts(m, Ones(|sb|), sb, srows, rank, cols) && Valid(m) && Rank(m) == rank
            && Shape(m) == sb + [srows, cols] && |m.A.shape| == |sb| + 2 && |m.B.shape| == |sb| + 2
  {
    ValidParts(l, ab, bb, rows, rank, cols);
    hide Product;
    var m := Lora(Reshape(l.A, Ones(|sb|) + [rank, cols]), Reshape(l.B, sb + [srows, rank]));
    ValidParts(m, Ones(|sb|), sb, srows, rank, cols);
  }

  /** Reshaping the factors reshapes the product: the plain tensor with the rows laid out anew. */
  lemma {:induction false} ReshapeCommutes(l: Lora, shape: seq<int>)
    requires Valid(l) && ReshapeTo(l, shape).Some? && Product(shape) == Product(Shape(l))
    ensures var m := ReshapeTo(l, shape).value; Valid(m) && Same(Dense(m), Reshape(Dense(l), shape))
  {
    var ab, bb, rows, rank, cols := PartsOf(l);
    var sb, srows := ReshapeParts(l, ab, bb, rows, rank, cols, shape);
    ValidParts(l, ab, bb, rows, rank, cols);
    hide Product, Valid, Dense, IsShape, ReshapeTo, Within, Parts;
    ReshapedIsValid(l, ab, bb, rows, rank, cols, sb, srows);
    forall ix | Within(ix, shape) ensures Dense(ReshapeTo(l, shape).value).at(ix) == Reshape(Dense(l), shape).at(ix) {
      ReshapedAt(l, ab, bb, rows, rank, cols, sb, srows, ix);
    }
  }

  lemma {:induction false} ReshapeParts(l: Lora, ab: seq<int>, bb: seq<int>, rows: int, rank: int, cols: int,
                                        shape: seq<int>)
    returns (sb: seq<int>, srows: int)
    requires Valid(l) && Parts(l, ab, bb, rows, rank, cols) && ReshapeTo(l, shape).Some?
    ensures shape == sb + [srows, cols] && IsShape(sb) && srows >= 0
    ensures Product(Ones(|sb|) + [rank, cols]) == Product(l.A.shape)
    ensures Product(sb + [srows, rank]) == Product(l.B.shape)
    ensures ReshapeTo(l, shape)
            == Some(Lora(Reshape(l.A, Ones(|sb|) + [rank, cols]), Reshape(l.B, sb + [srows, rank])))
  {
    ValidParts(l, ab, bb, rows, rank, cols);
    var n := |shape|;
    sb, srows := shape[..n - 2], shape[n - 2];
    assert shape == sb + [srows, cols];
    assert shape[..n - 1] + [rank] == sb + [srows, rank];
    hide Product, Reshape, Valid;
  }

  lemma {:induction false} ReshapedAt(l: Lora, ab: seq<int>, bb: seq<int>, rows: int, rank: int, cols: int,
                   sb: seq<int>, srows: int, ix: seq<int>)
    requires Valid(l) && Parts(l, ab, bb, rows, rank, cols) && IsShape(sb) && srows >= 0
    requires Product(Ones(|sb|) + [rank, cols]) == Product(l.A.shape)
    requires Product(sb + [srows, rank]) == Product(l.B.shape)
    requires Within(ix, sb + [srows, cols]) && Product(sb + [srows, cols]) == Product(Shape(l))
    ensures var m := Lora(Reshape(l.A, Ones(|sb|) + [rank, cols]), Reshape(l.B, sb + [srows, rank]));
            Valid(m) && Dense(m).at(ix) == Reshape(Dense(l), sb + [srows, cols]).at(ix)
  {
    ValidParts(l, ab, bb, rows, rank, cols);
    var x, i, c := WithinTwo(ix, sb, srows, cols);
    hide Product, Valid, IsShape, Within, Ravel, Unravel;
    ReshapedValue(l, ab, bb, rows, rank, cols, sb, srows, x, i, c);
    OneByOne(x, i, c);
    OneByOne(sb, srows, cols);
    OneByOne(bb, rows, cols);
    RavelLast(x + [i], c, sb + [srows], bb + [rows], cols);
    hide Dense;
  }

  /** With a rank the plain tensor can be reshaped whenever the factors can. */
  lemma {:induction false} SameElements(l: Lora, shape: seq<int>)
    requires Valid(l) && ReshapeTo(l, shape).Some? && Rank(l) > 0
    ensures Product(shape) == Product(Shape(l))
  {
    var n := |l.B.shape|;
    var lead, slead := l.B.shape[..n - 1], shape[..|shape| - 1];
    assert l.B.shape == lead + [Rank(l)] && shape == slead + [shape[|shape| - 1]];
    hide Product;
    ProductAppend(lead, Rank(l));
    ProductAppend(slead, Rank(l));
    ProductAppend(lead, l.A.shape[n - 1]);
    ProductAppend(slead, shape[|shape| - 1]);
    CancelEqual(Product(lead), Product(slead), Rank(l));
  }

  lemma {:induction false} CancelEqual(a: int, b: int, k: int)
    requires k > 0 && a * k == b * k
    ensures a == b
  {
    if a < b {
      MulMonotone(a, b - 1, k);
    } else if b < a {
      MulMonotone(b, a - 1, k);
    }
  }
}
