/**
  The factored tensor of the adapter converter (`LoraTorchTensor`): a weight kept as two factors B and A. Every
  operation works on the factors, and must do to their product what the operation does to a plain tensor.
*/
module FactoredTensor {
  import opened Wrappers
  import opened Basics
  import opened Tensor

  datatype Lora = Lora(A: Tensor, B: Tensor)

  /** The rank is the last axis of B and the one before the last of A; the constructor asserts that they agree. */
  function Make(A: Tensor, B: Tensor): (r: Option<Lora>)
    ensures r.Some? ==> r.value == Lora(A, B)
  {
    var n := |B.shape|;
    if |A.shape| == n && n >= 2 && A.shape[n - 2] == B.shape[n - 1] then Some(Lora(A, B)) else None
  }

  /** The axes before the last two of A are spread over those of B. */
  predicate Valid(l: Lora) {
    var n := |l.B.shape|;
    && |l.A.shape| == n && n >= 2 && l.A.shape[n - 2] == l.B.shape[n - 1]
    && IsShape(l.A.shape) && IsShape(l.B.shape)
    && SpreadsOver(l.A.shape[..n - 2], l.B.shape[..n - 2])
  }

  predicate SpreadsOver(a: seq<int>, b: seq<int>) {
    |a| == |b| && forall i :: 0 <= i < |a| ==> a[i] == b[i] || a[i] == 1
  }

  function Rank(l: Lora): int
    requires Valid(l)
  {
    l.B.shape[|l.B.shape| - 1]
  }

  /** The shape of the product, as the tensor reports it. */
  function Shape(l: Lora): seq<int>
    requires Valid(l)
  {
    l.B.shape[..|l.B.shape| - 1] + [l.A.shape[|l.A.shape| - 1]]
  }

  /** The index into axes of which some have size one. */
  function Narrow(a: seq<int>, x: seq<int>): (y: seq<int>)
    requires |x| == |a|
    ensures |y| == |a|
  {
    if a == [] then [] else [if a[0] == 1 then 0 else x[0]] + Narrow(a[1..], x[1..])
  }

  function FirstAxes(t: Tensor): seq<int>
    requires |t.shape| >= 2
  {
    t.shape[..|t.shape| - 2]
  }

  function Times(a: real, b: real): real {
    a * b
  }

  /** One summand of the value of the product at `x + [i, c]`. */
  function Term(l: Lora, x: seq<int>, i: int, c: int, q: int): real
    requires |l.A.shape| == |x| + 2
  {
    Times(l.B.at(x + [i, q]), l.A.at(Narrow(FirstAxes(l.A), x) + [q, c]))
  }

  function Sum(l: Lora, x: seq<int>, i: int, c: int, r: int): real
    requires |l.A.shape| == |x| + 2
  {
    if r <= 0 then 0.0 else Sum(l, x, i, c, r - 1) + Term(l, x, i, c, r - 1)
  }

  /** The matrix product B @ A. */
  function Dense(l: Lora): Tensor
    requires Valid(l)
  {
    var n := |l.B.shape|;
    Tensor(Shape(l), (ix: seq<int>) => if |ix| == n then Sum(l, ix[..n - 2], ix[n - 2], ix[n - 1], Rank(l)) else 0.0)
  }

  lemma {:induction false} SumsAgree(l: Lora, x: seq<int>, i: int, c: int, m: Lora, y: seq<int>, j: int, d: int, r: int)
    requires |l.A.shape| == |x| + 2 && |m.A.shape| == |y| + 2
    requires forall q :: 0 <= q < r ==> Term(l, x, i, c, q) == Term(m, y, j, d, q)
    ensures Sum(l, x, i, c, r) == Sum(m, y, j, d, r)
    decreases r
  {
    hide Term;
    if r > 0 {
      SumsAgree(l, x, i, c, m, y, j, d, r - 1);
    }
  }

  // ----- What the product is -----

  /** With the identity for A, the product is B. */
  lemma {:induction false} ProductWithIdentity(l: Lora)
    requires Valid(l) && Rank(l) == l.A.shape[|l.A.shape| - 1]
    requires forall y, q, c :: Within(y + [q, c], l.A.shape) ==> l.A.at(y + [q, c]) == if q == c then 1.0 else 0.0
    ensures Same(Dense(l), l.B)
  {
    var ab, bb, rows, rank, cols := PartsOf(l);
    ValidParts(l, ab, bb, rows, rank, cols);
    FirstAxesOf(l.A, ab, rank, cols);
    var t := Dense(l);
    DenseShape(l);
    hide Dense, Valid, IsShape, Narrow, FirstAxes;
    forall ix | Within(ix, bb + [rows, cols]) ensures t.at(ix) == l.B.at(ix) {
      var x, i, c := WithinTwo(ix, bb, rows, cols);
      DenseAt(l, x, i, c);
      NarrowWithin(l, ab, bb, rows, rank, cols, x);
      SumOfIdentity(l, ab, cols, x, i, c, rank);
    }
  }

  lemma {:induction false} NarrowWithin(l: Lora, ab: seq<int>, bb: seq<int>, rows: int, rank: int, cols: int,
                                        x: seq<int>)
    requires Valid(l) && Parts(l, ab, bb, rows, rank, cols) && Within(x, bb)
    ensures |x| == |ab| && Within(Narrow(ab, x), ab)
  {
    ValidParts(l, ab, bb, rows, rank, cols);
    NarrowIsWithin(ab, bb, x);
  }

  lemma {:induction false} NarrowIsWithin(ab: seq<int>, bb: seq<int>, x: seq<int>)
    requires SpreadsOver(ab, bb) && Within(x, bb)
    ensures Within(Narrow(ab, x), ab)
    decreases |ab|
  {
    if ab != [] {
      assert ab[0] == bb[0] || ab[0] == 1;
      assert 0 <= x[0] < bb[0];
      NarrowIsWithin(ab[1..], bb[1..], x[1..]);
      var y := Narrow(ab, x);
      assert y == [if ab[0] == 1 then 0 else x[0]] + Narrow(ab[1..], x[1..]);
      forall k | 0 <= k < |y| ensures 0 <= y[k] < ab[k] {
        if k > 0 {
          assert y[k] == Narrow(ab[1..], x[1..])[k - 1] && ab[k] == ab[1..][k - 1];
        }
      }
    }
  }

  lemma {:induction false} SumOfIdentity(l: Lora, ab: seq<int>, n: int, x: seq<int>, i: int, c: int, r: int)
    requires l.A.shape == ab + [n, n] && |x| == |ab| && Within(Narrow(ab, x), ab) && 0 <= c < n && r <= n
    requires forall y, q, c :: Within(y + [q, c], l.A.shape) ==> l.A.at(y + [q, c]) == if q == c then 1.0 else 0.0
    ensures Sum(l, x, i, c, r) == if c < r then l.B.at(x + [i, c]) else 0.0
    decreases r
  {
    if r > 0 {
      SumOfIdentity(l, ab, n, x, i, c, r - 1);
      TermOfIdentity(l, ab, n, x, i, c, r - 1);
      hide Term, Narrow;
    }
  }

  lemma {:induction false} TermOfIdentity(l: Lora, ab: seq<int>, n: int, x: seq<int>, i: int, c: int, q: int)
    requires l.A.shape == ab + [n, n] && |x| == |ab| && Within(Narrow(ab, x), ab) && 0 <= c < n && 0 <= q < n
    requires forall y, q, c :: Within(y + [q, c], l.A.shape) ==> l.A.at(y + [q, c]) == if q == c then 1.0 else 0.0
    ensures Term(l, x, i, c, q) == if q == c then l.B.at(x + [i, c]) else 0.0
  {
    hide Narrow, Term;
    TermOf(l, ab, n, n, x, i, c, q);
    var y := Narrow(ab, x);
    WithinParts(y, [q, c], ab, [n, n]);
    assert Within(y + [q, c], l.A.shape);
  }

  // ----- Selecting -----

  function Full(n: nat): (sels: seq<Selector>)
    ensures |sels| == n && forall i :: 0 <= i < n ==> sels[i] == Span(FULL)
  {
    if n == 0 then [] else [Span(FULL)] + Full(n - 1)
  }

  /** The positions taken from an axis of A, which has `m` places, follow those taken from the axis of B. */
  predicate PicksFollow(p: Pick, q: Pick, m: int) {
    && (p.count == q.count || p.count == 1)
    && forall x :: 0 <= x < q.count ==>
         Position(p, if p.count == 1 then 0 else x) == if m == 1 then 0 else Position(q, x)
  }

  /** On one axis, A is read where B is, or at the only place it has. */
  predicate AxisFollows(a: Selector, b: Selector, m: int, n: int)
    requires Selects(a, m) && Selects(b, n)
  {
    match (a, b)
    case (Index(i), Index(j)) => Normal(i, m) == if m == 1 then 0 else Normal(j, n)
    case (Span(s), Span(t)) => PicksFollow(Resolve(s, m), Resolve(t, n), m)
    case _ => false
  }

  lemma {:induction false} SamePicksFollow(p: Pick, m: int)
    requires m != 1
    ensures PicksFollow(p, p, m)
  {
    hide Position;
  }

  lemma {:induction false} FirstPickFollows(p: Pick, q: Pick)
    requires p.count == 1 && Position(p, 0) == 0
    ensures PicksFollow(p, q, 1)
  {
    hide Position;
  }

  predicate Follows(a: seq<Selector>, b: seq<Selector>, m: seq<int>, n: seq<int>)
    requires Fits(a, m) && Fits(b, n)
  {
    |a| == |b| && forall i :: 0 <= i < |a| ==> AxisFollows(a[i], b[i], m[i], n[i])
  }

  lemma {:induction false} BatchFollows(a: seq<Selector>, b: seq<Selector>, m: seq<int>, n: seq<int>, x: seq<int>)
    requires Fits(a, m) && Fits(b, n) && Follows(a, b, m, n) && Within(x, Selected(b, n))
    ensures |x| == Axes(a) == Axes(b) && SpreadsOver(Selected(a, m), Selected(b, n))
    ensures |Selected(a, m)| == |x|
    ensures Origin(a, m, Narrow(Selected(a, m), x)) == Narrow(m, Origin(b, n, x))
    decreases |a|, 1
  {
    hide Position, Resolve, Normal;
    SelectedSize(a, m);
    SelectedSize(b, n);
    if a != [] {
      assert AxisFollows(a[0], b[0], m[0], n[0]);
      assert Follows(a[1..], b[1..], m[1..], n[1..]);
      if a[0].Index? {
        assert Selected(a, m) == Selected(a[1..], m[1..]) && Selected(b, n) == Selected(b[1..], n[1..]);
        BatchFollows(a[1..], b[1..], m[1..], n[1..], x);
        NarrowFirst(m[0], m[1..], Normal(b[0].i, n[0]), Origin(b[1..], n[1..], x));
        assert [m[0]] + m[1..] == m;
      } else {
        SpanFollows(a, b, m, n, x);
      }
    }
  }

  lemma {:induction false} NarrowFirst(k: int, a: seq<int>, i: int, x: seq<int>)
    requires |a| == |x|
    ensures Narrow([k] + a, [i] + x) == [if k == 1 then 0 else i] + Narrow(a, x)
  {
    assert ([k] + a)[1..] == a && ([i] + x)[1..] == x;
  }

  lemma {:induction false} SpanFollows(a: seq<Selector>, b: seq<Selector>, m: seq<int>, n: seq<int>, x: seq<int>)
    requires Fits(a, m) && Fits(b, n) && Follows(a, b, m, n) && Within(x, Selected(b, n))
    requires a != [] && b[0].Span?
    ensures |x| == Axes(a) == Axes(b) && SpreadsOver(Selected(a, m), Selected(b, n))
    ensures |Selected(a, m)| == |x|
    ensures Origin(a, m, Narrow(Selected(a, m), x)) == Narrow(m, Origin(b, n, x))
    decreases |a|, 0
  {
    hide Position, Resolve;
    SelectedSize(a, m);
    SelectedSize(b, n);
    assert AxisFollows(a[0], b[0], m[0], n[0]);
    assert Follows(a[1..], b[1..], m[1..], n[1..]);
    var p, q := Resolve(a[0].s, m[0]), Resolve(b[0].s, n[0]);
    var ra, rb := Selected(a[1..], m[1..]), Selected(b[1..], n[1..]);
    assert Selected(a, m) == [p.count] + ra && Selected(b, n) == [q.count] + rb;
    assert x == [x[0]] + x[1..] && x[0] < q.count;
    assert Within(x[1..], rb) by {
      assert rb == Selected(b, n)[1..];
    }
    BatchFollows(a[1..], b[1..], m[1..], n[1..], x[1..]);
    NarrowFirst(p.count, ra, x[0], x[1..]);
    NarrowFirst(m[0], m[1..], Position(q, x[0]), Origin(b[1..], n[1..], x[1..]));
    assert [m[0]] + m[1..] == m;
  }

  lemma {:induction false} LastTwo(x: seq<int>, i: int, c: int)
    ensures var ix := x + [i, c];
            |ix| == |x| + 2 && ix[..|x|] == x && ix[..|x| + 1] == x + [i] && ix[|x|] == i && ix[|x| + 1] == c
  {
  }

  lemma {:induction false} OneByOne(x: seq<int>, i: int, q: int)
    ensures x + [i] + [q] == x + [i, q]
  {
  }

  /** The shapes by their parts: the first axes, the rows, the rank and the columns. */
  predicate Parts(l: Lora, ab: seq<int>, bb: seq<int>, rows: int, rank: int, cols: int) {
    l.A.shape == ab + [rank, cols] && l.B.shape == bb + [rows, rank]
  }

  lemma {:induction false} PartsOf(l: Lora) returns (ab: seq<int>, bb: seq<int>, rows: int, rank: int, cols: int)
    requires Valid(l)
    ensures Parts(l, ab, bb, rows, rank, cols)
  {
    var n := |l.B.shape|;
    ab, bb := l.A.shape[..n - 2], l.B.shape[..n - 2];
    rows, rank, cols := l.B.shape[n - 2], l.B.shape[n - 1], l.A.shape[n - 1];
  }

  lemma {:induction false} ValidParts(l: Lora, ab: seq<int>, bb: seq<int>, rows: int, rank: int, cols: int)
    requires Parts(l, ab, bb, rows, rank, cols)
    ensures Valid(l) <==> IsShape(ab) && IsShape(bb) && rows >= 0 && rank >= 0 && cols >= 0 && SpreadsOver(ab, bb)
    ensures Valid(l) ==> Rank(l) == rank && Shape(l) == bb + [rows, cols]
  {
    LastTwo(ab, rank, cols);
    LastTwo(bb, rows, rank);
    OneByOne(bb, rows, cols);
    ShapeParts(ab, rank, cols);
    ShapeParts(bb, rows, rank);
    hide IsShape;
  }

  lemma {:induction false} ShapeParts(s: seq<int>, m: int, n: int)
    ensures IsShape(s + [m, n]) <==> IsShape(s) && m >= 0 && n >= 0
  {
    var t := s + [m, n];
    if IsShape(t) {
      assert forall i :: 0 <= i < |s| ==> s[i] == t[i];
      assert t[|s|] == m && t[|s| + 1] == n;
    }
  }

  lemma {:induction false} FirstAxesOf(t: Tensor, s: seq<int>, m: int, n: int)
    requires t.shape == s + [m, n]
    ensures FirstAxes(t) == s
  {
  }

  /** A value of the product, for an index given by its parts. */
  lemma {:induction false} DenseAt(l: Lora, x: seq<int>, i: int, c: int)
    requires Valid(l) && |x| + 2 == |l.B.shape|
    ensures Dense(l).at(x + [i, c]) == Sum(l, x, i, c, Rank(l))
  {
    LastTwo(x, i, c);
    hide Sum;
  }

  lemma {:induction false} DenseShape(l: Lora)
    requires Valid(l)
    ensures Dense(l).shape == Shape(l)
  {
  }

  /** Selecting from both factors: rows from B, columns from A, and the first axes from both. */
  function SelectBoth(l: Lora, a: seq<Selector>, b: seq<Selector>, rs: Slice, cs: Slice): Lora
    requires Fits(a + [Span(FULL), Span(cs)], l.A.shape) && Fits(b + [Span(rs), Span(FULL)], l.B.shape)
  {
    Lora(Select(l.A, a + [Span(FULL), Span(cs)]), Select(l.B, b + [Span(rs), Span(FULL)]))
  }

  /** What is read from the factors, for an index of the result given by its parts. */
  lemma {:induction false} SelectedTerm(l: Lora, ab: seq<int>, bb: seq<int>, rows: int, rank: int, cols: int,
                     a: seq<Selector>, b: seq<Selector>, rs: Slice, cs: Slice, x: seq<int>, i: int, c: int, q: int)
    requires Valid(l) && Parts(l, ab, bb, rows, rank, cols) && rs.step > 0 && cs.step > 0
    requires Fits(a, ab) && Fits(b, bb) && Follows(a, b, ab, bb) && Within(x, Selected(b, bb))
    ensures |x| == Axes(b) && |Origin(b, bb, x)| == |l.A.shape| - 2
    ensures Fits(a + [Span(FULL), Span(cs)], l.A.shape) && Fits(b + [Span(rs), Span(FULL)], l.B.shape)
    ensures var m := SelectBoth(l, a, b, rs, cs);
            && |m.A.shape| == |x| + 2
            && Term(m, x, i, c, q)
               == Term(l, Origin(b, bb, x), Position(Resolve(rs, rows), i), Position(Resolve(cs, cols), c), q)
  {
    ValidParts(l, ab, bb, rows, rank, cols);
    var rp, cp := Resolve(rs, rows), Resolve(cs, cols);
    hide IsShape, Resolve, Position, Narrow, FirstAxes, Origin, Axes, Selected, Follows, Select, Valid, Fits, Term;
    hide Within, Times;
    BatchFollows(a, b, ab, bb, x);
    var y, o := Narrow(Selected(a, ab), x), Origin(b, bb, x);
    FullPosition(rank, q);
    SelectAt(l.A, a, FULL, cs, ab, rank, cols, y, q, c);
    SelectAt(l.B, b, rs, FULL, bb, rows, rank, x, i, q);
    var m := SelectBoth(l, a, b, rs, cs);
    TermOf(l, ab, rank, cols, o, Position(rp, i), Position(cp, c), q);
    TermOf(m, Selected(a, ab), rank, cp.count, x, i, c, q);
  }

  lemma {:induction false} TermOf(l: Lora, ab: seq<int>, rank: int, cols: int, x: seq<int>, i: int, c: int, q: int)
    requires l.A.shape == ab + [rank, cols] && |ab| == |x|
    ensures Term(l, x, i, c, q) == Times(l.B.at(x + [i, q]), l.A.at(Narrow(ab, x) + [q, c]))
  {
    FirstAxesOf(l.A, ab, rank, cols);
    hide Narrow, FirstAxes, Times;
  }

  lemma {:induction false} FollowingShapes(a: seq<Selector>, b: seq<Selector>, m: seq<int>, n: seq<int>)
    requires Fits(a, m) && Fits(b, n) && Follows(a, b, m, n)
    ensures SpreadsOver(Selected(a, m), Selected(b, n))
    decreases |a|
  {
    hide Position, Resolve;
    if a != [] {
      assert AxisFollows(a[0], b[0], m[0], n[0]);
      assert Follows(a[1..], b[1..], m[1..], n[1..]);
      FollowingShapes(a[1..], b[1..], m[1..], n[1..]);
    }
  }

  lemma {:induction false} SelectBothIsValid(l: Lora, ab: seq<int>, bb: seq<int>, rows: int, rank: int, cols: int,
                          a: seq<Selector>, b: seq<Selector>, rs: Slice, cs: Slice)
    requires Valid(l) && Parts(l, ab, bb, rows, rank, cols) && rs.step > 0 && cs.step > 0
    requires Fits(a, ab) && Fits(b, bb) && Follows(a, b, ab, bb)
    ensures Fits(a + [Span(FULL), Span(cs)], l.A.shape) && Fits(b + [Span(rs), Span(FULL)], l.B.shape)
    ensures var m := SelectBoth(l, a, b, rs, cs);
            && Parts(m, Selected(a, ab), Selected(b, bb), Resolve(rs, rows).count, rank, Resolve(cs, cols).count)
            && Valid(m)
  {
    ValidParts(l, ab, bb, rows, rank, cols);
    FollowingShapes(a, b, ab, bb);
    SelectedIsShape(a, ab);
    SelectedIsShape(b, bb);
    hide IsShape, Resolve, Position, Origin, Selected, Follows, SpreadsOver, Valid, Fits;
    CountIsNatural(rs, rows);
    CountIsNatural(cs, cols);
    FullPosition(rank, 0);
    var x, y := Zeros(Axes(a)), Zeros(Axes(b));
    SelectAt(l.A, a, FULL, cs, ab, rank, cols, x, 0, 0);
    SelectAt(l.B, b, rs, FULL, bb, rows, rank, y, 0, 0);
    ValidParts(SelectBoth(l, a, b, rs, cs), Selected(a, ab), Selected(b, bb),
               Resolve(rs, rows).count, rank, Resolve(cs, cols).count);
  }

  function Zeros(n: nat): (z: seq<int>)
    ensures |z| == n
  {
    if n == 0 then [] else [0] + Zeros(n - 1)
  }

  /** Selecting from the factors selects from the product. */
  lemma {:induction false} SelectCommutes(l: Lora, ab: seq<int>, bb: seq<int>, rows: int, rank: int, cols: int,
                       a: seq<Selector>, b: seq<Selector>, rs: Slice, cs: Slice)
    requires Valid(l) && Parts(l, ab, bb, rows, rank, cols) && rs.step > 0 && cs.step > 0
    requires Fits(a, ab) && Fits(b, bb) && Follows(a, b, ab, bb)
    ensures Fits(a + [Span(FULL), Span(cs)], l.A.shape) && Fits(b + [Span(rs), Span(FULL)], l.B.shape)
    ensures Fits(b + [Span(rs), Span(cs)], Shape(l))
    ensures var m := SelectBoth(l, a, b, rs, cs);
            Valid(m) && Same(Dense(m), Select(Dense(l), b + [Span(rs), Span(cs)]))
  {
    SelectBothIsValid(l, ab, bb, rows, rank, cols, a, b, rs, cs);
    var m, t := SelectBoth(l, a, b, rs, cs), Dense(l);
    var cr, cc := Resolve(rs, rows).count, Resolve(cs, cols).count;
    ValidParts(l, ab, bb, rows, rank, cols);
    ValidParts(m, Selected(a, ab), Selected(b, bb), cr, rank, cc);
    hide Dense, Select, Resolve, Selected, SelectBoth, Follows, IsShape, Valid, Fits;
    SelectAt(t, b, rs, cs, bb, rows, cols, Zeros(Axes(b)), 0, 0);
    var u := Select(t, b + [Span(rs), Span(cs)]);
    forall ix | Within(ix, Selected(b, bb) + [cr, cc]) ensures Dense(m).at(ix) == u.at(ix) {
      var x, i, c := WithinTwo(ix, Selected(b, bb), cr, cc);
      SelectedValue(l, ab, bb, rows, rank, cols, a, b, rs, cs, x, i, c);
    }
  }

  lemma {:induction false} SelectedValue(l: Lora, ab: seq<int>, bb: seq<int>, rows: int, rank: int, cols: int,
                      a: seq<Selector>, b: seq<Selector>, rs: Slice, cs: Slice, x: seq<int>, i: int, c: int)
    requires Valid(l) && Parts(l, ab, bb, rows, rank, cols) && rs.step > 0 && cs.step > 0
    requires Fits(a, ab) && Fits(b, bb) && Follows(a, b, ab, bb) && Within(x, Selected(b, bb))
    ensures Fits(a + [Span(FULL), Span(cs)], l.A.shape) && Fits(b + [Span(rs), Span(FULL)], l.B.shape)
    ensures Fits(b + [Span(rs), Span(cs)], Shape(l)) && Valid(SelectBoth(l, a, b, rs, cs))
    ensures Dense(SelectBoth(l, a, b, rs, cs)).at(x + [i, c])
            == Select(Dense(l), b + [Span(rs), Span(cs)]).at(x + [i, c])
  {
    SelectBothIsValid(l, ab, bb, rows, rank, cols, a, b, rs, cs);
    var m := SelectBoth(l, a, b, rs, cs);
    var cr, cc := Resolve(rs, rows).count, Resolve(cs, cols).count;
    ValidParts(l, ab, bb, rows, rank, cols);
    ValidParts(m, Selected(a, ab), Selected(b, bb), cr, rank, cc);
    SelectedSize(b, bb);
    var o, j, d := Origin(b, bb, x), Position(Resolve(rs, rows), i), Position(Resolve(cs, cols), c);
    hide Dense, Select, Resolve, Position, Origin, Selected, SelectBoth, Follows, IsShape, Valid, Fits, Term;
    forall q | 0 <= q < rank ensures Term(m, x, i, c, q) == Term(l, o, j, d, q) {
      SelectedTerm(l, ab, bb, rows, rank, cols, a, b, rs, cs, x, i, c, q);
    }
    SumsAgree(m, x, i, c, l, o, j, d, rank);
    DenseAt(m, x, i, c);
    DenseAt(l, o, j, d);
    SelectAt(Dense(l), b, rs, cs, bb, rows, cols, x, i, c);
  }

  // ----- Indexing, as the tensor offers it -----

  lemma {:induction false} FullFollows(m: int, n: int)
    requires m >= 0 && (m == n || m == 1)
    ensures AxisFollows(Span(FULL), Span(FULL), m, n)
  {
    if m == 1 {
      FullPosition(1, 0);
      FirstPickFollows(Resolve(FULL, 1), Resolve(FULL, n));
    } else {
      SamePicksFollow(Resolve(FULL, m), m);
    }
  }

  /** The selectors `sel` on the axis `d` and everything on the others. */
  function Only(n: nat, d: nat, sel: Selector): (sels: seq<Selector>)
    requires d < n
    ensures |sels| == n && sels[d] == sel && forall i :: 0 <= i < n && i != d ==> sels[i] == Span(FULL)
  {
    Full(d) + [sel] + Full(n - d - 1)
  }

  lemma {:induction false} OnlyFollows(l: Lora, ab: seq<int>, bb: seq<int>, rows: int, rank: int, cols: int,
                    d: nat, a: Selector, b: Selector)
    requires Valid(l) && Parts(l, ab, bb, rows, rank, cols) && d < |ab| == |bb|
    requires Selects(a, ab[d]) && Selects(b, bb[d]) && AxisFollows(a, b, ab[d], bb[d])
    ensures Fits(Only(|ab|, d, a), ab) && Fits(Only(|bb|, d, b), bb)
    ensures Follows(Only(|ab|, d, a), Only(|bb|, d, b), ab, bb)
  {
    ValidParts(l, ab, bb, rows, rank, cols);
    var sa, sb := Only(|ab|, d, a), Only(|bb|, d, b);
    hide AxisFollows, Only;
    forall i | 0 <= i < |ab| ensures Selects(sa[i], ab[i]) && Selects(sb[i], bb[i]) {
    }
    forall i | 0 <= i < |ab| ensures AxisFollows(sa[i], sb[i], ab[i], bb[i]) {
      if i != d {
        FullFollows(ab[i], bb[i]);
      }
    }
  }

  lemma {:induction false} AllFullFollows(l: Lora, ab: seq<int>, bb: seq<int>, rows: int, rank: int, cols: int)
    requires Valid(l) && Parts(l, ab, bb, rows, rank, cols)
    ensures |ab| == |bb| && Fits(Full(|ab|), ab) && Fits(Full(|bb|), bb)
    ensures Follows(Full(|ab|), Full(|bb|), ab, bb)
  {
    ValidParts(l, ab, bb, rows, rank, cols);
    hide AxisFollows;
    forall i | 0 <= i < |ab| ensures AxisFollows(Full(|ab|)[i], Full(|ab|)[i], ab[i], bb[i]) {
      FullFollows(ab[i], bb[i]);
    }
  }

  /** `self[i]`: both factors are indexed, which needs a leading axis beside the matrix. */
  function GetIndex(l: Lora, i: int): Option<Lora>
    requires Valid(l)
  {
    var n := |l.B.shape|;
    if n > 2 && Selects(Index(i), l.A.shape[0]) && Selects(Index(i), l.B.shape[0]) then
      var sels := Only(n - 2, 0, Index(i));
      IndexFits(l, i);
      Some(SelectBoth(l, sels, sels, FULL, FULL))
    else None
  }

  lemma {:induction false} IndexFits(l: Lora, i: int)
    requires Valid(l) && |l.B.shape| > 2 && Selects(Index(i), l.A.shape[0]) && Selects(Index(i), l.B.shape[0])
    ensures var sels := Only(|l.B.shape| - 2, 0, Index(i));
            Fits(sels + [Span(FULL), Span(FULL)], l.A.shape) && Fits(sels + [Span(FULL), Span(FULL)], l.B.shape)
  {
    hide Only;
  }

  lemma {:induction false} GetIndexCommutes(l: Lora, i: int)
    requires Valid(l) && GetIndex(l, i).Some?
    ensures var m, n := GetIndex(l, i).value, |l.B.shape|;
            var sels := Only(n - 2, 0, Index(i)) + [Span(FULL), Span(FULL)];
            Valid(m) && Fits(sels, Shape(l)) && Same(Dense(m), Select(Dense(l), sels))
  {
    var ab, bb, rows, rank, cols := PartsOf(l);
    ValidParts(l, ab, bb, rows, rank, cols);
    assert ab[0] == l.A.shape[0] && bb[0] == l.B.shape[0];
    assert AxisFollows(Index(i), Index(i), ab[0], bb[0]);
    OnlyFollows(l, ab, bb, rows, rank, cols, 0, Index(i), Index(i));
    var sels := Only(|ab|, 0, Index(i));
    hide Dense, Select, Only, Fits, Follows, Same;
    SelectCommutes(l, ab, bb, rows, rank, cols, sels, sels, FULL, FULL);
  }

  /** `self[a:b]`: the rows of a matrix; with a leading axis, both factors are sliced. */
  function GetSlice(l: Lora, s: Slice): Lora
    requires Valid(l) && s.step > 0
  {
    var n := |l.B.shape|;
    if n == 2 then
      SliceFits(l, [], s);
      SelectBoth(l, [], [], s, FULL)
    else
      var sels := Only(n - 2, 0, Span(s));
      SliceFits(l, sels, FULL);
      SelectBoth(l, sels, sels, FULL, FULL)
  }

  lemma {:induction false} SliceFits(l: Lora, sels: seq<Selector>, rs: Slice)
    requires Valid(l) && |sels| == |l.B.shape| - 2 && rs.step > 0
    requires forall i :: 0 <= i < |sels| ==> sels[i].Span? && sels[i].s.step > 0
    ensures Fits(sels + [Span(FULL), Span(FULL)], l.A.shape) && Fits(sels + [Span(rs), Span(FULL)], l.B.shape)
  {
  }

  /** The slice as it acts on the plain tensor. */
  function SliceOf(n: nat, s: Slice): seq<Selector>
    requires n >= 2
  {
    if n == 2 then [Span(s), Span(FULL)] else Only(n - 2, 0, Span(s)) + [Span(FULL), Span(FULL)]
  }

  /** A slice of the leading axis fits a factor A that has one matrix for all, if it takes the first or leaves none. */
  predicate SliceSpreads(l: Lora, s: Slice)
    requires Valid(l) && s.step > 0
  {
    |l.B.shape| == 2 || l.A.shape[0] == l.B.shape[0] || Resolve(s, 1).count == 1
    || Resolve(s, l.B.shape[0]).count == 0
  }

  lemma {:induction false} GetSliceCommutes(l: Lora, s: Slice)
    requires Valid(l) && s.step > 0 && SliceSpreads(l, s)
    ensures var m, sels := GetSlice(l, s), SliceOf(|l.B.shape|, s);
            Valid(m) && Fits(sels, Shape(l)) && Same(Dense(m), Select(Dense(l), sels))
  {
    var ab, bb, rows, rank, cols := PartsOf(l);
    ValidParts(l, ab, bb, rows, rank, cols);
    if ab == [] {
      assert [] + [Span(s), Span(FULL)] == [Span(s), Span(FULL)];
      SelectCommutes(l, ab, bb, rows, rank, cols, [], [], s, FULL);
    } else {
      assert ab[0] == l.A.shape[0] && bb[0] == l.B.shape[0];
      SliceAxisFollows(s, ab[0], bb[0]);
      OnlyFollows(l, ab, bb, rows, rank, cols, 0, Span(s), Span(s));
      var sels := Only(|ab|, 0, Span(s));
      hide Dense, Select, Only, Fits, Follows, Same;
      SelectCommutes(l, ab, bb, rows, rank, cols, sels, sels, FULL, FULL);
    }
  }

  lemma {:induction false} SliceAxisFollows(s: Slice, m: int, n: int)
    requires s.step > 0 && m >= 0
    requires m == n || (m == 1 && (Resolve(s, 1).count == 1 || Resolve(s, n).count == 0))
    ensures AxisFollows(Span(s), Span(s), m, n)
  {
    if m == 1 && Resolve(s, 1).count == 1 {
      PicksAreWithin(s, 1, 0);
      FirstPickFollows(Resolve(s, 1), Resolve(s, n));
    } else if m != 1 {
      SamePicksFollow(Resolve(s, m), m);
    } else {
      OneMatrixAtMost(s);
    }
  }

  /** Otherwise nothing is left of A while B still has matrices, and the factors no longer fit. */
  lemma {:induction false} GetSliceFitsExactly(l: Lora, s: Slice)
    requires Valid(l) && s.step > 0
    ensures Valid(GetSlice(l, s)) <==> SliceSpreads(l, s)
  {
    if SliceSpreads(l, s) {
      GetSliceCommutes(l, s);
    } else {
      GetSliceBreaks(l, s);
    }
  }

  lemma {:induction false} GetSliceBreaks(l: Lora, s: Slice)
    requires Valid(l) && s.step > 0 && !SliceSpreads(l, s)
    ensures !Valid(GetSlice(l, s))
  {
    var ab, bb, rows, rank, cols := PartsOf(l);
    ValidParts(l, ab, bb, rows, rank, cols);
    var sels := Only(|ab|, 0, Span(s));
    assert ab[0] == l.A.shape[0] == 1 && bb[0] == l.B.shape[0];
    assert Fits(sels, ab) && Fits(sels, bb);
    assert ab == [ab[0]] + ab[1..] && bb == [bb[0]] + bb[1..];
    hide Resolve, Select, Selected, Axes;
    SlicedFirstAxis(l.A, s, ab, rank, cols);
    SlicedFirstAxis(l.B, s, bb, rows, rank);
    OneMatrixAtMost(s);
    CountIsNatural(s, bb[0]);
    FirstAxisMisfits(GetSlice(l, s));
  }

  lemma {:induction false} FirstAxisMisfits(l: Lora)
    requires |l.A.shape| == |l.B.shape| > 2 && l.A.shape[0] != l.B.shape[0] && l.A.shape[0] != 1
    ensures !Valid(l)
  {
    assert l.A.shape[..|l.A.shape| - 2][0] == l.A.shape[0];
    assert l.B.shape[..|l.B.shape| - 2][0] == l.B.shape[0];
  }

  lemma {:induction false} FirstSpreads(l: Lora)
    requires Valid(l) && |l.B.shape| > 2
    ensures l.A.shape[0] == l.B.shape[0] || l.A.shape[0] == 1
  {
    assert l.A.shape[..|l.A.shape| - 2][0] == l.A.shape[0];
    assert l.B.shape[..|l.B.shape| - 2][0] == l.B.shape[0];
  }

  lemma {:induction false} SlicedFirstAxis(t: Tensor, s: Slice, first: seq<int>, m: int, n: int)
    requires t.shape == first + [m, n] && first != [] && s.step > 0
    ensures var sels := Only(|first|, 0, Span(s)) + [Span(FULL), Span(FULL)];
            && Fits(sels, t.shape) && |Select(t, sels).shape| == |first| + 2
            && Select(t, sels).shape[0] == Resolve(s, first[0]).count
  {
    var sels := Only(|first|, 0, Span(s)) + [Span(FULL), Span(FULL)];
    assert sels[..0] == [];
    assert forall i :: 0 <= i < |sels| ==> sels[i].Span? && sels[i].s.step > 0;
    AllSpansKeepAxes(sels);
    SelectedSize(sels, t.shape);
    hide Resolve;
    SelectedAt(sels, t.shape, 0);
  }

  lemma {:induction false} AllSpansKeepAxes(sels: seq<Selector>)
    requires forall i :: 0 <= i < |sels| ==> sels[i].Span?
    ensures Axes(sels) == |sels|
    decreases |sels|
  {
    if sels != [] {
      AllSpansKeepAxes(sels[1..]);
    }
  }

  lemma {:induction false} OneMatrixAtMost(s: Slice)
    requires s.step > 0
    ensures 0 <= Resolve(s, 1).count <= 1
  {
    if Resolve(s, 1).count > 1 {
      PicksAreWithin(s, 1, 1);
      PicksAreWithin(s, 1, 0);
    }
  }

  // ----- Indexing with a tuple -----

  /** The selectors that reach A: an integer is taken modulo its axis, a slice is not applied. */
  function TupleForA(b: seq<Selector>, ab: seq<int>): (a: seq<Selector>)
    requires |b| == |ab| && forall i :: 0 <= i < |b| && b[i].Index? ==> ab[i] > 0
    ensures |a| == |b|
  {
    if b == [] then []
    else [if b[0].Index? then Index(b[0].i % ab[0]) else Span(FULL)] + TupleForA(b[1..], ab[1..])
  }

  /** `self[...]` with a selector for every axis, the last two being slices. */
  function GetTuple(l: Lora, b: seq<Selector>, rs: Slice, cs: Slice): Option<Lora>
    requires Valid(l) && rs.step > 0 && cs.step > 0
  {
    var n := |l.B.shape|;
    var ab := FirstAxes(l.A);
    if |b| != n - 2 || !Fits(b, FirstAxes(l.B)) then None
    else if exists i :: 0 <= i < |b| && b[i].Index? && ab[i] <= 0 then None
    else
      TupleFits(l, b, rs, cs);
      Some(SelectBoth(l, TupleForA(b, ab), b, rs, cs))
  }

  lemma {:induction false} TupleForAFits(b: seq<Selector>, ab: seq<int>)
    requires |b| == |ab| && forall i :: 0 <= i < |b| && b[i].Index? ==> ab[i] > 0
    ensures Fits(TupleForA(b, ab), ab)
    decreases |b|
  {
    if b != [] {
      TupleForAFits(b[1..], ab[1..]);
    }
  }

  lemma {:induction false} TupleFits(l: Lora, b: seq<Selector>, rs: Slice, cs: Slice)
    requires Valid(l) && rs.step > 0 && cs.step > 0 && |b| == |l.B.shape| - 2 && Fits(b, FirstAxes(l.B))
    requires forall i :: 0 <= i < |b| && b[i].Index? ==> FirstAxes(l.A)[i] > 0
    ensures Fits(TupleForA(b, FirstAxes(l.A)) + [Span(FULL), Span(cs)], l.A.shape)
    ensures Fits(b + [Span(rs), Span(FULL)], l.B.shape)
  {
    TupleForAFits(b, FirstAxes(l.A));
    hide TupleForA;
  }

  /** A slice of an axis on which A has several matrices must keep all of them. */
  predicate Precise(b: seq<Selector>, ab: seq<int>, bb: seq<int>)
    requires |b| == |ab| && Fits(b, bb)
  {
    forall i :: 0 <= i < |b| && b[i].Span? ==> ab[i] == 1 || Resolve(b[i].s, bb[i]).count == bb[i]
  }

  lemma {:induction false} AllKept(s: Slice, n: int, x: int)
    requires s.step > 0 && n >= 0 && Resolve(s, n).count == n && 0 <= x < n
    ensures Position(Resolve(s, n), x) == x
  {
    PicksAreWithin(s, n, 0);
    PicksAreWithin(s, n, n - 1);
    var p := Resolve(s, n);
    assert p.lo >= 0 && p.lo + p.step * (n - 1) < n;
    if n > 1 && p.step >= 2 {
      MulMonotone(2, p.step, n - 1);
    }
  }

  lemma {:induction false} IndexModulo(i: int, m: int, n: int)
    requires -n <= i < n && (m == n || m == 1)
    ensures AxisFollows(Index(i % m), Index(i), m, n)
  {
    if m == n && i < 0 {
      assert i == -1 * n + (i + n);
      DivMod(-1, n, i + n);
    } else if m == n {
      DivMod(0, n, i);
    }
  }

  lemma {:induction false} SpanNotApplied(s: Slice, m: int, n: int)
    requires s.step > 0 && n >= 0 && m >= 0 && (m == 1 || (m == n && Resolve(s, n).count == n))
    ensures AxisFollows(Span(FULL), Span(s), m, n)
  {
    hide Resolve, Position, PicksFollow;
    if m == 1 {
      FullPosition(1, 0);
      FirstPickFollows(Resolve(FULL, 1), Resolve(s, n));
    } else {
      WholeAxisFollows(s, n);
    }
  }

  lemma {:induction false} WholeAxisFollows(s: Slice, n: int)
    requires s.step > 0 && n >= 0 && n != 1 && Resolve(s, n).count == n
    ensures PicksFollow(Resolve(FULL, n), Resolve(s, n), n)
  {
    var p, q := Resolve(FULL, n), Resolve(s, n);
    FullPosition(n, 0);
    hide Resolve, Position;
    forall x | 0 <= x < n ensures Position(p, x) == Position(q, x) {
      AllKept(s, n, x);
      FullPosition(n, x);
    }
  }

  lemma {:induction false} TupleAxisFollows(sel: Selector, m: int, n: int)
    requires Selects(sel, n) && n >= 0 && m >= 0 && (m == n || m == 1)
    requires sel.Index? ==> m > 0
    requires sel.Span? ==> m == 1 || Resolve(sel.s, n).count == n
    ensures var a := if sel.Index? then Index(sel.i % m) else Span(FULL);
            Selects(a, m) && AxisFollows(a, sel, m, n)
  {
    hide AxisFollows;
    if sel.Index? {
      IndexModulo(sel.i, m, n);
    } else {
      SpanNotApplied(sel.s, m, n);
    }
  }

  lemma {:induction false} TupleFollows(b: seq<Selector>, ab: seq<int>, bb: seq<int>)
    requires |b| == |ab| && Fits(b, bb) && IsShape(ab) && IsShape(bb) && SpreadsOver(ab, bb) && Precise(b, ab, bb)
    requires forall i :: 0 <= i < |b| && b[i].Index? ==> ab[i] > 0
    ensures Fits(TupleForA(b, ab), ab) && Follows(TupleForA(b, ab), b, ab, bb)
    decreases |b|
  {
    if b != [] {
      TupleFollows(b[1..], ab[1..], bb[1..]);
      TupleAxisFollows(b[0], ab[0], bb[0]);
      hide AxisFollows;
      var a := TupleForA(b, ab);
      forall i | 0 <= i < |a| ensures Selects(a[i], ab[i]) && AxisFollows(a[i], b[i], ab[i], bb[i]) {
        if i > 0 {
          assert a[i] == TupleForA(b[1..], ab[1..])[i - 1];
        }
      }
    }
  }

  /** Indexing the factors indexes the product, when the slices keep all matrices that differ in A. */
  lemma {:induction false} GetTupleCommutes(l: Lora, b: seq<Selector>, rs: Slice, cs: Slice)
    requires Valid(l) && rs.step > 0 && cs.step > 0 && GetTuple(l, b, rs, cs).Some?
    requires Precise(b, FirstAxes(l.A), FirstAxes(l.B))
    ensures var m, sels := GetTuple(l, b, rs, cs).value, b + [Span(rs), Span(cs)];
            Valid(m) && Fits(sels, Shape(l)) && Same(Dense(m), Select(Dense(l), sels))
  {
    var ab, bb, rows, rank, cols := PartsOf(l);
    ValidParts(l, ab, bb, rows, rank, cols);
    FirstAxesOf(l.A, ab, rank, cols);
    FirstAxesOf(l.B, bb, rows, rank);
    TupleFollows(b, ab, bb);
    hide Dense, Select, Fits, Follows, Same, TupleForA, Precise, Valid;
    SelectCommutes(l, ab, bb, rows, rank, cols, TupleForA(b, ab), b, rs, cs);
  }

  /** Otherwise the slice reaches B alone, and the factors no longer fit. */
  lemma {:induction false} GetTupleBreaks(l: Lora, b: seq<Selector>, rs: Slice, cs: Slice)
    requires Valid(l) && rs.step > 0 && cs.step > 0 && GetTuple(l, b, rs, cs).Some?
    requires !Precise(b, FirstAxes(l.A), FirstAxes(l.B))
    ensures !Valid(GetTuple(l, b, rs, cs).value)
  {
    var ab, bb, rows, rank, cols := PartsOf(l);
    ValidParts(l, ab, bb, rows, rank, cols);
    FirstAxesOf(l.A, ab, rank, cols);
    FirstAxesOf(l.B, bb, rows, rank);
    TupleForAFits(b, ab);
    var a := TupleForA(b, ab);
    var i :| 0 <= i < |b| && b[i].Span? && ab[i] != 1 && Resolve(b[i].s, bb[i]).count != bb[i];
    TupleForAAxes(b, ab, i);
    SelectedAt(a, ab, i);
    SelectedAt(b, bb, i);
    FullPosition(ab[i], 0);
    var m := GetTuple(l, b, rs, cs).value;
    SelectAt(l.A, a, FULL, cs, ab, rank, cols, Zeros(Axes(a)), 0, 0);
    SelectAt(l.B, b, rs, FULL, bb, rows, rank, Zeros(Axes(b)), 0, 0);
    FullPosition(rank, 0);
    hide TupleForA, Select, Fits, Resolve, Selected;
    assert !SpreadsOver(Selected(a, ab), Selected(b, bb)) by {
      var k := Axes(b[..i]);
      assert Selected(a, ab)[k] != Selected(b, bb)[k];
    }
    if Valid(m) {
      ValidParts(m, Selected(a, ab), Selected(b, bb), Resolve(rs, rows).count, rank, Resolve(cs, cols).count);
    }
  }

  lemma {:induction false} TupleForAAxes(b: seq<Selector>, ab: seq<int>, i: nat)
    requires |b| == |ab| && i < |b| && b[i].Span?
    requires forall i :: 0 <= i < |b| && b[i].Index? ==> ab[i] > 0
    ensures TupleForA(b, ab)[i] == Span(FULL) && Axes(TupleForA(b, ab)[..i]) == Axes(b[..i])
    decreases i
  {
    var a := TupleForA(b, ab);
    if i == 0 {
      assert a[..0] == [] && b[..0] == [];
    } else {
      assert a[1..] == TupleForA(b[1..], ab[1..]);
      TupleForAAxes(b[1..], ab[1..], i - 1);
      AxesOfFirst(a, i);
      AxesOfFirst(b, i);
    }
  }

  // ----- Integers in the last places of the tuple -----

  /** `self[...]` with any selectors: the last goes to A alone, the others to B, and all but the last two to both. */
  function GetTupleOf(l: Lora, sels: seq<Selector>): Option<Lora>
    requires Valid(l) && |sels| == |l.B.shape| && Fits(sels, Shape(l))
  {
    var n := |sels|;
    AnyTupleFits(l, sels);
    Make(Select(l.A, TupleForA(sels[..n - 2], FirstAxes(l.A)) + [Span(FULL), sels[n - 1]]),
         Select(l.B, sels[..n - 2] + [sels[n - 2], Span(FULL)]))
  }

  lemma {:induction false} AnyTupleFits(l: Lora, sels: seq<Selector>)
    requires Valid(l) && |sels| == |l.B.shape| && Fits(sels, Shape(l))
    ensures var b := sels[..|sels| - 2];
            && |b| == |FirstAxes(l.A)| && Fits(b, FirstAxes(l.B))
            && (forall i :: 0 <= i < |b| && b[i].Index? ==> FirstAxes(l.A)[i] > 0)
            && Fits(TupleForA(b, FirstAxes(l.A)) + [Span(FULL), sels[|sels| - 1]], l.A.shape)
            && Fits(b + [sels[|sels| - 2], Span(FULL)], l.B.shape)
  {
    var n := |sels|;
    var b := sels[..n - 2];
    var ab, bb := FirstAxes(l.A), FirstAxes(l.B);
    forall i | 0 <= i < |b| ensures Selects(b[i], bb[i]) && (b[i].Index? ==> ab[i] > 0) {
      assert Selects(sels[i], Shape(l)[i]);
    }
    TupleForAFits(b, ab);
    assert Selects(sels[n - 2], Shape(l)[n - 2]) && Selects(sels[n - 1], Shape(l)[n - 1]);
    hide TupleForA;
  }

  lemma {:induction false} AxesConcat(a: seq<Selector>, b: seq<Selector>)
    ensures Axes(a + b) == Axes(a) + Axes(b)
    decreases |a|
  {
    if a == [] {
      assert a + b == b;
    } else {
      assert (a + b)[1..] == a[1..] + b;
      AxesConcat(a[1..], b);
    }
  }

  lemma {:induction false} TupleForAKeepsAxes(b: seq<Selector>, ab: seq<int>)
    requires |b| == |ab| && forall i :: 0 <= i < |b| && b[i].Index? ==> ab[i] > 0
    ensures Axes(TupleForA(b, ab)) == Axes(b)
    decreases |b|
  {
    if b != [] {
      TupleForAKeepsAxes(b[1..], ab[1..]);
    }
  }

  function AxesOf(x: Selector): nat {
    if x.Index? then 0 else 1
  }

  lemma {:induction false} AxesOfTwo(a: seq<Selector>, x: Selector, y: Selector)
    ensures Axes(a + [x, y]) == Axes(a) + AxesOf(x) + AxesOf(y)
  {
    AxesConcat(a, [x, y]);
    assert [x, y][1..] == [y] && [y][1..] == [] && Axes([y][1..]) == 0;
    assert Axes([x, y]) == AxesOf(x) + Axes([y]);
  }

  /** The numbers of axes: the product of the factors has one that the plain tensor lacks, or there is no product. */
  lemma {:induction false} IntegersLastBreak(l: Lora, sels: seq<Selector>)
    requires Valid(l) && |sels| == |l.B.shape| && Fits(sels, Shape(l)) && GetTupleOf(l, sels).Some?
    requires sels[|sels| - 2].Index? || sels[|sels| - 1].Index?
    ensures sels[|sels| - 2].Index? && sels[|sels| - 1].Index?
    ensures |GetTupleOf(l, sels).value.B.shape| == |Select(Dense(l), sels).shape| + 1
  {
    var n := |sels|;
    var b, row, col := sels[..n - 2], sels[n - 2], sels[n - 1];
    AnyTupleFits(l, sels);
    var a := TupleForA(b, FirstAxes(l.A));
    TupleForAKeepsAxes(b, FirstAxes(l.A));
    AxesOfTwo(a, Span(FULL), col);
    AxesOfTwo(b, row, Span(FULL));
    AxesOfTwo(b, row, col);
    assert sels == b + [row, col];
    SelectedSize(a + [Span(FULL), col], l.A.shape);
    SelectedSize(b + [row, Span(FULL)], l.B.shape);
    ShapeOfProduct(l);
    SelectedSize(sels, Shape(l));
    hide Axes, Selected, Fits, TupleForA, Valid, Dense, Shape;
  }

  /**
    For every tuple of integers and slices that the plain tensor takes: the factors give what the plain tensor gives if
    and only if the last two entries are slices and the others keep all matrices on the axes where A has several.
  */
  lemma {:induction false} GetTupleExactly(l: Lora, sels: seq<Selector>)
    requires Valid(l) && |sels| == |l.B.shape| && Fits(sels, Shape(l))
    ensures Dense(l).shape == Shape(l)
    ensures var r, n := GetTupleOf(l, sels), |sels|;
            |sels[..n - 2]| == |FirstAxes(l.A)| && Fits(sels[..n - 2], FirstAxes(l.B))
            && ((r.Some? && Valid(r.value) && Same(Dense(r.value), Select(Dense(l), sels)))
                <==> sels[n - 2].Span? && sels[n - 1].Span? && Precise(sels[..n - 2], FirstAxes(l.A), FirstAxes(l.B)))
  {
    var n, r := |sels|, GetTupleOf(l, sels);
    AnyTupleFits(l, sels);
    DenseShape(l);
    if sels[n - 2].Span? && sels[n - 1].Span? {
      SlicesLast(l, sels);
    } else if r.Some? && Valid(r.value) {
      IntegersLastBreak(l, sels);
      ShapeOfProduct(r.value);
      hide Select, Dense, Valid, GetTupleOf, Fits, Shape, Precise;
    }
  }

  lemma {:induction false} SlicesLast(l: Lora, sels: seq<Selector>)
    requires Valid(l) && |sels| == |l.B.shape| && Fits(sels, Shape(l))
    requires sels[|sels| - 2].Span? && sels[|sels| - 1].Span?
    ensures Dense(l).shape == Shape(l)
    ensures var r, b := GetTupleOf(l, sels), sels[..|sels| - 2];
            |b| == |FirstAxes(l.A)| && Fits(b, FirstAxes(l.B))
            && ((r.Some? && Valid(r.value) && Same(Dense(r.value), Select(Dense(l), sels)))
                <==> Precise(b, FirstAxes(l.A), FirstAxes(l.B)))
  {
    var n := |sels|;
    var b, rs, cs := sels[..n - 2], sels[n - 2].s, sels[n - 1].s;
    AnyTupleFits(l, sels);
    DenseShape(l);
    assert sels == b + [Span(rs), Span(cs)];
    assert Selects(sels[n - 2], Shape(l)[n - 2]) && Selects(sels[n - 1], Shape(l)[n - 1]);
    hide Dense, Select, Fits, Precise, Valid, TupleForA, Same;
    MakeOfTuple(l, b, rs, cs);
    if Precise(b, FirstAxes(l.A), FirstAxes(l.B)) {
      GetTupleCommutes(l, b, rs, cs);
    } else {
      GetTupleBreaks(l, b, rs, cs);
    }
  }

  /** With slices in the last places, the constructor accepts the factors. */
  lemma {:induction false} MakeOfTuple(l: Lora, b: seq<Selector>, rs: Slice, cs: Slice)
    requires Valid(l) && rs.step > 0 && cs.step > 0 && |b| == |FirstAxes(l.A)| && Fits(b, FirstAxes(l.B))
    requires forall i :: 0 <= i < |b| && b[i].Index? ==> FirstAxes(l.A)[i] > 0
    requires Fits(b + [Span(rs), Span(cs)], Shape(l)) && |b| + 2 == |l.B.shape|
    ensures GetTuple(l, b, rs, cs).Some? && GetTupleOf(l, b + [Span(rs), Span(cs)]) == GetTuple(l, b, rs, cs)
  {
    var ab, bb, rows, rank, cols := PartsOf(l);
    ValidParts(l, ab, bb, rows, rank, cols);
    FirstAxesOf(l.A, ab, rank, cols);
    FirstAxesOf(l.B, bb, rows, rank);
    TupleForAFits(b, ab);
    TupleForAKeepsAxes(b, ab);
    var a := TupleForA(b, ab);
    var sels := b + [Span(rs), Span(cs)];
    assert sels[..|sels| - 2] == b && sels[|sels| - 2] == Span(rs) && sels[|sels| - 1] == Span(cs);
    SelectAt(l.A, a, FULL, cs, ab, rank, cols, Zeros(Axes(a)), 0, 0);
    SelectAt(l.B, b, rs, FULL, bb, rows, rank, Zeros(Axes(b)), 0, 0);
    FullPosition(rank, 0);
    SelectedSize(a, ab);
    SelectedSize(b, bb);
    hide TupleForA, Select, Resolve, Selected, Axes;
  }

  // ----- An ellipsis in the tuple -----

  predicate AllSpans(sels: seq<Selector>) {
    forall i :: 0 <= i < |sels| ==> sels[i].Span? && sels[i].s.step > 0
  }

  /** How the tensor expands `[..., s]`: as many full slices as there are other entries, then padding at the end. */
  function ExpandedByCode(s: Slice, n: nat): (sels: seq<Selector>)
    requires n >= 2 && s.step > 0
    ensures |sels| == n && AllSpans(sels)
  {
    [Span(FULL), Span(s)] + Full(n - 2)
  }

  /** What `[..., s]` means for a plain tensor: the slice of the last axis. */
  function ExpandedByMeaning(s: Slice, n: nat): (sels: seq<Selector>)
    requires n >= 2 && s.step > 0
    ensures |sels| == n && AllSpans(sels)
  {
    Full(n - 1) + [Span(s)]
  }

  predicate KeepsAll(s: Slice, n: int)
    requires s.step > 0
  {
    Resolve(s, n).count == n
  }

  /** Slices that leave every axis its size leave the tensor as it is. */
  lemma {:induction false} KeepingIsIdentity(sels: seq<Selector>, shape: seq<int>, ix: seq<int>)
    requires AllSpans(sels) && IsShape(shape) && |sels| == |shape| && Within(ix, shape)
    requires forall i :: 0 <= i < |sels| ==> KeepsAll(sels[i].s, shape[i])
    ensures Fits(sels, shape) && Axes(sels) == |ix|
    ensures Origin(sels, shape, ix) == ix
    decreases |sels|
  {
    hide Resolve, Position;
    if sels != [] {
      KeepingIsIdentity(sels[1..], shape[1..], ix[1..]);
      AllKept(sels[0].s, shape[0], ix[0]);
      assert ix == [ix[0]] + ix[1..];
    }
  }

  lemma {:induction false} KeepingKeepsShape(sels: seq<Selector>, shape: seq<int>)
    requires AllSpans(sels) && |sels| == |shape|
    requires forall i :: 0 <= i < |sels| ==> KeepsAll(sels[i].s, shape[i])
    ensures Fits(sels, shape) && Selected(sels, shape) == shape
    decreases |sels|
  {
    hide Resolve;
    if sels != [] {
      KeepingKeepsShape(sels[1..], shape[1..]);
      assert shape == [shape[0]] + shape[1..];
    }
  }

  lemma {:induction false} KeepingKeepsTensor(t: Tensor, sels: seq<Selector>)
    requires AllSpans(sels) && IsShape(t.shape) && |sels| == |t.shape|
    requires forall i :: 0 <= i < |sels| ==> KeepsAll(sels[i].s, t.shape[i])
    ensures Fits(sels, t.shape) && Same(Select(t, sels), t)
  {
    hide Resolve, Origin, Selected, KeepsAll;
    KeepingKeepsShape(sels, t.shape);
    forall ix | Within(ix, t.shape) ensures Select(t, sels).at(ix) == t.at(ix) {
      KeepingIsIdentity(sels, t.shape, ix);
    }
  }

  /** Where slices leave different sizes, the shapes differ. */
  lemma {:induction false} SizeOfAxis(sels: seq<Selector>, shape: seq<int>, i: nat)
    requires AllSpans(sels) && |sels| == |shape| && i < |sels|
    ensures Fits(sels, shape)
    ensures i < |Selected(sels, shape)| && Selected(sels, shape)[i] == Resolve(sels[i].s, shape[i]).count
  {
    AllSpansKeepAxes(sels[..i]);
    SelectedAt(sels, shape, i);
  }

  /** For a given tensor the expansion is right exactly for matrices, or where the slice leaves both axes their size. */
  lemma {:induction false} EllipsisExactly(t: Tensor, s: Slice)
    requires |t.shape| >= 2 && IsShape(t.shape) && s.step > 0
    ensures var n := |t.shape|;
            Same(Select(t, ExpandedByCode(s, n)), Select(t, ExpandedByMeaning(s, n)))
            <==> n == 2 || (KeepsAll(s, t.shape[1]) && KeepsAll(s, t.shape[n - 1]))
  {
    var n := |t.shape|;
    var x, y := ExpandedByCode(s, n), ExpandedByMeaning(s, n);
    hide Resolve, Select;
    assert x[0] == Span(FULL) && x[1] == Span(s) && forall i :: 2 <= i < n ==> x[i] == Span(FULL);
    assert y[n - 1] == Span(s) && forall i :: 0 <= i < n - 1 ==> y[i] == Span(FULL);
    if n == 2 {
      assert x == y;
    } else if KeepsAll(s, t.shape[1]) && KeepsAll(s, t.shape[n - 1]) {
      forall i | 0 <= i < n ensures KeepsAll(x[i].s, t.shape[i]) && KeepsAll(y[i].s, t.shape[i]) {
        FullPosition(t.shape[i], 0);
      }
      KeepingKeepsTensor(t, x);
      KeepingKeepsTensor(t, y);
    } else {
      ShapesDiffer(t, s);
    }
  }

  lemma {:induction false} ShapesDiffer(t: Tensor, s: Slice)
    requires |t.shape| > 2 && IsShape(t.shape) && s.step > 0
    requires !(KeepsAll(s, t.shape[1]) && KeepsAll(s, t.shape[|t.shape| - 1]))
    ensures var n := |t.shape|;
            Select(t, ExpandedByCode(s, n)).shape != Select(t, ExpandedByMeaning(s, n)).shape
  {
    var n := |t.shape|;
    var x, y := ExpandedByCode(s, n), ExpandedByMeaning(s, n);
    hide Resolve;
    assert x[1] == Span(s) && x[n - 1] == Span(FULL) && y[1] == Span(FULL) && y[n - 1] == Span(s);
    var k := if !KeepsAll(s, t.shape[1]) then 1 else n - 1;
    SizeOfAxis(x, t.shape, k);
    SizeOfAxis(y, t.shape, k);
    FullPosition(t.shape[k], 0);
  }

  /** The slice takes everything, in order, from an axis of any size. */
  ghost predicate TakesAll(s: Slice)
    requires s.step > 0
  {
    forall k :: k >= 0 ==> Resolve(s, k) == Pick(0, 1, k)
  }

  /** A slice that does not take everything leaves an axis of some size shorter. */
  lemma {:induction false} ShortenedAxis(s: Slice) returns (k: nat)
    requires s.step > 0 && !TakesAll(s)
    ensures !KeepsAll(s, k)
  {
    var m :| m >= 0 && Resolve(s, m) != Pick(0, 1, m);
    k := if s.step == 1 then m else 2;
    if s.step != 1 && KeepsAll(s, 2) {
      PicksAreWithin(s, 2, 0);
      PicksAreWithin(s, 2, 1);
    }
  }

  /** The expansion is right for every tensor of a rank: for matrices, or for a slice that takes everything anyway. */
  lemma {:induction false} EllipsisIsRightForMatrices(s: Slice, n: nat)
    requires n >= 2 && s.step > 0
    ensures (forall t: Tensor :: |t.shape| == n && IsShape(t.shape) ==>
               Same(Select(t, ExpandedByCode(s, n)), Select(t, ExpandedByMeaning(s, n))))
            <==> n == 2 || TakesAll(s)
  {
    hide Resolve, Select, Same, ExpandedByCode, ExpandedByMeaning;
    if n == 2 || TakesAll(s) {
      forall t: Tensor | |t.shape| == n && IsShape(t.shape)
        ensures Same(Select(t, ExpandedByCode(s, n)), Select(t, ExpandedByMeaning(s, n)))
      {
        EllipsisExactly(t, s);
      }
    } else {
      var k := ShortenedAxis(s);
      var t := Tensor(seq(n, i => k), (ix: seq<int>) => 0.0);
      EllipsisExactly(t, s);
    }
  }

  /** `self[..., s]`, as the tensor expands it. */
  function GetEllipsis(l: Lora, s: Slice): Option<Lora>
    requires Valid(l) && s.step > 0
  {
    var n := |l.B.shape|;
    var sels := ExpandedByCode(s, n);
    GetTuple(l, sels[..n - 2], sels[n - 2].s, sels[n - 1].s)
  }

  /** It slices the last axis of the product exactly for matrices, or where the slice leaves both axes their size. */
  lemma {:induction false} GetEllipsisCommutesExactly(l: Lora, s: Slice)
    requires Valid(l) && s.step > 0
    ensures GetEllipsis(l, s).Some?
    ensures var m, n := GetEllipsis(l, s).value, |l.B.shape|;
            Fits(ExpandedByMeaning(s, n), Shape(l))
            && ((Valid(m) && Same(Dense(m), Select(Dense(l), ExpandedByMeaning(s, n))))
                <==> n == 2 || (KeepsAll(s, Shape(l)[1]) && KeepsAll(s, Shape(l)[n - 1])))
  {
    var n := |l.B.shape|;
    var x, y := ExpandedByCode(s, n), ExpandedByMeaning(s, n);
    var b, rs, cs := x[..n - 2], x[n - 2].s, x[n - 1].s;
    ShapeOfProduct(l);
    EllipsisExactly(Dense(l), s);
    EllipsisIsPrecise(l, s);
    assert x == b + [Span(rs), Span(cs)];
    hide Dense, Select, Resolve, GetTuple, Precise, Valid, ExpandedByCode, ExpandedByMeaning;
    if Precise(b, FirstAxes(l.A), FirstAxes(l.B)) {
      GetTupleCommutes(l, b, rs, cs);
    } else {
      GetTupleBreaks(l, b, rs, cs);
    }
  }

  lemma {:induction false} ShapeOfProduct(l: Lora)
    requires Valid(l)
    ensures |Shape(l)| == |l.B.shape| && IsShape(Shape(l)) && Dense(l).shape == Shape(l)
    ensures FirstAxes(l.B) == Shape(l)[..|Shape(l)| - 2]
  {
  }

  lemma {:induction false} EllipsisIsPrecise(l: Lora, s: Slice)
    requires Valid(l) && s.step > 0
    ensures GetEllipsis(l, s).Some?
    ensures var n := |l.B.shape|;
            var b := ExpandedByCode(s, n)[..n - 2];
            && Fits(b, FirstAxes(l.B)) && |b| == |FirstAxes(l.A)|
            && (n == 2 || KeepsAll(s, Shape(l)[1]) ==> Precise(b, FirstAxes(l.A), FirstAxes(l.B)))
  {
    var n := |l.B.shape|;
    var x := ExpandedByCode(s, n);
    var b, bb := x[..n - 2], FirstAxes(l.B);
    hide Resolve;
    forall i | 0 <= i < |b| && i != 1 ensures KeepsAll(b[i].s, bb[i]) {
      FullPosition(bb[i], 0);
    }
  }

  // ----- Splitting -----

  function Range(start: nat, len: nat): Slice {
    Slice(Some(start), Some(start + len), 1)
  }

  /** One of the parts into which an axis is split. */
  function SplitPart(l: Lora, dim: nat, start: nat, len: nat): Lora
    requires Valid(l) && dim < |l.B.shape| && start + len <= Shape(l)[dim]
  {
    var n := |l.B.shape|;
    var full, part := Full(n - 2), Range(start, len);
    if dim == n - 1 then
      SliceFitsBoth(l, full, full, FULL, part);
      SelectBoth(l, full, full, FULL, part)
    else if dim == n - 2 then
      SliceFitsBoth(l, full, full, part, FULL);
      SelectBoth(l, full, full, part, FULL)
    else
      var sels := Only(n - 2, dim, Span(part));
      var a := if l.A.shape[dim] == 1 then full else sels;
      SliceFitsBoth(l, a, sels, FULL, FULL);
      SelectBoth(l, a, sels, FULL, FULL)
  }

  lemma {:induction false} SliceFitsBoth(l: Lora, a: seq<Selector>, b: seq<Selector>, rs: Slice, cs: Slice)
    requires Valid(l) && |a| == |b| == |l.B.shape| - 2 && rs.step > 0 && cs.step > 0
    requires forall i :: 0 <= i < |a| ==> a[i].Span? && a[i].s.step > 0
    requires forall i :: 0 <= i < |b| ==> b[i].Span? && b[i].s.step > 0
    ensures Fits(a + [Span(FULL), Span(cs)], l.A.shape) && Fits(b + [Span(rs), Span(FULL)], l.B.shape)
  {
  }

  /** The part as it is taken from the plain tensor. */
  function PartOf(n: nat, dim: nat, start: nat, len: nat): seq<Selector>
    requires dim < n && n >= 2
  {
    if dim == n - 1 then Full(n - 2) + [Span(FULL), Span(Range(start, len))]
    else if dim == n - 2 then Full(n - 2) + [Span(Range(start, len)), Span(FULL)]
    else Only(n - 2, dim, Span(Range(start, len))) + [Span(FULL), Span(FULL)]
  }

  /** The selectors of a part, for the two factors. */
  lemma {:induction false} SplitSelects(l: Lora, dim: nat, start: nat, len: nat)
    returns (a: seq<Selector>, b: seq<Selector>, rs: Slice, cs: Slice)
    requires Valid(l) && dim < |l.B.shape| && start + len <= Shape(l)[dim]
    ensures rs.step > 0 && cs.step > 0
    ensures Fits(a, FirstAxes(l.A)) && Fits(b, FirstAxes(l.B)) && Follows(a, b, FirstAxes(l.A), FirstAxes(l.B))
    ensures Fits(a + [Span(FULL), Span(cs)], l.A.shape) && Fits(b + [Span(rs), Span(FULL)], l.B.shape)
    ensures SplitPart(l, dim, start, len) == SelectBoth(l, a, b, rs, cs)
    ensures PartOf(|l.B.shape|, dim, start, len) == b + [Span(rs), Span(cs)]
  {
    hide Follows, Select, Resolve, Position, Only, Full, Selects, IsShape, SpreadsOver;
    var ab, bb, rows, rank, cols := PartsOf(l);
    var n, part := |l.B.shape|, Range(start, len);
    assert ab == FirstAxes(l.A) && bb == FirstAxes(l.B);
    a, b, rs, cs := Full(n - 2), Full(n - 2), FULL, FULL;
    if dim >= n - 2 {
      AllFullFollows(l, ab, bb, rows, rank, cols);
      if dim == n - 1 {
        cs := part;
      } else {
        rs := part;
      }
    } else {
      b := Only(n - 2, dim, Span(part));
      if l.A.shape[dim] != 1 {
        a := b;
      }
      BatchPartFollows(l, ab, bb, rows, rank, cols, dim, start, len);
    }
    SliceFitsBoth(l, a, b, rs, cs);
  }

  lemma {:induction false} BatchPartFollows(l: Lora, ab: seq<int>, bb: seq<int>, rows: int, rank: int, cols: int,
                         dim: nat, start: nat, len: nat)
    requires Valid(l) && Parts(l, ab, bb, rows, rank, cols) && dim < |bb| && start + len <= bb[dim]
    ensures |ab| == |bb|
    ensures var b := Only(|bb|, dim, Span(Range(start, len)));
            var a := if ab[dim] == 1 then Full(|ab|) else b;
            Fits(a, ab) && Fits(b, bb) && Follows(a, b, ab, bb)
  {
    ValidParts(l, ab, bb, rows, rank, cols);
    PartFollows(start, len, ab[dim], bb[dim]);
    hide AxisFollows, Follows, Fits, Resolve;
    if ab[dim] == 1 {
      OnlyFollows(l, ab, bb, rows, rank, cols, dim, Span(FULL), Span(Range(start, len)));
      assert Only(|ab|, dim, Span(FULL)) == Full(|ab|);
    } else {
      OnlyFollows(l, ab, bb, rows, rank, cols, dim, Span(Range(start, len)), Span(Range(start, len)));
    }
  }

  lemma {:induction false} PartFollows(start: nat, len: nat, m: int, n: int)
    requires start + len <= n && (m == n || m == 1)
    ensures m == 1 ==> AxisFollows(Span(FULL), Span(Range(start, len)), m, n)
    ensures m != 1 ==> AxisFollows(Span(Range(start, len)), Span(Range(start, len)), m, n)
  {
    hide Resolve, Position, PicksFollow;
    var part := Range(start, len);
    FullPosition(1, 0);
    FirstPickFollows(Resolve(FULL, 1), Resolve(part, n));
    if m != 1 {
      SamePicksFollow(Resolve(part, n), n);
    }
  }

  lemma {:induction false} SplitCommutes(l: Lora, dim: nat, start: nat, len: nat)
    requires Valid(l) && dim < |l.B.shape| && start + len <= Shape(l)[dim]
    ensures var m, sels := SplitPart(l, dim, start, len), PartOf(|l.B.shape|, dim, start, len);
            Valid(m) && Fits(sels, Shape(l)) && Same(Dense(m), Select(Dense(l), sels))
  {
    var ab, bb, rows, rank, cols := PartsOf(l);
    FirstAxesOf(l.A, ab, rank, cols);
    FirstAxesOf(l.B, bb, rows, rank);
    hide Dense, Select, Fits, Follows, Same, Full, Valid, SplitPart, PartOf, SelectBoth;
    var a, b, rs, cs := SplitSelects(l, dim, start, len);
    SelectCommutes(l, ab, bb, rows, rank, cols, a, b, rs, cs);
  }
}
