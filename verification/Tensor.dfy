/**
  Dense tensors over the reals: a shape and the value at every index. The operations are those of the tensor library
  that the converter applies; each reads the value at an index from another index of its operand.
*/
module Tensor {
  import opened Wrappers
  import opened Basics

  /** Values outside the shape are of no account. */
  datatype Tensor = Tensor(shape: seq<int>, at: seq<int> -> real)

  predicate Within(ix: seq<int>, shape: seq<int>) {
    |ix| == |shape| && forall i :: 0 <= i < |ix| ==> 0 <= ix[i] < shape[i]
  }

  predicate IsShape(shape: seq<int>) {
    forall i :: 0 <= i < |shape| ==> 0 <= shape[i]
  }

  ghost predicate Same(t: Tensor, u: Tensor) {
    t.shape == u.shape && forall ix :: Within(ix, t.shape) ==> t.at(ix) == u.at(ix)
  }

  lemma {:induction false} WithinParts(a: seq<int>, b: seq<int>, s: seq<int>, t: seq<int>)
    requires Within(a, s) && Within(b, t)
    ensures Within(a + b, s + t)
  {
  }

  // ----- Indexing with integers and slices -----

  datatype Slice = Slice(start: Option<int>, stop: Option<int>, step: int)

  const FULL := Slice(None, None, 1)

  datatype Selector = Index(i: int) | Span(s: Slice)

  /** The positions `lo`, `lo + step`, ... of a slice. */
  datatype Pick = Pick(lo: int, step: int, count: int)

  function Position(p: Pick, x: int): int {
    p.lo + p.step * x
  }

  function Clamp(i: int, n: int): int {
    if i < 0 then (if i + n < 0 then 0 else i + n) else if i > n then n else i
  }

  function Resolve(s: Slice, n: int): Pick
    requires s.step > 0
  {
    var lo := if s.start.None? then 0 else Clamp(s.start.value, n);
    var hi := if s.stop.None? then n else Clamp(s.stop.value, n);
    Pick(lo, s.step, if lo < hi then (hi - lo + s.step - 1) / s.step else 0)
  }

  lemma {:induction false} PicksAreWithin(s: Slice, n: int, x: int)
    requires s.step > 0 && n >= 0 && 0 <= x < Resolve(s, n).count
    ensures 0 <= Position(Resolve(s, n), x) < n
  {
    var p := Resolve(s, n);
    var hi := if s.stop.None? then n else Clamp(s.stop.value, n);
    var span, k := hi - p.lo + p.step - 1, p.step;
    assert span / k * k <= span;
    assert x * k <= (span / k - 1) * k by {
      MulMonotone(x, span / k - 1, k);
    }
    assert (span / k - 1) * k == span / k * k - k;
  }

  /** Where a bound of a slice falls on an axis of `n` places: negative ones count from the end, others are cut off. */
  predicate IsBound(b: Option<int>, n: int, default: int, at: int) {
    match b
    case None => at == default
    case Some(v) => at == (if v >= n then n else if v >= 0 then v else if v >= -n then v + n else 0)
  }

  /** A slice takes every `step`-th place from its start up to its stop. */
  lemma {:induction false} PicksExactly(s: Slice, n: int, lo: int, hi: int, p: int)
    requires s.step > 0 && n >= 0 && IsBound(s.start, n, 0, lo) && IsBound(s.stop, n, n, hi)
    ensures (exists x :: 0 <= x < Resolve(s, n).count && Position(Resolve(s, n), x) == p)
            <==> lo <= p < hi && (p - lo) % s.step == 0
  {
    var r, k := Resolve(s, n), s.step;
    assert r.lo == lo && (r.count > 0 ==> lo < hi && r.count == (hi - lo + k - 1) / k);
    if x :| 0 <= x < r.count && Position(r, x) == p {
      StepsWithin(x, r.count, hi - lo, k);
      assert p - lo == k * x;
      RemainderOfMultiple(x, k);
    }
    if lo <= p < hi && (p - lo) % k == 0 {
      var x := (p - lo) / k;
      assert p - lo == k * x;
      StepsBefore(x, hi - lo, k);
      assert x >= 0 && Position(r, x) == p;
    }
  }

  lemma {:induction false} StepsWithin(x: int, count: int, span: int, k: int)
    requires k > 0 && 0 <= x < count && count == (span + k - 1) / k
    ensures 0 <= k * x < span
  {
    MulMonotone(x, count - 1, k);
    assert count * k <= span + k - 1;
    assert (count - 1) * k == count * k - k;
  }

  lemma {:induction false} RemainderOfMultiple(x: int, k: int)
    requires k > 0
    ensures (k * x) % k == 0
  {
    DivMod(x, k, 0);
    assert x * k + 0 == k * x;
  }

  lemma {:induction false} StepsBefore(x: int, span: int, k: int)
    requires k > 0 && k * x < span
    ensures x < (span + k - 1) / k
  {
    if x >= (span + k - 1) / k {
      MulMonotone((span + k - 1) / k, x, k);
    }
  }

  function Normal(i: int, n: int): int {
    if i < 0 then i + n else i
  }

  predicate Selects(sel: Selector, n: int) {
    match sel
    case Index(i) => -n <= i < n
    case Span(s) => s.step > 0
  }

  /** One selector for every axis. */
  predicate Fits(sels: seq<Selector>, shape: seq<int>) {
    |sels| == |shape| && forall i :: 0 <= i < |sels| ==> Selects(sels[i], shape[i])
  }

  /** An integer takes the axis away. */
  function Selected(sels: seq<Selector>, shape: seq<int>): seq<int>
    requires Fits(sels, shape)
  {
    if sels == [] then []
    else
      (match sels[0] case Index(_) => [] case Span(s) => [Resolve(s, shape[0]).count])
      + Selected(sels[1..], shape[1..])
  }

  function Axes(sels: seq<Selector>): nat {
    if sels == [] then 0 else (if sels[0].Index? then 0 else 1) + Axes(sels[1..])
  }

  /** Where the value at `ix` comes from. */
  function Origin(sels: seq<Selector>, shape: seq<int>, ix: seq<int>): (o: seq<int>)
    requires Fits(sels, shape) && |ix| == Axes(sels)
    ensures |o| == |shape|
  {
    if sels == [] then []
    else
      match sels[0]
      case Index(i) => [Normal(i, shape[0])] + Origin(sels[1..], shape[1..], ix)
      case Span(s) =>
        var p := Resolve(s, shape[0]);
        [Position(p, ix[0])] + Origin(sels[1..], shape[1..], ix[1..])
  }

  function Select(t: Tensor, sels: seq<Selector>): Tensor
    requires Fits(sels, t.shape)
  {
    Tensor(Selected(sels, t.shape),
           (ix: seq<int>) => if |ix| == Axes(sels) then t.at(Origin(sels, t.shape, ix)) else 0.0)
  }

  lemma {:induction false} SelectedSize(sels: seq<Selector>, shape: seq<int>)
    requires Fits(sels, shape)
    ensures |Selected(sels, shape)| == Axes(sels)
    decreases |sels|
  {
    if sels != [] {
      SelectedSize(sels[1..], shape[1..]);
    }
  }

  /** The size of an axis that a slice leaves. */
  lemma {:induction false} SelectedAt(sels: seq<Selector>, shape: seq<int>, i: nat)
    requires Fits(sels, shape) && i < |sels| && sels[i].Span?
    ensures var k, s := Axes(sels[..i]), Selected(sels, shape);
            k < |s| && s[k] == Resolve(sels[i].s, shape[i]).count
    decreases i
  {
    hide Resolve;
    if i == 0 {
      assert sels[..0] == [];
    } else {
      SelectedAt(sels[1..], shape[1..], i - 1);
      AxesOfFirst(sels, i);
    }
  }

  lemma {:induction false} AxesOfFirst(sels: seq<Selector>, i: nat)
    requires 0 < i <= |sels|
    ensures Axes(sels[..i]) == (if sels[0].Index? then 0 else 1) + Axes(sels[1..][..i - 1])
  {
    assert sels[..i][1..] == sels[1..][..i - 1] && sels[..i][0] == sels[0];
  }

  lemma {:induction false} OriginWithin(sels: seq<Selector>, shape: seq<int>, ix: seq<int>)
    requires Fits(sels, shape) && IsShape(shape) && Within(ix, Selected(sels, shape))
    ensures |ix| == Axes(sels) && Within(Origin(sels, shape, ix), shape)
    decreases |sels|
  {
    SelectedSize(sels, shape);
    if sels != [] {
      var rest := Selected(sels[1..], shape[1..]);
      if sels[0].Index? {
        assert Selected(sels, shape) == rest;
        OriginWithin(sels[1..], shape[1..], ix);
        WithinParts([Normal(sels[0].i, shape[0])], Origin(sels[1..], shape[1..], ix), [shape[0]], shape[1..]);
      } else {
        var p := Resolve(sels[0].s, shape[0]);
        assert Selected(sels, shape) == [p.count] + rest;
        assert rest == Selected(sels, shape)[1..];
        PicksAreWithin(sels[0].s, shape[0], ix[0]);
        OriginWithin(sels[1..], shape[1..], ix[1..]);
        WithinParts([Position(p, ix[0])], Origin(sels[1..], shape[1..], ix[1..]), [shape[0]], shape[1..]);
      }
      assert [shape[0]] + shape[1..] == shape;
    }
  }

  lemma {:induction false} IndexFirst(i: int, rest: seq<Selector>, n: int, shape: seq<int>, ix: seq<int>)
    requires Selects(Index(i), n) && Fits(rest, shape) && |ix| == Axes(rest)
    ensures Fits([Index(i)] + rest, [n] + shape) && Axes([Index(i)] + rest) == |ix|
    ensures Origin([Index(i)] + rest, [n] + shape, ix) == [Normal(i, n)] + Origin(rest, shape, ix)
    ensures Selected([Index(i)] + rest, [n] + shape) == Selected(rest, shape)
  {
    assert ([Index(i)] + rest)[1..] == rest && ([n] + shape)[1..] == shape;
    assert [] + Selected(rest, shape) == Selected(rest, shape);
  }

  lemma {:induction false} SpanFirst(s: Slice, rest: seq<Selector>, n: int, shape: seq<int>, x: int, ix: seq<int>)
    requires Selects(Span(s), n) && Fits(rest, shape) && |ix| == Axes(rest)
    ensures Fits([Span(s)] + rest, [n] + shape) && Axes([Span(s)] + rest) == 1 + |ix|
    ensures Origin([Span(s)] + rest, [n] + shape, [x] + ix) == [Position(Resolve(s, n), x)] + Origin(rest, shape, ix)
    ensures Selected([Span(s)] + rest, [n] + shape) == [Resolve(s, n).count] + Selected(rest, shape)
  {
    hide Position, Resolve;
    assert ([Span(s)] + rest)[1..] == rest && ([n] + shape)[1..] == shape && ([x] + ix)[1..] == ix;
  }

  /** Selecting along the first axes and along the others. */
  ghost predicate InParts(a: seq<Selector>, b: seq<Selector>, s: seq<int>, t: seq<int>, ix: seq<int>, iy: seq<int>)
    requires Fits(a, s) && Fits(b, t) && |ix| == Axes(a) && |iy| == Axes(b)
  {
    && Fits(a + b, s + t) && Axes(a + b) == |ix + iy|
    && Origin(a + b, s + t, ix + iy) == Origin(a, s, ix) + Origin(b, t, iy)
    && Selected(a + b, s + t) == Selected(a, s) + Selected(b, t)
  }

  lemma {:induction false} OneIndexMore(i: int, a: seq<Selector>, b: seq<Selector>, n: int, s: seq<int>, t: seq<int>,
                     ix: seq<int>, iy: seq<int>)
    requires Fits(a, s) && Fits(b, t) && |ix| == Axes(a) && |iy| == Axes(b)
    requires InParts(a, b, s, t, ix, iy) && Selects(Index(i), n)
    ensures Fits([Index(i)] + a, [n] + s) && Axes([Index(i)] + a) == |ix|
    ensures InParts([Index(i)] + a, b, [n] + s, t, ix, iy)
  {
    hide Origin, Selected, Axes, Normal, Selects, Fits;
    IndexFirst(i, a + b, n, s + t, ix + iy);
    IndexFirst(i, a, n, s, ix);
    Associate([Index(i)], a, b);
    Associate([n], s, t);
    Associate([Normal(i, n)], Origin(a, s, ix), Origin(b, t, iy));
  }

  lemma {:induction false} OneSpanMore(sl: Slice, a: seq<Selector>, b: seq<Selector>, n: int, s: seq<int>, t: seq<int>,
                    x: int, ix: seq<int>, iy: seq<int>)
    requires Fits(a, s) && Fits(b, t) && |ix| == Axes(a) && |iy| == Axes(b)
    requires InParts(a, b, s, t, ix, iy) && Selects(Span(sl), n)
    ensures Fits([Span(sl)] + a, [n] + s) && Axes([Span(sl)] + a) == |[x] + ix|
    ensures InParts([Span(sl)] + a, b, [n] + s, t, [x] + ix, iy)
  {
    hide Origin, Selected, Axes, Resolve, Position, Fits;
    SpanFirst(sl, a + b, n, s + t, x, ix + iy);
    SpanFirst(sl, a, n, s, x, ix);
    Associate([Span(sl)], a, b);
    Associate([n], s, t);
    Associate([x], ix, iy);
    Associate([Position(Resolve(sl, n), x)], Origin(a, s, ix), Origin(b, t, iy));
    Associate([Resolve(sl, n).count], Selected(a, s), Selected(b, t));
  }

  lemma {:induction false} OriginParts(a: seq<Selector>, b: seq<Selector>, s: seq<int>, t: seq<int>,
                                       ix: seq<int>, iy: seq<int>)
    requires Fits(a, s) && Fits(b, t) && |ix| == Axes(a) && |iy| == Axes(b)
    ensures InParts(a, b, s, t, ix, iy)
    decreases |a|
  {
    if a == [] {
      assert a + b == b && s + t == t && ix + iy == iy;
    } else {
      var first, c, n, s' := a[0], a[1..], s[0], s[1..];
      assert a == [first] + c && s == [n] + s' && Fits(c, s') && Selects(first, n);
      if first.Index? {
        OriginParts(c, b, s', t, ix, iy);
        hide InParts;
        OneIndexMore(first.i, c, b, n, s', t, ix, iy);
      } else {
        var x, ix' := ix[0], ix[1..];
        assert ix == [x] + ix';
        OriginParts(c, b, s', t, ix', iy);
        hide InParts;
        OneSpanMore(first.s, c, b, n, s', t, x, ix', iy);
      }
    }
  }

  /** Two slices along the last two axes. */
  lemma {:induction false} TwoSpansLast(a: seq<Selector>, x: Slice, y: Slice, s: seq<int>, m: int, n: int,
                                        ix: seq<int>, i: int, j: int)
    requires Fits(a, s) && x.step > 0 && y.step > 0 && |ix| == Axes(a)
    ensures var sels, shape := a + [Span(x), Span(y)], s + [m, n];
            && Fits(sels, shape) && Axes(sels) == |ix| + 2
            && Selected(sels, shape) == Selected(a, s) + [Resolve(x, m).count, Resolve(y, n).count]
            && Origin(sels, shape, ix + [i, j])
               == Origin(a, s, ix) + [Position(Resolve(x, m), i), Position(Resolve(y, n), j)]
  {
    hide Resolve, Position;
    var b, t, iy := [Span(x), Span(y)], [m, n], [i, j];
    SpanFirst(y, [], n, [], j, []);
    assert [Span(y)] + [] == [Span(y)] && [n] + [] == [n] && [j] + [] == [j];
    SpanFirst(x, [Span(y)], m, [n], i, [j]);
    assert [Span(x)] + [Span(y)] == b && [m] + [n] == t && [i] + [j] == iy;
    OriginParts(a, b, s, t, ix, iy);
  }

  lemma {:induction false} SelectAt(t: Tensor, a: seq<Selector>, x: Slice, y: Slice, s: seq<int>, m: int, n: int,
                 ix: seq<int>, i: int, j: int)
    requires t.shape == s + [m, n] && Fits(a, s) && x.step > 0 && y.step > 0 && |ix| == Axes(a)
    ensures Fits(a + [Span(x), Span(y)], t.shape)
    ensures var u := Select(t, a + [Span(x), Span(y)]);
            && u.shape == Selected(a, s) + [Resolve(x, m).count, Resolve(y, n).count]
            && u.at(ix + [i, j]) == t.at(Origin(a, s, ix) + [Position(Resolve(x, m), i), Position(Resolve(y, n), j)])
  {
    TwoSpansLast(a, x, y, s, m, n, ix, i, j);
    hide Fits, Axes, Selected, Origin, Resolve, Position;
  }

  lemma {:induction false} FullPosition(n: int, x: int)
    requires n >= 0
    ensures Resolve(FULL, n).count == n && Position(Resolve(FULL, n), x) == x
  {
  }

  lemma {:induction false} SelectedIsShape(sels: seq<Selector>, shape: seq<int>)
    requires Fits(sels, shape)
    ensures IsShape(Selected(sels, shape))
    decreases |sels|
  {
    if sels != [] {
      SelectedIsShape(sels[1..], shape[1..]);
      if sels[0].Span? {
        CountIsNatural(sels[0].s, shape[0]);
      }
    }
  }

  lemma {:induction false} CountIsNatural(s: Slice, n: int)
    requires s.step > 0
    ensures Resolve(s, n).count >= 0
  {
  }

  /** An index within a shape that ends in two axes. */
  lemma {:induction false} WithinTwo(ix: seq<int>, s: seq<int>, m: int, n: int) returns (x: seq<int>, i: int, j: int)
    requires Within(ix, s + [m, n])
    ensures ix == x + [i, j] && Within(x, s) && 0 <= i < m && 0 <= j < n
  {
    var t := s + [m, n];
    var k := |s|;
    assert t[k] == m && t[k + 1] == n;
    assert forall d :: 0 <= d < k ==> t[d] == s[d];
    x, i, j := ix[..k], ix[k], ix[k + 1];
  }

  // ----- Reshaping -----

  function Product(shape: seq<int>): int {
    if shape == [] then 1 else Product(shape[..|shape| - 1]) * shape[|shape| - 1]
  }

  /** The place of an index in row-major order. */
  function Ravel(ix: seq<int>, shape: seq<int>): int
    requires |ix| == |shape|
  {
    if ix == [] then 0
    else Ravel(ix[..|ix| - 1], shape[..|ix| - 1]) * shape[|ix| - 1] + ix[|ix| - 1]
  }

  function Unravel(v: int, shape: seq<int>): (ix: seq<int>)
    ensures |ix| == |shape|
    decreases |shape|
  {
    if shape == [] then []
    else
      var k := shape[|shape| - 1];
      if k == 0 then Unravel(v, shape[..|shape| - 1]) + [0] else Unravel(v / k, shape[..|shape| - 1]) + [v % k]
  }

  function Reshape(t: Tensor, shape: seq<int>): Tensor
    requires Product(shape) == Product(t.shape)
  {
    Tensor(shape, (ix: seq<int>) => if |ix| == |shape| then t.at(Unravel(Ravel(ix, shape), t.shape)) else 0.0)
  }

  lemma {:induction false} DivMod(a: int, k: int, c: int)
    requires 0 <= c < k
    ensures (a * k + c) / k == a && (a * k + c) % k == c
  {
    var n := a * k + c;
    assert n == n / k * k + n % k;
    var d := a - n / k;
    assert d * k == n % k - c;
    if d >= 1 {
      MulMonotone(1, d, k);
    } else if d <= -1 {
      MulMonotone(d, -1, k);
    }
  }

  /** Unravelling undoes ravelling: a tensor of the same shape keeps every value in its place. */
  lemma {:induction false} UnravelInvertsRavel(ix: seq<int>, shape: seq<int>)
    requires Within(ix, shape)
    ensures Unravel(Ravel(ix, shape), shape) == ix
    decreases |ix|
  {
    if ix != [] {
      var n := |ix| - 1;
      UnravelInvertsRavel(ix[..n], shape[..n]);
      DivMod(Ravel(ix[..n], shape[..n]), shape[n], ix[n]);
      assert ix == ix[..n] + [ix[n]];
    }
  }

  lemma {:induction false} RavelWithin(ix: seq<int>, shape: seq<int>)
    requires Within(ix, shape)
    ensures 0 <= Ravel(ix, shape) < Product(shape)
    decreases |ix|
  {
    if ix != [] {
      var n := |ix| - 1;
      RavelWithin(ix[..n], shape[..n]);
      var r, p, k := Ravel(ix[..n], shape[..n]), Product(shape[..n]), shape[n];
      MulMonotone(0, r, k);
      MulMonotone(r, p - 1, k);
      assert (p - 1) * k == p * k - k;
    }
  }

  lemma {:induction false} UnravelWithin(v: int, shape: seq<int>)
    requires IsShape(shape) && 0 <= v < Product(shape)
    ensures Within(Unravel(v, shape), shape)
    decreases |shape|
  {
    if shape != [] {
      var n := |shape| - 1;
      var p, k := Product(shape[..n]), shape[n];
      assert k > 0;
      assert v == v / k * k + v % k;
      if v / k >= p {
        MulMonotone(p, v / k, k);
      }
      assert v / k >= 0;
      UnravelWithin(v / k, shape[..n]);
      WithinParts(Unravel(v / k, shape[..n]), [v % k], shape[..n], [k]);
      assert shape == shape[..n] + [k];
    }
  }

  lemma {:induction false} RavelAppend(ix: seq<int>, c: int, s: seq<int>, k: int)
    requires |ix| == |s|
    ensures Ravel(ix + [c], s + [k]) == Ravel(ix, s) * k + c
  {
    assert (ix + [c])[..|ix|] == ix && (s + [k])[..|ix|] == s;
  }

  lemma {:induction false} UnravelAppend(v: int, t: seq<int>, k: int)
    requires k != 0
    ensures Unravel(v, t + [k]) == Unravel(v / k, t) + [v % k]
  {
    assert (t + [k])[..|t|] == t;
  }

  /** The last axis stays where it is when both shapes end in it. */
  lemma {:induction false} RavelLast(ix: seq<int>, c: int, s: seq<int>, t: seq<int>, k: int)
    requires |ix| == |s| && 0 <= c < k
    ensures Unravel(Ravel(ix + [c], s + [k]), t + [k]) == Unravel(Ravel(ix, s), t) + [c]
  {
    hide Ravel, Unravel;
    RavelAppend(ix, c, s, k);
    UnravelAppend(Ravel(ix, s) * k + c, t, k);
    DivMod(Ravel(ix, s), k, c);
  }

  // ----- Permuting the axes -----

  predicate IsPermutation(dims: seq<int>, n: nat) {
    && |dims| == n
    && (forall i :: 0 <= i < n ==> 0 <= dims[i] < n)
    && (forall i, j :: 0 <= i < j < n ==> dims[i] != dims[j])
    && (forall d {:trigger d in dims} :: 0 <= d < n ==> d in dims)
  }

  function IndexOf(dims: seq<int>, d: int): (i: nat)
    requires d in dims
    ensures i < |dims| && dims[i] == d
  {
    if dims[0] == d then 0 else 1 + IndexOf(dims[1..], d)
  }

  /** The index of the operand: the axis `dims[i]` is read at position `i`. */
  function Unpermuted(dims: seq<int>, ix: seq<int>): (o: seq<int>)
    requires IsPermutation(dims, |ix|)
    ensures |o| == |ix|
    ensures forall i :: 0 <= i < |ix| ==> o[dims[i]] == ix[i]
  {
    var o := seq(|ix|, d requires 0 <= d < |ix| => ix[IndexOf(dims, d)]);
    assert forall i :: 0 <= i < |ix| ==> IndexOf(dims, dims[i]) == i;
    o
  }

  function Permute(t: Tensor, dims: seq<int>): Tensor
    requires IsPermutation(dims, |t.shape|)
  {
    Tensor(seq(|dims|, i requires 0 <= i < |dims| => t.shape[dims[i]]),
           (ix: seq<int>) => if |ix| == |dims| then t.at(Unpermuted(dims, ix)) else 0.0)
  }

  lemma {:induction false} UnpermutedWithin(t: Tensor, dims: seq<int>, ix: seq<int>)
    requires IsPermutation(dims, |t.shape|) && Within(ix, Permute(t, dims).shape)
    ensures Within(Unpermuted(dims, ix), t.shape)
  {
    var o := Unpermuted(dims, ix);
    forall d | 0 <= d < |o| ensures 0 <= o[d] < t.shape[d] {
      assert d in dims;
      var i := IndexOf(dims, d);
      assert o[dims[i]] == ix[i];
    }
  }

  /** The axis `k` of the result is the axis `dims[k]`, for the shape and for every index. */
  lemma {:induction false} PermuteMeans(t: Tensor, dims: seq<int>, o: seq<int>)
    requires IsPermutation(dims, |t.shape|) && |o| == |t.shape|
    ensures forall k :: 0 <= k < |dims| ==> Permute(t, dims).shape[k] == t.shape[dims[k]]
    ensures Permute(t, dims).at(seq(|dims|, k requires 0 <= k < |dims| => o[dims[k]])) == t.at(o)
  {
    var ix := seq(|dims|, k requires 0 <= k < |dims| => o[dims[k]]);
    var p := Unpermuted(dims, ix);
    forall d | 0 <= d < |o| ensures p[d] == o[d] {
      assert d in dims;
      var i := IndexOf(dims, d);
      assert p[dims[i]] == ix[i];
    }
    assert p == o;
  }

  // ----- Scaling -----

  /** A factor spread over the other tensor: its axes are the last ones, and where sizes differ one of them is one. */
  predicate Spreads(m: Tensor, shape: seq<int>) {
    && |m.shape| <= |shape| && IsShape(m.shape)
    && forall i :: 0 <= i < |m.shape| ==> AxesMeet(m.shape[i], shape[|shape| - |m.shape| + i])
  }

  predicate AxesMeet(m: int, n: int) {
    m == n || m == 1 || n == 1
  }

  /** The size of the axis `i` of the result. */
  function MetAxis(m: seq<int>, shape: seq<int>, i: nat): int
    requires i < |shape| && |m| <= |shape|
  {
    var j := i - (|shape| - |m|);
    if j >= 0 && shape[i] == 1 then m[j] else shape[i]
  }

  function Enlarged(m: seq<int>, shape: seq<int>): (r: seq<int>)
    requires |m| <= |shape|
    ensures |r| == |shape|
  {
    seq(|shape|, i requires 0 <= i < |shape| => MetAxis(m, shape, i))
  }

  function Spread(m: Tensor, ix: seq<int>): (iy: seq<int>)
    requires |m.shape| <= |ix|
    ensures |iy| == |m.shape|
  {
    seq(|m.shape|, i requires 0 <= i < |m.shape| => if m.shape[i] == 1 then 0 else ix[|ix| - |m.shape| + i])
  }

  /** The index into the tensor that is enlarged. */
  function Lowered(shape: seq<int>, ix: seq<int>): (iy: seq<int>)
    requires |shape| == |ix|
    ensures |iy| == |shape|
  {
    seq(|shape|, i requires 0 <= i < |shape| => if shape[i] == 1 then 0 else ix[i])
  }

  function Scale(t: Tensor, m: Tensor): Tensor
    requires Spreads(m, t.shape)
  {
    Tensor(Enlarged(m.shape, t.shape),
           (ix: seq<int>) =>
             if |ix| == |t.shape| then t.at(Lowered(t.shape, ix)) * m.at(Spread(m, ix)) else 0.0)
  }

  /** Counted from the last, which is the first. */
  function FromLast(s: seq<int>, j: int): int
    requires 1 <= j <= |s|
  {
    s[|s| - j]
  }

  /** The index `iy` reads axes of these sizes where `ix` reads the result: one of size one at its only place. */
  predicate ReadsLast(iy: seq<int>, sizes: seq<int>, ix: seq<int>) {
    |iy| == |sizes| <= |ix|
    && forall j :: 1 <= j <= |sizes| ==> FromLast(iy, j) == if FromLast(sizes, j) == 1 then 0 else FromLast(ix, j)
  }

  lemma {:induction false} SpreadReadsLast(m: Tensor, ix: seq<int>, iy: seq<int>)
    requires ReadsLast(iy, m.shape, ix)
    ensures Spread(m, ix) == iy
  {
    forall i | 0 <= i < |iy| ensures Spread(m, ix)[i] == iy[i] {
      assert FromLast(iy, |iy| - i) == iy[i];
      assert FromLast(ix, |iy| - i) == ix[|ix| - |iy| + i];
    }
  }

  lemma {:induction false} LoweredReadsLast(shape: seq<int>, ix: seq<int>, lx: seq<int>)
    requires ReadsLast(lx, shape, ix) && |ix| == |shape|
    ensures Lowered(shape, ix) == lx
  {
    forall i | 0 <= i < |lx| ensures Lowered(shape, ix)[i] == lx[i] {
      assert FromLast(lx, |lx| - i) == lx[i];
    }
  }

  /** Sizes and values meet from the last axis on. */
  lemma {:induction false} ScaleMeans(t: Tensor, m: Tensor, ix: seq<int>, lx: seq<int>, iy: seq<int>)
    requires Spreads(m, t.shape) && |ix| == |t.shape| && ReadsLast(lx, t.shape, ix) && ReadsLast(iy, m.shape, ix)
    ensures Scale(t, m).at(ix) == t.at(lx) * m.at(iy)
    ensures |Scale(t, m).shape| == |t.shape|
    ensures forall j :: 1 <= j <= |t.shape| ==>
              FromLast(Scale(t, m).shape, j)
              == if j <= |m.shape| && FromLast(t.shape, j) == 1 then FromLast(m.shape, j) else FromLast(t.shape, j)
  {
    SpreadReadsLast(m, ix, iy);
    LoweredReadsLast(t.shape, ix, lx);
    hide Spread, Lowered, ReadsLast;
  }

  lemma {:induction false} LoweredWithin(m: seq<int>, shape: seq<int>, ix: seq<int>)
    requires |m| <= |shape| && Within(ix, Enlarged(m, shape))
    ensures Within(Lowered(shape, ix), shape)
  {
    var iy := Lowered(shape, ix);
    forall i | 0 <= i < |iy| ensures 0 <= iy[i] < shape[i] {
      assert ix[i] < Enlarged(m, shape)[i];
    }
  }
}
