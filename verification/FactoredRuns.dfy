/**
  Joining factored tensors, and runs of operations: after any number of them the product of the factors is what the
  same operations make of the plain tensor.
*/
module FactoredRuns {
  import opened Wrappers
  import opened Basics
  import opened Tensor
  import opened FactoredTensor
  import opened FactoredReshape
  import opened FactoredPermute

  // ----- Stacking -----

  predicate SameShapes(ts: seq<Tensor>) {
    forall i :: 0 <= i < |ts| ==> ts[i].shape == ts[0].shape
  }

  function Stack(ts: seq<Tensor>): Tensor
    requires ts != [] && SameShapes(ts)
  {
    Tensor([|ts|] + ts[0].shape,
           (ix: seq<int>) => if ix != [] && 0 <= ix[0] < |ts| then ts[ix[0]].at(ix[1..]) else 0.0)
  }

  function FactorsA(ls: seq<Lora>): (ts: seq<Tensor>)
    ensures |ts| == |ls| && forall i :: 0 <= i < |ls| ==> ts[i] == ls[i].A
  {
    if ls == [] then [] else [ls[0].A] + FactorsA(ls[1..])
  }

  function FactorsB(ls: seq<Lora>): (ts: seq<Tensor>)
    ensures |ts| == |ls| && forall i :: 0 <= i < |ls| ==> ts[i] == ls[i].B
  {
    if ls == [] then [] else [ls[0].B] + FactorsB(ls[1..])
  }

  function Products(ls: seq<Lora>): (ts: seq<Tensor>)
    requires forall i :: 0 <= i < |ls| ==> Valid(ls[i])
    ensures |ts| == |ls|
  {
    if ls == [] then [] else [Dense(ls[0])] + Products(ls[1..])
  }

  lemma {:induction false} ProductsAt(ls: seq<Lora>, i: nat)
    requires i < |ls| && forall i :: 0 <= i < |ls| ==> Valid(ls[i])
    ensures Products(ls)[i] == Dense(ls[i])
    decreases i
  {
    hide Valid, Dense;
    if i > 0 {
      ProductsAt(ls[1..], i - 1);
    }
  }

  /** The tensor library stacks only tensors of one shape. */
  function GetStack(ls: seq<Lora>): Option<Lora> {
    var a, b := FactorsA(ls), FactorsB(ls);
    if ls != [] && SameShapes(a) && SameShapes(b) then Make(Stack(a), Stack(b)) else None
  }

  lemma {:induction false} StackedTerm(ls: seq<Lora>, ab: seq<int>, bb: seq<int>, rows: int, rank: int, cols: int,
                    k: int, x: seq<int>, i: int, c: int, q: int)
    requires forall i :: 0 <= i < |ls| ==> Valid(ls[i]) && Parts(ls[i], ab, bb, rows, rank, cols)
    requires 0 <= k < |ls| && |x| == |ab|
    ensures SameShapes(FactorsA(ls)) && SameShapes(FactorsB(ls))
    ensures var m := Lora(Stack(FactorsA(ls)), Stack(FactorsB(ls)));
            |m.A.shape| == |x| + 3 && Term(m, [k] + x, i, c, q) == Term(ls[k], x, i, c, q)
  {
    var m := Lora(Stack(FactorsA(ls)), Stack(FactorsB(ls)));
    var n := |ls|;
    Associate([n], ab, [rank, cols]);
    hide Times, Term, Valid, Narrow;
    TermOf(m, [n] + ab, rank, cols, [k] + x, i, c, q);
    TermOf(ls[k], ab, rank, cols, x, i, c, q);
    hide Parts, SameShapes, Stack;
    OneMatrixOfStack(n, ab, k, x);
    StackAt(FactorsA(ls), k, Narrow(ab, x), q, c);
    StackAt(FactorsB(ls), k, x, i, q);
  }

  lemma {:induction false} OneMatrixOfStack(n: int, ab: seq<int>, k: int, x: seq<int>)
    requires 0 <= k < n && |ab| == |x|
    ensures Narrow([n] + ab, [k] + x) == [k] + Narrow(ab, x)
  {
    NarrowFirst(n, ab, k, x);
  }

  lemma {:induction false} StackIsValid(ls: seq<Lora>, ab: seq<int>, bb: seq<int>, rows: int, rank: int, cols: int)
    requires ls != [] && forall i :: 0 <= i < |ls| ==> Valid(ls[i]) && Parts(ls[i], ab, bb, rows, rank, cols)
    ensures SameShapes(FactorsA(ls)) && SameShapes(FactorsB(ls))
    ensures var m := Lora(Stack(FactorsA(ls)), Stack(FactorsB(ls)));
            Parts(m, [|ls|] + ab, [|ls|] + bb, rows, rank, cols) && Valid(m) && GetStack(ls) == Some(m)
  {
    var m := Lora(Stack(FactorsA(ls)), Stack(FactorsB(ls)));
    var n := |ls|;
    ValidParts(ls[0], ab, bb, rows, rank, cols);
    Associate([n], ab, [rank, cols]);
    Associate([n], bb, [rows, rank]);
    assert Parts(m, [n] + ab, [n] + bb, rows, rank, cols);
    assert IsShape([n] + ab) && IsShape([n] + bb) && SpreadsOver([n] + ab, [n] + bb);
    hide Valid, Parts, Dense, IsShape, SpreadsOver;
    ValidParts(m, [n] + ab, [n] + bb, rows, rank, cols);
    MakeParts(m, [n] + ab, [n] + bb, rows, rank, cols);
  }

  lemma {:induction false} StackOfProducts(ls: seq<Lora>, ab: seq<int>, bb: seq<int>, rows: int, rank: int, cols: int)
    requires ls != [] && forall i :: 0 <= i < |ls| ==> Valid(ls[i]) && Parts(ls[i], ab, bb, rows, rank, cols)
    ensures SameShapes(Products(ls)) && Stack(Products(ls)).shape == [|ls|] + bb + [rows, cols]
  {
    forall i | 0 <= i < |ls| ensures Products(ls)[i].shape == bb + [rows, cols] {
      ProductsAt(ls, i);
      ValidParts(ls[i], ab, bb, rows, rank, cols);
      hide Valid, Parts, Products;
    }
    Associate([|ls|], bb, [rows, cols]);
  }

  lemma {:induction false} MakeParts(m: Lora, ab: seq<int>, bb: seq<int>, rows: int, rank: int, cols: int)
    requires Parts(m, ab, bb, rows, rank, cols) && |ab| == |bb|
    ensures Make(m.A, m.B) == Some(m)
  {
  }

  /** Stacking the factors stacks the products. */
  lemma {:induction false} StackCommutes(ls: seq<Lora>, ab: seq<int>, bb: seq<int>, rows: int, rank: int, cols: int)
    requires ls != [] && forall i :: 0 <= i < |ls| ==> Valid(ls[i]) && Parts(ls[i], ab, bb, rows, rank, cols)
    ensures GetStack(ls).Some? && Valid(GetStack(ls).value) && SameShapes(Products(ls))
    ensures Same(Dense(GetStack(ls).value), Stack(Products(ls)))
  {
    hide Dense, Valid, GetStack, Parts, Stack, SameShapes, FactorsA, FactorsB, Products, IsShape;
    StackIsValid(ls, ab, bb, rows, rank, cols);
    StackOfProducts(ls, ab, bb, rows, rank, cols);
    var m, n := Lora(Stack(FactorsA(ls)), Stack(FactorsB(ls))), |ls|;
    ValidParts(m, [n] + ab, [n] + bb, rows, rank, cols);
    DenseShape(m);
    forall ix | Within(ix, [n] + bb + [rows, cols]) ensures Dense(m).at(ix) == Stack(Products(ls)).at(ix) {
      var kx, i, c := WithinTwo(ix, [n] + bb, rows, cols);
      assert 0 <= kx[0] < n && kx == [kx[0]] + kx[1..];
      StackedValue(ls, ab, bb, rows, rank, cols, kx[0], kx[1..], i, c);
    }
  }

  lemma {:induction false} StackAt(ts: seq<Tensor>, k: int, x: seq<int>, i: int, c: int)
    requires ts != [] && SameShapes(ts) && 0 <= k < |ts|
    ensures Stack(ts).at([k] + x + [i, c]) == ts[k].at(x + [i, c])
  {
    assert ([k] + x + [i, c])[1..] == x + [i, c];
  }

  lemma {:induction false} StackedValue(ls: seq<Lora>, ab: seq<int>, bb: seq<int>, rows: int, rank: int, cols: int,
                                        k: int, x: seq<int>, i: int, c: int)
    requires forall i :: 0 <= i < |ls| ==> Valid(ls[i]) && Parts(ls[i], ab, bb, rows, rank, cols)
    requires 0 <= k < |ls| && |x| == |bb|
    ensures SameShapes(FactorsA(ls)) && SameShapes(FactorsB(ls)) && SameShapes(Products(ls))
    ensures var m := Lora(Stack(FactorsA(ls)), Stack(FactorsB(ls)));
            Valid(m) && Dense(m).at([k] + x + [i, c]) == Stack(Products(ls)).at([k] + x + [i, c])
  {
    hide Dense, Valid, GetStack, Stack, SameShapes, FactorsA, FactorsB, Products, IsShape, Term;
    StackIsValid(ls, ab, bb, rows, rank, cols);
    StackOfProducts(ls, ab, bb, rows, rank, cols);
    ProductsAt(ls, k);
    var m, n := Lora(Stack(FactorsA(ls)), Stack(FactorsB(ls))), |ls|;
    ValidParts(m, [n] + ab, [n] + bb, rows, rank, cols);
    ValidParts(ls[k], ab, bb, rows, rank, cols);
    StackAt(Products(ls), k, x, i, c);
    SizesOf(m, [n] + ab, [n] + bb, rows, rank, cols);
    SizesOf(ls[k], ab, bb, rows, rank, cols);
    hide Parts;
    forall q ensures Term(m, [k] + x, i, c, q) == Term(ls[k], x, i, c, q) {
      StackedTerm(ls, ab, bb, rows, rank, cols, k, x, i, c, q);
    }
    SumsAgree(m, [k] + x, i, c, ls[k], x, i, c, rank);
    DenseAt(m, [k] + x, i, c);
    DenseAt(ls[k], x, i, c);
  }

  lemma {:induction false} SizesOf(l: Lora, ab: seq<int>, bb: seq<int>, rows: int, rank: int, cols: int)
    requires Valid(l) && Parts(l, ab, bb, rows, rank, cols)
    ensures |ab| == |bb| && |l.A.shape| == |ab| + 2 && |l.B.shape| == |bb| + 2
    ensures Rank(l) == rank && Shape(l) == bb + [rows, cols]
  {
    ValidParts(l, ab, bb, rows, rank, cols);
  }

  // ----- Concatenating -----

  /** Along the first axis. */
  function Cat(t: Tensor, u: Tensor): Tensor
    requires t.shape != [] && u.shape != [] && t.shape[1..] == u.shape[1..]
  {
    var n := t.shape[0];
    Tensor([n + u.shape[0]] + t.shape[1..],
           (ix: seq<int>) =>
             if ix == [] then 0.0 else if ix[0] < n then t.at(ix) else u.at([ix[0] - n] + ix[1..]))
  }

  /** Matrices must share the factor A; with a leading axis both factors are concatenated. */
  ghost function GetCat(l: Lora, m: Lora): Option<Lora>
    requires Valid(l) && Valid(m)
  {
    if |l.B.shape| != |m.B.shape| || l.B.shape[1..] != m.B.shape[1..] then None
    else if |l.B.shape| == 2 then
      if Same(l.A, m.A) then Make(l.A, Cat(l.B, m.B)) else None
    else if l.A.shape[1..] != m.A.shape[1..] then None
    else Make(Cat(l.A, m.A), Cat(l.B, m.B))
  }

  lemma {:induction false} CatAt(t: Tensor, u: Tensor, k: int, x: seq<int>)
    requires t.shape != [] && u.shape != [] && t.shape[1..] == u.shape[1..]
    ensures Cat(t, u).at([k] + x)
            == if k < t.shape[0] then t.at([k] + x) else u.at([k - t.shape[0]] + x)
  {
    assert ([k] + x)[1..] == x;
  }

  lemma {:induction false} NoFirstAxes(i: int, j: int)
    ensures [] + [i, j] == [i, j] == [i] + [j]
  {
  }

  lemma {:induction false} MatrixShapes(l: Lora, rows: int, rank: int, cols: int)
    requires Valid(l) && Parts(l, [], [], rows, rank, cols)
    ensures l.A.shape == [] + [rank, cols] == [rank, cols] && l.B.shape == [rows, rank]
    ensures Rank(l) == rank && Shape(l) == [rows, cols] && rows >= 0 && rank >= 0 && cols >= 0
  {
    NoFirstAxes(rank, cols);
    NoFirstAxes(rows, rank);
    NoFirstAxes(rows, cols);
    ValidParts(l, [], [], rows, rank, cols);
    hide Valid, IsShape;
  }

  lemma {:induction false} MatricesJoined(l: Lora, m: Lora, rows: int, more: int, rank: int, cols: int)
    requires Valid(l) && Parts(l, [], [], rows, rank, cols) && Valid(m) && Parts(m, [], [], more, rank, cols)
    requires Same(l.A, m.A)
    ensures l.B.shape != [] && m.B.shape != [] && l.B.shape[1..] == m.B.shape[1..]
    ensures var r := Lora(l.A, Cat(l.B, m.B));
            && Parts(r, [], [], rows + more, rank, cols) && Valid(r) && GetCat(l, m) == Some(r)
            && Rank(r) == rank && Shape(r) == [rows + more, cols] && r.B.shape == [rows + more, rank]
    ensures Rank(l) == rank && Rank(m) == rank && Shape(l) == [rows, cols] && Shape(m) == [more, cols]
    ensures l.A.shape == m.A.shape == [] + [rank, cols] && l.B.shape == [rows, rank] && m.B.shape == [more, rank]
  {
    MatrixShapes(l, rows, rank, cols);
    MatrixShapes(m, more, rank, cols);
    var r := Lora(l.A, Cat(l.B, m.B));
    assert r.B.shape == [rows + more, rank];
    NoFirstAxes(rows + more, rank);
    assert IsShape([]) && SpreadsOver([], []);
    hide Valid, IsShape, Same, Cat;
    ValidParts(r, [], [], rows + more, rank, cols);
    MatrixShapes(r, rows + more, rank, cols);
  }

  lemma {:induction false} CatRowValue(l: Lora, m: Lora, rows: int, more: int, rank: int, cols: int, k: int, c: int)
    requires Valid(l) && Parts(l, [], [], rows, rank, cols) && Valid(m) && Parts(m, [], [], more, rank, cols)
    requires Same(l.A, m.A) && 0 <= c < cols
    ensures l.B.shape != [] && m.B.shape != [] && l.B.shape[1..] == m.B.shape[1..]
    ensures Valid(Lora(l.A, Cat(l.B, m.B))) && |Dense(l).shape| == |Dense(m).shape| == 2
    ensures Dense(l).shape[1..] == Dense(m).shape[1..]
    ensures Dense(Lora(l.A, Cat(l.B, m.B))).at([k, c]) == Cat(Dense(l), Dense(m)).at([k, c])
  {
    hide Dense, Valid, Term, IsShape, GetCat, Parts, Cat, Same;
    MatricesJoined(l, m, rows, more, rank, cols);
    var r := Lora(l.A, Cat(l.B, m.B));
    DenseShape(l);
    DenseShape(m);
    CatAt(Dense(l), Dense(m), k, [c]);
    NoFirstAxes(k, c);
    NoFirstAxes(k - rows, c);
    DenseAt(r, [], k, c);
    forall q | 0 <= q < rank
      ensures Term(r, [], k, c, q) == if k < rows then Term(l, [], k, c, q) else Term(m, [], k - rows, c, q)
    {
      CatRowTerm(l, m, rows, more, rank, cols, k, c, q);
    }
    if k < rows {
      SumsAgree(r, [], k, c, l, [], k, c, rank);
      DenseAt(l, [], k, c);
    } else {
      SumsAgree(r, [], k, c, m, [], k - rows, c, rank);
      DenseAt(m, [], k - rows, c);
    }
  }

  /** Matrices: the rows of the first, then those of the second. */
  lemma {:induction false} CatMatricesCommutes(l: Lora, m: Lora, rows: int, more: int, rank: int, cols: int)
    requires Valid(l) && Parts(l, [], [], rows, rank, cols) && Valid(m) && Parts(m, [], [], more, rank, cols)
    requires Same(l.A, m.A)
    ensures GetCat(l, m).Some? && Valid(GetCat(l, m).value)
    ensures |Dense(l).shape| == |Dense(m).shape| == 2 && Dense(l).shape[1..] == Dense(m).shape[1..]
    ensures Same(Dense(GetCat(l, m).value), Cat(Dense(l), Dense(m)))
  {
    hide Dense, Valid, IsShape, GetCat, Parts;
    MatricesJoined(l, m, rows, more, rank, cols);
    DenseShape(l);
    DenseShape(m);
    var r := Lora(l.A, Cat(l.B, m.B));
    DenseShape(r);
    assert Cat(Dense(l), Dense(m)).shape == [rows + more, cols];
    hide Cat;
    forall ix | Within(ix, [rows + more, cols]) ensures Dense(r).at(ix) == Cat(Dense(l), Dense(m)).at(ix) {
      assert ix == [ix[0], ix[1]];
      CatRowValue(l, m, rows, more, rank, cols, ix[0], ix[1]);
    }
  }

  lemma {:induction false} CatRowTerm(l: Lora, m: Lora, rows: int, more: int, rank: int, cols: int,
                                      k: int, c: int, q: int)
    requires Valid(l) && Parts(l, [], [], rows, rank, cols) && Valid(m) && Parts(m, [], [], more, rank, cols)
    requires Same(l.A, m.A) && 0 <= q < rank && 0 <= c < cols
    ensures |l.A.shape| == 2 && |m.A.shape| == 2 && l.B.shape[1..] == m.B.shape[1..]
    ensures var r := Lora(l.A, Cat(l.B, m.B));
            Term(r, [], k, c, q) == if k < rows then Term(l, [], k, c, q) else Term(m, [], k - rows, c, q)
  {
    hide Times, Term, Cat, Valid, IsShape, Parts, GetCat;
    MatricesJoined(l, m, rows, more, rank, cols);
    var r := Lora(l.A, Cat(l.B, m.B));
    NoFirstAxes(q, c);
    NoFirstAxes(k, q);
    NoFirstAxes(k - rows, q);
    NoFirstAxes(rank, cols);
    assert Within([] + [q, c], l.A.shape);
    CatAt(l.B, m.B, k, [q]);
    TermOf(r, [], rank, cols, [], k, c, q);
    TermOf(l, [], rank, cols, [], k, c, q);
    TermOf(m, [], rank, cols, [], k - rows, c, q);
  }

  /** What is read from the joined factors at the place `k` of the first axis. */
  lemma {:induction false} CatBatchTerm(l: Lora, m: Lora, n: int, more: int, ab: seq<int>, bb: seq<int>,
                                        rows: int, rank: int, cols: int,
                                        k: int, x: seq<int>, i: int, c: int, q: int)
    requires Valid(l) && Parts(l, [n] + ab, [n] + bb, rows, rank, cols)
    requires Valid(m) && Parts(m, [more] + ab, [more] + bb, rows, rank, cols)
    requires 0 <= k < n + more && n >= 0 && more >= 0 && |x| == |ab|
    ensures l.A.shape[1..] == m.A.shape[1..] && l.B.shape[1..] == m.B.shape[1..]
    ensures var r := Lora(Cat(l.A, m.A), Cat(l.B, m.B));
            && |l.A.shape| == |m.A.shape| == |r.A.shape| == |x| + 3
            && Term(r, [k] + x, i, c, q)
               == if k < n then Term(l, [k] + x, i, c, q) else Term(m, [k - n] + x, i, c, q)
  {
    JoinedShapes(l, m, n, more, ab, bb, rows, rank, cols);
    var r := Lora(Cat(l.A, m.A), Cat(l.B, m.B));
    var y := Narrow(ab, x);
    hide Times, Term, Narrow, Valid, Cat, Parts;
    TermOf(r, [n + more] + ab, rank, cols, [k] + x, i, c, q);
    NarrowFirst(n + more, ab, k, x);
    Associate([k], x, [i, q]);
    Associate([k], y, [q, c]);
    CatAt(l.A, m.A, k, y + [q, c]);
    CatAt(l.B, m.B, k, x + [i, q]);
    if k < n {
      TermOf(l, [n] + ab, rank, cols, [k] + x, i, c, q);
      NarrowFirst(n, ab, k, x);
    } else {
      TermOf(m, [more] + ab, rank, cols, [k - n] + x, i, c, q);
      NarrowFirst(more, ab, k - n, x);
      Associate([k - n], x, [i, q]);
      Associate([k - n], y, [q, c]);
    }
  }

  lemma {:induction false} JoinedShapes(l: Lora, m: Lora, n: int, more: int, ab: seq<int>, bb: seq<int>,
                                        rows: int, rank: int, cols: int)
    requires Parts(l, [n] + ab, [n] + bb, rows, rank, cols)
    requires Parts(m, [more] + ab, [more] + bb, rows, rank, cols)
    ensures l.A.shape != [] && m.A.shape != [] && l.B.shape != [] && m.B.shape != []
    ensures l.A.shape[0] == n && l.B.shape[0] == n && |l.A.shape| == |m.A.shape| == |ab| + 3
    ensures l.A.shape[1..] == m.A.shape[1..] && l.B.shape[1..] == m.B.shape[1..]
    ensures Parts(Lora(Cat(l.A, m.A), Cat(l.B, m.B)), [n + more] + ab, [n + more] + bb, rows, rank, cols)
  {
    assert l.A.shape[1..] == ab + [rank, cols] == m.A.shape[1..];
    assert l.B.shape[1..] == bb + [rows, rank] == m.B.shape[1..];
    Associate([n + more], ab, [rank, cols]);
    Associate([n + more], bb, [rows, rank]);
  }

  lemma {:induction false} JoinedIsValid(l: Lora, m: Lora, n: int, more: int, ab: seq<int>, bb: seq<int>,
                                         rows: int, rank: int, cols: int)
    requires Valid(l) && Parts(l, [n] + ab, [n] + bb, rows, rank, cols)
    requires Valid(m) && Parts(m, [more] + ab, [more] + bb, rows, rank, cols)
    ensures n >= 0 && more >= 0 && |ab| == |bb|
    ensures l.A.shape[1..] == m.A.shape[1..] && l.B.shape[1..] == m.B.shape[1..]
    ensures var r := Lora(Cat(l.A, m.A), Cat(l.B, m.B));
            && Valid(r) && GetCat(l, m) == Some(r) && Shape(r) == [n + more] + bb + [rows, cols]
            && Parts(r, [n + more] + ab, [n + more] + bb, rows, rank, cols)
    ensures Shape(l) == [n] + bb + [rows, cols] && Shape(m) == [more] + bb + [rows, cols]
  {
    ValidParts(l, [n] + ab, [n] + bb, rows, rank, cols);
    ValidParts(m, [more] + ab, [more] + bb, rows, rank, cols);
    JoinedShapes(l, m, n, more, ab, bb, rows, rank, cols);
    FirstIsNatural(n, ab);
    FirstIsNatural(n, bb);
    FirstIsNatural(more, ab);
    assert SpreadsOver([n + more] + ab, [n + more] + bb) by {
      assert forall i :: 0 <= i < |ab| ==> ab[i] == ([n] + ab)[i + 1] && bb[i] == ([n] + bb)[i + 1];
    }
    assert IsShape([n + more] + ab) && IsShape([n + more] + bb);
    hide IsShape, SpreadsOver, Cat;
    ValidParts(Lora(Cat(l.A, m.A), Cat(l.B, m.B)), [n + more] + ab, [n + more] + bb, rows, rank, cols);
  }

  lemma {:induction false} FirstIsNatural(n: int, s: seq<int>)
    requires IsShape([n] + s)
    ensures n >= 0 && IsShape(s)
  {
    assert ([n] + s)[0] == n;
    assert forall i :: 0 <= i < |s| ==> s[i] == ([n] + s)[i + 1];
  }

  /** Joining the factors along the first axis joins the products, when A has a matrix for each of B. */
  lemma {:induction false} CatBatchesCommutes(l: Lora, m: Lora, n: int, more: int, ab: seq<int>, bb: seq<int>,
                                              rows: int, rank: int, cols: int)
    requires Valid(l) && Parts(l, [n] + ab, [n] + bb, rows, rank, cols)
    requires Valid(m) && Parts(m, [more] + ab, [more] + bb, rows, rank, cols)
    ensures GetCat(l, m).Some? && Valid(GetCat(l, m).value) && Dense(l).shape[1..] == Dense(m).shape[1..]
    ensures Same(Dense(GetCat(l, m).value), Cat(Dense(l), Dense(m)))
  {
    hide Dense, Valid, Parts, IsShape, GetCat, Cat, Shape;
    JoinedIsValid(l, m, n, more, ab, bb, rows, rank, cols);
    JoinedShapes(l, m, n, more, ab, bb, rows, rank, cols);
    var r := Lora(Cat(l.A, m.A), Cat(l.B, m.B));
    DenseShape(l);
    DenseShape(m);
    DenseShape(r);
    JoinedShape(Dense(l), Dense(m), n, more, bb, [rows, cols]);
    forall ix | Within(ix, [n + more] + bb + [rows, cols])
      ensures Dense(r).at(ix) == Cat(Dense(l), Dense(m)).at(ix)
    {
      var kx, i, c := WithinTwo(ix, [n + more] + bb, rows, cols);
      assert 0 <= kx[0] < n + more && kx == [kx[0]] + kx[1..];
      CatBatchValue(l, m, n, more, ab, bb, rows, rank, cols, kx[0], kx[1..], i, c);
    }
  }

  lemma {:induction false} JoinedShape(t: Tensor, u: Tensor, n: int, more: int, s: seq<int>, tail: seq<int>)
    requires t.shape == [n] + s + tail && u.shape == [more] + s + tail
    ensures t.shape != [] && u.shape != [] && t.shape[1..] == u.shape[1..]
    ensures Cat(t, u).shape == [n + more] + s + tail
  {
    TailOf(n, s, tail);
    TailOf(more, s, tail);
    TailOf(n + more, s, tail);
  }

  lemma {:induction false} TailOf(n: int, s: seq<int>, t: seq<int>)
    ensures var u := [n] + s + t; u != [] && u[0] == n && u[1..] == s + t && u == [n] + (s + t)
  {
  }

  lemma {:induction false} CatBatchValue(l: Lora, m: Lora, n: int, more: int, ab: seq<int>, bb: seq<int>,
                                         rows: int, rank: int, cols: int, k: int, x: seq<int>, i: int, c: int)
    requires Valid(l) && Parts(l, [n] + ab, [n] + bb, rows, rank, cols)
    requires Valid(m) && Parts(m, [more] + ab, [more] + bb, rows, rank, cols)
    requires 0 <= k < n + more && |x| == |bb|
    ensures l.A.shape[1..] == m.A.shape[1..] && l.B.shape[1..] == m.B.shape[1..]
    ensures Valid(Lora(Cat(l.A, m.A), Cat(l.B, m.B))) && Dense(l).shape[1..] == Dense(m).shape[1..]
    ensures Dense(Lora(Cat(l.A, m.A), Cat(l.B, m.B))).at([k] + x + [i, c])
            == Cat(Dense(l), Dense(m)).at([k] + x + [i, c])
  {
    hide Dense, Term, IsShape, GetCat, Cat, Valid, Parts;
    JoinedIsValid(l, m, n, more, ab, bb, rows, rank, cols);
    JoinedShapes(l, m, n, more, ab, bb, rows, rank, cols);
    var r := Lora(Cat(l.A, m.A), Cat(l.B, m.B));
    SizesOf(l, [n] + ab, [n] + bb, rows, rank, cols);
    SizesOf(m, [more] + ab, [more] + bb, rows, rank, cols);
    SizesOf(r, [n + more] + ab, [n + more] + bb, rows, rank, cols);
    DenseShape(l);
    DenseShape(m);
    TailOf(n, bb, [rows, cols]);
    TailOf(more, bb, [rows, cols]);
    forall q
      ensures Term(r, [k] + x, i, c, q) == if k < n then Term(l, [k] + x, i, c, q) else Term(m, [k - n] + x, i, c, q)
    {
      CatBatchTerm(l, m, n, more, ab, bb, rows, rank, cols, k, x, i, c, q);
    }
    CatAt(Dense(l), Dense(m), k, x + [i, c]);
    Associate([k], x, [i, c]);
    Associate([k - n], x, [i, c]);
    DenseAt(r, [k] + x, i, c);
    if k < n {
      SumsAgree(r, [k] + x, i, c, l, [k] + x, i, c, rank);
      DenseAt(l, [k] + x, i, c);
    } else {
      SumsAgree(r, [k] + x, i, c, m, [k - n] + x, i, c, rank);
      DenseAt(m, [k - n] + x, i, c);
    }
  }

  // ----- Runs of operations -----

  datatype Op =
    | At(i: int)
    | Rows(s: Slice)
    | Tuple(b: seq<Selector>, rs: Slice, cs: Slice)
    | Part(dim: nat, start: nat, len: nat)
    | Reshaped(shape: seq<int>)
    | Permuted(dims: seq<int>)
    | Exchanged(i: int, j: int)
    | Scaled(m: Tensor)

  /** The operation on the factors, if the tensor supports it. */
  function Apply(l: Lora, op: Op): Option<Lora>
    requires Valid(l)
  {
    match op
    case At(i) => GetIndex(l, i)
    case Rows(s) => if s.step > 0 && SliceSpreads(l, s) then Some(GetSlice(l, s)) else None
    case Tuple(b, rs, cs) =>
      if rs.step > 0 && cs.step > 0 && GetTuple(l, b, rs, cs).Some? && Keeps(l, b) then GetTuple(l, b, rs, cs) else None
    case Part(dim, start, len) =>
      if dim < |l.B.shape| && start + len <= Shape(l)[dim] then Some(SplitPart(l, dim, start, len)) else None
    case Reshaped(shape) => if KeepsElements(l, shape) then GetReshape(l, shape) else None
    case Permuted(dims) => GetPermute(l, dims)
    case Exchanged(i, j) => GetTranspose(l, i, j)
    case Scaled(m) => GetScaled(l, m)
  }

  /** The slices of a tuple keep all matrices that differ in A. */
  predicate Keeps(l: Lora, b: seq<Selector>)
    requires Valid(l)
  {
    |b| == |FirstAxes(l.A)| && Fits(b, FirstAxes(l.B)) && Precise(b, FirstAxes(l.A), FirstAxes(l.B))
  }

  /** The plain tensor can take the new shape; factors of rank zero can take others as well. */
  predicate KeepsElements(l: Lora, shape: seq<int>)
    requires Valid(l)
  {
    var e := Expand(shape, Product(Shape(l)));
    e.Some? ==> Product(e.value) == Product(Shape(l))
  }

  /** The operation on a plain tensor. */
  function ApplyPlain(t: Tensor, op: Op): Option<Tensor>
    requires |t.shape| >= 2
  {
    var n := |t.shape|;
    match op
    case At(i) =>
      if n > 2 && Fits(Only(n - 2, 0, Index(i)) + [Span(FULL), Span(FULL)], t.shape) then
        Some(Select(t, Only(n - 2, 0, Index(i)) + [Span(FULL), Span(FULL)]))
      else None
    case Rows(s) => if Fits(SliceOf(n, s), t.shape) then Some(Select(t, SliceOf(n, s))) else None
    case Tuple(b, rs, cs) =>
      if Fits(b + [Span(rs), Span(cs)], t.shape) then Some(Select(t, b + [Span(rs), Span(cs)])) else None
    case Part(dim, start, len) =>
      if dim < n && Fits(PartOf(n, dim, start, len), t.shape) then Some(Select(t, PartOf(n, dim, start, len))) else None
    case Reshaped(shape) =>
      (match Expand(shape, Product(t.shape))
       case None => None
       case Some(s) => if IsShape(s) && Product(s) == Product(t.shape) then Some(Reshape(t, s)) else None)
    case Permuted(dims) =>
      if IsPermutation(Normalized(dims, n), n) then Some(Permute(t, Normalized(dims, n))) else None
    case Exchanged(i, j) =>
      if -n <= i < n && -n <= j < n && IsPermutation(Exchange(n, Normal(i, n), Normal(j, n)), n) then
        Some(Permute(t, Exchange(n, Normal(i, n), Normal(j, n))))
      else None
    case Scaled(m) => if Spreads(m, t.shape) then Some(Scale(t, m)) else None
  }

  lemma {:induction false} PlainShape(l: Lora)
    requires Valid(l)
    ensures Dense(l).shape == Shape(l) && |Shape(l)| == |l.B.shape| >= 2 && IsShape(Shape(l))
  {
  }

  lemma {:induction false} TransposeAsPermute(l: Lora, i: int, j: int)
    requires Valid(l) && GetTranspose(l, i, j).Some?
    ensures var n := |l.B.shape|;
            && -n <= i < n && -n <= j < n
            && IsPermutation(Exchange(n, Normal(i, n), Normal(j, n)), n)
            && GetTranspose(l, i, j) == GetPermute(l, Exchange(n, Normal(i, n), Normal(j, n)))
            && Normalized(Exchange(n, Normal(i, n), Normal(j, n)), n) == Exchange(n, Normal(i, n), Normal(j, n))
  {
    var n := |l.B.shape|;
    ExchangeIsPermutation(n, Normal(i, n), Normal(j, n));
    NormalizedAgain(Exchange(n, Normal(i, n), Normal(j, n)), n);
  }

  function Swapped(s: seq<int>, a: nat, b: nat): seq<int>
    requires a < |s| && b < |s|
  {
    s[a := s[b]][b := s[a]]
  }

  /** A transposed tensor has the two sizes exchanged, and its values where the two indices are exchanged. */
  ghost predicate IsTransposeOf(u: Tensor, t: Tensor, a: nat, b: nat) {
    && a < |t.shape| && b < |t.shape| && u.shape == Swapped(t.shape, a, b)
    && forall ix :: Within(ix, u.shape) ==> u.at(ix) == t.at(Swapped(ix, a, b))
  }

  lemma {:induction false} ExchangeTransposes(t: Tensor, a: nat, b: nat)
    requires a < |t.shape| && b < |t.shape|
    ensures IsPermutation(Exchange(|t.shape|, a, b), |t.shape|)
    ensures IsTransposeOf(Permute(t, Exchange(|t.shape|, a, b)), t, a, b)
  {
    var n := |t.shape|;
    var dims := Exchange(n, a, b);
    ExchangeIsPermutation(n, a, b);
    var u := Permute(t, dims);
    assert u.shape == Swapped(t.shape, a, b);
    forall ix | Within(ix, u.shape) ensures u.at(ix) == t.at(Swapped(ix, a, b)) {
      var o := Swapped(ix, a, b);
      PermuteMeans(t, dims, o);
      assert seq(n, k requires 0 <= k < n => o[dims[k]]) == ix;
    }
  }

  /** What a transpose is for the plain tensor; axes may be counted from the end. */
  lemma {:induction false} TransposeMeans(t: Tensor, i: int, j: int)
    requires |t.shape| >= 2 && ApplyPlain(t, Exchanged(i, j)).Some?
    ensures var n := |t.shape|;
            && -n <= i < n && -n <= j < n
            && IsTransposeOf(ApplyPlain(t, Exchanged(i, j)).value, t, if i < 0 then i + n else i,
                             if j < 0 then j + n else j)
  {
    ExchangeTransposes(t, Normal(i, |t.shape|), Normal(j, |t.shape|));
  }

  /** And so for the product of the factors. */
  lemma {:induction false} GetTransposeMeans(l: Lora, i: int, j: int)
    requires Valid(l) && GetTranspose(l, i, j).Some?
    ensures Valid(GetTranspose(l, i, j).value)
    ensures var n := |l.B.shape|;
            && -n <= i < n && -n <= j < n
            && IsTransposeOf(Dense(GetTranspose(l, i, j).value), Dense(l), if i < 0 then i + n else i,
                             if j < 0 then j + n else j)
  {
    hide Valid, Dense, GetTranspose, IsTransposeOf, Permute, IsPermutation;
    PlainShape(l);
    ExchangedCommutes(l, i, j);
    TransposeMeans(Dense(l), i, j);
    TransposeOfSame(Dense(GetTranspose(l, i, j).value), ApplyPlain(Dense(l), Exchanged(i, j)).value, Dense(l),
                    if i < 0 then i + |l.B.shape| else i, if j < 0 then j + |l.B.shape| else j);
  }

  lemma {:induction false} TransposeOfSame(v: Tensor, u: Tensor, t: Tensor, a: nat, b: nat)
    requires Same(v, u) && IsTransposeOf(u, t, a, b)
    ensures IsTransposeOf(v, t, a, b)
  {
  }

  ghost predicate Commutes(l: Lora, op: Op)
    requires Valid(l) && Apply(l, op).Some?
  {
    && Valid(Apply(l, op).value) && |Dense(l).shape| >= 2 && ApplyPlain(Dense(l), op).Some?
    && Same(Dense(Apply(l, op).value), ApplyPlain(Dense(l), op).value)
  }

  lemma {:induction false} AtCommutes(l: Lora, i: int)
    requires Valid(l) && Apply(l, Op.At(i)).Some?
    ensures Commutes(l, Op.At(i))
  {
    PlainShape(l);
    hide Valid, Dense, Same, Select, IsShape, Fits, Only, Precise, Reshape, Permute, Scale;
    GetIndexCommutes(l, i);
  }

  lemma {:induction false} RowsCommutes(l: Lora, s: Slice)
    requires Valid(l) && Apply(l, Op.Rows(s)).Some?
    ensures Commutes(l, Op.Rows(s))
  {
    PlainShape(l);
    hide Valid, Dense, Same, Select, IsShape, Fits, Only, Precise, Reshape, Permute, Scale;
    GetSliceCommutes(l, s);
  }

  lemma {:induction false} TupleCommutes(l: Lora, b: seq<Selector>, rs: Slice, cs: Slice)
    requires Valid(l) && Apply(l, Op.Tuple(b, rs, cs)).Some?
    ensures Commutes(l, Op.Tuple(b, rs, cs))
  {
    PlainShape(l);
    hide Valid, Dense, Same, Select, IsShape, Fits, Only, Precise, Reshape, Permute, Scale;
    GetTupleCommutes(l, b, rs, cs);
  }

  lemma {:induction false} PartCommutes(l: Lora, dim: nat, start: nat, len: nat)
    requires Valid(l) && Apply(l, Op.Part(dim, start, len)).Some?
    ensures Commutes(l, Op.Part(dim, start, len))
  {
    PlainShape(l);
    hide Valid, Dense, Same, Select, IsShape, Fits, Only, Precise, Reshape, Permute, Scale;
    SplitCommutes(l, dim, start, len);
  }

  lemma {:induction false} ReshapedCommutes(l: Lora, shape: seq<int>)
    requires Valid(l) && Apply(l, Op.Reshaped(shape)).Some?
    ensures Commutes(l, Op.Reshaped(shape))
  {
    PlainShape(l);
    hide Valid, Dense, Same, Select, IsShape, Fits, Only, Precise, Reshape, Permute, Scale;
    ReshapeStep(l, shape);
  }

  lemma {:induction false} PermutedCommutes(l: Lora, dims: seq<int>)
    requires Valid(l) && Apply(l, Op.Permuted(dims)).Some?
    ensures Commutes(l, Op.Permuted(dims))
  {
    PlainShape(l);
    hide Valid, Dense, Same, Select, IsShape, Fits, Only, Precise, Reshape, Permute, Scale;
    PermuteCommutes(l, dims);
  }

  lemma {:induction false} ExchangedCommutes(l: Lora, i: int, j: int)
    requires Valid(l) && Apply(l, Op.Exchanged(i, j)).Some?
    ensures Commutes(l, Op.Exchanged(i, j))
  {
    PlainShape(l);
    hide Valid, Dense, Same, Select, IsShape, Fits, Only, Precise, Reshape, Permute, Scale, Exchange, IsPermutation;
    hide Normalized, GetPermute, GetTranspose;
    TransposeAsPermute(l, i, j);
    PermuteCommutes(l, Exchange(|l.B.shape|, Normal(i, |l.B.shape|), Normal(j, |l.B.shape|)));
  }

  lemma {:induction false} ScaledCommutes(l: Lora, m: Tensor)
    requires Valid(l) && Apply(l, Op.Scaled(m)).Some?
    ensures Commutes(l, Op.Scaled(m))
  {
    PlainShape(l);
    hide Valid, Dense, Same, Select, IsShape, Fits, Only, Precise, Reshape, Permute, Scale;
    ScaleCommutes(l, m);
  }

  /** One operation on the factors is the operation on the product. */
  lemma {:induction false} StepCommutes(l: Lora, op: Op)
    requires Valid(l) && Apply(l, op).Some?
    ensures Commutes(l, op)
  {
    hide *;
    match op {
      case At(i) => AtCommutes(l, i);
      case Rows(s) => RowsCommutes(l, s);
      case Tuple(b, rs, cs) => TupleCommutes(l, b, rs, cs);
      case Part(dim, start, len) => PartCommutes(l, dim, start, len);
      case Reshaped(shape) => ReshapedCommutes(l, shape);
      case Permuted(dims) => PermutedCommutes(l, dims);
      case Exchanged(i, j) => ExchangedCommutes(l, i, j);
      case Scaled(m) => ScaledCommutes(l, m);
    }
  }

  lemma {:induction false} ReshapeStep(l: Lora, shape: seq<int>)
    requires Valid(l) && KeepsElements(l, shape) && GetReshape(l, shape).Some?
    ensures var e := Expand(shape, Product(Shape(l)));
            && e.Some? && IsShape(e.value) && Product(e.value) == Product(Shape(l)) && Dense(l).shape == Shape(l)
            && Valid(GetReshape(l, shape).value) && Same(Dense(GetReshape(l, shape).value), Reshape(Dense(l), e.value))
  {
    PlainShape(l);
    var e := Expand(shape, Product(Shape(l))).value;
    ReshapeCommutes(l, e);
    ReshapedShapeIsNatural(l, e);
    hide Valid, Dense, Same, Reshape, ReshapeTo, Expand;
  }

  /** A shape that the factors can take is left out only when the plain tensor cannot take it, and with no rank. */
  lemma {:induction false} ReshapeIsSupportedExactly(l: Lora, shape: seq<int>)
    requires Valid(l) && GetReshape(l, shape).Some?
    ensures |Dense(l).shape| >= 2
    ensures Apply(l, Reshaped(shape)).Some? <==> ApplyPlain(Dense(l), Reshaped(shape)).Some?
    ensures Rank(l) > 0 ==> Apply(l, Reshaped(shape)).Some?
  {
    PlainShape(l);
    var e := Expand(shape, Product(Shape(l))).value;
    ReshapedShapeIsNatural(l, e);
    if Rank(l) > 0 {
      SameElements(l, e);
    }
    hide Valid, Dense, ReshapeTo, Expand, Rank;
  }

  lemma {:induction false} ReshapedShapeIsNatural(l: Lora, shape: seq<int>)
    requires Valid(l) && ReshapeTo(l, shape).Some?
    ensures IsShape(shape)
  {
  }

  // ----- The plain operations do not see values outside the shape -----

  lemma {:induction false} SelectCongruent(t: Tensor, u: Tensor, sels: seq<Selector>)
    requires Same(t, u) && IsShape(t.shape) && Fits(sels, t.shape)
    ensures Same(Select(t, sels), Select(u, sels))
  {
    hide IsShape, Fits, Within;
    forall ix | Within(ix, Selected(sels, t.shape)) ensures Select(t, sels).at(ix) == Select(u, sels).at(ix) {
      OriginWithin(sels, t.shape, ix);
    }
  }

  lemma {:induction false} ReshapeCongruent(t: Tensor, u: Tensor, shape: seq<int>)
    requires Same(t, u) && IsShape(t.shape) && Product(shape) == Product(t.shape)
    ensures Same(Reshape(t, shape), Reshape(u, shape))
  {
    forall ix | Within(ix, shape) ensures Reshape(t, shape).at(ix) == Reshape(u, shape).at(ix) {
      RavelWithin(ix, shape);
      UnravelWithin(Ravel(ix, shape), t.shape);
    }
  }

  lemma {:induction false} PermuteCongruent(t: Tensor, u: Tensor, dims: seq<int>)
    requires Same(t, u) && IsPermutation(dims, |t.shape|)
    ensures Same(Permute(t, dims), Permute(u, dims))
  {
    forall ix | Within(ix, Permute(t, dims).shape) ensures Permute(t, dims).at(ix) == Permute(u, dims).at(ix) {
      UnpermutedWithin(t, dims, ix);
    }
  }

  lemma {:induction false} ScaleCongruent(t: Tensor, u: Tensor, m: Tensor)
    requires Same(t, u) && Spreads(m, t.shape)
    ensures Same(Scale(t, m), Scale(u, m))
  {
    forall ix | Within(ix, Enlarged(m.shape, t.shape)) ensures Scale(t, m).at(ix) == Scale(u, m).at(ix) {
      LoweredWithin(m.shape, t.shape, ix);
    }
  }

  lemma {:induction false} PlainCongruent(t: Tensor, u: Tensor, op: Op)
    requires Same(t, u) && IsShape(t.shape) && |t.shape| >= 2 && ApplyPlain(t, op).Some?
    ensures ApplyPlain(u, op).Some? && Same(ApplyPlain(t, op).value, ApplyPlain(u, op).value)
  {
    hide Select, Fits, Reshape, Permute, Scale, Expand, Only, SliceOf, PartOf, IsShape, Spreads;
    var n := |t.shape|;
    assert u.shape == t.shape;
    match op {
      case At(i) => SelectCongruent(t, u, Only(n - 2, 0, Index(i)) + [Span(FULL), Span(FULL)]);
      case Rows(s) => SelectCongruent(t, u, SliceOf(n, s));
      case Tuple(b, rs, cs) => SelectCongruent(t, u, b + [Span(rs), Span(cs)]);
      case Part(dim, start, len) => SelectCongruent(t, u, PartOf(n, dim, start, len));
      case Reshaped(shape) => ReshapeCongruent(t, u, Expand(shape, Product(t.shape)).value);
      case Permuted(dims) => PermuteCongruent(t, u, Normalized(dims, n));
      case Exchanged(i, j) => PermuteCongruent(t, u, Exchange(n, Normal(i, n), Normal(j, n)));
      case Scaled(m) => ScaleCongruent(t, u, m);
    }
  }

  lemma {:induction false} SameIsTransitive(t: Tensor, u: Tensor, v: Tensor)
    requires Same(t, u) && Same(u, v)
    ensures Same(t, v)
  {
  }

  function Run(l: Lora, ops: seq<Op>): Option<Lora>
    requires Valid(l)
    decreases |ops|
  {
    if ops == [] then Some(l)
    else
      match Apply(l, ops[0])
      case None => None
      case Some(m) =>
        StepCommutes(l, ops[0]);
        Run(m, ops[1..])
  }

  function RunPlain(t: Tensor, ops: seq<Op>): Option<Tensor>
    decreases |ops|
  {
    if ops == [] then Some(t)
    else if |t.shape| < 2 then None
    else
      match ApplyPlain(t, ops[0])
      case None => None
      case Some(u) => RunPlain(u, ops[1..])
  }

  /**
    After any run of supported operations on the factors, their product is the tensor that the same operations make of
    the product there was at the start.
  */
  lemma {:induction false} RunCommutes(l: Lora, ops: seq<Op>, t: Tensor)
    requires Valid(l) && Same(Dense(l), t) && Run(l, ops).Some?
    ensures Valid(Run(l, ops).value) && RunPlain(t, ops).Some?
    ensures Same(Dense(Run(l, ops).value), RunPlain(t, ops).value)
    decreases |ops|
  {
    hide Valid, Dense, Apply, ApplyPlain, IsShape;
    if ops != [] {
      PlainShape(l);
      StepCommutes(l, ops[0]);
      var m, u := Apply(l, ops[0]).value, ApplyPlain(Dense(l), ops[0]).value;
      PlainCongruent(Dense(l), t, ops[0]);
      var v := ApplyPlain(t, ops[0]).value;
      SameIsTransitive(Dense(m), u, v);
      RunCommutes(m, ops[1..], v);
    }
  }
}
