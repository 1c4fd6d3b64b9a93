/**
  Joining lists of factored tensors, and whole expressions: however operations, stacks and joins are nested, the product
  of the factors at the end is what the same expression makes of the products at its leaves.
*/
module FactoredTrees {
  import opened Wrappers
  import opened Tensor
  import opened FactoredTensor
  import opened FactoredRuns

  // ----- Joining a list along the first axis -----

  predicate SameTails(ts: seq<Tensor>) {
    && (forall i :: 0 <= i < |ts| ==> ts[i].shape != [])
    && (forall i :: 0 <= i < |ts| ==> ts[i].shape[1..] == ts[0].shape[1..])
  }

  function CatAll(ts: seq<Tensor>): (r: Tensor)
    requires ts != [] && SameTails(ts)
    ensures r.shape != [] && r.shape[1..] == ts[0].shape[1..]
    decreases |ts|
  {
    var n := |ts| - 1;
    if n == 0 then ts[0] else Cat(CatAll(ts[..n]), ts[n])
  }

  /** Matrices must share the factor A; with a leading axis both factors are joined. */
  ghost function GetCatAll(ls: seq<Lora>): Option<Lora>
    requires forall i :: 0 <= i < |ls| ==> Valid(ls[i])
  {
    var a, b := FactorsA(ls), FactorsB(ls);
    if ls == [] || !SameTails(b) then None
    else if |ls[0].B.shape| == 2 then
      if forall i :: 0 <= i < |ls| ==> Same(ls[0].A, ls[i].A) then Make(ls[0].A, CatAll(b)) else None
    else if !SameTails(a) then None
    else Make(CatAll(a), CatAll(b))
  }

  lemma {:induction false} FactorsOfFirst(ls: seq<Lora>, n: nat)
    requires n <= |ls|
    ensures FactorsA(ls)[..n] == FactorsA(ls[..n]) && FactorsB(ls)[..n] == FactorsB(ls[..n])
  {
  }

  lemma {:induction false} ProductsOfFirst(ls: seq<Lora>, n: nat)
    requires n <= |ls| && forall i :: 0 <= i < |ls| ==> Valid(ls[i])
    ensures Products(ls)[..n] == Products(ls[..n])
  {
    hide Valid, Products;
    forall i | 0 <= i < n ensures Products(ls)[i] == Products(ls[..n])[i] {
      ProductsAt(ls, i);
      ProductsAt(ls[..n], i);
    }
  }

  lemma {:induction false} CatCongruent(t: Tensor, t': Tensor, u: Tensor)
    requires Same(t, t') && t.shape != [] && u.shape != [] && t.shape[1..] == u.shape[1..]
    ensures Same(Cat(t, u), Cat(t', u))
  {
    var r := Cat(t, u);
    forall ix | Within(ix, r.shape) ensures r.at(ix) == Cat(t', u).at(ix) {
      if ix[0] < t.shape[0] {
        assert forall i :: 1 <= i < |ix| ==> t.shape[i] == r.shape[i];
        assert Within(ix, t.shape);
      }
    }
  }

  /** Joining one tensor more, on both sides. */
  lemma {:induction false} OneMoreJoined(ls: seq<Lora>, r: Lora, joined: Lora)
    requires |ls| > 1 && forall i :: 0 <= i < |ls| ==> Valid(ls[i])
    requires SameTails(Products(ls[..|ls| - 1])) && Valid(r) && Same(Dense(r), CatAll(Products(ls[..|ls| - 1])))
    requires var last := ls[|ls| - 1];
             && Dense(r).shape != [] && Dense(last).shape != [] && Dense(r).shape[1..] == Dense(last).shape[1..]
             && Valid(joined) && Same(Dense(joined), Cat(Dense(r), Dense(last)))
    ensures SameTails(Products(ls)) && Same(Dense(joined), CatAll(Products(ls)))
  {
    var n := |ls| - 1;
    hide Dense, Valid, Products, Cat, Same, SameTails, CatAll;
    ProductsAt(ls, n);
    ProductsOfFirst(ls, n);
    SameShape(Dense(r), CatAll(Products(ls[..n])));
    CatOneMore(Products(ls), n);
    CatCongruent(Dense(r), CatAll(Products(ls[..n])), Dense(ls[n]));
    SameIsTransitive(Dense(joined), Cat(Dense(r), Dense(ls[n])), CatAll(Products(ls)));
  }

  lemma {:induction false} CatOneMore(ts: seq<Tensor>, n: nat)
    requires |ts| == n + 1 && n > 0 && SameTails(ts[..n])
    requires ts[n].shape != [] && CatAll(ts[..n]).shape[1..] == ts[n].shape[1..]
    ensures SameTails(ts) && CatAll(ts) == Cat(CatAll(ts[..n]), ts[n])
  {
    hide Cat;
    forall i | 0 <= i < |ts| ensures ts[i].shape != [] && ts[i].shape[1..] == ts[0].shape[1..] {
      if i < n {
        assert ts[..n][i] == ts[i] && ts[..n][0] == ts[0];
      }
    }
  }

  lemma {:induction false} SameShape(t: Tensor, u: Tensor)
    requires Same(t, u)
    ensures t.shape == u.shape
  {
  }

  ghost predicate Matrices(ls: seq<Lora>, rank: int, cols: int) {
    && ls != []
    && forall i :: 0 <= i < |ls| ==>
         Valid(ls[i]) && IsMatrix(ls[i], rank, cols) && Same(ls[0].A, ls[i].A)
  }

  predicate IsMatrix(l: Lora, rank: int, cols: int) {
    l.B.shape != [] && Parts(l, [], [], l.B.shape[0], rank, cols)
  }

  lemma {:induction false} MatrixTail(l: Lora, rank: int, cols: int)
    requires Valid(l) && IsMatrix(l, rank, cols)
    ensures l.B.shape != [] && l.B.shape[1..] == [rank] && Parts(l, [], [], l.B.shape[0], rank, cols)
    ensures Dense(l).shape != [] && Dense(l).shape[1..] == [cols]
  {
    MatrixShapes(l, l.B.shape[0], rank, cols);
    DenseShape(l);
  }

  lemma {:induction false} MatrixTails(ls: seq<Lora>, rank: int, cols: int)
    requires Matrices(ls, rank, cols)
    ensures SameTails(FactorsB(ls))
  {
    hide Valid, Dense, IsMatrix, Same;
    forall i | 0 <= i < |ls| ensures FactorsB(ls)[i].shape != [] && FactorsB(ls)[i].shape[1..] == [rank] {
      MatrixTail(ls[i], rank, cols);
    }
  }

  lemma {:induction false} JoinedMatrices(ls: seq<Lora>, rank: int, cols: int)
    requires Matrices(ls, rank, cols)
    ensures SameTails(FactorsB(ls)) && SameTails(Products(ls))
    ensures var r := Lora(ls[0].A, CatAll(FactorsB(ls)));
            Valid(r) && IsMatrix(r, rank, cols) && Same(Dense(r), CatAll(Products(ls)))
    decreases |ls|
  {
    hide Valid, Dense, IsMatrix, Same, Products, Cat, SameTails, CatAll;
    MatrixTails(ls, rank, cols);
    var n := |ls| - 1;
    if n == 0 {
      OneProduct(ls);
    } else {
      JoinedMatrices(ls[..n], rank, cols);
      FactorsOfFirst(ls, n);
      MatricesStep(ls, Lora(ls[0].A, CatAll(FactorsB(ls[..n]))), rank, cols);
      CatUnfolds(FactorsB(ls), n);
    }
  }

  lemma {:induction false} CatUnfolds(ts: seq<Tensor>, n: nat)
    requires |ts| == n + 1 && n > 0 && SameTails(ts)
    ensures SameTails(ts[..n]) && ts[n].shape != [] && CatAll(ts[..n]).shape != []
    ensures CatAll(ts[..n]).shape[1..] == ts[n].shape[1..] && CatAll(ts) == Cat(CatAll(ts[..n]), ts[n])
  {
    hide Cat;
  }

  lemma {:induction false} OneProduct(ls: seq<Lora>)
    requires |ls| == 1 && Valid(ls[0])
    ensures SameTails(FactorsA(ls)) && SameTails(FactorsB(ls)) && SameTails(Products(ls))
    ensures CatAll(FactorsA(ls)) == ls[0].A && CatAll(FactorsB(ls)) == ls[0].B
    ensures Lora(ls[0].A, ls[0].B) == ls[0] && Same(Dense(ls[0]), CatAll(Products(ls)))
  {
    ProductsAt(ls, 0);
    DenseShape(ls[0]);
    hide Dense;
    assert FactorsA(ls)[0] == ls[0].A && FactorsB(ls)[0] == ls[0].B;
  }

  lemma {:induction false} MatricesStep(ls: seq<Lora>, r: Lora, rank: int, cols: int)
    requires |ls| > 1 && forall i :: 0 <= i < |ls| ==> Valid(ls[i])
    requires IsMatrix(ls[|ls| - 1], rank, cols) && Same(r.A, ls[|ls| - 1].A)
    requires Valid(r) && IsMatrix(r, rank, cols)
    requires SameTails(Products(ls[..|ls| - 1])) && Same(Dense(r), CatAll(Products(ls[..|ls| - 1])))
    ensures SameTails(Products(ls))
    ensures var last := ls[|ls| - 1];
            && r.B.shape != [] && last.B.shape != [] && r.B.shape[1..] == last.B.shape[1..]
            && var joined := Lora(r.A, Cat(r.B, last.B));
               && Valid(joined) && IsMatrix(joined, rank, cols)
               && Same(Dense(joined), CatAll(Products(ls)))
  {
    var last := ls[|ls| - 1];
    hide Valid, Dense, IsMatrix, Same, Products, Cat, SameTails, CatAll;
    TwoMatrices(r, last, rank, cols);
    OneMoreJoined(ls, r, Lora(r.A, Cat(r.B, last.B)));
  }

  lemma {:induction false} TwoMatrices(r: Lora, last: Lora, rank: int, cols: int)
    requires Valid(r) && IsMatrix(r, rank, cols) && Valid(last) && IsMatrix(last, rank, cols) && Same(r.A, last.A)
    ensures r.B.shape != [] && last.B.shape != [] && r.B.shape[1..] == last.B.shape[1..]
    ensures Dense(r).shape != [] && Dense(last).shape != [] && Dense(r).shape[1..] == Dense(last).shape[1..]
    ensures var joined := Lora(r.A, Cat(r.B, last.B));
            && Valid(joined) && IsMatrix(joined, rank, cols) && Same(Dense(joined), Cat(Dense(r), Dense(last)))
  {
    hide Valid, Dense, Parts, Same, Cat, GetCat;
    CatMatricesCommutes(r, last, r.B.shape[0], last.B.shape[0], rank, cols);
    MatricesJoined(r, last, r.B.shape[0], last.B.shape[0], rank, cols);
    FirstOfCat(r.B, last.B);
  }

  ghost predicate Batches(ls: seq<Lora>, ab: seq<int>, bb: seq<int>, rows: int, rank: int, cols: int) {
    && ls != []
    && forall i :: 0 <= i < |ls| ==> Valid(ls[i]) && IsBatch(ls[i], ab, bb, rows, rank, cols)
  }

  /** A has a matrix for each of B along the first axis. */
  predicate IsBatch(l: Lora, ab: seq<int>, bb: seq<int>, rows: int, rank: int, cols: int) {
    l.B.shape != [] && Parts(l, [l.B.shape[0]] + ab, [l.B.shape[0]] + bb, rows, rank, cols)
  }

  lemma {:induction false} BatchTail(l: Lora, ab: seq<int>, bb: seq<int>, rows: int, rank: int, cols: int)
    requires Valid(l) && IsBatch(l, ab, bb, rows, rank, cols)
    ensures l.A.shape != [] && l.A.shape[1..] == ab + [rank, cols]
    ensures l.B.shape != [] && l.B.shape[1..] == bb + [rows, rank]
    ensures Dense(l).shape != [] && Dense(l).shape[1..] == bb + [rows, cols]
  {
    var n := l.B.shape[0];
    ValidParts(l, [n] + ab, [n] + bb, rows, rank, cols);
    DenseShape(l);
    hide Valid, Dense;
    TailOf(n, ab, [rank, cols]);
    TailOf(n, bb, [rows, rank]);
    TailOf(n, bb, [rows, cols]);
  }

  lemma {:induction false} BatchTails(ls: seq<Lora>, ab: seq<int>, bb: seq<int>, rows: int, rank: int, cols: int)
    requires Batches(ls, ab, bb, rows, rank, cols)
    ensures SameTails(FactorsA(ls)) && SameTails(FactorsB(ls))
  {
    hide Valid, Dense, IsBatch;
    forall i | 0 <= i < |ls|
      ensures FactorsA(ls)[i].shape != [] && FactorsA(ls)[i].shape[1..] == ab + [rank, cols]
      ensures FactorsB(ls)[i].shape != [] && FactorsB(ls)[i].shape[1..] == bb + [rows, rank]
    {
      BatchTail(ls[i], ab, bb, rows, rank, cols);
    }
  }

  lemma {:induction false} JoinedBatches(ls: seq<Lora>, ab: seq<int>, bb: seq<int>, rows: int, rank: int, cols: int)
    requires Batches(ls, ab, bb, rows, rank, cols)
    ensures SameTails(FactorsA(ls)) && SameTails(FactorsB(ls)) && SameTails(Products(ls))
    ensures var r := Lora(CatAll(FactorsA(ls)), CatAll(FactorsB(ls)));
            && Valid(r) && IsBatch(r, ab, bb, rows, rank, cols) && Same(Dense(r), CatAll(Products(ls)))
    decreases |ls|
  {
    hide Valid, Dense, IsBatch, Same, Products, Cat, SameTails, CatAll;
    BatchTails(ls, ab, bb, rows, rank, cols);
    var n := |ls| - 1;
    if n == 0 {
      OneProduct(ls);
    } else {
      JoinedBatches(ls[..n], ab, bb, rows, rank, cols);
      FactorsOfFirst(ls, n);
      BatchesStep(ls, Lora(CatAll(FactorsA(ls[..n])), CatAll(FactorsB(ls[..n]))), ab, bb, rows, rank, cols);
      CatUnfolds(FactorsA(ls), n);
      CatUnfolds(FactorsB(ls), n);
    }
  }

  lemma {:induction false} BatchesStep(ls: seq<Lora>, r: Lora, ab: seq<int>, bb: seq<int>,
                                       rows: int, rank: int, cols: int)
    requires Batches(ls, ab, bb, rows, rank, cols) && |ls| > 1
    requires Valid(r) && IsBatch(r, ab, bb, rows, rank, cols)
    requires SameTails(Products(ls[..|ls| - 1])) && Same(Dense(r), CatAll(Products(ls[..|ls| - 1])))
    ensures SameTails(Products(ls))
    ensures var last := ls[|ls| - 1];
            && r.A.shape != [] && last.A.shape != [] && r.A.shape[1..] == last.A.shape[1..]
            && r.B.shape != [] && last.B.shape != [] && r.B.shape[1..] == last.B.shape[1..]
            && var joined := Lora(Cat(r.A, last.A), Cat(r.B, last.B));
               && Valid(joined) && IsBatch(joined, ab, bb, rows, rank, cols)
               && Same(Dense(joined), CatAll(Products(ls)))
  {
    var last := ls[|ls| - 1];
    assert Valid(last) && IsBatch(last, ab, bb, rows, rank, cols);
    assert forall i :: 0 <= i < |ls| ==> Valid(ls[i]);
    hide Valid, Dense, Parts, Same, Products, Cat, GetCat, SameTails, CatAll, Batches;
    BatchTail(r, ab, bb, rows, rank, cols);
    BatchTail(last, ab, bb, rows, rank, cols);
    var n, more := r.B.shape[0], last.B.shape[0];
    CatBatchesCommutes(r, last, n, more, ab, bb, rows, rank, cols);
    JoinedIsValid(r, last, n, more, ab, bb, rows, rank, cols);
    var joined := Lora(Cat(r.A, last.A), Cat(r.B, last.B));
    FirstOfCat(r.B, last.B);
    OneMoreJoined(ls, r, joined);
  }

  lemma {:induction false} FirstOfCat(t: Tensor, u: Tensor)
    requires t.shape != [] && u.shape != [] && t.shape[1..] == u.shape[1..]
    ensures Cat(t, u).shape != [] && Cat(t, u).shape[0] == t.shape[0] + u.shape[0]
  {
  }

  /** More than one tensor with a leading axis can be joined if A has a matrix for each of B. */
  predicate JoinSpreads(ls: seq<Lora>)
    requires forall i :: 0 <= i < |ls| ==> Valid(ls[i])
  {
    |ls| <= 1 || |ls[0].B.shape| == 2 || forall i :: 0 <= i < |ls| ==> LeadsAlike(ls[i])
  }

  predicate LeadsAlike(l: Lora)
    requires Valid(l)
  {
    l.A.shape[0] == l.B.shape[0]
  }

  /** Joining a list of any length joins the products. */
  lemma {:induction false} CatAllCommutes(ls: seq<Lora>)
    requires forall i :: 0 <= i < |ls| ==> Valid(ls[i])
    requires GetCatAll(ls).Some? && JoinSpreads(ls)
    ensures ls != [] && Valid(GetCatAll(ls).value) && SameTails(Products(ls))
    ensures Same(Dense(GetCatAll(ls).value), CatAll(Products(ls)))
  {
    JoinedFactors(ls);
    hide Dense, Same, CatAll, Valid, GetCatAll, SameTails, LeadsAlike, FactorsA, FactorsB, Products, Matrices, Batches;
    if |ls| == 1 {
      OneProduct(ls);
    } else if |ls[0].B.shape| == 2 {
      var rank, cols := MatricesOf(ls);
      JoinedMatrices(ls, rank, cols);
    } else {
      var ab, bb, rows, rank, cols := BatchesOf(ls);
      JoinedBatches(ls, ab, bb, rows, rank, cols);
    }
  }

  lemma {:induction false} JoinedFactors(ls: seq<Lora>)
    requires forall i :: 0 <= i < |ls| ==> Valid(ls[i])
    requires GetCatAll(ls).Some?
    ensures ls != [] && SameTails(FactorsB(ls)) && (|ls[0].B.shape| != 2 ==> SameTails(FactorsA(ls)))
    ensures GetCatAll(ls).value
         == if |ls[0].B.shape| == 2 then Lora(ls[0].A, CatAll(FactorsB(ls)))
            else Lora(CatAll(FactorsA(ls)), CatAll(FactorsB(ls)))
  {
    hide Valid, CatAll, SameTails, Same;
  }

  lemma {:induction false} MatricesOf(ls: seq<Lora>) returns (rank: int, cols: int)
    requires forall i :: 0 <= i < |ls| ==> Valid(ls[i])
    requires GetCatAll(ls).Some? && |ls[0].B.shape| == 2
    ensures Matrices(ls, rank, cols)
  {
    hide Valid, Same, CatAll;
    ShapesOfMatrix(ls[0]);
    rank, cols := ls[0].B.shape[1], ls[0].A.shape[1];
    assert |FactorsB(ls)| == |ls|;
    forall i | 0 <= i < |ls| ensures IsMatrix(ls[i], rank, cols) && Same(ls[0].A, ls[i].A) {
      assert Same(ls[0].A, ls[i].A);
      SameShape(ls[0].A, ls[i].A);
      assert FactorsB(ls)[i] == ls[i].B && FactorsB(ls)[0] == ls[0].B;
      MatrixLike(ls[0], ls[i], rank, cols);
    }
  }

  lemma {:induction false} ShapesOfMatrix(l: Lora)
    requires Valid(l) && |l.B.shape| == 2
    ensures |l.A.shape| == 2 && IsMatrix(l, l.B.shape[1], l.A.shape[1])
  {
  }

  lemma {:induction false} MatrixLike(l: Lora, m: Lora, rank: int, cols: int)
    requires IsMatrix(l, rank, cols) && l.A.shape == m.A.shape
    requires m.B.shape != [] && m.B.shape[1..] == l.B.shape[1..]
    ensures IsMatrix(m, rank, cols)
  {
    NoFirstAxes(l.B.shape[0], rank);
    NoFirstAxes(m.B.shape[0], rank);
    TailOfTwo(l.B.shape, rank);
    TailOfTwo(m.B.shape, rank);
  }

  lemma {:induction false} TailOfTwo(s: seq<int>, n: int)
    requires s != []
    ensures s == [s[0], n] <==> s[1..] == [n]
  {
    if s[1..] == [n] {
      assert s == [s[0]] + s[1..];
    }
  }

  lemma {:induction false} BatchesOf(ls: seq<Lora>)
    returns (ab: seq<int>, bb: seq<int>, rows: int, rank: int, cols: int)
    requires forall i :: 0 <= i < |ls| ==> Valid(ls[i])
    requires GetCatAll(ls).Some? && |ls[0].B.shape| != 2
    requires forall i :: 0 <= i < |ls| ==> LeadsAlike(ls[i])
    ensures Batches(ls, ab, bb, rows, rank, cols)
  {
    hide Valid, CatAll, LeadsAlike;
    ab, bb, rows, rank, cols := BatchOf(ls[0]);
    assert |FactorsA(ls)| == |FactorsB(ls)| == |ls|;
    forall i | 0 <= i < |ls| ensures IsBatch(ls[i], ab, bb, rows, rank, cols) {
      assert FactorsA(ls)[i] == ls[i].A && FactorsA(ls)[0] == ls[0].A;
      assert FactorsB(ls)[i] == ls[i].B && FactorsB(ls)[0] == ls[0].B;
      BatchLike(ls[0], ls[i], ab, bb, rows, rank, cols);
    }
  }

  lemma {:induction false} BatchOf(l: Lora) returns (ab: seq<int>, bb: seq<int>, rows: int, rank: int, cols: int)
    requires Valid(l) && |l.B.shape| != 2 && LeadsAlike(l)
    ensures IsBatch(l, ab, bb, rows, rank, cols)
  {
    var a, b;
    a, b, rows, rank, cols := PartsOf(l);
    ab, bb := a[1..], b[1..];
    assert a == [l.A.shape[0]] + ab && b == [l.B.shape[0]] + bb;
  }

  lemma {:induction false} BatchLike(l: Lora, m: Lora, ab: seq<int>, bb: seq<int>, rows: int, rank: int, cols: int)
    requires Valid(l) && IsBatch(l, ab, bb, rows, rank, cols) && Valid(m) && LeadsAlike(m)
    requires l.A.shape != [] && m.A.shape != [] && m.B.shape != []
    requires l.A.shape[1..] == m.A.shape[1..] && l.B.shape[1..] == m.B.shape[1..]
    ensures IsBatch(m, ab, bb, rows, rank, cols)
  {
    BatchTail(l, ab, bb, rows, rank, cols);
    hide Valid;
    PutFirst(m.A.shape, ab, [rank, cols]);
    PutFirst(m.B.shape, bb, [rows, rank]);
  }

  lemma {:induction false} PutFirst(s: seq<int>, a: seq<int>, b: seq<int>)
    requires s != [] && s[1..] == a + b
    ensures s == [s[0]] + a + b
  {
  }

  /** A tensor with a leading axis, where B is not empty. */
  predicate IsFilled(l: Lora) {
    Valid(l) && |l.B.shape| > 2 && l.B.shape[0] > 0
  }

  predicate AllFilled(ls: seq<Lora>) {
    forall i :: 0 <= i < |ls| ==> IsFilled(ls[i])
  }

  predicate AllLead(ls: seq<Lora>)
    requires AllFilled(ls)
  {
    forall i :: 0 <= i < |ls| ==> LeadsAlike(ls[i])
  }

  lemma {:induction false} AllButLast(ls: seq<Lora>, n: nat)
    requires |ls| == n + 1 && AllFilled(ls)
    ensures AllFilled(ls[..n]) && IsFilled(ls[n])
    ensures AllLead(ls) <==> AllLead(ls[..n]) && LeadsAlike(ls[n])
  {
    hide IsFilled, LeadsAlike;
    var init := ls[..n];
    assert forall i :: 0 <= i < n ==> init[i] == ls[i];
  }

  /** The leading axes of the joined factors, when no B is empty. */
  lemma {:induction false} LeadingAxes(ls: seq<Lora>)
    requires ls != [] && SameTails(FactorsA(ls)) && SameTails(FactorsB(ls)) && AllFilled(ls)
    ensures |ls| <= CatAll(FactorsA(ls)).shape[0] <= CatAll(FactorsB(ls)).shape[0]
    ensures CatAll(FactorsA(ls)).shape[0] == CatAll(FactorsB(ls)).shape[0] <==> AllLead(ls)
    decreases |ls|
  {
    var n := |ls| - 1;
    hide SameTails, CatAll, LeadsAlike, FactorsA, FactorsB, Products, AllFilled, AllLead, IsFilled;
    AllButLast(ls, n);
    LeadingAxis(ls[n]);
    if n == 0 {
      assert ls[..n] == [];
      OneFilled(ls);
    } else {
      LeadingAxesAddUp(ls, n);
      LeadingAxes(ls[..n]);
    }
  }

  lemma {:induction false} OneFilled(ls: seq<Lora>)
    requires |ls| == 1 && AllFilled(ls)
    ensures SameTails(FactorsA(ls)) && SameTails(FactorsB(ls)) && AllLead([])
    ensures CatAll(FactorsA(ls)) == ls[0].A && CatAll(FactorsB(ls)) == ls[0].B
  {
    hide Valid, SameTails, CatAll;
    assert IsFilled(ls[0]);
    OneProduct(ls);
  }

  lemma {:induction false} LeadingAxesAddUp(ls: seq<Lora>, n: nat)
    requires |ls| == n + 1 && n > 0 && SameTails(FactorsA(ls)) && SameTails(FactorsB(ls))
    requires ls[n].A.shape != [] && ls[n].B.shape != []
    ensures SameTails(FactorsA(ls[..n])) && SameTails(FactorsB(ls[..n]))
    ensures CatAll(FactorsA(ls)).shape[0] == CatAll(FactorsA(ls[..n])).shape[0] + ls[n].A.shape[0]
    ensures CatAll(FactorsB(ls)).shape[0] == CatAll(FactorsB(ls[..n])).shape[0] + ls[n].B.shape[0]
  {
    hide SameTails, CatAll;
    FactorsOfFirst(ls, n);
    CatUnfolds(FactorsA(ls), n);
    CatUnfolds(FactorsB(ls), n);
    FirstOfCat(CatAll(FactorsA(ls[..n])), ls[n].A);
    FirstOfCat(CatAll(FactorsB(ls[..n])), ls[n].B);
  }

  lemma {:induction false} LeadingAxis(l: Lora)
    requires IsFilled(l)
    ensures l.A.shape != [] && l.B.shape != [] && 1 <= l.A.shape[0] <= l.B.shape[0]
    ensures LeadsAlike(l) <==> l.A.shape[0] == l.B.shape[0]
  {
    assert l.A.shape[..|l.A.shape| - 2][0] == l.A.shape[0];
    assert l.B.shape[..|l.B.shape| - 2][0] == l.B.shape[0];
  }

  /** Where that condition does not hold, the joined factors do not fit, unless some of the tensors were empty. */
  lemma {:induction false} CatAllFitsExactly(ls: seq<Lora>)
    requires forall i :: 0 <= i < |ls| ==> Valid(ls[i]) && ls[i].B.shape[0] > 0
    requires GetCatAll(ls).Some?
    ensures Valid(GetCatAll(ls).value) <==> JoinSpreads(ls)
  {
    if JoinSpreads(ls) {
      CatAllCommutes(ls);
    } else if Valid(GetCatAll(ls).value) {
      hide Same, CatAll, LeadsAlike;
      JoinedFactors(ls);
      forall i | 0 <= i < |ls| ensures |ls[i].B.shape| == |ls[0].B.shape| {
        assert |FactorsB(ls)[i].shape[1..]| == |FactorsB(ls)[0].shape[1..]|;
      }
      assert AllFilled(ls);
      LeadingAxes(ls);
      assert |CatAll(FactorsB(ls)).shape[1..]| == |FactorsB(ls)[0].shape[1..]|;
      FirstSpreads(GetCatAll(ls).value);
      assert false;
    }
  }

  /** The size of the first axis when all are joined. */
  function Total(ts: seq<Tensor>): int
    requires forall i :: 0 <= i < |ts| ==> ts[i].shape != []
  {
    if ts == [] then 0 else Total(ts[..|ts| - 1]) + ts[|ts| - 1].shape[0]
  }

  lemma {:induction false} FirstOfCatAll(ts: seq<Tensor>)
    requires ts != [] && SameTails(ts)
    ensures CatAll(ts).shape[0] == Total(ts)
    decreases |ts|
  {
    var n := |ts| - 1;
    if n == 0 {
      assert ts[..0] == [] && Total(ts[..0]) == 0;
    } else {
      CatUnfolds(ts, n);
      FirstOfCat(CatAll(ts[..n]), ts[n]);
      FirstOfCatAll(ts[..n]);
      hide CatAll, SameTails, Cat;
    }
  }

  lemma {:induction false} TotalIsNatural(ts: seq<Tensor>)
    requires forall i :: 0 <= i < |ts| ==> ts[i].shape != [] && ts[i].shape[0] >= 0
    ensures Total(ts) >= 0
    decreases |ts|
  {
    if ts != [] {
      TotalIsNatural(ts[..|ts| - 1]);
    }
  }

  /** A tensor whose factors differ from those of another one in the first axis only. */
  lemma {:induction false} FitsLike(l: Lora, m: Lora)
    requires Valid(l) && |l.B.shape| > 2 && m.A.shape != [] && m.B.shape != []
    requires m.A.shape[1..] == l.A.shape[1..] && m.B.shape[1..] == l.B.shape[1..]
    requires m.A.shape[0] >= 0 && m.B.shape[0] >= 0
    ensures Valid(m) <==> m.A.shape[0] == m.B.shape[0] || m.A.shape[0] == 1
  {
    var n := |l.B.shape|;
    assert forall i :: 1 <= i < n ==> m.A.shape[i] == m.A.shape[1..][i - 1] == l.A.shape[1..][i - 1] == l.A.shape[i];
    assert forall i :: 1 <= i < n ==> m.B.shape[i] == m.B.shape[1..][i - 1] == l.B.shape[1..][i - 1] == l.B.shape[i];
    var a, b := m.A.shape[..n - 2], m.B.shape[..n - 2];
    assert forall i :: 0 <= i < n - 2 ==> a[i] == m.A.shape[i] && b[i] == m.B.shape[i];
    assert forall i :: 1 <= i < n - 2 ==> l.A.shape[..n - 2][i] == a[i] && l.B.shape[..n - 2][i] == b[i];
    if Valid(m) {
      FirstSpreads(m);
    }
  }

  /** For every list that can be joined: when the joined factors fit. */
  lemma {:induction false} CatAllFitsByTotals(ls: seq<Lora>)
    requires forall i :: 0 <= i < |ls| ==> Valid(ls[i])
    requires GetCatAll(ls).Some?
    ensures forall i :: 0 <= i < |ls| ==> FactorsA(ls)[i].shape != [] && FactorsB(ls)[i].shape != []
    ensures Valid(GetCatAll(ls).value) <==>
              |ls[0].B.shape| == 2 || Total(FactorsA(ls)) == Total(FactorsB(ls)) || Total(FactorsA(ls)) == 1
  {
    FactorsHaveAxes(ls);
    JoinedFactors(ls);
    hide Same, CatAll, LeadsAlike, SameTails, FactorsA, FactorsB, Total, GetCatAll;
    if |ls[0].B.shape| == 2 {
      CatAllCommutes(ls);
    } else {
      TotalIsNatural(FactorsA(ls));
      TotalIsNatural(FactorsB(ls));
      FirstOfCatAll(FactorsA(ls));
      FirstOfCatAll(FactorsB(ls));
      FitsLike(ls[0], GetCatAll(ls).value);
    }
  }

  lemma {:induction false} FactorsHaveAxes(ls: seq<Lora>)
    requires forall i :: 0 <= i < |ls| ==> Valid(ls[i])
    ensures |FactorsA(ls)| == |FactorsB(ls)| == |ls|
    ensures forall i :: 0 <= i < |ls| ==> FactorsA(ls)[i] == ls[i].A && FactorsB(ls)[i] == ls[i].B
    ensures forall i :: 0 <= i < |ls| ==> FactorsA(ls)[i].shape != [] && FactorsA(ls)[i].shape[0] >= 0
    ensures forall i :: 0 <= i < |ls| ==> FactorsB(ls)[i].shape != [] && FactorsB(ls)[i].shape[0] >= 0
  {
    forall i | 0 <= i < |ls|
      ensures ls[i].A.shape != [] && ls[i].A.shape[0] >= 0 && ls[i].B.shape != [] && ls[i].B.shape[0] >= 0
    {
      assert Valid(ls[i]);
    }
  }

  /** A batch of `count` numbers `1 * a`, kept with one A for all. */
  function Constant(count: int, a: real): Lora {
    Lora(Tensor([1, 1, 1], (ix: seq<int>) => a), Tensor([count, 1, 1], (ix: seq<int>) => 1.0))
  }

  lemma {:induction false} ConstantValue(count: int, a: real, k: int)
    requires count >= 0
    ensures var l := Constant(count, a);
            Valid(l) && Dense(l).shape == [count, 1, 1] && Dense(l).at([k, 0, 0]) == a
  {
    var l := Constant(count, a);
    assert l.A.shape == [1] + [1, 1] && l.B.shape == [count] + [1, 1];
    ValidParts(l, [1], [count], 1, 1, 1);
    assert [count] + [1, 1] == [count, 1, 1];
    assert [k] + [0, 0] == [k, 0, 0];
    DenseAt(l, [k], 0, 0);
    OneTerm(l, [k], 0, 0);
    TermOf(l, [1], 1, 1, [k], 0, 0, 0);
  }

  lemma {:induction false} OneTerm(l: Lora, x: seq<int>, i: int, c: int)
    requires |l.A.shape| == |x| + 2
    ensures Sum(l, x, i, c, 1) == Term(l, x, i, c, 0)
  {
    hide Term;
    assert Sum(l, x, i, c, 0) == 0.0;
  }

  /** Joined factors that fit can still be wrong: an empty tensor lends its A to the one behind it. */
  lemma {:induction false} JoinedWithEmptyIsWrong()
    ensures var ls := [Constant(0, 1.0), Constant(2, 2.0)];
            && (forall i :: 0 <= i < |ls| ==> Valid(ls[i]))
            && GetCatAll(ls).Some? && Valid(GetCatAll(ls).value) && SameTails(Products(ls))
            && !Same(Dense(GetCatAll(ls).value), CatAll(Products(ls)))
  {
    hide Dense, Valid, Constant, Cat, CatAll, GetCatAll, Products, SameTails, Same;
    var l, m := Constant(0, 1.0), Constant(2, 2.0);
    ConstantValue(0, 1.0, 0);
    ConstantValue(2, 2.0, 0);
    ConstantPair(l, m);
    JoinedConstants(l, m);
    SecondOfEmpty(Dense(l), Dense(m));
    DifferAtFirst(Dense(Lora(Cat(l.A, m.A), Cat(l.B, m.B))), Cat(Dense(l), Dense(m)));
  }

  lemma {:induction false} DifferAtFirst(t: Tensor, u: Tensor)
    requires t.shape == [2, 1, 1] && t.at([0, 0, 0]) != u.at([0, 0, 0])
    ensures !Same(t, u)
  {
    assert Within([0, 0, 0], t.shape);
  }

  /** The first number of the joined factors is that of the empty tensor's A. */
  lemma {:induction false} JoinedConstants(l: Lora, m: Lora)
    requires l == Constant(0, 1.0) && m == Constant(2, 2.0)
    ensures l.A.shape[1..] == m.A.shape[1..] && l.B.shape[1..] == m.B.shape[1..]
    ensures var r := Lora(Cat(l.A, m.A), Cat(l.B, m.B));
            Valid(r) && Dense(r).shape == [2, 1, 1] && Dense(r).at([0, 0, 0]) == 1.0
  {
    var r := Lora(Cat(l.A, m.A), Cat(l.B, m.B));
    assert r.A.shape == [2] + [1, 1] && r.B.shape == [2] + [1, 1];
    ValidParts(r, [2], [2], 1, 1, 1);
    assert [0] + [0, 0] == [0, 0, 0] && [2] + [1, 1] == [2, 1, 1];
    DenseShape(r);
    DenseAt(r, [0], 0, 0);
    OneTerm(r, [0], 0, 0);
    TermOf(r, [2], 1, 1, [0], 0, 0, 0);
    assert Narrow([2], [0]) == [0];
    hide Dense, Valid, Sum, Term;
  }

  lemma {:induction false} SecondOfEmpty(t: Tensor, u: Tensor)
    requires t.shape == [0, 1, 1] && u.shape == [2, 1, 1]
    ensures t.shape[1..] == u.shape[1..]
    ensures Cat(t, u).at([0, 0, 0]) == u.at([0, 0, 0])
  {
    assert [0 - 0] + [0, 0, 0][1..] == [0, 0, 0];
  }

  lemma {:induction false} ConstantPair(l: Lora, m: Lora)
    requires Valid(l) && Valid(m) && l == Constant(0, 1.0) && m == Constant(2, 2.0)
    requires Dense(l).shape == [0, 1, 1] && Dense(m).shape == [2, 1, 1]
    ensures l.A.shape[1..] == m.A.shape[1..] && l.B.shape[1..] == m.B.shape[1..]
    ensures Dense(l).shape[1..] == Dense(m).shape[1..]
    ensures GetCatAll([l, m]) == Some(Lora(Cat(l.A, m.A), Cat(l.B, m.B)))
    ensures SameTails(Products([l, m])) && CatAll(Products([l, m])) == Cat(Dense(l), Dense(m))
  {
    var ls := [l, m];
    ProductsAt(ls, 0);
    ProductsAt(ls, 1);
    hide Dense, Valid;
    TwoFactors(FactorsA(ls), l.A, m.A);
    TwoFactors(FactorsB(ls), l.B, m.B);
    TwoFactors(Products(ls), Dense(l), Dense(m));
  }

  lemma {:induction false} TwoFactors(ts: seq<Tensor>, t: Tensor, u: Tensor)
    requires |ts| == 2 && ts[0] == t && ts[1] == u && t.shape != [] && u.shape != [] && t.shape[1..] == u.shape[1..]
    ensures SameTails(ts) && CatAll(ts) == Cat(t, u)
  {
    assert ts[..1] == [t];
  }

  // ----- Expressions -----

  datatype Expr =
    | Leaf(l: Lora)
    | Unary(op: Op, e: Expr)
    | Stacked(es: seq<Expr>)
    | Joined(es: seq<Expr>)

  lemma {:induction false} StackFits(ls: seq<Lora>)
    requires GetStack(ls).Some? && forall i :: 0 <= i < |ls| ==> Valid(ls[i])
    ensures ls != [] && Valid(GetStack(ls).value) && SameShapes(Products(ls))
    ensures Same(Dense(GetStack(ls).value), Stack(Products(ls)))
  {
    var ab, bb, rows, rank, cols := PartsOf(ls[0]);
    forall i | 0 <= i < |ls| ensures Parts(ls[i], ab, bb, rows, rank, cols) {
      assert FactorsA(ls)[i].shape == FactorsA(ls)[0].shape;
      assert FactorsB(ls)[i].shape == FactorsB(ls)[0].shape;
    }
    hide Valid, Dense, Same, GetStack;
    StackCommutes(ls, ab, bb, rows, rank, cols);
  }

  /** The expression on the factors, if every operation in it is supported. */
  ghost function Eval(e: Expr): (r: Option<Lora>)
    ensures r.Some? ==> Valid(r.value)
    decreases e
  {
    match e
    case Leaf(l) => if Valid(l) then Some(l) else None
    case Unary(op, e) =>
      (match Eval(e)
       case None => None
       case Some(l) => if Apply(l, op).None? then None else StepCommutes(l, op); Apply(l, op))
    case Stacked(es) =>
      (match EvalAll(es)
       case None => None
       case Some(ls) => if GetStack(ls).None? then None else StackFits(ls); GetStack(ls))
    case Joined(es) =>
      match EvalAll(es)
      case None => None
      case Some(ls) =>
        if GetCatAll(ls).None? || !JoinSpreads(ls) then None else CatAllCommutes(ls); GetCatAll(ls)
  }

  ghost function EvalAll(es: seq<Expr>): (r: Option<seq<Lora>>)
    ensures r.Some? ==> |r.value| == |es| && forall i :: 0 <= i < |es| ==> Valid(r.value[i])
    decreases es
  {
    if es == [] then Some([])
    else
      match (Eval(es[0]), EvalAll(es[1..]))
      case (Some(l), Some(ls)) => Some([l] + ls)
      case _ => None
  }

  /** The expression on the products. */
  function EvalPlain(e: Expr): Option<Tensor>
    decreases e
  {
    match e
    case Leaf(l) => if Valid(l) then Some(Dense(l)) else None
    case Unary(op, e) =>
      (match EvalPlain(e)
       case None => None
       case Some(t) => if |t.shape| < 2 then None else ApplyPlain(t, op))
    case Stacked(es) =>
      (match EvalAllPlain(es)
       case None => None
       case Some(ts) => if ts != [] && SameShapes(ts) then Some(Stack(ts)) else None)
    case Joined(es) =>
      match EvalAllPlain(es)
      case None => None
      case Some(ts) => if ts != [] && SameTails(ts) then Some(CatAll(ts)) else None
  }

  function EvalAllPlain(es: seq<Expr>): Option<seq<Tensor>>
    decreases es
  {
    if es == [] then Some([])
    else
      match (EvalPlain(es[0]), EvalAllPlain(es[1..]))
      case (Some(t), Some(ts)) => Some([t] + ts)
      case _ => None
  }

  ghost predicate AllSame(ts: seq<Tensor>, us: seq<Tensor>) {
    |ts| == |us| && forall i :: 0 <= i < |ts| ==> Same(ts[i], us[i])
  }

  lemma {:induction false} StackCongruent(ts: seq<Tensor>, us: seq<Tensor>)
    requires AllSame(ts, us) && ts != [] && SameShapes(ts)
    ensures SameShapes(us) && Same(Stack(ts), Stack(us))
  {
    forall i | 0 <= i < |us| ensures us[i].shape == us[0].shape {
      assert Same(ts[i], us[i]) && Same(ts[0], us[0]);
    }
    var t := Stack(ts);
    forall ix | Within(ix, t.shape) ensures t.at(ix) == Stack(us).at(ix) {
      var k, x := ix[0], ix[1..];
      assert Same(ts[k], us[k]);
      assert forall i :: 0 <= i < |x| ==> t.shape[i + 1] == ts[k].shape[i] && x[i] == ix[i + 1];
      assert Within(x, ts[k].shape);
    }
  }

  lemma {:induction false} CatBothCongruent(t: Tensor, t': Tensor, u: Tensor, u': Tensor)
    requires Same(t, t') && Same(u, u') && t.shape != [] && u.shape != [] && t.shape[1..] == u.shape[1..]
    ensures Same(Cat(t, u), Cat(t', u'))
  {
    var r := Cat(t, u);
    forall ix | Within(ix, r.shape) ensures r.at(ix) == Cat(t', u').at(ix) {
      if ix[0] < t.shape[0] {
        assert forall i :: 1 <= i < |ix| ==> t.shape[i] == r.shape[i];
        assert Within(ix, t.shape);
      } else {
        var iy := [ix[0] - t.shape[0]] + ix[1..];
        assert forall i :: 1 <= i < |ix| ==> u.shape[i] == u.shape[1..][i - 1] == r.shape[i] && iy[i] == ix[i];
        assert Within(iy, u.shape);
      }
    }
  }

  lemma {:induction false} CatAllCongruent(ts: seq<Tensor>, us: seq<Tensor>)
    requires AllSame(ts, us) && ts != [] && SameTails(ts)
    ensures SameTails(us) && Same(CatAll(ts), CatAll(us))
    decreases |ts|
  {
    forall i | 0 <= i < |us| ensures us[i].shape != [] && us[i].shape[1..] == us[0].shape[1..] {
      assert Same(ts[i], us[i]) && Same(ts[0], us[0]);
    }
    hide Same, Cat;
    var n := |ts| - 1;
    if n > 0 {
      CatAllCongruent(ts[..n], us[..n]);
      CatBothCongruent(CatAll(ts[..n]), CatAll(us[..n]), ts[n], us[n]);
    }
  }

  /**
    However operations, stacks and joins are nested: when the factors support them all, the product of the factors is
    the tensor that the same expression makes of the products at the leaves.
  */
  lemma {:induction false} EvalCommutes(e: Expr)
    requires Eval(e).Some?
    ensures Valid(Eval(e).value) && EvalPlain(e).Some? && Same(Dense(Eval(e).value), EvalPlain(e).value)
    decreases e, 0
  {
    hide Valid, Dense, Same, Apply, ApplyPlain, Products, Stack, CatAll, SameShapes, SameTails, GetStack, GetCatAll;
    match e {
      case Leaf(l) => SameAsItself(Dense(l));
      case Unary(op, e') =>
        EvalCommutes(e');
        UnaryCommutes(Eval(e').value, op, EvalPlain(e').value);
      case Stacked(es) =>
        EvalAllCommutes(es);
        var ls := EvalAll(es).value;
        StackFits(ls);
        StackCongruent(Products(ls), EvalAllPlain(es).value);
        SameIsTransitive(Dense(GetStack(ls).value), Stack(Products(ls)), Stack(EvalAllPlain(es).value));
      case Joined(es) =>
        EvalAllCommutes(es);
        var ls := EvalAll(es).value;
        CatAllCommutes(ls);
        CatAllCongruent(Products(ls), EvalAllPlain(es).value);
        SameIsTransitive(Dense(GetCatAll(ls).value), CatAll(Products(ls)), CatAll(EvalAllPlain(es).value));
    }
  }

  lemma {:induction false} SameAsItself(t: Tensor)
    ensures Same(t, t)
  {
  }

  lemma {:induction false} UnaryCommutes(l: Lora, op: Op, t: Tensor)
    requires Valid(l) && Apply(l, op).Some? && Same(Dense(l), t)
    ensures Valid(Apply(l, op).value) && |t.shape| >= 2 && ApplyPlain(t, op).Some?
    ensures Same(Dense(Apply(l, op).value), ApplyPlain(t, op).value)
  {
    PlainShape(l);
    StepCommutes(l, op);
    SameShape(Dense(l), t);
    PlainCongruent(Dense(l), t, op);
    hide Valid, Dense, Apply, ApplyPlain, IsShape;
    SameIsTransitive(Dense(Apply(l, op).value), ApplyPlain(Dense(l), op).value, ApplyPlain(t, op).value);
  }

  lemma {:induction false} EvalAllCommutes(es: seq<Expr>)
    requires EvalAll(es).Some?
    ensures EvalAllPlain(es).Some? && AllSame(Products(EvalAll(es).value), EvalAllPlain(es).value)
    decreases es, 1
  {
    hide Valid, Dense, Same;
    if es != [] {
      EvalCommutes(es[0]);
      EvalAllCommutes(es[1..]);
      var ls := EvalAll(es).value;
      assert ls[1..] == EvalAll(es[1..]).value;
    }
  }
}
