/**
  The grammar for fields in any order (`common_chat_peg_builder::permute`): one shared rule per set of fields that
  remain. The grammar derives exactly the orderings of the fields, with exactly 2^n - 1 rules.
*/
module Permute {

  /** A grammar over the given parsers, which are known by their index; `Ref` names the rule for a set of them. */
  datatype Grammar =
    | Eps
    | Atom(i: nat)
    | Sequence(parts: seq<Grammar>)
    | Choice(alternatives: seq<Grammar>)
    | Ref(remaining: set<nat>)

  type Rules = map<set<nat>, Grammar>

  const MAX_PERMUTE := 6

  /** `w` lists the parsers of one derivation. A reference may only lead to a rule for fewer than `rank` parsers. */
  ghost predicate Derives(rules: Rules, rank: nat, g: Grammar, w: seq<nat>)
    decreases rank, g
  {
    match g
    case Eps => w == []
    case Atom(i) => w == [i]
    case Sequence(parts) => DerivesAll(rules, rank, parts, w)
    case Choice(alternatives) => exists i :: 0 <= i < |alternatives| && Derives(rules, rank, alternatives[i], w)
    case Ref(remaining) =>
      remaining in rules && |remaining| < rank && Derives(rules, |remaining|, rules[remaining], w)
  }

  ghost predicate DerivesAll(rules: Rules, rank: nat, parts: seq<Grammar>, w: seq<nat>)
    decreases rank, parts
  {
    if parts == [] then w == []
    else exists k :: 0 <= k <= |w| && Derives(rules, rank, parts[0], w[..k])
                     && DerivesAll(rules, rank, parts[1..], w[k..])
  }

  function Upto(n: nat): (s: set<nat>)
    ensures forall i: nat :: i in s <==> i < n
    ensures |s| == n
  {
    if n == 0 then {} else Upto(n - 1) + {n - 1}
  }

  function GrammarFor(remaining: set<nat>): Grammar {
    if remaining == {} then Eps else Ref(remaining)
  }

  /** The alternatives of a rule, for the parsers below `n`, in index order. */
  function Alternatives(remaining: set<nat>, n: nat): seq<Grammar> {
    if n == 0 then []
    else
      Alternatives(remaining, n - 1)
      + (if n - 1 in remaining then [Sequence([Atom(n - 1), GrammarFor(remaining - {n - 1})])] else [])
  }

  /** The memo table: a rule for every set it holds, and for every smaller one. */
  ghost predicate Memo(rules: Rules, n: nat) {
    && (forall m :: m in rules ==> m != {} && m <= Upto(n) && rules[m] == Choice(Alternatives(m, n)))
    && (forall m, k: set<nat> :: m in rules && k <= m && k != {} ==> k in rules)
  }

  class Builder {
    const n: nat
    var rules: Rules

    constructor (n: nat)
      ensures this.n == n && rules == map[]
    {
      this.n := n;
      rules := map[];
    }

    /** The memoised recursion over the set of parsers not used yet. */
    method RemainingOf(remaining: set<nat>) returns (g: Grammar)
      requires remaining <= Upto(n) && Memo(rules, n)
      modifies this
      ensures Memo(rules, n) && g == GrammarFor(remaining)
      ensures forall k: set<nat> :: k in rules <==> k in old(rules) || (k != {} && k <= remaining)
      decreases |remaining|
    {
      if remaining == {} {
        return Eps;
      }
      if remaining in rules {
        return Ref(remaining);
      }
      var alternatives: seq<Grammar> := [];
      for i := 0 to n
        invariant Memo(rules, n)
        invariant alternatives == Alternatives(remaining, i)
        invariant forall k: set<nat> :: k in rules <==>
                    k in old(rules) || (k != {} && k <= remaining && exists j :: j < i && j in remaining && j !in k)
      {
        if i in remaining {
          var rest := RemainingOf(remaining - {i});
          alternatives := alternatives + [Sequence([Atom(i), rest])];
          forall k: set<nat>
            ensures k in rules <==>
                    k in old(rules) || (k != {} && k <= remaining && exists j :: j < i + 1 && j in remaining && j !in k)
          {
            NewSubsets(k, remaining, i);
          }
        }
      }
      forall k: set<nat> | k <= remaining && k != {} && k != remaining
        ensures k in rules
      {
        assert exists j :: j in remaining && j !in k;
        assert forall j :: j in remaining ==> j in Upto(n);
      }
      rules := rules[remaining := Choice(alternatives)];
      g := Ref(remaining);
    }
  }

  lemma NewSubsets(k: set<nat>, remaining: set<nat>, i: nat)
    requires i in remaining
    ensures k <= remaining - {i} <==> k <= remaining && i !in k
  {
  }

  // ----- The language -----

  /** `w` uses each of the given parsers exactly once. */
  ghost predicate IsOrdering(w: seq<nat>, parsers: set<nat>) {
    |w| == |parsers| && forall i :: i in w <==> i in parsers
  }

  /** The rule for a set of parsers derives exactly the orderings of that set. */
  lemma {:induction false} RuleDerivesOrderings(rules: Rules, n: nat, m: set<nat>, rank: nat, w: seq<nat>)
    requires Memo(rules, n) && (m == {} || m in rules) && |m| < rank
    ensures Derives(rules, rank, GrammarFor(m), w) <==> IsOrdering(w, m)
    decreases |m|
  {
    if m == {} {
    } else {
      assert rules[m] == Choice(Alternatives(m, n));
      assert Derives(rules, rank, Ref(m), w) <==> Derives(rules, |m|, rules[m], w);
      if Derives(rules, |m|, rules[m], w) {
        var a :| 0 <= a < |Alternatives(m, n)| && Derives(rules, |m|, Alternatives(m, n)[a], w);
        var i := AlternativeAt(m, n, a);
        FirstThenRest(rules, n, m, i, w);
        AddFirst(w, m, i);
      }
      if IsOrdering(w, m) {
        var i := w[0];
        assert i in m;
        RemoveFirst(w, m);
        var a := AlternativeOf(m, n, i);
        FirstThenRest(rules, n, m, i, w);
      }
    }
  }

  /** The alternative for the parser `i`: `i`, then the rest of the set in any order. */
  lemma {:induction false} FirstThenRest(rules: Rules, n: nat, m: set<nat>, i: nat, w: seq<nat>)
    requires Memo(rules, n) && m in rules && i in m
    ensures Derives(rules, |m|, Sequence([Atom(i), GrammarFor(m - {i})]), w)
            <==> w != [] && w[0] == i && IsOrdering(w[1..], m - {i})
    decreases |m|, 0
  {
    var rest := GrammarFor(m - {i});
    var parts := [Atom(i), rest];
    assert |m - {i}| == |m| - 1;
    assert parts[1..] == [rest];
    if w != [] {
      RuleDerivesOrderings(rules, n, m - {i}, |m|, w[1..]);
      assert w[1..][|w| - 1..] == [] && w[1..][..|w| - 1] == w[1..];
    }
    if DerivesAll(rules, |m|, parts, w) {
      var k :| 0 <= k <= |w| && Derives(rules, |m|, Atom(i), w[..k]) && DerivesAll(rules, |m|, [rest], w[k..]);
      assert w[..k] == [i] && k == 1 && w[0] == i;
      JustOne(rules, |m|, rest, w[1..]);
    }
    if w != [] && w[0] == i && IsOrdering(w[1..], m - {i}) {
      JustOne(rules, |m|, rest, w[1..]);
      assert w[..1] == [i] && parts[0] == Atom(i);
      assert Derives(rules, |m|, parts[0], w[..1]) && DerivesAll(rules, |m|, parts[1..], w[1..]);
    }
  }

  lemma JustOne(rules: Rules, rank: nat, g: Grammar, w: seq<nat>)
    ensures DerivesAll(rules, rank, [g], w) <==> Derives(rules, rank, g, w)
  {
    assert [g][1..] == [];
    assert w[..|w|] == w && w[|w|..] == [];
    if DerivesAll(rules, rank, [g], w) {
      var k :| 0 <= k <= |w| && Derives(rules, rank, g, w[..k]) && DerivesAll(rules, rank, [], w[k..]);
      assert k == |w|;
    }
  }

  lemma {:induction false} AlternativeAt(m: set<nat>, n: nat, a: nat) returns (i: nat)
    requires a < |Alternatives(m, n)|
    ensures i in m && Alternatives(m, n)[a] == Sequence([Atom(i), GrammarFor(m - {i})])
    decreases n
  {
    if a < |Alternatives(m, n - 1)| {
      i := AlternativeAt(m, n - 1, a);
    } else {
      i := n - 1;
    }
  }

  lemma {:induction false} AlternativeOf(m: set<nat>, n: nat, i: nat) returns (a: nat)
    requires i in m && i < n
    ensures a < |Alternatives(m, n)| && Alternatives(m, n)[a] == Sequence([Atom(i), GrammarFor(m - {i})])
    decreases n
  {
    if i == n - 1 {
      a := |Alternatives(m, n - 1)|;
    } else {
      a := AlternativeOf(m, n - 1, i);
    }
  }

  lemma AddFirst(w: seq<nat>, m: set<nat>, i: nat)
    requires i in m && w != [] && w[0] == i && IsOrdering(w[1..], m - {i})
    ensures IsOrdering(w, m)
  {
    assert w == [i] + w[1..];
  }

  lemma RemoveFirst(w: seq<nat>, m: set<nat>)
    requires w != [] && IsOrdering(w, m)
    ensures IsOrdering(w[1..], m - {w[0]})
  {
    var i, rest := w[0], w[1..];
    assert w == [i] + rest;
    assert Elements(w) == m;
    if i in rest {
      RepeatsShrink(w);
    }
  }

  ghost function Elements(w: seq<nat>): set<nat> {
    set j | j in w
  }

  lemma RepeatsShrink(w: seq<nat>)
    requires w != [] && w[0] in w[1..]
    ensures |Elements(w)| < |w|
  {
    assert w == [w[0]] + w[1..];
    assert Elements(w) == Elements(w[1..]);
    ElementsOf(w[1..]);
  }

  lemma {:induction false} ElementsOf(w: seq<nat>)
    ensures |Elements(w)| <= |w|
    decreases |w|
  {
    if w != [] {
      ElementsOf(w[1..]);
      assert w == [w[0]] + w[1..];
      OneMore(Elements(w[1..]), w[0]);
      assert Elements(w) == Elements(w[1..]) + {w[0]};
    } else {
      assert Elements(w) == {};
    }
  }

  lemma OneMore(s: set<nat>, x: nat)
    ensures |s + {x}| <= |s| + 1
  {
    if x in s {
      assert s + {x} == s;
    }
  }

  /** The sequence used for one parser, or for too many: exactly the given order. */
  function InOrder(n: nat): seq<Grammar> {
    if n == 0 then [] else InOrder(n - 1) + [Atom(n - 1)]
  }

  function Count(n: nat): seq<nat> {
    if n == 0 then [] else Count(n - 1) + [n - 1]
  }

  lemma {:induction false} DerivesConcat(rules: Rules, rank: nat, a: seq<Grammar>, i: nat, w: seq<nat>)
    ensures DerivesAll(rules, rank, a + [Atom(i)], w)
            <==> w != [] && w[|w| - 1] == i && DerivesAll(rules, rank, a, w[..|w| - 1])
    decreases |a|
  {
    if a == [] {
      assert a + [Atom(i)] == [Atom(i)];
      JustOne(rules, rank, Atom(i), w);
    } else {
      hide Derives;
      var tail := a[1..];
      assert (a + [Atom(i)])[1..] == tail + [Atom(i)];
      if DerivesAll(rules, rank, a + [Atom(i)], w) {
        var k :| 0 <= k <= |w| && Derives(rules, rank, a[0], w[..k])
                 && DerivesAll(rules, rank, tail + [Atom(i)], w[k..]);
        DerivesConcat(rules, rank, tail, i, w[k..]);
        SplitBeforeLast(w, k);
        assert Derives(rules, rank, a[0], w[..|w| - 1][..k]) && DerivesAll(rules, rank, tail, w[..|w| - 1][k..]);
      }
      if w != [] && w[|w| - 1] == i && DerivesAll(rules, rank, a, w[..|w| - 1]) {
        var v := w[..|w| - 1];
        var k :| 0 <= k <= |v| && Derives(rules, rank, a[0], v[..k]) && DerivesAll(rules, rank, tail, v[k..]);
        DerivesConcat(rules, rank, tail, i, w[k..]);
        SplitBeforeLast(w, k);
        assert Derives(rules, rank, a[0], w[..k]) && DerivesAll(rules, rank, tail + [Atom(i)], w[k..]);
      }
    }
  }

  lemma SplitBeforeLast(w: seq<nat>, k: nat)
    requires k < |w|
    ensures w[k..][..|w[k..]| - 1] == w[..|w| - 1][k..] && w[..|w| - 1][..k] == w[..k]
    ensures w[k..] != [] && w[k..][|w[k..]| - 1] == w[|w| - 1]
  {
  }

  lemma {:induction false} SequenceDerivesGivenOrder(rules: Rules, rank: nat, n: nat, w: seq<nat>)
    ensures DerivesAll(rules, rank, InOrder(n), w) <==> w == Count(n)
    decreases n
  {
    if n > 0 {
      DerivesConcat(rules, rank, InOrder(n - 1), n - 1, w);
      if w != [] {
        SequenceDerivesGivenOrder(rules, rank, n - 1, w[..|w| - 1]);
        assert w == w[..|w| - 1] + [w[|w| - 1]];
      }
      assert Count(n)[..n - 1] == Count(n - 1) by {
        CountLength(n - 1);
      }
    }
  }

  lemma {:induction false} CountLength(n: nat)
    ensures |Count(n)| == n
  {
    if n > 0 {
      CountLength(n - 1);
    }
  }

  // ----- The number of rules -----

  function Pow2(n: nat): nat {
    if n == 0 then 1 else 2 * Pow2(n - 1)
  }

  /** All subsets of the first `n` parsers. */
  ghost function Subsets(n: nat): set<set<nat>> {
    if n == 0 then {{}} else Subsets(n - 1) + With(Subsets(n - 1), n - 1)
  }

  ghost function With(sets: set<set<nat>>, e: nat): set<set<nat>> {
    set k | k in sets :: k + {e}
  }

  lemma {:induction false} SubsetsAreAll(n: nat, k: set<nat>)
    ensures k in Subsets(n) <==> k <= Upto(n)
    decreases n, 1
  {
    if n == 0 {
      assert k <= Upto(0) <==> k == {};
    } else if n - 1 in k {
      SubsetsWithLast(n, k);
    } else {
      SubsetsAreAll(n - 1, k);
      assert k <= Upto(n) <==> k <= Upto(n - 1);
      assert k !in With(Subsets(n - 1), n - 1);
    }
  }

  lemma {:induction false} SubsetsWithLast(n: nat, k: set<nat>)
    requires n > 0 && n - 1 in k
    ensures k in Subsets(n) <==> k <= Upto(n)
    decreases n, 0
  {
    var e := n - 1;
    var smaller := Subsets(e);
    SubsetsAreAll(e, k);
    assert k !in smaller;
    if k <= Upto(n) {
      SubsetsAreAll(e, k - {e});
      assert k == (k - {e}) + {e};
      assert k in With(smaller, e);
    }
    if k in With(smaller, e) {
      var j :| j in smaller && k == j + {e};
      SubsetsAreAll(e, j);
    }
  }

  lemma {:induction false} SubsetCount(n: nat)
    ensures |Subsets(n)| == Pow2(n)
    decreases n
  {
    hide Subsets;
    if n == 0 {
      OnlyTheEmptySet();
    } else {
      SubsetCount(n - 1);
      CountDoubles(n - 1);
    }
  }

  lemma OnlyTheEmptySet()
    ensures |Subsets(0)| == 1
  {
    assert Subsets(0) == {{}};
  }

  lemma CountDoubles(e: nat)
    ensures |Subsets(e + 1)| == 2 * |Subsets(e)|
  {
    var a, b := Subsets(e), With(Subsets(e), e);
    assert Subsets(e + 1) == a + b;
    hide Subsets, With;
    assert |a| == |b| by {
      LastIsNew(e);
      SameSize(a, b, e);
    }
    assert |a + b| == |a| + |b| by {
      LastIsNew(e);
      DisjointSizes(a, b);
    }
  }

  lemma LastIsNew(e: nat)
    ensures forall k :: k in Subsets(e) ==> e !in k
    ensures forall k :: k in With(Subsets(e), e) ==> k !in Subsets(e)
  {
    forall k | k in Subsets(e)
      ensures e !in k
    {
      SubsetsAreAll(e, k);
    }
    forall k | k in With(Subsets(e), e)
      ensures k !in Subsets(e)
    {
      assert e in k;
    }
  }

  lemma DisjointSizes(a: set<set<nat>>, b: set<set<nat>>)
    requires forall k :: k in b ==> k !in a
    ensures |a + b| == |a| + |b|
  {
    assert (a + b) - a == b;
  }

  lemma {:induction false} SameSize(a: set<set<nat>>, b: set<set<nat>>, e: nat)
    requires forall k :: k in a ==> e !in k
    requires b == With(a, e)
    ensures |a| == |b|
    decreases |a|
  {
    if a != {} {
      var k :| k in a;
      var b' := With(a - {k}, e);
      assert b == b' + {k + {e}} by {
        assert a == (a - {k}) + {k};
      }
      forall x | x in a - {k}
        ensures x + {e} != k + {e}
      {
        assert (x + {e}) - {e} == x && (k + {e}) - {e} == k;
      }
      SameSize(a - {k}, b', e);
    }
  }

  lemma MemoCount(rules: Rules, n: nat)
    requires Memo(rules, n) && Upto(n) in rules
    ensures |rules| == Pow2(n) - 1
  {
    forall k: set<nat>
      ensures k in rules <==> k in Subsets(n) - {{}}
    {
      SubsetsAreAll(n, k);
    }
    assert rules.Keys == Subsets(n) - {{}};
    SubsetsAreAll(n, {});
    SubsetCount(n);
  }

  /** The parser built for `n` fields accepts `w`. */
  ghost predicate Accepts(rules: Rules, n: nat, g: Grammar, w: seq<nat>) {
    Derives(rules, n + 1, g, w)
  }

  /**
    Up to six fields may come in any order, and there is one rule for each non-empty set of fields; one field, or
    more than six, only in the given order.
  */
  method Permute(n: nat) returns (g: Grammar, rules: Rules)
    ensures n <= MAX_PERMUTE ==> forall w: seq<nat> :: Accepts(rules, n, g, w) <==> IsOrdering(w, Upto(n))
    ensures n > MAX_PERMUTE ==> forall w: seq<nat> {:trigger Accepts(rules, n, g, w)} ::
                                  Accepts(rules, n, g, w) <==> w == Count(n)
    ensures |rules| == if 2 <= n <= MAX_PERMUTE then Pow2(n) - 1 else 0
  {
    rules := map[];
    if n == 0 {
      return Eps, rules;
    }
    if n == 1 || n > MAX_PERMUTE {
      g := Sequence(InOrder(n));
      forall w: seq<nat>
        ensures Accepts(rules, n, g, w) <==> w == Count(n)
        ensures n == 1 ==> (w == Count(n) <==> IsOrdering(w, Upto(n)))
      {
        SequenceDerivesGivenOrder(rules, n + 1, n, w);
        if n == 1 {
          OnlyOneOrdering(w);
        }
      }
      return;
    }
    var b := new Builder(n);
    g := b.RemainingOf(Upto(n));
    rules := b.rules;
    assert 0 in Upto(n);
    forall w: seq<nat>
      ensures Accepts(rules, n, g, w) <==> IsOrdering(w, Upto(n))
    {
      RuleDerivesOrderings(rules, n, Upto(n), n + 1, w);
    }
    MemoCount(rules, n);
  }

  lemma OnlyOneOrdering(w: seq<nat>)
    ensures w == Count(1) <==> IsOrdering(w, Upto(1))
  {
    assert Upto(1) == {0} && Count(1) == [0];
    if IsOrdering(w, Upto(1)) {
      assert w[0] in w;
    }
  }
}
