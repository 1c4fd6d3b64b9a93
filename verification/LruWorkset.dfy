/**
  The LRU simulator for expert caches (`lru_hit_rate`): what the cache holds after every access, when an access hits,
  and why a larger budget never lowers the rate.
*/
module LruWorkset {
  import opened Basics

  type Expert = nat

  /** The ordered dictionary without one key. */
  function Without(s: seq<Expert>, e: Expert): (r: seq<Expert>)
    ensures forall x :: x in r <==> x in s && x != e
  {
    if s == [] then [] else (if s[0] == e then [] else [s[0]]) + Without(s[1..], e)
  }

  function Last(s: seq<Expert>, n: nat): seq<Expert> {
    if |s| <= n then s else s[|s| - n..]
  }

  ghost function Distinct(s: seq<Expert>): set<Expert> {
    set e | e in s
  }

  /** The experts used so far, least recently used first. */
  function Recent(used: seq<Expert>): (r: seq<Expert>)
    ensures forall x :: x in r <==> x in used
  {
    if used == [] then []
    else Without(Recent(used[..|used| - 1]), used[|used| - 1]) + [used[|used| - 1]]
  }

  /** What was accessed after the last use of `e`. */
  function SinceLastUse(used: seq<Expert>, e: Expert): seq<Expert>
    requires e in used
  {
    if used[|used| - 1] == e then [] else SinceLastUse(used[..|used| - 1], e) + [used[|used| - 1]]
  }

  /** Reuse distance: an access hits if the expert was used before, and fewer than `budget` others since. */
  ghost predicate IsHit(used: seq<Expert>, e: Expert, budget: nat) {
    e in used && |Distinct(SinceLastUse(used, e))| < budget
  }

  ghost function Hits(stream: seq<Expert>, budget: nat): nat {
    if stream == [] then 0
    else
      var used := stream[..|stream| - 1];
      Hits(used, budget) + if IsHit(used, stream[|stream| - 1], budget) then 1 else 0
  }

  ghost function Rate(stream: seq<Expert>, budget: int): real {
    if budget <= 0 then 0.0
    else if budget >= |Distinct(stream)| then 1.0
    else Hits(stream, budget) as real / |stream| as real
  }

  predicate NoRepeats(s: seq<Expert>) {
    forall i, j :: 0 <= i < j < |s| ==> s[i] != s[j]
  }

  lemma {:induction false} WithoutKeepsOrder(s: seq<Expert>, e: Expert)
    requires NoRepeats(s)
    ensures NoRepeats(Without(s, e))
    ensures e !in s ==> Without(s, e) == s
    ensures |Without(s, e)| == if e in s then |s| - 1 else |s|
  {
    if s != [] {
      assert forall j :: 0 <= j < |s[1..]| ==> s[1..][j] == s[j + 1] != s[0];
      WithoutKeepsOrder(s[1..], e);
      var w := Without(s[1..], e);
      assert s[0] !in w;
      if e in s && e != s[0] {
        assert e in s[1..];
      }
    }
  }

  lemma {:induction false} WithoutConcat(a: seq<Expert>, b: seq<Expert>, e: Expert)
    ensures Without(a + b, e) == Without(a, e) + Without(b, e)
  {
    if a == [] {
      assert a + b == b;
    } else {
      assert (a + b)[1..] == a[1..] + b;
      WithoutConcat(a[1..], b, e);
    }
  }

  lemma {:induction false} RecentHasNoRepeats(used: seq<Expert>)
    ensures NoRepeats(Recent(used)) && |Recent(used)| == |Distinct(used)|
    decreases |used|
  {
    if used == [] {
      assert Distinct(used) == {};
    } else {
      var before, e := used[..|used| - 1], used[|used| - 1];
      RecentHasNoRepeats(before);
      WithoutKeepsOrder(Recent(before), e);
      assert used == before + [e];
      if e in before {
        assert Distinct(used) == Distinct(before);
      } else {
        assert Distinct(used) == Distinct(before) + {e};
      }
    }
  }

  /** An expert's distance from the recent end is the number of distinct experts used since. */
  lemma {:induction false} RecencyIsReuseDistance(used: seq<Expert>, e: Expert) returns (k: nat)
    requires e in used
    ensures k < |Recent(used)| && Recent(used)[k] == e
    ensures |Recent(used)| - 1 - k == |Distinct(SinceLastUse(used, e))|
    ensures forall x :: x in SinceLastUse(used, e) <==> x in Recent(used)[k + 1..]
    decreases |used|
  {
    var before, x := used[..|used| - 1], used[|used| - 1];
    var r := Recent(used);
    if x == e {
      k := |r| - 1;
      assert Distinct(SinceLastUse(used, e)) == {};
    } else {
      assert used == before + [x];
      var k0 := RecencyIsReuseDistance(before, e);
      RecentHasNoRepeats(before);
      var since := SinceLastUse(before, e);
      k := MoveToEnd(Recent(before), k0, x);
      var b := Recent(before)[k0 + 1..];
      assert r[k + 1..] == Without(b, x) + [x];
      assert x in since <==> x in b;
      OneMore(since, x);
    }
  }

  /** Moving `x` to the end of `r`, or adding it there: where the entry at `k0` goes. */
  lemma MoveToEnd(r: seq<Expert>, k0: nat, x: Expert) returns (k: nat)
    requires NoRepeats(r) && k0 < |r| && r[k0] != x
    ensures var r' := Without(r, x) + [x];
            var b := r[k0 + 1..];
            && k < |r'| && r'[k] == r[k0] && r'[k + 1..] == Without(b, x) + [x]
            && |r'| - 1 - k == (if x in b then |b| else |b| + 1)
  {
    var a, b := r[..k0], r[k0 + 1..];
    var e := r[k0];
    assert r == a + ([e] + b);
    WithoutConcat(a, [e] + b, x);
    WithoutConcat([e], b, x);
    assert Without([e], x) == [e] by {
      assert [e][1..] == [];
    }
    assert NoRepeats(b);
    WithoutKeepsOrder(b, x);
    k := |Without(a, x)|;
    assert Without(r, x) + [x] == Without(a, x) + [e] + (Without(b, x) + [x]);
  }

  lemma OneMore(s: seq<Expert>, x: Expert)
    ensures |Distinct(s + [x])| == |Distinct(s)| + (if x in s then 0 else 1)
  {
    if x in s {
      assert Distinct(s + [x]) == Distinct(s);
    } else {
      assert Distinct(s + [x]) == Distinct(s) + {x};
    }
  }

  /** A hit is exactly membership among the `budget` most recently used experts. */
  lemma HitIsMembership(used: seq<Expert>, e: Expert, budget: nat)
    ensures e in Last(Recent(used), budget) <==> IsHit(used, e, budget)
  {
    var r := Recent(used);
    if e in used {
      var k := RecencyIsReuseDistance(used, e);
      RecentHasNoRepeats(used);
      var c := Last(r, budget);
      if |r| - 1 - k < budget {
        assert r[k] == if |r| <= budget then c[k] else c[k - (|r| - budget)];
      }
    }
  }

  /** The update of the ordered dictionary for one access. */
  function Access(cache: seq<Expert>, e: Expert, budget: nat): seq<Expert> {
    if e in cache then Without(cache, e) + [e]
    else (if cache != [] && |cache| >= budget then cache[1..] else cache) + [e]
  }

  /** It keeps exactly the most recently used experts. */
  lemma AccessKeepsMostRecent(used: seq<Expert>, e: Expert, budget: nat)
    requires budget > 0
    ensures Access(Last(Recent(used), budget), e, budget) == Last(Recent(used + [e]), budget)
  {
    RecentHasNoRepeats(used);
    assert (used + [e])[..|used|] == used;
    MovedToEnd(Recent(used), e, budget);
  }

  lemma MovedToEnd(r: seq<Expert>, e: Expert, budget: nat)
    requires NoRepeats(r) && budget > 0
    ensures Access(Last(r, budget), e, budget) == Last(Without(r, e) + [e], budget)
  {
    var c := Last(r, budget);
    var p := r[..|r| - |c|];
    assert r == p + c && NoRepeats(c);
    WithoutConcat(p, c, e);
    WithoutKeepsOrder(c, e);
    if e in c {
      assert e !in p && NoRepeats(p);
      WithoutKeepsOrder(p, e);
      hide Without, NoRepeats;
      Associate(p, Without(c, e), [e]);
      LastOfTwo(p, Without(c, e) + [e], budget);
    } else {
      assert |c| < budget ==> Without(p, e) == [];
      hide Without, NoRepeats;
      Associate(Without(p, e), c, [e]);
      Missed(Without(p, e), c, e, budget);
    }
  }

  lemma Missed(p: seq<Expert>, c: seq<Expert>, e: Expert, budget: nat)
    requires budget > 0 && |c| <= budget && (|c| < budget ==> p == [])
    ensures Last(p + (c + [e]), budget) == (if c != [] && |c| >= budget then c[1..] else c) + [e]
  {
    if |c| < budget {
      LastOfTwo(p, c + [e], budget);
    } else {
      LastOfTwo(p + c[..1], c[1..] + [e], budget);
      Associate(p, c[..1], c[1..] + [e]);
      assert c[..1] + (c[1..] + [e]) == c + [e];
    }
  }

  lemma LastOfTwo(a: seq<Expert>, b: seq<Expert>, n: nat)
    requires |b| == n || (|b| < n && a == [])
    ensures Last(a + b, n) == b
  {
    if a == [] {
      assert a + b == b;
    }
  }

  method LruHitRate(stream: seq<Expert>, budget: int) returns (rate: real)
    ensures rate == Rate(stream, budget)
  {
    if budget <= 0 {
      return 0.0;
    }
    var distinct := set e | e in stream;
    assert distinct == Distinct(stream);
    if budget >= |distinct| {
      return 1.0;
    }
    NothingDistinct();
    assert stream != [];
    var cache: seq<Expert> := [];
    var hits := 0;
    for i := 0 to |stream|
      invariant cache == Last(Recent(stream[..i]), budget)
      invariant hits == Hits(stream[..i], budget)
    {
      var e := stream[i];
      assert stream[..i + 1] == stream[..i] + [e] && stream[..i + 1][..i] == stream[..i];
      HitIsMembership(stream[..i], e, budget);
      AccessKeepsMostRecent(stream[..i], e, budget);
      if e in cache {
        hits := hits + 1;
        cache := Without(cache, e) + [e];
      } else {
        if |cache| >= budget {
          cache := cache[1..];
        }
        cache := cache + [e];
      }
    }
    assert stream[..|stream|] == stream;
    rate := hits as real / |stream| as real;
  }

  /** After any accesses the cache holds min(budget, distinct so far) experts, and caches are nested in the budget. */
  lemma CachesAreNested(used: seq<Expert>, small: nat, large: nat)
    requires small <= large
    ensures var c, c' := Last(Recent(used), small), Last(Recent(used), large);
            && |c| == (if small < |Distinct(used)| then small else |Distinct(used)|)
            && |c| <= |c'| && c == c'[|c'| - |c|..]
  {
    RecentHasNoRepeats(used);
  }

  lemma {:induction false} MoreBudgetMoreHits(stream: seq<Expert>, small: nat, large: nat)
    requires small <= large
    ensures Hits(stream, small) <= Hits(stream, large) <= |stream|
    decreases |stream|
  {
    if stream != [] {
      MoreBudgetMoreHits(stream[..|stream| - 1], small, large);
    }
  }

  /** A larger budget never lowers the rate, also across the shortcut for budgets that cover every expert. */
  lemma RateIsMonotone(stream: seq<Expert>, small: int, large: int)
    requires small <= large
    ensures 0.0 <= Rate(stream, small) <= Rate(stream, large) <= 1.0
  {
    NothingDistinct();
    if stream != [] {
      var a, b := if small > 0 then Hits(stream, small) else 0, if large > 0 then Hits(stream, large) else 0;
      if small > 0 {
        MoreBudgetMoreHits(stream, small, large);
      } else if large > 0 {
        MoreBudgetMoreHits(stream, large, large);
      }
      hide Hits, Distinct;
      FractionsGrow(a as real, b as real, |stream| as real);
    }
  }

  lemma NothingDistinct()
    ensures Distinct([]) == {}
  {
  }

  lemma FractionsGrow(a: real, b: real, n: real)
    requires 0.0 <= a <= b <= n && 0.0 < n
    ensures 0.0 <= a / n <= b / n <= 1.0
  {
    assert b / n - a / n == (b - a) / n;
  }

  /** What the shortcut leaves out: simulated with such a budget, the first use of each expert would miss. */
  lemma {:induction false} ShortcutIgnoresColdMisses(stream: seq<Expert>, budget: nat)
    requires budget >= |Distinct(stream)|
    ensures Hits(stream, budget) == |stream| - |Distinct(stream)|
    decreases |stream|
  {
    if stream == [] {
      assert Distinct(stream) == {};
    } else {
      var used, e := stream[..|stream| - 1], stream[|stream| - 1];
      assert stream == used + [e];
      OneMore(used, e);
      ShortcutIgnoresColdMisses(used, budget);
      if e in used {
        var k := RecencyIsReuseDistance(used, e);
        RecentHasNoRepeats(used);
      }
    }
  }
}
