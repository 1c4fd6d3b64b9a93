/**
  Pinning the most used experts (`top_pins`, `static_pin_hit_rate`): among all fixed sets of the same size, the
  frequency pins of a stream are the best ones for that stream.
*/
module FrequencyPins {
  type Expert = nat

  function Count(stream: seq<Expert>, e: Expert): nat {
    if stream == [] then 0
    else Count(stream[..|stream| - 1], e) + if stream[|stream| - 1] == e then 1 else 0
  }

  /** Accesses that find their expert pinned. */
  function PinHits(stream: seq<Expert>, pins: set<Expert>): nat {
    if stream == [] then 0
    else PinHits(stream[..|stream| - 1], pins) + if stream[|stream| - 1] in pins then 1 else 0
  }

  function StaticPinHitRate(stream: seq<Expert>, pins: set<Expert>): real {
    if stream == [] then 0.0 else PinHits(stream, pins) as real / |stream| as real
  }

  /** The keys of `Counter(stream)`, in the order of their first use. */
  function FirstUses(stream: seq<Expert>): (keys: seq<Expert>)
    ensures forall e :: e in keys <==> e in stream
    ensures NoRepeats(keys)
  {
    if stream == [] then []
    else
      var keys := FirstUses(stream[..|stream| - 1]);
      var e := stream[|stream| - 1];
      assert stream == stream[..|stream| - 1] + [e];
      if e in keys then keys else keys + [e]
  }

  predicate NoRepeats(s: seq<Expert>) {
    forall i, j :: 0 <= i < j < |s| ==> s[i] != s[j]
  }

  /** The first key with the highest count. */
  function Best(stream: seq<Expert>, keys: seq<Expert>): (k: nat)
    requires keys != []
    ensures k < |keys|
    ensures forall i :: 0 <= i < |keys| ==> Count(stream, keys[i]) <= Count(stream, keys[k])
    ensures forall i :: 0 <= i < k ==> Count(stream, keys[i]) < Count(stream, keys[k])
  {
    if |keys| == 1 then 0
    else
      var k := Best(stream, keys[..|keys| - 1]);
      if Count(stream, keys[|keys| - 1]) > Count(stream, keys[k]) then |keys| - 1 else k
  }

  /** `most_common(n)`: by falling count, and by first use where counts are equal. */
  function MostCommon(stream: seq<Expert>, keys: seq<Expert>, n: int): seq<Expert>
    decreases |keys|
  {
    if n <= 0 || keys == [] then []
    else
      var k := Best(stream, keys);
      [keys[k]] + MostCommon(stream, keys[..k] + keys[k + 1..], n - 1)
  }

  function Used(keys: seq<Expert>): set<Expert> {
    set e | e in keys
  }

  function TopPins(stream: seq<Expert>, n: int): set<Expert> {
    Used(MostCommon(stream, FirstUses(stream), n))
  }

  /** A choice of min(n, all) keys that leaves out none with a higher count. */
  ghost predicate IsTop(stream: seq<Expert>, keys: seq<Expert>, n: int, pins: set<Expert>) {
    && pins <= Used(keys)
    && |pins| == (if n <= 0 then 0 else if n < |keys| then n else |keys|)
    && forall p, e :: p in pins && e in keys && e !in pins ==> Count(stream, e) <= Count(stream, p)
  }

  lemma {:induction false} MostCommonIsTop(stream: seq<Expert>, keys: seq<Expert>, n: int)
    requires NoRepeats(keys)
    ensures IsTop(stream, keys, n, Used(MostCommon(stream, keys, n)))
    decreases |keys|
  {
    hide Count, Used, Best, IsTop;
    if n <= 0 || keys == [] {
      EmptyIsTop(stream, keys, n);
    } else {
      var k := Best(stream, keys);
      var rest := keys[..k] + keys[k + 1..];
      var common := MostCommon(stream, rest, n - 1);
      assert MostCommon(stream, keys, n) == [keys[k]] + common;
      hide MostCommon;
      OtherKeys(keys, k);
      UsedWithFirst(keys[k], common);
      MostCommonIsTop(stream, rest, n - 1);
      BestIsTop(stream, keys, k, rest, n, Used(common));
    }
  }

  lemma EmptyIsTop(stream: seq<Expert>, keys: seq<Expert>, n: int)
    requires n <= 0 || keys == []
    ensures IsTop(stream, keys, n, Used([]))
  {
    hide Count;
    assert Used([]) == {};
  }

  lemma UsedWithFirst(e: Expert, s: seq<Expert>)
    ensures Used([e] + s) == {e} + Used(s)
  {
  }

  lemma OtherKeys(keys: seq<Expert>, k: nat)
    requires NoRepeats(keys) && k < |keys|
    ensures var rest := keys[..k] + keys[k + 1..];
            && NoRepeats(rest) && keys[k] !in rest
            && forall e :: e in keys <==> e == keys[k] || e in rest
  {
    assert keys == keys[..k] + [keys[k]] + keys[k + 1..];
  }

  lemma BestIsTop(stream: seq<Expert>, keys: seq<Expert>, k: nat, rest: seq<Expert>, n: int, pins: set<Expert>)
    requires n > 0 && k < |keys| && keys[k] !in rest && |rest| == |keys| - 1
    requires forall e :: e in keys <==> e == keys[k] || e in rest
    requires forall i :: 0 <= i < |keys| ==> Count(stream, keys[i]) <= Count(stream, keys[k])
    requires IsTop(stream, rest, n - 1, pins)
    ensures IsTop(stream, keys, n, {keys[k]} + pins)
  {
    hide Count;
    assert keys[k] !in pins;
  }

  lemma {:induction false} SwapPin(stream: seq<Expert>, pins: set<Expert>, q: Expert, t: Expert)
    requires q in pins && t !in pins
    ensures PinHits(stream, pins - {q} + {t}) == PinHits(stream, pins) - Count(stream, q) + Count(stream, t)
    decreases |stream|
  {
    if stream != [] {
      SwapPin(stream[..|stream| - 1], pins, q, t);
    }
  }

  lemma {:induction false} DropPin(stream: seq<Expert>, pins: set<Expert>, q: Expert)
    requires q in pins
    ensures PinHits(stream, pins - {q}) == PinHits(stream, pins) - Count(stream, q)
    decreases |stream|
  {
    if stream != [] {
      DropPin(stream[..|stream| - 1], pins, q);
    }
  }

  lemma {:induction false} MorePinsMoreHits(stream: seq<Expert>, a: set<Expert>, b: set<Expert>)
    requires a <= b
    ensures PinHits(stream, a) <= PinHits(stream, b) <= |stream|
    decreases |stream|
  {
    if stream != [] {
      MorePinsMoreHits(stream[..|stream| - 1], a, b);
    }
  }

  lemma {:induction false} CountedIsUsed(stream: seq<Expert>, e: Expert)
    ensures Count(stream, e) > 0 <==> e in stream
    decreases |stream|
  {
    if stream != [] {
      assert stream == stream[..|stream| - 1] + [stream[|stream| - 1]];
      CountedIsUsed(stream[..|stream| - 1], e);
    }
  }

  lemma SizeOfUsed(keys: seq<Expert>)
    requires NoRepeats(keys)
    ensures |Used(keys)| == |keys|
  {
    if keys == [] {
      assert Used(keys) == {};
    } else {
      var rest := keys[..|keys| - 1];
      SizeOfUsed(rest);
      assert keys == rest + [keys[|keys| - 1]];
      assert Used(keys) == Used(rest) + {keys[|keys| - 1]};
    }
  }

  lemma Outsider(a: set<Expert>, b: set<Expert>) returns (q: Expert)
    requires !(a <= b)
    ensures q in a && q !in b
  {
    q :| q in a && q !in b;
  }

  /** No choice of as many pins hits more often. */
  lemma {:induction false} TopIsOptimal(stream: seq<Expert>, n: int, pins: set<Expert>, other: set<Expert>)
    requires IsTop(stream, FirstUses(stream), n, pins)
    requires |other| <= n
    ensures PinHits(stream, other) <= PinHits(stream, pins)
    decreases |other - pins|
  {
    if other <= pins {
      MorePinsMoreHits(stream, other, pins);
    } else {
      var q := Outsider(other, pins);
      CountedIsUsed(stream, q);
      if q !in stream {
        DropPin(stream, other, q);
        assert (other - {q}) - pins == (other - pins) - {q};
        TopIsOptimal(stream, n, pins, other - {q});
      } else {
        SparePin(stream, n, pins, other, q);
        var t :| t in pins && t !in other;
        SwapPin(stream, other, q, t);
        assert (other - {q} + {t}) - pins == (other - pins) - {q};
        TopIsOptimal(stream, n, pins, other - {q} + {t});
      }
    }
  }

  /** If some used expert is not pinned, there are as many pins as asked for, and one is not in `other`. */
  lemma SparePin(stream: seq<Expert>, n: int, pins: set<Expert>, other: set<Expert>, q: Expert)
    requires IsTop(stream, FirstUses(stream), n, pins) && |other| <= n
    requires q in other && q !in pins && q in stream
    ensures exists t :: t in pins && t !in other
  {
    var keys := FirstUses(stream);
    SizeOfUsed(keys);
    assert pins + {q} <= Used(keys);
    Contained(pins + {q}, Used(keys));
    assert |pins| == n;
    if pins <= other {
      Contained(pins + {q}, other);
    }
  }

  lemma Contained(a: set<Expert>, b: set<Expert>)
    requires a <= b
    ensures |a| <= |b|
  {
    assert b == a + (b - a);
  }

  /** The in-sample ceiling: whatever corpus other pins come from, as many frequency pins of the stream do no worse. */
  lemma FrequencyPinsAreOptimal(stream: seq<Expert>, n: int, other: set<Expert>)
    requires |other| <= n
    ensures StaticPinHitRate(stream, other) <= StaticPinHitRate(stream, TopPins(stream, n))
  {
    MostCommonIsTop(stream, FirstUses(stream), n);
    TopIsOptimal(stream, n, TopPins(stream, n), other);
    if stream != [] {
      Quotient(PinHits(stream, other) as real, PinHits(stream, TopPins(stream, n)) as real, |stream| as real);
    }
  }

  lemma Quotient(a: real, b: real, n: real)
    requires a <= b && 0.0 < n
    ensures a / n <= b / n
  {
    assert b / n - a / n == (b - a) / n;
  }

  /** The rate of the frequency pins does not fall as the budget grows. */
  lemma PinRateIsMonotone(stream: seq<Expert>, small: int, large: int)
    requires small <= large
    ensures StaticPinHitRate(stream, TopPins(stream, small)) <= StaticPinHitRate(stream, TopPins(stream, large))
  {
    MostCommonIsTop(stream, FirstUses(stream), small);
    if small <= 0 {
      assert TopPins(stream, small) == {};
      if large >= 0 {
        FrequencyPinsAreOptimal(stream, large, {});
      } else {
        MostCommonIsTop(stream, FirstUses(stream), large);
        assert TopPins(stream, large) == {};
      }
    } else {
      FrequencyPinsAreOptimal(stream, large, TopPins(stream, small));
    }
  }
}
