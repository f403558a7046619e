/** The value-level parts of `AdaptiveCheckpointer` (adaptive_checkpointer/core.py):
    exponential level generation, the clamped smoothed interval, the divisibility
    test, the bounded rollback history, and the sorted id list with its
    binary search, insertion, floor lookup and window filter. */
module CoreSpec {
  import opened Common

  // ---------------------------------------------------------------------------
  // Levels: base * 2^i for i in range(max_levels)
  // ---------------------------------------------------------------------------

  /** Python's `2 ** i` for a non-negative exponent. */
  function Pow2(i: nat): (r: nat)
    ensures r >= 1
  {
    if i == 0 then 1 else 2 * Pow2(i - 1)
  }

  lemma {:induction false} Pow2StrictlyIncreasing(i: nat, j: nat)
    requires i < j
    ensures Pow2(i) < Pow2(j)
  {
    if i + 1 < j {
      Pow2StrictlyIncreasing(i, j - 1);
    }
  }

  /** The list comprehension `[base * (2 ** i) for i in range(n)]`. */
  function Levels(base: int, n: nat): (r: seq<int>)
    ensures |r| == n
    ensures n > 0 ==> r[0] == base
  {
    seq(n, i requires 0 <= i < n => base * Pow2(i))
  }

  ghost predicate StrictlyIncreasing(s: seq<int>) {
    forall i, j :: 0 <= i < j < |s| ==> s[i] < s[j]
  }

  ghost predicate AllPositive(s: seq<int>) {
    forall i :: 0 <= i < |s| ==> s[i] > 0
  }

  lemma MulStrict(b: int, x: int, y: int)
    requires b > 0 && x < y
    ensures b * x < b * y
  {
    assert b * y - b * x == b * (y - x);
  }

  /** With a positive base, the level list starts at the base, each level
      doubles the one before it, and the list is positive and strictly
      increasing. */
  lemma LevelsShape(base: int, n: nat)
    requires base > 0
    ensures n > 0 ==> Levels(base, n)[0] == base
    ensures forall i :: 0 < i < n ==> Levels(base, n)[i] == 2 * Levels(base, n)[i - 1]
    ensures AllPositive(Levels(base, n))
    ensures StrictlyIncreasing(Levels(base, n))
  {
    var r := Levels(base, n);
    forall i | 0 <= i < n
      ensures r[i] > 0
    {
      MulStrict(base, 0, Pow2(i));
    }
    forall i, j | 0 <= i < j < n
      ensures r[i] < r[j]
    {
      Pow2StrictlyIncreasing(i, j);
      MulStrict(base, Pow2(i), Pow2(j));
    }
  }

  /** Scenario: base 100 with three levels. */
  lemma InitialLevelsExample()
    ensures Levels(100, 3) == [100, 200, 400]
  {
    assert Pow2(1) == 2;
    assert Pow2(2) == 4;
  }

  /** `max` of a non-empty list. */
  function MaxOf(s: seq<int>): (r: int)
    requires |s| > 0
    ensures r in s
    ensures forall i :: 0 <= i < |s| ==> s[i] <= r
  {
    if |s| == 1 then s[0]
    else
      var m := MaxOf(s[1..]);
      if s[0] >= m then s[0] else m
  }

  /** The largest level is the last one, `base * 2^(n-1)`. */
  lemma MaxOfLevels(base: int, n: nat)
    requires base > 0 && n > 0
    ensures MaxOf(Levels(base, n)) == base * Pow2(n - 1)
  {
    var r := Levels(base, n);
    LevelsShape(base, n);
    assert forall i :: 0 <= i < n ==> r[i] <= r[n - 1];
  }

  // ---------------------------------------------------------------------------
  // The checkpoint decision: any(event_id % interval == 0 for interval in levels)
  // ---------------------------------------------------------------------------

  /** The generator `any(...)` over the level list.  A zero level would make
      Python raise, so the caller must exclude it. */
  function DividesAny(id: int, levels: seq<int>): (r: bool)
    requires forall i :: 0 <= i < |levels| ==> levels[i] != 0
    ensures r <==> exists i :: 0 <= i < |levels| && id % levels[i] == 0
  {
    if levels == [] then false
    else if id % levels[0] == 0 then true
    else
      var r := DividesAny(id, levels[1..]);
      assert forall i :: 1 <= i < |levels| ==> levels[i] == levels[1..][i - 1];
      r
  }

  // ---------------------------------------------------------------------------
  // The smoothed target interval (_dynamic_threshold)
  // ---------------------------------------------------------------------------

  /** Python's `sum` over the history. */
  function Sum(s: seq<int>): (r: int)
    ensures (forall i :: 0 <= i < |s| ==> s[i] >= 0) ==> r >= 0
  {
    if s == [] then 0
    else
      assert forall i :: 0 <= i < |s[1..]| ==> s[1..][i] == s[i + 1];
      s[0] + Sum(s[1..])
  }

  /** Appending a depth to the history adds it to the sum. */
  lemma {:induction false} SumAppend(s: seq<int>, d: int)
    ensures Sum(s + [d]) == Sum(s) + d
  {
    if s != [] {
      assert (s + [d])[1..] == s[1..] + [d];
      SumAppend(s[1..], d);
    }
  }

  /** `int(x)` for a float: truncation toward zero. */
  function Trunc(x: real): (r: int)
    ensures 0.0 <= x ==> 0 <= r && r as real <= x < r as real + 1.0
    ensures x < 0.0 ==> r <= 0 && r as real - 1.0 < x <= r as real
  {
    if x >= 0.0 then x.Floor else -((-x).Floor)
  }

  /** A sum of `|h|` terms, each within `[lo, hi]`, lies within
      `[|h| * lo, |h| * hi]`. */
  lemma {:induction false} SumBetween(h: seq<int>, lo: int, hi: int)
    requires forall i :: 0 <= i < |h| ==> lo <= h[i] <= hi
    ensures |h| * lo <= Sum(h) <= |h| * hi
  {
    if h != [] {
      assert forall i :: 0 <= i < |h[1..]| ==> h[1..][i] == h[i + 1];
      SumBetween(h[1..], lo, hi);
      assert |h| * lo == (|h| - 1) * lo + lo;
      assert |h| * hi == (|h| - 1) * hi + hi;
    }
  }

  /** `sum(h) / len(h)`, over exact reals.  A history of identical depths
      averages to that depth. */
  function Mean(h: seq<int>): (r: real)
    requires |h| > 0
    ensures (forall i :: 0 <= i < |h| ==> h[i] == h[0]) ==> r == h[0] as real
  {
    var r := (Sum(h) as real) / (|h| as real);
    if forall i :: 0 <= i < |h| ==> h[i] == h[0] then
      SumBetween(h, h[0], h[0]);
      MeanBetween(Sum(h), |h|, h[0], h[0]);
      r
    else
      r
  }

  lemma MeanBetween(s: int, n: nat, lo: int, hi: int)
    requires n > 0 && n * lo <= s <= n * hi
    ensures lo as real <= (s as real) / (n as real) <= hi as real
  {
    var m := (s as real) / (n as real);
    assert (s as real) == m * (n as real);
    assert (n * lo) as real == (n as real) * (lo as real);
    assert (n * hi) as real == (n as real) * (hi as real);
  }

  /** The mean of depths within `[lo, hi]` lies within `[lo, hi]`. */
  lemma MeanWithin(h: seq<int>, lo: int, hi: int)
    requires |h| > 0
    requires forall i :: 0 <= i < |h| ==> lo <= h[i] <= hi
    ensures lo as real <= Mean(h) <= hi as real
  {
    SumBetween(h, lo, hi);
    MeanBetween(Sum(h), |h|, lo, hi);
  }

  /** `avg * decay_factor`: the mean depth, scaled by the decay factor.  A
      history of identical depths smooths to that depth times the decay. */
  function Smoothed(h: seq<int>, decay: real): (r: real)
    requires |h| > 0
    ensures (forall i :: 0 <= i < |h| ==> h[i] == h[0]) ==> r == h[0] as real * decay
  {
    Mean(h) * decay
  }

  /** With a non-negative decay factor, the smoothed value lies between the
      smallest and the largest recorded depth, each scaled by the decay. */
  lemma SmoothedBetween(h: seq<int>, decay: real, lo: int, hi: int)
    requires |h| > 0 && 0.0 <= decay
    requires forall i :: 0 <= i < |h| ==> lo <= h[i] <= hi
    ensures lo as real * decay <= Smoothed(h, decay) <= hi as real * decay
  {
    MeanWithin(h, lo, hi);
    ScaledBetween(Mean(h), lo as real, hi as real, decay);
  }

  lemma ScaledBetween(x: real, lo: real, hi: real, c: real)
    requires lo <= x <= hi && 0.0 <= c
    ensures lo * c <= x * c <= hi * c
  {
    MulMonotone(lo, x, c);
    MulMonotone(x, hi, c);
  }

  lemma MulMonotone(x: real, y: real, c: real)
    requires x <= y && 0.0 <= c
    ensures x * c <= y * c
  {
    assert y * c - x * c == (y - x) * c;
  }

  /** `max(1, min(t, hi))`: a value inside `[1, hi]` is kept, one below 1
      becomes 1, one above `hi` becomes `hi` (or 1 when `hi < 1`). */
  function Clamp(t: int, hi: int): (r: int)
    ensures 1 <= r
    ensures hi >= 1 ==> r <= hi
    ensures 1 <= t <= hi ==> r == t
    ensures t < 1 ==> r == 1
    ensures t > hi ==> r == if hi >= 1 then hi else 1
  {
    var m := if t <= hi then t else hi;
    if m >= 1 then m else 1
  }

  /** `_dynamic_threshold`: the base interval when no rollback was recorded;
      otherwise the truncated smoothed value, clamped into `[1, 10 * base]`. */
  function DynamicThreshold(h: seq<int>, base: int, decay: real): (r: int)
    ensures h == [] ==> r == base
    ensures h != [] && base > 0 ==> 1 <= r <= 10 * base
    ensures h != [] ==>
      var t := Trunc(Smoothed(h, decay));
      && (1 <= t <= 10 * base ==> r == t)
      && (t < 1 ==> r == 1)
      && (t > 10 * base ==> r == if 10 * base >= 1 then 10 * base else 1)
  {
    if h == [] then base else Clamp(Trunc(Smoothed(h, decay)), 10 * base)
  }

  /** Scenario: history [10, 20, 30] with decay 0.9 averages 20 and smooths
      to 18, which lies inside the clamp range. */
  lemma DynamicThresholdExample()
    ensures DynamicThreshold([10, 20, 30], 100, 0.9) == 18
  {
    var h := [10, 20, 30];
    assert h[1..] == [20, 30];
    assert h[1..][1..] == [30];
    assert h[1..][1..][1..] == [];
    assert Sum(h) == 60;
    assert Smoothed(h, 0.9) == 18.0;
  }

  // ---------------------------------------------------------------------------
  // The bounded rollback history: deque(maxlen=window).append(depth)
  // ---------------------------------------------------------------------------

  /** The newest `w` elements of `s` (all of `s` when it is short enough). */
  function Newest(s: seq<int>, w: nat): (r: seq<int>)
    ensures |r| <= w && |r| <= |s|
  {
    if |s| <= w then s else s[|s| - w..]
  }

  /** Appending to a full deque evicts the oldest element. */
  function BoundedAppend(h: seq<int>, d: int, window: nat): (r: seq<int>)
    requires |h| <= window
    ensures r == Newest(h + [d], window)
    ensures window > 0 ==> r[|r| - 1] == d
  {
    if |h| < window then h + [d] else (h + [d])[1..]
  }

  /** The sum of the history after one bounded append: the depth is added,
      and the evicted oldest depth, if the window was full, is taken away. */
  lemma SumBoundedAppend(h: seq<int>, d: int, window: nat)
    requires |h| <= window
    ensures Sum(BoundedAppend(h, d, window)) ==
      Sum(h) + d - (if |h| < window then 0 else (h + [d])[0])
  {
    SumAppend(h, d);
  }

  /** Successive appends, oldest first. */
  function AppendAll(h: seq<int>, ds: seq<int>, window: nat): (r: seq<int>)
    requires |h| <= window
    ensures |r| <= window
    decreases |ds|
  {
    if ds == [] then h
    else AppendAll(BoundedAppend(h, ds[0], window), ds[1..], window)
  }

  /** However many depths are recorded, the history holds exactly the newest
      `window` of everything recorded, in insertion order. */
  lemma {:induction false} AppendAllIsNewest(h: seq<int>, ds: seq<int>, window: nat)
    requires |h| <= window
    ensures AppendAll(h, ds, window) == Newest(h + ds, window)
    decreases |ds|
  {
    if ds == [] {
      assert h + ds == h;
    } else {
      var h' := BoundedAppend(h, ds[0], window);
      assert AppendAll(h, ds, window) == AppendAll(h', ds[1..], window);
      AppendAllIsNewest(h', ds[1..], window);
      assert h' == Newest(h + [ds[0]], window);
      NewestConcat(h + [ds[0]], ds[1..], window);
      SplitFirst(h, ds);
    }
  }

  lemma SplitFirst(h: seq<int>, ds: seq<int>)
    requires ds != []
    ensures h + [ds[0]] + ds[1..] == h + ds
  {
    assert ds == [ds[0]] + ds[1..];
  }

  /** Trimming to the newest `w` before appending more changes nothing. */
  lemma NewestConcat(s: seq<int>, t: seq<int>, w: nat)
    ensures Newest(Newest(s, w) + t, w) == Newest(s + t, w)
  {
  }

  // ---------------------------------------------------------------------------
  // The sorted id list: bisect_right, insort, floor lookup, window filter
  // ---------------------------------------------------------------------------

  /** `bisect.bisect_right`: the position after every element `<= x`. */
  method BisectRight(a: seq<int>, x: int) returns (lo: nat)
    requires Sorted(a)
    ensures lo <= |a|
    ensures forall k :: 0 <= k < lo ==> a[k] <= x
    ensures forall k :: lo <= k < |a| ==> x < a[k]
  {
    lo := 0;
    var hi := |a|;
    while lo < hi
      invariant 0 <= lo <= hi <= |a|
      invariant forall k :: 0 <= k < lo ==> a[k] <= x
      invariant forall k :: hi <= k < |a| ==> x < a[k]
    {
      var mid := (lo + hi) / 2;
      if x < a[mid] {
        hi := mid;
      } else {
        lo := mid + 1;
      }
    }
  }

  /** `bisect.insort`: insert `x` after the elements `<= x`; duplicates are kept. */
  method Insort(a: seq<int>, x: int) returns (r: seq<int>)
    requires Sorted(a)
    ensures Sorted(r)
    ensures multiset(r) == multiset(a) + multiset{x}
  {
    var i := BisectRight(a, x);
    r := a[..i] + [x] + a[i..];
    assert a == a[..i] + a[i..];
    forall p, q | 0 <= p < q < |r|
      ensures r[p] <= r[q]
    {
      if q < i {
        assert r[p] == a[p] && r[q] == a[q];
      } else if q == i {
        assert r[p] == a[p];
      } else if p == i {
        assert r[q] == a[q - 1];
      } else if p < i {
        assert r[p] == a[p] && r[q] == a[q - 1];
      } else {
        assert r[p] == a[p - 1] && r[q] == a[q - 1];
      }
    }
  }

  /** `e` is the largest element of `s` that is `<= t`. */
  ghost predicate IsFloor(s: seq<int>, t: int, e: int) {
    e in s && e <= t && forall x :: x in s && x <= t ==> x <= e
  }

  /** The list comprehension `[e for e in s if e >= bound]`. */
  function KeepFrom(s: seq<int>, bound: int): (r: seq<int>)
    ensures forall x :: x in r <==> x in s && x >= bound
    ensures forall x :: multiset(r)[x] == if x >= bound then multiset(s)[x] else 0
  {
    if s == [] then []
    else
      var rest := KeepFrom(s[1..], bound);
      assert s == [s[0]] + s[1..];
      if s[0] >= bound then [s[0]] + rest else rest
  }

  /** Filtering keeps a sorted list sorted. */
  lemma {:induction false} KeepFromSorted(s: seq<int>, bound: int)
    requires Sorted(s)
    ensures Sorted(KeepFrom(s, bound))
  {
    if s != [] {
      var rest := KeepFrom(s[1..], bound);
      assert Sorted(s[1..]) by {
        forall i, j | 0 <= i < j < |s[1..]| ensures s[1..][i] <= s[1..][j] {
          assert s[1..][i] == s[i + 1] && s[1..][j] == s[j + 1];
        }
      }
      KeepFromSorted(s[1..], bound);
      if s[0] >= bound {
        var r := [s[0]] + rest;
        forall i, j | 0 <= i < j < |r| ensures r[i] <= r[j] {
          if i == 0 {
            assert r[j] in rest;
            assert r[j] in s[1..];
            var k :| 0 <= k < |s[1..]| && s[1..][k] == r[j];
            assert s[k + 1] == r[j];
          } else {
            assert r[i] == rest[i - 1] && r[j] == rest[j - 1];
          }
        }
      }
    }
  }

  /** A checkpoint at or above the pruning bound that was the floor of `t`
      is still the floor of `t` after pruning. */
  lemma PruneKeepsFloor(s: seq<int>, bound: int, t: int, e: int)
    requires IsFloor(s, t, e) && e >= bound
    ensures IsFloor(KeepFrom(s, bound), t, e)
  {
  }

  /** When no checkpoint lies between the bound and `t`, pruning removes
      every candidate, and the floor of `t` is lost. */
  lemma PruneCanLoseFloor()
    ensures IsFloor([0], 10000, 0)
    ensures KeepFrom([0], 10000 - 2 * 400) == []
  {
  }
}
