/** The two-bucket sliding-window estimator, stated over the log of admitted
    requests of one key.  Time is counted in ticks of any resolution; `w` is the
    window length in ticks.  The weight that the middleware formats with six
    decimals is an integer number of millionths. */
module SlidingWindow {
  import opened Rounding

  const SCALE := 1_000_000

  /** `int(now // window)`, the tick at which a bucket begins, and `now % window`. */
  function BucketOf(w: Pos, now: int): int { now / w }
  function Start(w: Pos, b: int): int { b * w }
  function OffsetOf(w: Pos, now: int): int { now % w }

  /** `1.0 - ((now % window) / window)` with six decimals, in millionths. */
  function Weight(w: Pos, offset: int): int {
    HalfEven((w - offset) * SCALE, w)
  }

  /** `math.floor(prev * weight)`. */
  function Carry(prev: int, weight: int): int {
    prev * weight / SCALE
  }

  /** How many of the logged times lie in [lo, hi). */
  function Count(log: seq<int>, lo: int, hi: int): nat {
    if log == [] then 0
    else
      var t := log[|log| - 1];
      Count(log[..|log| - 1], lo, hi) + if lo <= t < hi then 1 else 0
  }

  function InBucket(w: Pos, log: seq<int>, b: int): nat {
    Count(log, Start(w, b), Start(w, b + 1))
  }

  function Estimate(w: Pos, log: seq<int>, now: int): int {
    var b := BucketOf(w, now);
    Carry(InBucket(w, log, b - 1), Weight(w, OffsetOf(w, now))) + InBucket(w, log, b)
  }

  predicate Admits(w: Pos, limit: int, log: seq<int>, now: int) {
    Estimate(w, log, now) < limit
  }

  /** The log of admitted times after checks at `times`, in order. */
  function Run(w: Pos, limit: int, times: seq<int>): seq<int> {
    if times == [] then []
    else
      var log, now := Run(w, limit, times[..|times| - 1]), times[|times| - 1];
      if Admits(w, limit, log, now) then log + [now] else log
  }

  /** Admissions in the window of length w that starts `a` ticks into bucket k. */
  function InWindow(w: Pos, log: seq<int>, k: int, a: int): nat {
    Count(log, Start(w, k) + a, Start(w, k + 1) + a)
  }

  predicate Sorted(times: seq<int>) {
    forall i, j :: 0 <= i < j < |times| ==> times[i] <= times[j]
  }

  function Repeat(t: int, n: nat): (s: seq<int>) {
    seq(n, _ => t)
  }

  // ------------------------------------------------------- what the parts compute

  /** The weight is the share of the bucket still to come, as the nearest number of
      millionths. */
  lemma WeightExactly(w: Pos, offset: int, v: int)
    ensures v == Weight(w, offset) <==> Nearest(v, (w - offset) * 1_000_000, w)
  {
    hide HalfEven;
    HalfEvenNearest((w - offset) * 1_000_000, w, v);
  }

  /** The carry is the weighted count rounded down. */
  lemma CarryExactly(prev: int, weight: int, c: int)
    ensures c == Carry(prev, weight) <==> c * 1_000_000 <= prev * weight < (c + 1) * 1_000_000
  {
    var n := prev * weight;
    if c * 1_000_000 <= n < (c + 1) * 1_000_000 {
      DivUnique(n, 1_000_000, c, n - c * 1_000_000);
    }
  }

  /** The positions of the log whose times lie in [lo, hi). */
  function LoggedIn(log: seq<int>, lo: int, hi: int): set<nat> {
    set i: nat | i < |log| && lo <= log[i] < hi
  }

  lemma {:induction false} CountIsSize(log: seq<int>, lo: int, hi: int)
    ensures Count(log, lo, hi) == |LoggedIn(log, lo, hi)|
  {
    if log != [] {
      var n := |log| - 1;
      CountIsSize(log[..n], lo, hi);
      assert LoggedIn(log, lo, hi) == LoggedIn(log[..n], lo, hi) + if lo <= log[n] < hi then {n} else {};
    }
  }

  /** The whole estimate at any instant of bucket b: the requests logged in b, plus
      those of bucket b-1 weighted by the share of b still to come, where the
      weight is rounded to millionths and the product rounded down. */
  lemma EstimateExactly(w: Pos, log: seq<int>, now: int, b: int, v: int, c: int)
    requires b * w <= now < (b + 1) * w
    requires Nearest(v, ((b + 1) * w - now) * 1_000_000, w)
    requires var prev := |LoggedIn(log, (b - 1) * w, b * w)|; c * 1_000_000 <= prev * v < (c + 1) * 1_000_000
    ensures Estimate(w, log, now) == c + |LoggedIn(log, b * w, (b + 1) * w)|
  {
    hide Weight, Carry, Count, LoggedIn, Nearest;
    BucketBounds(w, now, b);
    assert w - OffsetOf(w, now) == (b + 1) * w - now;
    WeightExactly(w, OffsetOf(w, now), v);
    CountIsSize(log, (b - 1) * w, b * w);
    CountIsSize(log, b * w, (b + 1) * w);
    CarryExactly(InBucket(w, log, b - 1), v, c);
  }

  // ---------------------------------------------------------------- arithmetic

  lemma StartNext(w: Pos, b: int)
    ensures Start(w, b + 1) == Start(w, b) + w
  {
  }

  lemma StartMonotone(w: Pos, b: int, c: int)
    requires b <= c
    ensures Start(w, b) <= Start(w, c)
  {
    if b < c {
      MulAtLeast(c - b, w);
    }
  }

  /** A tick lies in bucket b exactly when it lies between the starts of b and b+1. */
  lemma BucketBounds(w: Pos, t: int, b: int)
    ensures Start(w, b) <= t < Start(w, b + 1) <==> BucketOf(w, t) == b
    ensures BucketOf(w, t) == b ==> 0 <= OffsetOf(w, t) == t - Start(w, b) < w
    ensures Start(w, b + 1) == Start(w, b) + w
  {
    if Start(w, b) <= t < Start(w, b + 1) {
      DivUnique(t, w, b, t - b * w);
    }
  }

  lemma WeightFalls(w: Pos, o: int, p: int)
    requires o <= p
    ensures Weight(w, p) <= Weight(w, o)
  {
    hide HalfEven;
    HalfEvenMonotone((w - p) * SCALE, (w - o) * SCALE, w);
  }

  lemma WeightRange(w: Pos, o: int)
    requires 0 <= o <= w
    ensures 0 <= Weight(w, o) <= SCALE == Weight(w, 0)
  {
    hide HalfEven;
    HalfEvenExact(SCALE, w);
    assert (w - 0) * SCALE == SCALE * w;
    WeightFalls(w, 0, o);
    HalfEvenExact(0, w);
    HalfEvenMonotone(0, (w - o) * SCALE, w);
  }

  lemma CarryBounds(p: nat, weight: int)
    requires 0 <= weight <= SCALE
    ensures 0 <= Carry(p, weight) <= p
    ensures Carry(p, weight) == p <==> weight == SCALE || p == 0
  {
    ProductBounds(p, weight, SCALE);
    if weight < SCALE && p > 0 {
      ProductBounds(p, weight, SCALE - 1);
    }
  }

  lemma ProductBounds(p: nat, v: int, weight: int)
    requires v <= weight
    ensures p * v <= p * weight
    ensures 0 <= v ==> 0 <= p * v
  {
  }

  lemma CarryMonotone(p: nat, v: int, weight: int)
    requires v <= weight
    ensures Carry(p, v) <= Carry(p, weight)
  {
    ProductBounds(p, v, weight);
  }

  /** Raising the previous count raises the carry by no more than the raise. */
  lemma CarryLipschitz(p: nat, q: nat, weight: int)
    requires p <= q && 0 <= weight <= SCALE
    ensures Carry(q, weight) - Carry(p, weight) <= q - p
  {
    assert q * weight == p * weight + (q - p) * weight;
    ProductBounds(q - p, weight, SCALE);
  }

  // ------------------------------------------------------------------ counting

  lemma {:induction false} CountAppend(log: seq<int>, t: int, lo: int, hi: int)
    ensures Count(log + [t], lo, hi) == Count(log, lo, hi) + if lo <= t < hi then 1 else 0
  {
    assert (log + [t])[..|log|] == log;
  }

  lemma {:induction false} CountSplit(log: seq<int>, lo: int, mid: int, hi: int)
    requires lo <= mid <= hi
    ensures Count(log, lo, hi) == Count(log, lo, mid) + Count(log, mid, hi)
  {
    if log != [] {
      CountSplit(log[..|log| - 1], lo, mid, hi);
    }
  }

  lemma {:induction false} CountBefore(log: seq<int>, t: int, lo: int, hi: int)
    requires forall i :: 0 <= i < |log| ==> log[i] <= t
    requires t < lo
    ensures Count(log, lo, hi) == 0
  {
    if log != [] {
      CountBefore(log[..|log| - 1], t, lo, hi);
    }
  }

  lemma {:induction false} CountRepeat(log: seq<int>, t: int, n: nat, lo: int, hi: int)
    ensures Count(log + Repeat(t, n), lo, hi) == Count(log, lo, hi) + if lo <= t < hi then n else 0
  {
    if n == 0 {
      assert log + Repeat(t, n) == log;
    } else {
      CountRepeat(log, t, n - 1, lo, hi);
      CountAppend(log + Repeat(t, n - 1), t, lo, hi);
      assert log + Repeat(t, n) == log + Repeat(t, n - 1) + [t];
    }
  }

  // ---------------------------------------------------------------------- runs

  lemma SortedLast(times: seq<int>, t: int)
    requires Sorted(times + [t])
    ensures Sorted(times) && forall i :: 0 <= i < |times| ==> times[i] <= t
  {
    var all := times + [t];
    forall i, j | 0 <= i < j < |times| ensures times[i] <= times[j] {
      assert all[i] <= all[j];
    }
    forall i | 0 <= i < |times| ensures times[i] <= t {
      assert all[i] <= all[|times|];
    }
  }

  lemma EmptyRun(w: Pos, limit: int)
    ensures Run(w, limit, []) == []
  {
  }

  lemma {:induction false} RunAppend(w: Pos, limit: int, times: seq<int>, t: int)
    ensures var log := Run(w, limit, times);
            Run(w, limit, times + [t]) == if Admits(w, limit, log, t) then log + [t] else log
  {
    hide Admits;
    assert (times + [t])[..|times|] == times;
  }

  lemma {:induction false} RunWithin(w: Pos, limit: int, times: seq<int>, t: int)
    requires forall i :: 0 <= i < |times| ==> times[i] <= t
    ensures forall i :: 0 <= i < |Run(w, limit, times)| ==> Run(w, limit, times)[i] <= t
  {
    hide Admits;
    if times != [] {
      RunWithin(w, limit, times[..|times| - 1], t);
    }
  }

  /** The estimate never falls below the count of the current bucket. */
  lemma EstimateBounds(w: Pos, log: seq<int>, now: int)
    ensures var b := BucketOf(w, now);
            0 <= Estimate(w, log, now) - InBucket(w, log, b) <= InBucket(w, log, b - 1)
  {
    hide Start, BucketOf, OffsetOf, Weight, Carry;
    BucketBounds(w, now, BucketOf(w, now));
    WeightRange(w, OffsetOf(w, now));
    CarryBounds(InBucket(w, log, BucketOf(w, now) - 1), Weight(w, OffsetOf(w, now)));
  }

  /** Every bucket aligned with the clock admits at most `limit`, whatever the
      order of the clock readings. */
  lemma {:induction false} AlignedBound(w: Pos, limit: int, times: seq<int>, b: int)
    ensures InBucket(w, Run(w, limit, times), b) <= Max(limit, 0)
  {
    hide Start, BucketOf, Estimate;
    if times != [] {
      var prior, now := times[..|times| - 1], times[|times| - 1];
      var log := Run(w, limit, prior);
      AlignedBound(w, limit, prior, b);
      CountAppend(log, now, Start(w, b), Start(w, b + 1));
      BucketBounds(w, now, b);
      EstimateBounds(w, log, now);
    }
  }

  lemma HeadStep(w: Pos, limit: int, log: seq<int>, k: int, a: int, now: int)
    requires 1 <= a <= w && BucketOf(w, now) == k + 1 && now < Start(w, k + 1) + a
    requires Admits(w, limit, log, now)
    ensures Count(log, Start(w, k + 1), Start(w, k + 1) + a) < limit - Carry(InBucket(w, log, k), Weight(w, a - 1))
  {
    hide Start, BucketOf, OffsetOf, Weight, Carry;
    BucketBounds(w, now, k + 1);
    WeightFalls(w, OffsetOf(w, now), a - 1);
    CarryMonotone(InBucket(w, log, k), Weight(w, a - 1), Weight(w, OffsetOf(w, now)));
    CountSplit(log, Start(w, k + 1), Start(w, k + 1) + a, Start(w, k + 2));
  }

  /** The part of a window that reaches `a` ticks into bucket k+1. */
  lemma {:induction false} HeadBound(w: Pos, limit: nat, times: seq<int>, k: int, a: int)
    requires Sorted(times) && 1 <= a <= w
    ensures var log := Run(w, limit, times);
            Count(log, Start(w, k + 1), Start(w, k + 1) + a) <= limit - Carry(InBucket(w, log, k), Weight(w, a - 1))
  {
    hide Start, BucketOf, OffsetOf, Weight, Carry, Admits, Count, Run;
    var lo, hi := Start(w, k + 1), Start(w, k + 1) + a;
    WeightRange(w, a - 1);
    CarryBounds(InBucket(w, Run(w, limit, times), k), Weight(w, a - 1));
    AlignedBound(w, limit, times, k);
    if times == [] {
      EmptyRun(w, limit);
      CountBefore([], lo - 1, lo, hi);
    } else {
      var prior, now := times[..|times| - 1], times[|times| - 1];
      var log := Run(w, limit, prior);
      assert times == prior + [now];
      RunAppend(w, limit, prior, now);
      SortedLast(prior, now);
      HeadBound(w, limit, prior, k, a);
      BucketBounds(w, now, k);
      BucketBounds(w, now, k + 1);
      CountAppend(log, now, Start(w, k), lo);
      CountAppend(log, now, lo, hi);
      if Admits(w, limit, log, now) {
        if BucketOf(w, now) == k {
          RunWithin(w, limit, prior, now);
          CountBefore(log, now, lo, hi);
          CountBefore(log + [now], now, lo, hi);
        } else if lo <= now < hi {
          HeadStep(w, limit, log, k, a, now);
        }
      }
    }
  }

  /** Over every run and every window of length w that starts `a` ticks into
      bucket k: with P requests admitted in bucket k, at most
      limit + P - floor(P * weight) are admitted inside the window. */
  lemma WindowBound(w: Pos, limit: nat, times: seq<int>, k: int, a: int)
    requires Sorted(times) && 1 <= a < w
    ensures var log := Run(w, limit, times);
            var p := InBucket(w, log, k);
            InWindow(w, log, k, a) <= limit + p - Carry(p, Weight(w, a - 1))
  {
    hide Start, Weight, Carry, Run;
    var log := Run(w, limit, times);
    HeadBound(w, limit, times, k, a);
    StartNext(w, k);
    CountSplit(log, Start(w, k) + a, Start(w, k + 1), Start(w, k + 1) + a);
    CountSplit(log, Start(w, k), Start(w, k) + a, Start(w, k + 1));
  }

  /** The most requests any run can get through a window at offset `a`. */
  function WorstCase(w: Pos, limit: nat, a: int): int {
    if a == 0 then limit else 2 * limit - Carry(limit, Weight(w, a - 1))
  }

  lemma WorstCaseBound(w: Pos, limit: nat, times: seq<int>, k: int, a: int)
    requires Sorted(times) && 0 <= a < w
    ensures InWindow(w, Run(w, limit, times), k, a) <= WorstCase(w, limit, a) <= 2 * limit
  {
    hide Start, Weight, Carry, Run;
    AlignedBound(w, limit, times, k);
    if a > 0 {
      var p := InBucket(w, Run(w, limit, times), k);
      WindowBound(w, limit, times, k, a);
      WeightRange(w, a - 1);
      CarryLipschitz(p, limit, Weight(w, a - 1));
      CarryBounds(limit, Weight(w, a - 1));
    }
  }

  lemma EstimateAfterBurst(w: Pos, log: seq<int>, t: int, m: nat)
    ensures Estimate(w, log + Repeat(t, m), t) == Estimate(w, log, t) + m
  {
    hide Start, BucketOf, OffsetOf, Weight, Carry, Repeat;
    var b := BucketOf(w, t);
    BucketBounds(w, t, b);
    BucketBounds(w, t, b - 1);
    CountRepeat(log, t, m, Start(w, b), Start(w, b + 1));
    CountRepeat(log, t, m, Start(w, b - 1), Start(w, b));
  }

  /** n further checks at one instant admit exactly min(n, limit - estimate). */
  lemma {:induction false} Burst(w: Pos, limit: int, times: seq<int>, t: int, n: nat)
    ensures var log := Run(w, limit, times);
            Run(w, limit, times + Repeat(t, n))
            == log + Repeat(t, Min(n, Max(limit - Estimate(w, log, t), 0)))
  {
    hide Estimate, Run;
    var log := Run(w, limit, times);
    if n == 0 {
      assert times + Repeat(t, n) == times;
      assert log + Repeat(t, 0) == log;
    } else {
      var m := Min(n - 1, Max(limit - Estimate(w, log, t), 0));
      Burst(w, limit, times, t, n - 1);
      assert times + Repeat(t, n) == times + Repeat(t, n - 1) + [t];
      RunAppend(w, limit, times + Repeat(t, n - 1), t);
      EstimateAfterBurst(w, log, t, m);
      assert log + Repeat(t, m) + [t] == log + Repeat(t, m + 1);
    }
  }

  /** The run that reaches the worst case: fill bucket k in its last tick, then
      push as much as the carry leaves free `a - 1` ticks into bucket k+1. */
  function WorstRun(w: Pos, limit: nat, k: int, a: int): seq<int> {
    if a == 0 then Repeat(Start(w, k), limit)
    else Repeat(Start(w, k + 1) - 1, limit) + Repeat(Start(w, k + 1) + a - 1, limit)
  }

  lemma FillBucket(w: Pos, limit: nat, t: int)
    ensures Run(w, limit, Repeat(t, limit)) == Repeat(t, limit)
  {
    hide Start, BucketOf, OffsetOf, Weight, Carry, Run;
    Burst(w, limit, [], t, limit);
    assert [] + Repeat(t, limit) == Repeat(t, limit);
    EmptyRun(w, limit);
    EstimateBounds(w, [], t);
  }

  lemma WorstRunSorted(w: Pos, limit: nat, k: int, a: int)
    requires 0 <= a < w
    ensures Sorted(WorstRun(w, limit, k, a))
  {
  }

  lemma {:induction false} WorstCaseReached(w: Pos, limit: nat, k: int, a: int)
    requires 0 <= a < w
    ensures Sorted(WorstRun(w, limit, k, a))
    ensures InWindow(w, Run(w, limit, WorstRun(w, limit, k, a)), k, a) == WorstCase(w, limit, a)
  {
    hide Start, BucketOf, OffsetOf, Weight, Carry, Run, Count, Estimate, Sorted, Repeat;
    WorstRunSorted(w, limit, k, a);
    StartNext(w, k);
    var lo, hi := Start(w, k) + a, Start(w, k + 1) + a;
    var first := if a == 0 then Start(w, k) else Start(w, k + 1) - 1;
    var fill := Repeat(first, limit);
    FillBucket(w, limit, first);
    CountRepeat([], first, limit, lo, hi);
    CountBefore([], lo - 1, lo, hi);
    assert [] + fill == fill;
    if a > 0 {
      var t := Start(w, k + 1) + a - 1;
      Burst(w, limit, fill, t, limit);
      EstimateAfterFill(w, limit, k, a);
      WeightRange(w, a - 1);
      CarryBounds(limit, Weight(w, a - 1));
      CountRepeat(fill, t, limit - Carry(limit, Weight(w, a - 1)), lo, hi);
    }
  }

  lemma EstimateAfterFill(w: Pos, limit: nat, k: int, a: int)
    requires 1 <= a < w
    ensures Estimate(w, Repeat(Start(w, k + 1) - 1, limit), Start(w, k + 1) + a - 1) == Carry(limit, Weight(w, a - 1))
  {
    hide Start, BucketOf, OffsetOf, Weight, Carry, Repeat;
    var first, t := Start(w, k + 1) - 1, Start(w, k + 1) + a - 1;
    StartNext(w, k);
    BucketBounds(w, t, k + 1);
    CountRepeat([], first, limit, Start(w, k), Start(w, k + 1));
    CountRepeat([], first, limit, Start(w, k + 1), Start(w, k + 2));
    assert [] + Repeat(first, limit) == Repeat(first, limit);
  }

  /** What the middleware's documentation promises: no window of length w that
      starts `a` ticks into a bucket admits more than `limit`. */
  ghost predicate KeepsPromise(w: Pos, limit: nat, a: int) {
    forall times, k :: Sorted(times) ==> InWindow(w, Run(w, limit, times), k, a) <= limit
  }

  /** The promise holds exactly for aligned windows, for offsets whose weight
      still rounds to one, and for a limit of zero. */
  lemma PromiseExactly(w: Pos, limit: nat, a: int)
    requires 0 <= a < w
    ensures KeepsPromise(w, limit, a) <==> limit == 0 || a == 0 || Weight(w, a - 1) == SCALE
  {
    hide Weight, Carry, Run, InWindow, WorstRun;
    if a > 0 {
      WeightRange(w, a - 1);
      CarryBounds(limit, Weight(w, a - 1));
    }
    if limit == 0 || a == 0 || Weight(w, a - 1) == SCALE {
      forall times, k | Sorted(times)
        ensures InWindow(w, Run(w, limit, times), k, a) <= limit
      {
        WorstCaseBound(w, limit, times, k, a);
      }
    } else {
      WorstCaseReached(w, limit, 0, a);
      assert InWindow(w, Run(w, limit, WorstRun(w, limit, 0, a)), 0, a) > limit;
    }
  }

  /** With the shipped login limit of 10 per 60 s, twenty logins fit into one
      60 s window (here at millisecond resolution). */
  lemma PromiseFailsInPractice()
    ensures InWindow(60_000, Run(60_000, 10, WorstRun(60_000, 10, 0, 59_999)), 0, 59_999) == 20
  {
    hide Run, InWindow, WorstRun;
    WorstCaseReached(60_000, 10, 0, 59_999);
    HalfEvenByDivision(2 * SCALE, 60_000);
    assert Weight(60_000, 59_998) == 33;
  }

  /** A client that stays quiet for d >= w ticks after a check at t, on a key
      nobody else uses, is then admitted unless its bucket was full and the
      weight at its offset rounds to one. */
  lemma RetryAfterSuffices(w: Pos, limit: nat, times: seq<int>, t: int, d: int)
    requires Sorted(times + [t]) && limit > 0 && d >= w
    requires Weight(w, OffsetOf(w, t)) < SCALE || InBucket(w, Run(w, limit, times), BucketOf(w, t)) < limit
    ensures Admits(w, limit, Run(w, limit, times), t + d)
  {
    hide Start, BucketOf, OffsetOf, Weight, Carry, Run;
    var log, b, later := Run(w, limit, times), BucketOf(w, t), BucketOf(w, t + d);
    SortedLast(times, t);
    RunWithin(w, limit, times, t);
    BucketBounds(w, t, b);
    BucketBounds(w, t + d, later);
    AlignedBound(w, limit, times, b);
    if later <= b {
      StartMonotone(w, later + 1, b + 1);
    }
    StartMonotone(w, b + 1, later);
    CountBefore(log, t, Start(w, later), Start(w, later + 1));
    WeightRange(w, OffsetOf(w, t + d));
    if later == b + 1 {
      WeightFalls(w, OffsetOf(w, t), OffsetOf(w, t + d));
      WeightRange(w, OffsetOf(w, t));
      CarryBounds(InBucket(w, log, b), Weight(w, OffsetOf(w, t + d)));
    } else {
      StartMonotone(w, b + 1, later - 1);
      CountBefore(log, t, Start(w, later - 1), Start(w, later));
      CarryBounds(0, Weight(w, OffsetOf(w, t + d)));
    }
  }

  /** After exactly `window` (the advertised Retry-After) the condition is also
      necessary. */
  lemma RetryAfterExactly(w: Pos, limit: nat, times: seq<int>, t: int)
    requires Sorted(times + [t]) && limit > 0
    ensures Admits(w, limit, Run(w, limit, times), t + w)
            <==> Weight(w, OffsetOf(w, t)) < SCALE || InBucket(w, Run(w, limit, times), BucketOf(w, t)) < limit
  {
    hide Start, BucketOf, OffsetOf, Weight, Carry, Run;
    var log, b := Run(w, limit, times), BucketOf(w, t);
    BucketBounds(w, t, b);
    BucketBounds(w, t + w, b + 1);
    StartNext(w, b + 1);
    WeightRange(w, OffsetOf(w, t));
    if Weight(w, OffsetOf(w, t)) < SCALE || InBucket(w, log, b) < limit {
      RetryAfterSuffices(w, limit, times, t, w);
    } else {
      CarryBounds(InBucket(w, log, b), SCALE);
    }
  }

  /** A bucket filled at its first tick: the client is blocked there, and again
      after waiting for exactly the advertised time. */
  lemma RetryAfterFails(w: Pos, limit: nat, k: int)
    requires limit > 0
    ensures var t, log := Start(w, k), Run(w, limit, Repeat(Start(w, k), limit));
            !Admits(w, limit, log, t) && !Admits(w, limit, log, t + w)
  {
    hide Start, BucketOf, OffsetOf, Weight, Carry, Run;
    var t := Start(w, k);
    var fill := Repeat(t, limit);
    FillBucket(w, limit, t);
    StartNext(w, k);
    BucketBounds(w, t, k);
    WeightRange(w, 0);
    CountRepeat([], t, limit, Start(w, k), Start(w, k + 1));
    assert [] + fill == fill;
    assert Sorted(fill + [t]);
    RetryAfterExactly(w, limit, fill, t);
    EstimateBounds(w, fill, t);
  }
}
