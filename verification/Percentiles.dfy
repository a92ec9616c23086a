/** Rounding of reals, sorting, and the percentile of a sample list. */
module Percentiles {
  import opened Rounding

  // ------------------------------------------------------------------- rounding

  /** Python's `round(x, 2)` and `round(x, 4)` on exact values. */
  function Round2(x: real): real { RoundReal(x * 100.0) as real / 100.0 }
  function Round4(x: real): real { RoundReal(x * 10000.0) as real / 10000.0 }

  /** v is x rounded to the nearest multiple of 1/scale, an even one between two. */
  ghost predicate IsRounded(v: real, x: real, scale: real)
    requires scale > 0.0
  {
    exists n: int :: RoundsTo(n, v, x, scale)
  }

  predicate RoundsTo(n: int, v: real, x: real, scale: real)
    requires scale > 0.0
  {
    NearestReal(n, x * scale) && v == n as real / scale
  }

  lemma RoundsExactly(v: real, x: real)
    ensures v == Round2(x) <==> IsRounded(v, x, 100.0)
    ensures v == Round4(x) <==> IsRounded(v, x, 10000.0)
  {
    hide RoundReal, NearestReal;
    RoundRealNearest(x * 100.0, RoundReal(x * 100.0));
    RoundRealNearest(x * 10000.0, RoundReal(x * 10000.0));
    assert RoundsTo(RoundReal(x * 100.0), Round2(x), x, 100.0);
    assert RoundsTo(RoundReal(x * 10000.0), Round4(x), x, 10000.0);
    if n: int :| RoundsTo(n, v, x, 100.0) {
      RoundRealNearest(x * 100.0, n);
    }
    if n: int :| RoundsTo(n, v, x, 10000.0) {
      RoundRealNearest(x * 10000.0, n);
    }
  }

  lemma Round2Monotone(x: real, y: real)
    requires x <= y
    ensures Round2(x) <= Round2(y)
  {
    hide RoundReal;
    RoundRealMonotone(x * 100.0, y * 100.0);
  }

  lemma Round4Monotone(x: real, y: real)
    requires x <= y
    ensures Round4(x) <= Round4(y)
  {
    hide RoundReal;
    RoundRealMonotone(x * 10000.0, y * 10000.0);
  }

  /** Rounding keeps a value that already has four decimals. */
  lemma Round4Exact(n: int)
    ensures Round4(n as real / 10000.0) == n as real / 10000.0
  {
    assert n as real / 10000.0 * 10000.0 == n as real;
  }

  lemma Round4Complement(x: real)
    ensures Round4(100.0 - Round4(x)) == 100.0 - Round4(x)
  {
    hide Round4;
    var n := RoundReal(x * 10000.0);
    assert Round4(x) == n as real / 10000.0 by {
      Round4Def(x);
    }
    Round4Exact(1_000_000 - n);
  }

  lemma Round4Def(x: real)
    ensures Round4(x) == RoundReal(x * 10000.0) as real / 10000.0
  {
  }

  // -------------------------------------------------------------------- sorting

  predicate Ascending(s: seq<real>) {
    forall i, j :: 0 <= i < j < |s| ==> s[i] <= s[j]
  }

  function InsertInto(s: seq<real>, x: real): (t: seq<real>)
    requires Ascending(s)
    ensures Ascending(t) && multiset(t) == multiset(s) + multiset{x}
    ensures t != [] && (t[0] == x || (s != [] && t[0] == s[0]))
  {
    if s == [] then [x]
    else if x <= s[0] then [x] + s
    else
      assert Ascending(s[1..]);
      var rest := InsertInto(s[1..], x);
      assert s == [s[0]] + s[1..];
      assert s[0] <= rest[0];
      AscendingCons(s[0], rest);
      [s[0]] + rest
  }

  lemma AscendingCons(x: real, s: seq<real>)
    requires Ascending(s) && (s == [] || x <= s[0])
    ensures Ascending([x] + s)
  {
  }

  /** `sorted(samples)`. */
  function Sort(s: seq<real>): (t: seq<real>)
    ensures Ascending(t) && multiset(t) == multiset(s) && |t| == |s|
  {
    if s == [] then []
    else
      assert s == [s[0]] + s[1..];
      var t := InsertInto(Sort(s[1..]), s[0]);
      assert |multiset(t)| == |multiset(s)|;
      t
  }

  // ----------------------------------------------------------------- percentile

  /** `int(round((p / 100.0) * (n - 1)))`. */
  function RankIndex(n: nat, p: nat): int {
    HalfEven(p * (n - 1), 100)
  }

  /** The rank is p percent of the last index, rounded to the nearest integer. */
  lemma RankIndexExactly(n: nat, p: nat, rank: int)
    ensures rank == RankIndex(n, p) <==> Nearest(rank, p * (n - 1), 100)
  {
    hide HalfEven;
    HalfEvenNearest(p * (n - 1), 100, rank);
  }

  lemma RankIndexInRange(n: nat, p: nat)
    requires n > 0 && p <= 100
    ensures 0 <= RankIndex(n, p) < n
  {
    hide HalfEven;
    var m := n - 1;
    HalfEvenExact(0, 100);
    HalfEvenExact(m, 100);
    assert m * 100 - p * m == m * (100 - p);
    assert 0 <= p * m && 0 <= m * (100 - p);
    HalfEvenMonotone(0, p * (n - 1), 100);
    HalfEvenMonotone(p * (n - 1), (n - 1) * 100, 100);
  }

  /** `_percentile`. */
  function Percentile(samples: seq<real>, p: nat): real
    requires p <= 100
  {
    if samples == [] then 0.0
    else if |samples| == 1 then samples[0]
    else
      RankIndexInRange(|samples|, p);
      Sort(samples)[RankIndex(|samples|, p)]
  }

  function CountBelow(s: seq<real>, x: real): nat {
    if s == [] then 0 else CountBelow(s[..|s| - 1], x) + if s[|s| - 1] < x then 1 else 0
  }

  function CountAtMost(s: seq<real>, x: real): nat {
    if s == [] then 0 else CountAtMost(s[..|s| - 1], x) + if s[|s| - 1] <= x then 1 else 0
  }

  lemma {:induction false} CountsPermute(s: seq<real>, t: seq<real>, x: real)
    requires multiset(s) == multiset(t)
    ensures CountBelow(s, x) == CountBelow(t, x) && CountAtMost(s, x) == CountAtMost(t, x)
  {
    if s == [] {
      assert |multiset(t)| == 0;
    } else {
      var n, y := |s| - 1, s[|s| - 1];
      RemoveAt(s, n);
      assert s[..n] + s[n + 1..] == s[..n];
      assert y in multiset(t);
      var i :| 0 <= i < |t| && t[i] == y;
      RemoveAt(t, i);
      var rest := t[..i] + t[i + 1..];
      CountsPermute(s[..n], rest, x);
      assert t == t[..i] + [y] + t[i + 1..];
      CountsConcat(t[..i], t[i + 1..], x);
      CountsConcat(t[..i] + [y], t[i + 1..], x);
      CountsAppend(t[..i], y, x);
    }
  }

  lemma RemoveAt(t: seq<real>, i: nat)
    requires i < |t|
    ensures multiset(t[..i] + t[i + 1..]) == multiset(t) - multiset{t[i]}
  {
    assert t == t[..i] + [t[i]] + t[i + 1..];
  }

  lemma {:induction false} CountsAppend(s: seq<real>, y: real, x: real)
    ensures CountBelow(s + [y], x) == CountBelow(s, x) + if y < x then 1 else 0
    ensures CountAtMost(s + [y], x) == CountAtMost(s, x) + if y <= x then 1 else 0
  {
    assert (s + [y])[..|s|] == s;
  }

  lemma {:induction false} CountsConcat(a: seq<real>, b: seq<real>, x: real)
    ensures CountBelow(a + b, x) == CountBelow(a, x) + CountBelow(b, x)
    ensures CountAtMost(a + b, x) == CountAtMost(a, x) + CountAtMost(b, x)
  {
    if b == [] {
      assert a + b == a;
    } else {
      CountsConcat(a, b[..|b| - 1], x);
      assert a + b == a + b[..|b| - 1] + [b[|b| - 1]];
      CountsAppend(a + b[..|b| - 1], b[|b| - 1], x);
    }
  }

  /** In an ascending list, fewer than i+1 elements lie below element i and more
      than i lie at or below it. */
  lemma {:induction false} CountsAscending(s: seq<real>, i: nat)
    requires Ascending(s) && i < |s|
    ensures CountBelow(s, s[i]) <= i < CountAtMost(s, s[i])
  {
    var x := s[i];
    assert s == s[..i] + s[i..] && s == s[..i + 1] + s[i + 1..];
    CountsConcat(s[..i], s[i..], x);
    CountsConcat(s[..i + 1], s[i + 1..], x);
    NoneBelow(s[i..], x);
    AllAtMost(s[..i + 1], x);
    BelowBound(s[..i], x);
  }

  lemma {:induction false} NoneBelow(s: seq<real>, x: real)
    requires forall i :: 0 <= i < |s| ==> x <= s[i]
    ensures CountBelow(s, x) == 0
  {
    if s != [] {
      NoneBelow(s[..|s| - 1], x);
    }
  }

  lemma {:induction false} AllAtMost(s: seq<real>, x: real)
    requires forall i :: 0 <= i < |s| ==> s[i] <= x
    ensures CountAtMost(s, x) == |s|
  {
    if s != [] {
      AllAtMost(s[..|s| - 1], x);
    }
  }

  lemma {:induction false} BelowBound(s: seq<real>, x: real)
    ensures CountBelow(s, x) <= CountAtMost(s, x) && CountBelow(s, x) <= |s|
  {
    if s != [] {
      BelowBound(s[..|s| - 1], x);
    }
  }

  lemma {:induction false} CountsCompare(s: seq<real>, x: real, y: real)
    requires x < y
    ensures CountAtMost(s, x) <= CountBelow(s, y)
  {
    if s != [] {
      CountsCompare(s[..|s| - 1], x, y);
    }
  }

  /** What the percentile is, without sorting: a sample with at most `rank`
      samples below it and more than `rank` at or below it.  No other value is. */
  ghost predicate IsRank(samples: seq<real>, rank: int, x: real) {
    x in samples && CountBelow(samples, x) <= rank < CountAtMost(samples, x)
  }

  /** With the rank at p percent of the last index, rounded to the nearest. */
  lemma PercentileIsRank(samples: seq<real>, p: nat, rank: int, x: real)
    requires samples != [] && p <= 100 && Nearest(rank, p * (|samples| - 1), 100)
    ensures IsRank(samples, rank, x) <==> x == Percentile(samples, p)
  {
    hide RankIndex, CountBelow, CountAtMost, Sort, Nearest;
    RankIndexExactly(|samples|, p, rank);
    RankIndexInRange(|samples|, p);
    var sorted := Sort(samples);
    var r := sorted[rank];
    assert r in multiset(sorted);
    CountsAscending(sorted, rank);
    CountsPermute(samples, sorted, r);
    if |samples| == 1 {
      assert sorted[0] in multiset(sorted);
    }
    assert IsRank(samples, rank, r) && r == Percentile(samples, p);
    if IsRank(samples, rank, x) && x != r {
      if x < r {
        CountsCompare(samples, x, r);
      } else {
        CountsCompare(samples, r, x);
      }
    }
  }

  /** The percentile does not depend on the order of the samples. */
  lemma PercentilePermutes(s: seq<real>, t: seq<real>, p: nat)
    requires multiset(s) == multiset(t) && p <= 100
    ensures Percentile(s, p) == Percentile(t, p)
  {
    hide Percentile, RankIndex, CountBelow, CountAtMost, Nearest;
    assert |s| == |multiset(s)| == |t|;
    if s == [] {
      assert t == [];
    } else {
      var x, rank := Percentile(s, p), RankIndex(|s|, p);
      RankIndexExactly(|s|, p, rank);
      PercentileIsRank(s, p, rank, x);
      CountsPermute(s, t, x);
      assert x in multiset(s);
      PercentileIsRank(t, p, rank, x);
    }
  }
}
