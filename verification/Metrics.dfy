/** Request and job metrics: counters updated one observation at a time, and the
    snapshot rolled up from them. */
module Metrics {
  import opened Percentiles
  import opened Rounding

  const MAX_SAMPLES := 2000

  /** A counter key: method, sanitised path, status code. */
  datatype Key = Key(verb: string, path: string, status: int)

  datatype Observation = Observation(key: Key, duration: real)

  datatype JobKey = JobKey(worker: string, status: string)

  predicate Is5xx(k: Key) {
    500 <= k.status <= 599
  }

  function MaxReal(a: real, b: real): real { if a < b then b else a }

  // --------------------------------------------------------- folds over the log

  function CountIn(log: seq<Observation>, keys: set<Key>): nat {
    if log == [] then 0
    else CountIn(log[..|log| - 1], keys) + if log[|log| - 1].key in keys then 1 else 0
  }

  function SumIn(log: seq<Observation>, keys: set<Key>): real {
    if log == [] then 0.0
    else SumIn(log[..|log| - 1], keys) + if log[|log| - 1].key in keys then log[|log| - 1].duration else 0.0
  }

  /** The longest duration, and at least 0. */
  function MaxIn(log: seq<Observation>, keys: set<Key>): real {
    if log == [] then 0.0
    else
      var m, last := MaxIn(log[..|log| - 1], keys), log[|log| - 1];
      if last.key in keys then MaxReal(m, last.duration) else m
  }

  function DurationsOf(log: seq<Observation>, k: Key): seq<real> {
    if log == [] then []
    else DurationsOf(log[..|log| - 1], k) + if log[|log| - 1].key == k then [log[|log| - 1].duration] else []
  }

  /** The last 2000 durations of a key, as `deque(maxlen=2000)` keeps them. */
  function Recent(durations: seq<real>): seq<real> {
    if |durations| <= MAX_SAMPLES then durations else durations[|durations| - MAX_SAMPLES..]
  }

  function JobsIn(log: seq<JobKey>, keys: set<JobKey>): nat {
    if log == [] then 0
    else JobsIn(log[..|log| - 1], keys) + if log[|log| - 1] in keys then 1 else 0
  }

  // ------------------------------------------------------- what the folds mean

  lemma ServerErrorsExactly(k: Key)
    ensures Is5xx(k) <==> k.status / 100 == 5
  {
  }

  /** Counting is the number of log positions. */
  lemma {:induction false} CountIsSize(log: seq<Observation>, keys: set<Key>)
    ensures CountIn(log, keys) == |set i: nat | i < |log| && log[i].key in keys|
  {
    if log != [] {
      var n := |log| - 1;
      CountIsSize(log[..n], keys);
      var counted := set i: nat | i < n && log[..n][i].key in keys;
      assert (set i: nat | i < |log| && log[i].key in keys) == counted + if log[n].key in keys then {n} else {};
    }
  }

  /** The maximum is the longest duration, or 0 if there is none above it. */
  lemma {:induction false} MaxInExactly(log: seq<Observation>, keys: set<Key>, m: real)
    ensures m == MaxIn(log, keys) <==>
              && m >= 0.0 && (forall o :: o in log && o.key in keys ==> o.duration <= m)
              && (m == 0.0 || exists o :: o in log && o.key in keys && o.duration == m)
  {
    if log != [] {
      var n := |log| - 1;
      assert forall o :: o in log <==> o in log[..n] || o == log[n];
      MaxInExactly(log[..n], keys, MaxIn(log[..n], keys));
    }
  }

  /** The deque holds the last 2000 durations, in order. */
  lemma RecentExactly(durations: seq<real>)
    ensures var kept := Recent(durations);
            && |kept| == (if |durations| < 2000 then |durations| else 2000)
            && forall i :: 0 <= i < |kept| ==> kept[i] == durations[|durations| - |kept| + i]
  {
  }

  lemma {:induction false} FoldsAppend(log: seq<Observation>, o: Observation, keys: set<Key>)
    ensures CountIn(log + [o], keys) == CountIn(log, keys) + if o.key in keys then 1 else 0
    ensures SumIn(log + [o], keys) == SumIn(log, keys) + if o.key in keys then o.duration else 0.0
    ensures MaxIn(log + [o], keys) == if o.key in keys then MaxReal(MaxIn(log, keys), o.duration) else MaxIn(log, keys)
  {
    assert (log + [o])[..|log|] == log;
  }

  lemma {:induction false} DurationsAppend(log: seq<Observation>, o: Observation, k: Key)
    ensures DurationsOf(log + [o], k) == DurationsOf(log, k) + if o.key == k then [o.duration] else []
  {
    assert (log + [o])[..|log|] == log;
  }

  /** Folds over a set of keys split off one key at a time. */
  lemma {:induction false} FoldsSplit(log: seq<Observation>, keys: set<Key>, k: Key)
    requires k !in keys
    ensures CountIn(log, keys + {k}) == CountIn(log, keys) + CountIn(log, {k})
    ensures SumIn(log, keys + {k}) == SumIn(log, keys) + SumIn(log, {k})
    ensures MaxIn(log, keys + {k}) == MaxReal(MaxIn(log, keys), MaxIn(log, {k}))
  {
    if log != [] {
      FoldsSplit(log[..|log| - 1], keys, k);
    }
  }

  lemma {:induction false} FoldsNone(log: seq<Observation>)
    ensures CountIn(log, {}) == 0 && SumIn(log, {}) == 0.0 && MaxIn(log, {}) == 0.0
  {
    if log != [] {
      FoldsNone(log[..|log| - 1]);
    }
  }

  /** The total duration is at most the count times the maximum. */
  lemma {:induction false} SumAtMost(log: seq<Observation>, keys: set<Key>)
    ensures SumIn(log, keys) <= CountIn(log, keys) as real * MaxIn(log, keys)
    ensures 0.0 <= MaxIn(log, keys)
  {
    if log != [] {
      var rest, last := log[..|log| - 1], log[|log| - 1];
      SumAtMost(rest, keys);
      if last.key in keys {
        OneMore(SumIn(rest, keys), last.duration, CountIn(rest, keys), MaxIn(rest, keys), MaxIn(log, keys));
      }
    }
  }

  lemma OneMore(sum: real, d: real, n: nat, a: real, b: real)
    requires sum <= n as real * a && a <= b && d <= b
    ensures sum + d <= (n + 1) as real * b
  {
    assert n as real * (b - a) >= 0.0;
    assert (n + 1) as real * b == n as real * a + n as real * (b - a) + b;
  }

  lemma {:induction false} SamplesAtMost(log: seq<Observation>, k: Key)
    ensures forall i :: 0 <= i < |DurationsOf(log, k)| ==> DurationsOf(log, k)[i] <= MaxIn(log, {k})
    ensures |DurationsOf(log, k)| == CountIn(log, {k})
  {
    if log != [] {
      SamplesAtMost(log[..|log| - 1], k);
    }
  }

  // --------------------------------------------------------------------- counters

  datatype PathRow = PathRow(requests: nat, errors5xx: nat, durationSum: real, durationCount: nat, maxLatency: real,
                             samples: seq<real>)

  datatype PathSli = PathSli(requests: nat, errors5xx: nat, errorRatePct: real, avgLatency: real, p95Latency: real,
                             maxLatency: real)

  datatype Snapshot = Snapshot(total: nat, total5xx: nat, errorRatePct: real, successRatePct: real,
                               paths: map<string, PathSli>)

  function OnPath(keys: set<Key>, path: string): set<Key> {
    set k | k in keys && k.path == path
  }

  function Errors(keys: set<Key>): set<Key> {
    set k | k in keys && Is5xx(k)
  }

  function Percent(part: nat, whole: nat): real {
    if whole == 0 then 0.0 else Round4(part as real / whole as real * 100.0)
  }

  /** The last 2000 durations of every key, pooled. */
  ghost function RecentSamples(log: seq<Observation>, keys: set<Key>): multiset<real> {
    if keys == {} then multiset{}
    else
      var k :| k in keys;
      multiset(Recent(DurationsOf(log, k))) + RecentSamples(log, keys - {k})
  }

  lemma {:induction false} RecentSamplesRemove(log: seq<Observation>, keys: set<Key>, k: Key)
    requires k in keys
    ensures RecentSamples(log, keys) == multiset(Recent(DurationsOf(log, k))) + RecentSamples(log, keys - {k})
  {
    hide Recent, DurationsOf;
    var j :|
      j in keys && RecentSamples(log, keys) == multiset(Recent(DurationsOf(log, j))) + RecentSamples(log, keys - {j});
    if j != k {
      RecentSamplesRemove(log, keys - {j}, k);
      RecentSamplesRemove(log, keys - {k}, j);
      assert keys - {j} - {k} == keys - {k} - {j};
    }
  }

  lemma {:induction false} RecentSamplesAtMost(log: seq<Observation>, keys: set<Key>, x: real)
    requires x in RecentSamples(log, keys)
    ensures x <= MaxIn(log, keys)
  {
    hide Recent, DurationsOf, MaxIn;
    var k :|
      k in keys && RecentSamples(log, keys) == multiset(Recent(DurationsOf(log, k))) + RecentSamples(log, keys - {k});
    if x in Recent(DurationsOf(log, k)) {
      RecentAtMost(log, k, x);
      CountSubset(log, {k}, keys);
    } else {
      RecentSamplesAtMost(log, keys - {k}, x);
      CountSubset(log, keys - {k}, keys);
    }
  }

  /** The sample at rank 95 percent of the last index, rounded to hundredths. */
  ghost predicate IsRounded95th(samples: multiset<real>, v: real) {
    if samples == multiset{} then v == 0.0
    else exists s, rank, x :: multiset(s) == samples && Is95th(s, rank, x) && IsRounded(v, x, 100.0)
  }

  ghost predicate Is95th(s: seq<real>, rank: int, x: real) {
    s != [] && Nearest(rank, 95 * (|s| - 1), 100) && IsRank(s, rank, x)
  }

  /** There is only one such value, however the samples are listed. */
  lemma Rounded95thUnique(samples: multiset<real>, v: real, v': real)
    requires IsRounded95th(samples, v) && IsRounded95th(samples, v')
    ensures v == v'
  {
    hide Nearest, IsRank, IsRounded, Round2, Round4, Percentile;
    if samples != multiset{} {
      var s, i, x :| multiset(s) == samples && Is95th(s, i, x) && IsRounded(v, x, 100.0);
      var t, j, y :| multiset(t) == samples && Is95th(t, j, y) && IsRounded(v', y, 100.0);
      PercentileIsRank(s, 95, i, x);
      PercentileIsRank(t, 95, j, y);
      PercentilePermutes(s, t, 95);
      RoundsExactly(v, x);
      RoundsExactly(v', y);
    }
  }

  /** v is the share in percent, rounded to ten-thousandths. */
  ghost predicate IsPercent(v: real, part: nat, whole: nat) {
    if whole == 0 then v == 0.0 else IsRounded(v, part as real / whole as real * 100.0, 10000.0)
  }

  /** The row of a path is the fold of the log over the path's keys. */
  ghost predicate RowIsFold(log: seq<Observation>, keys: set<Key>, row: PathRow) {
    && row.requests == row.durationCount == CountIn(log, keys)
    && row.errors5xx == CountIn(log, Errors(keys))
    && row.durationSum == SumIn(log, keys)
    && row.maxLatency == MaxIn(log, keys)
    && multiset(row.samples) == RecentSamples(log, keys)
  }

  ghost predicate SliIsFold(log: seq<Observation>, keys: set<Key>, sli: PathSli) {
    && sli.requests == CountIn(log, keys)
    && sli.errors5xx == CountIn(log, Errors(keys)) <= sli.requests
    && 0.0 <= sli.errorRatePct <= 100.0 && IsPercent(sli.errorRatePct, sli.errors5xx, sli.requests)
    && IsRounded(sli.maxLatency, MaxIn(log, keys), 100.0)
    && (sli.requests > 0 ==> IsRounded(sli.avgLatency, SumIn(log, keys) / sli.requests as real, 100.0))
    && IsRounded95th(RecentSamples(log, keys), sli.p95Latency)
    && sli.avgLatency <= sli.maxLatency && sli.p95Latency <= sli.maxLatency
  }

  function AddTo(row: PathRow, k: Key, count: nat, sum: real, durations: nat, max: real, samples: seq<real>): PathRow {
    PathRow(row.requests + count, row.errors5xx + (if Is5xx(k) then count else 0), row.durationSum + sum,
            row.durationCount + durations, MaxReal(row.maxLatency, max), row.samples + samples)
  }

  const EMPTY_ROW := PathRow(0, 0, 0.0, 0, 0.0, [])

  lemma EmptyRowIsFold(log: seq<Observation>)
    ensures RowIsFold(log, {}, EMPTY_ROW)
  {
    FoldsNone(log);
    assert Errors({}) == {};
  }

  lemma AddToIsFold(log: seq<Observation>, keys: set<Key>, row: PathRow, k: Key)
    requires k !in keys && RowIsFold(log, keys, row)
    ensures RowIsFold(log, keys + {k},
              AddTo(row, k, CountIn(log, {k}), SumIn(log, {k}), CountIn(log, {k}), MaxIn(log, {k}),
                    Recent(DurationsOf(log, k))))
  {
    hide Recent, DurationsOf, CountIn, SumIn, MaxIn;
    FoldsSplit(log, keys, k);
    FoldsSplit(log, Errors(keys), k);
    assert Errors(keys + {k}) == if Is5xx(k) then Errors(keys) + {k} else Errors(keys);
    assert keys + {k} - {k} == keys;
    RecentSamplesRemove(log, keys + {k}, k);
  }

  function SliOf(row: PathRow): PathSli {
    PathSli(row.requests, row.errors5xx, Percent(row.errors5xx, row.requests),
            if row.durationCount == 0 then 0.0 else Round2(row.durationSum / row.durationCount as real),
            if row.samples == [] then 0.0 else Round2(Percentile(row.samples, 95)),
            Round2(row.maxLatency))
  }

  lemma {:induction false} CountSubset(log: seq<Observation>, a: set<Key>, b: set<Key>)
    requires a <= b
    ensures CountIn(log, a) <= CountIn(log, b)
    ensures MaxIn(log, a) <= MaxIn(log, b)
  {
    if log != [] {
      CountSubset(log[..|log| - 1], a, b);
    }
  }

  lemma RoundZero()
    ensures Round2(0.0) == 0.0
  {
  }

  /** Average and 95th percentile never exceed the maximum, rounding and the
      2000-sample limit notwithstanding. */
  lemma SliOfIsFold(log: seq<Observation>, keys: set<Key>, row: PathRow)
    requires RowIsFold(log, keys, row)
    ensures SliIsFold(log, keys, SliOf(row))
  {
    hide Round2, CountIn, SumIn, MaxIn, Percentile, RecentSamples, Percent, RankIndex, IsRank, Nearest;
    hide IsRounded, IsPercent;
    RoundZero();
    SumAtMost(log, keys);
    CountSubset(log, Errors(keys), keys);
    Round2Monotone(0.0, row.maxLatency);
    if row.durationCount > 0 {
      DivideBound(row.durationSum, row.durationCount, row.maxLatency);
      RoundsExactly(Round2(row.durationSum / row.durationCount as real), row.durationSum / row.durationCount as real);
      Round2Monotone(row.durationSum / row.durationCount as real, row.maxLatency);
    }
    if row.samples != [] {
      var p95, rank := Percentile(row.samples, 95), RankIndex(|row.samples|, 95);
      RankIndexExactly(|row.samples|, 95, rank);
      PercentileIsRank(row.samples, 95, rank, p95);
      assert p95 in multiset(row.samples) by {
        RankIsSample(row.samples, rank, p95);
      }
      RoundsExactly(Round2(p95), p95);
      assert Is95th(row.samples, rank, p95);
      RecentSamplesAtMost(log, keys, p95);
      Round2Monotone(p95, row.maxLatency);
    }
    RoundsExactly(Round2(row.maxLatency), row.maxLatency);
    PercentExactly(Percent(row.errors5xx, row.requests), row.errors5xx, row.requests);
    PercentRange(row.errors5xx, row.requests);
  }

  lemma PercentExactly(v: real, part: nat, whole: nat)
    ensures v == Percent(part, whole) <==> IsPercent(v, part, whole)
  {
    hide Round4, IsRounded;
    if whole > 0 {
      RoundsExactly(v, part as real / whole as real * 100.0);
    }
  }

  lemma PercentRange(part: nat, whole: nat)
    requires part <= whole
    ensures 0.0 <= Percent(part, whole) <= 100.0
  {
    hide Round4;
    if whole > 0 {
      var share := part as real / whole as real;
      DivideBound(part as real, whole, 1.0);
      Round4Exact(0);
      Round4Exact(1_000_000);
      Round4Monotone(0.0, share * 100.0);
      Round4Monotone(share * 100.0, 100.0);
    }
  }

  lemma RankIsSample(samples: seq<real>, rank: int, x: real)
    requires IsRank(samples, rank, x)
    ensures x in multiset(samples)
  {
  }

  lemma DivideBound(sum: real, n: nat, m: real)
    requires n > 0 && sum <= n as real * m
    ensures sum / n as real <= m
  {
  }

  lemma RecentAtMost(log: seq<Observation>, k: Key, x: real)
    requires x in Recent(DurationsOf(log, k))
    ensures x <= MaxIn(log, {k})
  {
    SamplesAtMost(log, k);
  }

  // ------------------------------------------------------- folds per log entry

  /** The log entries of one path. */
  function RequestsOn(log: seq<Observation>, path: string): nat {
    if log == [] then 0
    else RequestsOn(log[..|log| - 1], path) + if log[|log| - 1].key.path == path then 1 else 0
  }

  function ErrorsOn(log: seq<Observation>, path: string): nat {
    if log == [] then 0
    else
      var k := log[|log| - 1].key;
      ErrorsOn(log[..|log| - 1], path) + if k.path == path && Is5xx(k) then 1 else 0
  }

  function Count5xx(log: seq<Observation>): nat {
    if log == [] then 0 else Count5xx(log[..|log| - 1]) + if Is5xx(log[|log| - 1].key) then 1 else 0
  }

  /** The log positions of a path, and of server errors. */
  function PathPositions(log: seq<Observation>, path: string): set<nat> {
    set i: nat | i < |log| && log[i].key.path == path
  }

  function ErrorPositions(log: seq<Observation>): set<nat> {
    set i: nat | i < |log| && log[i].key.status / 100 == 5
  }

  lemma PositionsStep(log: seq<Observation>, path: string)
    requires log != []
    ensures var n := |log| - 1;
            && n !in PathPositions(log[..n], path) && n !in ErrorPositions(log[..n])
            && PathPositions(log, path)
                 == (if log[n].key.path == path then PathPositions(log[..n], path) + {n}
                     else PathPositions(log[..n], path))
            && ErrorPositions(log)
                 == (if Is5xx(log[n].key) then ErrorPositions(log[..n]) + {n} else ErrorPositions(log[..n]))
  {
    var n := |log| - 1;
    ServerErrorsExactly(log[n].key);
    forall i: nat | i < n ensures log[..n][i] == log[i] {
    }
  }

  lemma {:induction false} RequestsOnIsSize(log: seq<Observation>, path: string)
    ensures RequestsOn(log, path) == |PathPositions(log, path)|
    ensures Count5xx(log) == |ErrorPositions(log)|
  {
    if log != [] {
      hide PathPositions, ErrorPositions;
      PositionsStep(log, path);
      RequestsOnIsSize(log[..|log| - 1], path);
    }
  }

  lemma {:induction false} ErrorsOnIsSize(log: seq<Observation>, path: string)
    ensures ErrorsOn(log, path) == |PathPositions(log, path) * ErrorPositions(log)|
  {
    if log != [] {
      hide PathPositions, ErrorPositions;
      var n := |log| - 1;
      PositionsStep(log, path);
      ErrorsOnIsSize(log[..n], path);
      BothStep(PathPositions(log[..n], path), ErrorPositions(log[..n]), n);
    }
  }

  lemma BothStep(a: set<nat>, b: set<nat>, n: nat)
    requires n !in a && n !in b
    ensures (a + {n}) * (b + {n}) == a * b + {n} && (a + {n}) * b == a * b == a * (b + {n})
  {
  }

  ghost predicate Covers(keys: set<Key>, log: seq<Observation>) {
    forall i :: 0 <= i < |log| ==> log[i].key in keys
  }

  lemma CoversStep(keys: set<Key>, log: seq<Observation>, o: Observation)
    requires Covers(keys, log)
    ensures Covers(keys + {o.key}, log + [o])
  {
  }

  /** An update adds its key to a map. */
  lemma KeysStep<V>(m: map<Key, V>, key: Key, v: V)
    ensures m[key := v].Keys == m.Keys + {key}
  {
  }

  ghost predicate AllPositive(requests: map<Key, nat>) {
    forall k :: k in requests ==> requests[k] > 0
  }

  lemma AllPositiveStep(requests: map<Key, nat>, key: Key, n: nat)
    requires AllPositive(requests) && n > 0
    ensures AllPositive(requests[key := n])
  {
  }

  lemma {:induction false} CoveringFolds(log: seq<Observation>, keys: set<Key>, path: string)
    requires Covers(keys, log)
    ensures CountIn(log, keys) == |log| && CountIn(log, Errors(keys)) == Count5xx(log)
    ensures CountIn(log, OnPath(keys, path)) == RequestsOn(log, path)
    ensures CountIn(log, Errors(OnPath(keys, path))) == ErrorsOn(log, path)
  {
    if log != [] {
      CoveringFolds(log[..|log| - 1], keys, path);
    }
  }

  ghost function SumRequests(log: seq<Observation>, paths: set<string>): nat {
    if paths == {} then 0
    else
      var p :| p in paths;
      RequestsOn(log, p) + SumRequests(log, paths - {p})
  }

  ghost function SumErrors(log: seq<Observation>, paths: set<string>): nat {
    if paths == {} then 0
    else
      var p :| p in paths;
      ErrorsOn(log, p) + SumErrors(log, paths - {p})
  }

  function RequestsOnAny(log: seq<Observation>, paths: set<string>): nat {
    if log == [] then 0 else RequestsOnAny(log[..|log| - 1], paths) + if log[|log| - 1].key.path in paths then 1 else 0
  }

  function ErrorsOnAny(log: seq<Observation>, paths: set<string>): nat {
    if log == [] then 0
    else
      var k := log[|log| - 1].key;
      ErrorsOnAny(log[..|log| - 1], paths) + if k.path in paths && Is5xx(k) then 1 else 0
  }

  lemma {:induction false} AnyRemove(log: seq<Observation>, paths: set<string>, p: string)
    requires p in paths
    ensures RequestsOnAny(log, paths) == RequestsOn(log, p) + RequestsOnAny(log, paths - {p})
    ensures ErrorsOnAny(log, paths) == ErrorsOn(log, p) + ErrorsOnAny(log, paths - {p})
  {
    if log != [] {
      AnyRemove(log[..|log| - 1], paths, p);
    }
  }

  lemma {:induction false} AnyNone(log: seq<Observation>)
    ensures RequestsOnAny(log, {}) == 0 && ErrorsOnAny(log, {}) == 0
  {
    if log != [] {
      AnyNone(log[..|log| - 1]);
    }
  }

  lemma {:induction false} SumsAreAny(log: seq<Observation>, paths: set<string>)
    ensures SumRequests(log, paths) == RequestsOnAny(log, paths) && SumErrors(log, paths) == ErrorsOnAny(log, paths)
  {
    if paths == {} {
      AnyNone(log);
    } else {
      var p :| p in paths && SumRequests(log, paths) == RequestsOn(log, p) + SumRequests(log, paths - {p});
      AnyRemove(log, paths, p);
      SumsAreAny(log, paths - {p});
      var q :| q in paths && SumErrors(log, paths) == ErrorsOn(log, q) + SumErrors(log, paths - {q});
      AnyRemove(log, paths, q);
      SumsAreAny(log, paths - {q});
    }
  }

  lemma {:induction false} AnyAll(log: seq<Observation>, paths: set<string>)
    requires forall i :: 0 <= i < |log| ==> log[i].key.path in paths
    ensures RequestsOnAny(log, paths) == |log| && ErrorsOnAny(log, paths) == Count5xx(log)
  {
    if log != [] {
      AnyAll(log[..|log| - 1], paths);
    }
  }

  // --------------------------------------------------------------------- registry

  function GetOr<V>(m: map<Key, V>, k: Key, default: V): V {
    if k in m then m[k] else default
  }

  predicate Agrees(log: seq<Observation>, k: Key, requests: int, counts: int, sum: real, max: real,
                   samples: seq<real>) {
    && requests == counts == CountIn(log, {k})
    && sum == SumIn(log, {k}) && max == MaxIn(log, {k})
    && samples == Recent(DurationsOf(log, k))
  }

  /** `deque.append` with a bounded length. */
  function Push(samples: seq<real>, d: real): seq<real> {
    var kept := samples + [d];
    if |kept| > MAX_SAMPLES then kept[1..] else kept
  }

  /** One observation moves the counters of its key, and of no other. */
  lemma AgreesStep(log: seq<Observation>, o: Observation, k: Key, requests: int, counts: int, sum: real, max: real,
                   samples: seq<real>)
    requires Agrees(log, k, requests, counts, sum, max, samples)
    ensures if o.key == k then
              Agrees(log + [o], k, requests + 1, counts + 1, sum + o.duration, MaxReal(max, o.duration),
                     Push(samples, o.duration))
            else Agrees(log + [o], k, requests, counts, sum, max, samples)
  {
    hide CountIn, SumIn, MaxIn, DurationsOf, Recent, Push;
    FoldsAppend(log, o, {k});
    DurationsAppend(log, o, k);
    assert DurationsOf(log, k) + [] == DurationsOf(log, k);
    RecentAppend(DurationsOf(log, k), o.duration);
  }

  /** The rollup holds a row for every path of the keys seen, and nothing else. */
  ghost predicate RollupIsFold(log: seq<Observation>, done: set<Key>, rollup: map<string, PathRow>) {
    && (forall p :: p in rollup <==> OnPath(done, p) != {})
    && (forall p :: p in rollup ==> RowIsFold(log, OnPath(done, p), rollup[p]))
  }

  lemma RollupStep(log: seq<Observation>, done: set<Key>, rollup: map<string, PathRow>, k: Key)
    requires RollupIsFold(log, done, rollup) && k !in done
    ensures var row := if k.path in rollup then rollup[k.path] else EMPTY_ROW;
            var row' := AddTo(row, k, CountIn(log, {k}), SumIn(log, {k}), CountIn(log, {k}), MaxIn(log, {k}),
                              Recent(DurationsOf(log, k)));
            RollupIsFold(log, done + {k}, rollup[k.path := row'])
  {
    hide CountIn, SumIn, MaxIn, DurationsOf, Recent, RowIsFold, AddTo;
    forall p ensures OnPath(done + {k}, p) == if k.path == p then OnPath(done, p) + {k} else OnPath(done, p) {
    }
    EmptyRowIsFold(log);
    var row := if k.path in rollup then rollup[k.path] else EMPTY_ROW;
    assert RowIsFold(log, OnPath(done, k.path), row);
    AddToIsFold(log, OnPath(done, k.path), row, k);
    assert k in OnPath(done + {k}, k.path);
  }

  lemma TotalsStep(log: seq<Observation>, done: set<Key>, k: Key)
    requires k !in done
    ensures CountIn(log, done + {k}) == CountIn(log, done) + CountIn(log, {k})
    ensures CountIn(log, Errors(done + {k})) == CountIn(log, Errors(done)) + if Is5xx(k) then CountIn(log, {k}) else 0
  {
    hide CountIn, SumIn, MaxIn;
    FoldsSplit(log, done, k);
    FoldsSplit(log, Errors(done), k);
    assert Errors(done + {k}) == if Is5xx(k) then Errors(done) + {k} else Errors(done);
  }

  lemma RollupSlis(log: seq<Observation>, done: set<Key>, rollup: map<string, PathRow>)
    requires RollupIsFold(log, done, rollup)
    ensures forall p :: p in rollup <==> OnPath(done, p) != {}
    ensures forall p :: p in rollup ==> SliIsFold(log, OnPath(done, p), SliOf(rollup[p]))
  {
    hide RowIsFold, SliIsFold, SliOf;
    forall p | p in rollup ensures SliIsFold(log, OnPath(done, p), SliOf(rollup[p])) {
      SliOfIsFold(log, OnPath(done, p), rollup[p]);
    }
  }

  lemma NothingRolledUp(log: seq<Observation>)
    ensures RollupIsFold(log, {}, map[]) && CountIn(log, {}) == 0 && CountIn(log, Errors({})) == 0
  {
    FoldsNone(log);
    assert Errors({}) == {};
  }

  lemma GetOrUpdate<V>(m: map<Key, V>, key: Key, v: V, k: Key, default: V)
    ensures GetOr(m[key := v], k, default) == if k == key then v else GetOr(m, k, default)
  {
  }

  ghost predicate AgreesAt(log: seq<Observation>, requests: map<Key, nat>, counts: map<Key, nat>, sums: map<Key, real>,
                           maxima: map<Key, real>, samples: map<Key, seq<real>>, k: Key) {
    Agrees(log, k, GetOr(requests, k, 0), GetOr(counts, k, 0), GetOr(sums, k, 0.0), GetOr(maxima, k, 0.0),
           GetOr(samples, k, []))
  }

  /** Every counter is the fold of the log over its key. */
  ghost predicate StoreAgrees(log: seq<Observation>, requests: map<Key, nat>, counts: map<Key, nat>,
                              sums: map<Key, real>, maxima: map<Key, real>, samples: map<Key, seq<real>>) {
    forall k :: AgreesAt(log, requests, counts, sums, maxima, samples, k)
  }

  lemma StoreAgreesStep(log: seq<Observation>, o: Observation, requests: map<Key, nat>, counts: map<Key, nat>,
                        sums: map<Key, real>, maxima: map<Key, real>, samples: map<Key, seq<real>>)
    requires StoreAgrees(log, requests, counts, sums, maxima, samples)
    ensures var key := o.key;
            StoreAgrees(log + [o], requests[key := GetOr(requests, key, 0) + 1],
                        counts[key := GetOr(counts, key, 0) + 1],
                        sums[key := GetOr(sums, key, 0.0) + o.duration],
                        maxima[key := MaxReal(GetOr(maxima, key, 0.0), o.duration)],
                        samples[key := Push(GetOr(samples, key, []), o.duration)])
  {
    hide Agrees, Push, GetOr, MaxReal;
    var key, d := o.key, o.duration;
    var requests', counts' := requests[key := GetOr(requests, key, 0) + 1], counts[key := GetOr(counts, key, 0) + 1];
    var sums', maxima' := sums[key := GetOr(sums, key, 0.0) + d], maxima[key := MaxReal(GetOr(maxima, key, 0.0), d)];
    var samples' := samples[key := Push(GetOr(samples, key, []), d)];
    forall k ensures AgreesAt(log + [o], requests', counts', sums', maxima', samples', k) {
      assert AgreesAt(log, requests, counts, sums, maxima, samples, k);
      AgreesStep(log, o, k, GetOr(requests, k, 0), GetOr(counts, k, 0), GetOr(sums, k, 0.0), GetOr(maxima, k, 0.0),
                 GetOr(samples, k, []));
      GetOrUpdate(requests, key, requests'[key], k, 0);
      GetOrUpdate(counts, key, counts'[key], k, 0);
      GetOrUpdate(sums, key, sums'[key], k, 0.0);
      GetOrUpdate(maxima, key, maxima'[key], k, 0.0);
      GetOrUpdate(samples, key, samples'[key], k, []);
    }
  }

  /** All maps hold the keys seen so far, with the folds of the log. */
  ghost predicate Faithful(log: seq<Observation>, requests: map<Key, nat>, counts: map<Key, nat>, sums: map<Key, real>,
                           maxima: map<Key, real>, samples: map<Key, seq<real>>) {
    && requests.Keys == counts.Keys == sums.Keys == maxima.Keys == samples.Keys
    && Covers(requests.Keys, log) && AllPositive(requests)
    && StoreAgrees(log, requests, counts, sums, maxima, samples)
  }

  lemma FaithfulStep(log: seq<Observation>, o: Observation, requests: map<Key, nat>, counts: map<Key, nat>,
                     sums: map<Key, real>, maxima: map<Key, real>, samples: map<Key, seq<real>>)
    requires Faithful(log, requests, counts, sums, maxima, samples)
    ensures var key := o.key;
            Faithful(log + [o], requests[key := GetOr(requests, key, 0) + 1], counts[key := GetOr(counts, key, 0) + 1],
                     sums[key := GetOr(sums, key, 0.0) + o.duration],
                     maxima[key := MaxReal(GetOr(maxima, key, 0.0), o.duration)],
                     samples[key := Push(GetOr(samples, key, []), o.duration)])
  {
    hide StoreAgrees, Covers, AllPositive, GetOr, MaxReal, Push;
    var key := o.key;
    StoreAgreesStep(log, o, requests, counts, sums, maxima, samples);
    AllPositiveStep(requests, key, GetOr(requests, key, 0) + 1);
    CoversStep(requests.Keys, log, o);
    KeysStep(requests, key, GetOr(requests, key, 0) + 1);
    KeysStep(counts, key, GetOr(counts, key, 0) + 1);
    KeysStep(sums, key, GetOr(sums, key, 0.0) + o.duration);
    KeysStep(maxima, key, MaxReal(GetOr(maxima, key, 0.0), o.duration));
    KeysStep(samples, key, Push(GetOr(samples, key, []), o.duration));
  }

  class Registry {
    var requests: map<Key, nat>
    var sums: map<Key, real>
    var counts: map<Key, nat>
    var maxima: map<Key, real>
    var samples: map<Key, seq<real>>
    ghost var log: seq<Observation>

    ghost predicate Valid()
      reads this
    {
      Faithful(log, requests, counts, sums, maxima, samples)
    }

    constructor ()
      ensures Valid() && log == []
    {
      requests, sums, counts, maxima, samples, log := map[], map[], map[], map[], map[], [];
    }

    /** `observe_api_request`. */
    method ObserveApiRequest(key: Key, duration: real)
      requires Valid()
      modifies this
      ensures Valid() && log == old(log) + [Observation(key, duration)]
    {
      hide Faithful, Push, GetOr, MaxReal;
      var n, c, sum := GetOr(requests, key, 0) + 1, GetOr(counts, key, 0) + 1, GetOr(sums, key, 0.0) + duration;
      var max, kept := MaxReal(GetOr(maxima, key, 0.0), duration), Push(GetOr(samples, key, []), duration);
      FaithfulStep(log, Observation(key, duration), requests, counts, sums, maxima, samples);
      requests := requests[key := n];
      sums := sums[key := sum];
      counts := counts[key := c];
      maxima := maxima[key := max];
      samples := samples[key := kept];
      log := log + [Observation(key, duration)];
    }

    /** The accumulation loop of the snapshot, over the keys in any order. */
    method Rollup() returns (total: nat, total5xx: nat, rollup: map<string, PathRow>)
      requires Valid()
      ensures total == CountIn(log, requests.Keys) && total5xx == CountIn(log, Errors(requests.Keys))
      ensures RollupIsFold(log, requests.Keys, rollup)
    {
      hide CountIn, SumIn, MaxIn, DurationsOf, RollupIsFold, Recent, AddTo, Valid, Errors, Is5xx;
      total, total5xx, rollup := 0, 0, map[];
      var todo := requests.Keys;
      ghost var done: set<Key> := {};
      NothingRolledUp(log);
      while todo != {}
        invariant todo + done == requests.Keys && todo !! done
        invariant total == CountIn(log, done) && total5xx == CountIn(log, Errors(done))
        invariant RollupIsFold(log, done, rollup)
        decreases |todo|
      {
        var k: Key :| k in todo;
        ReadKey(k);
        TotalsStep(log, done, k);
        RollupStep(log, done, rollup, k);
        total := total + requests[k];
        if Is5xx(k) {
          total5xx := total5xx + requests[k];
        }
        var row := if k.path in rollup then rollup[k.path] else EMPTY_ROW;
        rollup := rollup[k.path := AddTo(row, k, requests[k], sums[k], counts[k], maxima[k], samples[k])];
        todo, done := todo - {k}, done + {k};
      }
      assert done == requests.Keys;
    }

    /** The path rows and global rates of `build_sli_slo_snapshot`, before the
        rows are ordered and cut to 25. */
    method BuildSnapshot() returns (snap: Snapshot)
      requires Valid()
      ensures snap.total == |log| && snap.total5xx == Count5xx(log)
      ensures 0.0 <= snap.errorRatePct <= 100.0 && IsPercent(snap.errorRatePct, snap.total5xx, snap.total)
      ensures snap.errorRatePct + snap.successRatePct == 100.0
      ensures forall p :: p in snap.paths <==> RequestsOn(log, p) > 0
      ensures forall p :: p in snap.paths ==>
                && snap.paths[p].requests == RequestsOn(log, p) && snap.paths[p].errors5xx == ErrorsOn(log, p)
                && SliIsFold(log, OnPath(requests.Keys, p), snap.paths[p])
      ensures SumRequests(log, snap.paths.Keys) == snap.total && SumErrors(log, snap.paths.Keys) == snap.total5xx
    {
      hide CountIn, SumIn, MaxIn, RollupIsFold, SliIsFold, RequestsOn, ErrorsOn, Count5xx, Percent, SliOf,
          IsPercent, StoreAgrees, Round4, SumRequests, SumErrors;
      var total, total5xx, rollup := Rollup();
      RollupSlis(log, requests.Keys, rollup);
      var paths := map p | p in rollup :: SliOf(rollup[p]);
      var errorRate := Percent(total5xx, total);
      var successRate := if total == 0 then 100.0 else Round4(100.0 - errorRate);
      SuccessComplement(total5xx, total);
      CountSubset(log, Errors(requests.Keys), requests.Keys);
      PercentRange(total5xx, total);
      PercentExactly(errorRate, total5xx, total);
      FinalFolds(paths);
      CoveringFolds(log, requests.Keys, "");
      return Snapshot(total, total5xx, errorRate, successRate, paths);
    }

    lemma ReadKey(k: Key)
      requires Valid() && k in requests
      ensures k in counts && k in sums && k in maxima && k in samples
      ensures requests[k] == counts[k] == CountIn(log, {k}) && sums[k] == SumIn(log, {k})
      ensures maxima[k] == MaxIn(log, {k}) && samples[k] == Recent(DurationsOf(log, k))
    {
      hide CountIn, SumIn, MaxIn, DurationsOf, Recent;
      assert AgreesAt(log, requests, counts, sums, maxima, samples, k);
    }

    lemma FinalFolds(paths: map<string, PathSli>)
      requires Valid()
      requires forall p :: p in paths <==> OnPath(requests.Keys, p) != {}
      requires forall p :: p in paths ==> SliIsFold(log, OnPath(requests.Keys, p), paths[p])
      ensures forall p :: p in paths <==> RequestsOn(log, p) > 0
      ensures forall p :: p in paths ==>
                paths[p].requests == RequestsOn(log, p) && paths[p].errors5xx == ErrorsOn(log, p)
      ensures SumRequests(log, paths.Keys) == |log| && SumErrors(log, paths.Keys) == Count5xx(log)
    {
      hide CountIn, SumIn, MaxIn, DurationsOf, RequestsOn, ErrorsOn, Count5xx, Round2, Percent;
      forall p ensures p in paths <==> RequestsOn(log, p) > 0 {
        CoveringFolds(log, requests.Keys, p);
        if p in paths {
          var k :| k in OnPath(requests.Keys, p);
          assert AgreesAt(log, requests, counts, sums, maxima, samples, k);
          CountSubset(log, {k}, OnPath(requests.Keys, p));
        } else {
          assert OnPath(requests.Keys, p) == {};
          FoldsNone(log);
        }
      }
      forall p | p in paths ensures paths[p].requests == RequestsOn(log, p) && paths[p].errors5xx == ErrorsOn(log, p) {
        CoveringFolds(log, requests.Keys, p);
      }
      forall i | 0 <= i < |log| ensures log[i].key.path in paths.Keys {
        assert log[i].key in OnPath(requests.Keys, log[i].key.path);
      }
      SumsAreAny(log, paths.Keys);
      AnyAll(log, paths.Keys);
    }
  }

  lemma RecentAppend(durations: seq<real>, d: real)
    ensures Recent(durations + [d]) == Push(Recent(durations), d)
  {
  }

  lemma SuccessComplement(part: nat, whole: nat)
    ensures whole == 0 ==> Percent(part, whole) == 0.0
    ensures whole > 0 ==> Round4(100.0 - Percent(part, whole)) == 100.0 - Percent(part, whole)
  {
    hide Round4;
    if whole > 0 {
      Round4Complement(part as real / whole as real * 100.0);
    }
  }

  // ---------------------------------------------------------------------- workers

  /** A field of a worker's row: the worker's name, or a count. */
  datatype Field = Name(name: string) | Num(n: nat)

  type WorkerRow = map<string, Field>

  function NewRow(worker: string): WorkerRow {
    map["worker" := Name(worker), "success" := Num(0), "retry" := Num(0), "failed" := Num(0),
        "locked" := Num(0), "total" := Num(0)]
  }

  function NumOf(row: WorkerRow, field: string): nat {
    if field in row && row[field].Num? then row[field].n else 0
  }

  /** `row[status] = row.get(status, 0) + count; row["total"] += count`.  Adding a
      count to the name field raises. */
  function AddStatus(row: WorkerRow, status: string, count: nat): WorkerRow
    requires status != "worker"
  {
    var row' := row[status := Num(NumOf(row, status) + count)];
    row'["total" := Num(NumOf(row', "total") + count)]
  }

  function OfWorker(keys: set<JobKey>, worker: string): set<JobKey> {
    set k | k in keys && k.worker == worker
  }

  /** The jobs of one worker and status, among the keys added so far. */
  function JobsNamed(log: seq<JobKey>, keys: set<JobKey>, worker: string, status: string): nat {
    if JobKey(worker, status) in keys then JobsIn(log, {JobKey(worker, status)}) else 0
  }

  /** Each status field counts that status; `total` counts every job, and counts
      the jobs whose status is itself "total" once more. */
  ghost predicate WorkerRowIsFold(log: seq<JobKey>, keys: set<JobKey>, worker: string, row: WorkerRow) {
    && "worker" in row && row["worker"] == Name(worker)
    && "success" in row && "retry" in row && "failed" in row && "locked" in row && "total" in row
    && (forall status :: status != "total" && status != "worker" ==>
          NumOf(row, status) == JobsNamed(log, keys, worker, status))
    && NumOf(row, "total") == JobsIn(log, OfWorker(keys, worker)) + JobsNamed(log, keys, worker, "total")
  }

  lemma {:induction false} JobsSplit(log: seq<JobKey>, keys: set<JobKey>, k: JobKey)
    requires k !in keys
    ensures JobsIn(log, keys + {k}) == JobsIn(log, keys) + JobsIn(log, {k})
    ensures JobsIn(log, {}) == 0
  {
    if log != [] {
      JobsSplit(log[..|log| - 1], keys, k);
    }
  }

  lemma NewRowIsFold(log: seq<JobKey>, keys: set<JobKey>, worker: string)
    requires OfWorker(keys, worker) == {}
    ensures WorkerRowIsFold(log, keys, worker, NewRow(worker))
  {
    hide JobsIn;
    JobsSplit(log, {}, JobKey(worker, ""));
    forall status ensures JobsNamed(log, keys, worker, status) == 0 {
      assert JobKey(worker, status) in keys ==> JobKey(worker, status) in OfWorker(keys, worker);
    }
  }

  lemma AddStatusCounts(row: WorkerRow, status: string, count: nat, field: string)
    requires status != "worker"
    ensures NumOf(AddStatus(row, status, count), field)
         == NumOf(row, field) + (if field == status then count else 0) + (if field == "total" then count else 0)
    ensures row.Keys <= AddStatus(row, status, count).Keys
    ensures "worker" in row ==>
              "worker" in AddStatus(row, status, count) && AddStatus(row, status, count)["worker"] == row["worker"]
  {
    var row' := row[status := Num(NumOf(row, status) + count)];
    assert NumOf(row', field) == NumOf(row, field) + if field == status then count else 0;
  }

  lemma AddStatusIsFold(log: seq<JobKey>, keys: set<JobKey>, row: WorkerRow, k: JobKey)
    requires k !in keys && k.status != "worker" && WorkerRowIsFold(log, keys, k.worker, row)
    ensures WorkerRowIsFold(log, keys + {k}, k.worker, AddStatus(row, k.status, JobsIn(log, {k})))
  {
    hide JobsIn, AddStatus;
    assert OfWorker(keys + {k}, k.worker) == OfWorker(keys, k.worker) + {k};
    JobsSplit(log, OfWorker(keys, k.worker), k);
    var row' := AddStatus(row, k.status, JobsIn(log, {k}));
    forall status | status != "total" && status != "worker"
      ensures NumOf(row', status) == JobsNamed(log, keys + {k}, k.worker, status)
    {
      assert JobKey(k.worker, status) in keys + {k} <==> JobKey(k.worker, status) in keys || status == k.status;
      assert status == k.status ==> JobKey(k.worker, status) == k;
      assert NumOf(row, status) == JobsNamed(log, keys, k.worker, status);
      AddStatusCounts(row, k.status, JobsIn(log, {k}), status);
    }
    AddStatusCounts(row, k.status, JobsIn(log, {k}), "total");
    assert k.status == "total" ==> JobKey(k.worker, "total") == k;
    assert JobKey(k.worker, "total") in keys + {k} <==> JobKey(k.worker, "total") in keys || k.status == "total";
  }

  lemma OtherWorkerIsFold(log: seq<JobKey>, keys: set<JobKey>, worker: string, row: WorkerRow, k: JobKey)
    requires k.worker != worker && WorkerRowIsFold(log, keys, worker, row)
    ensures WorkerRowIsFold(log, keys + {k}, worker, row)
  {
    assert OfWorker(keys + {k}, worker) == OfWorker(keys, worker);
  }

  /** There is a row for every worker among the keys, and each row is a fold. */
  ghost predicate RowsAreFold(log: seq<JobKey>, keys: set<JobKey>, rows: map<string, WorkerRow>) {
    && (forall w :: w in rows <==> OfWorker(keys, w) != {})
    && (forall w :: w in rows ==> WorkerRowIsFold(log, keys, w, rows[w]))
  }

  lemma NoRowsYet(log: seq<JobKey>)
    ensures RowsAreFold(log, {}, map[])
  {
  }

  lemma RowsStep(log: seq<JobKey>, keys: set<JobKey>, rows: map<string, WorkerRow>, k: JobKey)
    requires RowsAreFold(log, keys, rows) && k !in keys && k.status != "worker"
    ensures var row := if k.worker in rows then rows[k.worker] else NewRow(k.worker);
            RowsAreFold(log, keys + {k}, rows[k.worker := AddStatus(row, k.status, JobsIn(log, {k}))])
  {
    hide JobsIn, WorkerRowIsFold, AddStatus, NewRow;
    if k.worker !in rows {
      NewRowIsFold(log, keys, k.worker);
    }
    var row := if k.worker in rows then rows[k.worker] else NewRow(k.worker);
    AddStatusIsFold(log, keys, row, k);
    forall w | w in rows && w != k.worker ensures WorkerRowIsFold(log, keys + {k}, w, rows[w]) {
      OtherWorkerIsFold(log, keys, w, rows[w], k);
    }
    forall w ensures OfWorker(keys + {k}, w) == if w == k.worker then OfWorker(keys, w) + {k} else OfWorker(keys, w) {
    }
    assert k in OfWorker(keys + {k}, k.worker);
  }

  /** The time that the jobs of one worker and status took; `times[i]` belongs to
      `log[i]`. */
  function JobTime(log: seq<JobKey>, times: seq<real>, k: JobKey): real
    requires |log| == |times|
  {
    if log == [] then 0.0
    else
      var n := |log| - 1;
      JobTime(log[..n], times[..n], k) + if log[n] == k then times[n] else 0.0
  }

  lemma {:induction false} JobTimeAppend(log: seq<JobKey>, times: seq<real>, j: JobKey, time: real, k: JobKey)
    requires |log| == |times|
    ensures JobTime(log + [j], times + [time], k) == JobTime(log, times, k) + if j == k then time else 0.0
  {
    assert (log + [j])[..|log|] == log && (times + [time])[..|log|] == times;
  }

  /** The counters hold the jobs seen so far, with the folds of the log. */
  ghost predicate JobsFaithful(log: seq<JobKey>, times: seq<real>, jobs: map<JobKey, nat>, counts: map<JobKey, nat>,
                               sums: map<JobKey, real>) {
    && |log| == |times| && jobs.Keys == counts.Keys == sums.Keys
    && (forall i :: 0 <= i < |log| ==> log[i] in jobs)
    && (forall k :: k in jobs ==> jobs[k] == counts[k] == JobsIn(log, {k}) > 0 && sums[k] == JobTime(log, times, k))
    && (forall k :: k !in jobs ==> JobsIn(log, {k}) == 0 && JobTime(log, times, k) == 0.0)
  }

  function JobValue<V>(m: map<JobKey, V>, k: JobKey, default: V): V {
    if k in m then m[k] else default
  }

  lemma JobsFaithfulStep(log: seq<JobKey>, times: seq<real>, jobs: map<JobKey, nat>, counts: map<JobKey, nat>,
                         sums: map<JobKey, real>, k: JobKey, time: real)
    requires JobsFaithful(log, times, jobs, counts, sums)
    ensures JobsFaithful(log + [k], times + [time], jobs[k := JobValue(jobs, k, 0) + 1],
                         counts[k := JobValue(counts, k, 0) + 1],
                         sums[k := JobValue(sums, k, 0.0) + time])
  {
    hide JobsIn, JobTime;
    forall j {
      JobsAppend(log, k, {j});
    }
    forall j {
      JobTimeAppend(log, times, k, time, j);
    }
  }

  class JobRegistry {
    var jobs: map<JobKey, nat>
    var counts: map<JobKey, nat>
    var sums: map<JobKey, real>
    ghost var log: seq<JobKey>
    ghost var times: seq<real>

    ghost predicate Valid()
      reads this
    {
      JobsFaithful(log, times, jobs, counts, sums)
    }

    constructor ()
      ensures Valid() && log == [] && times == []
    {
      jobs, counts, sums, log, times := map[], map[], map[], [], [];
    }

    /** `observe_worker_job`. */
    method ObserveWorkerJob(worker: string, status: string, duration: real)
      requires Valid()
      modifies this
      ensures Valid() && log == old(log) + [JobKey(worker, status)] && times == old(times) + [duration]
    {
      hide JobsFaithful, JobValue;
      var k := JobKey(worker, status);
      JobsFaithfulStep(log, times, jobs, counts, sums, k, duration);
      jobs := jobs[k := JobValue(jobs, k, 0) + 1];
      sums := sums[k := JobValue(sums, k, 0.0) + duration];
      counts := counts[k := JobValue(counts, k, 0) + 1];
      log := log + [k];
      times := times + [duration];
    }

    /** The worker rows of the snapshot.  A job recorded under the status "worker"
        makes the snapshot raise; otherwise each worker's row is a fold of the log. */
    method BuildWorkerRows() returns (raised: bool, rows: map<string, WorkerRow>)
      requires Valid()
      ensures raised <==> exists k :: k in jobs && k.status == "worker"
      ensures !raised ==> RowsAreFold(log, jobs.Keys, rows)
    {
      hide JobsIn, RowsAreFold, AddStatus, NewRow, Valid;
      raised, rows := false, map[];
      var todo := jobs.Keys;
      ghost var done: set<JobKey> := {};
      NoRowsYet(log);
      while todo != {}
        invariant todo + done == jobs.Keys && todo !! done
        invariant forall k :: k in done ==> k.status != "worker"
        invariant RowsAreFold(log, done, rows)
        decreases |todo|
      {
        var k: JobKey :| k in todo;
        if k.status == "worker" {
          return true, map[];
        }
        ReadJobs(k);
        RowsStep(log, done, rows, k);
        var row := if k.worker in rows then rows[k.worker] else NewRow(k.worker);
        rows := rows[k.worker := AddStatus(row, k.status, jobs[k])];
        todo, done := todo - {k}, done + {k};
      }
      assert done == jobs.Keys;
    }

    lemma ReadJobs(k: JobKey)
      requires Valid() && k in jobs
      ensures jobs[k] == JobsIn(log, {k})
    {
    }
  }

  lemma {:induction false} JobsAppend(log: seq<JobKey>, j: JobKey, keys: set<JobKey>)
    ensures JobsIn(log + [j], keys) == JobsIn(log, keys) + if j in keys then 1 else 0
  {
    assert (log + [j])[..|log|] == log;
  }

  /** The log positions of some kinds of jobs, and of a worker's jobs. */
  function JobPositions(log: seq<JobKey>, keys: set<JobKey>): set<nat> {
    set i: nat | i < |log| && log[i] in keys
  }

  function WorkerPositions(log: seq<JobKey>, worker: string): set<nat> {
    set i: nat | i < |log| && log[i].worker == worker
  }

  lemma JobPositionsStep(log: seq<JobKey>, keys: set<JobKey>, worker: string)
    requires log != []
    ensures var n := |log| - 1;
            && n !in JobPositions(log[..n], keys) && n !in WorkerPositions(log[..n], worker)
            && JobPositions(log, keys)
                 == (if log[n] in keys then JobPositions(log[..n], keys) + {n} else JobPositions(log[..n], keys))
            && WorkerPositions(log, worker)
                 == (if log[n].worker == worker then WorkerPositions(log[..n], worker) + {n}
                     else WorkerPositions(log[..n], worker))
  {
    forall i: nat | i < |log| - 1 ensures log[..|log| - 1][i] == log[i] {
    }
  }

  lemma {:induction false} JobCountsAreSizes(log: seq<JobKey>, keys: set<JobKey>, worker: string)
    ensures JobsIn(log, keys) == |JobPositions(log, keys)|
    ensures JobsBy(log, worker) == |WorkerPositions(log, worker)|
  {
    if log != [] {
      hide JobPositions, WorkerPositions;
      JobPositionsStep(log, keys, worker);
      JobCountsAreSizes(log[..|log| - 1], keys, worker);
    }
  }

  /** The jobs of one worker in the log. */
  function JobsBy(log: seq<JobKey>, worker: string): nat {
    if log == [] then 0 else JobsBy(log[..|log| - 1], worker) + if log[|log| - 1].worker == worker then 1 else 0
  }

  lemma {:induction false} JobsByIsFold(log: seq<JobKey>, keys: set<JobKey>, worker: string)
    requires forall i :: 0 <= i < |log| ==> log[i] in keys
    ensures JobsIn(log, OfWorker(keys, worker)) == JobsBy(log, worker)
  {
    if log != [] {
      JobsByIsFold(log[..|log| - 1], keys, worker);
    }
  }

  lemma {:induction false} JobsPresent(log: seq<JobKey>, k: JobKey)
    ensures JobsIn(log, {k}) > 0 <==> k in log
  {
    if log != [] {
      JobsPresent(log[..|log| - 1], k);
      assert log == log[..|log| - 1] + [log[|log| - 1]];
    }
  }

  /** A worker's total is the number of its jobs exactly when none of them was
      recorded under the status "total". */
  lemma WorkerTotalExactly(log: seq<JobKey>, keys: set<JobKey>, worker: string, row: WorkerRow)
    requires WorkerRowIsFold(log, keys, worker, row) && forall i :: 0 <= i < |log| ==> log[i] in keys
    ensures NumOf(row, "total") == JobsBy(log, worker) <==> JobKey(worker, "total") !in log
  {
    hide JobsIn, JobsBy;
    JobsByIsFold(log, keys, worker);
    JobsPresent(log, JobKey(worker, "total"));
  }
}
