/** The periodic scheduler of the ingestion worker: one lock per account and
    interval bucket, and the look-back it asks for. */
module Scheduler {
  import opened Expiry
  import opened Rounding
  import opened Text

  datatype Account = Account(id: string, org: string, lastSyncAt: Option<int>)

  /** The lock `ingestion:scheduled:<org>:<account>:<bucket>`. */
  datatype LockKey = LockKey(org: string, account: string, bucket: int)

  datatype SyncJob = SyncJob(org: string, account: string, lookbackDays: int)

  const LOCK_SLACK_SECONDS := 300
  const DAY_SECONDS := 86_400

  /** The clock ticks `hz` times a second. */
  function Day(hz: Pos): (ticks: Pos)
    ensures ticks == 24 * 60 * 60 * hz
  {
    DAY_SECONDS * hz
  }

  /** Whole days between two instants, as `timedelta.days`. */
  function GapDays(hz: Pos, now: int, last: int): int {
    (now - last) / Day(hz)
  }

  function SmartLookback(gapDays: int): int {
    Max(2, Min(gapDays + 2, 90))
  }

  function LookbackFor(hz: Pos, now: int, lastSyncAt: Option<int>): int {
    match lastSyncAt
    case None => 90
    case Some(last) => SmartLookback(GapDays(hz, now, last))
  }

  /** The worker's own clamp; a job without a look-back asks for 30 days. */
  function WorkerLookback(requested: Option<int>): int {
    Max(7, Min(if requested.Some? then requested.value else 30, 90))
  }

  // ------------------------------------------------------------ what is asked for

  /** The scheduler asks for 90 days for an account that never synced, and otherwise
      for the whole days since the last sync plus two, at least 2 and at most 90. */
  lemma LookbackExactly(hz: Pos, now: int, last: int, gap: int, days: int)
    requires gap * Day(hz) <= now - last < (gap + 1) * Day(hz)
    ensures days == LookbackFor(hz, now, Some(last))
            <==> (gap < 0 && days == 2) || (0 <= gap <= 88 && days == gap + 2) || (gap > 88 && days == 90)
    ensures LookbackFor(hz, now, None) == 90
  {
    hide Day;
    DivUnique(now - last, Day(hz), gap, now - last - gap * Day(hz));
  }

  /** The worker keeps a look-back of 7 to 90 days, moves others to the nearer end,
      and takes 30 days where none is asked for. */
  lemma WorkerLookbackExactly(asked: int, days: int)
    ensures days == WorkerLookback(Some(asked))
            <==> (asked < 7 && days == 7) || (7 <= asked <= 90 && days == asked) || (asked > 90 && days == 90)
    ensures WorkerLookback(None) == 30
  {
  }

  // -------------------------------------------------------------- no day missed

  function Date(hz: Pos, t: int): int {
    t / Day(hz)
  }

  /** The sync that runs at `run`, enqueued at `enqueue`, starts no later than
      the day of the last sync. */
  predicate Covers(hz: Pos, last: int, enqueue: int, run: int) {
    Date(hz, run) - WorkerLookback(Some(LookbackFor(hz, enqueue, Some(last)))) <= Date(hz, last)
  }

  /** Jobs that run within a day of being enqueued miss no day, for any sync
      history whose gap at enqueue is `gapDays`. */
  ghost predicate NoDayMissed(hz: Pos, gapDays: int) {
    forall last, enqueue, run ::
      GapDays(hz, enqueue, last) == gapDays && enqueue <= run < enqueue + Day(hz) ==> Covers(hz, last, enqueue, run)
  }

  lemma CoversUpTo88(hz: Pos, last: int, enqueue: int, run: int)
    requires GapDays(hz, enqueue, last) <= 88 && enqueue <= run < enqueue + Day(hz)
    ensures Covers(hz, last, enqueue, run)
  {
    var d, g := Day(hz), GapDays(hz, enqueue, last);
    hide Day;
    assert enqueue - last < (g + 1) * d;
    assert run < last + (g + 2) * d by {
      assert (g + 2) * d == (g + 1) * d + d;
    }
    DivMonotone(run, last + (g + 2) * d, d);
    DivUnique(last + (g + 2) * d, d, last / d + g + 2, last % d);
  }

  lemma GapOf89Misses(hz: Pos, gapDays: int)
    requires gapDays > 88
    ensures !NoDayMissed(hz, gapDays)
  {
    var d := Day(hz);
    assert d >= 3;
    hide Day;
    var last, enqueue := d - 1, (gapDays + 2) * d - 2;
    var run := enqueue + d - 1;
    DivUnique(enqueue - last, d, gapDays, d - 1) by {
      assert (gapDays + 2) * d == gapDays * d + d + d;
    }
    DivUnique(run, d, gapDays + 2, d - 3) by {
      assert (gapDays + 2) * d - 2 + d - 1 == (gapDays + 2) * d + (d - 3);
    }
    DivUnique(last, d, 0, d - 1);
    assert !Covers(hz, last, enqueue, run);
  }

  lemma NoDayMissedExactly(hz: Pos, gapDays: int)
    ensures NoDayMissed(hz, gapDays) <==> gapDays <= 88
  {
    if gapDays <= 88 {
      forall last, enqueue, run | GapDays(hz, enqueue, last) == gapDays && enqueue <= run < enqueue + Day(hz)
        ensures Covers(hz, last, enqueue, run)
      {
        CoversUpTo88(hz, last, enqueue, run);
      }
    } else {
      GapOf89Misses(hz, gapDays);
    }
  }

  // ------------------------------------------------------------ schedule locks

  /** One lock attempt of some scheduler pass: the bucket was computed at
      `computedAt`, the lock is attempted at `at`. */
  datatype Attempt = Attempt(org: string, account: string, computedAt: int, at: int)

  /** The live locks, and the locks won so far; each win enqueues one job. */
  datatype Board = Board(locks: map<LockKey, int>, won: seq<LockKey>)

  function AttemptKey(interval: Pos, a: Attempt): LockKey {
    LockKey(a.org, a.account, a.computedAt / interval)
  }

  /** `SET key 1 NX EX interval+300`, in ticks. */
  function Step(interval: Pos, slack: nat, b: Board, a: Attempt): Board {
    var key := AttemptKey(interval, a);
    if Live(b.locks, key, a.at) then b
    else Board(b.locks[key := a.at + interval + slack], b.won + [key])
  }

  function RunFrom(interval: Pos, slack: nat, b: Board, attempts: seq<Attempt>): Board {
    if attempts == [] then b
    else Step(interval, slack, RunFrom(interval, slack, b, attempts[..|attempts| - 1]), attempts[|attempts| - 1])
  }

  const EMPTY := Board(map[], [])

  /** Every pass attempts its locks within `delay` ticks of fixing its bucket. */
  ghost predicate Timely(attempts: seq<Attempt>, delay: int) {
    forall a :: a in attempts ==> a.computedAt <= a.at <= a.computedAt + delay
  }

  ghost predicate OncePerBucket(b: Board) {
    forall i, j :: 0 <= i < j < |b.won| ==> b.won[i] != b.won[j]
  }

  /** Whatever passes of whatever processes interleave, an account is enqueued
      at most once per bucket. */
  ghost predicate OncePerBucketWithin(interval: Pos, slack: nat, delay: int) {
    forall attempts :: Timely(attempts, delay) ==> OncePerBucket(RunFrom(interval, slack, EMPTY, attempts))
  }

  /** A taken lock stays until every timely attempt for its bucket is over. */
  ghost predicate LocksOutlive(interval: Pos, slack: nat, b: Board) {
    && (forall key :: key in b.locks ==> b.locks[key] >= EndOf(interval, key.bucket) + slack)
    && (forall i :: 0 <= i < |b.won| ==> b.won[i] in b.locks)
  }

  /** The first tick after a bucket. */
  function EndOf(interval: Pos, bucket: int): int { (bucket + 1) * interval }

  lemma BucketSpan(interval: Pos, t: int)
    ensures t < EndOf(interval, t / interval) <= t + interval
  {
  }

  lemma {:induction false} RunOncePerBucket(interval: Pos, slack: nat, delay: int, attempts: seq<Attempt>)
    requires Timely(attempts, delay) && delay <= slack
    ensures var b := RunFrom(interval, slack, EMPTY, attempts);
            OncePerBucket(b) && LocksOutlive(interval, slack, b)
  {
    hide EndOf;
    if attempts != [] {
      var prior, a := attempts[..|attempts| - 1], attempts[|attempts| - 1];
      assert a in attempts && forall x :: x in prior ==> x in attempts;
      RunOncePerBucket(interval, slack, delay, prior);
      BucketSpan(interval, a.computedAt);
    }
  }

  /** The slack of 300 seconds in the lock's expiry is exactly what is needed. */
  lemma OncePerBucketExactly(interval: Pos, slack: nat, delay: int)
    ensures OncePerBucketWithin(interval, slack, delay) <==> delay <= slack
  {
    if delay <= slack {
      forall attempts | Timely(attempts, delay) ensures OncePerBucket(RunFrom(interval, slack, EMPTY, attempts)) {
        RunOncePerBucket(interval, slack, delay, attempts);
      }
    } else {
      LateAttemptWinsAgain(interval, slack, delay);
    }
  }

  /** An account scheduled at the first tick of a bucket, and again just after
      its lock expires by a pass that fixed the same bucket at its last tick. */
  lemma LateAttemptWinsAgain(interval: Pos, slack: nat, delay: int)
    requires delay > slack
    ensures !OncePerBucketWithin(interval, slack, delay)
  {
    hide RunFrom;
    var early, late := Attempt("org", "acct", 0, 0), Attempt("org", "acct", interval - 1, interval + slack);
    var key := LockKey("org", "acct", 0);
    DivUnique(0, interval, 0, 0);
    DivUnique(interval - 1, interval, 0, interval - 1);
    assert AttemptKey(interval, early) == AttemptKey(interval, late) == key;
    var attempts := [early, late];
    RunFromStep(interval, slack, EMPTY, attempts, 0);
    RunFromStep(interval, slack, EMPTY, attempts, 1);
    NoAttempts(interval, slack, EMPTY);
    assert attempts[..0] == [] && attempts[..2] == attempts;
    var twice := RunFrom(interval, slack, EMPTY, attempts).won;
    assert twice == [key, key] && twice[0] == twice[1];
    assert Timely(attempts, delay);
  }

  // ------------------------------------------------------------------ one pass

  /** The lock attempts of one pass over the eligible accounts. */
  function PassAttempts(accounts: seq<Account>, start: int, times: seq<int>): seq<Attempt>
    requires |accounts| == |times|
  {
    seq(|accounts|, i requires 0 <= i < |accounts| => Attempt(accounts[i].org, accounts[i].id, start, times[i]))
  }

  function JobFor(hz: Pos, now: int, a: Account): SyncJob {
    SyncJob(a.org, a.id, LookbackFor(hz, now, a.lastSyncAt))
  }

  /** The pass enqueues a job for the accounts whose lock it won, in order. */
  ghost predicate JobsMatchWins(hz: Pos, now: int, accounts: seq<Account>, won: seq<LockKey>, jobs: seq<SyncJob>) {
    && |jobs| == |won|
    && forall i :: 0 <= i < |jobs| ==> JobMatches(hz, now, accounts, won[i], jobs[i])
  }

  ghost predicate JobMatches(hz: Pos, now: int, accounts: seq<Account>, key: LockKey, job: SyncJob) {
    exists a :: a in accounts && a.org == key.org && a.id == key.account
        && job == SyncJob(a.org, a.id, LookbackFor(hz, now, a.lastSyncAt))
  }

  class Redis {
    var locks: map<LockKey, int>
    /** LPUSH puts new jobs at the front. */
    var queue: seq<SyncJob>
    ghost var won: seq<LockKey>

    /** `enqueue_periodic_sync_jobs`; `start` is the clock reading that fixes the
        bucket, `now` the one that fixes the gaps, `times[i]` the time of the
        i-th lock attempt.  The new jobs, oldest first, are `jobs`. */
    method EnqueuePeriodicSyncJobs(hz: Pos, interval: Pos, accounts: seq<Account>, start: int, now: int,
                                   times: seq<int>)
      returns (queued: nat, ghost jobs: seq<SyncJob>)
      requires |accounts| == |times|
      modifies this
      ensures Board(locks, won)
              == RunFrom(interval, 300 * hz, old(Board(locks, won)),
                         PassAttempts(accounts, start, times))
      ensures old(won) <= won && JobsMatchWins(hz, now, accounts, won[|old(won)|..], jobs)
      ensures queue == Reversed(jobs) + old(queue)
      ensures queued == |jobs|
    {
      hide LookbackFor, Live, Reversed, RunFrom;
      NoAttempts(interval, LOCK_SLACK_SECONDS * hz, Board(locks, won));
      var slack := LOCK_SLACK_SECONDS * hz;
      var bucket := start / interval;
      ghost var attempts := PassAttempts(accounts, start, times);
      ghost var board := Board(locks, won);
      queued, jobs := 0, [];
      assert Reversed(jobs) == [] by {
        ReversedNone<SyncJob>();
      }
      assert attempts[..0] == [];
      var i := 0;
      while i < |accounts|
        invariant 0 <= i <= |accounts|
        invariant Board(locks, won) == RunFrom(interval, slack, board, attempts[..i])
        invariant old(won) <= won && JobsMatchWins(hz, now, accounts, won[|old(won)|..], jobs)
        invariant queue == Reversed(jobs) + old(queue)
        invariant queued == |jobs|
      {
        var account, key, at := accounts[i], LockKey(accounts[i].org, accounts[i].id, bucket), times[i];
        RunFromStep(interval, slack, board, attempts, i);
        i := i + 1;
        if Live(locks, key, at) {
          continue;
        }
        locks := locks[key := at + (interval + slack)];
        var job := JobFor(hz, now, account);
        queue := [job] + queue;
        queued := queued + 1;
        ReversedAppend(jobs, job);
        assert JobMatches(hz, now, accounts, key, job);
        assert (won + [key])[|old(won)|..] == won[|old(won)|..] + [key];
        won, jobs := won + [key], jobs + [job];
      }
      assert attempts[..i] == attempts;
    }
  }

  function Reversed<T>(s: seq<T>): seq<T> {
    if s == [] then [] else [s[|s| - 1]] + Reversed(s[..|s| - 1])
  }

  lemma ReversedNone<T>()
    ensures Reversed<T>([]) == []
  {
  }

  lemma NoAttempts(interval: Pos, slack: nat, b: Board)
    ensures RunFrom(interval, slack, b, []) == b
  {
  }

  lemma ReversedAppend<T>(s: seq<T>, x: T)
    ensures Reversed(s + [x]) == [x] + Reversed(s)
  {
    assert (s + [x])[..|s|] == s;
  }

  lemma RunFromStep(interval: Pos, slack: nat, b: Board, attempts: seq<Attempt>, i: nat)
    requires i < |attempts|
    ensures RunFrom(interval, slack, b, attempts[..i + 1])
            == Step(interval, slack, RunFrom(interval, slack, b, attempts[..i]), attempts[i])
  {
    hide Step;
    assert attempts[..i + 1][..i] == attempts[..i];
  }
}
