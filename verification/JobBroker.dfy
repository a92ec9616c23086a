/** One Redis job queue with any number of workers, the lease lock, the retry
    counters and the dead-letter table.  Each Redis command or database commit is
    one atomic step; the steps of different workers interleave freely. */
module JobBroker {
  import opened Expiry
  import opened Text
  import RetryQueue

  const LOCK_TTL_SECONDS := 3600
  const RETENTION_SECONDS := 30 * 86_400

  /** What distinguishes the queues: which payloads name a job, the lock a job
      takes (none for scoring and carbon), whether failures are retried (not for
      exports), and whether a cancelled job is recorded as such (exports only).
      Times are in ticks, `hz` a second. */
  datatype Config = Config(valid: string -> bool, lockOf: string -> Option<string>, retries: bool, cancels: bool,
                           hz: int)

  /** How far a running job has got: doing its work, having counted a failure,
      having parked the payload in the table, with only the lock to release, or
      cancelled: the handler has released the lock, and will do so once more. */
  datatype Stage = Working | Counted(attempts: nat) | Buried | Settled | Dropped

  datatype Worker =
    | Idle
    | Holding(payload: string)
    | Running(payload: string, since: int, stage: Stage)

  datatype Status = Open | Requeued | Resolved

  datatype Row = Row(payload: string, retryCount: nat, status: Status, createdAt: int)

  /** How a popped payload ended, other than by going back to the queue. */
  datatype Ending = Completed | Skipped | Cancelled | Parked

  datatype Record = Record(ending: Ending, payload: string)

  /** Redis and the database, as all workers see them, with a record of endings. */
  datatype Shared = Shared(
    queue: seq<string>,
    locks: map<string, int>,
    retries: map<string, nat>,
    dlq: map<nat, Row>,
    endings: multiset<Record>)

  /** `requeuing` holds the rows whose jobs were pushed again by calls that have
      not committed yet. */
  datatype State = State(workers: seq<Worker>, shared: Shared, pushed: multiset<string>, requeuing: multiset<nat>)

  /** What a worker can do next. */
  datatype Action =
    | Pop
    | Begin(now: int)
    | Skip
    | Cancel
    | Succeed
    | Fail
    | PushBack
    | DeadLetter(id: nat, now: int)
    | ClearCounter
    | Release

  datatype Event =
    | Work(w: nat, action: Action)
    | Push(payload: string)
    | RequeuePush(id: nat)
    | RequeueCommit(id: nat)
    | ResolveRow(id: nat)
    | Cleanup(now: int)

  /** One hour. */
  function Lease(c: Config): (ticks: int)
    ensures ticks == 60 * 60 * c.hz
  {
    LOCK_TTL_SECONDS * c.hz
  }

  predicate Locked(locks: map<string, int>, key: Option<string>, now: int) {
    key.Some? && Live(locks, key.value, now)
  }

  predicate Retriable(c: Config, attempts: nat) {
    c.retries && attempts < RetryQueue.MAX_RETRIES
  }

  function Enqueue(sh: Shared, p: string): Shared {
    sh.(queue := [p] + sh.queue)
  }

  function End(sh: Shared, ending: Ending, p: string): Shared {
    sh.(endings := sh.endings + multiset{Record(ending, p)})
  }

  /** The lock is deleted whoever holds it by now. */
  function Unlock(c: Config, sh: Shared, p: string): Shared {
    var key := c.lockOf(p);
    if key.Some? then sh.(locks := sh.locks - {key.value}) else sh
  }

  /** One step of one worker on the shared state; an action that its stage does
      not allow changes nothing. */
  function Act(c: Config, wk: Worker, sh: Shared, a: Action): (Worker, Shared) {
    match wk
    case Idle =>
      if a == Pop && sh.queue != [] then
        (Holding(sh.queue[|sh.queue| - 1]), sh.(queue := sh.queue[..|sh.queue| - 1]))
      else (wk, sh)
    case Holding(p) =>
      if !a.Begin? then (wk, sh)
      else
        var key := c.lockOf(p);
        if !c.valid(p) || Locked(sh.locks, key, a.now) then (Idle, End(sh, Skipped, p))
        else
          var locks := if key.Some? then sh.locks[key.value := a.now + Lease(c)] else sh.locks;
          (Running(p, a.now, Working), sh.(locks := locks))
    case Running(p, since, Working) =>
      ActWorking(c, p, since, sh, a)
    case Running(p, since, Counted(n)) =>
      if a == PushBack && Retriable(c, n) then (Running(p, since, Settled), Enqueue(sh, p))
      else if a.DeadLetter? && !Retriable(c, n) && a.id !in sh.dlq then
        (Running(p, since, Buried), End(sh, Parked, p).(dlq := sh.dlq[a.id := Row(p, n, Open, a.now)]))
      else (wk, sh)
    case Running(p, since, Buried) =>
      if a == ClearCounter then (Running(p, since, Settled), sh.(retries := sh.retries - {p})) else (wk, sh)
    case Running(p, since, _) =>
      if a == Release then (Idle, Unlock(c, sh, p)) else (wk, sh)
  }

  /** The job itself: it is skipped, cancelled, succeeds (which clears its retry
      counter) or fails (which counts an attempt on retrying queues). */
  function ActWorking(c: Config, p: string, since: int, sh: Shared, a: Action): (Worker, Shared) {
    match a
    case Skip => (Running(p, since, Settled), End(sh, Skipped, p))
    case Cancel =>
      if c.cancels then (Running(p, since, Dropped), Unlock(c, End(sh, Cancelled, p), p))
      else (Running(p, since, Working), sh)
    case Succeed => (Running(p, since, Settled), End(sh, Completed, p).(retries := sh.retries - {p}))
    case Fail =>
      if !c.retries then (Running(p, since, Counted(0)), sh)
      else
        var attempts := (if p in sh.retries then sh.retries[p] else 0) + 1;
        (Running(p, since, Counted(attempts)), sh.(retries := sh.retries[p := attempts]))
    case _ => (Running(p, since, Working), sh)
  }

  /** The rows a cleanup keeps: open ones, and any younger than 30 days. */
  function Kept(c: Config, dlq: map<nat, Row>, now: int): map<nat, Row> {
    map id | id in dlq && (dlq[id].status == Open || dlq[id].createdAt >= now - RETENTION_SECONDS * c.hz) :: dlq[id]
  }

  function Step(c: Config, s: State, e: Event): State {
    match e
    case Work(w, a) =>
      if w >= |s.workers| then s
      else
        var (wk, sh) := Act(c, s.workers[w], s.shared, a);
        s.(workers := s.workers[w := wk], shared := sh)
    case Push(p) =>
      s.(shared := Enqueue(s.shared, p), pushed := s.pushed + multiset{p})
    case RequeuePush(id) =>
      if id !in s.shared.dlq then s
      else
        var p := s.shared.dlq[id].payload;
        s.(shared := Enqueue(s.shared, p), pushed := s.pushed + multiset{p}, requeuing := s.requeuing + multiset{id})
    case RequeueCommit(id) =>
      if s.requeuing[id] == 0 then s
      else
        var dlq := s.shared.dlq;
        s.(shared := s.shared.(dlq := if id in dlq then dlq[id := dlq[id].(status := Requeued)] else dlq),
           requeuing := s.requeuing - multiset{id})
    case ResolveRow(id) =>
      if id !in s.shared.dlq then s
      else s.(shared := s.shared.(dlq := s.shared.dlq[id := s.shared.dlq[id].(status := Resolved)]))
    case Cleanup(now) =>
      s.(shared := s.shared.(dlq := Kept(c, s.shared.dlq, now)))
  }

  function Initial(workers: nat): State {
    State(seq(workers, _ => Idle), Shared([], map[], map[], map[], multiset{}), multiset{}, multiset{})
  }

  function RunFrom(c: Config, s: State, events: seq<Event>): State {
    if events == [] then s
    else Step(c, RunFrom(c, s, events[..|events| - 1]), events[|events| - 1])
  }

  function Run(c: Config, workers: nat, events: seq<Event>): State {
    RunFrom(c, Initial(workers), events)
  }

  // -------------------------------------------------------------- conservation

  /** Whether a worker is answerable for payload p, not yet recorded elsewhere. */
  function InHand(wk: Worker, p: string): nat {
    match wk
    case Idle => 0
    case Holding(q) => if p == q then 1 else 0
    case Running(q, _, stage) => if p == q && (stage == Working || stage.Counted?) then 1 else 0
  }

  function InHands(workers: seq<Worker>, p: string): nat {
    if workers == [] then 0 else InHand(workers[0], p) + InHands(workers[1..], p)
  }

  function Queued(queue: seq<string>, p: string): nat {
    multiset(queue)[p]
  }

  function Ended(endings: multiset<Record>, p: string): nat {
    endings[Record(Completed, p)] + endings[Record(Skipped, p)] + endings[Record(Cancelled, p)]
    + endings[Record(Parked, p)]
  }

  lemma {:induction false} InHandsUpdate(workers: seq<Worker>, i: nat, wk: Worker, p: string)
    requires i < |workers|
    ensures InHands(workers[i := wk], p) == InHands(workers, p) - InHand(workers[i], p) + InHand(wk, p)
  {
    hide InHand;
    if i == 0 {
      assert workers[i := wk][1..] == workers[1..];
    } else {
      assert workers[i := wk][1..] == workers[1..][i - 1 := wk];
      InHandsUpdate(workers[1..], i - 1, wk, p);
    }
  }

  lemma {:induction false} NothingInHands(n: nat, p: string)
    ensures InHands(seq(n, _ => Idle), p) == 0
  {
    if n > 0 {
      NothingInHands(n - 1, p);
      assert seq(n, _ => Idle)[1..] == seq(n - 1, _ => Idle);
    }
  }

  /** Every payload, as often as it was ever pushed, is in exactly one place:
      queued, in the hands of one worker, completed, skipped, cancelled or parked. */
  ghost predicate Conserved(s: State, p: string) {
    s.pushed[p] == Queued(s.shared.queue, p) + InHands(s.workers, p) + Ended(s.shared.endings, p)
  }

  lemma QueuedPush(queue: seq<string>, q: string, p: string)
    ensures Queued([q] + queue, p) == Queued(queue, p) + if p == q then 1 else 0
  {
  }

  lemma QueuedPop(queue: seq<string>, p: string)
    requires queue != []
    ensures var n := |queue| - 1;
            Queued(queue[..n], p) == Queued(queue, p) - if p == queue[n] then 1 else 0
  {
    assert queue == queue[..|queue| - 1] + [queue[|queue| - 1]];
  }

  lemma EndedOnce(sh: Shared, ending: Ending, q: string, p: string)
    ensures End(sh, ending, q) == sh.(endings := End(sh, ending, q).endings)
    ensures Ended(End(sh, ending, q).endings, p) == Ended(sh.endings, p) + if p == q then 1 else 0
  {
  }

  /** A worker's step moves payloads only between the queue, its hands and the
      endings. */
  predicate Balanced(wk: Worker, sh: Shared, wk': Worker, sh': Shared, p: string) {
    Queued(sh'.queue, p) + InHand(wk', p) + Ended(sh'.endings, p)
    == Queued(sh.queue, p) + InHand(wk, p) + Ended(sh.endings, p)
  }

  /** What leaves a worker's hands enters exactly one other place. */
  lemma ActConserves(c: Config, wk: Worker, sh: Shared, a: Action, p: string)
    ensures var (wk', sh') := Act(c, wk, sh, a); Balanced(wk, sh, wk', sh', p)
  {
    hide Queued, Ended, Locked, Lease, End, ActWorking, Unlock;
    if sh.queue != [] {
      QueuedPop(sh.queue, p);
    }
    if !wk.Idle? {
      QueuedPush(sh.queue, wk.payload, p);
      EndedOnce(sh, Skipped, wk.payload, p);
      EndedOnce(sh, Parked, wk.payload, p);
      UnlockKeepsRest(c, sh, wk.payload);
    }
    if wk.Running? {
      ActWorkingConserves(c, wk.payload, wk.since, sh, a, p);
    }
  }

  lemma ActWorkingConserves(c: Config, q: string, since: int, sh: Shared, a: Action, p: string)
    ensures var (wk', sh') := ActWorking(c, q, since, sh, a); Balanced(Running(q, since, Working), sh, wk', sh', p)
  {
    hide Queued, Ended, End, Unlock;
    EndedOnce(sh, Completed, q, p);
    EndedOnce(sh, Skipped, q, p);
    EndedOnce(sh, Cancelled, q, p);
    UnlockKeepsRest(c, End(sh, Cancelled, q), q);
  }

  lemma UnlockKeepsRest(c: Config, sh: Shared, q: string)
    ensures Unlock(c, sh, q) == sh.(locks := Unlock(c, sh, q).locks)
  {
  }

  lemma StepConserved(c: Config, s: State, e: Event, p: string)
    requires Conserved(s, p)
    ensures Conserved(Step(c, s, e), p)
  {
    hide Queued, Ended, InHand, InHands, Act, Kept;
    match e
    case Work(w, a) =>
      if w < |s.workers| {
        ActConserves(c, s.workers[w], s.shared, a, p);
        InHandsUpdate(s.workers, w, Act(c, s.workers[w], s.shared, a).0, p);
      }
    case Push(q) =>
      QueuedPush(s.shared.queue, q, p);
    case RequeueCommit(_) =>
    case RequeuePush(id) =>
      if id in s.shared.dlq {
        QueuedPush(s.shared.queue, s.shared.dlq[id].payload, p);
      }
    case ResolveRow(_) =>
    case Cleanup(_) =>
  }

  lemma {:induction false} RunConserved(c: Config, workers: nat, events: seq<Event>, p: string)
    ensures Conserved(Run(c, workers, events), p)
  {
    hide Step, InHands;
    if events == [] {
      NothingInHands(workers, p);
    } else {
      RunConserved(c, workers, events[..|events| - 1], p);
      StepConserved(c, Run(c, workers, events[..|events| - 1]), events[|events| - 1], p);
    }
  }

  // ---------------------------------------------------------- mutual exclusion

  /** Worker i runs a job under lock `key`; a cancelled job is over. */
  predicate Holds(c: Config, s: State, i: nat, key: string) {
    && i < |s.workers| && s.workers[i].Running? && s.workers[i].stage != Dropped
    && c.lockOf(s.workers[i].payload) == Some(key)
  }

  ghost predicate Exclusive(c: Config, s: State) {
    forall i: nat, j: nat, key :: Holds(c, s, i, key) && Holds(c, s, j, key) ==> i == j
  }

  ghost predicate LocksHeld(c: Config, s: State) {
    forall i: nat, key :: Holds(c, s, i, key) ==>
      key in s.shared.locks && s.shared.locks[key] == s.workers[i].since + Lease(c)
  }

  /** No job has been running for `limit` ticks or more. */
  ghost predicate RunsShorterThan(s: State, now: int, limit: int) {
    forall i :: 0 <= i < |s.workers| && s.workers[i].Running? ==> now < s.workers[i].since + limit
  }

  predicate IsBegin(e: Event) {
    e.Work? && e.action.Begin?
  }

  /** Whenever a lock is attempted, every job then running is younger than `limit`. */
  ghost predicate Timely(c: Config, workers: nat, events: seq<Event>, limit: int) {
    forall k :: 0 <= k < |events| && IsBegin(events[k]) ==>
      RunsShorterThan(Run(c, workers, events[..k]), events[k].action.now, limit)
  }

  predicate IsCancel(c: Config, e: Event) {
    c.cancels && e.Work? && e.action.Cancel?
  }

  predicate IsDropped(wk: Worker) {
    wk.Running? && wk.stage == Dropped
  }

  /** No worker is between the two releases of a cancelled job. */
  ghost predicate NoneDropped(s: State) {
    forall i :: 0 <= i < |s.workers| ==> !IsDropped(s.workers[i])
  }

  /** A step that is no Begin starts no run and takes no lock; unless a job is
      cancelled, it drops a lock only together with the run that holds it. */
  lemma ActKeepsRun(c: Config, wk: Worker, sh: Shared, a: Action)
    requires !a.Begin? && !(a.Cancel? && c.cancels) && !IsDropped(wk)
    ensures var (wk', sh') := Act(c, wk, sh, a); KeepsRun(c, wk, sh, wk', sh')
  {
    hide Locked, Lease, ActWorking;
    if wk.Running? {
      WorkingKeepsRun(c, wk.payload, wk.since, sh, a);
    }
  }

  predicate KeepsRun(c: Config, wk: Worker, sh: Shared, wk': Worker, sh': Shared) {
    && !IsDropped(wk')
    && (wk'.Running? ==> wk.Running? && wk'.payload == wk.payload && wk'.since == wk.since && sh'.locks == sh.locks)
    && (sh'.locks != sh.locks ==>
          && wk.Running? && wk'.Idle? && c.lockOf(wk.payload).Some?
          && sh'.locks == sh.locks - {c.lockOf(wk.payload).value})
  }

  lemma WorkingKeepsRun(c: Config, p: string, since: int, sh: Shared, a: Action)
    requires !(a.Cancel? && c.cancels)
    ensures var (wk', sh') := ActWorking(c, p, since, sh, a);
            wk'.Running? && KeepsRun(c, Running(p, since, Working), sh, wk', sh')
  {
  }

  lemma StepExclusive(c: Config, s: State, e: Event)
    requires Exclusive(c, s) && LocksHeld(c, s) && NoneDropped(s) && !IsCancel(c, e)
    requires IsBegin(e) ==> RunsShorterThan(s, e.action.now, Lease(c))
    ensures Exclusive(c, Step(c, s, e)) && LocksHeld(c, Step(c, s, e)) && NoneDropped(Step(c, s, e))
  {
    hide Act, Kept, Lease;
    var s' := Step(c, s, e);
    if IsBegin(e) {
      if e.w < |s.workers| {
        BeginExclusive(c, s, e.w, e.action.now);
      }
    } else if e.Work? && e.w < |s.workers| {
      ActKeepsRun(c, s.workers[e.w], s.shared, e.action);
      forall i: nat, key | Holds(c, s', i, key)
        ensures Holds(c, s, i, key) && s'.workers[i].since == s.workers[i].since
      {
      }
      forall i: nat, key | Holds(c, s', i, key)
        ensures key in s'.shared.locks && s'.shared.locks[key] == s.shared.locks[key]
      {
        assert Holds(c, s, i, key);
        if s'.shared.locks != s.shared.locks {
          var freed := c.lockOf(s.workers[e.w].payload).value;
          assert Holds(c, s, e.w, freed) && i != e.w;
          assert freed != key;
        }
      }
    } else {
      forall i: nat, key | Holds(c, s', i, key) ensures Holds(c, s, i, key) {
      }
    }
  }

  lemma BeginExclusive(c: Config, s: State, w: nat, now: int)
    requires Exclusive(c, s) && LocksHeld(c, s) && NoneDropped(s) && RunsShorterThan(s, now, Lease(c))
             && w < |s.workers|
    ensures var s' := Step(c, s, Work(w, Begin(now)));
            Exclusive(c, s') && LocksHeld(c, s') && NoneDropped(s')
  {
    hide Lease;
    var s' := Step(c, s, Work(w, Begin(now)));
    forall i: nat, key | i != w && Holds(c, s', i, key)
      ensures Holds(c, s, i, key) && Locked(s.shared.locks, Some(key), now)
    {
      assert Holds(c, s, i, key);
    }
    forall key | Holds(c, s', w, key) && s.workers[w].Running? ensures Holds(c, s, w, key) {
    }
  }

  lemma {:induction false} RunExclusive(c: Config, workers: nat, events: seq<Event>, limit: int)
    requires Timely(c, workers, events, limit) && limit <= Lease(c)
    requires forall e :: e in events ==> !IsCancel(c, e)
    ensures var s := Run(c, workers, events);
            Exclusive(c, s) && LocksHeld(c, s) && NoneDropped(s)
  {
    hide Step, Lease;
    if events != [] {
      var n := |events| - 1;
      var prior := events[..n];
      forall k | 0 <= k < |prior| && IsBegin(prior[k])
        ensures RunsShorterThan(Run(c, workers, prior[..k]), prior[k].action.now, limit)
      {
        assert prior[..k] == events[..k] && prior[k] == events[k];
      }
      assert events[n] in events && forall e :: e in prior ==> e in events;
      RunExclusive(c, workers, prior, limit);
      StepExclusive(c, Run(c, workers, prior), events[n]);
    }
  }

  ghost predicate ExclusiveWithin(c: Config, limit: int) {
    forall workers, events :: Timely(c, workers, events, limit) ==> Exclusive(c, Run(c, workers, events))
  }

  /** Two workers on the same payload, the second starting when the lease of the
      first runs out. */
  function OverrunEvents(c: Config, p: string): seq<Event> {
    [Push(p), Push(p), Work(0, Pop), Work(1, Pop), Work(0, Begin(0)), Work(1, Begin(Lease(c)))]
  }

  /** A run, prefix by prefix. */
  lemma Prefixes(c: Config, workers: nat, events: seq<Event>)
    ensures Run(c, workers, events[..0]) == Initial(workers) && events[..|events|] == events
    ensures forall k :: 0 <= k < |events| ==>
              Run(c, workers, events[..k + 1]) == Step(c, Run(c, workers, events[..k]), events[k])
  {
    hide Step;
    forall k | 0 <= k < |events|
      ensures Run(c, workers, events[..k + 1]) == Step(c, Run(c, workers, events[..k]), events[k])
    {
      assert events[..k + 1][..k] == events[..k];
    }
  }

  lemma OverrunSteps(c: Config, p: string)
    requires c.valid(p) && c.lockOf(p).Some?
    ensures var popped := Step(c, Step(c, Step(c, Step(c, Initial(2), Push(p)), Push(p)), Work(0, Pop)), Work(1, Pop));
            var begun := Step(c, popped, Work(0, Begin(0)));
            && popped.workers == [Holding(p), Holding(p)]
            && begun.workers == [Running(p, 0, Working), Holding(p)]
            && Step(c, begun, Work(1, Begin(Lease(c)))).workers
                 == [Running(p, 0, Working), Running(p, Lease(c), Working)]
  {
    hide Step;
    var s1 := Step(c, Initial(2), Push(p));
    var s2 := Step(c, s1, Push(p));
    PushEffect(c, Initial(2), p);
    PushEffect(c, s1, p);
    assert s2.workers == [Idle, Idle] && s2.shared.queue == [p] + [p];
    PopEffect(c, s2, 0, [p], p);
    var s3 := Step(c, s2, Work(0, Pop));
    assert [p] == [] + [p];
    PopEffect(c, s3, 1, [], p);
    BeginTwice(c, Step(c, s3, Work(1, Pop)), p);
  }

  lemma BeginTwice(c: Config, s: State, p: string)
    requires c.valid(p) && c.lockOf(p).Some? && s.workers == [Holding(p), Holding(p)] && s.shared.locks == map[]
    ensures var begun := Step(c, s, Work(0, Begin(0)));
            && begun.workers == [Running(p, 0, Working), Holding(p)]
            && Step(c, begun, Work(1, Begin(Lease(c)))).workers
                 == [Running(p, 0, Working), Running(p, Lease(c), Working)]
  {
    hide Lease;
    var begun := Step(c, s, Work(0, Begin(0)));
    assert begun.workers == s.workers[0 := Running(p, 0, Working)];
  }

  lemma Overrun(c: Config, p: string, limit: int)
    requires c.valid(p) && c.lockOf(p).Some? && limit > Lease(c) >= 0
    ensures Timely(c, 2, OverrunEvents(c, p), limit)
    ensures !Exclusive(c, Run(c, 2, OverrunEvents(c, p)))
  {
    hide Run, Step, Lease;
    var e, key := OverrunEvents(c, p), c.lockOf(p).value;
    Prefixes(c, 2, e);
    assert Run(c, 2, e[..1]) == Step(c, Initial(2), e[0]) && Run(c, 2, e[..2]) == Step(c, Run(c, 2, e[..1]), e[1]);
    assert Run(c, 2, e[..3]) == Step(c, Run(c, 2, e[..2]), e[2])
           && Run(c, 2, e[..4]) == Step(c, Run(c, 2, e[..3]), e[3]);
    assert Run(c, 2, e[..5]) == Step(c, Run(c, 2, e[..4]), e[4])
           && Run(c, 2, e[..6]) == Step(c, Run(c, 2, e[..5]), e[5]);
    OverrunSteps(c, p);
    var s := Run(c, 2, e);
    assert Holds(c, s, 0, key) && Holds(c, s, 1, key);
    assert forall k :: 0 <= k < |e| && IsBegin(e[k]) ==> k == 4 || k == 5;
  }

  /** The handler of a cancelled job releases the lock, and the `finally` after it
      releases it again: if another worker took the lock in between, the second
      release hands it to a third. */
  function DoubleRelease(p: string): seq<Event> {
    [Push(p), Push(p), Push(p), Work(0, Pop), Work(1, Pop), Work(2, Pop),
     Work(0, Begin(0)), Work(0, Cancel), Work(1, Begin(0)), Work(0, Release), Work(2, Begin(0))]
  }

  lemma CancelledOverlap(c: Config, p: string, limit: int)
    requires c.valid(p) && c.lockOf(p).Some? && c.cancels && limit > 0
    ensures Timely(c, 3, DoubleRelease(p), limit)
    ensures !Exclusive(c, Run(c, 3, DoubleRelease(p)))
  {
    hide Run, Step, Lease;
    var e, key := DoubleRelease(p), c.lockOf(p).value;
    DoubleReleaseWorkers(c, p);
    var s := Run(c, 3, e);
    assert Holds(c, s, 1, key) && Holds(c, s, 2, key);
    assert forall k :: 0 <= k < |e| && IsBegin(e[k]) ==> k == 6 || k == 8 || k == 10;
  }

  lemma DoubleReleaseWorkers(c: Config, p: string)
    requires c.valid(p) && c.lockOf(p).Some? && c.cancels
    ensures var e := DoubleRelease(p);
            && Run(c, 3, e[..6]).workers == [Holding(p), Holding(p), Holding(p)]
            && Run(c, 3, e[..8]).workers == [Running(p, 0, Dropped), Holding(p), Holding(p)]
            && Run(c, 3, e[..10]).workers == [Idle, Running(p, 0, Working), Holding(p)]
            && Run(c, 3, e).workers == [Idle, Running(p, 0, Working), Running(p, 0, Working)]
  {
    hide Run, Step, Initial;
    var e := DoubleRelease(p);
    Prefixes(c, 3, e);
    assert Run(c, 3, e[..1]) == Step(c, Initial(3), e[0]) && Run(c, 3, e[..2]) == Step(c, Run(c, 3, e[..1]), e[1]);
    assert Run(c, 3, e[..3]) == Step(c, Run(c, 3, e[..2]), e[2])
           && Run(c, 3, e[..4]) == Step(c, Run(c, 3, e[..3]), e[3]);
    assert Run(c, 3, e[..5]) == Step(c, Run(c, 3, e[..4]), e[4])
           && Run(c, 3, e[..6]) == Step(c, Run(c, 3, e[..5]), e[5]);
    ThreePops(c, p);
    assert Run(c, 3, e[..7]) == Step(c, Run(c, 3, e[..6]), e[6])
           && Run(c, 3, e[..8]) == Step(c, Run(c, 3, e[..7]), e[7]);
    BeginCancel(c, Run(c, 3, e[..6]), p);
    assert Run(c, 3, e[..9]) == Step(c, Run(c, 3, e[..8]), e[8])
           && Run(c, 3, e[..10]) == Step(c, Run(c, 3, e[..9]), e[9]);
    BeginUnlocked(c, Run(c, 3, e[..8]), 1, p);
    SecondRelease(c, Run(c, 3, e[..9]), p);
    assert Run(c, 3, e[..11]) == Step(c, Run(c, 3, e[..10]), e[10]);
    BeginUnlocked(c, Run(c, 3, e[..10]), 2, p);
  }

  lemma PushEffect(c: Config, s: State, p: string)
    ensures Step(c, s, Push(p))
            == s.(shared := s.shared.(queue := [p] + s.shared.queue), pushed := s.pushed + multiset{p})
  {
  }

  lemma PopEffect(c: Config, s: State, w: nat, rest: seq<string>, p: string)
    requires w < |s.workers| && s.workers[w] == Idle && s.shared.queue == rest + [p]
    ensures Step(c, s, Work(w, Pop)) == s.(workers := s.workers[w := Holding(p)], shared := s.shared.(queue := rest))
  {
  }

  lemma ThreePops(c: Config, p: string)
    ensures var pushed := Step(c, Step(c, Step(c, Initial(3), Push(p)), Push(p)), Push(p));
            var s := Step(c, Step(c, Step(c, pushed, Work(0, Pop)), Work(1, Pop)), Work(2, Pop));
            s.workers == [Holding(p), Holding(p), Holding(p)] && s.shared.locks == map[]
  {
    hide Step;
    var s1 := Step(c, Initial(3), Push(p));
    var s2 := Step(c, s1, Push(p));
    var s3 := Step(c, s2, Push(p));
    PushEffect(c, Initial(3), p);
    PushEffect(c, s1, p);
    PushEffect(c, s2, p);
    assert s3.workers == [Idle, Idle, Idle] && s3.shared.queue == [p, p] + [p];
    PopEffect(c, s3, 0, [p, p], p);
    var s4 := Step(c, s3, Work(0, Pop));
    assert [p, p] == [p] + [p];
    PopEffect(c, s4, 1, [p], p);
    assert [p] == [] + [p];
    PopEffect(c, Step(c, s4, Work(1, Pop)), 2, [], p);
  }

  lemma BeginUnlocked(c: Config, s: State, w: nat, p: string)
    requires c.valid(p) && c.lockOf(p).Some? && w < |s.workers| && s.workers[w] == Holding(p)
    requires c.lockOf(p).value !in s.shared.locks
    ensures var s' := Step(c, s, Work(w, Begin(0)));
            s'.workers == s.workers[w := Running(p, 0, Working)]
  {
    hide Lease;
  }

  lemma BeginCancel(c: Config, s: State, p: string)
    requires c.valid(p) && c.lockOf(p).Some? && c.cancels && s.shared.locks == map[]
    requires |s.workers| > 0 && s.workers[0] == Holding(p)
    ensures var s' := Step(c, Step(c, s, Work(0, Begin(0))), Work(0, Cancel));
            s'.workers == s.workers[0 := Running(p, 0, Dropped)] && c.lockOf(p).value !in s'.shared.locks
  {
    hide Lease;
    BeginUnlocked(c, s, 0, p);
  }

  lemma SecondRelease(c: Config, s: State, p: string)
    requires c.lockOf(p).Some? && |s.workers| > 0 && s.workers[0] == Running(p, 0, Dropped)
    ensures var s' := Step(c, s, Work(0, Release));
            s'.workers == s.workers[0 := Idle] && c.lockOf(p).value !in s'.shared.locks
  {
  }

  /** Runs under one lock never overlap, in every interleaving, exactly when jobs
      stay shorter than the lease and no cancellation releases a lock twice.
      (The unconditional delete in the worker's `finally` alone is harmless.) */
  lemma ExclusionExactly(c: Config, p: string, limit: int)
    requires c.valid(p) && c.lockOf(p).Some? && c.hz > 0 && limit > 0
    ensures ExclusiveWithin(c, limit) <==> limit <= Lease(c) && !c.cancels
  {
    if limit > Lease(c) {
      Overrun(c, p, limit);
    } else if c.cancels {
      CancelledOverlap(c, p, limit);
    } else {
      forall workers, events | Timely(c, workers, events, limit) ensures Exclusive(c, Run(c, workers, events)) {
        RunExclusive(c, workers, events, limit);
      }
    }
  }

  // ------------------------------------------------------------ the dead letters

  lemma ActKeepsRows(c: Config, wk: Worker, sh: Shared, a: Action, id: nat)
    requires id in sh.dlq
    ensures var sh' := Act(c, wk, sh, a).1; id in sh'.dlq && sh'.dlq[id] == sh.dlq[id]
  {
    hide Locked, Lease;
  }

  lemma StepKeepsOpenRow(c: Config, s: State, e: Event, id: nat)
    requires id in s.shared.dlq && s.shared.dlq[id].status == Open
    requires e != RequeueCommit(id) && e != ResolveRow(id)
    ensures id in Step(c, s, e).shared.dlq && Step(c, s, e).shared.dlq[id] == s.shared.dlq[id]
  {
    hide Act;
    if e.Work? && e.w < |s.workers| {
      ActKeepsRows(c, s.workers[e.w], s.shared, e.action, id);
    }
  }

  /** An open row stays, unchanged, until someone requeues or resolves it. */
  lemma {:induction false} OpenRowsStay(c: Config, s: State, events: seq<Event>, id: nat)
    requires id in s.shared.dlq && s.shared.dlq[id].status == Open
    requires forall e :: e in events ==> e != RequeueCommit(id) && e != ResolveRow(id)
    ensures id in RunFrom(c, s, events).shared.dlq && RunFrom(c, s, events).shared.dlq[id] == s.shared.dlq[id]
  {
    hide Step;
    if events != [] {
      var prior, last := events[..|events| - 1], events[|events| - 1];
      assert last in events && forall e :: e in prior ==> e in events;
      OpenRowsStay(c, s, prior, id);
      StepKeepsOpenRow(c, RunFrom(c, s, prior), last, id);
    }
  }

  /** A requeue pushes the job first; while its commit has not come, or if it never
      does, the row stays open although its job is queued again. */
  lemma UncommittedRequeue(c: Config, s: State, events: seq<Event>, id: nat)
    requires id in s.shared.dlq && s.shared.dlq[id].status == Open
    requires forall e :: e in events ==> e != RequeueCommit(id) && e != ResolveRow(id)
    ensures var row, pushed := s.shared.dlq[id], Step(c, s, RequeuePush(id));
            && Queued(pushed.shared.queue, row.payload) == Queued(s.shared.queue, row.payload) + 1
            && pushed.pushed == s.pushed + multiset{row.payload}
            && var later := RunFrom(c, pushed, events).shared.dlq; id in later && later[id] == row
  {
    var p := s.shared.dlq[id].payload;
    QueuedPush(s.shared.queue, p, p);
    OpenRowsStay(c, Step(c, s, RequeuePush(id)), events, id);
  }

  predicate IsOpen(s: State, id: nat) {
    id in s.shared.dlq && s.shared.dlq[id].status == Open
  }

  predicate Closes(e: Event, id: nat) {
    e == RequeueCommit(id) || e == ResolveRow(id)
  }

  predicate Reuses(e: Event, id: nat) {
    e.Work? && e.action.DeadLetter? && e.action.id == id
  }

  lemma ActKeepsClosed(c: Config, wk: Worker, sh: Shared, a: Action, id: nat)
    requires !(a.DeadLetter? && a.id == id)
    ensures var sh' := Act(c, wk, sh, a).1;
            (id in sh'.dlq <==> id in sh.dlq) && (id in sh.dlq ==> sh'.dlq[id] == sh.dlq[id])
  {
    hide Locked, Lease;
  }

  /** Only the row's own worker opens it, and only its own commit uses up a push. */
  lemma StepKeepsClosed(c: Config, s: State, e: Event, id: nat)
    requires !Reuses(e, id)
    ensures !IsOpen(s, id) ==> !IsOpen(Step(c, s, e), id)
    ensures e != RequeueCommit(id) ==> Step(c, s, e).requeuing[id] >= s.requeuing[id]
  {
    hide Act;
    if e.Work? && e.w < |s.workers| {
      ActKeepsClosed(c, s.workers[e.w], s.shared, e.action, id);
    }
  }

  /** A closing event changes the status of its row, as named, and nothing else. */
  lemma CommitCloses(c: Config, s: State, e: Event, id: nat)
    requires Closes(e, id) && (e.RequeueCommit? ==> s.requeuing[id] > 0)
    ensures !IsOpen(Step(c, s, e), id)
    ensures id in s.shared.dlq ==>
              var closed := s.shared.dlq[id].(status := if e.RequeueCommit? then Requeued else Resolved);
              Step(c, s, e).shared == s.shared.(dlq := s.shared.dlq[id := closed])
  {
  }

  /** Once an open row's job has been pushed again, the row is still open at the
      end of a run exactly when the run has neither committed a requeue of it nor
      resolved it.  Row ids are never reused. */
  lemma {:induction false} OpenExactly(c: Config, s: State, events: seq<Event>, id: nat)
    requires IsOpen(s, id) && s.requeuing[id] > 0
    requires forall e :: e in events ==> !Reuses(e, id)
    ensures var later := RunFrom(c, s, events);
            && (IsOpen(later, id) <==> forall e :: e in events ==> !Closes(e, id))
            && (IsOpen(later, id) ==> later.requeuing[id] > 0 && later.shared.dlq[id] == s.shared.dlq[id])
  {
    hide Step, IsOpen, Closes, Reuses;
    if events != [] {
      var n := |events| - 1;
      var prior, e := events[..n], events[n];
      assert events == prior + [e];
      assert e in events && forall x :: x in events <==> x in prior || x == e;
      OpenExactly(c, s, prior, id);
      var before := RunFrom(c, s, prior);
      StepKeepsClosed(c, before, e, id);
      if IsOpen(before, id) {
        if Closes(e, id) {
          CommitCloses(c, before, e, id);
        } else {
          OpenStays(c, before, e, id);
        }
      }
    }
  }

  lemma OpenStays(c: Config, s: State, e: Event, id: nat)
    requires IsOpen(s, id) && !Closes(e, id)
    ensures IsOpen(Step(c, s, e), id) && Step(c, s, e).shared.dlq[id] == s.shared.dlq[id] && e != RequeueCommit(id)
  {
    hide Step;
    StepKeepsOpenRow(c, s, e, id);
  }

  // ------------------------------------------------------- retries that are lost

  /** Worker w holds a payload with failed attempts and is about to skip it, since
      the lock is taken: the job ends without its remaining attempts. */
  predicate DropsRetry(c: Config, s: State, w: nat, now: int) {
    && w < |s.workers| && s.workers[w].Holding?
    && var p := s.workers[w].payload;
       c.valid(p) && p in s.shared.retries && Locked(s.shared.locks, c.lockOf(p), now)
  }

  /** No run of that many workers drops a retry. */
  ghost predicate RetriesSurvive(c: Config, workers: nat) {
    forall events, w: nat, now :: !DropsRetry(c, Run(c, workers, events), w, now)
  }

  ghost predicate NoLocks(c: Config) {
    forall p :: c.valid(p) ==> c.lockOf(p).None?
  }

  /** A single worker finds only its own locks, and those while it runs. */
  ghost predicate OwnLocks(c: Config, s: State) {
    && |s.workers| <= 1
    && (forall key :: key in s.shared.locks ==> s.workers != [] && OwnLock(c, s.workers[0], key))
  }

  lemma {:induction false} OneWorkerOwnsLocks(c: Config, workers: nat, events: seq<Event>)
    requires workers <= 1
    ensures OwnLocks(c, Run(c, workers, events))
  {
    hide Act, Kept;
    if events != [] {
      var s, e := Run(c, workers, events[..|events| - 1]), events[|events| - 1];
      OneWorkerOwnsLocks(c, workers, events[..|events| - 1]);
      if e.Work? && e.w < |s.workers| {
        ActOwnsLocks(c, s.workers[0], s.shared, e.action);
      }
    }
  }

  predicate OwnLock(c: Config, wk: Worker, key: string) {
    wk.Running? && c.lockOf(wk.payload) == Some(key)
  }

  lemma ActOwnsLocks(c: Config, wk: Worker, sh: Shared, a: Action)
    requires forall key :: key in sh.locks ==> OwnLock(c, wk, key)
    ensures var (wk', sh') := Act(c, wk, sh, a); forall key :: key in sh'.locks ==> OwnLock(c, wk', key)
  {
    hide Locked, Lease;
  }

  lemma ActNoCounters(c: Config, wk: Worker, sh: Shared, a: Action)
    requires !c.retries && sh.retries == map[]
    ensures Act(c, wk, sh, a).1.retries == map[]
  {
    hide Locked, Lease;
  }

  lemma {:induction false} NoCounters(c: Config, workers: nat, events: seq<Event>)
    requires !c.retries
    ensures Run(c, workers, events).shared.retries == map[]
  {
    hide Act, Kept;
    if events != [] {
      var s, e := Run(c, workers, events[..|events| - 1]), events[|events| - 1];
      NoCounters(c, workers, events[..|events| - 1]);
      if e.Work? && e.w < |s.workers| {
        ActNoCounters(c, s.workers[e.w], s.shared, e.action);
      }
    }
  }

  /** A worker pushes a failed job back and, before it frees the lock, another one
      pops it and skips it. */
  function EarlyRetry(p: string): seq<Event> {
    [Push(p), Work(0, Pop), Work(0, Begin(0)), Work(0, Fail), Work(0, PushBack), Work(1, Pop)]
  }

  lemma EarlyRetrySteps(c: Config, workers: nat, p: string)
    requires c.valid(p) && c.lockOf(p).Some? && c.retries && workers >= 2
    ensures var started := Step(c, Step(c, Step(c, Initial(workers), Push(p)), Work(0, Pop)), Work(0, Begin(0)));
            var s := Step(c, Step(c, Step(c, started, Work(0, Fail)), Work(0, PushBack)), Work(1, Pop));
            && s.workers == Initial(workers).workers[0 := Running(p, 0, Settled)][1 := Holding(p)]
            && s.shared == Shared([], map[c.lockOf(p).value := Lease(c)], map[p := 1], map[], multiset{})
            && s.pushed == multiset{p}
  {
    hide Step, Lease;
    var s1 := Step(c, Initial(workers), Push(p));
    PushEffect(c, Initial(workers), p);
    assert s1.shared.queue == [] + [p];
    PopEffect(c, s1, 0, [], p);
    var s2 := Step(c, s1, Work(0, Pop));
    FailAndPushBack(c, s2, p);
    PopEffect(c, Step(c, Step(c, Step(c, s2, Work(0, Begin(0))), Work(0, Fail)), Work(0, PushBack)), 1, [], p);
  }

  lemma FailAndPushBack(c: Config, s: State, p: string)
    requires c.valid(p) && c.lockOf(p).Some? && c.retries && |s.workers| > 0 && s.workers[0] == Holding(p)
    requires s.shared.locks == map[] && s.shared.retries == map[] && s.shared.queue == []
    ensures var s' := Step(c, Step(c, Step(c, s, Work(0, Begin(0))), Work(0, Fail)), Work(0, PushBack));
            && s'.workers == s.workers[0 := Running(p, 0, Settled)] && s'.pushed == s.pushed
            && s'.shared
                 == s.shared.(queue := [] + [p], locks := map[c.lockOf(p).value := Lease(c)], retries := map[p := 1])
  {
    hide Lease;
    var s1 := Step(c, s, Work(0, Begin(0)));
    assert s1 == s.(workers := s.workers[0 := Running(p, 0, Working)],
                    shared := s.shared.(locks := map[c.lockOf(p).value := Lease(c)]));
    var s2 := Step(c, s1, Work(0, Fail));
    assert s2 == s1.(workers := s.workers[0 := Running(p, 0, Counted(1))],
                     shared := s1.shared.(retries := map[p := 1]));
  }

  lemma EarlyRetryDrops(c: Config, workers: nat, p: string)
    requires c.valid(p) && c.lockOf(p).Some? && c.retries && c.hz > 0 && workers >= 2
    ensures var s := Run(c, workers, EarlyRetry(p));
            && DropsRetry(c, s, 1, 0)
            && s.workers == Initial(workers).workers[0 := Running(p, 0, Settled)][1 := Holding(p)]
            && s.shared == Shared([], map[c.lockOf(p).value := Lease(c)], map[p := 1], map[], multiset{})
            && s.pushed == multiset{p}
  {
    hide Run, Step;
    var e := EarlyRetry(p);
    Prefixes(c, workers, e);
    assert Run(c, workers, e[..1]) == Step(c, Initial(workers), e[0])
           && Run(c, workers, e[..2]) == Step(c, Run(c, workers, e[..1]), e[1]);
    assert Run(c, workers, e[..3]) == Step(c, Run(c, workers, e[..2]), e[2])
           && Run(c, workers, e[..4]) == Step(c, Run(c, workers, e[..3]), e[3]);
    assert Run(c, workers, e[..5]) == Step(c, Run(c, workers, e[..4]), e[4])
           && Run(c, workers, e[..6]) == Step(c, Run(c, workers, e[..5]), e[5]);
    EarlyRetrySteps(c, workers, p);
  }

  /** The whole life of a job dropped that way: pushed once, failed once, skipped,
      and gone, with no row in the table and an attempt still counted. */
  lemma EarlyRetryLost(c: Config, workers: nat, p: string)
    requires c.valid(p) && c.lockOf(p).Some? && c.retries && c.hz > 0 && workers >= 2
    ensures var s := Run(c, workers, EarlyRetry(p) + [Work(1, Begin(0)), Work(0, Release)]);
            && s.pushed == multiset{p} && s.shared.queue == [] && s.workers == Initial(workers).workers
            && s.shared.endings == multiset{Record(Skipped, p)} && s.shared.dlq == map[]
            && s.shared.retries == map[p := 1]
  {
    hide Run, Step, Lease;
    EarlyRetryDrops(c, workers, p);
    var e := EarlyRetry(p);
    var all := e + [Work(1, Begin(0)), Work(0, Release)];
    var s6 := Run(c, workers, e);
    Prefixes(c, workers, all);
    assert all[..6] == e && all[..8] == all;
    assert Run(c, workers, all[..7]) == Step(c, s6, all[6])
           && Run(c, workers, all) == Step(c, Run(c, workers, all[..7]), all[7]);
    DroppedIsSkipped(c, s6, 1, 0);
    ReleaseEffect(c, Step(c, s6, all[6]), 0, p);
  }

  lemma ReleaseEffect(c: Config, s: State, w: nat, p: string)
    requires w < |s.workers| && s.workers[w] == Running(p, 0, Settled)
    ensures var s' := Step(c, s, Work(w, Release));
            && s'.workers == s.workers[w := Idle]
            && s' == s.(workers := s'.workers, shared := s.shared.(locks := s'.shared.locks))
  {
  }

  /** No failing job is dropped before its third attempt by a taken lock exactly
      when there is at most one worker, or the queue does not retry, or its jobs
      take no lock. */
  lemma RetriesSurviveExactly(c: Config, workers: nat)
    requires c.hz > 0
    ensures RetriesSurvive(c, workers) <==> workers <= 1 || !c.retries || NoLocks(c)
  {
    hide Run;
    if workers <= 1 || !c.retries || NoLocks(c) {
      forall events, w: nat, now ensures !DropsRetry(c, Run(c, workers, events), w, now) {
        if workers <= 1 {
          OneWorkerOwnsLocks(c, workers, events);
        } else if !c.retries {
          NoCounters(c, workers, events);
        }
      }
    } else {
      var p :| c.valid(p) && c.lockOf(p).Some?;
      EarlyRetryDrops(c, workers, p);
    }
  }

  /** A dropped retry ends as skipped: it is counted as such, it is not parked, and
      its attempts stay what they were. */
  lemma DroppedIsSkipped(c: Config, s: State, w: nat, now: int)
    requires DropsRetry(c, s, w, now)
    ensures var skipped := Record(Skipped, s.workers[w].payload);
            Step(c, s, Work(w, Begin(now)))
            == s.(workers := s.workers[w := Idle], shared := s.shared.(endings := s.shared.endings + multiset{skipped}))
  {
  }

  /** A row of a retrying queue records at least three attempts, however many
      workers share the counter; a row of the export queue records none. */
  predicate RowCounts(c: Config, row: Row) {
    if c.retries then row.retryCount >= RetryQueue.MAX_RETRIES else row.retryCount == 0
  }

  predicate StageCounts(c: Config, wk: Worker) {
    wk.Running? && wk.stage.Counted? ==> (c.retries <==> wk.stage.attempts != 0)
  }

  ghost predicate RetryCounts(c: Config, s: State) {
    && (forall id :: id in s.shared.dlq ==> RowCounts(c, s.shared.dlq[id]))
    && (forall w :: 0 <= w < |s.workers| ==> StageCounts(c, s.workers[w]))
  }

  lemma ActRetryCounts(c: Config, wk: Worker, sh: Shared, a: Action)
    requires StageCounts(c, wk) && forall id :: id in sh.dlq ==> RowCounts(c, sh.dlq[id])
    ensures var (wk', sh') := Act(c, wk, sh, a);
            StageCounts(c, wk') && forall id :: id in sh'.dlq ==> RowCounts(c, sh'.dlq[id])
  {
    hide Locked, Lease;
  }

  lemma StepRetryCounts(c: Config, s: State, e: Event)
    requires RetryCounts(c, s)
    ensures RetryCounts(c, Step(c, s, e))
  {
    hide Act, StageCounts;
    if e.Work? && e.w < |s.workers| {
      ActRetryCounts(c, s.workers[e.w], s.shared, e.action);
    }
  }

  lemma {:induction false} RunRetryCounts(c: Config, workers: nat, events: seq<Event>)
    ensures RetryCounts(c, Run(c, workers, events))
  {
    hide Step;
    if events != [] {
      RunRetryCounts(c, workers, events[..|events| - 1]);
      StepRetryCounts(c, Run(c, workers, events[..|events| - 1]), events[|events| - 1]);
    }
  }

  // ------------------------------------------------------ one worker on its own

  /** The worker's steps after it has begun, for each outcome of the job.  Of the
      two ways a failure can go, the stage allows one. */
  function Script(outcome: RetryQueue.Outcome, id: nat, now: int): seq<Action> {
    match outcome
    case Succeeded => [Succeed, Release]
    case Skipped => [Skip, Release]
    case Failed => [Fail, PushBack, DeadLetter(id, now), ClearCounter, Release]
  }

  function ActAll(c: Config, wk: Worker, sh: Shared, actions: seq<Action>): (Worker, Shared)
    decreases |actions|
  {
    if actions == [] then (wk, sh)
    else
      var (wk', sh') := Act(c, wk, sh, actions[0]);
      ActAll(c, wk', sh', actions[1..])
  }

  lemma ActFirst(c: Config, wk: Worker, sh: Shared, a: Action, rest: seq<Action>)
    ensures ActAll(c, wk, sh, [a] + rest) == ActAll(c, Act(c, wk, sh, a).0, Act(c, wk, sh, a).1, rest)
    ensures ActAll(c, wk, sh, []) == (wk, sh)
  {
    assert ([a] + rest)[1..] == rest;
  }

  /** What a run puts on record: nothing when the payload goes back to the queue. */
  function EndingsOf(outcome: RetryQueue.Outcome, parked: bool, p: string): multiset<Record> {
    match outcome
    case Succeeded => multiset{Record(Completed, p)}
    case Skipped => multiset{Record(Skipped, p)}
    case Failed => if parked then multiset{Record(Parked, p)} else multiset{}
  }

  /** With no other worker in between, the atomic steps of one job amount to one
      run of the single-consumer queue: same list, same counters, same new row. */
  lemma StepsRefineRunOne(c: Config, sh: Shared, outcome: RetryQueue.Outcome, id: nat, begun: int, now: int)
    requires sh.queue != [] && c.retries && id !in sh.dlq
    requires var p := sh.queue[|sh.queue| - 1]; c.valid(p) && !Locked(sh.locks, c.lockOf(p), begun)
    ensures var (wk', sh') := ActAll(c, Idle, sh, [Pop, Begin(begun)] + Script(outcome, id, now));
            var run := RetryQueue.RunOne(RetryQueue.State(sh.queue, sh.retries, []), outcome);
            && wk' == Idle && sh'.queue == run.queue && sh'.retries == run.retries
            && sh'.dlq == (if run.dlq == [] then sh.dlq
                           else sh.dlq[id := Row(run.dlq[0].payload, run.dlq[0].retryCount, Open, now)])
            && sh'.endings == sh.endings + EndingsOf(outcome, run.dlq != [], sh.queue[|sh.queue| - 1])
  {
    hide Locked, Act, ActAll;
    var n := |sh.queue| - 1;
    var p, rest := sh.queue[n], Script(outcome, id, now);
    var sh0 := sh.(queue := sh.queue[..n]);
    PopBegin(c, sh, begun);
    assert [Pop, Begin(begun)] + rest == [Pop] + ([Begin(begun)] + rest);
    ActFirst(c, Idle, sh, Pop, [Begin(begun)] + rest);
    ActFirst(c, Holding(p), sh0, Begin(begun), rest);
    assert sh.queue == sh.queue[..n] + [p];
    ScriptRefines(c, p, Act(c, Holding(p), sh0, Begin(begun)).1, outcome, id, begun, now);
  }

  lemma PopBegin(c: Config, sh: Shared, now: int)
    requires sh.queue != []
    requires var p := sh.queue[|sh.queue| - 1]; c.valid(p) && !Locked(sh.locks, c.lockOf(p), now)
    ensures var p, sh0 := sh.queue[|sh.queue| - 1], sh.(queue := sh.queue[..|sh.queue| - 1]);
            var (wk, sh1) := Act(c, Holding(p), sh0, Begin(now));
            && Act(c, Idle, sh, Pop) == (Holding(p), sh0)
            && wk == Running(p, now, Working) && sh1 == sh0.(locks := sh1.locks)
  {
    hide Locked, Lease;
  }

  lemma ScriptRefines(c: Config, p: string, sh: Shared, outcome: RetryQueue.Outcome, id: nat, since: int, now: int)
    requires c.retries && id !in sh.dlq
    ensures var (wk', sh') := ActAll(c, Running(p, since, Working), sh, Script(outcome, id, now));
            var run := RetryQueue.RunOne(RetryQueue.State(sh.queue + [p], sh.retries, []), outcome);
            && wk' == Idle && sh'.queue == run.queue && sh'.retries == run.retries
            && sh'.dlq == (if run.dlq == [] then sh.dlq
                           else sh.dlq[id := Row(run.dlq[0].payload, run.dlq[0].retryCount, Open, now)])
            && sh'.endings == sh.endings + EndingsOf(outcome, run.dlq != [], p)
  {
    hide ActAll, Act;
    assert (sh.queue + [p])[..|sh.queue|] == sh.queue;
    var started, steps := Running(p, since, Working), Script(outcome, id, now);
    if outcome == RetryQueue.Failed {
      var n := (if p in sh.retries then sh.retries[p] else 0) + 1;
      FailureSteps(c, p, sh.(retries := sh.retries[p := n]), n, id, since, now);
      WorkingActs(c, p, since, sh);
      ActFirst(c, started, sh, Fail, steps[1..]);
      assert steps == [Fail] + steps[1..];
    } else {
      var a := if outcome == RetryQueue.Succeeded then Succeed else Skip;
      WorkingActs(c, p, since, sh);
      ActFirst(c, started, sh, a, [Release] + []);
      assert steps == [a] + ([Release] + []);
      ReleaseLast(c, Running(p, since, Settled), Act(c, started, sh, a).1);
    }
  }

  /** What each outcome of a job leaves behind on a retrying queue. */
  lemma WorkingActs(c: Config, p: string, since: int, sh: Shared)
    requires c.retries
    ensures var n := (if p in sh.retries then sh.retries[p] else 0) + 1;
            Act(c, Running(p, since, Working), sh, Fail)
              == (Running(p, since, Counted(n)), sh.(retries := sh.retries[p := n]))
    ensures Act(c, Running(p, since, Working), sh, Succeed)
         == (Running(p, since, Settled),
             sh.(retries := sh.retries - {p}, endings := sh.endings + multiset{Record(Completed, p)}))
    ensures Act(c, Running(p, since, Working), sh, Skip)
         == (Running(p, since, Settled), sh.(endings := sh.endings + multiset{Record(Skipped, p)}))
  {
  }

  lemma ReleaseLast(c: Config, wk: Worker, sh: Shared)
    requires wk.Running? && wk.stage == Settled
    ensures var (wk', sh') := ActAll(c, wk, sh, [Release] + []);
            wk' == Idle && sh' == sh.(locks := sh'.locks)
  {
    hide ActAll;
    ActFirst(c, wk, sh, Release, []);
    ActFirst(c, Idle, Act(c, wk, sh, Release).1, Release, []);
  }

  /** What follows a counted failure. */
  lemma FailureSteps(c: Config, p: string, sh: Shared, n: nat, id: nat, since: int, now: int)
    requires id !in sh.dlq
    ensures var (wk', sh') := ActAll(c, Running(p, since, Counted(n)), sh, Script(RetryQueue.Failed, id, now)[1..]);
            var again := c.retries && n < RetryQueue.MAX_RETRIES;
            && wk' == Idle
            && sh'.queue == (if again then [p] + sh.queue else sh.queue)
            && sh'.retries == (if again then sh.retries else sh.retries - {p})
            && sh'.dlq == (if again then sh.dlq else sh.dlq[id := Row(p, n, Open, now)])
            && sh'.endings == sh.endings + (if again then multiset{} else multiset{Record(Parked, p)})
  {
    hide ActAll;
    var counted, last2 := Running(p, since, Counted(n)), [ClearCounter] + ([Release] + []);
    assert Script(RetryQueue.Failed, id, now)[1..] == [PushBack] + ([DeadLetter(id, now)] + last2);
    ActFirst(c, counted, sh, PushBack, [DeadLetter(id, now)] + last2);
    var (wk1, sh1) := Act(c, counted, sh, PushBack);
    ActFirst(c, wk1, sh1, DeadLetter(id, now), last2);
    var (wk2, sh2) := Act(c, wk1, sh1, DeadLetter(id, now));
    ActFirst(c, wk2, sh2, ClearCounter, [Release] + []);
    var (wk3, sh3) := Act(c, wk2, sh2, ClearCounter);
    ReleaseLast(c, wk3, sh3);
  }

  /** A payload that names no job, or whose lock is taken, is skipped before
      anything is counted: one skipped run of the single-consumer queue, with the
      locks and the table as they were. */
  lemma EarlySkipRefinesRunOne(c: Config, sh: Shared, now: int)
    requires sh.queue != []
    requires var p := sh.queue[|sh.queue| - 1]; !c.valid(p) || Locked(sh.locks, c.lockOf(p), now)
    ensures var p, (wk', sh') := sh.queue[|sh.queue| - 1], ActAll(c, Idle, sh, [Pop] + [Begin(now)]);
            var run := RetryQueue.RunOne(RetryQueue.State(sh.queue, sh.retries, []), RetryQueue.Skipped);
            && wk' == Idle
            && sh' == sh.(queue := run.queue, endings := sh.endings + multiset{Record(Skipped, p)})
            && run.retries == sh.retries && run.dlq == []
  {
    hide Locked, Lease, ActAll;
    var p, sh0 := sh.queue[|sh.queue| - 1], sh.(queue := sh.queue[..|sh.queue| - 1]);
    ActFirst(c, Idle, sh, Pop, [Begin(now)]);
    ActFirst(c, Holding(p), sh0, Begin(now), []);
    assert [Begin(now)] + [] == [Begin(now)];
    ActFirst(c, Idle, Act(c, Holding(p), sh0, Begin(now)).1, Pop, []);
  }

  /** A failed export runs once: it is parked with no attempt counted. */
  lemma ExportFailsOnce(c: Config, p: string, sh: Shared, id: nat, since: int, now: int)
    requires !c.retries && id !in sh.dlq
    ensures var (wk', sh') := ActAll(c, Running(p, since, Working), sh, Script(RetryQueue.Failed, id, now));
            && wk' == Idle && sh'.queue == sh.queue && sh'.retries == sh.retries - {p}
            && sh'.dlq == sh.dlq[id := Row(p, 0, Open, now)]
            && sh'.endings == sh.endings + multiset{Record(Parked, p)}
  {
    hide ActAll;
    var steps := Script(RetryQueue.Failed, id, now);
    assert steps == [Fail] + steps[1..];
    ActFirst(c, Running(p, since, Working), sh, Fail, steps[1..]);
    FailureSteps(c, p, sh, 0, id, since, now);
  }

  /** A cancelled export is recorded as such and frees its lock; it is neither
      queued again nor parked, and its counter stays. */
  lemma CancelEnds(c: Config, p: string, sh: Shared, now: int)
    requires c.cancels
    ensures var (wk', sh') := ActAll(c, Running(p, now, Working), sh, [Cancel] + ([Release] + []));
            && wk' == Idle
            && sh' == sh.(locks := sh'.locks, endings := sh.endings + multiset{Record(Cancelled, p)})
            && (c.lockOf(p).Some? ==> sh'.locks == sh.locks - {c.lockOf(p).value})
  {
    hide ActAll;
    ActFirst(c, Running(p, now, Working), sh, Cancel, [Release] + []);
    var (wk1, sh1) := Act(c, Running(p, now, Working), sh, Cancel);
    ActFirst(c, wk1, sh1, Release, []);
    ActFirst(c, Idle, Act(c, wk1, sh1, Release).1, Release, []);
  }

  // ------------------------------------------------------- payloads that name jobs

  /** Only payloads that name a job ever run, are counted, or are parked. */
  ghost predicate OnlyJobs(c: Config, s: State) {
    && (forall i :: 0 <= i < |s.workers| ==> RunsJob(c, s.workers[i]))
    && SharedJobs(c, s.shared)
  }

  predicate RunsJob(c: Config, wk: Worker) {
    wk.Running? ==> c.valid(wk.payload)
  }

  ghost predicate SharedJobs(c: Config, sh: Shared) {
    && (forall p :: p in sh.retries ==> c.valid(p))
    && (forall id :: id in sh.dlq ==> c.valid(sh.dlq[id].payload))
  }

  lemma ActOnlyJobs(c: Config, wk: Worker, sh: Shared, a: Action)
    requires RunsJob(c, wk) && SharedJobs(c, sh)
    ensures var (wk', sh') := Act(c, wk, sh, a); RunsJob(c, wk') && SharedJobs(c, sh')
  {
    hide Locked, Lease;
  }

  lemma StepOnlyJobs(c: Config, s: State, e: Event)
    requires OnlyJobs(c, s)
    ensures OnlyJobs(c, Step(c, s, e))
  {
    hide Act, RunsJob;
    if e.Work? && e.w < |s.workers| {
      ActOnlyJobs(c, s.workers[e.w], s.shared, e.action);
    }
  }

  /** In every run, a payload that names no job is never run, never counted as an
      attempt and never parked, whatever is pushed. */
  lemma {:induction false} RunOnlyJobs(c: Config, workers: nat, events: seq<Event>)
    ensures OnlyJobs(c, Run(c, workers, events))
  {
    hide Step;
    if events != [] {
      RunOnlyJobs(c, workers, events[..|events| - 1]);
      StepOnlyJobs(c, Run(c, workers, events[..|events| - 1]), events[|events| - 1]);
    }
  }

  // ------------------------------------------------------------ rows that disappear

  /** A row disappears in a step exactly when it is a cleanup that finds the row
      closed and more than 30 days old. */
  lemma RowsDropExactly(c: Config, s: State, e: Event, id: nat)
    requires id in s.shared.dlq
    ensures var row := s.shared.dlq[id];
            id !in Step(c, s, e).shared.dlq
            <==> e.Cleanup? && row.status != Open && row.createdAt < e.now - 30 * 24 * 3600 * c.hz
  {
    hide Act;
    if e.Work? && e.w < |s.workers| {
      ActKeepsRows(c, s.workers[e.w], s.shared, e.action, id);
    }
  }
}
