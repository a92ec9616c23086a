/** One consumer on one Redis list: retry counters keyed by payload, and the
    dead-letter table.  The scoring, carbon and ingestion workers share this
    retry path. */
module RetryQueue {
  import opened Sequences

  const MAX_RETRIES := 3

  datatype Outcome = Succeeded | Skipped | Failed

  datatype DlqRow = DlqRow(payload: string, retryCount: int)

  /** The list (LPUSH at index 0, BRPOP at the end), the counters and the table. */
  datatype State = State(queue: seq<string>, retries: map<string, nat>, dlq: seq<DlqRow>)

  function Counter(retries: map<string, nat>, p: string): nat {
    if p in retries then retries[p] else 0
  }

  function Pop(queue: seq<string>): (string, seq<string>)
    requires queue != []
  {
    (queue[|queue| - 1], queue[..|queue| - 1])
  }

  /** One run of the worker on the oldest payload. */
  function RunOne(s: State, outcome: Outcome): State
    requires s.queue != []
  {
    var (p, rest) := Pop(s.queue);
    match outcome
    case Succeeded => State(rest, s.retries - {p}, s.dlq)
    case Skipped => s.(queue := rest)
    case Failed =>
      var attempts := Counter(s.retries, p) + 1;
      if attempts < MAX_RETRIES then State([p] + rest, s.retries[p := attempts], s.dlq)
      else State(rest, s.retries - {p}, s.dlq + [DlqRow(p, attempts)])
  }

  /** A payload's failures since its last success or dead-letter, from the
      history of runs alone.  A skipped run changes nothing. */
  function FailStreak(history: seq<(string, Outcome)>, p: string): nat {
    if history == [] then 0
    else
      var n, (q, outcome) := FailStreak(history[..|history| - 1], p), history[|history| - 1];
      if q != p || outcome == Skipped then n
      else if outcome == Succeeded || n + 1 >= MAX_RETRIES then 0
      else n + 1
  }

  lemma {:induction false} FailStreakAppend(history: seq<(string, Outcome)>, q: string, outcome: Outcome, p: string)
    ensures var n := FailStreak(history, p);
            FailStreak(history + [(q, outcome)], p)
            == if q != p || outcome == Skipped then n
               else if outcome == Succeeded || n + 1 >= MAX_RETRIES then 0
               else n + 1
  {
    assert (history + [(q, outcome)])[..|history|] == history;
  }

  /** Counters are the failure streaks and stay below the limit; every row of the
      retry path records exactly three attempts. */
  ghost predicate Consistent(s: State, history: seq<(string, Outcome)>) {
    && (forall p :: Counter(s.retries, p) == FailStreak(history, p) < MAX_RETRIES)
    && (forall i :: 0 <= i < |s.dlq| ==> s.dlq[i].retryCount == MAX_RETRIES)
  }

  lemma RunOneConsistent(s: State, history: seq<(string, Outcome)>, outcome: Outcome)
    requires s.queue != [] && Consistent(s, history)
    ensures Consistent(RunOne(s, outcome), history + [(Pop(s.queue).0, outcome)])
  {
    hide FailStreak;
    var s', q := RunOne(s, outcome), Pop(s.queue).0;
    forall p ensures Counter(s'.retries, p) == FailStreak(history + [(q, outcome)], p) < MAX_RETRIES {
      FailStreakAppend(history, q, outcome, p);
      assert Counter(s.retries, p) == FailStreak(history, p);
    }
  }

  // ------------------------------------------------------------------ draining

  /** Counters summed over a set of payloads. */
  ghost function Attempts(retries: map<string, nat>, payloads: set<string>): nat {
    if payloads == {} then 0
    else
      var p :| p in payloads;
      Counter(retries, p) + Attempts(retries, payloads - {p})
  }

  lemma {:induction false} AttemptsRemove(retries: map<string, nat>, payloads: set<string>, q: string)
    requires q in payloads
    ensures Attempts(retries, payloads) == Counter(retries, q) + Attempts(retries, payloads - {q})
  {
    var p :| p in payloads && Attempts(retries, payloads) == Counter(retries, p) + Attempts(retries, payloads - {p});
    if p != q {
      AttemptsRemove(retries, payloads - {p}, q);
      AttemptsRemove(retries, payloads - {q}, p);
      assert payloads - {p} - {q} == payloads - {q} - {p};
    }
  }

  lemma {:induction false} AttemptsSame(r: map<string, nat>, r': map<string, nat>, payloads: set<string>)
    requires forall p :: p in payloads ==> Counter(r, p) == Counter(r', p)
    ensures Attempts(r, payloads) == Attempts(r', payloads)
  {
    if payloads != {} {
      var p :| p in payloads;
      AttemptsRemove(r, payloads, p);
      AttemptsRemove(r', payloads, p);
      AttemptsSame(r, r', payloads - {p});
    }
  }

  lemma {:induction false} AttemptsBounded(retries: map<string, nat>, payloads: set<string>)
    requires forall p :: Counter(retries, p) < MAX_RETRIES
    ensures Attempts(retries, payloads) <= 2 * |payloads|
  {
    if payloads != {} {
      var p :| p in payloads;
      AttemptsRemove(retries, payloads, p);
      AttemptsBounded(retries, payloads - {p});
    }
  }

  /** Runs left in the worst case: three per queued job, less the attempts
      already spent on the payloads that are queued. */
  ghost function RunsLeft(s: State): int {
    3 * |s.queue| - Attempts(s.retries, Elements(s.queue))
  }

  lemma RunsLeftBounds(s: State)
    requires forall p :: Counter(s.retries, p) < MAX_RETRIES
    ensures |s.queue| <= RunsLeft(s)
    ensures (forall p :: Counter(s.retries, p) == 0) ==> RunsLeft(s) == 3 * |s.queue|
    ensures s.queue == [] ==> RunsLeft(s) == 0
  {
    AttemptsBounded(s.retries, Elements(s.queue));
    ElementsSize(s.queue);
    if forall p :: Counter(s.retries, p) == 0 {
      AttemptsSame(s.retries, map[], Elements(s.queue));
      NoAttempts(Elements(s.queue));
    }
  }

  lemma {:induction false} NoAttempts(payloads: set<string>)
    ensures Attempts(map[], payloads) == 0
  {
    if payloads != {} {
      var p :| p in payloads;
      AttemptsRemove(map[], payloads, p);
      NoAttempts(payloads - {p});
    }
  }

  /** Each run uses up at least one of the runs left, and a failing run exactly one. */
  lemma RunOneProgress(s: State, outcome: Outcome)
    requires s.queue != [] && forall p :: Counter(s.retries, p) < MAX_RETRIES
    ensures RunsLeft(RunOne(s, outcome)) <= RunsLeft(s) - 1
    ensures outcome == Failed ==> RunsLeft(RunOne(s, outcome)) == RunsLeft(s) - 1
  {
    var s' := RunOne(s, outcome);
    var (p, rest) := Pop(s.queue);
    var before, others := Elements(s.queue), Elements(s.queue) - {p};
    assert s.queue == rest + [p];
    assert forall q :: q in s.queue <==> q in rest || q == p;
    AttemptsRemove(s.retries, before, p);
    AttemptsSame(s.retries, s'.retries, others);
    if p in s'.queue {
      assert Elements(s'.queue) == before;
      AttemptsRemove(s'.retries, before, p);
    } else {
      assert Elements(s'.queue) == others;
    }
    assert Counter(s.retries, p) < MAX_RETRIES;
  }

  /** The payloads of dead-letter rows. */
  function Payloads(dlq: seq<DlqRow>): multiset<string> {
    if dlq == [] then multiset{}
    else Payloads(dlq[..|dlq| - 1]) + multiset{dlq[|dlq| - 1].payload}
  }

  lemma {:induction false} PayloadsAppend(dlq: seq<DlqRow>, row: DlqRow)
    ensures Payloads(dlq + [row]) == Payloads(dlq) + multiset{row.payload}
  {
    assert (dlq + [row])[..|dlq|] == dlq;
  }

  lemma FrontOrBack(rest: seq<string>, p: string)
    ensures multiset([p] + rest) == multiset(rest + [p]) == multiset(rest) + multiset{p}
  {
  }

  /** A failing run keeps the job: it stays queued or moves to the table. */
  lemma FailureKeepsJobs(s: State)
    requires s.queue != []
    ensures var s' := RunOne(s, Failed);
            multiset(s'.queue) + Payloads(s'.dlq) == multiset(s.queue) + Payloads(s.dlq)
  {
    hide Payloads;
    var (p, rest) := Pop(s.queue);
    var attempts := Counter(s.retries, p) + 1;
    assert s.queue == rest + [p];
    FrontOrBack(rest, p);
    PayloadsAppend(s.dlq, DlqRow(p, attempts));
    MoveOne(multiset(rest), p, Payloads(s.dlq));
  }

  lemma MoveOne(a: multiset<string>, p: string, b: multiset<string>)
    ensures (a + multiset{p}) + b == a + (b + multiset{p})
  {
  }

  class Consumer {
    var queue: seq<string>
    var retries: map<string, nat>
    var dlq: seq<DlqRow>
    ghost var history: seq<(string, Outcome)>

    ghost function Now(): State
      reads this
    {
      State(queue, retries, dlq)
    }

    ghost predicate Valid()
      reads this
    {
      Consistent(Now(), history)
    }

    constructor ()
      ensures Valid() && Now() == State([], map[], []) && history == []
    {
      queue, retries, dlq, history := [], map[], [], [];
    }

    method Push(payload: string)
      requires Valid()
      modifies this
      ensures Valid() && Now() == old(Now()).(queue := [payload] + old(queue)) && history == old(history)
    {
      queue := [payload] + queue;
    }

    /** `brpop`, the job, and the bookkeeping of its outcome. */
    method ProcessNext(outcome: Outcome)
      requires Valid() && queue != []
      modifies this
      ensures Valid() && Now() == RunOne(old(Now()), outcome)
      ensures history == old(history) + [(Pop(old(queue)).0, outcome)]
    {
      hide Consistent;
      RunOneConsistent(Now(), history, outcome);
      history := history + [(Pop(queue).0, outcome)];
      var payload;
      payload, queue := queue[|queue| - 1], queue[..|queue| - 1];
      match outcome {
        case Succeeded =>
          retries := retries - {payload};
        case Skipped =>
        case Failed =>
          var attempts := Counter(retries, payload) + 1;
          retries := retries[payload := attempts];
          if attempts < MAX_RETRIES {
            queue := [payload] + queue;
          } else {
            dlq := dlq + [DlqRow(payload, attempts)];
            retries := retries - {payload};
          }
      }
      assert retries == RunOne(old(Now()), outcome).retries;
    }

    /** The worker loop until the queue is empty.  It always drains within
        `RunsLeft` runs; when every run fails it takes exactly that many (three
        per job from zero counters) and every job ends in the dead-letter table. */
    method Drain(outcomes: nat -> Outcome) returns (runs: nat)
      requires Valid()
      modifies this
      ensures Valid() && queue == []
      ensures runs <= old(RunsLeft(Now()))
      ensures (forall k: nat :: k < runs ==> outcomes(k) == Failed) ==>
                && runs == old(RunsLeft(Now()))
                && Payloads(dlq) == old(Payloads(dlq)) + multiset(old(queue))
    {
      hide RunsLeft, Payloads, Attempts, RunOne, FailStreak;
      runs := 0;
      RunsLeftBounds(Now());
      while queue != []
        invariant Valid()
        invariant runs + RunsLeft(Now()) <= old(RunsLeft(Now())) && |queue| <= RunsLeft(Now())
        invariant queue == [] ==> RunsLeft(Now()) == 0
        invariant (forall k: nat :: k < runs ==> outcomes(k) == Failed) ==>
                    && runs + RunsLeft(Now()) == old(RunsLeft(Now()))
                    && multiset(queue) + Payloads(dlq) == multiset(old(queue)) + old(Payloads(dlq))
        decreases RunsLeft(Now())
      {
        RunOneProgress(Now(), outcomes(runs));
        FailureKeepsJobs(Now());
        ProcessNext(outcomes(runs));
        runs := runs + 1;
        RunsLeftBounds(Now());
      }
      assert multiset(queue) + Payloads(dlq) == Payloads(dlq);
    }
  }
}
