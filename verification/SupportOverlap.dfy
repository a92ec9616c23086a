/** Overlapping calls on support sessions: a call reads the sessions when it begins
    and writes its changes when it commits, and no row is locked in between. */
module SupportOverlap {
  import opened SupportAccess
  import opened Text

  /** The sessions that a call adds or changes. */
  function Changes(hz: int, sessions: Sessions, op: Op): Sessions {
    var after := Apply(hz, sessions, op);
    map id | id in after && (id !in sessions || after[id] != sessions[id]) :: after[id]
  }

  /** The committed sessions, and what each open transaction will write. */
  datatype State = State(sessions: Sessions, open: map<nat, Sessions>)

  datatype Event = Begin(tx: nat, op: Op) | Commit(tx: nat) | Rollback(tx: nat)

  /** Ids of new sessions are never drawn twice. */
  predicate Drawn(s: State, op: Op) {
    op.CreateOp? && exists tx :: tx in s.open && op.id in s.open[tx]
  }

  /** One step; at most `limit` transactions are open at a time. */
  function Step(hz: int, limit: nat, s: State, e: Event): State {
    match e
    case Begin(tx, op) =>
      if tx in s.open || |s.open| >= limit || Drawn(s, op) then s
      else s.(open := s.open[tx := Changes(hz, s.sessions, op)])
    case Commit(tx) =>
      if tx in s.open then State(s.sessions + s.open[tx], s.open - {tx}) else s
    case Rollback(tx) =>
      s.(open := s.open - {tx})
  }

  /** A call that finds room reads the committed sessions; its commit writes what it
      changes over whatever is there by then; a rollback leaves nothing behind. */
  lemma StepExactly(hz: int, limit: nat, s: State, tx: nat, op: Op)
    ensures tx !in s.open && |s.open| < limit && !op.CreateOp? ==>
              Step(hz, limit, s, Begin(tx, op)) == s.(open := s.open[tx := Changes(hz, s.sessions, op)])
    ensures Step(hz, limit, s, Rollback(tx)) == State(s.sessions, s.open - {tx})
    ensures tx in s.open ==>
              var after := Step(hz, limit, s, Commit(tx));
              && after.open == s.open - {tx} && after.sessions.Keys == s.sessions.Keys + s.open[tx].Keys
              && forall id :: id in after.sessions ==>
                   after.sessions[id] == if id in s.open[tx] then s.open[tx][id] else s.sessions[id]
  {
    hide Changes;
  }

  function Run(hz: int, limit: nat, events: seq<Event>): State {
    if events == [] then State(map[], map[])
    else Step(hz, limit, Run(hz, limit, events[..|events| - 1]), events[|events| - 1])
  }

  // ------------------------------------------------- what every overlap keeps

  predicate SameTerms(a: Session, b: Session) {
    && a.actor == b.actor && a.org == b.org && a.reason == b.reason
    && a.createdAt == b.createdAt && a.expiresAt == b.expiresAt
  }

  /** A pending write to a committed session finishes it and keeps its terms. */
  ghost predicate Finishes(s: State, tx: nat, id: nat)
    requires tx in s.open && id in s.open[tx]
  {
    id in s.sessions ==> SameTerms(s.open[tx][id], s.sessions[id]) && s.open[tx][id].status != Active
  }

  ghost predicate AllFinish(s: State) {
    forall tx, id :: tx in s.open && id in s.open[tx] ==> Finishes(s, tx, id)
  }

  /** A session that is not committed yet is pending in one transaction only. */
  ghost predicate NewIdsApart(s: State) {
    forall t, u, id :: t in s.open && u in s.open && id in s.open[t] && id in s.open[u] && id !in s.sessions ==> t == u
  }

  ghost predicate PendingFits(s: State) {
    AllFinish(s) && NewIdsApart(s)
  }

  /** Terms are fixed, and a finished session stays finished. */
  ghost predicate StaysFinished(before: Sessions, after: Sessions) {
    forall id :: id in before ==>
      id in after && SameTerms(before[id], after[id]) && (before[id].status != Active ==> after[id].status != Active)
  }

  lemma ChangesFinish(hz: int, sessions: Sessions, op: Op)
    ensures var changes := Changes(hz, sessions, op);
            forall id :: id in changes ==>
              if id in sessions then SameTerms(changes[id], sessions[id]) && changes[id].status != Active
              else op.CreateOp? && id == op.id
  {
  }

  lemma BeginFits(s: State, tx: nat, op: Op, changes: Sessions)
    requires PendingFits(s) && tx !in s.open && !Drawn(s, op)
    requires forall id :: id in changes ==>
               if id in s.sessions then SameTerms(changes[id], s.sessions[id]) && changes[id].status != Active
               else op.CreateOp? && id == op.id
    ensures PendingFits(s.(open := s.open[tx := changes]))
  {
    hide SameTerms;
    var s' := s.(open := s.open[tx := changes]);
    forall t, id | t in s'.open && id in s'.open[t] ensures Finishes(s', t, id) {
      assert t != tx ==> Finishes(s, t, id);
    }
  }

  lemma CommitFits(s: State, tx: nat)
    requires PendingFits(s) && tx in s.open
    ensures PendingFits(State(s.sessions + s.open[tx], s.open - {tx}))
    ensures StaysFinished(s.sessions, s.sessions + s.open[tx])
  {
    var s' := State(s.sessions + s.open[tx], s.open - {tx});
    forall t, id | t in s'.open && id in s'.open[t] ensures Finishes(s', t, id) {
      assert Finishes(s, t, id);
      if id in s.open[tx] {
        assert Finishes(s, tx, id);
      }
    }
    forall id | id in s.sessions && id in s.open[tx]
      ensures SameTerms(s.open[tx][id], s.sessions[id]) && s.open[tx][id].status != Active
    {
      assert Finishes(s, tx, id);
    }
  }

  lemma RollbackFits(s: State, tx: nat)
    requires PendingFits(s)
    ensures PendingFits(s.(open := s.open - {tx}))
  {
    hide SameTerms;
    var s' := s.(open := s.open - {tx});
    forall t, id | t in s'.open && id in s'.open[t] ensures Finishes(s', t, id) {
      assert Finishes(s, t, id);
    }
  }

  lemma StepStaysFinished(hz: int, limit: nat, s: State, e: Event)
    requires PendingFits(s)
    ensures PendingFits(Step(hz, limit, s, e))
    ensures StaysFinished(s.sessions, Step(hz, limit, s, e).sessions)
  {
    hide Changes, PendingFits, Drawn;
    match e
    case Begin(tx, op) =>
      if tx !in s.open && !Drawn(s, op) {
        ChangesFinish(hz, s.sessions, op);
        BeginFits(s, tx, op, Changes(hz, s.sessions, op));
      }
    case Commit(tx) =>
      if tx in s.open {
        CommitFits(s, tx);
      }
    case Rollback(tx) =>
      RollbackFits(s, tx);
  }

  /** However calls overlap: the terms of a session never change, and once it has
      ended or expired it is never active again, so it never resolves again. */
  lemma {:induction false} OverlapStaysFinished(hz: int, limit: nat, events: seq<Event>, e: Event)
    ensures PendingFits(Run(hz, limit, events))
    ensures StaysFinished(Run(hz, limit, events).sessions, Run(hz, limit, events + [e]).sessions)
  {
    hide Step, PendingFits, StaysFinished;
    assert (events + [e])[..|events|] == events;
    if events == [] {
      NothingPending();
    } else {
      var n := |events| - 1;
      OverlapStaysFinished(hz, limit, events[..n], events[n]);
      StepStaysFinished(hz, limit, Run(hz, limit, events[..n]), events[n]);
    }
    StepStaysFinished(hz, limit, Run(hz, limit, events), e);
  }

  lemma NothingPending()
    ensures PendingFits(State(map[], map[]))
  {
  }

  // ----------------------------------------------------------------- soundness

  /** Calls begin in the order of one clock that never goes back. */
  ghost predicate ClocksSorted(events: seq<Event>) {
    forall i, j :: 0 <= i < j < |events| && events[i].Begin? && events[j].Begin? ==>
             events[i].op.now <= events[j].op.now
  }

  ghost predicate SoundUntil(hz: int, s: State, clock: int) {
    && AllSound(hz, s.sessions) && CreatedBy(s.sessions, clock)
    && (forall tx :: tx in s.open ==> AllSound(hz, s.open[tx]) && CreatedBy(s.open[tx], clock))
  }

  ghost predicate CreatedBy(sessions: Sessions, clock: int) {
    forall id :: id in sessions ==> sessions[id].createdAt <= clock
  }

  lemma StepSoundUntil(hz: int, limit: nat, s: State, e: Event, clock: int)
    requires hz > 0 && SoundUntil(hz, s, clock) && (e.Begin? ==> clock <= e.op.now)
    ensures SoundUntil(hz, Step(hz, limit, s, e), if e.Begin? then e.op.now else clock)
  {
    hide Sound, Apply;
    if e.Begin? {
      StepSound(hz, s.sessions, e.op);
    }
  }

  /** However calls overlap, every session is sound: `ended_at` is set exactly when
      it is not active, and it is open for at most 60 minutes. */
  lemma {:induction false} OverlapSound(hz: int, limit: nat, events: seq<Event>, clock: int)
    requires hz > 0 && ClocksSorted(events)
    requires forall e :: e in events && e.Begin? ==> e.op.now <= clock
    ensures SoundUntil(hz, Run(hz, limit, events), clock)
  {
    hide Step, AllSound;
    if events == [] {
      NoneSound(hz, clock);
    } else {
      var n := |events| - 1;
      var prior, e := events[..n], events[n];
      assert e in events && forall x :: x in prior ==> x in events;
      var before := if e.Begin? then e.op.now else clock;
      forall x | x in prior && x.Begin? ensures x.op.now <= before {
        var i :| 0 <= i < n && events[i] == x;
      }
      OverlapSound(hz, limit, prior, before);
      StepSoundUntil(hz, limit, Run(hz, limit, prior), e, before);
    }
  }

  lemma NoneSound(hz: int, clock: int)
    ensures SoundUntil(hz, State(map[], map[]), clock)
  {
  }

  // ------------------------------------------------------------------ finality

  /** A finished session keeps its status and its `ended_at`, in every run with at
      most `limit` open transactions. */
  ghost predicate Final(hz: int, limit: nat) {
    forall events, e :: Evolves(Run(hz, limit, events).sessions, Run(hz, limit, events + [e]).sessions)
  }

  ghost predicate IsChange(hz: int, s: State, tx: nat)
    requires tx in s.open
  {
    exists op :: s.open[tx] == Changes(hz, s.sessions, op)
  }

  /** At most one transaction is open, and nothing has changed since it read. */
  ghost predicate Alone(hz: int, s: State) {
    && (forall t, u :: t in s.open && u in s.open ==> t == u)
    && (forall tx :: tx in s.open ==> IsChange(hz, s, tx))
  }

  lemma CommitIsApply(hz: int, sessions: Sessions, op: Op)
    ensures sessions + Changes(hz, sessions, op) == Apply(hz, sessions, op)
  {
    StepEvolves(hz, sessions, op);
  }

  lemma StepAlone(hz: int, limit: nat, s: State, e: Event)
    requires limit <= 1 && Alone(hz, s)
    ensures Alone(hz, Step(hz, limit, s, e)) && Evolves(s.sessions, Step(hz, limit, s, e).sessions)
  {
    hide Changes, Apply, Evolved;
    SameEvolves(s.sessions);
    var s' := Step(hz, limit, s, e);
    match e
    case Begin(tx, op) =>
      if s' != s {
        assert s.open.Keys == {};
        assert s'.open[tx] == Changes(hz, s'.sessions, op);
      }
    case Commit(tx) =>
      if tx in s.open {
        assert IsChange(hz, s, tx);
        var op :| s.open[tx] == Changes(hz, s.sessions, op);
        CommitIsApply(hz, s.sessions, op);
        StepEvolves(hz, s.sessions, op);
      }
    case Rollback(tx) =>
      forall t | t in s'.open ensures IsChange(hz, s', t) {
        assert IsChange(hz, s, t);
      }
  }

  lemma {:induction false} RunAlone(hz: int, limit: nat, events: seq<Event>)
    requires limit <= 1
    ensures Alone(hz, Run(hz, limit, events))
  {
    hide Step;
    if events != [] {
      RunAlone(hz, limit, events[..|events| - 1]);
      StepAlone(hz, limit, Run(hz, limit, events[..|events| - 1]), events[|events| - 1]);
    }
  }

  /** One call reads session 7 while it is active, and ends it after another has
      found it stale and committed its expiry. */
  function LateEnd(hz: int): seq<Event> {
    [Begin(0, CreateOp(7, 1, 1, "incident", 1, 0)), Commit(0),
     Begin(1, EndOp(7, 1, false)), Begin(2, ListOp(Minutes(hz, 1))), Commit(2)]
  }

  lemma RunStep(hz: int, limit: nat, events: seq<Event>, e: Event)
    ensures Run(hz, limit, events + [e]) == Step(hz, limit, Run(hz, limit, events), e)
  {
    hide Step;
    assert (events + [e])[..|events|] == events;
  }

  lemma LateEndOverwrites(hz: int, limit: nat)
    requires hz > 0 && limit >= 2
    ensures !Evolves(Run(hz, limit, LateEnd(hz)).sessions, Run(hz, limit, LateEnd(hz) + [Commit(1)]).sessions)
  {
    hide Run, Step, Evolves;
    var e, new7 := LateEnd(hz), Session(1, 1, "incident", Active, 0, Minutes(hz, 1), None);
    var ended := new7.(status := Ended, endedAt := Some(1));
    var expired := new7.(status := Expired, endedAt := Some(Minutes(hz, 1)));
    OneMinute(hz);
    EmptyRun(hz, limit);
    RunStep(hz, limit, [], e[0]);
    RunStep(hz, limit, e[..1], e[1]);
    RunStep(hz, limit, e[..2], e[2]);
    RunStep(hz, limit, e[..3], e[3]);
    RunStep(hz, limit, e[..4], e[4]);
    assert [] + [e[0]] == e[..1] && e[..1] + [e[1]] == e[..2] && e[..2] + [e[2]] == e[..3];
    assert e[..3] + [e[3]] == e[..4] && e[..4] + [e[4]] == e;
    CreateSeven(hz, limit);
    assert Run(hz, limit, e[..2]) == State(map[7 := new7], map[]);
    EndAndExpire(hz, limit, new7);
    assert Run(hz, limit, e) == State(map[7 := expired], map[1 := map[7 := ended]]);
    RunStep(hz, limit, e, Commit(1));
    CommitOverwrites(hz, limit, expired, ended);
  }

  lemma OneMinute(hz: int)
    requires hz > 0
    ensures Minutes(hz, 1) > 1
  {
  }

  lemma EmptyRun(hz: int, limit: nat)
    ensures Run(hz, limit, []) == State(map[], map[])
  {
  }

  lemma CreateSeven(hz: int, limit: nat)
    requires limit >= 2
    ensures var s := Step(hz, limit, State(map[], map[]), Begin(0, CreateOp(7, 1, 1, "incident", 1, 0)));
            Step(hz, limit, s, Commit(0))
              == State(map[7 := Session(1, 1, "incident", Active, 0, Minutes(hz, 1), None)], map[])
  {
    hide Minutes;
    var op, new7 := CreateOp(7, 1, 1, "incident", 1, 0), Session(1, 1, "incident", Active, 0, Minutes(hz, 1), None);
    assert Apply(hz, map[], op) == map[7 := new7];
    assert Changes(hz, map[], op) == map[7 := new7];
    var s := Step(hz, limit, State(map[], map[]), Begin(0, op));
    assert s == State(map[], map[0 := map[7 := new7]]) by {
      hide Changes;
    }
  }

  lemma EndAndExpire(hz: int, limit: nat, s7: Session)
    requires limit >= 2 && Minutes(hz, 1) > 1
    requires s7.status == Active && s7.expiresAt == Minutes(hz, 1) && s7.endedAt == None
    ensures var read := Step(hz, limit, State(map[7 := s7], map[]), Begin(1, EndOp(7, 1, false)));
            var both := Step(hz, limit, read, Begin(2, ListOp(Minutes(hz, 1))));
            Step(hz, limit, both, Commit(2))
            == State(map[7 := s7.(status := Expired, endedAt := Some(Minutes(hz, 1)))],
                     map[1 := map[7 := s7.(status := Ended, endedAt := Some(1))]])
  {
    hide Minutes;
    var ended := s7.(status := Ended, endedAt := Some(1));
    var expired := s7.(status := Expired, endedAt := Some(Minutes(hz, 1)));
    assert Changes(hz, map[7 := s7], EndOp(7, 1, false)) == map[7 := ended];
    assert Changes(hz, map[7 := s7], ListOp(Minutes(hz, 1))) == map[7 := expired];
    var read := Step(hz, limit, State(map[7 := s7], map[]), Begin(1, EndOp(7, 1, false)));
    assert read == State(map[7 := s7], map[1 := map[7 := ended]]);
  }

  lemma CommitOverwrites(hz: int, limit: nat, expired: Session, ended: Session)
    requires expired.status == Expired && ended.status == Ended
    ensures var s := State(map[7 := expired], map[1 := map[7 := ended]]);
            !Evolves(s.sessions, Step(hz, limit, s, Commit(1)).sessions)
  {
    var s := State(map[7 := expired], map[1 := map[7 := ended]]);
    var after := Step(hz, limit, s, Commit(1)).sessions;
    assert after[7] == ended && s.sessions[7] == expired;
    assert !Evolved(s.sessions[7], after[7]);
  }

  /** Status and `ended_at` of a finished session are final in every run exactly
      when at most one transaction is open at a time. */
  lemma FinalityExactly(hz: int, limit: nat)
    requires hz > 0
    ensures Final(hz, limit) <==> limit <= 1
  {
    hide Run, Step, Evolves;
    if limit <= 1 {
      forall events, e ensures Evolves(Run(hz, limit, events).sessions, Run(hz, limit, events + [e]).sessions) {
        RunAlone(hz, limit, events);
        RunStep(hz, limit, events, e);
        StepAlone(hz, limit, Run(hz, limit, events), e);
      }
    } else {
      LateEndOverwrites(hz, limit);
    }
  }
}
