/** Idempotency keys: the get / set-nx / get / compare / get protocol that any
    number of clients run on one scope key, one Redis command at a time. */
module Idempotency {
  import opened Expiry
  import opened Text

  datatype Envelope = Envelope(statusCode: int, payload: string)

  /** The two keys of one scope: `<scope>:req` and `<scope>:resp`. */
  datatype Store = Store(req: Option<Cell<string>>, resp: Option<Cell<Envelope>>)

  datatype Answer = New | Conflict | Replay(envelope: Envelope) | InProgress

  /** Where a client stands in `prepare_request`: each phase but Done is about to
      issue one Redis command. */
  datatype Phase = Start | Claiming | Rereading | Fetching | Done(answer: Answer)

  /** The local comparison after a GET of the request key. */
  function Compared(existing: Option<string>, fp: string): Phase {
    if existing == Some(fp) then Fetching else Done(Conflict)
  }

  /** One command of `prepare_request`. */
  function Command(ttl: int, store: Store, fp: string, phase: Phase, now: int): (Store, Phase) {
    match phase
    case Start =>
      var existing := Read(store.req, now);
      (store, if existing == None then Claiming else Compared(existing, fp))
    case Claiming =>
      if Read(store.req, now) == None then (store.(req := Some(Cell(fp, now + ttl))), Done(New))
      else (store, Rereading)
    case Rereading =>
      (store, Compared(Read(store.req, now), fp))
    case Fetching =>
      var cached := Read(store.resp, now);
      (store, Done(if cached.Some? then Replay(cached.value) else InProgress))
    case Done(_) =>
      (store, phase)
  }

  /** `store_response`: server errors are not cached. */
  function StoreResponse(ttl: int, store: Store, envelope: Envelope, now: int): Store {
    if envelope.statusCode >= 500 then store
    else store.(resp := Some(Cell(envelope, now + ttl)))
  }

  // -------------------------------------------- one client among interfering ones

  function CommandsLeft(phase: Phase): nat {
    match phase
    case Start => 4
    case Claiming => 3
    case Rereading => 2
    case Fetching => 1
    case Done(_) => 0
  }

  /** The client's remaining commands; before command k the other clients change
      the store by `others(k, _)`, and the command runs at time `clock(k)`. */
  function Finish(ttl: int, store: Store, fp: string, phase: Phase, clock: nat -> int, others: (nat, Store) -> Store,
                  k: nat)
    : (Store, Phase)
    decreases CommandsLeft(phase)
  {
    if phase.Done? then (store, phase)
    else
      var (store', phase') := Command(ttl, others(k, store), fp, phase, clock(k));
      Finish(ttl, store', fp, phase', clock, others, k + 1)
  }

  class Connection {
    var store: Store

    constructor ()
      ensures store == Store(None, None)
    {
      store := Store(None, None);
    }

    /** `prepare_request` as written, under arbitrary interference, runs the
        client program of the state machine below. */
    method PrepareRequest(fp: string, ttl: int, clock: nat -> int, others: (nat, Store) -> Store)
      returns (answer: Answer)
      modifies this
      ensures (store, Done(answer)) == Finish(ttl, old(store), fp, Start, clock, others, 0)
    {
      var k := 0;
      store := others(k, store);
      var existing := Read(store.req, clock(k));
      k := k + 1;
      if existing == None {
        store := others(k, store);
        var locked := Read(store.req, clock(k)) == None;
        if locked {
          store := store.(req := Some(Cell(fp, clock(k) + ttl)));
          return New;
        }
        k := k + 1;
        store := others(k, store);
        existing := Read(store.req, clock(k));
        k := k + 1;
      }
      if existing != Some(fp) {
        return Conflict;
      }
      store := others(k, store);
      var cached := Read(store.resp, clock(k));
      if cached.Some? {
        return Replay(cached.value);
      }
      return InProgress;
    }

    /** `store_response`: a plain SET, which replaces whatever is there. */
    method CacheResponse(envelope: Envelope, ttl: int, now: int)
      modifies this
      ensures store == StoreResponse(ttl, old(store), envelope, now)
      ensures store.req == old(store).req
      ensures store.resp == if envelope.statusCode >= 500 then old(store).resp else Some(Cell(envelope, now + ttl))
    {
      if envelope.statusCode >= 500 {
        return;
      }
      store := store.(resp := Some(Cell(envelope, now + ttl)));
    }
  }

  // -------------------------------------------------- any number of clients

  /** A client; `wonAt` is set when it got `new`, `wrote` when it cached its
      response, `responded` once it has called `store_response`. */
  datatype Client = Client(fp: string, phase: Phase, wonAt: Option<int>, responded: bool, wrote: Option<Envelope>)

  datatype State = State(store: Store, clients: map<nat, Client>)

  datatype Event =
    | Arrive(id: nat, fp: string)
    | Advance(id: nat, now: int)
    | Respond(id: nat, now: int, envelope: Envelope)

  /** One atomic step.  Only the client that got `new` responds, and once. */
  function Step(ttl: int, s: State, e: Event): State {
    match e
    case Arrive(id, fp) =>
      if id in s.clients then s
      else s.(clients := s.clients[id := Client(fp, Start, None, false, None)])
    case Advance(id, now) =>
      if id !in s.clients then s
      else
        var c := s.clients[id];
        var (store', phase') := Command(ttl, s.store, c.fp, c.phase, now);
        var won := if c.phase == Claiming && phase' == Done(New) then Some(now) else c.wonAt;
        State(store', s.clients[id := c.(phase := phase', wonAt := won)])
    case Respond(id, now, envelope) =>
      if id !in s.clients || s.clients[id].phase != Done(New) || s.clients[id].responded then s
      else
        var wrote := if envelope.statusCode >= 500 then None else Some(envelope);
        State(StoreResponse(ttl, s.store, envelope, now),
              s.clients[id := s.clients[id].(responded := true, wrote := wrote)])
  }

  function Run(ttl: int, events: seq<Event>): State {
    if events == [] then State(Store(None, None), map[])
    else Step(ttl, Run(ttl, events[..|events| - 1]), events[|events| - 1])
  }

  // ------------------------------------------------------- safety inside one TTL

  /** Every command of the run is issued at a time in [t0, t0 + horizon). */
  ghost predicate Within(events: seq<Event>, t0: int, horizon: int) {
    forall e :: e in events && !e.Arrive? ==> t0 <= e.now < t0 + horizon
  }

  /** What every client may have been told, given the winner w. */
  ghost predicate AnswersAgree(s: State, w: nat) {
    && w in s.clients && s.clients[w].phase == Done(New)
    && (forall i :: i in s.clients ==> AnswerAgrees(s.clients[i], i, w, s.clients[w]))
  }

  ghost predicate AnswerAgrees(c: Client, i: nat, w: nat, winner: Client) {
    && (i != w ==> c.wrote == None)
    && match c.phase
       case Done(New) => i == w
       case Done(Conflict) => c.fp != winner.fp
       case Done(InProgress) => i != w && c.fp == winner.fp
       case Done(Replay(e)) => i != w && c.fp == winner.fp && winner.wrote == Some(e) && e.statusCode < 500
       case Fetching => i != w && c.fp == winner.fp
       case _ => i != w
  }

  ghost predicate NobodyAnswered(s: State) {
    forall i :: i in s.clients ==> s.clients[i].phase in {Start, Claiming} && s.clients[i].wrote == None
  }

  /** The stored record is the winner's, and outlives the horizon. */
  ghost predicate StoreAgrees(s: State, w: nat, until: int)
    requires w in s.clients
  {
    && s.store.req.Some? && s.store.req.value.value == s.clients[w].fp && s.store.req.value.expireAt >= until
    && (s.clients[w].wrote.Some? ==> s.clients[w].responded && s.store.resp.Some?)
    && (s.store.resp.Some? ==>
          && s.store.resp.value.expireAt >= until
          && s.clients[w].wrote == Some(s.store.resp.value.value)
          && s.store.resp.value.value.statusCode < 500)
  }

  ghost predicate Settled(s: State, w: nat, until: int) {
    AnswersAgree(s, w) && StoreAgrees(s, w, until)
  }

  ghost predicate SettledBySome(s: State, until: int) {
    exists w :: Settled(s, w, until)
  }

  ghost predicate Unclaimed(s: State) {
    s.store == Store(None, None) && NobodyAnswered(s)
  }

  lemma StepUnclaimed(ttl: int, s: State, e: Event, until: int)
    requires Unclaimed(s) && (!e.Arrive? ==> until <= e.now + ttl)
    ensures var s' := Step(ttl, s, e);
            Unclaimed(s') || (e.Advance? && Settled(s', e.id, until))
  {
  }

  lemma StepSettled(ttl: int, s: State, e: Event, w: nat, until: int)
    requires Settled(s, w, until) && (!e.Arrive? ==> e.now < until <= e.now + ttl)
    ensures Settled(Step(ttl, s, e), w, until)
  {
    var s' := Step(ttl, s, e);
    if !e.Arrive? && e.id in s.clients {
      assert AnswerAgrees(s.clients[e.id], e.id, w, s.clients[w]);
    }
    forall i | i in s'.clients ensures AnswerAgrees(s'.clients[i], i, w, s'.clients[w]) {
      assert i in s.clients ==> AnswerAgrees(s.clients[i], i, w, s.clients[w]);
    }
  }

  /** Inside one TTL, in every interleaving of any number of clients: at most one
      client gets `new`; a client that gets `conflict` has another fingerprint;
      `in_progress` and `replay` go only to clients with the winner's
      fingerprint; and every replay is exactly the envelope the winner stored,
      never one with status 500 or above. */
  lemma {:induction false} SafeWithinTtl(ttl: int, events: seq<Event>, t0: int, horizon: int)
    requires horizon <= ttl && Within(events, t0, horizon)
    ensures Unclaimed(Run(ttl, events)) || SettledBySome(Run(ttl, events), t0 + horizon)
  {
    hide Step;
    if events != [] {
      var prior, e := events[..|events| - 1], events[|events| - 1];
      assert e in events && forall x :: x in prior ==> x in events;
      SafeWithinTtl(ttl, prior, t0, horizon);
      var s := Run(ttl, prior);
      if Unclaimed(s) {
        StepUnclaimed(ttl, s, e, t0 + horizon);
        assert Unclaimed(Step(ttl, s, e)) || Settled(Step(ttl, s, e), e.id, t0 + horizon);
      } else {
        var w :| Settled(s, w, t0 + horizon);
        StepSettled(ttl, s, e, w, t0 + horizon);
      }
    }
  }

  // ------------------------------------------------------ what a retry is told

  /** The answer to an identical request, given what the winner has cached. */
  function RetryAnswer(wrote: Option<Envelope>): Answer {
    match wrote
    case Some(e) => Replay(e)
    case None => InProgress
  }

  predicate IsWinner(s: State, w: nat) {
    w in s.clients && s.clients[w].phase == Done(New)
  }

  lemma TheWinner(s: State, w: nat, u: nat, until: int)
    requires Settled(s, w, until) && IsWinner(s, u)
    ensures u == w
  {
    assert AnswerAgrees(s.clients[u], u, w, s.clients[w]);
  }

  /** Inside one TTL, in every interleaving: a client that fetches the cached
      response is replayed exactly what the winner has cached by then, and is told
      `in_progress` exactly when the winner has cached nothing: it is still at
      work, it raised, or it answered with status 500 or above. */
  lemma FetchExactly(ttl: int, events: seq<Event>, t0: int, horizon: int, w: nat, i: nat, now: int)
    requires horizon <= ttl && Within(events, t0, horizon) && now < t0 + horizon
    requires var s := Run(ttl, events); IsWinner(s, w) && i in s.clients && s.clients[i].phase == Fetching
    ensures var s := Run(ttl, events);
            Step(ttl, s, Advance(i, now)).clients[i].phase == Done(RetryAnswer(s.clients[w].wrote))
  {
    hide Run;
    SafeWithinTtl(ttl, events, t0, horizon);
    var s := Run(ttl, events);
    var u :| Settled(s, u, t0 + horizon);
    TheWinner(s, u, w, t0 + horizon);
  }

  /** The first command of an identical request leads to the fetch. */
  lemma IdenticalReadsOn(ttl: int, s: State, w: nat, until: int, i: nat, now: int)
    requires Settled(s, w, until) && now < until
    requires i in s.clients && s.clients[i].phase == Start && s.clients[i].fp == s.clients[w].fp
    ensures var s' := Step(ttl, s, Advance(i, now)); i in s'.clients && s'.clients[i].phase == Fetching
  {
  }

  predicate Moves(e: Event, i: nat) {
    !e.Arrive? && e.id == i
  }

  lemma {:induction false} OthersKeepClient(ttl: int, events: seq<Event>, more: seq<Event>, i: nat)
    requires i in Run(ttl, events).clients && forall e :: e in more ==> !Moves(e, i)
    ensures var s' := Run(ttl, events + more); i in s'.clients && s'.clients[i] == Run(ttl, events).clients[i]
  {
    if more == [] {
      assert events + more == events;
    } else {
      var n := |more| - 1;
      assert more[n] in more && forall e :: e in more[..n] ==> e in more;
      OthersKeepClient(ttl, events, more[..n], i);
      assert events + more == events + more[..n] + [more[n]];
      RunAppend(ttl, events + more[..n], more[n]);
    }
  }

  lemma RunAppend(ttl: int, events: seq<Event>, e: Event)
    ensures Run(ttl, events + [e]) == Step(ttl, Run(ttl, events), e)
  {
    hide Step;
    assert (events + [e])[..|events|] == events;
  }

  lemma {:induction false} WinnerStays(ttl: int, events: seq<Event>, more: seq<Event>, w: nat)
    requires IsWinner(Run(ttl, events), w)
    ensures var s' := Run(ttl, events + more); IsWinner(s', w) && s'.clients[w].fp == Run(ttl, events).clients[w].fp
  {
    if more == [] {
      assert events + more == events;
    } else {
      var n := |more| - 1;
      WinnerStays(ttl, events, more[..n], w);
      assert events + more == events + more[..n] + [more[n]];
      RunAppend(ttl, events + more[..n], more[n]);
    }
  }

  /** A retry of the winner's request, with any other clients at work between its
      two commands, gets the winner's response exactly when it is cached by the
      second one, and `in_progress` otherwise. */
  lemma RetryExactly(ttl: int, before: seq<Event>, between: seq<Event>, t0: int, horizon: int, w: nat, i: nat,
                     t1: int, t2: int)
    requires horizon <= ttl && Within(before + [Advance(i, t1)] + between + [Advance(i, t2)], t0, horizon)
    requires var s := Run(ttl, before);
             IsWinner(s, w) && i in s.clients && s.clients[i].phase == Start && s.clients[i].fp == s.clients[w].fp
    requires forall e :: e in between ==> !Moves(e, i)
    ensures var events := before + [Advance(i, t1)] + between;
            && IsWinner(Run(ttl, events), w)
            && i in Run(ttl, events + [Advance(i, t2)]).clients
            && Run(ttl, events + [Advance(i, t2)]).clients[i].phase
                 == Done(RetryAnswer(Run(ttl, events).clients[w].wrote))
  {
    hide Run, Step, Settled;
    var first, last := Advance(i, t1), Advance(i, t2);
    var started, events := before + [first], before + [first] + between;
    assert forall e :: e in before || e == first || e in between || e == last ==> e in events + [last];
    SafeWithinTtl(ttl, before, t0, horizon);
    var s := Run(ttl, before);
    assert SettledBySome(s, t0 + horizon) by {
      assert !Unclaimed(s);
    }
    var u :| Settled(s, u, t0 + horizon);
    TheWinner(s, u, w, t0 + horizon);
    IdenticalReadsOn(ttl, s, w, t0 + horizon, i, t1);
    RunAppend(ttl, before, first);
    OthersKeepClient(ttl, started, between, i);
    WinnerStays(ttl, before, [first] + between, w);
    assert before + ([first] + between) == events;
    FetchExactly(ttl, events, t0, horizon, w, i, t2);
    RunAppend(ttl, events, last);
    AdvanceKeepsClient(ttl, Run(ttl, events), i, t2);
  }

  lemma AdvanceKeepsClient(ttl: int, s: State, i: nat, now: int)
    requires i in s.clients
    ensures i in Step(ttl, s, Advance(i, now)).clients
  {
  }

  // ------------------------------------------------------------ over all time

  predicate MayRespond(s: State, id: nat) {
    id in s.clients && s.clients[id].phase == Done(New) && !s.clients[id].responded
  }

  /** The response cached last: the latest one below status 500 that a client
      that got `new` gave, with the expiry it was given. */
  function LastResponse(ttl: int, events: seq<Event>): Option<Cell<Envelope>> {
    if events == [] then None
    else
      var prior, e := events[..|events| - 1], events[|events| - 1];
      if e.Respond? && MayRespond(Run(ttl, prior), e.id) && e.envelope.statusCode < 500 then
        Some(Cell(e.envelope, e.now + ttl))
      else LastResponse(ttl, prior)
  }

  /** The fingerprint claimed last: the latest one of a client about to claim at a
      time when the claim before had run out. */
  function LastClaim(ttl: int, events: seq<Event>): Option<Cell<string>> {
    if events == [] then None
    else
      var prior, e := events[..|events| - 1], events[|events| - 1];
      var s, last := Run(ttl, prior), LastClaim(ttl, prior);
      if e.Advance? && e.id in s.clients && s.clients[e.id].phase == Claiming
         && (last == None || last.value.expireAt <= e.now) then
        Some(Cell(s.clients[e.id].fp, e.now + ttl))
      else last
  }

  /** Over every run the two keys hold the last claim and the last response. */
  lemma {:induction false} KeysHoldLast(ttl: int, events: seq<Event>)
    ensures Run(ttl, events).store == Store(LastClaim(ttl, events), LastResponse(ttl, events))
  {
    if events != [] {
      KeysHoldLast(ttl, events[..|events| - 1]);
    }
  }

  /** Over every run, what each command tells a client, from the last claim and the
      last response alone. */
  lemma AnswerExactly(ttl: int, events: seq<Event>, i: nat, now: int)
    requires i in Run(ttl, events).clients
    ensures var c := Run(ttl, events).clients[i];
            var claim, response := Read(LastClaim(ttl, events), now), Read(LastResponse(ttl, events), now);
            Run(ttl, events + [Advance(i, now)]).clients[i].phase
            == match c.phase
               case Start => if claim == None then Claiming else if claim == Some(c.fp) then Fetching
                   else Done(Conflict)
               case Claiming => if claim == None then Done(New) else Rereading
               case Rereading => if claim == Some(c.fp) then Fetching else Done(Conflict)
               case Fetching => Done(if response.Some? then Replay(response.value) else InProgress)
               case Done(answer) => Done(answer)
  {
    hide Run, LastClaim, LastResponse;
    KeysHoldLast(ttl, events);
    RunAppend(ttl, events, Advance(i, now));
  }

  /** Any two `new` answers lie at least one TTL apart. */
  ghost predicate WinsApart(ttl: int, s: State) {
    && (forall i :: i in s.clients ==> WinRecorded(ttl, s.clients[i], s.store))
    && (forall i, j :: i in s.clients && j in s.clients && i != j ==>
          Apart(ttl, s.clients[i].wonAt, s.clients[j].wonAt))
  }

  /** A client has a win time exactly when it got `new`, and the request key
      stays live for a full TTL after it. */
  ghost predicate WinRecorded(ttl: int, c: Client, store: Store) {
    && (c.wonAt.Some? <==> c.phase == Done(New))
    && (c.wonAt.Some? ==> store.req.Some? && c.wonAt.value + ttl <= store.req.value.expireAt)
  }

  ghost predicate Apart(ttl: int, a: Option<int>, b: Option<int>) {
    a.Some? && b.Some? ==> a.value + ttl <= b.value || b.value + ttl <= a.value
  }

  lemma StepWinsApart(ttl: int, s: State, e: Event)
    requires 0 < ttl && WinsApart(ttl, s)
    ensures WinsApart(ttl, Step(ttl, s, e))
  {
    var s' := Step(ttl, s, e);
    forall i | i in s'.clients ensures WinRecorded(ttl, s'.clients[i], s'.store) {
      assert i in s.clients ==> WinRecorded(ttl, s.clients[i], s.store);
    }
    forall i, j | i in s'.clients && j in s'.clients && i != j
      ensures Apart(ttl, s'.clients[i].wonAt, s'.clients[j].wonAt)
    {
      if i in s.clients && j in s.clients {
        assert Apart(ttl, s.clients[i].wonAt, s.clients[j].wonAt);
        assert WinRecorded(ttl, s.clients[i], s.store) && WinRecorded(ttl, s.clients[j], s.store);
      }
    }
  }

  lemma {:induction false} NewAnswersApart(ttl: int, events: seq<Event>)
    requires 0 < ttl
    ensures WinsApart(ttl, Run(ttl, events))
  {
    hide Step, WinsApart;
    if events == [] {
      NoWins(ttl);
    } else {
      NewAnswersApart(ttl, events[..|events| - 1]);
      StepWinsApart(ttl, Run(ttl, events[..|events| - 1]), events[|events| - 1]);
    }
  }

  lemma NoWins(ttl: int)
    ensures WinsApart(ttl, Run(ttl, []))
  {
  }

  /** A replayed envelope was written by a client with the same fingerprint. */
  ghost predicate ReplaysMatch(s: State) {
    forall i :: i in s.clients && s.clients[i].phase.Done? && s.clients[i].phase.answer.Replay? ==>
      exists w :: w in s.clients && s.clients[w].fp == s.clients[i].fp
                  && s.clients[w].wrote == Some(s.clients[i].phase.answer.envelope)
  }

  /** Every run whose commands span at most `horizon` ticks replays only
      responses to the same request. */
  ghost predicate ReplaysMatchWithin(ttl: int, horizon: int) {
    forall events, t0 :: Within(events, t0, horizon) ==> ReplaysMatch(Run(ttl, events))
  }

  /** The response key is written after the request key with the same lifetime,
      so it outlives it: a run that reaches one tick past the TTL can replay the
      old response to a different request.  Replays match for every run exactly
      when the horizon stays inside the TTL. */
  lemma ReplayHorizonExactly(ttl: int, horizon: int)
    requires 0 < ttl
    ensures ReplaysMatchWithin(ttl, horizon) <==> horizon <= ttl
  {
    if horizon <= ttl {
      forall events, t0 | Within(events, t0, horizon) ensures ReplaysMatch(Run(ttl, events)) {
        hide Run;
        SafeWithinTtl(ttl, events, t0, horizon);
        var s := Run(ttl, events);
        if !Unclaimed(s) {
          var w :| Settled(s, w, t0 + horizon);
          forall i | i in s.clients && s.clients[i].phase.Done? && s.clients[i].phase.answer.Replay?
            ensures s.clients[w].fp == s.clients[i].fp && s.clients[w].wrote == Some(s.clients[i].phase.answer.envelope)
          {
            assert AnswerAgrees(s.clients[i], i, w, s.clients[w]);
          }
        }
      }
    } else {
      StaleReplay(ttl);
      assert Within(StaleRun(ttl), 0, horizon);
    }
  }

  /** Client 0 wins with fingerprint "a" and responds one tick later; when its
      request key expires client 1 wins with "b", and client 2, also "b", is
      handed client 0's response. */
  function StaleRun(ttl: int): seq<Event> {
    [Arrive(0, "a"), Advance(0, 0), Advance(0, 0), Respond(0, 1, FOR_A),
     Arrive(1, "b"), Advance(1, ttl), Advance(1, ttl),
     Arrive(2, "b"), Advance(2, ttl), Advance(2, ttl)]
  }

  lemma RunPrefix(ttl: int, events: seq<Event>, i: nat)
    requires i < |events|
    ensures Run(ttl, events[..i + 1]) == Step(ttl, Run(ttl, events[..i]), events[i])
  {
    hide Step;
    assert events[..i + 1][..i] == events[..i];
  }

  lemma StaleReplay(ttl: int)
    requires 0 < ttl
    ensures !ReplaysMatch(Run(ttl, StaleRun(ttl)))
  {
    hide Run, Step, ReplaysMatch;
    var e := StaleRun(ttl);
    assert Run(ttl, e[..0]) == State(Store(None, None), map[]) by {
      assert e[..0] == [];
      NoEvents(ttl);
    }
    forall i: nat | i < |e| ensures Run(ttl, e[..i + 1]) == Step(ttl, Run(ttl, e[..i]), e[i]) {
      RunPrefix(ttl, e, i);
    }
    var s0 := Run(ttl, e[..0]);
    var s4 := Step(ttl, Step(ttl, Step(ttl, Step(ttl, s0, e[0]), e[1]), e[2]), e[3]);
    FirstClientWins(ttl, s0);
    assert Run(ttl, e[..1]) == Step(ttl, s0, e[0]) && Run(ttl, e[..2]) == Step(ttl, Run(ttl, e[..1]), e[1]);
    assert Run(ttl, e[..3]) == Step(ttl, Run(ttl, e[..2]), e[2]) && Run(ttl, e[..4]) == s4;
    var s7 := Step(ttl, Step(ttl, Step(ttl, s4, e[4]), e[5]), e[6]);
    SecondClientWins(ttl, s4);
    assert Run(ttl, e[..5]) == Step(ttl, s4, e[4]) && Run(ttl, e[..6]) == Step(ttl, Run(ttl, e[..5]), e[5]);
    assert Run(ttl, e[..7]) == s7;
    ThirdClientMisled(ttl, s7);
    assert Run(ttl, e[..8]) == Step(ttl, s7, e[7]) && Run(ttl, e[..9]) == Step(ttl, Run(ttl, e[..8]), e[8]);
    assert Run(ttl, e[..10]) == Step(ttl, Run(ttl, e[..9]), e[9]) && e[..10] == e;
  }

  const FOR_A := Envelope(200, "for a")

  lemma FirstClientWins(ttl: int, s: State)
    requires 0 < ttl && s == State(Store(None, None), map[])
    ensures Step(ttl, Step(ttl, Step(ttl, Step(ttl, s, Arrive(0, "a")), Advance(0, 0)), Advance(0, 0)),
                 Respond(0, 1, FOR_A))
         == State(Store(Some(Cell("a", ttl)), Some(Cell(FOR_A, 1 + ttl))),
                  map[0 := Client("a", Done(New), Some(0), true, Some(FOR_A))])
  {
  }

  lemma SecondClientWins(ttl: int, s: State)
    requires 0 < ttl && 1 !in s.clients && s.store == Store(Some(Cell("a", ttl)), Some(Cell(FOR_A, 1 + ttl)))
    ensures Step(ttl, Step(ttl, Step(ttl, s, Arrive(1, "b")), Advance(1, ttl)), Advance(1, ttl))
         == State(Store(Some(Cell("b", ttl + ttl)), s.store.resp),
                  s.clients[1 := Client("b", Done(New), Some(ttl), false, None)])
  {
  }

  lemma ThirdClientMisled(ttl: int, s: State)
    requires 0 < ttl && s.store == Store(Some(Cell("b", ttl + ttl)), Some(Cell(FOR_A, 1 + ttl))) && 2 !in s.clients
    requires forall i :: i in s.clients && s.clients[i].fp == "b" ==> s.clients[i].wrote == None
    ensures !ReplaysMatch(Step(ttl, Step(ttl, Step(ttl, s, Arrive(2, "b")), Advance(2, ttl)), Advance(2, ttl)))
  {
    var s' := Step(ttl, Step(ttl, Step(ttl, s, Arrive(2, "b")), Advance(2, ttl)), Advance(2, ttl));
    assert s'.clients[2].phase == Done(Replay(FOR_A)) && s'.clients[2].fp == "b";
  }

  lemma NoEvents(ttl: int)
    ensures Run(ttl, []) == State(Store(None, None), map[])
  {
  }

  // ------------------------------------------------------------------- key texts

  /** `build_scope_key`. */
  function ScopeKey(org: string, user: string, operation: string, resource: Option<string>, key: string): string {
    "idemp" + [':'] + (org + [':'] + (user + [':'] + (operation + [':'] + (ResourcePart(resource) + [':'] + key))))
  }

  function ResourcePart(resource: Option<string>): string {
    match resource case None => "-" case Some(id) => id
  }

  /** Two requests share a scope key only if they agree on every component; the
      client's own key may contain any text. */
  lemma ScopeKeyInjective(o: string, u: string, p: string, r: Option<string>, k: string,
                          o': string, u': string, p': string, r': Option<string>, k': string)
    requires ':' !in o && ':' !in o' && ':' !in u && ':' !in u' && ':' !in p && ':' !in p'
    requires ':' !in ResourcePart(r) && ':' !in ResourcePart(r') && r != Some("-") && r' != Some("-")
    requires ScopeKey(o, u, p, r, k) == ScopeKey(o', u', p', r', k')
    ensures o == o' && u == u' && p == p' && r == r' && k == k'
  {
    var x5, y5 := ResourcePart(r) + [':'] + k, ResourcePart(r') + [':'] + k';
    var x4, y4 := p + [':'] + x5, p' + [':'] + y5;
    var x3, y3 := u + [':'] + x4, u' + [':'] + y4;
    var x2, y2 := o + [':'] + x3, o' + [':'] + y3;
    FirstPartUnique("idemp", x2, "idemp", y2, ':');
    FirstPartUnique(o, x3, o', y3, ':');
    FirstPartUnique(u, x4, u', y4, ':');
    FirstPartUnique(p, x5, p', y5, ':');
    FirstPartUnique(ResourcePart(r), k, ResourcePart(r'), k', ':');
  }

  /** The fields of a scope key, in order, before the client's own key. */
  lemma ScopeKeyFields(o: string, u: string, p: string, r: Option<string>, k: string)
    requires ':' !in o && ':' !in u && ':' !in p && ':' !in ResourcePart(r)
    ensures Split(ScopeKey(o, u, p, r, k), ':') == ["idemp", o, u, p, if r.Some? then r.value else "-"] + Split(k, ':')
  {
    var x5 := ResourcePart(r) + [':'] + k;
    var x4 := p + [':'] + x5;
    var x3 := u + [':'] + x4;
    SplitAt("idemp", ':', o + [':'] + x3);
    SplitAt(o, ':', x3);
    SplitAt(u, ':', x4);
    SplitAt(p, ':', x5);
    SplitAt(ResourcePart(r), ':', k);
  }

  /** The request key of one scope is never the response key of another. */
  lemma KeysDisjoint(scope: string, scope': string)
    ensures scope + ":req" != scope' + ":resp"
  {
    var a, b := scope + ":req", scope' + ":resp";
    assert a[|a| - 1] == 'q' && b[|b| - 1] == 'p';
  }

  /** What a mutating endpoint receives. */
  datatype Request = Request(verb: string, path: string, query: string, body: string)

  /** `upper`, on the ASCII text of a method. */
  function Upper(s: string): (u: string)
    ensures '|' in u <==> '|' in s
    ensures |u| == |s|
    ensures forall i :: 0 <= i < |s| ==> u[i] as int == if 'a' <= s[i] <= 'z' then s[i] as int - 32 else s[i] as int
  {
    if s == "" then ""
    else
      var c := if 'a' <= s[0] <= 'z' then (s[0] as int - 32) as char else s[0];
      assert s == [s[0]] + s[1..];
      [c] + Upper(s[1..])
  }

  /** The bytes that `build_fingerprint` hashes: the callers hand it the method,
      the path and the body. */
  function FingerprintInput(r: Request): string {
    Upper(r.verb) + ['|'] + (r.path + ['|'] + r.body)
  }

  /** With bars in neither method nor path, two requests hash the same bytes
      exactly when they agree on method, path and body, whatever their query
      strings say. */
  lemma SharedFingerprintExactly(r: Request, r': Request)
    requires '|' !in r.verb && '|' !in r'.verb && '|' !in r.path && '|' !in r'.path
    ensures FingerprintInput(r) == FingerprintInput(r')
            <==> Upper(r.verb) == Upper(r'.verb) && r.path == r'.path && r.body == r'.body
  {
    hide Upper;
    if FingerprintInput(r) == FingerprintInput(r') {
      FirstPartUnique(Upper(r.verb), r.path + ['|'] + r.body, Upper(r'.verb), r'.path + ['|'] + r'.body, '|');
      FirstPartUnique(r.path, r.body, r'.path, r'.body, '|');
    }
  }

  /** Some bodies make requests with these methods and paths hash the same bytes. */
  ghost predicate CanCollide(verb: string, path: string, verb': string, path': string) {
    exists q, b, q', b' ::
      FingerprintInput(Request(verb, path, q, b)) == FingerprintInput(Request(verb', path', q', b'))
  }

  /** Two paths can collide exactly when they are equal or one continues the
      other after a bar; so a bar in a path matters only there. */
  lemma CollisionExactly(verb: string, path: string, verb': string, path': string)
    requires '|' !in verb && '|' !in verb'
    ensures CanCollide(verb, path, verb', path')
            <==> Upper(verb) == Upper(verb') && (path == path' || path + "|" <= path' || path' + "|" <= path)
  {
    hide Upper;
    if CanCollide(verb, path, verb', path') {
      var q, b, q', b' :|
        FingerprintInput(Request(verb, path, q, b)) == FingerprintInput(Request(verb', path', q', b'));
      FirstPartUnique(Upper(verb), path + ['|'] + b, Upper(verb'), path' + ['|'] + b', '|');
      if |path| < |path'| {
        PrefixOfSame(path, b, path', b');
      } else if |path'| < |path| {
        PrefixOfSame(path', b', path, b);
      } else {
        assert path == (path + ['|'] + b)[..|path|] == (path' + ['|'] + b')[..|path|] == path';
      }
    }
    if Upper(verb) == Upper(verb') && path == path' {
      assert FingerprintInput(Request(verb, path, "", "")) == FingerprintInput(Request(verb', path', "", ""));
    } else if Upper(verb) == Upper(verb') && path + "|" <= path' {
      Continues(verb, path, verb', path');
    } else if Upper(verb) == Upper(verb') && path' + "|" <= path {
      Continues(verb', path', verb, path);
      var q, b, q', b' :|
        FingerprintInput(Request(verb', path', q, b)) == FingerprintInput(Request(verb, path, q', b'));
      assert FingerprintInput(Request(verb, path, q', b')) == FingerprintInput(Request(verb', path', q, b));
    }
  }

  lemma PrefixOfSame(a: string, x: string, b: string, y: string)
    requires a + ['|'] + x == b + ['|'] + y && |a| < |b|
    ensures a + "|" <= b
  {
    var s := a + ['|'] + x;
    assert s[..|b|] == b && s[..|a| + 1] == a + "|";
    assert b[..|a| + 1] == s[..|a| + 1];
  }

  lemma Continues(verb: string, path: string, verb': string, path': string)
    requires Upper(verb) == Upper(verb') && path + "|" <= path'
    ensures CanCollide(verb, path, verb', path')
  {
    var rest := path'[|path| + 1..];
    assert path' == path + ['|'] + rest;
    assert path + ['|'] + (rest + ['|']) == path' + ['|'] + "";
    assert FingerprintInput(Request(verb, path, "", rest + ['|'])) == FingerprintInput(Request(verb', path', "", ""));
  }
}
