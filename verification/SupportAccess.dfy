/** Support access sessions of the platform administrators.  A rejected call
    raises; whether the request's transaction then keeps or rolls back what the
    call had written is a parameter of every call. */
module SupportAccess {
  import opened Sequences
  import opened Text

  const MAX_MINUTES := 60

  datatype Status = Active | Ended | Expired

  datatype Session = Session(actor: nat, org: nat, reason: string, status: Status, createdAt: int, expiresAt: int,
                             endedAt: Option<int>)

  datatype Rejection =
    | BadReason | BadDuration | NoOrg | NotFound | AlreadyEnded | AlreadyExpired | WrongActor | NotActive

  datatype Result<+T> = Ok(value: T) | Rejected(why: Rejection)

  type Sessions = map<nat, Session>

  /** Python whitespace, as `str.strip` removes it. */
  predicate IsSpace(c: char) {
    IsBlank(c) || '\U{1C}' <= c <= '\U{1F}' || c == '\U{85}'
  }

  lemma SpaceCodes(c: char)
    ensures IsSpace(c) <==> IsBlank(c) || 28 <= c as int <= 31 || c as int == 133
  {
  }

  function Strip(s: string): string {
    Trim(s, IsSpace)
  }

  /** The reason without the whitespace around it. */
  lemma StripExactly(s: string, t: string)
    ensures t == Strip(s) <==> IsTrimmed(s, t, IsSpace)
  {
    hide Trim;
    TrimExactly(s, t, IsSpace);
  }

  /** The ticks in n minutes, at `hz` ticks a second. */
  function Minutes(hz: int, n: int): int {
    n * 60 * hz
  }

  /** Ended exactly when not active, and never open for more than an hour. */
  predicate Sound(hz: int, s: Session) {
    && (s.endedAt.Some? <==> s.status != Active)
    && s.createdAt < s.expiresAt <= s.createdAt + Minutes(hz, MAX_MINUTES)
    && (s.status == Expired ==> s.endedAt.value >= s.expiresAt)
    && (s.status == Ended ==> s.createdAt <= s.endedAt.value < s.expiresAt)
  }

  ghost predicate AllSound(hz: int, sessions: Sessions) {
    forall id :: id in sessions ==> Sound(hz, sessions[id])
  }

  /** How one session may change: an active one may end or expire, a finished one
      never changes again, and who, where, why and until when is fixed. */
  predicate Evolved(before: Session, after: Session) {
    && after.actor == before.actor && after.org == before.org && after.reason == before.reason
    && after.createdAt == before.createdAt && after.expiresAt == before.expiresAt
    && (before.status != Active ==> after == before)
  }

  ghost predicate Evolves(before: Sessions, after: Sessions) {
    forall id :: id in before ==> id in after && Evolved(before[id], after[id])
  }

  lemma EvolvesTransitive(a: Sessions, b: Sessions, c: Sessions)
    requires Evolves(a, b) && Evolves(b, c)
    ensures Evolves(a, c)
  {
    forall id | id in a ensures id in c && Evolved(a[id], c[id]) {
      assert Evolved(a[id], b[id]) && Evolved(b[id], c[id]);
    }
  }

  function Expire(s: Session, now: int): Session {
    s.(status := Expired, endedAt := if s.endedAt.Some? then s.endedAt else Some(now))
  }

  predicate Stale(s: Session, now: int) {
    s.status == Active && s.expiresAt <= now
  }

  datatype Op =
    | CreateOp(id: nat, actor: nat, org: nat, reason: string, minutes: int, now: int)
    | EndOp(id: nat, now: int, keepRejected: bool)
    | ResolveOp(id: nat, actor: nat, now: int, keepRejected: bool)
    | ListOp(now: int)

  /** The sessions a call leaves behind. */
  function Apply(hz: int, sessions: Sessions, op: Op): Sessions {
    match op
    case CreateOp(id, actor, org, reason, minutes, now) =>
      if id in sessions || minutes < 1 || minutes > MAX_MINUTES then sessions
      else sessions[id := Session(actor, org, reason, Active, now, now + Minutes(hz, minutes), None)]
    case EndOp(id, now, keepRejected) =>
      if id !in sessions || sessions[id].status != Active then sessions
      else if now < sessions[id].expiresAt then sessions[id := sessions[id].(status := Ended, endedAt := Some(now))]
      else if keepRejected then sessions[id := Expire(sessions[id], now)]
      else sessions
    case ResolveOp(id, actor, now, keepRejected) =>
      if id in sessions && sessions[id].actor == actor && Stale(sessions[id], now) && keepRejected then
        sessions[id := Expire(sessions[id], now)]
      else sessions
    case ListOp(now) =>
      map id | id in sessions :: if Stale(sessions[id], now) then Expire(sessions[id], now) else sessions[id]
  }

  predicate Resolves(sessions: Sessions, id: nat, actor: nat, now: int) {
    id in sessions && sessions[id].actor == actor && sessions[id].status == Active && now < sessions[id].expiresAt
  }

  function ApplyAll(hz: int, sessions: Sessions, ops: seq<Op>): Sessions {
    if ops == [] then sessions else Apply(hz, ApplyAll(hz, sessions, ops[..|ops| - 1]), ops[|ops| - 1])
  }

  /** An active session whose time is up is expired as of now. */
  function Lapsed(s: Session, now: int): Session {
    if s.status == Active && now >= s.expiresAt then s.(status := Expired, endedAt := Some(now)) else s
  }

  lemma LapsedIsExpire(hz: int, s: Session, now: int)
    requires Sound(hz, s)
    ensures Lapsed(s, now) == if Stale(s, now) then Expire(s, now) else s
  {
  }

  class Service {
    const hz: int
    var sessions: Sessions
    ghost var clock: int

    ghost predicate Valid()
      reads this
    {
      hz > 0 && AllSound(hz, sessions) && forall id :: id in sessions ==> sessions[id].createdAt <= clock
    }

    constructor (hz: int)
      requires hz > 0
      ensures Valid() && sessions == map[] && this.hz == hz
    {
      this.hz, sessions, clock := hz, map[], 0;
    }

    /** `create_support_access_session`, with the id the database assigns. */
    method Create(id: nat, actor: nat, org: nat, orgExists: bool, reason: string, minutes: int, now: int)
      returns (r: Result<Session>)
      requires Valid() && clock <= now && id !in sessions
      modifies this
      ensures Valid() && clock == now && Evolves(old(sessions), sessions)
      ensures sessions
              == if r.Ok? then Apply(hz, old(sessions), CreateOp(id, actor, org, Strip(reason), minutes, now))
                 else old(sessions)
      ensures sessions == if r.Ok? then old(sessions)[id := r.value] else old(sessions)
      ensures r == if Strip(reason) == "" then Rejected(BadReason)
                   else if minutes < 1 || minutes > 60 then Rejected(BadDuration)
                   else if !orgExists then Rejected(NoOrg)
                   else Ok(Session(actor, org, Strip(reason), Active, now, now + minutes * 60 * hz, None))
    {
      clock := now;
      var cleaned := Strip(reason);
      if cleaned == "" {
        return Rejected(BadReason);
      }
      if minutes < 1 || minutes > MAX_MINUTES {
        return Rejected(BadDuration);
      }
      if !orgExists {
        return Rejected(NoOrg);
      }
      MinutesBounds(hz, minutes);
      var session := Session(actor, org, cleaned, Active, now, now + Minutes(hz, minutes), None);
      sessions := sessions[id := session];
      return Ok(session);
    }

    /** `end_support_access_session`. */
    method End(id: nat, reason: string, now: int, keepRejected: bool) returns (r: Result<Session>)
      requires Valid() && clock <= now
      modifies this
      ensures Valid() && clock == now && Evolves(old(sessions), sessions)
      ensures sessions == if Strip(reason) == "" then old(sessions)
                          else Apply(hz, old(sessions), EndOp(id, now, keepRejected))
      ensures r == if Strip(reason) == "" then Rejected(BadReason)
                   else if id !in old(sessions) then Rejected(NotFound)
                   else if old(sessions)[id].status == Ended then Rejected(AlreadyEnded)
                   else if old(sessions)[id].status == Expired then Rejected(AlreadyExpired)
                   else if old(sessions)[id].expiresAt <= now then Rejected(AlreadyExpired)
                   else Ok(old(sessions)[id].(status := Ended, endedAt := Some(now)))
      ensures r.Ok? ==> sessions == old(sessions)[id := r.value]
      ensures r.Rejected? ==>
                sessions == if r.why == AlreadyExpired && keepRejected then
                              old(sessions)[id := Lapsed(old(sessions)[id], now)]
                            else old(sessions)
    {
      clock := now;
      if Strip(reason) == "" {
        return Rejected(BadReason);
      }
      if id !in sessions {
        return Rejected(NotFound);
      }
      var session := sessions[id];
      assert Sound(hz, session);
      if session.status == Ended {
        return Rejected(AlreadyEnded);
      }
      if session.status == Expired || session.expiresAt <= now {
        if keepRejected {
          sessions := sessions[id := Expire(session, now)];
          assert sessions[id] == session || Stale(session, now);
          assert session.status == Expired ==> sessions == old(sessions);
        }
        return Rejected(AlreadyExpired);
      }
      session := session.(status := Ended, endedAt := Some(now));
      sessions := sessions[id := session];
      return Ok(session);
    }

    /** `resolve_active_support_access_session`: only for the creator, only while
        active, strictly before the expiry. */
    method Resolve(id: nat, actor: nat, now: int, keepRejected: bool) returns (r: Result<Session>)
      requires Valid() && clock <= now
      modifies this
      ensures Valid() && clock == now && Evolves(old(sessions), sessions)
      ensures sessions == Apply(hz, old(sessions), ResolveOp(id, actor, now, keepRejected))
      ensures r.Ok? <==> Resolves(old(sessions), id, actor, now)
      ensures r.Rejected? ==> r.why == if id !in old(sessions) then NotFound
                                       else if old(sessions)[id].actor != actor then WrongActor
                                       else NotActive
      ensures r.Ok? ==> r.value == sessions[id] && now < r.value.createdAt + 60 * 60 * hz && sessions == old(sessions)
      ensures r.Rejected? ==>
                sessions == if r.why == NotActive && keepRejected then
                              old(sessions)[id := Lapsed(old(sessions)[id], now)]
                            else old(sessions)
    {
      clock := now;
      if id !in sessions {
        return Rejected(NotFound);
      }
      var session := sessions[id];
      assert Sound(hz, session);
      if session.actor != actor {
        return Rejected(WrongActor);
      }
      if session.status != Active || session.expiresAt <= now {
        if session.status == Active && session.expiresAt <= now && keepRejected {
          sessions := sessions[id := Expire(session, now)];
        }
        return Rejected(NotActive);
      }
      return Ok(session);
    }

    /** `list_active_support_access_sessions`: first expires what is stale, then
        lists what is active, newest first. */
    method ListActive(now: int) returns (active: seq<nat>)
      requires Valid() && clock <= now
      modifies this
      ensures Valid() && clock == now && Evolves(old(sessions), sessions)
      ensures sessions == Apply(hz, old(sessions), ListOp(now))
      ensures forall id :: id in active <==>
                id in sessions && sessions[id].status == Active && now < sessions[id].expiresAt
      ensures Distinct(active) && NewestFirst(sessions, active)
    {
      ExpireStale(now);
      active := ActiveNewestFirst();
    }

    /** `_expire_stale_support_sessions`. */
    method ExpireStale(now: int)
      requires Valid() && clock <= now
      modifies this
      ensures Valid() && clock == now && Evolves(old(sessions), sessions)
      ensures sessions == Apply(hz, old(sessions), ListOp(now))
      ensures forall id :: id in sessions && sessions[id].status == Active ==> now < sessions[id].expiresAt
      ensures sessions == map id | id in old(sessions) :: Lapsed(old(sessions)[id], now)
    {
      hide AllSound, Evolves, Expire, Stale, Lapsed, Apply;
      ExpiredSound(hz, sessions, now);
      clock := now;
      var stale := set id | id in sessions && Stale(sessions[id], now);
      AllExpired(hz, sessions, stale, now);
      var todo := stale;
      while todo != {}
        invariant todo <= stale <= old(sessions).Keys && clock == now
        invariant sessions == ExpiredSome(old(sessions), stale - todo, now)
        decreases |todo|
      {
        var id: nat :| id in todo;
        ExpireOne(old(sessions), stale - todo, id, now);
        sessions := sessions[id := Expire(sessions[id], now)];
        assert stale - (todo - {id}) == stale - todo + {id};
        todo := todo - {id};
      }
      assert stale - todo == stale;
    }

    /** The query for active sessions, `ORDER BY created_at DESC`. */
    method ActiveNewestFirst() returns (active: seq<nat>)
      ensures forall id :: id in active <==> id in sessions && sessions[id].status == Active
      ensures Distinct(active) && NewestFirst(sessions, active)
    {
      var all := set id | id in sessions && sessions[id].status == Active;
      var todo := all;
      active := [];
      while todo != {}
        invariant todo <= all && forall id :: id in active <==> id in all - todo
        invariant Distinct(active) && NewestFirst(sessions, active)
        invariant forall i, id :: 0 <= i < |active| && id in todo ==>
                    sessions[id].createdAt <= sessions[active[i]].createdAt
        decreases |todo|
      {
        NewestExists(sessions, todo);
        var newest: nat :| newest in todo && IsNewest(sessions, todo, newest);
        assert forall i :: 0 <= i < |active| ==> active[i] in active;
        active := active + [newest];
        todo := todo - {newest};
      }
    }
  }

  /** The sessions with some of them expired. */
  function ExpiredSome(sessions: Sessions, done: set<nat>, now: int): Sessions {
    map id | id in sessions :: if id in done then Expire(sessions[id], now) else sessions[id]
  }

  lemma ExpireOne(sessions: Sessions, done: set<nat>, id: nat, now: int)
    requires id in sessions && id !in done
    ensures var some := ExpiredSome(sessions, done, now);
            id in some && some[id := Expire(some[id], now)] == ExpiredSome(sessions, done + {id}, now)
    ensures ExpiredSome(sessions, {}, now) == sessions
  {
    hide Expire;
  }

  lemma AllExpired(hz: int, sessions: Sessions, stale: set<nat>, now: int)
    requires AllSound(hz, sessions) && stale == set id | id in sessions && Stale(sessions[id], now)
    ensures ExpiredSome(sessions, stale, now) == Apply(hz, sessions, ListOp(now))
    ensures ExpiredSome(sessions, stale, now) == map id | id in sessions :: Lapsed(sessions[id], now)
    ensures ExpiredSome(sessions, {}, now) == sessions
  {
    hide Expire, Stale, Lapsed, Sound;
    forall id | id in sessions ensures ExpiredSome(sessions, stale, now)[id] == Lapsed(sessions[id], now) {
      LapsedIsExpire(hz, sessions[id], now);
    }
  }

  predicate NewestFirst(sessions: Sessions, ids: seq<nat>) {
    && (forall i :: 0 <= i < |ids| ==> ids[i] in sessions)
    && (forall i, j :: 0 <= i < j < |ids| ==> sessions[ids[j]].createdAt <= sessions[ids[i]].createdAt)
  }

  predicate IsNewest(sessions: Sessions, ids: set<nat>, newest: nat)
    requires forall id :: id in ids ==> id in sessions
  {
    newest in ids && forall id :: id in ids ==> sessions[id].createdAt <= sessions[newest].createdAt
  }

  lemma {:induction false} NewestExists(sessions: Sessions, ids: set<nat>)
    requires ids != {} && forall id :: id in ids ==> id in sessions
    ensures exists newest :: IsNewest(sessions, ids, newest)
  {
    var first :| first in ids;
    var rest := ids - {first};
    if rest == {} {
      assert ids == {first};
      assert IsNewest(sessions, ids, first);
    } else {
      NewestExists(sessions, rest);
      var m :| IsNewest(sessions, rest, m);
      assert IsNewest(sessions, ids, if sessions[m].createdAt < sessions[first].createdAt then first else m);
    }
  }

  /** After the stale sessions expire, every active one is still open. */
  lemma ExpiredSound(hz: int, sessions: Sessions, now: int)
    requires AllSound(hz, sessions)
    ensures var after := Apply(hz, sessions, ListOp(now));
            && AllSound(hz, after) && Evolves(sessions, after) && after.Keys == sessions.Keys
            && (forall id :: id in after && after[id].status == Active ==> now < after[id].expiresAt)
            && (forall id :: id in after ==> after[id].createdAt == sessions[id].createdAt)
  {
    forall id | id in sessions ensures Sound(hz, sessions[id]) {
    }
  }

  lemma MinutesBounds(hz: int, minutes: int)
    requires hz > 0 && 1 <= minutes <= MAX_MINUTES
    ensures 0 < Minutes(hz, minutes) <= Minutes(hz, MAX_MINUTES)
  {
  }

  lemma {:induction false} RunEvolves(hz: int, sessions: Sessions, ops: seq<Op>)
    ensures Evolves(sessions, ApplyAll(hz, sessions, ops))
  {
    hide Evolves, Apply;
    if ops == [] {
      SameEvolves(sessions);
    } else {
      var before := ApplyAll(hz, sessions, ops[..|ops| - 1]);
      RunEvolves(hz, sessions, ops[..|ops| - 1]);
      StepEvolves(hz, before, ops[|ops| - 1]);
      EvolvesTransitive(sessions, before, ApplyAll(hz, sessions, ops));
    }
  }

  lemma SameEvolves(sessions: Sessions)
    ensures Evolves(sessions, sessions)
  {
  }

  lemma StepEvolves(hz: int, sessions: Sessions, op: Op)
    ensures Evolves(sessions, Apply(hz, sessions, op))
  {
  }

  /** Whatever is called later, and whatever rejected calls leave behind: a
      session that once ended or expired never resolves again, and a session
      resolves only for its creator, before an expiry that never moves. */
  lemma ResolvesOnlyWhileOpen(hz: int, sessions: Sessions, ops: seq<Op>, id: nat, actor: nat, now: int)
    requires id in sessions && Resolves(ApplyAll(hz, sessions, ops), id, actor, now)
    ensures sessions[id].status == Active && sessions[id].actor == actor && now < sessions[id].expiresAt
  {
    hide ApplyAll;
    RunEvolves(hz, sessions, ops);
    assert Evolved(sessions[id], ApplyAll(hz, sessions, ops)[id]);
  }

  // ------------------------------------------------------------- a whole history

  /** The calls read one clock that never goes back. */
  ghost predicate ClockSorted(ops: seq<Op>) {
    forall i, j :: 0 <= i < j < |ops| ==> ops[i].now <= ops[j].now
  }

  lemma StepSound(hz: int, sessions: Sessions, op: Op)
    requires hz > 0 && AllSound(hz, sessions) && forall id :: id in sessions ==> sessions[id].createdAt <= op.now
    ensures var after := Apply(hz, sessions, op);
            AllSound(hz, after) && forall id :: id in after ==> after[id].createdAt <= op.now
  {
    hide Minutes;
    var after := Apply(hz, sessions, op);
    if op.CreateOp? && 1 <= op.minutes <= MAX_MINUTES {
      MinutesBounds(hz, op.minutes);
    }
    forall id | id in after ensures Sound(hz, after[id]) {
      assert id in sessions ==> Sound(hz, sessions[id]);
    }
  }

  /** After any history of calls from an empty table: `ended_at` is set exactly on
      the sessions that are not active, an ended session was ended before its
      expiry and an expired one not before it, and no session is open for more
      than 60 minutes from its creation. */
  lemma {:induction false} HistorySound(hz: int, ops: seq<Op>)
    requires hz > 0 && ClockSorted(ops)
    ensures var sessions := ApplyAll(hz, map[], ops);
            && AllSound(hz, sessions)
            && (ops != [] ==> forall id :: id in sessions ==> sessions[id].createdAt <= ops[|ops| - 1].now)
  {
    hide Sound, Apply;
    if ops != [] {
      var n := |ops| - 1;
      HistorySound(hz, ops[..n]);
      var before := ApplyAll(hz, map[], ops[..n]);
      if n > 0 {
        assert ops[n - 1].now <= ops[n].now;
        assert ops[..n][n - 1] == ops[n - 1];
      }
      StepSound(hz, before, ops[n]);
    }
  }

  /** Whatever the history, a session resolves within 60 minutes of its creation. */
  lemma ResolvesWithinAnHour(hz: int, ops: seq<Op>, id: nat, actor: nat, now: int)
    requires hz > 0 && ClockSorted(ops) && Resolves(ApplyAll(hz, map[], ops), id, actor, now)
    ensures now < ApplyAll(hz, map[], ops)[id].createdAt + 60 * 60 * hz
  {
    hide ApplyAll;
    HistorySound(hz, ops);
    assert Sound(hz, ApplyAll(hz, map[], ops)[id]);
  }
}
