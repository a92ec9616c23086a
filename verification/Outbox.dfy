/** The notification worker: claim pending alerts with row locks, stamp them,
    send, then commit.  Any number of workers and transactions interleave. */
module Outbox {
  import opened Sequences

  datatype Channel = Email | Slack

  const BATCH_SIZE := 50
  const LOOKBACK_SECONDS := 24 * 3600

  datatype Phase = Active | Committed | Aborted

  /** A transaction: its claimed batch, the alert it is at, whether that alert is
      already stamped, the recipients of it still to be served, and the
      recipients chosen for every alert stamped so far.  Times are in seconds. */
  datatype Tx = Tx(channel: Channel, batch: seq<nat>, at: nat, stamped: bool, todo: seq<string>,
                   chosen: seq<seq<string>>, phase: Phase, claimedAt: int)

  datatype Send = Send(tx: nat, channel: Channel, alert: nat, recipient: string)

  /** `alerts` maps an alert to its creation time; `marks` holds the committed
      `email_sent_at` / `slack_sent_at` stamps; `sends` logs every dispatch. */
  datatype State = State(alerts: map<nat, int>, marks: set<(nat, Channel)>, txs: map<nat, Tx>, sends: seq<Send>)

  datatype Event =
    | Raise(alert: nat, createdAt: int)
    | Claim(tx: nat, channel: Channel, batch: seq<nat>, now: int)
    | Stamp(tx: nat, recipients: seq<string>)
    | Dispatch(tx: nat)
    | Next(tx: nat)
    | Commit(tx: nat)
    | Abort(tx: nat)

  predicate Locked(s: State, alert: nat) {
    exists t :: t in s.txs && s.txs[t].phase == Active && alert in s.txs[t].batch
  }

  predicate Pending(s: State, channel: Channel, alert: nat, now: int) {
    alert in s.alerts && s.alerts[alert] >= now - LOOKBACK_SECONDS && (alert, channel) !in s.marks && !Locked(s, alert)
  }

  /** What `FOR UPDATE SKIP LOCKED` may answer: at most a batch of distinct pending
      alerts that no other transaction has claimed, oldest first.  Rows that other
      writers have locked are skipped too, so any pending alert may be missing. */
  ghost predicate IsClaim(s: State, channel: Channel, batch: seq<nat>, now: int) {
    && Distinct(batch) && |batch| <= BATCH_SIZE
    && (forall i :: 0 <= i < |batch| ==> Pending(s, channel, batch[i], now))
    && (forall i, j :: 0 <= i < j < |batch| ==> s.alerts[batch[i]] <= s.alerts[batch[j]])
  }

  predicate Running(s: State, t: nat) {
    t in s.txs && s.txs[t].phase == Active
  }

  function Put(s: State, t: nat, tx: Tx): State {
    s.(txs := s.txs[t := tx])
  }

  function MarksOf(tx: Tx): set<(nat, Channel)> {
    set a | a in tx.batch :: (a, tx.channel)
  }

  ghost function Step(s: State, e: Event): State {
    match e
    case Raise(a, createdAt) =>
      if a in s.alerts then s else s.(alerts := s.alerts[a := createdAt])
    case Claim(t, channel, batch, now) =>
      if t in s.txs || !IsClaim(s, channel, batch, now) then s
      else Put(s, t, Tx(channel, batch, 0, false, [], [], Active, now))
    case Stamp(t, recipients) =>
      if Running(s, t) && !s.txs[t].stamped && s.txs[t].at < |s.txs[t].batch| && Distinct(recipients) then
        Put(s, t, s.txs[t].(stamped := true, todo := recipients, chosen := s.txs[t].chosen + [recipients]))
      else s
    case Dispatch(t) =>
      if Running(s, t) && s.txs[t].todo != [] && s.txs[t].at < |s.txs[t].batch| then
        var tx := s.txs[t];
        Put(s, t, tx.(todo := tx.todo[1..])).(sends := s.sends + [Send(t, tx.channel, tx.batch[tx.at], tx.todo[0])])
      else s
    case Next(t) =>
      if Running(s, t) && s.txs[t].stamped && s.txs[t].todo == [] then
        Put(s, t, s.txs[t].(at := s.txs[t].at + 1, stamped := false))
      else s
    case Commit(t) =>
      if Running(s, t) && s.txs[t].at == |s.txs[t].batch| then
        Put(s, t, s.txs[t].(phase := Committed)).(marks := s.marks + MarksOf(s.txs[t]))
      else s
    case Abort(t) =>
      if Running(s, t) then Put(s, t, s.txs[t].(phase := Aborted)) else s
  }

  ghost function RunFrom(s: State, events: seq<Event>): State {
    if events == [] then s
    else Step(RunFrom(s, events[..|events| - 1]), events[|events| - 1])
  }

  const EMPTY := State(map[], {}, map[], [])

  // ----------------------------------------------------------------- invariants

  /** Transaction t holds (or held until its commit) alert a on channel c. */
  predicate Claims(s: State, t: nat, a: nat, c: Channel) {
    t in s.txs && s.txs[t].phase != Aborted && s.txs[t].channel == c && a in s.txs[t].batch
  }

  ghost predicate OneClaim(s: State) {
    && (forall t, u, a, c :: Claims(s, t, a, c) && Claims(s, u, a, c) ==> t == u)
    && (forall t: nat, a: nat, c :: Claims(s, t, a, c) && s.txs[t].phase == Committed ==> (a, c) in s.marks)
  }

  /** Row locks: no alert is in two active batches, on any channel. */
  ghost predicate DisjointBatches(s: State) {
    forall t, u, a :: Running(s, t) && Running(s, u) && a in s.txs[t].batch && a in s.txs[u].batch ==> t == u
  }

  /** The shape of a transaction's progress through its batch. */
  predicate Shaped(tx: Tx) {
    && Distinct(tx.batch) && Distinct(tx.todo) && tx.at <= |tx.batch|
    && (tx.stamped ==> tx.at < |tx.batch|) && (!tx.stamped ==> tx.todo == [])
    && |tx.chosen| == tx.at + (if tx.stamped then 1 else 0)
    && (tx.phase == Committed ==> tx.at == |tx.batch|)
  }

  /** A logged send belongs to an alert the transaction has reached, and for the
      alert it is at, to a recipient already served. */
  predicate SendFits(s: State, e: Send) {
    && e.tx in s.txs && s.txs[e.tx].channel == e.channel
    && var tx := s.txs[e.tx];
       exists k :: 0 <= k < |tx.batch| && tx.batch[k] == e.alert && k <= tx.at
                   && (k == tx.at ==> tx.stamped && e.recipient !in tx.todo)
  }

  predicate ServedOne(t: nat, tx: Tx, sends: seq<Send>, k: nat, r: string) {
    k < |tx.chosen| && k < |tx.batch| && r in tx.chosen[k] && (k == tx.at ==> r !in tx.todo) ==>
      Send(t, tx.channel, tx.batch[k], r) in sends
  }

  /** Everyone chosen for an alert, and no longer to do, has been served. */
  ghost predicate Served(t: nat, tx: Tx, sends: seq<Send>) {
    forall k, r :: ServedOne(t, tx, sends, k, r)
  }

  ghost predicate Good(s: State) {
    && OneClaim(s) && DisjointBatches(s) && Distinct(s.sends)
    && (forall t :: t in s.txs ==> Shaped(s.txs[t]) && Served(t, s.txs[t], s.sends))
    && (forall i :: 0 <= i < |s.sends| ==> SendFits(s, s.sends[i]))
  }

  lemma ClaimGood(s: State, t: nat, channel: Channel, batch: seq<nat>, now: int)
    requires Good(s) && t !in s.txs && IsClaim(s, channel, batch, now)
    ensures Good(Step(s, Claim(t, channel, batch, now)))
  {
    hide Shaped;
    var s' := Step(s, Claim(t, channel, batch, now));
    assert Shaped(s'.txs[t]) by {
      NewTxShaped(channel, batch, now);
    }
    forall u, a, c | u != t && Claims(s', u, a, c) ensures Claims(s, u, a, c) && (c == channel ==> a !in batch) {
      if c == channel && a in batch {
        assert Pending(s, channel, a, now);
        assert s.txs[u].phase == Active ==> Locked(s, a);
      }
    }
    forall u, a | u != t && Running(s', u) && a in s'.txs[u].batch ensures a !in batch {
      assert Locked(s, a);
    }
    forall i | 0 <= i < |s'.sends| ensures SendFits(s', s'.sends[i]) {
      assert SendFits(s, s.sends[i]);
    }
    forall u | u in s'.txs ensures Served(u, s'.txs[u], s'.sends) {
      assert u != t ==> Served(u, s.txs[u], s.sends);
    }
  }

  lemma NewTxShaped(channel: Channel, batch: seq<nat>, now: int)
    requires Distinct(batch)
    ensures Shaped(Tx(channel, batch, 0, false, [], [], Active, now))
  {
  }

  predicate IsAdvance(e: Event) {
    e.Stamp? || e.Dispatch? || e.Next?
  }

  /** A step of transaction t that keeps its batch and channel and drops no claim
      conflict; t moves along its batch and may log one send. */
  lemma AdvanceGood(s: State, t: nat, e: Event)
    requires Good(s) && Running(s, t) && IsAdvance(e) && e.tx == t
    ensures Good(Step(s, e))
  {
    hide Shaped, Served, OneClaim, DisjointBatches, SendFits, Distinct;
    assert Shaped(s.txs[t]) && Served(t, s.txs[t], s.sends);
    AdvanceKeepsClaims(s, t, e);
    AdvanceShaped(s, t, e);
    AdvanceSends(s, t, e);
    AdvanceServed(s, t, e);
  }

  lemma AdvanceKeepsClaims(s: State, t: nat, e: Event)
    requires OneClaim(s) && DisjointBatches(s) && Running(s, t) && IsAdvance(e) && e.tx == t
    ensures OneClaim(Step(s, e)) && DisjointBatches(Step(s, e))
  {
    hide Distinct;
    var s' := Step(s, e);
    forall u, a, c | Claims(s', u, a, c) ensures Claims(s, u, a, c) {
    }
    forall u | Running(s', u) ensures Running(s, u) {
    }
  }

  lemma AdvanceShaped(s: State, t: nat, e: Event)
    requires Running(s, t) && IsAdvance(e) && e.tx == t
    requires forall u :: u in s.txs ==> Shaped(s.txs[u])
    ensures forall u :: u in Step(s, e).txs ==> Shaped(Step(s, e).txs[u])
  {
    assert Shaped(s.txs[t]);
  }

  lemma AdvanceSends(s: State, t: nat, e: Event)
    requires Running(s, t) && IsAdvance(e) && e.tx == t && Shaped(s.txs[t]) && Distinct(s.sends)
    requires forall i :: 0 <= i < |s.sends| ==> SendFits(s, s.sends[i])
    ensures var s' := Step(s, e);
            Distinct(s'.sends) && forall i :: 0 <= i < |s'.sends| ==> SendFits(s', s'.sends[i])
  {
    var s', tx := Step(s, e), s.txs[t];
    forall i | 0 <= i < |s.sends| ensures SendFits(s', s.sends[i]) {
      AdvanceKeepsFit(s, t, e, s.sends[i]);
    }
    if e.Dispatch? && tx.todo != [] && tx.at < |tx.batch| {
      var sent := Send(t, tx.channel, tx.batch[tx.at], tx.todo[0]);
      assert tx.todo[0] !in tx.todo[1..];
      assert s'.txs[t].batch[tx.at] == sent.alert;
      assert SendFits(s', sent);
      forall i | 0 <= i < |s.sends| ensures s.sends[i] != sent {
        assert SendFits(s, s.sends[i]);
      }
    }
  }

  lemma AdvanceKeepsFit(s: State, t: nat, e: Event, sent: Send)
    requires Running(s, t) && IsAdvance(e) && e.tx == t && Shaped(s.txs[t]) && SendFits(s, sent)
    ensures SendFits(Step(s, e), sent)
  {
    var was := s.txs[sent.tx];
    var k :| 0 <= k < |was.batch| && was.batch[k] == sent.alert && k <= was.at
             && (k == was.at ==> was.stamped && sent.recipient !in was.todo);
    assert Step(s, e).txs[sent.tx].batch[k] == sent.alert;
  }

  lemma AdvanceServed(s: State, t: nat, e: Event)
    requires Running(s, t) && IsAdvance(e) && e.tx == t && Shaped(s.txs[t])
    requires forall u :: u in s.txs ==> Served(u, s.txs[u], s.sends)
    ensures forall u :: u in Step(s, e).txs ==> Served(u, Step(s, e).txs[u], Step(s, e).sends)
  {
    var s' := Step(s, e);
    assert forall x :: x in s.sends ==> x in s'.sends;
    forall u | u in s'.txs ensures Served(u, s'.txs[u], s'.sends) {
      assert Served(u, s.txs[u], s.sends);
      if u == t {
        AdvanceServedSelf(s, t, e);
      } else {
        forall k, r ensures ServedOne(u, s'.txs[u], s'.sends, k, r) {
          assert ServedOne(u, s.txs[u], s.sends, k, r);
        }
      }
    }
  }

  lemma AdvanceServedSelf(s: State, t: nat, e: Event)
    requires Running(s, t) && IsAdvance(e) && e.tx == t && Shaped(s.txs[t]) && Served(t, s.txs[t], s.sends)
    ensures t in Step(s, e).txs && Served(t, Step(s, e).txs[t], Step(s, e).sends)
  {
    var s', tx := Step(s, e), s.txs[t];
    var tx' := s'.txs[t];
    forall k, r ensures ServedOne(t, tx', s'.sends, k, r) {
      assert ServedOne(t, tx, s.sends, k, r);
      if e.Dispatch? && tx.todo != [] && tx.at < |tx.batch| {
        assert s'.sends[|s.sends|] == Send(t, tx.channel, tx.batch[tx.at], tx.todo[0]);
      }
    }
  }

  lemma EndGood(s: State, t: nat, e: Event)
    requires Good(s) && e in {Commit(t), Abort(t)}
    ensures Good(Step(s, e))
  {
    hide Distinct, Served, Shaped, OneClaim, DisjointBatches, SendFits, MarksOf;
    EndKeepsClaims(s, t, e);
    var s' := Step(s, e);
    forall u | u in s'.txs ensures Shaped(s'.txs[u]) && Served(u, s'.txs[u], s'.sends) {
      assert Shaped(s.txs[u]) && Served(u, s.txs[u], s.sends);
      EndKeepsTx(u, s.txs[u], s'.txs[u], s.sends);
    }
    forall i | 0 <= i < |s'.sends| ensures SendFits(s', s'.sends[i]) {
      EndKeepsFit(s, s', s.sends[i]);
    }
  }

  lemma EndKeepsTx(t: nat, tx: Tx, tx': Tx, sends: seq<Send>)
    requires Shaped(tx) && Served(t, tx, sends)
    requires tx' == tx.(phase := tx'.phase) && (tx'.phase == Committed && tx.phase != Committed ==> tx.at == |tx.batch|)
    ensures Shaped(tx') && Served(t, tx', sends)
  {
    hide Distinct;
    forall k, r ensures ServedOne(t, tx', sends, k, r) {
      assert ServedOne(t, tx, sends, k, r);
    }
  }

  lemma EndKeepsFit(s: State, s': State, e: Send)
    requires SendFits(s, e) && s'.txs.Keys == s.txs.Keys
    requires forall u :: u in s.txs ==> s'.txs[u] == s.txs[u].(phase := s'.txs[u].phase)
    ensures SendFits(s', e)
  {
  }

  lemma EndKeepsClaims(s: State, t: nat, e: Event)
    requires OneClaim(s) && DisjointBatches(s) && e in {Commit(t), Abort(t)}
    ensures OneClaim(Step(s, e)) && DisjointBatches(Step(s, e))
  {
    var s' := Step(s, e);
    forall u, a, c | Claims(s', u, a, c) ensures Claims(s, u, a, c) {
    }
    forall u | Running(s', u) ensures Running(s, u) {
    }
  }

  lemma StepGood(s: State, e: Event)
    requires Good(s)
    ensures Good(Step(s, e))
  {
    match e
    case Raise(a, createdAt) =>
      RaiseGood(s, a, createdAt);
    case Claim(t, channel, batch, now) =>
      if t !in s.txs && IsClaim(s, channel, batch, now) {
        ClaimGood(s, t, channel, batch, now);
      }
    case Commit(t) => EndGood(s, t, e);
    case Abort(t) => EndGood(s, t, e);
    case _ =>
      if Running(s, e.tx) {
        AdvanceGood(s, e.tx, e);
      }
  }

  lemma RaiseGood(s: State, a: nat, createdAt: int)
    requires Good(s)
    ensures Good(Step(s, Raise(a, createdAt)))
  {
    hide Distinct, Shaped;
    var s' := Step(s, Raise(a, createdAt));
    forall u, b, c | Claims(s', u, b, c) ensures Claims(s, u, b, c) {
    }
    forall u | Running(s', u) ensures Running(s, u) {
    }
    forall u | u in s'.txs ensures Served(u, s'.txs[u], s'.sends) {
      assert Served(u, s.txs[u], s.sends);
    }
    forall i | 0 <= i < |s'.sends| ensures SendFits(s', s'.sends[i]) {
      assert SendFits(s, s.sends[i]);
    }
  }

  /** In every interleaving: claimed batches are disjoint, an alert has at most
      one live or committed claim per channel, and no transaction repeats a send. */
  lemma {:induction false} RunGood(s: State, events: seq<Event>)
    requires Good(s)
    ensures Good(RunFrom(s, events))
  {
    hide Step, Good;
    if events != [] {
      RunGood(s, events[..|events| - 1]);
      StepGood(RunFrom(s, events[..|events| - 1]), events[|events| - 1]);
    }
  }

  // --------------------------------------------------------------- what is claimed

  /** A claim is of at most 50 alerts, oldest first, none older than a day. */
  predicate ClaimFits(s: State, tx: Tx) {
    && |tx.batch| <= 50
    && (forall i :: 0 <= i < |tx.batch| ==>
          tx.batch[i] in s.alerts && tx.claimedAt - s.alerts[tx.batch[i]] <= 24 * 60 * 60)
    && (forall i, j :: 0 <= i < j < |tx.batch| ==> s.alerts[tx.batch[i]] <= s.alerts[tx.batch[j]])
  }

  ghost predicate ClaimsFit(s: State) {
    forall t :: t in s.txs ==> ClaimFits(s, s.txs[t])
  }

  lemma StepClaimsFit(s: State, e: Event)
    requires ClaimsFit(s)
    ensures ClaimsFit(Step(s, e))
  {
    hide Distinct, Locked;
    var s' := Step(s, e);
    forall t | t in s'.txs ensures ClaimFits(s', s'.txs[t]) {
      assert t in s.txs ==> ClaimFits(s, s.txs[t]);
    }
  }

  lemma {:induction false} RunClaimsFit(events: seq<Event>)
    ensures ClaimsFit(RunFrom(EMPTY, events))
  {
    hide Step;
    if events != [] {
      RunClaimsFit(events[..|events| - 1]);
      StepClaimsFit(RunFrom(EMPTY, events[..|events| - 1]), events[|events| - 1]);
    }
  }

  /** In every run, whatever is sent had been raised at most a day before its
      transaction claimed it. */
  lemma SendsAreRecent(events: seq<Event>, i: nat)
    requires i < |RunFrom(EMPTY, events).sends|
    ensures var s := RunFrom(EMPTY, events);
            var e := s.sends[i];
            e.tx in s.txs && e.alert in s.alerts && s.txs[e.tx].claimedAt - s.alerts[e.alert] <= 24 * 60 * 60
  {
    hide RunFrom, OneClaim, DisjointBatches, Distinct, Shaped, Served;
    RunClaimsFit(events);
    EmptyGood();
    RunGood(EMPTY, events);
    var s := RunFrom(EMPTY, events);
    assert SendFits(s, s.sends[i]) && ClaimFits(s, s.txs[s.sends[i].tx]);
  }

  // ----------------------------------------------------------------- send counts

  predicate SentTo(e: Send, a: nat, c: Channel, r: string) {
    e.alert == a && e.channel == c && e.recipient == r
  }

  /** How often alert a went to recipient r on channel c. */
  function Dispatches(sends: seq<Send>, a: nat, c: Channel, r: string): nat {
    if sends == [] then 0
    else Dispatches(sends[..|sends| - 1], a, c, r) + if SentTo(sends[|sends| - 1], a, c, r) then 1 else 0
  }

  /** The transactions that sent it. */
  function Senders(sends: seq<Send>, a: nat, c: Channel, r: string): (txs: set<nat>)
    ensures forall t :: t in txs <==> Send(t, c, a, r) in sends
  {
    if sends == [] then {}
    else
      var last := sends[|sends| - 1];
      assert sends == sends[..|sends| - 1] + [last];
      Senders(sends[..|sends| - 1], a, c, r) + if SentTo(last, a, c, r) then {last.tx} else {}
  }

  lemma {:induction false} DispatchesAreSenders(sends: seq<Send>, a: nat, c: Channel, r: string)
    requires Distinct(sends)
    ensures Dispatches(sends, a, c, r) == |Senders(sends, a, c, r)|
  {
    if sends != [] {
      var rest, last := sends[..|sends| - 1], sends[|sends| - 1];
      DispatchesAreSenders(rest, a, c, r);
      assert last !in rest;
    }
  }

  function AbortedSenders(s: State, a: nat, c: Channel, r: string): set<nat> {
    set t | t in Senders(s.sends, a, c, r) && t in s.txs && s.txs[t].phase == Aborted
  }

  /** Some transaction that sent it has not aborted. */
  predicate KeptSender(s: State, a: nat, c: Channel, r: string) {
    exists t :: t in Senders(s.sends, a, c, r) && t !in AbortedSenders(s, a, c, r)
  }

  /** Over every run, a recipient gets an alert on a channel exactly once for each
      aborted transaction that had already sent it, plus once more if some other
      transaction has. */
  lemma DispatchBound(events: seq<Event>, a: nat, c: Channel, r: string)
    ensures var s := RunFrom(EMPTY, events);
            Dispatches(s.sends, a, c, r) == |AbortedSenders(s, a, c, r)| + if KeptSender(s, a, c, r) then 1 else 0
  {
    hide RunFrom, Dispatches, Senders, Good;
    RunGood(EMPTY, events) by {
      EmptyGood();
    }
    var s := RunFrom(EMPTY, events);
    GoodDispatches(s, a, c, r);
  }

  lemma GoodDispatches(s: State, a: nat, c: Channel, r: string)
    requires Good(s)
    ensures Dispatches(s.sends, a, c, r) == |AbortedSenders(s, a, c, r)| + if KeptSender(s, a, c, r) then 1 else 0
  {
    hide Dispatches, Senders, Distinct, Shaped, Served, DisjointBatches;
    DispatchesAreSenders(s.sends, a, c, r);
    var all, aborted := Senders(s.sends, a, c, r), AbortedSenders(s, a, c, r);
    forall t | t in all - aborted ensures Claims(s, t, a, c) {
      var i :| 0 <= i < |s.sends| && s.sends[i] == Send(t, c, a, r);
      assert SendFits(s, s.sends[i]);
    }
    AtMostOne(all - aborted);
    assert |all| == |all - aborted| + |aborted|;
    assert KeptSender(s, a, c, r) <==> all - aborted != {} by {
      assert forall t :: t in all - aborted <==> t in all && t !in aborted;
    }
  }

  lemma AtMostOne(txs: set<nat>)
    requires forall t, u :: t in txs && u in txs ==> t == u
    ensures |txs| <= 1
  {
    if txs != {} {
      var t :| t in txs;
      assert txs == {t};
    }
  }

  lemma EmptyGood()
    ensures Good(EMPTY)
  {
  }

  /** A stamp that is committed belongs to one transaction, and that transaction
      served everyone it had chosen for the alert. */
  lemma CommittedServed(events: seq<Event>, t: nat, k: nat, r: string)
    requires var s := RunFrom(EMPTY, events);
             t in s.txs && s.txs[t].phase == Committed && k < |s.txs[t].batch|
    ensures var s := RunFrom(EMPTY, events);
            && |s.txs[t].chosen| == |s.txs[t].batch|
            && (s.txs[t].batch[k], s.txs[t].channel) in s.marks
            && (r in s.txs[t].chosen[k] ==> Send(t, s.txs[t].channel, s.txs[t].batch[k], r) in s.sends)
  {
    hide RunFrom;
    RunGood(EMPTY, events) by {
      EmptyGood();
    }
    var s := RunFrom(EMPTY, events);
    var tx := s.txs[t];
    assert Shaped(tx) && Served(t, s.txs[t], s.sends);
    assert Claims(s, t, tx.batch[k], tx.channel);
    assert ServedOne(t, tx, s.sends, k, r);
  }

  // ------------------------------------------------------- sends against aborts

  function AbortedTxs(s: State): set<nat> {
    set t | t in s.txs && s.txs[t].phase == Aborted
  }

  /** Every run with at most n aborted transactions sends every alert at most m
      times to every recipient on every channel. */
  ghost predicate SendsWithin(n: nat, m: nat) {
    forall events, a, c, r :: |AbortedTxs(RunFrom(EMPTY, events))| <= n ==>
             Dispatches(RunFrom(EMPTY, events).sends, a, c, r) <= m
  }

  lemma SendsAtMost(events: seq<Event>, a: nat, c: Channel, r: string)
    ensures var s := RunFrom(EMPTY, events); Dispatches(s.sends, a, c, r) <= |AbortedTxs(s)| + 1
  {
    hide RunFrom, Dispatches, Senders;
    DispatchBound(events, a, c, r);
    var s := RunFrom(EMPTY, events);
    assert AbortedTxs(s) == AbortedSenders(s, a, c, r) + (AbortedTxs(s) - AbortedSenders(s, a, c, r));
  }

  /** The steps of transaction t up to its send of alert 7 to "ana". */
  function Attempt(t: nat): seq<Event> {
    [Claim(t, Email, [7], 0), Stamp(t, ["ana"]), Dispatch(t)]
  }

  /** Transactions 0..n-1 send the alert and abort. */
  function AbortRun(n: nat): seq<Event> {
    if n == 0 then [Raise(7, 0)] else AbortRun(n - 1) + Attempt(n - 1) + [Abort(n - 1)]
  }

  /** The state after n such transactions. */
  ghost predicate AllAborted(s: State, n: nat) {
    && s.alerts == map[7 := 0] && s.marks == {}
    && (forall t: nat :: t in s.txs <==> t < n) && (forall t :: t in s.txs ==> s.txs[t].phase == Aborted)
    && Dispatches(s.sends, 7, Email, "ana") == n == |AbortedTxs(s)|
  }

  lemma ClaimAndSend(s: State, t: nat)
    requires s.alerts == map[7 := 0] && s.marks == {} && t !in s.txs
    requires forall u :: u in s.txs ==> s.txs[u].phase != Active
    ensures Step(Step(Step(s, Claim(t, Email, [7], 0)), Stamp(t, ["ana"])), Dispatch(t))
         == State(s.alerts, {}, s.txs[t := Tx(Email, [7], 0, true, [], [["ana"]], Active, 0)],
                  s.sends + [Send(t, Email, 7, "ana")])
  {
    assert IsClaim(s, Email, [7], 0);
    assert ["ana"][1..] == [] && [] + [["ana"]] == [["ana"]];
  }

  lemma AttemptEffect(before: State, events: seq<Event>, s: State, t: nat)
    requires s == RunFrom(before, events)
    ensures RunFrom(before, events + Attempt(t))
            == Step(Step(Step(s, Claim(t, Email, [7], 0)), Stamp(t, ["ana"])), Dispatch(t))
  {
    hide Step, RunFrom;
    RunAppend(before, events, Claim(t, Email, [7], 0));
    RunAppend(before, events + [Claim(t, Email, [7], 0)], Stamp(t, ["ana"]));
    RunAppend(before, events + [Claim(t, Email, [7], 0)] + [Stamp(t, ["ana"])], Dispatch(t));
    assert events + Attempt(t) == events + [Claim(t, Email, [7], 0)] + [Stamp(t, ["ana"])] + [Dispatch(t)];
  }

  lemma DispatchesAppend(sends: seq<Send>, e: Send, a: nat, c: Channel, r: string)
    ensures Dispatches(sends + [e], a, c, r) == Dispatches(sends, a, c, r) + if SentTo(e, a, c, r) then 1 else 0
  {
    assert (sends + [e])[..|sends|] == sends;
  }

  lemma {:induction false} AfterAborts(n: nat)
    ensures AllAborted(RunFrom(EMPTY, AbortRun(n)), n)
  {
    hide Step, Dispatches, RunFrom, AllAborted;
    if n == 0 {
      NoneAborted();
    } else {
      AfterAborts(n - 1);
      var before := AbortRun(n - 1);
      AttemptEffect(EMPTY, before, RunFrom(EMPTY, before), n - 1);
      RunAppend(EMPTY, before + Attempt(n - 1), Abort(n - 1));
      OneMoreAborted(RunFrom(EMPTY, before), n - 1);
    }
  }

  lemma OneMoreAborted(s: State, t: nat)
    requires AllAborted(s, t)
    ensures AllAborted(Step(Step(Step(Step(s, Claim(t, Email, [7], 0)), Stamp(t, ["ana"])), Dispatch(t)), Abort(t)),
                       t + 1)
  {
    hide Step, Dispatches;
    ClaimAndSend(s, t);
    var sent := Step(Step(Step(s, Claim(t, Email, [7], 0)), Stamp(t, ["ana"])), Dispatch(t));
    AbortStep(sent, t);
    DispatchesAppend(s.sends, Send(t, Email, 7, "ana"), 7, Email, "ana");
    assert AbortedTxs(Step(sent, Abort(t))) == AbortedTxs(s) + {t};
  }

  /** The stamp is not committed before the send: for every n some run with n
      aborted transactions sends one alert n + 1 times to one recipient. */
  lemma AbortResends(n: nat)
    ensures var s := RunFrom(EMPTY, AbortRun(n) + Attempt(n));
            |AbortedTxs(s)| == n && Dispatches(s.sends, 7, Email, "ana") == n + 1
  {
    hide RunFrom, Step, Dispatches;
    AfterAborts(n);
    var s := RunFrom(EMPTY, AbortRun(n));
    AttemptEffect(EMPTY, AbortRun(n), s, n);
    ClaimAndSend(s, n);
    DispatchesAppend(s.sends, Send(n, Email, 7, "ana"), 7, Email, "ana");
    assert AbortedTxs(RunFrom(EMPTY, AbortRun(n) + Attempt(n))) == AbortedTxs(s);
  }

  /** Runs with at most n aborted transactions keep within m sends exactly when
      m exceeds n. */
  lemma SendsWithinExactly(n: nat, m: nat)
    ensures SendsWithin(n, m) <==> n < m
  {
    hide RunFrom, Dispatches, AbortedTxs, AbortRun, Attempt;
    if n < m {
      forall events, a, c, r | |AbortedTxs(RunFrom(EMPTY, events))| <= n
        ensures Dispatches(RunFrom(EMPTY, events).sends, a, c, r) <= m
      {
        SendsAtMost(events, a, c, r);
      }
    } else {
      AbortResends(m);
    }
  }

  /** No alert is sent twice, as documented, exactly when no transaction aborts. */
  lemma NoDoubleSendExactly(n: nat)
    ensures SendsWithin(n, 1) <==> n == 0
  {
    hide SendsWithin;
    SendsWithinExactly(n, 1);
  }

  lemma NoneAborted()
    ensures AllAborted(RunFrom(EMPTY, AbortRun(0)), 0)
  {
    var events, s := AbortRun(0), State(map[7 := 0], {}, map[], []);
    assert events == [Raise(7, 0)] && events[..0] == [];
    assert RunFrom(EMPTY, events) == s;
    assert AbortedTxs(s) == {};
    assert Dispatches(s.sends, 7, Email, "ana") == 0;
  }

  lemma AbortStep(s: State, t: nat)
    requires Running(s, t)
    ensures Step(s, Abort(t)) == State(s.alerts, s.marks, s.txs[t := s.txs[t].(phase := Aborted)], s.sends)
  {
  }

  // ------------------------------------------------------------- one worker pass

  lemma RunAppend(s: State, events: seq<Event>, e: Event)
    ensures RunFrom(s, events + [e]) == Step(RunFrom(s, events), e)
  {
    hide Step;
    assert (events + [e])[..|events|] == events;
  }

  class Worker {
    var marks: set<(nat, Channel)>
    var sends: seq<Send>
    ghost var state: State

    /** The committed stamps and the sends are those of a state of the machine. */
    ghost predicate Valid()
      reads this
    {
      Good(state) && marks == state.marks && sends == state.sends
    }

    /** The dispatch loop over a claimed batch, inside its transaction.  A send
        that raises (`raises`, by its position in the send log) rolls the
        transaction back.  Every step is a step of the machine; a commit has
        served every recipient of every alert, an abort keeps no stamp. */
    method DispatchBatch(t: nat, channel: Channel, batch: seq<nat>, now: int, recipientsOf: nat -> seq<string>,
                         raises: nat -> bool)
      returns (committed: bool, ghost events: seq<Event>)
      requires Valid() && t !in state.txs && IsClaim(state, channel, batch, now)
      requires forall a :: Distinct(recipientsOf(a))
      modifies this
      ensures Valid() && state == RunFrom(old(state), events) && old(sends) <= sends
      ensures !committed ==> marks == old(marks)
      ensures committed ==>
                && marks == old(marks) + (set a | a in batch :: (a, channel))
                && forall k, j :: 0 <= k < |batch| && 0 <= j < |recipientsOf(batch[k])| ==>
                     Send(t, channel, batch[k], recipientsOf(batch[k])[j]) in sends
    {
      hide IsClaim, Good, Distinct, RunFrom, Step;
      ghost var before := state;
      events := [];
      ghost var chosen: seq<seq<string>> := [];
      EmptyRun(before);
      Advance(before, events, state, Claim(t, channel, batch, now));
      ClaimEffect(state, t, channel, batch, now);
      state, events := Step(state, Claim(t, channel, batch, now)), events + [Claim(t, channel, batch, now)];
      var i := 0;
      while i < |batch|
        invariant 0 <= i <= |batch| && Good(state) && state == RunFrom(before, events)
        invariant marks == state.marks == old(marks) && sends == state.sends && old(sends) <= sends
        invariant t in state.txs && state.txs[t] == Tx(channel, batch, i, false, [], chosen, Active, now)
        invariant |chosen| == i && forall k :: 0 <= k < i ==> chosen[k] == recipientsOf(batch[k])
      {
        var recipients := recipientsOf(batch[i]);
        chosen := chosen + [recipients];
        Advance(before, events, state, Stamp(t, recipients));
        StampEffect(state, t, recipients);
        state, events := Step(state, Stamp(t, recipients)), events + [Stamp(t, recipients)];
        var j := 0;
        while j < |recipients|
          invariant 0 <= j <= |recipients| && Good(state) && state == RunFrom(before, events)
          invariant marks == state.marks == old(marks) && sends == state.sends && old(sends) <= sends
          invariant t in state.txs && state.txs[t] == Tx(channel, batch, i, true, recipients[j..], chosen, Active, now)
        {
          if raises(|sends|) {
            Advance(before, events, state, Abort(t));
            AbortStep(state, t);
            state, events := Step(state, Abort(t)), events + [Abort(t)];
            return false, events;
          }
          Advance(before, events, state, Dispatch(t));
          DispatchEffect(state, t);
          state, events := Step(state, Dispatch(t)), events + [Dispatch(t)];
          sends := sends + [Send(t, channel, batch[i], recipients[j])];
          j := j + 1;
        }
        Advance(before, events, state, Next(t));
        NextEffect(state, t);
        state, events := Step(state, Next(t)), events + [Next(t)];
        i := i + 1;
      }
      Advance(before, events, state, Commit(t));
      CommitEffect(state, t);
      state, events := Step(state, Commit(t)), events + [Commit(t)];
      marks := marks + (set a | a in batch :: (a, channel));
      committed := true;
      AllServed(state, t);
    }
  }

  lemma EmptyRun(s: State)
    ensures RunFrom(s, []) == s
  {
  }

  lemma Advance(before: State, events: seq<Event>, s: State, e: Event)
    requires Good(s) && s == RunFrom(before, events)
    ensures Good(Step(s, e)) && Step(s, e) == RunFrom(before, events + [e])
  {
    hide Step, Good;
    StepGood(s, e);
    RunAppend(before, events, e);
  }

  lemma ClaimEffect(s: State, t: nat, channel: Channel, batch: seq<nat>, now: int)
    requires t !in s.txs && IsClaim(s, channel, batch, now)
    ensures Step(s, Claim(t, channel, batch, now)) == Put(s, t, Tx(channel, batch, 0, false, [], [], Active, now))
  {
  }

  lemma StampEffect(s: State, t: nat, recipients: seq<string>)
    requires Running(s, t) && !s.txs[t].stamped && s.txs[t].at < |s.txs[t].batch| && Distinct(recipients)
    ensures Step(s, Stamp(t, recipients))
         == Put(s, t, s.txs[t].(stamped := true, todo := recipients, chosen := s.txs[t].chosen + [recipients]))
  {
  }

  lemma DispatchEffect(s: State, t: nat)
    requires Running(s, t) && s.txs[t].todo != [] && s.txs[t].at < |s.txs[t].batch|
    ensures var tx := s.txs[t];
            Step(s, Dispatch(t)) == State(s.alerts, s.marks, s.txs[t := tx.(todo := tx.todo[1..])],
                                          s.sends + [Send(t, tx.channel, tx.batch[tx.at], tx.todo[0])])
  {
  }

  lemma NextEffect(s: State, t: nat)
    requires Running(s, t) && s.txs[t].stamped && s.txs[t].todo == []
    ensures Step(s, Next(t)) == Put(s, t, s.txs[t].(at := s.txs[t].at + 1, stamped := false))
  {
  }

  lemma CommitEffect(s: State, t: nat)
    requires Running(s, t) && s.txs[t].at == |s.txs[t].batch|
    ensures Step(s, Commit(t)) == Put(s, t, s.txs[t].(phase := Committed)).(marks := s.marks + MarksOf(s.txs[t]))
  {
  }

  lemma AllServed(s: State, t: nat)
    requires Good(s) && t in s.txs && s.txs[t].at == |s.txs[t].batch| == |s.txs[t].chosen|
    ensures forall k, j :: 0 <= k < |s.txs[t].batch| && 0 <= j < |s.txs[t].chosen[k]| ==>
              Send(t, s.txs[t].channel, s.txs[t].batch[k], s.txs[t].chosen[k][j]) in s.sends
  {
    var tx := s.txs[t];
    forall k, j | 0 <= k < |tx.batch| && 0 <= j < |tx.chosen[k]|
      ensures Send(t, tx.channel, tx.batch[k], tx.chosen[k][j]) in s.sends
    {
      assert ServedOne(t, tx, s.sends, k, tx.chosen[k][j]);
    }
  }
}
