/** Many requests in flight at once: between any two rule checks of one request
    the checks of other requests may run.  Each check is one atomic step. */
module Gateway {
  import opened Rounding
  import opened SlidingWindow
  import opened RateLimiter

  datatype Status = Pending | Blocked | Admitted

  /** A request with its rule list and the number of rules it has passed. */
  datatype Flight = Flight(rules: seq<Rule>, passed: nat, status: Status)

  /** `owners[i]` is the request that made `charges[i]`. */
  datatype State = State(charges: seq<Charge>, owners: seq<nat>, flights: map<nat, Flight>)

  datatype Event = Arrive(req: nat, rules: seq<Rule>) | CheckNext(req: nat, now: int)

  predicate Waiting(s: State, req: nat) {
    req in s.flights && s.flights[req].status == Pending && s.flights[req].passed < |s.flights[req].rules|
  }

  function NextRule(s: State, req: nat): Rule
    requires Waiting(s, req)
  {
    s.flights[req].rules[s.flights[req].passed]
  }

  function Step(w: Pos, s: State, e: Event): State {
    match e
    case Arrive(req, rules) =>
      if req in s.flights then s
      else s.(flights := s.flights[req := Flight(rules, 0, if rules == [] then Admitted else Pending)])
    case CheckNext(req, now) =>
      if !Waiting(s, req) then s
      else
        var f, rule := s.flights[req], NextRule(s, req);
        if Admits(w, rule.limit, TimesOf(s.charges, rule.prefix), now) then
          var f' := Flight(f.rules, f.passed + 1, if f.passed + 1 == |f.rules| then Admitted else Pending);
          State(s.charges + [Charge(rule.prefix, now)], s.owners + [req], s.flights[req := f'])
        else
          s.(flights := s.flights[req := f.(status := Blocked)])
  }

  function RunAll(w: Pos, events: seq<Event>): State {
    if events == [] then State([], [], map[])
    else Step(w, RunAll(w, events[..|events| - 1]), events[|events| - 1])
  }

  /** The prefixes charged by one request, in order. */
  function PrefixesBy(charges: seq<Charge>, owners: seq<nat>, req: nat): seq<string>
    requires |charges| == |owners|
  {
    if charges == [] then []
    else
      var n := |charges| - 1;
      PrefixesBy(charges[..n], owners[..n], req) + if owners[n] == req then [charges[n].prefix] else []
  }

  function FirstPrefixes(rules: seq<Rule>, n: nat): seq<string>
    requires n <= |rules|
  {
    seq(n, i requires 0 <= i < n => rules[i].prefix)
  }

  /** Every request has charged exactly the rules it passed, in rule order. */
  ghost predicate ChargesExactlyPassed(s: State) {
    && |s.owners| == |s.charges|
    && (forall i :: 0 <= i < |s.owners| ==> s.owners[i] in s.flights)
    && (forall r :: r in s.flights ==> FlightConsistent(s, r))
  }

  ghost predicate FlightConsistent(s: State, r: nat)
    requires |s.owners| == |s.charges| && r in s.flights
  {
    var f := s.flights[r];
    && f.passed <= |f.rules|
    && PrefixesBy(s.charges, s.owners, r) == FirstPrefixes(f.rules, f.passed)
    && (f.status == Admitted <==> f.passed == |f.rules|)
  }

  lemma {:induction false} PrefixesAppend(charges: seq<Charge>, owners: seq<nat>, c: Charge, o: nat, req: nat)
    requires |charges| == |owners|
    ensures PrefixesBy(charges + [c], owners + [o], req)
         == PrefixesBy(charges, owners, req) + if o == req then [c.prefix] else []
  {
    assert (charges + [c])[..|charges|] == charges && (owners + [o])[..|owners|] == owners;
  }

  lemma {:induction false} NothingCharged(charges: seq<Charge>, owners: seq<nat>, req: nat)
    requires |charges| == |owners| && req !in owners
    ensures PrefixesBy(charges, owners, req) == []
  {
    if charges != [] {
      NothingCharged(charges[..|charges| - 1], owners[..|charges| - 1], req);
    }
  }

  lemma StepChargesExactlyPassed(w: Pos, s: State, e: Event)
    requires ChargesExactlyPassed(s)
    ensures ChargesExactlyPassed(Step(w, s, e))
  {
    hide Admits, TimesOf, PrefixesBy;
    var s' := Step(w, s, e);
    match e
    case Arrive(req, rules) =>
      if req !in s.flights {
        NothingCharged(s.charges, s.owners, req);
        forall r | r in s'.flights ensures FlightConsistent(s', r) {
          assert r in s.flights ==> FlightConsistent(s, r);
        }
      }
    case CheckNext(req, now) =>
      if Waiting(s, req) {
        var rule := NextRule(s, req);
        forall r | r in s'.flights ensures FlightConsistent(s', r) {
          assert FlightConsistent(s, r);
          PrefixesAppend(s.charges, s.owners, Charge(rule.prefix, now), req, r);
          if r == req {
            var f := s.flights[r];
            assert FirstPrefixes(f.rules, f.passed + 1) == FirstPrefixes(f.rules, f.passed) + [rule.prefix];
          }
        }
      }
  }

  /** In every interleaving a request stopped at rule j has charged exactly rules
      0..j-1, and a request that went through has charged all of its rules. */
  lemma {:induction false} RunChargesExactlyPassed(w: Pos, events: seq<Event>)
    ensures ChargesExactlyPassed(RunAll(w, events))
  {
    hide Step;
    if events != [] {
      RunChargesExactlyPassed(w, events[..|events| - 1]);
      StepChargesExactlyPassed(w, RunAll(w, events[..|events| - 1]), events[|events| - 1]);
    }
  }

  // --------------------------------------------------------- per-key guarantees

  /** The clock readings at which the key `prefix` was checked. */
  function CheckTimes(w: Pos, events: seq<Event>, prefix: string): seq<int> {
    if events == [] then []
    else
      var s, e := RunAll(w, events[..|events| - 1]), events[|events| - 1];
      CheckTimes(w, events[..|events| - 1], prefix)
      + if e.CheckNext? && Waiting(s, e.req) && NextRule(s, e.req).prefix == prefix then [e.now] else []
  }

  /** All rules on one key carry the configured limit. */
  ghost predicate UniformLimit(events: seq<Event>, prefix: string, limit: int) {
    forall e :: e in events && e.Arrive? ==> RulesUniform(e.rules, prefix, limit)
  }

  ghost predicate FlightsUniform(s: State, prefix: string, limit: int) {
    forall r :: r in s.flights ==> RulesUniform(s.flights[r].rules, prefix, limit)
  }

  ghost predicate RulesUniform(rules: seq<Rule>, prefix: string, limit: int) {
    forall i :: 0 <= i < |rules| && rules[i].prefix == prefix ==> rules[i].limit == limit
  }

  lemma {:induction false} FlightsKeepLimit(w: Pos, events: seq<Event>, prefix: string, limit: int)
    requires UniformLimit(events, prefix, limit)
    ensures FlightsUniform(RunAll(w, events), prefix, limit)
  {
    hide Admits, RulesUniform;
    if events != [] {
      var prior, e := events[..|events| - 1], events[|events| - 1];
      assert e in events && forall x :: x in prior ==> x in events;
      FlightsKeepLimit(w, prior, prefix, limit);
    }
  }

  /** However requests interleave, the admissions of one key are those of the
      single-key estimator run over that key's own check times. */
  lemma {:induction false} KeyLogIsRun(w: Pos, events: seq<Event>, prefix: string, limit: int)
    requires UniformLimit(events, prefix, limit)
    ensures TimesOf(RunAll(w, events).charges, prefix) == Run(w, limit, CheckTimes(w, events, prefix))
  {
    hide Admits, Run, TimesOf;
    if events == [] {
      EmptyRun(w, limit);
      NoTimes(prefix);
    } else {
      var prior, e := events[..|events| - 1], events[|events| - 1];
      var s, times := RunAll(w, prior), CheckTimes(w, prior, prefix);
      assert forall x :: x in prior ==> x in events;
      KeyLogIsRun(w, prior, prefix, limit);
      FlightsKeepLimit(w, prior, prefix, limit);
      assert times + [] == times;
      if e.CheckNext? && Waiting(s, e.req) {
        var rule := NextRule(s, e.req);
        assert RulesUniform(s.flights[e.req].rules, prefix, limit);
        TimesAppend(s.charges, Charge(rule.prefix, e.now), prefix);
        assert TimesOf(s.charges, prefix) + [] == TimesOf(s.charges, prefix);
        RunAppend(w, limit, times, e.now);
      }
    }
  }

  lemma NoTimes(prefix: string)
    ensures TimesOf([], prefix) == []
  {
  }

  ghost predicate ClockSorted(events: seq<Event>) {
    forall i, j :: 0 <= i < j < |events| && events[i].CheckNext? && events[j].CheckNext? ==>
             events[i].now <= events[j].now
  }

  lemma {:induction false} CheckTimesSorted(w: Pos, events: seq<Event>, prefix: string)
    requires ClockSorted(events)
    ensures Sorted(CheckTimes(w, events, prefix))
    ensures forall t :: t in CheckTimes(w, events, prefix) ==>
              exists i :: 0 <= i < |events| && events[i].CheckNext? && events[i].now == t
  {
    hide RunAll, NextRule, Waiting;
    if events != [] {
      var prior, e := events[..|events| - 1], events[|events| - 1];
      CheckTimesSorted(w, prior, prefix);
      var times := CheckTimes(w, prior, prefix);
      forall i | 0 <= i < |times| && e.CheckNext? ensures times[i] <= e.now {
        assert times[i] in times;
        var j :| 0 <= j < |prior| && prior[j].CheckNext? && prior[j].now == times[i];
        assert events[j] == prior[j];
      }
      forall t | t in times ensures exists i :: 0 <= i < |events| && events[i].CheckNext? && events[i].now == t {
        var j :| 0 <= j < |prior| && prior[j].CheckNext? && prior[j].now == t;
        assert events[j] == prior[j];
      }
    }
  }

  /** The window bound for the whole middleware: any number of concurrent
      requests, any rule lists, any key, any window. */
  lemma ConcurrentWindowBound(w: Pos, events: seq<Event>, prefix: string, limit: nat, k: int, a: int)
    requires UniformLimit(events, prefix, limit) && ClockSorted(events) && 0 <= a < w
    ensures InWindow(w, TimesOf(RunAll(w, events).charges, prefix), k, a) <= WorstCase(w, limit, a)
  {
    hide RunAll, TimesOf, InWindow, WorstCase, CheckTimes;
    KeyLogIsRun(w, events, prefix, limit);
    CheckTimesSorted(w, events, prefix);
    WorstCaseBound(w, limit, CheckTimes(w, events, prefix), k, a);
  }

  // ------------------------------------------------- buckets count the requests

  /** No request lists the same key twice. */
  ghost predicate DistinctPrefixes(rules: seq<Rule>) {
    forall i, j :: 0 <= i < j < |rules| ==> rules[i].prefix != rules[j].prefix
  }

  ghost predicate DistinctCharges(charges: seq<Charge>, owners: seq<nat>)
    requires |charges| == |owners|
  {
    forall i, j :: 0 <= i < j < |charges| ==> owners[i] != owners[j] || charges[i].prefix != charges[j].prefix
  }

  ghost predicate ChargesFromPassed(s: State)
    requires |s.owners| == |s.charges|
  {
    forall i :: 0 <= i < |s.charges| ==>
      && s.owners[i] in s.flights
      && s.flights[s.owners[i]].passed <= |s.flights[s.owners[i]].rules|
      && s.charges[i].prefix in FirstPrefixes(s.flights[s.owners[i]].rules, s.flights[s.owners[i]].passed)
  }

  predicate Matches(w: Pos, c: Charge, prefix: string, b: int) {
    c.prefix == prefix && BucketOf(w, c.at) == b
  }

  /** The requests that charged key `prefix` in bucket b. */
  function ChargedIn(w: Pos, charges: seq<Charge>, owners: seq<nat>, prefix: string, b: int): (reqs: set<nat>)
    requires |charges| == |owners|
    ensures forall r :: r in reqs <==>
              exists i :: 0 <= i < |charges| && owners[i] == r && Matches(w, charges[i], prefix, b)
  {
    if charges == [] then {}
    else
      var n := |charges| - 1;
      var earlier := ChargedIn(w, charges[..n], owners[..n], prefix, b);
      assert forall i :: 0 <= i < n ==> charges[..n][i] == charges[i] && owners[..n][i] == owners[i];
      if Matches(w, charges[n], prefix, b) then earlier + {owners[n]} else earlier
  }

  lemma {:induction false} BucketCountsRequests(w: Pos, charges: seq<Charge>, owners: seq<nat>, prefix: string, b: int)
    requires |charges| == |owners| && DistinctCharges(charges, owners)
    ensures InBucket(w, TimesOf(charges, prefix), b) == |ChargedIn(w, charges, owners, prefix, b)|
  {
    hide Start, BucketOf, InBucket, TimesOf, ChargedIn;
    if charges == [] {
      NoTimes(prefix);
      EmptyBucket(w, b);
      assert ChargedIn(w, charges, owners, prefix, b) == {};
    } else {
      var n := |charges| - 1;
      var log := TimesOf(charges[..n], prefix);
      BucketCountsRequests(w, charges[..n], owners[..n], prefix, b);
      assert charges == charges[..n] + [charges[n]];
      TimesAppend(charges[..n], charges[n], prefix);
      BucketAppend(w, log, charges[n].at, b);
      assert log + [] == log;
      ChargedInStep(w, charges, owners, prefix, b);
    }
  }

  /** The last charge adds its request, which had not charged this key before. */
  lemma ChargedInStep(w: Pos, charges: seq<Charge>, owners: seq<nat>, prefix: string, b: int)
    requires |charges| == |owners| && charges != [] && DistinctCharges(charges, owners)
    ensures var n := |charges| - 1;
            var earlier := ChargedIn(w, charges[..n], owners[..n], prefix, b);
            ChargedIn(w, charges, owners, prefix, b)
            == (if Matches(w, charges[n], prefix, b) then earlier + {owners[n]} else earlier)
            && (Matches(w, charges[n], prefix, b) ==> owners[n] !in earlier)
  {
    hide BucketOf;
  }

  lemma EmptyBucket(w: Pos, b: int)
    ensures InBucket(w, [], b) == 0
  {
  }

  /** Each charge comes from a rule its request has passed, and no request lists
      or charges one key twice. */
  ghost predicate OneChargePerRule(s: State) {
    && |s.owners| == |s.charges|
    && DistinctCharges(s.charges, s.owners) && ChargesFromPassed(s)
    && (forall r :: r in s.flights ==> DistinctPrefixes(s.flights[r].rules))
  }

  lemma StepOneChargePerRule(w: Pos, s: State, e: Event)
    requires OneChargePerRule(s)
    requires e.Arrive? ==> DistinctPrefixes(e.rules)
    ensures OneChargePerRule(Step(w, s, e))
  {
    hide Admits, FirstPrefixes;
    var s' := Step(w, s, e);
    if e.CheckNext? && Waiting(s, e.req) {
      var f := s.flights[e.req];
      NextIsNew(f);
    }
  }

  lemma NextIsNew(f: Flight)
    requires f.passed < |f.rules| && DistinctPrefixes(f.rules)
    ensures f.rules[f.passed].prefix !in FirstPrefixes(f.rules, f.passed)
    ensures FirstPrefixes(f.rules, f.passed + 1) == FirstPrefixes(f.rules, f.passed) + [f.rules[f.passed].prefix]
  {
  }

  lemma {:induction false} RunOneChargePerRule(w: Pos, events: seq<Event>)
    requires forall e :: e in events && e.Arrive? ==> DistinctPrefixes(e.rules)
    ensures OneChargePerRule(RunAll(w, events))
  {
    hide Step;
    if events != [] {
      var prior, e := events[..|events| - 1], events[|events| - 1];
      assert e in events && forall x :: x in prior ==> x in events;
      RunOneChargePerRule(w, prior);
      StepOneChargePerRule(w, RunAll(w, prior), e);
    }
  }

  /** Every bucket count is the number of requests that passed that rule in that
      bucket; in particular no set of admitted requests exceeds it. */
  lemma RunBucketCounts(w: Pos, events: seq<Event>, prefix: string, b: int)
    requires forall e :: e in events && e.Arrive? ==> DistinctPrefixes(e.rules)
    ensures var s := RunAll(w, events);
            && |s.owners| == |s.charges|
            && InBucket(w, TimesOf(s.charges, prefix), b) == |ChargedIn(w, s.charges, s.owners, prefix, b)|
  {
    hide RunAll, InBucket, TimesOf;
    RunOneChargePerRule(w, events);
    var s := RunAll(w, events);
    BucketCountsRequests(w, s.charges, s.owners, prefix, b);
  }

  lemma {:induction false} ChargedPrefix(charges: seq<Charge>, owners: seq<nat>, req: nat, prefix: string)
    requires |charges| == |owners| && prefix in PrefixesBy(charges, owners, req)
    ensures exists i :: 0 <= i < |charges| && owners[i] == req && charges[i].prefix == prefix
  {
    var n := |charges| - 1;
    if owners[n] != req || charges[n].prefix != prefix {
      ChargedPrefix(charges[..n], owners[..n], req, prefix);
      var i :| 0 <= i < n && owners[..n][i] == req && charges[..n][i].prefix == prefix;
      assert owners[i] == req && charges[i].prefix == prefix;
    }
  }

  /** The requests that passed all their rules and charged `prefix` in bucket b. */
  ghost function AdmittedIn(w: Pos, s: State, prefix: string, b: int): set<nat>
    requires |s.owners| == |s.charges|
  {
    set r | r in ChargedIn(w, s.charges, s.owners, prefix, b) && r in s.flights && s.flights[r].status == Admitted
  }

  /** Request r was admitted, and `prefix` is the key of its rule j. */
  predicate WentThrough(s: State, r: nat, j: nat, prefix: string) {
    && r in s.flights && s.flights[r].status == Admitted && j < |s.flights[r].rules|
    && s.flights[r].rules[j].prefix == prefix
  }

  /** A request that went through is counted in some bucket of every key it
      lists, and no bucket admits more requests than its counter shows. */
  lemma AdmittedWithinCounts(w: Pos, events: seq<Event>, prefix: string)
    requires forall e :: e in events && e.Arrive? ==> DistinctPrefixes(e.rules)
    ensures var s := RunAll(w, events);
            && |s.owners| == |s.charges|
            && (forall b :: |AdmittedIn(w, s, prefix, b)| <= InBucket(w, TimesOf(s.charges, prefix), b))
            && (forall r: nat, j: nat :: WentThrough(s, r, j, prefix) ==> exists b :: r in AdmittedIn(w, s, prefix, b))
  {
    hide RunAll, InBucket, TimesOf, BucketOf, ChargedIn, PrefixesBy;
    RunChargesExactlyPassed(w, events);
    var s := RunAll(w, events);
    forall b ensures |AdmittedIn(w, s, prefix, b)| <= InBucket(w, TimesOf(s.charges, prefix), b) {
      RunBucketCounts(w, events, prefix, b);
      SubsetSize(AdmittedIn(w, s, prefix, b), ChargedIn(w, s.charges, s.owners, prefix, b));
    }
    forall r: nat, j: nat | WentThrough(s, r, j, prefix)
      ensures exists b :: r in AdmittedIn(w, s, prefix, b)
    {
      assert FlightConsistent(s, r);
      assert FirstPrefixes(s.flights[r].rules, s.flights[r].passed)[j] == prefix;
      ChargedPrefix(s.charges, s.owners, r, prefix);
      var i :| 0 <= i < |s.charges| && s.owners[i] == r && s.charges[i].prefix == prefix;
      var b := BucketOf(w, s.charges[i].at);
      assert Matches(w, s.charges[i], prefix, b);
      assert r in AdmittedIn(w, s, prefix, b);
    }
  }

  lemma SubsetSize(a: set<nat>, b: set<nat>)
    requires a <= b
    ensures |a| <= |b|
  {
    assert b == a + (b - a);
  }

  // --------------------------------------------------------- requests that are stopped

  /** The event is a check of request r's next rule, which the estimator refuses. */
  predicate Refused(w: Pos, s: State, e: Event, r: nat) {
    && e.CheckNext? && e.req == r && Waiting(s, r)
    && !Admits(w, NextRule(s, r).limit, TimesOf(s.charges, NextRule(s, r).prefix), e.now)
  }

  lemma StepBlocks(w: Pos, s: State, e: Event, r: nat)
    ensures var s' := Step(w, s, e);
            && (r in s.flights ==> r in s'.flights && s'.flights[r].rules == s.flights[r].rules)
            && ((r in s'.flights && s'.flights[r].status == Blocked)
                <==> (r in s.flights && s.flights[r].status == Blocked) || Refused(w, s, e, r))
            && (r in s.flights && s.flights[r].status == Blocked ==> s'.flights[r] == s.flights[r])
            && (Refused(w, s, e, r) ==>
                  s'.charges == s.charges && s'.owners == s.owners && s'.flights[r].passed == s.flights[r].passed)
  {
    hide Admits, TimesOf;
  }

  predicate RefusedAt(w: Pos, events: seq<Event>, k: nat, r: nat) {
    k < |events| && Refused(w, RunAll(w, events[..k]), events[k], r)
  }

  predicate IsBlocked(s: State, r: nat) {
    r in s.flights && s.flights[r].status == Blocked
  }

  lemma RefusedPrefix(w: Pos, events: seq<Event>, k: nat, r: nat)
    requires events != [] && k < |events| - 1
    ensures RefusedAt(w, events[..|events| - 1], k, r) <==> RefusedAt(w, events, k, r)
  {
    assert events[..|events| - 1][..k] == events[..k];
  }

  /** In every run, a request is blocked exactly when some check of its next rule has
      been refused. */
  lemma {:induction false} BlockedExactly(w: Pos, events: seq<Event>, r: nat)
    ensures IsBlocked(RunAll(w, events), r) <==> exists k: nat :: RefusedAt(w, events, k, r)
  {
    hide RefusedAt, IsBlocked;
    if events == [] {
      NoneBlocked(w, r);
    } else {
      var n := |events| - 1;
      BlockedExactly(w, events[..n], r);
      LastBlocks(w, events, r);
      forall k: nat | k < n {
        RefusedPrefix(w, events, k, r);
      }
      forall k: nat | RefusedAt(w, events, k, r) || RefusedAt(w, events[..n], k, r) ensures k <= n {
        InRangeWhenRefused(w, events, k, r);
        InRangeWhenRefused(w, events[..n], k, r);
      }
      if k: nat :| RefusedAt(w, events[..n], k, r) {
        assert k < n by {
          InRangeWhenRefused(w, events[..n], k, r);
        }
        assert RefusedAt(w, events, k, r);
      }
      if k: nat :| RefusedAt(w, events, k, r) && k < n {
        assert RefusedAt(w, events[..n], k, r);
      }
    }
  }

  lemma InRangeWhenRefused(w: Pos, events: seq<Event>, k: nat, r: nat)
    ensures RefusedAt(w, events, k, r) ==> k < |events|
  {
  }

  lemma NoneBlocked(w: Pos, r: nat)
    ensures !IsBlocked(RunAll(w, []), r) && forall k: nat :: !RefusedAt(w, [], k, r)
  {
  }

  lemma LastBlocks(w: Pos, events: seq<Event>, r: nat)
    requires events != []
    ensures var n := |events| - 1;
            IsBlocked(RunAll(w, events), r) <==> IsBlocked(RunAll(w, events[..n]), r) || RefusedAt(w, events, n, r)
  {
    hide Step, Refused;
    StepBlocks(w, RunAll(w, events[..|events| - 1]), events[|events| - 1], r);
  }

  /** A blocked request stays as it is, whatever happens: it is never checked again
      and never charges another key. */
  lemma {:induction false} BlockedForGood(w: Pos, events: seq<Event>, more: seq<Event>, r: nat)
    requires var s := RunAll(w, events); r in s.flights && s.flights[r].status == Blocked
    ensures var s, s' := RunAll(w, events), RunAll(w, events + more);
            && r in s'.flights && s'.flights[r] == s.flights[r] && !Waiting(s', r)
            && |s.owners| == |s.charges| && |s'.owners| == |s'.charges|
            && PrefixesBy(s'.charges, s'.owners, r) == PrefixesBy(s.charges, s.owners, r)
  {
    hide Step, PrefixesBy;
    if more == [] {
      assert events + more == events;
      RunChargesExactlyPassed(w, events);
    } else {
      var n := |more| - 1;
      BlockedForGood(w, events, more[..n], r);
      assert (events + more)[..|events + more| - 1] == events + more[..n];
      StepBlocks(w, RunAll(w, events + more[..n]), more[n], r);
      RunChargesExactlyPassed(w, events);
      RunChargesExactlyPassed(w, events + more);
      assert FlightConsistent(RunAll(w, events), r) && FlightConsistent(RunAll(w, events + more), r);
    }
  }
}
