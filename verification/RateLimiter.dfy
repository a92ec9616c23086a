/** The rate limiter of the security middleware: expiring Redis counters, the
    Lua script, and the loop over a request's rules. */
module RateLimiter {
  import opened Expiry
  import opened Rounding
  import opened SlidingWindow
  import opened Text

  /** One request admitted under one rule. */
  datatype Charge = Charge(prefix: string, at: int)

  datatype Rule = Rule(prefix: string, limit: int)

  datatype Verdict =
    | Rejected(limit: int, resetAt: int, retryAfter: int)
    | Served(limit: int, remaining: int, resetAt: int)

  /** `f"{key_prefix}:{bucket}"`. */
  function BucketKey(prefix: string, b: int): string {
    prefix + [':'] + PrintInt(b)
  }

  lemma BucketKeyInjective(p: string, b: int, q: string, c: int)
    requires BucketKey(p, b) == BucketKey(q, c)
    ensures p == q && b == c
  {
    LastPartUnique(p, PrintInt(b), q, PrintInt(c), ':');
    ParsePrintInt(b);
    ParsePrintInt(c);
  }

  /** A bucket key is the prefix, a colon, and the bucket in decimal. */
  lemma BucketKeyParts(prefix: string, b: int)
    ensures var key, n := BucketKey(prefix, b), |prefix|;
            |key| > n + 1 && key[..n] == prefix && key[n] == ':' && ParseInt(key[n + 1..]) == Some(b)
  {
    var key, n := BucketKey(prefix, b), |prefix|;
    assert key[..n] == prefix && key[n + 1..] == PrintInt(b);
    ParsePrintInt(b);
  }

  /** The admission times charged to one key prefix. */
  function TimesOf(charges: seq<Charge>, prefix: string): seq<int> {
    if charges == [] then []
    else
      var c := charges[|charges| - 1];
      TimesOf(charges[..|charges| - 1], prefix) + if c.prefix == prefix then [c.at] else []
  }

  lemma {:induction false} TimesAppend(charges: seq<Charge>, c: Charge, prefix: string)
    ensures TimesOf(charges + [c], prefix) == TimesOf(charges, prefix) + if c.prefix == prefix then [c.at] else []
  {
    assert (charges + [c])[..|charges|] == charges;
  }

  /** What Redis answers to GET at time `now`; a missing or expired key reads as 0. */
  function Get(cells: map<string, Cell<int>>, key: string, now: int): int {
    var count := Read(if key in cells then Some(cells[key]) else None, now);
    if count.Some? then count.value else 0
  }

  lemma GetExactly(cells: map<string, Cell<int>>, key: string, now: int)
    ensures key in cells && now < cells[key].expireAt ==> Get(cells, key, now) == cells[key].value
    ensures key !in cells || now >= cells[key].expireAt ==> Get(cells, key, now) == 0
  {
  }

  /** The counter stored for bucket b agrees with the ideal, never-expiring
      count, and is gone only after every check that could read it. */
  ghost predicate Agrees(w: Pos, clock: int, cells: map<string, Cell<int>>, charges: seq<Charge>, p: string, b: int) {
    var n, key := InBucket(w, TimesOf(charges, p), b), BucketKey(p, b);
    && (key in cells ==> cells[key].value == n && cells[key].expireAt >= Start(w, b + 2))
    && (key !in cells && n > 0 ==> clock >= Start(w, b + 2))
  }

  ghost predicate Refines(w: Pos, clock: int, cells: map<string, Cell<int>>, charges: seq<Charge>) {
    && (forall i :: 0 <= i < |charges| ==> charges[i].at <= clock)
    && (forall p, b :: Agrees(w, clock, cells, charges, p, b))
  }

  /** A live check reads the ideal count in both buckets it looks at. */
  lemma ReadsIdealCount(w: Pos, clock: int, cells: map<string, Cell<int>>, charges: seq<Charge>, p: string, b: int,
                        now: int)
    requires Refines(w, clock, cells, charges) && clock <= now
    requires b == BucketOf(w, now) || b == BucketOf(w, now) - 1
    ensures Get(cells, BucketKey(p, b), now) == InBucket(w, TimesOf(charges, p), b)
  {
    hide Start, BucketOf, InBucket, TimesOf, BucketKey;
    BucketBounds(w, now, BucketOf(w, now));
    StartNext(w, b);
    StartNext(w, b + 1);
    assert Agrees(w, clock, cells, charges, p, b);
  }

  /** Counting one admission in the store and in the ideal log keeps them equal. */
  lemma ChargeKeepsRefinement(w: Pos, clock: int, cells: map<string, Cell<int>>, charges: seq<Charge>, prefix: string,
                              now: int)
    requires Refines(w, clock, cells, charges) && clock <= now
    ensures var key := BucketKey(prefix, BucketOf(w, now));
            Refines(w, now, cells[key := Cell(Get(cells, key, now) + 1, now + 2 * w)], charges + [Charge(prefix, now)])
  {
    hide Start, BucketOf, InBucket, TimesOf, BucketKey;
    var bucket := BucketOf(w, now);
    var key := BucketKey(prefix, bucket);
    var cells' := cells[key := Cell(Get(cells, key, now) + 1, now + 2 * w)];
    var charges' := charges + [Charge(prefix, now)];
    ReadsIdealCount(w, clock, cells, charges, prefix, bucket, now);
    forall p, b ensures Agrees(w, now, cells', charges', p, b) {
      assert Agrees(w, clock, cells, charges, p, b);
      TimesAppend(charges, Charge(prefix, now), p);
      BucketAppend(w, TimesOf(charges, p), now, b);
      BucketBounds(w, now, bucket);
      StartNext(w, bucket + 1);
      assert TimesOf(charges, p) + [] == TimesOf(charges, p);
      if BucketKey(p, b) == key {
        BucketKeyInjective(p, b, prefix, bucket);
      }
    }
  }

  lemma BucketAppend(w: Pos, log: seq<int>, now: int, b: int)
    ensures InBucket(w, log + [now], b) == InBucket(w, log, b) + if BucketOf(w, now) == b then 1 else 0
  {
    hide Start, BucketOf, Count;
    CountAppend(log, now, Start(w, b), Start(w, b + 1));
    BucketBounds(w, now, b);
  }

  /** The charges that rules leave behind when all of them pass. */
  function ChargesFor(rules: seq<Rule>, readings: seq<int>): seq<Charge>
    requires |rules| == |readings|
  {
    seq(|rules|, i requires 0 <= i < |rules| => Charge(rules[i].prefix, readings[i]))
  }

  /** How many leading rules pass, each evaluated at its own clock reading
      against everything charged before it. */
  function Passed(w: Pos, charges: seq<Charge>, rules: seq<Rule>, readings: seq<int>): (n: nat)
    requires |rules| == |readings|
    ensures n <= |rules|
    decreases |rules|
  {
    if rules == [] || !Admits(w, rules[0].limit, TimesOf(charges, rules[0].prefix), readings[0]) then 0
    else 1 + Passed(w, charges + [Charge(rules[0].prefix, readings[0])], rules[1..], readings[1..])
  }

  lemma {:induction false} PassedStep(w: Pos, charges: seq<Charge>, rules: seq<Rule>, readings: seq<int>, i: nat)
    requires |rules| == |readings| && i < |rules|
    ensures var ok := Admits(w, rules[i].limit, TimesOf(charges, rules[i].prefix), readings[i]);
            Passed(w, charges, rules[i..], readings[i..])
            == if ok then
                 1 + Passed(w, charges + [Charge(rules[i].prefix, readings[i])], rules[i + 1..], readings[i + 1..])
               else 0
  {
    hide Admits;
    assert rules[i..][1..] == rules[i + 1..] && readings[i..][1..] == readings[i + 1..];
  }

  class Limiter {
    const w: Pos
    var cells: map<string, Cell<int>>
    ghost var charges: seq<Charge>
    ghost var clock: int

    /** The store refines the ideal log of charges. */
    ghost predicate Valid()
      reads this
    {
      Refines(w, clock, cells, charges)
    }

    constructor (window: Pos)
      ensures Valid() && w == window && charges == [] && cells == map[]
    {
      w := window;
      cells := map[];
      charges := [];
      clock := 0;
      new;
      assert Valid() by {
        forall p, b ensures Agrees(w, clock, cells, charges, p, b) {
        }
      }
    }

    /** Redis may drop expired keys at any moment. */
    method Reap(now: int)
      requires Valid() && clock <= now
      modifies this
      ensures Valid() && clock == now && charges == old(charges)
      ensures cells == map key | key in old(cells) && now < old(cells)[key].expireAt :: old(cells)[key]
    {
      cells := map key | key in cells && now < cells[key].expireAt :: cells[key];
      clock := now;
      forall p, b ensures Agrees(w, clock, cells, charges, p, b) {
        assert Agrees(w, old(clock), old(cells), old(charges), p, b);
      }
    }

    /** The Lua script: two reads, and on admission INCR and EXPIRE. */
    method Script(prevKey: string, currKey: string, limit: int, weight: int, now: int)
      returns (count: int, remaining: int, blocked: bool)
      modifies this`cells
      ensures var prev, curr := Get(old(cells), prevKey, now), Get(old(cells), currKey, now);
              var estimated := Carry(prev, weight) + curr;
              && blocked == (estimated >= limit)
              && count == (if blocked then estimated else curr + 1)
              && remaining == (if blocked then 0 else limit - estimated - 1)
              && cells == if blocked then old(cells) else old(cells)[currKey := Cell(curr + 1, now + 2 * w)]
    {
      var prev, curr := Get(cells, prevKey, now), Get(cells, currKey, now);
      var estimated := Carry(prev, weight) + curr;
      if estimated >= limit {
        return estimated, 0, true;
      }
      cells := cells[currKey := Cell(curr + 1, now + 2 * w)];
      estimated := Carry(prev, weight) + (curr + 1);
      return curr + 1, Max(0, limit - estimated), false;
    }

    /** `_check_sliding_window`: the decision is the ideal estimator's decision,
        an admission adds one charge, and a blocked check changes no counter. */
    method Check(prefix: string, limit: int, now: int) returns (blocked: bool, remaining: int, resetAt: int)
      requires Valid() && clock <= now
      modifies this
      ensures Valid() && clock == now
      ensures blocked <==> !Admits(w, limit, TimesOf(old(charges), prefix), now)
      ensures blocked ==> charges == old(charges) && cells == old(cells) && remaining == 0
      ensures !blocked ==> charges == old(charges) + [Charge(prefix, now)]
      ensures !blocked ==> remaining == limit - Estimate(w, TimesOf(charges, prefix), now) >= 0
      ensures resetAt == Start(w, BucketOf(w, now) + 1)
    {
      hide Start, BucketOf, OffsetOf, Weight, Carry, InBucket, TimesOf, BucketKey;
      var bucket := BucketOf(w, now);
      var weight := Weight(w, OffsetOf(w, now));
      resetAt := Start(w, bucket + 1);
      ReadsIdealCount(w, clock, cells, charges, prefix, bucket - 1, now);
      ReadsIdealCount(w, clock, cells, charges, prefix, bucket, now);
      ChargeKeepsRefinement(w, clock, cells, charges, prefix, now);
      var count;
      count, remaining, blocked := Script(BucketKey(prefix, bucket - 1), BucketKey(prefix, bucket), limit, weight, now);
      if blocked {
        LaterKeepsRefinement(w, clock, now, cells, charges);
      } else {
        TimesAppend(charges, Charge(prefix, now), prefix);
        BucketAppend(w, TimesOf(charges, prefix), now, bucket);
        BucketAppend(w, TimesOf(charges, prefix), now, bucket - 1);
        charges := charges + [Charge(prefix, now)];
      }
      clock := now;
    }

    /** The rule loop of the middleware.  A request stopped by rule j has charged
        exactly rules 0..j-1, a served request all of its rules. */
    method HandleRequest(rules: seq<Rule>, readings: seq<int>) returns (verdict: Verdict)
      requires Valid() && rules != [] && |rules| == |readings|
      requires Sorted(readings) && clock <= readings[0]
      modifies this
      ensures Valid()
      ensures var j := Passed(w, old(charges), rules, readings);
              && charges == old(charges) + ChargesFor(rules[..j], readings[..j])
              && (if j < |rules| then
                    verdict == Rejected(rules[j].limit, Start(w, BucketOf(w, readings[j]) + 1), w)
                  else
                    var first := TimesOf(old(charges) + [Charge(rules[0].prefix, readings[0])], rules[0].prefix);
                    verdict == Served(rules[0].limit, rules[0].limit - Estimate(w, first, readings[0]),
                                      Start(w, BucketOf(w, readings[0]) + 1)))
    {
      hide Start, BucketOf, Estimate, TimesOf, Admits, Passed, Refines;
      var primaryLimit, primaryRemaining, primaryReset := rules[0].limit, rules[0].limit, readings[0] + w;
      ghost var first := TimesOf(charges + [Charge(rules[0].prefix, readings[0])], rules[0].prefix);
      var i := 0;
      assert rules[0..] == rules && readings[0..] == readings;
      assert charges == charges + ChargesFor(rules[..0], readings[..0]);
      while i < |rules|
        invariant 0 <= i <= |rules|
        invariant Valid() && (i < |rules| ==> clock <= readings[i])
        invariant charges == old(charges) + ChargesFor(rules[..i], readings[..i])
        invariant Passed(w, old(charges), rules, readings) == i + Passed(w, charges, rules[i..], readings[i..])
        invariant i > 0 ==> primaryLimit == rules[0].limit && primaryRemaining >= 0
                            && primaryReset == Start(w, BucketOf(w, readings[0]) + 1)
                            && primaryRemaining == primaryLimit - Estimate(w, first, readings[0])
      {
        PassedStep(w, charges, rules, readings, i);
        var blocked, remaining, resetAt := Check(rules[i].prefix, rules[i].limit, readings[i]);
        if i == 0 {
          primaryLimit, primaryRemaining, primaryReset := rules[i].limit, remaining, resetAt;
        }
        if blocked {
          return Rejected(rules[i].limit, resetAt, w);
        }
        assert ChargesFor(rules[..i + 1], readings[..i + 1])
            == ChargesFor(rules[..i], readings[..i]) + [Charge(rules[i].prefix, readings[i])];
        i := i + 1;
      }
      NothingLeftPasses(w, charges, rules, readings);
      return Served(primaryLimit, Max(0, primaryRemaining), primaryReset);
    }
  }

  lemma NothingLeftPasses(w: Pos, charges: seq<Charge>, rules: seq<Rule>, readings: seq<int>)
    requires |rules| == |readings|
    ensures Passed(w, charges, rules[|rules|..], readings[|rules|..]) == 0
  {
  }

  lemma LaterKeepsRefinement(w: Pos, clock: int, now: int, cells: map<string, Cell<int>>, charges: seq<Charge>)
    requires Refines(w, clock, cells, charges) && clock <= now
    ensures Refines(w, now, cells, charges)
  {
    forall p, b ensures Agrees(w, now, cells, charges, p, b) {
      assert Agrees(w, clock, cells, charges, p, b);
    }
  }
}
