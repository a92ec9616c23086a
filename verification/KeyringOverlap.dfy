/** Overlapping transactions on the keyring table: each sees the committed rows and
    its own, and one whose new versions are taken by the time it commits aborts. */
module KeyringOverlap {
  import opened Keyring
  import opened Sequences
  import opened Text

  /** What a transaction will write: rows it deactivates and rows it adds; `due` are
      the keys it has still to rotate. */
  datatype Draft = Draft(off: set<nat>, add: seq<Row>, due: seq<nat>)

  datatype State = State(rows: seq<Row>, open: map<nat, Draft>)

  datatype Event =
    | BeginEnsure(tx: nat, org: nat, key: string, now: int)
    | BeginRotate(tx: nat, cutoff: int, batch: nat, due: seq<nat>)
    | RotateNext(tx: nat, key: string, now: int)
    | Commit(tx: nat)
    | Abort(tx: nat)

  /** The table as the transaction sees it. */
  function Applied(rows: seq<Row>, d: Draft): (seen: seq<Row>)
    ensures |seen| == |rows| + |d.add|
    ensures forall i :: 0 <= i < |rows| ==> seen[i] == if i in d.off then rows[i].(active := false) else rows[i]
    ensures forall i :: 0 <= i < |d.add| ==> seen[|rows| + i] == d.add[i]
  {
    seq(|rows|, i requires 0 <= i < |rows| => if i in d.off then rows[i].(active := false) else rows[i]) + d.add
  }

  /** The unique constraint on (org_id, key_version). */
  predicate Conflict(rows: seq<Row>, add: seq<Row>) {
    exists i, j :: 0 <= i < |rows| && 0 <= j < |add| && rows[i].org == add[j].org && rows[i].version == add[j].version
  }

  /** One turn of the rotation loop. */
  function Rotated(master: string, rows: seq<Row>, d: Draft, key: string, now: int): Draft
    requires d.due != [] && d.due[0] < |rows|
  {
    var i := d.due[0];
    var version := MaxVersion(Applied(rows, d), rows[i].org) + 1;
    Draft(d.off + {i}, d.add + [NewRow(master, rows[i].org, version, key, now)], d.due[1..])
  }

  /** One step; at most `limit` transactions are open at a time. */
  ghost function Step(master: string, limit: nat, s: State, e: Event): State {
    match e
    case BeginEnsure(tx, org, key, now) =>
      if tx in s.open || |s.open| >= limit then s
      else
        var add := if Active(s.rows, org).Some? then [] else [NewRow(master, org, 1, key, now)];
        s.(open := s.open[tx := Draft({}, add, [])])
    case BeginRotate(tx, cutoff, batch, due) =>
      if tx in s.open || |s.open| >= limit || !IsBatch(s.rows, cutoff, batch, due) then s
      else s.(open := s.open[tx := Draft({}, [], due)])
    case RotateNext(tx, key, now) =>
      if tx !in s.open || s.open[tx].due == [] || s.open[tx].due[0] >= |s.rows| then s
      else s.(open := s.open[tx := Rotated(master, s.rows, s.open[tx], key, now)])
    case Commit(tx) =>
      if tx !in s.open || s.open[tx].due != [] then s
      else if Conflict(s.rows, s.open[tx].add) then s.(open := s.open - {tx})
      else State(Applied(s.rows, s.open[tx]), s.open - {tx})
    case Abort(tx) =>
      s.(open := s.open - {tx})
  }

  ghost function RunFrom(master: string, limit: nat, s: State, events: seq<Event>): State {
    if events == [] then s
    else Step(master, limit, RunFrom(master, limit, s, events[..|events| - 1]), events[|events| - 1])
  }

  const EMPTY := State([], map[])

  // --------------------------------------------------- what every overlap keeps

  /** Every version but the first comes after its predecessor. */
  ghost predicate Linked(rows: seq<Row>, all: seq<Row>) {
    forall i :: 0 <= i < |rows| && rows[i].version > 1 ==> Lookup(all, rows[i].org, rows[i].version - 1).Some?
  }

  ghost predicate NewestStaysActive(rows: seq<Row>) {
    forall i :: 0 <= i < |rows| && rows[i].version == MaxVersion(rows, rows[i].org) ==> rows[i].active
  }

  ghost predicate RowsGood(master: string, rows: seq<Row>) {
    Sane(master, rows) && UniqueVersions(rows) && Linked(rows, rows) && NewestStaysActive(rows)
  }

  /** A row that a transaction deactivates is followed by a newer one it adds. */
  ghost predicate Superseded(rows: seq<Row>, d: Draft) {
    forall i :: i in d.off && i < |rows| ==>
      exists j :: 0 <= j < |d.add| && d.add[j].org == rows[i].org && d.add[j].version > rows[i].version
  }

  ghost predicate DraftGood(master: string, rows: seq<Row>, d: Draft) {
    && (forall i :: i in d.off ==> i < |rows|) && InRange(d.due, |rows|)
    && Sane(master, d.add) && UniqueVersions(d.add) && (forall j :: 0 <= j < |d.add| ==> d.add[j].active)
    && Linked(d.add, rows + d.add) && Superseded(rows, d)
  }

  ghost predicate Good(master: string, s: State) {
    RowsGood(master, s.rows) && forall tx :: tx in s.open ==> DraftGood(master, s.rows, s.open[tx])
  }

  lemma LookupSome(rows: seq<Row>, i: nat)
    requires i < |rows|
    ensures Lookup(rows, rows[i].org, rows[i].version).Some?
  {
  }

  ghost predicate Has(rows: seq<Row>, org: nat, version: int) {
    exists i :: 0 <= i < |rows| && rows[i].org == org && rows[i].version == version
  }

  lemma HasAt(rows: seq<Row>, i: nat)
    requires i < |rows|
    ensures Has(rows, rows[i].org, rows[i].version)
  {
  }

  ghost predicate Covers(rows: seq<Row>, later: seq<Row>) {
    forall i :: 0 <= i < |rows| ==> Has(later, rows[i].org, rows[i].version)
  }

  lemma LookupGrows(rows: seq<Row>, later: seq<Row>, org: nat, version: int)
    requires Lookup(rows, org, version).Some? && Covers(rows, later)
    ensures Lookup(later, org, version).Some?
  {
    var i := Lookup(rows, org, version).value;
    assert Has(later, rows[i].org, rows[i].version);
    var j :| 0 <= j < |later| && later[j].org == rows[i].org && later[j].version == rows[i].version;
    LookupSome(later, j);
  }

  lemma LinkedGrows(rows: seq<Row>, all: seq<Row>, later: seq<Row>)
    requires Linked(rows, all) && Covers(all, later)
    ensures Linked(rows, later)
  {
    hide Lookup, Covers;
    forall i | 0 <= i < |rows| && rows[i].version > 1 ensures Lookup(later, rows[i].org, rows[i].version - 1).Some? {
      LookupGrows(all, later, rows[i].org, rows[i].version - 1);
    }
  }

  /** The new version is higher than every version of its organisation that the
      transaction sees, and follows the highest of them. */
  lemma RotatedVersion(rows: seq<Row>, d: Draft, org: nat)
    ensures var top, all := MaxVersion(Applied(rows, d), org), rows + d.add;
            && (forall k :: 0 <= k < |all| && all[k].org == org ==> all[k].version <= top)
            && (top > 0 ==> Lookup(all, org, top).Some?)
  {
    hide MaxVersion, Lookup;
    var seen, all := Applied(rows, d), rows + d.add;
    forall k | 0 <= k < |all| ensures seen[k].org == all[k].org && seen[k].version == all[k].version {
      if k >= |rows| {
        assert seen[k] == d.add[k - |rows|];
      }
    }
    var top := MaxVersion(seen, org);
    if top > 0 {
      var m :| 0 <= m < |seen| && seen[m].org == org && seen[m].version == top;
      LookupSome(all, m);
    }
  }

  lemma AddLinked(rows: seq<Row>, add: seq<Row>, row: Row)
    requires Linked(add, rows + add) && (row.version > 1 ==> Lookup(rows + add, row.org, row.version - 1).Some?)
    ensures Linked(add + [row], rows + (add + [row]))
  {
    hide Lookup, Has;
    var prior, all := rows + add, rows + (add + [row]);
    forall k | 0 <= k < |prior| ensures Has(all, prior[k].org, prior[k].version) {
      assert all[k] == prior[k];
      HasAt(all, k);
    }
    assert Linked(add + [row], prior);
    LinkedGrows(add + [row], prior, all);
  }

  lemma AddSuperseded(rows: seq<Row>, d: Draft, i: nat, row: Row, due: seq<nat>)
    requires Superseded(rows, d) && i < |rows| && row.org == rows[i].org && row.version > rows[i].version
    ensures Superseded(rows, Draft(d.off + {i}, d.add + [row], due))
  {
    var d' := Draft(d.off + {i}, d.add + [row], due);
    forall k | k in d'.off && k < |rows|
      ensures exists j :: 0 <= j < |d'.add| && d'.add[j].org == rows[k].org && d'.add[j].version > rows[k].version
    {
      if k == i {
        assert d'.add[|d.add|] == row;
      } else {
        var j :| 0 <= j < |d.add| && d.add[j].org == rows[k].org && d.add[j].version > rows[k].version;
        assert d'.add[j] == d.add[j];
      }
    }
  }

  lemma RotatedGood(master: string, rows: seq<Row>, d: Draft, key: string, now: int)
    requires DraftGood(master, rows, d) && d.due != []
    ensures DraftGood(master, rows, Rotated(master, rows, d, key, now))
  {
    hide MaxVersion, Lookup, Applied, Linked, Superseded;
    var d', i := Rotated(master, rows, d, key, now), d.due[0];
    var top, all := MaxVersion(Applied(rows, d), rows[i].org), rows + d.add;
    var row := NewRow(master, rows[i].org, top + 1, key, now);
    RotatedVersion(rows, d, rows[i].org);
    assert forall k :: 0 <= k < |d.add| ==> all[|rows| + k] == d.add[k];
    assert all[i] == rows[i];
    AddLinked(rows, d.add, row);
    AddSuperseded(rows, d, i, row, d.due[1..]);
  }

  /** A draft stays good while others commit. */
  lemma DraftKept(master: string, rows: seq<Row>, later: seq<Row>, d: Draft)
    requires DraftGood(master, rows, d) && Extends(rows, later)
    ensures DraftGood(master, later, d)
  {
    hide Lookup, Has, Linked;
    var prior, all := rows + d.add, later + d.add;
    forall k | 0 <= k < |prior| ensures Has(all, prior[k].org, prior[k].version) {
      var j := if k < |rows| then k else k - |rows| + |later|;
      assert all[j].org == prior[k].org && all[j].version == prior[k].version;
      HasAt(all, j);
    }
    LinkedGrows(d.add, prior, all);
  }

  lemma CommitGood(master: string, rows: seq<Row>, d: Draft)
    requires RowsGood(master, rows) && DraftGood(master, rows, d) && !Conflict(rows, d.add)
    ensures RowsGood(master, Applied(rows, d)) && Extends(rows, Applied(rows, d))
  {
    hide MaxVersion, Lookup, MaterialOpens;
    CommitUnique(rows, d);
    CommitLinked(rows, d);
    CommitNewest(rows, d);
    var later := Applied(rows, d);
    forall i | 0 <= i < |later| ensures 1 <= later[i].version && MaterialOpens(master, later[i].material) {
      if i >= |rows| {
        assert later[i] == d.add[i - |rows|];
      }
    }
  }

  lemma CommitUnique(rows: seq<Row>, d: Draft)
    requires UniqueVersions(rows) && UniqueVersions(d.add) && !Conflict(rows, d.add)
    ensures UniqueVersions(Applied(rows, d))
  {
    var later := Applied(rows, d);
    forall i, j | 0 <= i < j < |later| && later[i].org == later[j].org ensures later[i].version != later[j].version {
      if i >= |rows| {
        assert later[i] == d.add[i - |rows|] && later[j] == d.add[j - |rows|];
      } else if j >= |rows| {
        assert later[j] == d.add[j - |rows|];
      }
    }
  }

  lemma CommitLinked(rows: seq<Row>, d: Draft)
    requires Linked(rows, rows) && Linked(d.add, rows + d.add)
    ensures Linked(Applied(rows, d), Applied(rows, d))
  {
    hide Lookup, Has, Applied;
    var later, all := Applied(rows, d), rows + d.add;
    forall k | 0 <= k < |all|
      ensures Has(later, all[k].org, all[k].version) && later[k].org == all[k].org && later[k].version == all[k].version
    {
      if k >= |rows| {
        assert later[k] == d.add[k - |rows|];
      }
      HasAt(later, k);
    }
    forall k | 0 <= k < |rows| ensures Has(later, rows[k].org, rows[k].version) {
      assert all[k] == rows[k];
    }
    LinkedGrows(rows, rows, later);
    LinkedGrows(d.add, all, later);
    SameLinked(all, later, rows, d.add);
  }

  lemma SameLinked(all: seq<Row>, later: seq<Row>, rows: seq<Row>, add: seq<Row>)
    requires all == rows + add && |later| == |all| && Linked(rows, later) && Linked(add, later)
    requires forall k :: 0 <= k < |all| ==> later[k].org == all[k].org && later[k].version == all[k].version
    ensures Linked(later, later)
  {
    hide Lookup;
    forall i | 0 <= i < |later| && later[i].version > 1
      ensures Lookup(later, later[i].org, later[i].version - 1).Some?
    {
      if i < |rows| {
        assert all[i] == rows[i];
      } else {
        assert all[i] == add[i - |rows|];
      }
    }
  }

  lemma OffIsOlder(rows: seq<Row>, d: Draft, i: nat)
    requires Superseded(rows, d) && i in d.off && i < |rows|
    ensures rows[i].version < MaxVersion(Applied(rows, d), rows[i].org)
  {
    hide MaxVersion;
    var j :| 0 <= j < |d.add| && d.add[j].org == rows[i].org && d.add[j].version > rows[i].version;
    assert Applied(rows, d)[|rows| + j] == d.add[j];
  }

  lemma MaxVersionGrows(rows: seq<Row>, d: Draft, org: nat)
    ensures MaxVersion(rows, org) <= MaxVersion(Applied(rows, d), org)
  {
    hide MaxVersion;
    var top, later := MaxVersion(rows, org), Applied(rows, d);
    if top > 0 {
      var m :| 0 <= m < |rows| && rows[m].org == org && rows[m].version == top;
      assert later[m].org == org && later[m].version == top;
    }
  }

  lemma CommitNewest(rows: seq<Row>, d: Draft)
    requires NewestStaysActive(rows) && Superseded(rows, d) && forall j :: 0 <= j < |d.add| ==> d.add[j].active
    ensures NewestStaysActive(Applied(rows, d))
  {
    hide MaxVersion, Superseded;
    var later := Applied(rows, d);
    forall i | 0 <= i < |later| && later[i].version == MaxVersion(later, later[i].org) ensures later[i].active {
      if i >= |rows| {
        assert later[i] == d.add[i - |rows|];
      } else {
        assert i !in d.off by {
          if i in d.off {
            OffIsOlder(rows, d, i);
          }
        }
        MaxVersionGrows(rows, d, rows[i].org);
      }
    }
  }

  lemma FirstKeyGood(master: string, rows: seq<Row>, org: nat, key: string, now: int)
    ensures DraftGood(master, rows, Draft({}, [NewRow(master, org, 1, key, now)], []))
  {
    hide Lookup;
  }

  lemma StepGood(master: string, limit: nat, s: State, e: Event)
    requires Good(master, s)
    ensures Good(master, Step(master, limit, s, e)) && Extends(s.rows, Step(master, limit, s, e).rows)
  {
    hide RowsGood, DraftGood, Active, Applied, Rotated, Conflict;
    match e
    case BeginEnsure(tx, org, key, now) =>
      FirstKeyGood(master, s.rows, org, key, now);
      NothingGood(master, s.rows, []);
    case BeginRotate(tx, cutoff, batch, due) =>
      if IsBatch(s.rows, cutoff, batch, due) {
        NothingGood(master, s.rows, due);
      }
    case RotateNext(tx, key, now) =>
      if tx in s.open && s.open[tx].due != [] {
        RotatedGood(master, s.rows, s.open[tx], key, now);
      }
    case Commit(tx) =>
      if tx in s.open && !Conflict(s.rows, s.open[tx].add) {
        CommitGood(master, s.rows, s.open[tx]);
        forall t | t in s.open ensures DraftGood(master, Applied(s.rows, s.open[tx]), s.open[t]) {
          DraftKept(master, s.rows, Applied(s.rows, s.open[tx]), s.open[t]);
        }
      }
    case Abort(tx) =>
  }

  lemma NothingGood(master: string, rows: seq<Row>, due: seq<nat>)
    requires InRange(due, |rows|)
    ensures DraftGood(master, rows, Draft({}, [], due))
  {
  }

  lemma {:induction false} RunGood(master: string, limit: nat, s: State, events: seq<Event>)
    requires Good(master, s)
    ensures Good(master, RunFrom(master, limit, s, events)) && Extends(s.rows, RunFrom(master, limit, s, events).rows)
  {
    hide Step, Good;
    if events != [] {
      var before := RunFrom(master, limit, s, events[..|events| - 1]);
      RunGood(master, limit, s, events[..|events| - 1]);
      StepGood(master, limit, before, events[|events| - 1]);
      ExtendsTransitive(s.rows, before.rows, Step(master, limit, before, events[|events| - 1]).rows);
    }
  }

  lemma EmptyGood(master: string)
    ensures Good(master, EMPTY)
  {
  }

  /** Predecessors all the way down leave no gap. */
  lemma {:induction false} LinkedNoGap(rows: seq<Row>, org: nat, v: int)
    requires Linked(rows, rows) && 1 <= v <= MaxVersion(rows, org)
    ensures Lookup(rows, org, v).Some?
    decreases MaxVersion(rows, org) - v
  {
    hide Lookup, MaxVersion;
    if v == MaxVersion(rows, org) {
      var i :| 0 <= i < |rows| && rows[i].org == org && rows[i].version == v;
      LookupSome(rows, i);
    } else {
      LinkedNoGap(rows, org, v + 1);
      var i := Lookup(rows, org, v + 1).value;
      assert rows[i].version > 1;
    }
  }

  /** Whatever transactions overlap: for each organisation the versions are exactly
      1..n, one row each, and version n is active. */
  lemma OverlapKeeps(master: string, limit: nat, events: seq<Event>)
    ensures var rows := RunFrom(master, limit, EMPTY, events).rows;
            Sane(master, rows) && UniqueVersions(rows) && NoGaps(rows) && NewestStaysActive(rows)
  {
    hide RunFrom, Sane, UniqueVersions, NewestStaysActive, MaxVersion, Lookup;
    EmptyGood(master);
    RunGood(master, limit, EMPTY, events);
    var rows := RunFrom(master, limit, EMPTY, events).rows;
    forall org, v | 1 <= v <= MaxVersion(rows, org) ensures Lookup(rows, org, v).Some? {
      LinkedNoGap(rows, org, v);
    }
  }

  /** And every ciphertext ever produced stays readable. */
  lemma OverlapReadable(master: string, limit: nat, before: seq<Event>, i: nat, value: string, after: seq<Event>)
    requires i < |RunFrom(master, limit, EMPTY, before).rows|
    ensures var s := RunFrom(master, limit, EMPTY, before);
            var later := RunFrom(master, limit, s, after).rows;
            && MaterialOpens(master, s.rows[i].material)
            && Decrypted(master, later, s.rows[i].org, EncryptedBy(master, s.rows[i], value).value) == Ok(value)
  {
    hide RunFrom, Decrypted, EncryptedBy, MaxVersion, Lookup, Linked, NewestStaysActive, DraftGood;
    EmptyGood(master);
    RunGood(master, limit, EMPTY, before);
    var s := RunFrom(master, limit, EMPTY, before);
    RunGood(master, limit, s, after);
    StaysReadable(master, s.rows, i, value, RunFrom(master, limit, s, after).rows);
  }

  // ---------------------------------------------------------- what a commit adds

  /** A turn of the loop takes the next due key and drafts one row: a fresh key of
      its organisation, newer than every version the transaction sees. */
  lemma RotatedAdds(master: string, rows: seq<Row>, d: Draft, key: string, now: int)
    requires d.due != [] && d.due[0] < |rows|
    ensures var d', row := Rotated(master, rows, d, key, now), rows[d.due[0]];
            && d'.due == d.due[1..] && d'.off == d.off + {d.due[0]}
            && |d'.add| == |d.add| + 1 && d'.add[..|d.add|] == d.add
            && IsFresh(master, d'.add[|d.add|], row.org, key, now)
            && forall k :: 0 <= k < |rows + d.add| && (rows + d.add)[k].org == row.org ==>
                 (rows + d.add)[k].version < d'.add[|d.add|].version
  {
    hide MaxVersion;
    RotatedVersion(rows, d, rows[d.due[0]].org);
  }

  /** A transaction that ensures drafts a first key exactly for an organisation
      without an active one. */
  lemma EnsureDrafts(master: string, limit: nat, s: State, tx: nat, org: nat, key: string, now: int)
    requires tx !in s.open && |s.open| < limit
    ensures var d := Step(master, limit, s, BeginEnsure(tx, org, key, now)).open[tx];
            if exists i :: 0 <= i < |s.rows| && s.rows[i].org == org && s.rows[i].active then d.add == []
            else |d.add| == 1 && d.add[0].version == 1 && IsFresh(master, d.add[0], org, key, now)
  {
    hide Active;
  }

  /** A transaction in the middle of its loop cannot commit; an aborted one leaves
      nothing behind. */
  lemma OnlyFinishedCommit(master: string, limit: nat, s: State, tx: nat)
    ensures tx in s.open && s.open[tx].due != [] ==> Step(master, limit, s, Commit(tx)) == s
    ensures Step(master, limit, s, Abort(tx)) == State(s.rows, s.open - {tx})
  {
  }

  /** A finished transaction commits nothing when a row it adds has the organisation
      and the version of a committed one. */
  lemma TakenAborts(master: string, limit: nat, s: State, tx: nat, i: nat, j: nat)
    requires tx in s.open && s.open[tx].due == [] && i < |s.rows| && j < |s.open[tx].add|
    requires s.rows[i].org == s.open[tx].add[j].org && s.rows[i].version == s.open[tx].add[j].version
    ensures Step(master, limit, s, Commit(tx)) == State(s.rows, s.open - {tx})
  {
  }

  /** Otherwise it commits all it drafted, and nothing else. */
  lemma FreeCommits(master: string, limit: nat, s: State, tx: nat)
    requires tx in s.open && s.open[tx].due == []
    requires forall i, j :: 0 <= i < |s.rows| && 0 <= j < |s.open[tx].add| && s.rows[i].org == s.open[tx].add[j].org ==>
               s.rows[i].version != s.open[tx].add[j].version
    ensures var rows, d, later := s.rows, s.open[tx], Step(master, limit, s, Commit(tx));
            && later.open == s.open - {tx} && |later.rows| == |rows| + |d.add|
            && (forall j :: 0 <= j < |d.add| ==> later.rows[|rows| + j] == d.add[j])
            && forall i :: 0 <= i < |rows| ==>
                 later.rows[i] == if i in d.off then rows[i].(active := false) else rows[i]
  {
    hide Applied;
  }

  // ------------------------------------------------------ nobody else can read

  ghost predicate Apart(master: string, a: seq<Row>, b: seq<Row>) {
    forall i, j :: 0 <= i < |a| && 0 <= j < |b| ==> Unseal(master, a[i].material) != Unseal(master, b[j].material)
  }

  /** Committed and drafted rows all hold different keys. */
  ghost predicate AllApart(master: string, s: State) {
    && KeysApart(master, s.rows)
    && (forall t :: t in s.open ==> KeysApart(master, s.open[t].add) && Apart(master, s.rows, s.open[t].add))
    && (forall t, u :: t in s.open && u in s.open && t != u ==> Apart(master, s.open[t].add, s.open[u].add))
  }

  predicate HeldNowhere(master: string, s: State, key: string) {
    !HoldsKey(master, s.rows, key) && forall t :: t in s.open ==> !HoldsKey(master, s.open[t].add, key)
  }

  /** A key that an event generates is held nowhere yet. */
  ghost predicate FreshEvent(master: string, s: State, e: Event) {
    (e.BeginEnsure? || e.RotateNext?) ==> HeldNowhere(master, s, e.key)
  }

  /** Two lists of keys after one another. */
  ghost predicate Chained(master: string, a: seq<Row>, b: seq<Row>, both: seq<Row>) {
    && |both| == |a| + |b|
    && (forall k :: 0 <= k < |a| ==> Unseal(master, both[k].material) == Unseal(master, a[k].material))
    && (forall k :: |a| <= k < |both| ==> Unseal(master, both[k].material) == Unseal(master, b[k - |a|].material))
  }

  lemma ChainApart(master: string, a: seq<Row>, b: seq<Row>, both: seq<Row>)
    requires Chained(master, a, b, both) && KeysApart(master, a) && KeysApart(master, b) && Apart(master, a, b)
    ensures KeysApart(master, both)
  {
    hide Unseal;
    forall i, j | 0 <= i < j < |both| ensures Unseal(master, both[i].material) != Unseal(master, both[j].material) {
      if j < |a| {
        assert Unseal(master, a[i].material) != Unseal(master, a[j].material);
      } else if i < |a| {
        assert Unseal(master, a[i].material) != Unseal(master, b[j - |a|].material);
      } else {
        assert Unseal(master, b[i - |a|].material) != Unseal(master, b[j - |a|].material);
      }
    }
  }

  lemma ChainApartFrom(master: string, a: seq<Row>, b: seq<Row>, both: seq<Row>, c: seq<Row>)
    requires Chained(master, a, b, both) && Apart(master, a, c) && Apart(master, b, c)
    ensures Apart(master, both, c) && Apart(master, c, both)
  {
    hide Unseal;
    forall i, j | 0 <= i < |both| && 0 <= j < |c|
      ensures Unseal(master, both[i].material) != Unseal(master, c[j].material)
    {
      if i < |a| {
        assert Unseal(master, a[i].material) != Unseal(master, c[j].material);
      } else {
        assert Unseal(master, b[i - |a|].material) != Unseal(master, c[j].material);
      }
    }
  }

  lemma ApartBack(master: string, a: seq<Row>, b: seq<Row>)
    requires Apart(master, a, b)
    ensures Apart(master, b, a)
  {
    hide Unseal;
  }

  lemma NewKeyApart(master: string, rows: seq<Row>, row: Row, key: string)
    requires !HoldsKey(master, rows, key) && Unseal(master, row.material) == Some(key)
    ensures Apart(master, rows, [row]) && Apart(master, [row], rows) && KeysApart(master, [row])
  {
    hide Unseal;
  }

  /** Drafting one row with a key held nowhere. */
  lemma AddApart(master: string, s: State, tx: nat, d: Draft, d': Draft, key: string)
    requires AllApart(master, s) && HeldNowhere(master, s, key)
    requires if tx in s.open then d == s.open[tx] else d.add == []
    requires |d'.add| == |d.add| + 1 && d'.add[..|d.add|] == d.add
             && Unseal(master, d'.add[|d.add|].material) == Some(key)
    ensures AllApart(master, s.(open := s.open[tx := d']))
  {
    hide Unseal, Apart, KeysApart, HoldsKey, Chained;
    var row, s' := d'.add[|d.add|], s.(open := s.open[tx := d']);
    assert Chained(master, d.add, [row], d'.add) by {
      ChainOf(master, d.add, row, d'.add);
    }
    EmptyApart(master, s.rows);
    assert KeysApart(master, d.add) && Apart(master, s.rows, d.add);
    assert !HoldsKey(master, d.add, key) by {
      NoneHeld(master, key);
    }
    NewKeyApart(master, d.add, row, key);
    NewKeyApart(master, s.rows, row, key);
    ChainApart(master, d.add, [row], d'.add);
    ApartBack(master, s.rows, d.add);
    ChainApartFrom(master, d.add, [row], d'.add, s.rows);
    forall t | t in s.open && t != tx
      ensures Apart(master, d'.add, s.open[t].add) && Apart(master, s.open[t].add, d'.add)
    {
      EmptyApart(master, s.open[t].add);
      NewKeyApart(master, s.open[t].add, row, key);
      ChainApartFrom(master, d.add, [row], d'.add, s.open[t].add);
    }
  }

  lemma ChainOf(master: string, a: seq<Row>, row: Row, both: seq<Row>)
    requires |both| == |a| + 1 && both[..|a|] == a && both[|a|] == row
    ensures Chained(master, a, [row], both)
  {
    hide Unseal;
    assert forall k :: 0 <= k < |a| ==> both[k] == both[..|a|][k];
  }

  lemma EmptyApart(master: string, rows: seq<Row>)
    ensures Apart(master, rows, []) && Apart(master, [], rows) && KeysApart(master, [])
  {
  }

  lemma NoneHeld(master: string, key: string)
    ensures !HoldsKey(master, [], key)
  {
  }

  lemma NoneApart(master: string, s: State, tx: nat, d: Draft)
    requires AllApart(master, s) && d.add == []
    ensures AllApart(master, s.(open := s.open[tx := d]))
  {
    hide Unseal;
  }

  lemma CommitApart(master: string, s: State, tx: nat)
    requires AllApart(master, s) && tx in s.open
    ensures AllApart(master, State(Applied(s.rows, s.open[tx]), s.open - {tx}))
  {
    hide Unseal, Apart, KeysApart, Applied, Chained;
    var add, later := s.open[tx].add, Applied(s.rows, s.open[tx]);
    AppliedChain(master, s.rows, s.open[tx]);
    ChainApart(master, s.rows, add, later);
    forall t | t in s.open && t != tx ensures Apart(master, later, s.open[t].add) {
      ChainApartFrom(master, s.rows, add, later, s.open[t].add);
    }
  }

  lemma AppliedChain(master: string, rows: seq<Row>, d: Draft)
    ensures Chained(master, rows, d.add, Applied(rows, d))
  {
    hide Unseal;
    var later := Applied(rows, d);
    forall k | |rows| <= k < |later| ensures later[k] == d.add[k - |rows|] {
      assert later[|rows| + (k - |rows|)] == d.add[k - |rows|];
    }
  }

  lemma DropApart(master: string, s: State, tx: nat)
    requires AllApart(master, s)
    ensures AllApart(master, s.(open := s.open - {tx}))
  {
    hide Unseal;
  }

  lemma StepApart(master: string, limit: nat, s: State, e: Event)
    requires AllApart(master, s) && FreshEvent(master, s, e)
    ensures AllApart(master, Step(master, limit, s, e))
  {
    hide AllApart, HeldNowhere, Rotated, Applied, Conflict, Active, Unseal;
    match e
    case BeginEnsure(tx, org, key, now) =>
      if tx !in s.open && |s.open| < limit {
        EnsureDrafts(master, limit, s, tx, org, key, now);
        var d := Step(master, limit, s, e).open[tx];
        if d.add == [] {
          NoneApart(master, s, tx, d);
        } else {
          AddApart(master, s, tx, Draft({}, [], []), d, key);
        }
      }
    case BeginRotate(tx, cutoff, batch, due) =>
      NoneApart(master, s, tx, Draft({}, [], due));
    case RotateNext(tx, key, now) =>
      if tx in s.open && s.open[tx].due != [] && s.open[tx].due[0] < |s.rows| {
        RotatedAdds(master, s.rows, s.open[tx], key, now);
        AddApart(master, s, tx, s.open[tx], Rotated(master, s.rows, s.open[tx], key, now), key);
      }
    case Commit(tx) =>
      DropApart(master, s, tx);
      if tx in s.open {
        CommitApart(master, s, tx);
      }
    case Abort(tx) =>
      DropApart(master, s, tx);
  }

  ghost predicate FreshEvents(master: string, limit: nat, events: seq<Event>) {
    forall n :: 0 <= n < |events| ==> FreshEvent(master, RunFrom(master, limit, EMPTY, events[..n]), events[n])
  }

  lemma {:induction false} RunApart(master: string, limit: nat, events: seq<Event>)
    requires FreshEvents(master, limit, events)
    ensures AllApart(master, RunFrom(master, limit, EMPTY, events))
  {
    hide Step, FreshEvent;
    if events != [] {
      var n := |events| - 1;
      forall m | 0 <= m < n
        ensures FreshEvent(master, RunFrom(master, limit, EMPTY, events[..n][..m]), events[..n][m])
      {
        assert events[..n][..m] == events[..m];
      }
      RunApart(master, limit, events[..n]);
      StepApart(master, limit, RunFrom(master, limit, EMPTY, events[..n]), events[n]);
    }
  }

  /** However transactions overlap, with generated keys all distinct a ciphertext of
      any key of one organisation is refused to every other. */
  lemma OverlapIsolated(master: string, limit: nat, events: seq<Event>, i: nat, value: string, org: nat)
    requires FreshEvents(master, limit, events)
    requires var rows := RunFrom(master, limit, EMPTY, events).rows; i < |rows| && org != rows[i].org
    ensures var rows := RunFrom(master, limit, EMPTY, events).rows;
            MaterialOpens(master, rows[i].material)
            && Decrypted(master, rows, org, EncryptedBy(master, rows[i], value).value).Err?
  {
    hide RunFrom, FreshEvents, Decrypted, EncryptedBy, UniqueVersions, NoGaps, NewestStaysActive;
    OverlapKeeps(master, limit, events);
    RunApart(master, limit, events);
    OthersCannotRead(master, RunFrom(master, limit, EMPTY, events).rows, i, value, org);
  }

  // ----------------------------------------------------------- one active key

  ghost predicate AlwaysConsistent(master: string, limit: nat) {
    forall events :: Consistent(master, RunFrom(master, limit, EMPTY, events).rows)
  }

  /** At most one transaction is open, what it sees is consistent, and the keys it
      has still to rotate are active and distinct. */
  ghost predicate Serial(master: string, s: State) {
    && Consistent(master, s.rows)
    && (forall t, u :: t in s.open && u in s.open ==> t == u)
    && (forall tx :: tx in s.open ==> DraftSerial(master, s.rows, s.open[tx]))
  }

  ghost predicate DraftSerial(master: string, rows: seq<Row>, d: Draft) {
    && Consistent(master, Applied(rows, d))
    && Distinct(d.due) && InRange(d.due, |rows|)
    && (forall k :: 0 <= k < |d.due| ==> rows[d.due[k]].active && d.due[k] !in d.off)
  }

  lemma RotatedApplied(master: string, rows: seq<Row>, d: Draft, key: string, now: int)
    requires d.due != [] && d.due[0] < |rows|
    ensures Applied(rows, Rotated(master, rows, d, key, now)) == RotateRow(master, Applied(rows, d), d.due[0], key, now)
  {
    hide MaxVersion;
    var left := Applied(rows, Rotated(master, rows, d, key, now));
    var right := RotateRow(master, Applied(rows, d), d.due[0], key, now);
    forall k | 0 <= k < |left| ensures left[k] == right[k] {
      if k >= |rows| {
        assert left[k] == Rotated(master, rows, d, key, now).add[k - |rows|];
      }
    }
  }

  lemma RotatedSerial(master: string, rows: seq<Row>, d: Draft, key: string, now: int)
    requires DraftSerial(master, rows, d) && d.due != []
    ensures DraftSerial(master, rows, Rotated(master, rows, d, key, now))
  {
    hide Consistent, MaxVersion, Applied, RotateRow;
    RotatedApplied(master, rows, d, key, now);
    RotateRowConsistent(master, Applied(rows, d), d.due[0], key, now);
  }

  lemma StepSerial(master: string, limit: nat, s: State, e: Event)
    requires limit <= 1 && Serial(master, s)
    ensures Serial(master, Step(master, limit, s, e))
  {
    hide Consistent, Applied, Rotated, Active, Conflict, DraftSerial;
    match e
    case BeginEnsure(tx, org, key, now) =>
      if s.open == map[] {
        EnsureSerial(master, s.rows, org, key, now);
      }
    case BeginRotate(tx, cutoff, batch, due) =>
      if s.open == map[] && IsBatch(s.rows, cutoff, batch, due) {
        BatchSerial(master, s.rows, cutoff, batch, due);
      }
    case RotateNext(tx, key, now) =>
      if tx in s.open && s.open[tx].due != [] {
        RotatedSerial(master, s.rows, s.open[tx], key, now);
      }
    case Commit(tx) =>
      if tx in s.open {
        assert DraftSerial(master, s.rows, s.open[tx]);
        SerialSees(master, s.rows, s.open[tx]);
      }
    case Abort(tx) =>
  }

  lemma SerialSees(master: string, rows: seq<Row>, d: Draft)
    requires DraftSerial(master, rows, d)
    ensures Consistent(master, Applied(rows, d))
  {
  }

  lemma EnsureSerial(master: string, rows: seq<Row>, org: nat, key: string, now: int)
    requires Consistent(master, rows)
    ensures DraftSerial(master, rows,
                        Draft({}, if Active(rows, org).Some? then [] else [NewRow(master, org, 1, key, now)], []))
  {
    hide Consistent, Active, Applied;
    EnsuredConsistent(master, rows, org, key, now);
    AddedApplied(rows, if Active(rows, org).Some? then [] else [NewRow(master, org, 1, key, now)], []);
  }

  lemma AddedApplied(rows: seq<Row>, add: seq<Row>, due: seq<nat>)
    ensures Applied(rows, Draft({}, add, due)) == rows + add
    ensures rows + [] == rows
  {
  }

  lemma BatchSerial(master: string, rows: seq<Row>, cutoff: int, batch: nat, due: seq<nat>)
    requires Consistent(master, rows) && IsBatch(rows, cutoff, batch, due)
    ensures DraftSerial(master, rows, Draft({}, [], due))
  {
    hide Consistent, NotYounger;
    DueIsActive(rows, cutoff, due);
    AddedApplied(rows, [], due);
  }

  lemma {:induction false} RunSerial(master: string, limit: nat, events: seq<Event>)
    requires limit <= 1
    ensures Serial(master, RunFrom(master, limit, EMPTY, events))
  {
    hide Step, Serial;
    if events == [] {
      EmptySerial(master);
    } else {
      RunSerial(master, limit, events[..|events| - 1]);
      StepSerial(master, limit, RunFrom(master, limit, EMPTY, events[..|events| - 1]), events[|events| - 1]);
    }
  }

  lemma EmptySerial(master: string)
    ensures Serial(master, EMPTY)
  {
  }

  lemma RunAppend(master: string, limit: nat, s: State, events: seq<Event>, e: Event)
    ensures RunFrom(master, limit, s, events + [e]) == Step(master, limit, RunFrom(master, limit, s, events), e)
    ensures RunFrom(master, limit, s, []) == s
  {
    hide Step;
    assert (events + [e])[..|events|] == events;
  }

  /** Two rotations find the same key due; the second one turns to it after the
      first has committed, and adds a third version beside the active second. */
  function TwoRotations(): seq<Event> {
    [BeginEnsure(0, 7, "k1", 0), Commit(0),
     BeginRotate(1, 0, 1, [0]), BeginRotate(2, 0, 1, [0]),
     RotateNext(1, "k2", 1), Commit(1), RotateNext(2, "k3", 1), Commit(2)]
  }

  lemma TwoActive(master: string, limit: nat)
    requires limit >= 2
    ensures !Consistent(master, RunFrom(master, limit, EMPTY, TwoRotations()).rows)
  {
    hide RunFrom, Step, Consistent;
    var e := TwoRotations();
    RunAppend(master, limit, EMPTY, [], e[0]);
    RunAppend(master, limit, EMPTY, e[..1], e[1]);
    RunAppend(master, limit, EMPTY, e[..2], e[2]);
    RunAppend(master, limit, EMPTY, e[..3], e[3]);
    RunAppend(master, limit, EMPTY, e[..4], e[4]);
    RunAppend(master, limit, EMPTY, e[..5], e[5]);
    RunAppend(master, limit, EMPTY, e[..6], e[6]);
    RunAppend(master, limit, EMPTY, e[..7], e[7]);
    assert [] + [e[0]] == e[..1] && e[..1] + [e[1]] == e[..2] && e[..2] + [e[2]] == e[..3] && e[..3] + [e[3]] == e[..4];
    assert e[..4] + [e[4]] == e[..5] && e[..5] + [e[5]] == e[..6] && e[..6] + [e[6]] == e[..7] && e[..7] + [e[7]] == e;
    FirstKey(master, limit);
    assert RunFrom(master, limit, EMPTY, e[..2]) == Run2(master);
    BothFindItDue(master, limit);
    FirstRotation(master, limit);
    SecondRotation(master, limit);
    NotConsistent(master);
  }

  function Run2(master: string): State {
    State([NewRow(master, 7, 1, "k1", 0)], map[])
  }

  lemma FirstKey(master: string, limit: nat)
    requires limit >= 2
    ensures Step(master, limit, Step(master, limit, EMPTY, BeginEnsure(0, 7, "k1", 0)), Commit(0)) == Run2(master)
  {
    var d := Draft({}, [NewRow(master, 7, 1, "k1", 0)], []);
    assert Applied([], d) == d.add;
  }

  function Run4(master: string): State {
    State([NewRow(master, 7, 1, "k1", 0)], map[1 := Draft({}, [], [0]), 2 := Draft({}, [], [0])])
  }

  lemma BothFindItDue(master: string, limit: nat)
    requires limit >= 2
    ensures var one := Step(master, limit, Run2(master), BeginRotate(1, 0, 1, [0]));
            Step(master, limit, one, BeginRotate(2, 0, 1, [0])) == Run4(master)
  {
    var rows := [NewRow(master, 7, 1, "k1", 0)];
    assert IsBatch(rows, 0, 1, [0]);
  }

  function Run6(master: string): State {
    State([NewRow(master, 7, 1, "k1", 0).(active := false), NewRow(master, 7, 2, "k2", 1)],
          map[2 := Draft({}, [], [0])])
  }

  lemma FirstRotation(master: string, limit: nat)
    ensures Step(master, limit, Step(master, limit, Run4(master), RotateNext(1, "k2", 1)), Commit(1)) == Run6(master)
  {
    hide Conflict, MaxVersion, Applied;
    var v1, v2 := NewRow(master, 7, 1, "k1", 0), NewRow(master, 7, 2, "k2", 1);
    RotateOnly(master, v1, "k2");
    var s5 := Step(master, limit, Run4(master), RotateNext(1, "k2", 1));
    assert s5 == State([v1], map[1 := Draft({0}, [v2], []), 2 := Draft({}, [], [0])]);
    NoConflict([v1], v2);
  }

  lemma RotateOnly(master: string, v1: Row, key: string)
    requires v1.org == 7 && v1.version == 1
    ensures var v2 := NewRow(master, 7, 2, key, 1);
            && Rotated(master, [v1], Draft({}, [], [0]), key, 1) == Draft({0}, [v2], [])
            && Applied([v1], Draft({0}, [v2], [])) == [v1.(active := false), v2]
  {
    assert Applied([v1], Draft({}, [], [0])) == [v1];
    assert [v1][..0] == [] && MaxVersion([v1], 7) == 1;
  }

  lemma NoConflict(rows: seq<Row>, row: Row)
    requires forall i :: 0 <= i < |rows| ==> rows[i].version != row.version
    ensures !Conflict(rows, [row])
  {
  }

  lemma SecondRotation(master: string, limit: nat)
    ensures var v1, v2 := NewRow(master, 7, 1, "k1", 0), NewRow(master, 7, 2, "k2", 1);
            var v3 := NewRow(master, 7, 3, "k3", 1);
            Step(master, limit, Step(master, limit, Run6(master), RotateNext(2, "k3", 1)), Commit(2)).rows
            == [v1.(active := false), v2, v3]
  {
    var v1, v2, v3 := NewRow(master, 7, 1, "k1", 0), NewRow(master, 7, 2, "k2", 1), NewRow(master, 7, 3, "k3", 1);
    var rows, d := [v1.(active := false), v2], Draft({}, [], [0]);
    assert Applied(rows, d) == rows;
    assert MaxVersion(rows, 7) == 2 by {
      assert rows[1].version == 2;
    }
    var d' := Draft({0}, [v3], []);
    assert Rotated(master, rows, d, "k3", 1) == d';
    assert Applied(rows, d') == [v1.(active := false), v2, v3];
    NoConflict(rows, v3);
  }

  lemma NotConsistent(master: string)
    ensures var v1, v2 := NewRow(master, 7, 1, "k1", 0), NewRow(master, 7, 2, "k2", 1);
            var v3 := NewRow(master, 7, 3, "k3", 1);
            !Consistent(master, [v1.(active := false), v2, v3])
  {
    hide MaxVersion, Lookup;
    var v1, v2, v3 := NewRow(master, 7, 1, "k1", 0), NewRow(master, 7, 2, "k2", 1), NewRow(master, 7, 3, "k3", 1);
    var rows := [v1.(active := false), v2, v3];
    assert rows[1].active && rows[2].version <= MaxVersion(rows, 7);
  }

  /** Exactly the newest key is active in every run exactly when at most one
      transaction is open at a time. */
  lemma OneActiveExactly(master: string, limit: nat)
    ensures AlwaysConsistent(master, limit) <==> limit <= 1
  {
    hide RunFrom, Consistent;
    if limit <= 1 {
      forall events ensures Consistent(master, RunFrom(master, limit, EMPTY, events).rows) {
        RunSerial(master, limit, events);
      }
    } else {
      TwoActive(master, limit);
    }
  }
}
