/** Workspace keyrings: versioned keys per organisation, the ciphertext text
    format, and the rotation of old keys. */
module Keyring {
  import opened Sequences
  import opened Text

  // ---------------------------------------------------------------- ciphertexts

  /** A ciphertext is a text in which a Fernet token is one opaque symbol that
      only its key opens. */
  datatype Symbol = Ch(c: char) | Token(key: string, plain: string)

  type Cipher = seq<Symbol>

  datatype Error = InvalidFormat | KeyNotFound | DecryptFailed

  datatype Result<+T> = Ok(value: T) | Err(error: Error)

  function Chars(s: string): Cipher {
    seq(|s|, i requires 0 <= i < |s| => Ch(s[i]))
  }

  /** The characters of a text without tokens. */
  function AsText(s: Cipher): Option<string> {
    if s == [] then Some("")
    else if s[0].Token? then None
    else
      match AsText(s[1..])
      case None => None
      case Some(t) => Some([s[0].c] + t)
  }

  lemma {:induction false} AsTextChars(s: string)
    ensures AsText(Chars(s)) == Some(s)
  {
    if s != "" {
      assert Chars(s)[1..] == Chars(s[1..]);
      AsTextChars(s[1..]);
      assert [s[0]] + s[1..] == s;
    }
  }

  function Seal(key: string, plain: string): Cipher {
    [Token(key, plain)]
  }

  function Unseal(key: string, token: Cipher): Option<string> {
    if |token| == 1 && token[0].Token? && token[0].key == key then Some(token[0].plain) else None
  }

  const PREFIX := "wk1"

  /** `f"wk1:{version}:{token}"`. */
  function Format(version: int, token: Cipher): Cipher {
    Chars(PREFIX) + [Ch(':')] + (Chars(PrintInt(version)) + [Ch(':')] + token)
  }

  predicate IsWorkspace(text: Cipher) {
    |text| >= 4 && text[..4] == Chars("wk1:")
  }

  lemma IsWorkspaceExactly(text: Cipher)
    ensures IsWorkspace(text)
            <==> |text| >= 4 && text[0] == Ch('w') && text[1] == Ch('k') && text[2] == Ch('1') && text[3] == Ch(':')
  {
    var prefix := Chars("wk1:");
    assert prefix == [Ch('w'), Ch('k'), Ch('1'), Ch(':')];
    if |text| >= 4 {
      assert text[..4] == [text[0], text[1], text[2], text[3]];
    }
  }

  /** `_, version_str, token = encrypted.split(":", 2)` and `int(version_str)`. */
  function Unformat(text: Cipher): Option<(int, Cipher)> {
    match Cut(text, Ch(':'))
    case None => None
    case Some((_, rest)) =>
      match Cut(rest, Ch(':'))
      case None => None
      case Some((versionText, token)) =>
        match AsText(versionText)
        case None => None
        case Some(t) =>
          match ParseInt(t)
          case None => None
          case Some(version) => Some((version, token))
  }

  /** Splitting and parsing undo the formatting, for every version and token. */
  lemma UnformatFormat(version: int, token: Cipher)
    ensures IsWorkspace(Format(version, token))
    ensures Unformat(Format(version, token)) == Some((version, token))
  {
    CutAt(Chars(PREFIX), Ch(':'), Chars(PrintInt(version)) + [Ch(':')] + token);
    CutAt(Chars(PrintInt(version)), Ch(':'), token);
    AsTextChars(PrintInt(version));
    ParsePrintInt(version);
  }

  // ---------------------------------------------------------------------- table

  datatype Row = Row(org: nat, version: int, material: Cipher, active: bool, rotatedAt: Option<int>)

  function MaxVersion(rows: seq<Row>, org: nat): (m: int)
    ensures m >= 0
    ensures forall i :: 0 <= i < |rows| && rows[i].org == org ==> rows[i].version <= m
    ensures m > 0 ==> exists i :: 0 <= i < |rows| && rows[i].org == org && rows[i].version == m
  {
    if rows == [] then 0
    else
      var n := |rows| - 1;
      var m := MaxVersion(rows[..n], org);
      assert forall i :: 0 <= i < n ==> rows[..n][i] == rows[i];
      if rows[n].org == org && rows[n].version > m then rows[n].version else m
  }

  /** The row that `WHERE org_id = ? AND key_version = ?` selects. */
  function Lookup(rows: seq<Row>, org: nat, version: int): (found: Option<nat>)
    ensures found.Some? ==> found.value < |rows| && rows[found.value].org == org && rows[found.value].version == version
    ensures found.None? ==> forall i :: 0 <= i < |rows| ==> rows[i].org != org || rows[i].version != version
  {
    if rows == [] then None
    else
      var n := |rows| - 1;
      if rows[n].org == org && rows[n].version == version then Some(n) else Lookup(rows[..n], org, version)
  }

  /** The active row of an organisation with the highest version. */
  function Active(rows: seq<Row>, org: nat): (found: Option<nat>)
    ensures found.Some? ==> found.value < |rows| && rows[found.value].org == org && rows[found.value].active
    ensures forall i :: 0 <= i < |rows| && rows[i].org == org && rows[i].active ==>
              found.Some? && rows[i].version <= rows[found.value].version
  {
    if rows == [] then None
    else
      var n := |rows| - 1;
      var best := Active(rows[..n], org);
      var newer := best == None || rows[n].version > rows[best.value].version;
      if rows[n].org == org && rows[n].active && newer then Some(n)
      else best
  }

  predicate MaterialOpens(master: string, material: Cipher) {
    Unseal(master, material).Some?
  }

  ghost predicate Sane(master: string, rows: seq<Row>) {
    forall i :: 0 <= i < |rows| ==> 1 <= rows[i].version && MaterialOpens(master, rows[i].material)
  }

  /** The table's unique constraint on (org_id, key_version). */
  ghost predicate UniqueVersions(rows: seq<Row>) {
    forall i, j :: 0 <= i < j < |rows| && rows[i].org == rows[j].org ==> rows[i].version != rows[j].version
  }

  ghost predicate NoGaps(rows: seq<Row>) {
    forall org, v :: 1 <= v <= MaxVersion(rows, org) ==> Lookup(rows, org, v).Some?
  }

  /** Exactly the newest version of each organisation is active. */
  ghost predicate NewestActive(rows: seq<Row>) {
    forall i :: 0 <= i < |rows| ==> (rows[i].active <==> rows[i].version == MaxVersion(rows, rows[i].org))
  }

  /** For each organisation the versions are exactly 1..n, one row each, and the
      active row is version n. */
  ghost predicate Consistent(master: string, rows: seq<Row>) {
    Sane(master, rows) && UniqueVersions(rows) && NoGaps(rows) && NewestActive(rows)
  }

  /** Rows are only ever added; of an old row only the active flag changes. */
  ghost predicate Extends(rows: seq<Row>, later: seq<Row>) {
    && |rows| <= |later|
    && forall i :: 0 <= i < |rows| ==>
         later[i].org == rows[i].org && later[i].version == rows[i].version && later[i].material == rows[i].material
  }

  // ------------------------------------------------------------------ operations

  function NewRow(master: string, org: nat, version: int, key: string, now: int): Row {
    Row(org, version, Seal(master, key), true, Some(now))
  }

  /** `ensure_workspace_keyring`. */
  function Ensured(master: string, rows: seq<Row>, org: nat, key: string, now: int): seq<Row> {
    if Active(rows, org).Some? then rows else rows + [NewRow(master, org, 1, key, now)]
  }

  /** One turn of the rotation loop. */
  function RotateRow(master: string, rows: seq<Row>, i: nat, key: string, now: int): seq<Row>
    requires i < |rows|
  {
    var version := MaxVersion(rows, rows[i].org) + 1;
    rows[i := rows[i].(active := false)] + [NewRow(master, rows[i].org, version, key, now)]
  }

  predicate InRange(due: seq<nat>, n: nat) {
    forall k :: 0 <= k < |due| ==> due[k] < n
  }

  /** The loop over a batch; turn k uses the k-th fresh key. */
  function RotateBatch(master: string, rows: seq<Row>, due: seq<nat>, keys: nat -> string, now: int): (later: seq<Row>)
    requires InRange(due, |rows|)
    ensures |later| == |rows| + |due|
  {
    if due == [] then rows
    else
      var n := |due| - 1;
      RotateRow(master, RotateBatch(master, rows, due[..n], keys, now), due[n], keys(n), now)
  }

  function Decrypted(master: string, rows: seq<Row>, org: nat, text: Cipher): Result<string> {
    if !IsWorkspace(text) then
      match Unseal(master, text)
      case None => Err(DecryptFailed)
      case Some(plain) => Ok(plain)
    else
      match Unformat(text)
      case None => Err(InvalidFormat)
      case Some((version, token)) =>
        match Lookup(rows, org, version)
        case None => Err(KeyNotFound)
        case Some(i) =>
          match Unseal(master, rows[i].material)
          case None => Err(DecryptFailed)
          case Some(key) =>
            match Unseal(key, token)
            case None => Err(DecryptFailed)
            case Some(plain) => Ok(plain)
  }

  /** The ciphertext that the row `i` produces. */
  function EncryptedBy(master: string, row: Row, value: string): Option<Cipher> {
    match Unseal(master, row.material)
    case None => None
    case Some(key) => Some(Format(row.version, Seal(key, value)))
  }

  // ------------------------------------------------------------------ invariants

  lemma {:induction false} MaxVersionAppend(rows: seq<Row>, row: Row, org: nat)
    ensures MaxVersion(rows + [row], org)
         == if row.org == org && row.version > MaxVersion(rows, org) then row.version else MaxVersion(rows, org)
  {
    assert (rows + [row])[..|rows|] == rows;
  }

  lemma {:induction false} MaxVersionSame(rows: seq<Row>, i: nat, row: Row, org: nat)
    requires i < |rows| && row.org == rows[i].org && row.version == rows[i].version
    ensures MaxVersion(rows[i := row], org) == MaxVersion(rows, org)
  {
    var n := |rows| - 1;
    if i == n {
      assert rows[i := row][..n] == rows[..n];
    } else {
      assert rows[i := row][..n] == rows[..n][i := row];
      MaxVersionSame(rows[..n], i, row, org);
    }
  }

  lemma NoGapsAppend(rows: seq<Row>, row: Row)
    requires NoGaps(rows) && row.version == MaxVersion(rows, row.org) + 1
    ensures NoGaps(rows + [row])
  {
    hide MaxVersion, Lookup;
    var rows' := rows + [row];
    forall org, v | 1 <= v <= MaxVersion(rows', org) ensures Lookup(rows', org, v).Some? {
      MaxVersionAppend(rows, row, org);
      var i := if org == row.org && v == row.version then |rows| else Lookup(rows, org, v).value;
      assert rows'[i].org == org && rows'[i].version == v;
    }
  }

  lemma NewestActiveAppend(rows: seq<Row>, row: Row)
    requires forall i :: 0 <= i < |rows| ==>
               (rows[i].active <==> rows[i].version == MaxVersion(rows, rows[i].org) && rows[i].org != row.org)
    requires row.active && row.version == MaxVersion(rows, row.org) + 1
    ensures NewestActive(rows + [row])
  {
    hide MaxVersion;
    var rows' := rows + [row];
    forall i | 0 <= i < |rows'| ensures rows'[i].active <==> rows'[i].version == MaxVersion(rows', rows'[i].org) {
      MaxVersionAppend(rows, row, rows'[i].org);
    }
  }

  /** One row is added: version 1 of the organisation, sealing the fresh key. */
  predicate AddsFirstKey(master: string, rows: seq<Row>, rows': seq<Row>, org: nat, key: string, now: int) {
    && |rows'| == |rows| + 1 && rows'[..|rows|] == rows
    && IsFresh(master, rows'[|rows|], org, key, now) && rows'[|rows|].version == 1
  }

  lemma EnsuredConsistent(master: string, rows: seq<Row>, org: nat, key: string, now: int)
    requires Consistent(master, rows)
    ensures var rows' := Ensured(master, rows, org, key, now);
            && Consistent(master, rows') && Extends(rows, rows')
            && Active(rows', org).Some?
            && rows'[Active(rows', org).value].version == MaxVersion(rows', org)
            && (rows' == rows <==> exists i :: 0 <= i < |rows| && rows[i].org == org)
            && (rows' != rows ==> AddsFirstKey(master, rows, rows', org, key, now))
  {
    hide MaxVersion, Lookup, Active, NoGaps, NewestActive;
    ActiveIffKeys(master, rows, org);
    if Active(rows, org).None? {
      var row := NewRow(master, org, 1, key, now);
      NoKeys(rows, org);
      NoGapsAppend(rows, row);
      NewestOfNone(rows, row);
      assert (rows + [row])[|rows|].active;
    }
    NewestIsMax(Ensured(master, rows, org, key, now), org);
    HasKeys(master, rows, org);
  }

  lemma HasKeys(master: string, rows: seq<Row>, org: nat)
    requires Consistent(master, rows)
    ensures Active(rows, org).Some? <==> exists i :: 0 <= i < |rows| && rows[i].org == org
  {
    hide MaxVersion, Lookup, Active;
    ActiveIffKeys(master, rows, org);
    if i :| 0 <= i < |rows| && rows[i].org == org {
      assert 1 <= rows[i].version <= MaxVersion(rows, org);
    }
  }

  /** The first key of an organisation becomes its only active one. */
  lemma NewestOfNone(rows: seq<Row>, row: Row)
    requires NewestActive(rows) && row.active && row.version == MaxVersion(rows, row.org) + 1
    requires forall i :: 0 <= i < |rows| ==> rows[i].org != row.org
    ensures NewestActive(rows + [row])
  {
    hide MaxVersion;
    NewestActiveAppend(rows, row);
  }

  lemma NewestIsMax(rows: seq<Row>, org: nat)
    requires NewestActive(rows) && Active(rows, org).Some?
    ensures rows[Active(rows, org).value].version == MaxVersion(rows, org)
  {
    hide MaxVersion, Active;
  }

  lemma NoKeys(rows: seq<Row>, org: nat)
    requires forall i :: 0 <= i < |rows| ==> 1 <= rows[i].version
    requires MaxVersion(rows, org) == 0
    ensures forall i :: 0 <= i < |rows| ==> rows[i].org != org
  {
  }

  /** An organisation without an active key has no key at all, so version 1 is
      never created twice. */
  lemma ActiveIffKeys(master: string, rows: seq<Row>, org: nat)
    requires Consistent(master, rows)
    ensures Active(rows, org).Some? <==> MaxVersion(rows, org) > 0
  {
    hide MaxVersion, Lookup, Active;
    if MaxVersion(rows, org) > 0 {
      var i := Lookup(rows, org, MaxVersion(rows, org)).value;
      assert rows[i].active;
    }
  }

  lemma DeactivateKeepsVersions(rows: seq<Row>, i: nat)
    requires i < |rows| && NoGaps(rows)
    ensures var rows' := rows[i := rows[i].(active := false)];
            NoGaps(rows') && forall org :: MaxVersion(rows', org) == MaxVersion(rows, org)
  {
    hide MaxVersion, Lookup;
    var rows' := rows[i := rows[i].(active := false)];
    forall org ensures MaxVersion(rows', org) == MaxVersion(rows, org) {
      MaxVersionSame(rows, i, rows'[i], org);
    }
    forall org, v | 1 <= v <= MaxVersion(rows', org) ensures Lookup(rows', org, v).Some? {
      var j := Lookup(rows, org, v).value;
      assert rows'[j].org == org && rows'[j].version == v;
    }
  }

  lemma RotateRowConsistent(master: string, rows: seq<Row>, i: nat, key: string, now: int)
    requires Consistent(master, rows) && i < |rows| && rows[i].active
    ensures var rows' := RotateRow(master, rows, i, key, now);
            Consistent(master, rows') && Extends(rows, rows')
  {
    hide MaxVersion, Lookup, NoGaps, NewestActive, UniqueVersions, Sane, Extends;
    var rows', org := rows[i := rows[i].(active := false)], rows[i].org;
    var row := NewRow(master, org, MaxVersion(rows, org) + 1, key, now);
    DeactivateKeepsVersions(rows, i);
    NoGapsAppend(rows', row);
    DeactivateNewest(rows, i);
    NewestActiveAppend(rows', row);
    UniqueAppend(rows', row);
    RotateRowSane(master, rows, i, key, now);
  }

  lemma RotateRowSane(master: string, rows: seq<Row>, i: nat, key: string, now: int)
    requires Sane(master, rows) && i < |rows|
    ensures var rows' := RotateRow(master, rows, i, key, now); Sane(master, rows') && Extends(rows, rows')
  {
    hide MaxVersion;
    var rows' := RotateRow(master, rows, i, key, now);
    assert rows'[|rows|] == NewRow(master, rows[i].org, MaxVersion(rows, rows[i].org) + 1, key, now);
    forall k | 0 <= k < |rows| ensures rows'[k].version == rows[k].version && rows'[k].material == rows[k].material {
    }
  }

  lemma UniqueAppend(rows: seq<Row>, row: Row)
    requires UniqueVersions(rows) && row.version > MaxVersion(rows, row.org)
    ensures UniqueVersions(rows + [row])
  {
  }

  lemma DeactivateNewest(rows: seq<Row>, i: nat)
    requires i < |rows| && rows[i].active && UniqueVersions(rows) && NewestActive(rows)
    ensures var rows', org := rows[i := rows[i].(active := false)], rows[i].org;
            && UniqueVersions(rows')
            && forall j :: 0 <= j < |rows'| ==>
                 (rows'[j].active <==> rows'[j].version == MaxVersion(rows, rows'[j].org) && rows'[j].org != org)
  {
    hide MaxVersion;
    forall j | 0 <= j < |rows| && j != i && rows[j].org == rows[i].org ensures !rows[j].active {
      assert rows[i].version != rows[j].version;
    }
  }

  lemma ExtendsTransitive(a: seq<Row>, b: seq<Row>, c: seq<Row>)
    requires Extends(a, b) && Extends(b, c)
    ensures Extends(a, c)
  {
  }

  // -------------------------------------------------------------------- rotation

  predicate Due(row: Row, cutoff: int) {
    row.active && (row.rotatedAt == None || row.rotatedAt.value <= cutoff)
  }

  /** `ORDER BY rotated_at ASC NULLS FIRST`. */
  predicate NotYounger(a: Row, b: Row) {
    a.rotatedAt == None || (b.rotatedAt.Some? && a.rotatedAt.value <= b.rotatedAt.value)
  }

  predicate OldestFirst(rows: seq<Row>, due: seq<nat>) {
    InRange(due, |rows|) && forall k, l :: 0 <= k < l < |due| ==> NotYounger(rows[due[k]], rows[due[l]])
  }

  predicate AllDue(rows: seq<Row>, cutoff: int, due: seq<nat>) {
    forall k :: 0 <= k < |due| ==> due[k] < |rows| && Due(rows[due[k]], cutoff)
  }

  /** What the due query may answer: at most `batch` distinct due rows, oldest
      first, leaving out only rows that are no older, and only when full. */
  ghost predicate IsBatch(rows: seq<Row>, cutoff: int, batch: nat, due: seq<nat>) {
    && AllDue(rows, cutoff, due) && Distinct(due) && OldestFirst(rows, due) && |due| <= batch
    && (forall j: nat :: j < |rows| && Due(rows[j], cutoff) && j !in due ==>
          |due| == batch && NoneYounger(rows, due, j))
  }

  predicate NoneYounger(rows: seq<Row>, due: seq<nat>, j: nat)
    requires j < |rows|
  {
    forall k :: 0 <= k < |due| && due[k] < |rows| ==> NotYounger(rows[due[k]], rows[j])
  }

  lemma {:induction false} RotateBatchConsistent(master: string, rows: seq<Row>, due: seq<nat>, keys: nat -> string,
                                                 now: int)
    requires Consistent(master, rows) && Distinct(due) && InRange(due, |rows|)
    requires forall k :: 0 <= k < |due| ==> rows[due[k]].active
    ensures var later := RotateBatch(master, rows, due, keys, now);
            && Consistent(master, later) && Extends(rows, later)
            && (forall i :: 0 <= i < |rows| ==> later[i] == if i in due then rows[i].(active := false) else rows[i])
            && (forall i :: |rows| <= i < |later| ==> later[i].rotatedAt == Some(now))
  {
    hide Consistent, RotateRow;
    if due != [] {
      var n := |due| - 1;
      var before := RotateBatch(master, rows, due[..n], keys, now);
      RotateBatchConsistent(master, rows, due[..n], keys, now);
      assert forall i :: i in due <==> i in due[..n] || i == due[n];
      assert due[n] !in due[..n];
      assert before[due[n]] == rows[due[n]];
      RotateRowConsistent(master, before, due[n], keys(n), now);
      RotateRowEffect(master, before, due[n], keys(n), now);
      assert IsFresh(master, RotateRow(master, before, due[n], keys(n), now)[|before|], before[due[n]].org, keys(n),
                     now);
      ExtendsTransitive(rows, before, RotateRow(master, before, due[n], keys(n), now));
    }
  }

  /** An active key of the organisation, made now, whose material is this key. */
  predicate IsFresh(master: string, row: Row, org: nat, key: string, now: int) {
    row.org == org && row.active && row.rotatedAt == Some(now) && Unseal(master, row.material) == Some(key)
  }

  /** The k-th row a batch adds is a fresh key for the organisation of its k-th row. */
  lemma {:induction false} RotateBatchFresh(master: string, rows: seq<Row>, due: seq<nat>, keys: nat -> string,
                                            now: int)
    requires Consistent(master, rows) && Distinct(due) && InRange(due, |rows|)
    requires forall k :: 0 <= k < |due| ==> rows[due[k]].active
    ensures var later := RotateBatch(master, rows, due, keys, now);
            forall k :: 0 <= k < |due| ==> IsFresh(master, later[|rows| + k], rows[due[k]].org, keys(k), now)
  {
    hide Consistent, RotateRow, IsFresh;
    if due != [] {
      var n := |due| - 1;
      var before := RotateBatch(master, rows, due[..n], keys, now);
      RotateBatchFresh(master, rows, due[..n], keys, now);
      RotateBatchConsistent(master, rows, due[..n], keys, now);
      RotateRowEffect(master, before, due[n], keys(n), now);
      assert before[due[n]].org == rows[due[n]].org;
    }
  }

  lemma RotateRowEffect(master: string, rows: seq<Row>, i: nat, key: string, now: int)
    requires i < |rows|
    ensures var rows' := RotateRow(master, rows, i, key, now);
            && |rows'| == |rows| + 1 && IsFresh(master, rows'[|rows|], rows[i].org, key, now)
            && forall j :: 0 <= j < |rows| ==> rows'[j] == if j == i then rows[i].(active := false) else rows[j]
  {
  }

  /** All due rows among the first n, oldest first. */
  function DueOrder(rows: seq<Row>, cutoff: int, n: nat): (due: seq<nat>)
    requires n <= |rows|
    ensures forall i: nat :: i in due <==> i < n && Due(rows[i], cutoff)
    ensures Distinct(due) && OldestFirst(rows, due)
  {
    if n == 0 then []
    else
      var rest := DueOrder(rows, cutoff, n - 1);
      if Due(rows[n - 1], cutoff) then Insert(rows, rest, n - 1) else rest
  }

  function Insert(rows: seq<Row>, due: seq<nat>, i: nat): (due': seq<nat>)
    requires i < |rows| && i !in due && Distinct(due) && OldestFirst(rows, due)
    ensures forall j :: j in due' <==> j in due || j == i
    ensures Distinct(due') && OldestFirst(rows, due')
  {
    if due == [] then [i]
    else if NotYounger(rows[i], rows[due[0]]) then [i] + due
    else
      var rest := Insert(rows, due[1..], i);
      OldestBefore(rows, due, rest, i);
      [due[0]] + rest
  }

  lemma OldestBefore(rows: seq<Row>, due: seq<nat>, rest: seq<nat>, i: nat)
    requires due != [] && Distinct(due) && OldestFirst(rows, due)
    requires i < |rows| && i != due[0] && NotYounger(rows[due[0]], rows[i])
    requires Distinct(rest) && OldestFirst(rows, rest) && forall j :: j in rest <==> j in due[1..] || j == i
    ensures Distinct([due[0]] + rest) && OldestFirst(rows, [due[0]] + rest)
    ensures forall j :: j in [due[0]] + rest <==> j in due || j == i
  {
    hide NotYounger;
    assert due == [due[0]] + due[1..];
    forall k | 0 <= k < |rest| ensures rest[k] != due[0] && NotYounger(rows[due[0]], rows[rest[k]]) {
      assert rest[k] in rest;
      if rest[k] != i {
        var l :| 0 <= l < |due| - 1 && due[1..][l] == rest[k];
        assert due[l + 1] == rest[k];
      }
    }
  }

  lemma DueOrderBatch(rows: seq<Row>, cutoff: int, batch: nat)
    ensures var due := DueOrder(rows, cutoff, |rows|);
            IsBatch(rows, cutoff, batch, if |due| <= batch then due else due[..batch])
  {
    hide Due, NotYounger, DueOrder;
    var due := DueOrder(rows, cutoff, |rows|);
    assert forall k :: 0 <= k < |due| ==> due[k] in due;
    if |due| > batch {
      var first := due[..batch];
      forall j: nat | j < |rows| && Due(rows[j], cutoff) && j !in first ensures NoneYounger(rows, first, j) {
        assert j in due;
        var l :| 0 <= l < |due| && due[l] == j;
        assert forall m :: 0 <= m < batch ==> first[m] == due[m] && first[m] in first;
        assert l >= batch;
      }
    }
  }

  datatype RotateAnswer = Rotated(checked: nat, rotated: nat) | ValueError

  class Table {
    const master: string
    var rows: seq<Row>

    ghost predicate Valid()
      reads this
    {
      Consistent(master, rows)
    }

    constructor (master: string)
      ensures Valid() && rows == [] && this.master == master
    {
      this.master := master;
      rows := [];
    }

    /** `ensure_workspace_keyring`: the active key, created as version 1 only for
        an organisation without keys. */
    method Ensure(org: nat, freshKey: string, now: int) returns (current: nat)
      requires Valid()
      modifies this
      ensures Valid() && Extends(old(rows), rows)
      ensures rows == Ensured(master, old(rows), org, freshKey, now)
      ensures current < |rows| && rows[current].org == org && rows[current].active
      ensures rows[current].version == MaxVersion(rows, org)
      ensures rows == old(rows) <==> exists i :: 0 <= i < |old(rows)| && old(rows)[i].org == org
      ensures rows != old(rows) ==> AddsFirstKey(master, old(rows), rows, org, freshKey, now)
    {
      hide MaxVersion, Active, Consistent, AddsFirstKey;
      EnsuredConsistent(master, rows, org, freshKey, now);
      var found := Active(rows, org);
      if found.Some? {
        return found.value;
      }
      rows := rows + [NewRow(master, org, 1, freshKey, now)];
      current := |rows| - 1;
      OneActive(master, rows, current, Active(rows, org).value);
    }

    /** `encrypt_secret_for_org`. */
    method Encrypt(org: nat, value: string, freshKey: string, now: int) returns (text: Cipher)
      requires Valid()
      modifies this
      ensures Valid() && Extends(old(rows), rows)
      ensures rows == Ensured(master, old(rows), org, freshKey, now)
      ensures exists i ::
                && 0 <= i < |rows| && rows[i].org == org && rows[i].active
                && EncryptedBy(master, rows[i], value) == Some(text)
    {
      hide MaxVersion, Active, Lookup;
      var i := Ensure(org, freshKey, now);
      assert MaterialOpens(master, rows[i].material);
      var key := Unseal(master, rows[i].material).value;
      text := Format(rows[i].version, Seal(key, value));
      assert EncryptedBy(master, rows[i], value) == Some(text);
    }

    /** `decrypt_secret_for_org`. */
    method Decrypt(org: nat, text: Cipher) returns (r: Result<string>)
      ensures r == Decrypted(master, rows, org, text)
      ensures Valid() ==> forall value :: r == Ok(value) <==>
                text == Seal(master, value) || OpenedByRow(master, rows, org, text, value)
      ensures r == Err(InvalidFormat) <==> IsWorkspace(text) && Unformat(text) == None
      ensures r == Err(KeyNotFound)
              <==> IsWorkspace(text) && Unformat(text).Some? && NoRow(rows, org, Unformat(text).value.0)
    {
      hide Unformat, Lookup, MaxVersion, NoGaps, NewestActive;
      if Valid() {
        forall value {
          DecryptsExactly(master, rows, org, text, value);
        }
      }
      if !IsWorkspace(text) {
        var plain := Unseal(master, text);
        return if plain.Some? then Ok(plain.value) else Err(DecryptFailed);
      }
      var parts := Unformat(text);
      if parts == None {
        return Err(InvalidFormat);
      }
      var (version, token) := parts.value;
      var found := Lookup(rows, org, version);
      if found == None {
        return Err(KeyNotFound);
      }
      var key := Unseal(master, rows[found.value].material);
      if key == None {
        return Err(DecryptFailed);
      }
      var plain := Unseal(key.value, token);
      return if plain.Some? then Ok(plain.value) else Err(DecryptFailed);
    }

    /** `rotate_expired_workspace_keyrings`; ages are in the unit of `now`. */
    method Rotate(maxAge: int, batchSize: int, now: int, keys: nat -> string)
      returns (answer: RotateAnswer, ghost due: seq<nat>)
      requires Valid()
      modifies this
      ensures Valid() && Extends(old(rows), rows)
      ensures answer == ValueError <==> maxAge <= 0 || batchSize <= 0
      ensures answer == ValueError ==> rows == old(rows)
      ensures answer != ValueError ==>
                && IsBatch(old(rows), now - maxAge, batchSize, due)
                && rows == RotateBatch(master, old(rows), due, keys, now)
                && answer == Rotated(|due|, |due|)
      ensures forall k :: 0 <= k < |due| ==> Replaced(master, old(rows), rows, due, k, keys(k), now, maxAge)
      ensures answer != ValueError && |due| < batchSize ==>
                forall i :: 0 <= i < |rows| ==> !OldEnough(rows[i], now, maxAge)
    {
      hide MaxVersion, Consistent, DueOrder, RotateBatch, Due, NotYounger, OldEnough, Replaced;
      if maxAge <= 0 || batchSize <= 0 {
        return ValueError, [];
      }
      var cutoff := now - maxAge;
      var ordered := DueOrder(rows, cutoff, |rows|);
      DueOrderBatch(rows, cutoff, batchSize);
      var selected := if |ordered| <= batchSize then ordered else ordered[..batchSize];
      DueIsActive(rows, cutoff, selected);
      RotateBatchConsistent(master, rows, selected, keys, now);
      AgesAfter(master, rows, maxAge, batchSize, selected, keys, now);
      var rotated := 0;
      ghost var before := rows;
      RotateNothing(master, rows, selected, keys, now);
      while rotated < |selected|
        invariant 0 <= rotated <= |selected|
        invariant rows == RotateBatch(master, before, selected[..rotated], keys, now)
      {
        var i := selected[rotated];
        RotateBatchStep(master, before, selected, keys, now, rotated);
        var version := MaxVersion(rows, rows[i].org) + 1;
        rows := rows[i := rows[i].(active := false)] + [NewRow(master, rows[i].org, version, keys(rotated), now)];
        rotated := rotated + 1;
      }
      assert selected[..rotated] == selected;
      return Rotated(|selected|, rotated), selected;
    }
  }

  /** An active key whose age is at least maxAge, or unknown. */
  predicate OldEnough(row: Row, now: int, maxAge: int) {
    row.active && match row.rotatedAt case None => true case Some(made) => now - made >= maxAge
  }

  /** The k-th key of a batch was old enough; it is inactive now, and the k-th new
      row is a fresh key of its organisation. */
  predicate Replaced(master: string, rows: seq<Row>, later: seq<Row>, due: seq<nat>, k: nat, key: string, now: int,
                     maxAge: int) {
    && k < |due| && due[k] < |rows| && |rows| + k < |later|
    && OldEnough(rows[due[k]], now, maxAge) && later[due[k]] == rows[due[k]].(active := false)
    && IsFresh(master, later[|rows| + k], rows[due[k]].org, key, now)
  }

  /** Only keys that are old enough are rotated; a tick that is not full leaves none. */
  lemma AgesAfter(master: string, rows: seq<Row>, maxAge: int, batch: nat, due: seq<nat>, keys: nat -> string, now: int)
    requires Consistent(master, rows) && maxAge > 0 && IsBatch(rows, now - maxAge, batch, due)
    ensures InRange(due, |rows|)
    ensures var later := RotateBatch(master, rows, due, keys, now);
            forall k :: 0 <= k < |due| ==> Replaced(master, rows, later, due, k, keys(k), now, maxAge)
    ensures |due| < batch ==>
              var later := RotateBatch(master, rows, due, keys, now);
              forall i :: 0 <= i < |later| ==> !OldEnough(later[i], now, maxAge)
  {
    hide Consistent, RotateBatch, NotYounger;
    DueIsActive(rows, now - maxAge, due);
    RotateBatchConsistent(master, rows, due, keys, now);
    RotateBatchFresh(master, rows, due, keys, now);
    var later := RotateBatch(master, rows, due, keys, now);
    forall i | 0 <= i < |later| && |due| < batch ensures !OldEnough(later[i], now, maxAge) {
      if i >= |rows| {
        assert IsFresh(master, later[|rows| + (i - |rows|)], rows[due[i - |rows|]].org, keys(i - |rows|), now);
      }
    }
  }

  /** Age order: a key without a date is oldest, then the earliest date. */
  lemma AgeOrder(a: Row, b: Row)
    ensures NotYounger(a, b) || NotYounger(b, a)
    ensures NotYounger(a, b) && NotYounger(b, a) <==> a.rotatedAt == b.rotatedAt
    ensures a.rotatedAt == None ==> NotYounger(a, b)
    ensures a.rotatedAt.Some? && b.rotatedAt.Some? && a.rotatedAt.value < b.rotatedAt.value ==> !NotYounger(b, a)
  {
  }

  lemma RotateNothing(master: string, rows: seq<Row>, due: seq<nat>, keys: nat -> string, now: int)
    ensures RotateBatch(master, rows, due[..0], keys, now) == rows
  {
  }

  lemma RotateBatchStep(master: string, rows: seq<Row>, due: seq<nat>, keys: nat -> string, now: int, k: nat)
    requires k < |due| && InRange(due, |rows|)
    ensures RotateBatch(master, rows, due[..k + 1], keys, now)
         == RotateRow(master, RotateBatch(master, rows, due[..k], keys, now), due[k], keys(k), now)
  {
    hide RotateRow;
    assert due[..k + 1][..k] == due[..k];
  }

  lemma OneActive(master: string, rows: seq<Row>, i: nat, j: nat)
    requires Consistent(master, rows) && i < |rows| && j < |rows|
    requires rows[i].org == rows[j].org && rows[i].active && rows[j].active
    ensures i == j
  {
    hide MaxVersion, Lookup, MaterialOpens;
  }

  // ------------------------------------------------------- readable for ever

  /** A ciphertext made from any row of a table decrypts, for that row's
      organisation, in every later table whose versions are unique. */
  lemma StaysReadable(master: string, rows: seq<Row>, i: nat, value: string, later: seq<Row>)
    requires i < |rows| && MaterialOpens(master, rows[i].material)
    requires Extends(rows, later) && Sane(master, later) && UniqueVersions(later)
    ensures Decrypted(master, later, rows[i].org, EncryptedBy(master, rows[i], value).value) == Ok(value)
  {
    hide MaxVersion, Lookup, Unformat, Format, IsWorkspace;
    var key := Unseal(master, rows[i].material).value;
    UnformatFormat(rows[i].version, Seal(key, value));
    assert later[i].org == rows[i].org && later[i].version == rows[i].version;
    var j := Lookup(later, rows[i].org, rows[i].version).value;
    assert i == j;
  }

  /** The text names a version of the organisation whose key sealed the value. */
  ghost predicate OpenedByRow(master: string, rows: seq<Row>, org: nat, text: Cipher, value: string) {
    IsWorkspace(text) && exists i :: 0 <= i < |rows| && rows[i].org == org && SealedBy(master, rows[i], text, value)
  }

  predicate SealedBy(master: string, row: Row, text: Cipher, value: string) {
    && Unseal(master, row.material).Some?
    && Unformat(text) == Some((row.version, Seal(Unseal(master, row.material).value, value)))
  }

  ghost predicate NoRow(rows: seq<Row>, org: nat, version: int) {
    forall i :: 0 <= i < |rows| ==> rows[i].org != org || rows[i].version != version
  }

  lemma UnsealExactly(key: string, token: Cipher, value: string)
    ensures Unseal(key, token) == Some(value) <==> token == Seal(key, value)
    ensures !IsWorkspace(Seal(key, value))
  {
  }

  /** A text decrypts to a value exactly when the global key sealed the value into
      it, or a key of the organisation did whose version the text names. */
  lemma DecryptsExactly(master: string, rows: seq<Row>, org: nat, text: Cipher, value: string)
    requires Sane(master, rows) && UniqueVersions(rows)
    ensures Decrypted(master, rows, org, text) == Ok(value)
            <==> text == Seal(master, value) || OpenedByRow(master, rows, org, text, value)
  {
    hide Unformat, Lookup, Seal, Unseal, IsWorkspace;
    UnsealExactly(master, text, value);
    if IsWorkspace(text) && Unformat(text).Some? {
      var (version, token) := Unformat(text).value;
      var found := Lookup(rows, org, version);
      forall i | 0 <= i < |rows| && rows[i].org == org && SealedBy(master, rows[i], text, value)
        ensures found == Some(i)
      {
      }
      if found.Some? {
        var i := found.value;
        UnsealExactly(Unseal(master, rows[i].material).value, token, value);
        assert SealedBy(master, rows[i], text, value) <==> Decrypted(master, rows, org, text) == Ok(value);
      }
    }
  }

  /** Another organisation reads it exactly when its key of that version is the
      very same key. */
  lemma ReadableExactly(master: string, rows: seq<Row>, i: nat, value: string, org: nat)
    requires i < |rows| && MaterialOpens(master, rows[i].material)
    ensures Decrypted(master, rows, org, EncryptedBy(master, rows[i], value).value) == Ok(value)
            <==> var found := Lookup(rows, org, rows[i].version);
                 found.Some? && Unseal(master, rows[found.value].material) == Unseal(master, rows[i].material)
  {
    hide Lookup, Unformat, Format, IsWorkspace;
    var key := Unseal(master, rows[i].material).value;
    UnformatFormat(rows[i].version, Seal(key, value));
  }

  /** Secrets sealed with the global key before keyrings existed stay readable. */
  lemma LegacyReadable(master: string, rows: seq<Row>, org: nat, value: string)
    ensures Decrypted(master, rows, org, Seal(master, value)) == Ok(value)
  {
  }

  datatype Op =
    | EnsureOp(org: nat, key: string, now: int)
    | RotateOp(cutoff: int, batch: nat, due: seq<nat>, keys: nat -> string, now: int)

  /** An operation on the table (encrypting ensures, decrypting changes nothing);
      a rotation takes any answer the due query may give. */
  ghost function Apply(master: string, rows: seq<Row>, op: Op): seq<Row> {
    match op
    case EnsureOp(org, key, now) => Ensured(master, rows, org, key, now)
    case RotateOp(cutoff, batch, due, keys, now) =>
      if IsBatch(rows, cutoff, batch, due) then RotateBatch(master, rows, due, keys, now) else rows
  }

  ghost function ApplyAll(master: string, rows: seq<Row>, ops: seq<Op>): seq<Row> {
    if ops == [] then rows
    else Apply(master, ApplyAll(master, rows, ops[..|ops| - 1]), ops[|ops| - 1])
  }

  lemma {:induction false} RunsKeepConsistent(master: string, rows: seq<Row>, ops: seq<Op>)
    requires Consistent(master, rows)
    ensures Consistent(master, ApplyAll(master, rows, ops)) && Extends(rows, ApplyAll(master, rows, ops))
  {
    hide Consistent, Ensured, RotateBatch, Due, NotYounger;
    if ops != [] {
      var before, op := ApplyAll(master, rows, ops[..|ops| - 1]), ops[|ops| - 1];
      RunsKeepConsistent(master, rows, ops[..|ops| - 1]);
      match op {
        case EnsureOp(org, key, now) =>
          EnsuredConsistent(master, before, org, key, now);
          ExtendsTransitive(rows, before, Apply(master, before, op));
        case RotateOp(cutoff, batch, due, keys, now) =>
          if IsBatch(before, cutoff, batch, due) {
            DueIsActive(before, cutoff, due);
            RotateBatchConsistent(master, before, due, keys, now);
            ExtendsTransitive(rows, before, Apply(master, before, op));
          }
      }
    }
  }

  lemma DueIsActive(rows: seq<Row>, cutoff: int, due: seq<nat>)
    requires AllDue(rows, cutoff, due)
    ensures InRange(due, |rows|) && forall k :: 0 <= k < |due| ==> rows[due[k]].active
  {
  }

  /** Every ciphertext ever produced stays readable through any later run of
      ensure, encrypt and rotate operations. */
  lemma ReadableThroughRuns(master: string, before: seq<Op>, i: nat, value: string, after: seq<Op>)
    requires i < |ApplyAll(master, [], before)|
    ensures var rows := ApplyAll(master, [], before);
            && MaterialOpens(master, rows[i].material)
            && Decrypted(master, ApplyAll(master, rows, after), rows[i].org,
                         EncryptedBy(master, rows[i], value).value) == Ok(value)
  {
    hide ApplyAll, Decrypted, EncryptedBy, MaxVersion, Lookup;
    RunsKeepConsistent(master, [], before);
    var rows := ApplyAll(master, [], before);
    RunsKeepConsistent(master, rows, after);
    StaysReadable(master, rows, i, value, ApplyAll(master, rows, after));
  }

  // ------------------------------------------------------ nobody else can read

  /** No two rows hold the same key. */
  ghost predicate KeysApart(master: string, rows: seq<Row>) {
    forall i, j :: 0 <= i < j < |rows| ==> Unseal(master, rows[i].material) != Unseal(master, rows[j].material)
  }

  /** With distinct keys, no other organisation ever decrypts a row's ciphertext. */
  lemma OthersCannotRead(master: string, rows: seq<Row>, i: nat, value: string, org: nat)
    requires i < |rows| && MaterialOpens(master, rows[i].material) && KeysApart(master, rows) && org != rows[i].org
    ensures Decrypted(master, rows, org, EncryptedBy(master, rows[i], value).value).Err?
  {
    hide Lookup, Unformat, Format, IsWorkspace;
    var key := Unseal(master, rows[i].material).value;
    UnformatFormat(rows[i].version, Seal(key, value));
    var found := Lookup(rows, org, rows[i].version);
    if found.Some? {
      var j := found.value;
      assert Unseal(master, rows[i].material) != Unseal(master, rows[j].material) by {
        assert i < j || j < i;
      }
    }
  }

  predicate HoldsKey(master: string, rows: seq<Row>, key: string) {
    exists i :: 0 <= i < |rows| && Unseal(master, rows[i].material) == Some(key)
  }

  /** The keys an operation generates are new and distinct. */
  ghost predicate FreshOp(master: string, rows: seq<Row>, op: Op) {
    match op
    case EnsureOp(_, key, _) => !HoldsKey(master, rows, key)
    case RotateOp(_, _, due, keys, _) =>
      && (forall k: nat :: k < |due| ==> !HoldsKey(master, rows, keys(k)))
      && (forall k: nat, l: nat :: k < l < |due| ==> keys(k) != keys(l))
  }

  ghost predicate FreshRun(master: string, ops: seq<Op>) {
    forall n :: 0 <= n < |ops| ==> FreshOp(master, ApplyAll(master, [], ops[..n]), ops[n])
  }

  lemma ApplyKeysApart(master: string, rows: seq<Row>, op: Op)
    requires Consistent(master, rows) && KeysApart(master, rows) && FreshOp(master, rows, op)
    ensures KeysApart(master, Apply(master, rows, op))
  {
    hide Consistent, Ensured, RotateBatch, Due, NotYounger, Unseal;
    match op
    case EnsureOp(org, key, now) =>
      EnsuredConsistent(master, rows, org, key, now);
      var later := Ensured(master, rows, org, key, now);
      if later != rows {
        assert forall i :: 0 <= i < |rows| ==> later[i] == later[..|rows|][i] == rows[i];
      }
    case RotateOp(cutoff, batch, due, keys, now) =>
      if IsBatch(rows, cutoff, batch, due) {
        DueIsActive(rows, cutoff, due);
        RotateBatchConsistent(master, rows, due, keys, now);
        RotateBatchFresh(master, rows, due, keys, now);
        var later := RotateBatch(master, rows, due, keys, now);
        forall i | |rows| <= i < |later| ensures Unseal(master, later[i].material) == Some(keys(i - |rows|)) {
          assert IsFresh(master, later[|rows| + (i - |rows|)], rows[due[i - |rows|]].org, keys(i - |rows|), now);
        }
      }
  }

  lemma {:induction false} RunKeysApart(master: string, ops: seq<Op>)
    requires FreshRun(master, ops)
    ensures KeysApart(master, ApplyAll(master, [], ops))
  {
    hide Apply, FreshOp, Consistent;
    if ops != [] {
      var n := |ops| - 1;
      forall m | 0 <= m < n ensures FreshOp(master, ApplyAll(master, [], ops[..n][..m]), ops[..n][m]) {
        assert ops[..n][..m] == ops[..m];
      }
      RunKeysApart(master, ops[..n]);
      EmptyConsistent(master);
      RunsKeepConsistent(master, [], ops[..n]);
      ApplyKeysApart(master, ApplyAll(master, [], ops[..n]), ops[n]);
    }
  }

  lemma EmptyConsistent(master: string)
    ensures Consistent(master, [])
  {
  }

  /** After any run whose generated keys are all distinct, a ciphertext of any key
      of one organisation is refused to every other. */
  lemma TenantsIsolated(master: string, ops: seq<Op>, i: nat, value: string, org: nat)
    requires FreshRun(master, ops) && i < |ApplyAll(master, [], ops)| && org != ApplyAll(master, [], ops)[i].org
    ensures var rows := ApplyAll(master, [], ops);
            MaterialOpens(master, rows[i].material)
            && Decrypted(master, rows, org, EncryptedBy(master, rows[i], value).value).Err?
  {
    hide ApplyAll, Decrypted, EncryptedBy, NoGaps, NewestActive, UniqueVersions;
    EmptyConsistent(master);
    RunsKeepConsistent(master, [], ops);
    RunKeysApart(master, ops);
    OthersCannotRead(master, ApplyAll(master, [], ops), i, value, org);
  }

  // -------------------------------------------------------------- repeated ticks

  /** The table after ticks with the given batches, all at one reference time. */
  ghost function AfterTicks(master: string, rows: seq<Row>, cutoff: int, batch: nat, ticks: seq<seq<nat>>,
                            keys: nat -> string, now: int): seq<Row> {
    if ticks == [] then rows
    else
      var n := |ticks| - 1;
      Apply(master, AfterTicks(master, rows, cutoff, batch, ticks[..n], keys, now),
            RotateOp(cutoff, batch, ticks[n], keys, now))
  }

  /** Each tick's batch is an answer of the due query on the table it finds. */
  ghost predicate TicksPossible(master: string, rows: seq<Row>, cutoff: int, batch: nat, ticks: seq<seq<nat>>,
                                keys: nat -> string, now: int) {
    ticks != [] ==>
      var n := |ticks| - 1;
      && TicksPossible(master, rows, cutoff, batch, ticks[..n], keys, now)
      && IsBatch(AfterTicks(master, rows, cutoff, batch, ticks[..n], keys, now), cutoff, batch, ticks[n])
  }

  function Flatten(ticks: seq<seq<nat>>): seq<nat> {
    if ticks == [] then [] else Flatten(ticks[..|ticks| - 1]) + ticks[|ticks| - 1]
  }

  function DueRows(rows: seq<Row>, cutoff: int): set<nat> {
    set i: nat | i < |rows| && Due(rows[i], cutoff)
  }

  /** What ticks so far have done: they rotated distinct rows that were due at
      the start, oldest first; the rows still due are the remaining ones,
      untouched, and none is older than a rotated one. */
  ghost predicate Progress(rows: seq<Row>, later: seq<Row>, cutoff: int, rotated: seq<nat>) {
    && |rows| <= |later|
    && AllDue(rows, cutoff, rotated) && Distinct(rotated) && OldestFirst(rows, rotated)
    && (forall i: nat :: i < |later| && Due(later[i], cutoff) ==>
          i < |rows| && later[i] == rows[i] && i !in rotated && NoneYounger(rows, rotated, i))
    && (forall i: nat :: i < |rows| && Due(rows[i], cutoff) && i !in rotated ==> later[i] == rows[i])
  }

  lemma TickProgress(master: string, rows: seq<Row>, before: seq<Row>, cutoff: int, batch: nat, rotated: seq<nat>,
                     due: seq<nat>, keys: nat -> string, now: int)
    requires Consistent(master, before) && cutoff < now
    requires Progress(rows, before, cutoff, rotated) && IsBatch(before, cutoff, batch, due)
    ensures Progress(rows, RotateBatch(master, before, due, keys, now), cutoff, rotated + due)
  {
    hide Consistent, RotateBatch, NotYounger;
    DueIsActive(before, cutoff, due);
    RotateBatchConsistent(master, before, due, keys, now);
    var later, all := RotateBatch(master, before, due, keys, now), rotated + due;
    assert forall k :: 0 <= k < |all| ==> all[k] == if k < |rotated| then rotated[k] else due[k - |rotated|];
    assert forall i :: i in all <==> i in rotated || i in due;
    forall k | 0 <= k < |due|
      ensures due[k] < |rows| && before[due[k]] == rows[due[k]] && due[k] !in rotated
              && NoneYounger(rows, rotated, due[k])
    {
    }
    forall i: nat | i < |later| && Due(later[i], cutoff)
      ensures i < |rows| && later[i] == rows[i] && i !in all && NoneYounger(rows, all, i)
    {
      assert i < |before| && i !in due && before[i] == later[i];
      assert NoneYounger(before, due, i);
    }
  }

  lemma {:induction false} TicksProgress(master: string, rows: seq<Row>, cutoff: int, batch: nat,
                                         ticks: seq<seq<nat>>, keys: nat -> string, now: int)
    requires Consistent(master, rows) && cutoff < now
    requires TicksPossible(master, rows, cutoff, batch, ticks, keys, now)
    ensures var later := AfterTicks(master, rows, cutoff, batch, ticks, keys, now);
            Consistent(master, later) && Progress(rows, later, cutoff, Flatten(ticks))
  {
    hide Consistent, RotateBatch, NotYounger, Due;
    if ticks != [] {
      var n := |ticks| - 1;
      TicksProgress(master, rows, cutoff, batch, ticks[..n], keys, now);
      var before := AfterTicks(master, rows, cutoff, batch, ticks[..n], keys, now);
      TickProgress(master, rows, before, cutoff, batch, Flatten(ticks[..n]), ticks[n], keys, now);
      DueIsActive(before, cutoff, ticks[n]);
      RotateBatchConsistent(master, before, ticks[n], keys, now);
    }
  }

  /** Ticks at one reference time rotate each due key exactly once, oldest first,
      never a key just created, and leave max(0, due - ticks * batch) keys due;
      so the tick after ceil(due / batch) ticks reports 0. */
  lemma {:induction false} TicksDrain(master: string, rows: seq<Row>, cutoff: int, batch: nat, ticks: seq<seq<nat>>,
                                      keys: nat -> string, now: int)
    requires Consistent(master, rows) && cutoff < now
    requires TicksPossible(master, rows, cutoff, batch, ticks, keys, now)
    ensures var left := |DueRows(AfterTicks(master, rows, cutoff, batch, ticks, keys, now), cutoff)|;
            left == if |ticks| * batch <= |DueRows(rows, cutoff)| then |DueRows(rows, cutoff)| - |ticks| * batch else 0
  {
    hide Consistent, RotateBatch, Due, DueRows, Progress;
    if ticks != [] {
      var n := |ticks| - 1;
      var before := AfterTicks(master, rows, cutoff, batch, ticks[..n], keys, now);
      TicksDrain(master, rows, cutoff, batch, ticks[..n], keys, now);
      TicksProgress(master, rows, cutoff, batch, ticks[..n], keys, now);
      BatchShrinksDue(master, before, cutoff, batch, ticks[n], keys, now);
      assert |ticks| * batch == n * batch + batch;
    }
  }

  lemma BatchShrinksDue(master: string, rows: seq<Row>, cutoff: int, batch: nat, due: seq<nat>, keys: nat -> string,
                        now: int)
    requires Consistent(master, rows) && cutoff < now && IsBatch(rows, cutoff, batch, due)
    ensures |DueRows(RotateBatch(master, rows, due, keys, now), cutoff)|
            == if batch <= |DueRows(rows, cutoff)| then |DueRows(rows, cutoff)| - batch else 0
  {
    hide Consistent, RotateBatch, NotYounger;
    DueIsActive(rows, cutoff, due);
    RotateBatchConsistent(master, rows, due, keys, now);
    var all, rotated := DueRows(rows, cutoff), Elements(due);
    assert rotated <= all;
    assert DueRows(RotateBatch(master, rows, due, keys, now), cutoff) == all - rotated;
    assert |all - rotated| == |all| - |rotated|;
    ElementsSize(due);
    if |due| < batch {
      assert all <= rotated;
    }
  }
}
