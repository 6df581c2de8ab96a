/** The field_crypto_keys table as a value: its constraints, what each committed
    transaction does to it, and what no transaction ever undoes. The other
    modules share this one description: KeyTransactions shows that interleaved
    transactions amount to it, and the cipher and write-back modules build on it. */
module KeyTables {
  import opened Wrappers
  import opened Aead
  import opened Blobs
  import opened KeySets

  datatype Row = Row(key: seq<byte>, retiredAt: Option<Time>, decryptableUntil: Option<Time>, compromisedAt: Option<Time>)

  /** Rows by version. */
  type Table = map<uint32, Row>

  const MAX_VERSION: int := 0x7fff_ffff
  const DAY: Time := 86_400_000_000_000
  const MAX_GRACE_DAYS: int := 36500

  predicate IsActive(row: Row) { row.retiredAt.None? }

  predicate IsKeyMaterial(key: seq<byte>) { |key| == KEY_SIZE && !AllZeroBytes(key) }

  /** The length check and the two named CHECK constraints. */
  predicate RowOk(row: Row) {
    && IsKeyMaterial(row.key)
    && (row.retiredAt.None? ==> row.decryptableUntil.None? && row.compromisedAt.None?)
    && (row.decryptableUntil.Some? && row.retiredAt.Some? ==> row.decryptableUntil.value >= row.retiredAt.value)
  }

  /** `a` is the one active row, and no row has a higher version. */
  ghost predicate IsTheActive(t: Table, a: uint32) {
    a in t && IsActive(t[a]) && forall v | v in t :: v <= a && (v != a ==> !IsActive(t[v]))
  }

  /** The invariant of every committed state: either the table is still empty, or
      exactly one row is active and it has the highest version; versions start at
      1, key material is never on file twice, and every row meets the checks. */
  ghost predicate TableInv(t: Table) {
    && (forall v | v in t :: 0 < v <= MAX_VERSION && RowOk(t[v]))
    && KeysDistinct(t)
    && (t != map[] ==> exists a :: IsTheActive(t, a))
  }

  ghost predicate KeysDistinct(t: Table) {
    forall v, w | v in t && w in t && t[v].key == t[w].key :: v == w
  }

  ghost function ActiveVersion(t: Table): (a: uint32)
    requires TableInv(t) && t != map[]
    ensures IsTheActive(t, a)
  {
    var a :| IsTheActive(t, a);
    a
  }

  lemma OnlyOneActive(t: Table, a: uint32)
    requires TableInv(t) && a in t && IsActive(t[a])
    ensures ActiveVersion(t) == a
  {
  }

  ghost predicate SomeActive(t: Table) { exists v :: v in t && IsActive(t[v]) }

  ghost predicate KeyInUse(t: Table, key: seq<byte>) { exists v :: v in t && t[v].key == key }

  // ------------------------------------------------------------------ row updates

  function GraceEnd(now: Time, days: Option<nat>): (until: Option<Time>) {
    if days.None? then None else Some(now + days.value * DAY)
  }

  /** RetireActiveFieldCryptoKey's SET list. */
  function RetiredRow(row: Row, now: Time, grace: Option<nat>, compromised: bool): (r: Row) {
    Row(row.key, Some(now), GraceEnd(now, grace), if compromised then Some(now) else None)
  }

  datatype FlagChange = Compromise | Grace(days: Option<nat>)

  /** The SET lists of MarkFieldCryptoKeyCompromised and SetFieldCryptoKeyDecryptableUntil. */
  function FlaggedRow(row: Row, change: FlagChange, now: Time): (r: Row) {
    match change
    case Compromise => row.(compromisedAt := if row.compromisedAt.Some? then row.compromisedAt else Some(now))
    case Grace(days) => row.(decryptableUntil := GraceEnd(now, days))
  }

  function FreshRow(key: seq<byte>): (r: Row) { Row(key, None, None, None) }

  // ------------------------------------------------------------------ whole transactions

  datatype Op =
    | Rotate(version: uint32, key: seq<byte>, grace: Option<nat>, compromised: bool, now: Time)
    | Flag(version: uint32, change: FlagChange, now: Time)
    | Init(version: uint32, key: seq<byte>)

  /** What the handlers let through. */
  predicate Accepted(op: Op) {
    match op
    case Rotate(_, key, grace, compromised, _) =>
      && IsKeyMaterial(key)
      && (grace.Some? ==> !compromised && 1 <= grace.value <= MAX_GRACE_DAYS)
    case Flag(_, change, _) =>
      change.Grace? && change.days.Some? ==> change.days.value <= MAX_GRACE_DAYS
    case Init(_, key) => IsKeyMaterial(key)
  }

  /** When the transaction can commit against `t`. `version` is what the identity
      column issued. */
  ghost predicate Applies(t: Table, op: Op) {
    match op
    case Rotate(version, key, _, _, _) =>
      && t != map[] && !KeyInUse(t, key)
      && version <= MAX_VERSION && forall v | v in t :: v < version
    case Flag(version, change, now) =>
      version in t && !IsActive(t[version]) && RowOk(FlaggedRow(t[version], change, now))
    case Init(version, _) =>
      t == map[] && 0 < version <= MAX_VERSION
  }

  function Apply(t: Table, op: Op): (t': Table) {
    match op
    case Rotate(version, key, grace, compromised, now) =>
      (map v | v in t :: if IsActive(t[v]) then RetiredRow(t[v], now, grace, compromised) else t[v])
        [version := FreshRow(key)]
    case Flag(version, change, now) =>
      if version in t then t[version := FlaggedRow(t[version], change, now)] else t
    case Init(version, key) => t[version := FreshRow(key)]
  }

  ghost predicate TableStep(t: Table, op: Op, t': Table) {
    Accepted(op) && Applies(t, op) && t' == Apply(t, op)
  }

  lemma RetiredRowOk(row: Row, op: Op)
    requires RowOk(row) && op.Rotate? && Accepted(op)
    ensures RowOk(RetiredRow(row, op.now, op.grace, op.compromised))
  {
    if op.grace.Some? {
      assert op.grace.value * DAY >= 0;
    }
  }

  lemma RotateKeepsRows(t: Table, op: Op)
    requires TableInv(t) && op.Rotate? && Accepted(op) && Applies(t, op)
    ensures forall v | v in Apply(t, op) :: 0 < v <= MAX_VERSION && RowOk(Apply(t, op)[v])
  {
    var a := ActiveVersion(t);
    assert 0 < a < op.version;
    RetiredRowOk(t[a], op);
  }

  lemma RotateKeepsKeysDistinct(t: Table, op: Op)
    requires TableInv(t) && op.Rotate? && Accepted(op) && Applies(t, op)
    ensures KeysDistinct(Apply(t, op))
  {
    var t' := Apply(t, op);
    assert forall v | v in t :: v != op.version && t'[v].key == t[v].key && t[v].key != op.key;
  }

  lemma RotateKeepsInv(t: Table, op: Op)
    requires TableInv(t) && op.Rotate? && Accepted(op) && Applies(t, op)
    ensures TableInv(Apply(t, op)) && IsTheActive(Apply(t, op), op.version)
  {
    RotateKeepsRows(t, op);
    RotateKeepsKeysDistinct(t, op);
    assert IsTheActive(Apply(t, op), op.version);
  }

  lemma StepKeepsInv(t: Table, op: Op, t': Table)
    requires TableInv(t) && TableStep(t, op, t')
    ensures TableInv(t') && t' != map[]
  {
    match op
    case Rotate(_, _, _, _, _) => RotateKeepsInv(t, op);
    case Flag(_, _, _) =>
      assert IsTheActive(t', ActiveVersion(t));
    case Init(version, _) =>
      assert IsTheActive(t', version);
  }

  // ------------------------------------------------------------------ what is never undone

  /** No row disappears or changes its key; a retirement and the first compromise
      time stand for ever. */
  ghost predicate Later(t: Table, t': Table) {
    forall v | v in t ::
      && v in t' && t'[v].key == t[v].key
      && (t[v].retiredAt.Some? ==> t'[v].retiredAt == t[v].retiredAt)
      && (t[v].compromisedAt.Some? ==> t'[v].compromisedAt == t[v].compromisedAt)
  }

  lemma StepIsLater(t: Table, op: Op, t': Table)
    requires TableInv(t) && TableStep(t, op, t')
    ensures Later(t, t')
  {
    match op
    case Rotate(_, _, _, _, _) =>
      forall v | v in t && IsActive(t[v]) ensures t[v].compromisedAt.None? {
        assert RowOk(t[v]);
      }
    case Flag(_, _, _) =>
    case Init(_, _) =>
  }

  lemma LaterReflexive(t: Table)
    ensures Later(t, t)
  {
  }

  lemma LaterTransitive(a: Table, b: Table, c: Table)
    requires Later(a, b) && Later(b, c)
    ensures Later(a, c)
  {
  }

  lemma LaterActive(t: Table, t': Table)
    requires TableInv(t) && TableInv(t') && t != map[] && Later(t, t')
    ensures t' != map[] && ActiveVersion(t) <= ActiveVersion(t')
  {
    assert ActiveVersion(t) in t';
  }

  // ------------------------------------------------------------------ histories

  /** The committed states of a bootstrapped table, oldest first. */
  ghost predicate TablesInv(tables: seq<Table>) {
    && |tables| > 0
    && (forall i | 0 <= i < |tables| :: TableInv(tables[i]) && tables[i] != map[])
    && (forall i, j | 0 <= i <= j < |tables| :: Later(tables[i], tables[j]))
  }

  lemma ExtendTables(tables: seq<Table>, op: Op, t: Table)
    requires TablesInv(tables) && TableStep(tables[|tables| - 1], op, t)
    ensures TablesInv(tables + [t]) && TableInv(t) && t != map[] && Later(tables[|tables| - 1], t)
  {
    hide TableInv, Later, TableStep;
    var last := tables[|tables| - 1];
    StepKeepsInv(last, op, t);
    StepIsLater(last, op, t);
    var tables' := tables + [t];
    forall i, j | 0 <= i <= j < |tables'| ensures Later(tables'[i], tables'[j]) {
      if i == |tables| {
        LaterReflexive(t);
      } else if j == |tables| {
        LaterTransitive(tables[i], last, t);
      }
    }
  }

  // ------------------------------------------------------------------ loading

  /** ListUsableFieldCryptoKeys' WHERE clause. */
  predicate UsableRow(row: Row, now: Time) {
    row.retiredAt.None? || row.decryptableUntil.None? || row.decryptableUntil.value > now
  }

  function RecordOf(version: uint32, row: Row): (rec: Record) {
    Record(version, row.key, row.retiredAt, row.decryptableUntil, row.compromisedAt)
  }

  /** The rows the query returns at `now`, ordered by version. */
  ghost predicate IsListing(recs: seq<Record>, t: Table, now: Time) {
    && (forall i, j | 0 <= i < j < |recs| :: recs[i].version < recs[j].version)
    && (forall i | 0 <= i < |recs| ::
          && recs[i].version in t && UsableRow(t[recs[i].version], now)
          && recs[i] == RecordOf(recs[i].version, t[recs[i].version]))
    && (forall v | v in t && UsableRow(t[v], now) :: exists i :: 0 <= i < |recs| && recs[i].version == v)
  }

  function UsableEntries(t: Table, now: Time): (m: map<uint32, KeyEntry>) {
    map v | v in t && UsableRow(t[v], now) :: EntryOf(RecordOf(v, t[v]))
  }

  /** The snapshot a load that sees `t` at `now` installs. */
  ghost function SnapshotOf(t: Table, now: Time, loadedAt: Time): (keys: KeySet)
    requires TableInv(t) && t != map[]
  {
    KeySet(ActiveVersion(t), UsableEntries(t, now), loadedAt)
  }

  /** What a snapshot holds: every key of the table that has no deadline or one
      still to come, with the table's own flags, and the active version. */
  lemma SnapshotHoldsExactly(t: Table, now: Time, loadedAt: Time, v: uint32)
    requires TableInv(t) && t != map[]
    ensures var keys := SnapshotOf(t, now, loadedAt);
            && keys.loadedAt == loadedAt && keys.active in t && t[keys.active].retiredAt.None?
            && (v in keys.byVersion <==> v in t && (t[v].decryptableUntil.None? || now < t[v].decryptableUntil.value))
            && (v in keys.byVersion ==>
                  keys.byVersion[v] == KeyEntry(t[v].key, t[v].decryptableUntil, t[v].compromisedAt))
  {
    if v in t {
      assert RowOk(t[v]);
    }
  }

  lemma ListingAcceptable(recs: seq<Record>, t: Table, now: Time)
    requires TableInv(t) && t != map[] && IsListing(recs, t, now)
    ensures Acceptable(recs)
  {
    var a := ActiveVersion(t);
    forall i | 0 <= i < |recs| ensures GoodRecord(recs[i]) && (recs[i].retiredAt.None? <==> recs[i].version == a) {
      assert RowOk(t[recs[i].version]);
    }
    assert UsableRow(t[a], now);
    var i :| 0 <= i < |recs| && recs[i].version == a;
    assert recs[i].retiredAt.None?;
  }

  lemma ListedEntry(recs: seq<Record>, t: Table, now: Time, keys: KeySet, v: uint32)
    requires IsListing(recs, t, now) && HoldsExactly(keys, recs)
    ensures v in keys.byVersion <==> v in t && UsableRow(t[v], now)
    ensures v in keys.byVersion ==> keys.byVersion[v] == EntryOf(RecordOf(v, t[v]))
  {
    if v in keys.byVersion {
      var k :| 0 <= k < |recs| && recs[k].version == v;
    }
    if v in t && UsableRow(t[v], now) {
      var k :| 0 <= k < |recs| && recs[k].version == v;
    }
  }

  lemma ListedEntries(recs: seq<Record>, t: Table, now: Time, keys: KeySet)
    requires IsListing(recs, t, now) && HoldsExactly(keys, recs)
    ensures keys.byVersion == UsableEntries(t, now)
  {
    forall v ensures v in keys.byVersion <==> v in UsableEntries(t, now) {
      ListedEntry(recs, t, now, keys, v);
    }
    forall v | v in keys.byVersion ensures UsableEntries(t, now)[v] == keys.byVersion[v] {
      ListedEntry(recs, t, now, keys, v);
    }
  }

  lemma ListedActive(recs: seq<Record>, t: Table, now: Time, keys: KeySet)
    requires TableInv(t) && t != map[] && IsListing(recs, t, now) && HoldsExactly(keys, recs)
    ensures keys.active == ActiveVersion(t)
  {
    var i :| 0 <= i < |recs| && recs[i].retiredAt.None? && recs[i].version == keys.active;
    OnlyOneActive(t, recs[i].version);
  }

  /** A load from a table that meets its invariant always builds, and the
      snapshot is exactly the usable rows of that table. */
  lemma ListingBuilds(recs: seq<Record>, t: Table, now: Time, loadedAt: Time)
    requires TableInv(t) && t != map[] && IsListing(recs, t, now)
    ensures Build(recs, loadedAt) == Ok(SnapshotOf(t, now, loadedAt))
  {
    ListingAcceptable(recs, t, now);
    BuildSucceedsExactlyWhen(recs, loadedAt);
    ListedEntries(recs, t, now, Build(recs, loadedAt).value);
    ListedActive(recs, t, now, Build(recs, loadedAt).value);
  }

  // ------------------------------------------------------------------ snapshots against later tables

  /** A snapshot taken from some earlier state of a table that is now `t`: every
      key it holds is the table's key for that version, it never sees past its
      own active version, and a compromise it knows of is still on record. */
  ghost predicate SnapshotWithin(keys: KeySet, t: Table) {
    && WellFormed(keys)
    && TableInv(t) && t != map[] && keys.active <= ActiveVersion(t)
    && (forall v | v in keys.byVersion ::
          && v <= keys.active && v in t && t[v].key == keys.byVersion[v].key
          && (keys.byVersion[v].compromisedAt.Some? ==> t[v].compromisedAt == keys.byVersion[v].compromisedAt))
  }

  lemma SnapshotFitsLaterTable(t: Table, now: Time, loadedAt: Time, t': Table)
    requires TableInv(t) && t != map[] && TableInv(t') && Later(t, t')
    ensures SnapshotWithin(SnapshotOf(t, now, loadedAt), t')
  {
    LaterActive(t, t');
    var keys := SnapshotOf(t, now, loadedAt);
    forall v | v in keys.byVersion ensures v != 0 && |keys.byVersion[v].key| == KEY_SIZE {
      assert RowOk(t[v]);
    }
    assert RowOk(t[keys.active]);
  }

  lemma SnapshotStaysWithin(keys: KeySet, t: Table, t': Table)
    requires SnapshotWithin(keys, t) && TableInv(t') && Later(t, t')
    ensures SnapshotWithin(keys, t')
  {
    LaterActive(t, t');
  }

  /** Any two snapshots of one table's history agree on every key they share. */
  lemma SnapshotsAgree(a: KeySet, b: KeySet, t: Table, v: uint32)
    requires SnapshotWithin(a, t) && SnapshotWithin(b, t) && v in a.byVersion && v in b.byVersion
    ensures a.byVersion[v].key == b.byVersion[v].key
  {
  }

  /** A rotation derived from such a snapshot, however stale, points forward. */
  lemma RotationPointsForward(g: Aead, keys: KeySet, t: Table, blob: Blob, now: Time, nonce: seq<byte>)
    requires SnapshotWithin(keys, t)
    requires DecryptIn(g, keys, blob, now, nonce).Ok? && DecryptIn(g, keys, blob, now, nonce).value.1.Needed()
    ensures var rot := DecryptIn(g, keys, blob, now, nonce).value.1;
            rot.fromVersion < rot.toVersion <= ActiveVersion(t)
  {
    hide DecryptIn, TableInv, WellFormed;
    RotationVersions(g, keys, blob, now, nonce);
  }
}
