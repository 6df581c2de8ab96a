/** The key table as an object: the SQL statements change it in place inside a
    transaction, and the store adapter hands its rows to the cipher in buffers. */
module KeyStores {
  import opened Wrappers
  import opened Aead
  import opened Blobs
  import opened KeySets
  import opened KeyTables

  type int32 = x: int | -0x8000_0000 <= x < 0x8000_0000

  /** A scanned row: the version is a signed column, the key sits in a buffer. */
  datatype DbRow = DbRow(version: int32, keyBytes: array<byte>, retiredAt: Option<Time>,
                         decryptableUntil: Option<Time>, compromisedAt: Option<Time>)

  function RowBuffers(rows: seq<DbRow>): (s: set<array<byte>>) { set r | r in rows :: r.keyBytes }

  datatype StoreError = CorruptRow(version: int)

  datatype InsertError = UniqueKey | SequenceExhausted

  datatype FlagError = NoRow | CheckFailed

  datatype InitialError = NoInsertedRow | InitialFailed

  /** `working` is what the open transaction sees; only Commit makes it durable,
      and the identity sequence is outside any transaction. */
  class KeyDb {
    var committed: Table
    var working: Table
    var nextVersion: int

    ghost predicate Valid()
      reads this
    {
      && 0 < nextVersion <= MAX_VERSION + 1
      && (forall v | v in committed :: 0 < v as int < nextVersion)
      && (forall v | v in working :: 0 < v as int < nextVersion)
    }

    constructor ()
      ensures Valid() && committed == map[] && working == map[] && nextVersion == 1
    {
      committed, working, nextVersion := map[], map[], 1;
    }

    method Begin()
      requires Valid()
      modifies this`working
      ensures Valid() && working == committed
    {
      working := committed;
    }

    method Rollback()
      requires Valid()
      modifies this`working
      ensures Valid() && working == committed
    {
      working := committed;
    }

    method Commit()
      requires Valid()
      modifies this`committed
      ensures Valid() && committed == working
    {
      committed := working;
    }

    /** UPDATE ... WHERE retired_at IS NULL RETURNING version: every active row is
        retired, and None is returned exactly when there was none. */
    method RetireActive(now: Time, grace: Option<nat>, compromised: bool) returns (retired: Option<uint32>)
      requires Valid()
      modifies this`working
      ensures Valid()
      ensures working == map v | v in old(working) ::
                           if IsActive(old(working)[v]) then RetiredRow(old(working)[v], now, grace, compromised)
                           else old(working)[v]
      ensures working.Keys == old(working).Keys
      ensures forall v | v in old(working) ::
                var was := old(working)[v];
                working[v] == if was.retiredAt.Some? then was
                              else Row(was.key, Some(now),
                                       if grace.None? then None else Some(now + grace.value * 86_400_000_000_000),
                                       if compromised then Some(now) else None)
      ensures retired.None? <==> forall v | v in old(working) :: !IsActive(old(working)[v])
      ensures retired.Some? ==> retired.value in old(working) && IsActive(old(working)[retired.value])
    {
      retired := None;
      if v :| v in working && IsActive(working[v]) {
        retired := Some(v);
      }
      working := map v | v in working ::
                   if IsActive(working[v]) then RetiredRow(working[v], now, grace, compromised) else working[v];
    }

    /** INSERT INTO ... (key_bytes) RETURNING version, against both unique
        constraints. A conflict still uses up a sequence value. */
    method InsertActive(key: seq<byte>) returns (r: Result<uint32, InsertError>)
      requires Valid()
      modifies this`working, this`nextVersion
      ensures Valid() && nextVersion >= old(nextVersion)
      ensures r.Ok? <==> && old(nextVersion) <= MAX_VERSION && !KeyInUse(old(working), key)
                         && forall v | v in old(working) :: !IsActive(old(working)[v])
      ensures r.Ok? ==> r.value == old(nextVersion) && r.value !in old(working)
                        && working == old(working)[r.value := FreshRow(key)]
      ensures r.Err? ==> working == old(working)
      ensures r == Err(UniqueKey) <==> && old(nextVersion) <= MAX_VERSION
                                       && (KeyInUse(old(working), key)
                                           || exists v :: v in old(working) && IsActive(old(working)[v]))
    {
      if nextVersion > MAX_VERSION {
        return Err(SequenceExhausted);
      }
      var version: uint32 := nextVersion;
      nextVersion := nextVersion + 1;
      if v :| v in working && (working[v].key == key || IsActive(working[v])) {
        return Err(UniqueKey);
      }
      working := working[version := FreshRow(key)];
      return Ok(version);
    }

    /** INSERT ... SELECT ... WHERE NOT EXISTS (any row) ON CONFLICT DO NOTHING:
        no row comes back when the table already has one. It commits on its own. */
    method InsertInitial(key: seq<byte>) returns (r: Result<uint32, InitialError>)
      requires Valid()
      modifies this
      ensures Valid()
      ensures r.Ok? <==> old(committed) == map[] && old(nextVersion) <= MAX_VERSION
      ensures r == Err(NoInsertedRow) <==> old(committed) != map[]
      ensures r.Ok? ==> r.value == old(nextVersion) && committed == map[r.value := FreshRow(key)]
      ensures r.Err? ==> committed == old(committed)
    {
      Begin();
      r := Err(NoInsertedRow);
      if working == map[] {
        var inserted := InsertActive(key);
        r := if inserted.Ok? then Ok(inserted.value) else Err(InitialFailed);
      }
      Commit();
    }

    /** UPDATE ... WHERE version = $1 AND retired_at IS NOT NULL, against the
        CHECK constraints: no row, a violated check, or the row's new state. */
    method UpdateFlag(version: uint32, change: FlagChange, now: Time) returns (r: Result<Row, FlagError>)
      requires Valid()
      modifies this`working
      ensures Valid()
      ensures r == if version !in old(working) || IsActive(old(working)[version]) then Err(NoRow)
                   else if !RowOk(FlaggedRow(old(working)[version], change, now)) then Err(CheckFailed)
                   else Ok(FlaggedRow(old(working)[version], change, now))
      ensures r.Ok? ==>
                && version in old(working)
                && var was := old(working)[version];
                   && r.value.key == was.key && r.value.retiredAt == was.retiredAt
                   && (change.Compromise? ==>
                         && r.value.decryptableUntil == was.decryptableUntil
                         && r.value.compromisedAt == if was.compromisedAt.Some? then was.compromisedAt else Some(now))
                   && (change.Grace? ==>
                         && r.value.compromisedAt == was.compromisedAt
                         && r.value.decryptableUntil == if change.days.None? then None
                                                        else Some(now + change.days.value * 86_400_000_000_000))
      ensures working == if r.Ok? then old(working)[version := r.value] else old(working)
    {
      if version !in working || IsActive(working[version]) {
        return Err(NoRow);
      }
      var row := FlaggedRow(working[version], change, now);
      if !RowOk(row) {
        return Err(CheckFailed);
      }
      working := working[version := row];
      return Ok(row);
    }

    /** ListUsableFieldCryptoKeys: appends the usable rows in version order, each
        with a buffer of its own. */
    method ListUsable(now: Time) returns (rows: seq<DbRow>)
      requires Valid()
      ensures fresh(RowBuffers(rows))
      ensures forall i, j | 0 <= i < j < |rows| :: rows[i].version < rows[j].version && rows[i].keyBytes != rows[j].keyBytes
      ensures forall i | 0 <= i < |rows| :: IsRow(rows[i], committed, now)
      ensures forall v | v in committed && UsableRow(committed[v], now) :: exists i :: 0 <= i < |rows| && rows[i].version == v
      ensures forall i | 0 <= i < |rows| ::
                rows[i].retiredAt.None? || rows[i].decryptableUntil.None? || rows[i].decryptableUntil.value > now
    {
      var versions := UsableVersions(committed, nextVersion, now);
      rows := ScanRows(committed, versions, now);
    }
  }

  /** The query: the versions it selects, in order. */
  method UsableVersions(t: Table, bound: int, now: Time) returns (versions: seq<uint32>)
    requires bound <= MAX_VERSION + 1 && forall v | v in t :: 0 < v as int < bound
    ensures forall i, j | 0 <= i < j < |versions| :: versions[i] < versions[j]
    ensures forall v: uint32 :: v in versions <==> v in t && UsableRow(t[v], now)
  {
    versions := [];
    if bound < 1 {
      return;
    }
    for n := 1 to bound
      invariant forall i | 0 <= i < |versions| :: versions[i] < n
      invariant forall i, j | 0 <= i < j < |versions| :: versions[i] < versions[j]
      invariant forall v: uint32 :: v in versions <==> v in t && v < n && UsableRow(t[v], now)
    {
      var v: uint32 := n;
      if v in t && UsableRow(t[v], now) {
        versions := versions + [v];
      }
    }
  }

  /** The scan: each row is copied out, the key into a buffer of its own. */
  method ScanRows(t: Table, versions: seq<uint32>, now: Time) returns (rows: seq<DbRow>)
    requires forall v | v in versions :: v in t && v <= MAX_VERSION && UsableRow(t[v], now)
    ensures |rows| == |versions| && forall i | 0 <= i < |rows| :: rows[i].version == versions[i] && IsRow(rows[i], t, now)
    ensures forall i, j | 0 <= i < j < |rows| :: rows[i].keyBytes != rows[j].keyBytes
    ensures fresh(RowBuffers(rows))
  {
    rows := [];
    for n := 0 to |versions|
      invariant |rows| == n
      invariant forall i | 0 <= i < n ::
                  fresh(rows[i].keyBytes) && rows[i].version == versions[i] && IsRow(rows[i], t, now)
      invariant forall i, j | 0 <= i < j < n :: rows[i].keyBytes != rows[j].keyBytes
    {
      hide IsRow, UsableRow;
      var r := ScanRow(t, versions[n], now);
      rows := rows + [r];
    }
  }

  method ScanRow(t: Table, v: uint32, now: Time) returns (r: DbRow)
    requires v in t && UsableRow(t[v], now) && v <= MAX_VERSION
    ensures fresh(r.keyBytes) && r.version == v && IsRow(r, t, now)
  {
    var row := t[v];
    var b := new byte[|row.key|](i requires 0 <= i < |row.key| => row.key[i]);
    assert b[..] == row.key;
    r := DbRow(v, b, row.retiredAt, row.decryptableUntil, row.compromisedAt);
  }

  /** The scanned row is the usable table row of its version. */
  ghost predicate IsRow(r: DbRow, t: Table, now: Time)
    reads r.keyBytes
  {
    && 0 <= r.version
    && var v: uint32 := r.version;
       && v in t && UsableRow(t[v], now) && r.keyBytes[..] == t[v].key && r.retiredAt == t[v].retiredAt
       && r.decryptableUntil == t[v].decryptableUntil && r.compromisedAt == t[v].compromisedAt
  }

  // ------------------------------------------------------------------ the adapter

  /** The record keeps the row's own buffer. */
  function KeyRecordFromRow(row: DbRow): (r: Result<KeyRecord, StoreError>) {
    if row.version < 0 then Err(CorruptRow(row.version))
    else Ok(KeyRecord(row.version, row.keyBytes, row.retiredAt, row.decryptableUntil, row.compromisedAt))
  }

  /** Maps every row, or wipes the buffers of all of them, mapped or not. */
  method LoadUsableKeys(rows: seq<DbRow>) returns (r: Result<seq<KeyRecord>, StoreError>)
    modifies RowBuffers(rows)
    ensures r.Ok? <==> forall i | 0 <= i < |rows| :: rows[i].version >= 0
    ensures r.Ok? ==>
              && |r.value| == |rows| && (forall i | 0 <= i < |rows| :: KeyRecordFromRow(rows[i]) == Ok(r.value[i]))
              && (forall b | b in RowBuffers(rows) :: b[..] == old(b[..]))
    ensures r.Err? ==> forall b | b in RowBuffers(rows) :: Zeroed(b)
  {
    var records := [];
    for i := 0 to |rows|
      invariant |records| == i
      invariant forall k | 0 <= k < i :: KeyRecordFromRow(rows[k]) == Ok(records[k])
      invariant forall b | b in RowBuffers(rows) :: b[..] == old(b[..])
    {
      var rec := KeyRecordFromRow(rows[i]);
      if rec.Err? {
        for j := 0 to |rows|
          invariant forall k | 0 <= k < j :: Zeroed(rows[k].keyBytes)
        {
          ZeroBytes(rows[j].keyBytes);
        }
        return Err(rec.error);
      }
      records := records + [rec.value];
    }
    return Ok(records);
  }

  /** The same for the one row an insert returns. */
  method AdoptInsertedRow(row: DbRow) returns (r: Result<KeyRecord, StoreError>)
    modifies row.keyBytes
    ensures r.Ok? <==> row.version >= 0
    ensures r.Ok? ==> KeyRecordFromRow(row) == r && row.keyBytes[..] == old(row.keyBytes[..])
    ensures r.Err? ==> r == Err(CorruptRow(row.version)) && Zeroed(row.keyBytes)
  {
    r := KeyRecordFromRow(row);
    if r.Err? {
      ZeroBytes(row.keyBytes);
    }
  }

  /** A load as the cipher makes it: the rows the query returned, in fresh buffers. */
  method Load(db: KeyDb, now: Time) returns (records: seq<KeyRecord>)
    requires db.Valid()
    ensures fresh(Buffers(records))
    ensures IsListing(Views(records), db.committed, now)
  {
    var rows := db.ListUsable(now);
    var r := LoadUsableKeys(rows);
    records := r.value;
    forall rec | rec in records ensures rec.keyBytes in RowBuffers(rows) {
      var i :| 0 <= i < |records| && records[i] == rec;
      assert KeyRecordFromRow(rows[i]) == Ok(records[i]);
    }
    ListedRows(rows, records, db.committed, now);
  }

  lemma ListedRows(rows: seq<DbRow>, records: seq<KeyRecord>, t: Table, now: Time)
    requires |records| == |rows| && forall i | 0 <= i < |rows| :: KeyRecordFromRow(rows[i]) == Ok(records[i])
    requires forall i, j | 0 <= i < j < |rows| :: rows[i].version < rows[j].version
    requires forall i | 0 <= i < |rows| :: IsRow(rows[i], t, now)
    requires forall v | v in t && UsableRow(t[v], now) :: exists i :: 0 <= i < |rows| && rows[i].version == v
    ensures IsListing(Views(records), t, now)
  {
    var recs := Views(records);
    forall i | 0 <= i < |recs|
      ensures recs[i].version in t && UsableRow(t[recs[i].version], now)
      ensures recs[i] == RecordOf(recs[i].version, t[recs[i].version])
    {
      assert IsRow(rows[i], t, now) && KeyRecordFromRow(rows[i]) == Ok(records[i]);
    }
    forall i, j | 0 <= i < j < |recs| ensures recs[i].version < recs[j].version {
      assert KeyRecordFromRow(rows[i]) == Ok(records[i]) && KeyRecordFromRow(rows[j]) == Ok(records[j]);
    }
    forall v | v in t && UsableRow(t[v], now) ensures exists i :: 0 <= i < |recs| && recs[i].version == v {
      var i :| 0 <= i < |rows| && rows[i].version == v;
      assert KeyRecordFromRow(rows[i]) == Ok(records[i]);
      assert recs[i].version == v;
    }
  }
}
