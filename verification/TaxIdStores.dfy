/** natural_persons and corporations as one object, and the two services that
    write to them. A row is two plain columns and the encrypted one. */
module TaxIdStores {
  import opened Wrappers
  import opened Aead
  import opened Blobs
  import opened TaxIds
  import opened Ciphers
  import opened KeyAdmin

  type Entity = int

  /** given_name and family_name, or legal_name and jurisdiction. */
  datatype Names = Names(first: Option<string>, second: Option<string>)

  datatype Row = Row(names: Names, blob: Column)

  type Rows = map<Entity, Row>

  function BlobOf(rows: Rows, e: Entity): (c: Option<Column>) {
    if e in rows then Some(rows[e].blob) else None
  }

  /** `committed` is what every transaction that starts now sees; `working` is what
      the open one sees. */
  class SubtypeTable {
    var committed: Rows
    var working: Rows

    constructor ()
      ensures committed == map[] && working == map[]
    {
      committed, working := map[], map[];
    }

    method Begin()
      modifies this`working
      ensures working == committed
    {
      working := committed;
    }

    method Commit()
      modifies this`committed
      ensures committed == working
    {
      committed := working;
    }

    /** Other transactions have committed; an open one that has written nothing
        sees it in its next statement. */
    method OthersCommit(rows: Rows)
      modifies this
      ensures committed == rows && working == rows
    {
      committed, working := rows, rows;
    }

    /** INSERT; the entity key is unique. */
    method Insert(e: Entity, names: Names, blob: Option<Blob>) returns (ok: bool)
      modifies this`working
      ensures ok <==> e !in old(working)
      ensures working == if ok then old(working)[e := Row(names, Coalesce(blob, Null))] else old(working)
    {
      if e in working {
        return false;
      }
      working := working[e := Row(names, Coalesce(blob, Null))];
      return true;
    }

    /** UPDATE ... SET first = $2, second = $3, blob = COALESCE($4, blob). */
    method Update(e: Entity, names: Names, blob: Option<Blob>)
      modifies this`working
      ensures working == if e in old(working) then old(working)[e := Row(names, Coalesce(blob, old(working)[e].blob))]
                         else old(working)
    {
      if e in working {
        working := working[e := Row(names, Coalesce(blob, working[e].blob))];
      }
    }

    /** UPDATE ... SET blob = new WHERE entity_id = e AND blob = was. */
    method SwapBlob(e: Entity, was: Blob, replacement: Blob) returns (n: nat)
      modifies this`working
      ensures n == if SwapMatches(BlobOf(old(working), e), was) then 1 else 0
      ensures n == 1 <==> e in old(working) && old(working)[e].blob == Bytes(was)
      ensures working == if n == 1 then old(working)[e := old(working)[e].(blob := Bytes(replacement))] else old(working)
    {
      if e !in working || working[e].blob != Bytes(was) {
        return 0;
      }
      working := working[e := working[e].(blob := Bytes(replacement))];
      return 1;
    }
  }

  // ------------------------------------------------------------------ the ordinary writers

  datatype WriteError = NotFound | Conflict | WriteFault

  /** A field that is present but blank is a clear; values are trimmed already. */
  function ChangeOf(field: Option<seq<byte>>): (c: Change)
    ensures ValidChange(c)
  {
    match field
    case None => Keep
    case Some(value) => if value == [] then Clear else SetTo(value)
  }

  /** The column holds what `change` asks for: the old one untouched, the empty
      value, or a blob that `keys` opens to exactly the new value under its active
      version. */
  ghost predicate Stores(g: Aead, keys: KeySet, change: Change, before: Column, after: Column) {
    match change
    case Keep => after == before
    case Clear => after == Bytes([])
    case SetTo(plaintext) =>
      && after.Bytes? && |after.b| == MIN_BLOB_SIZE + |plaintext|
      && BlobVersion(after.b) == Ok(keys.active) && keys.active in keys.byVersion
      && OpenUnder(g, keys.byVersion[keys.active].key, after.b) == Some(plaintext)
      && forall now :: OpenIn(g, keys, after.b, now) == Ok(Opened(plaintext, keys.active, keys.byVersion[keys.active]))
  }

  /** What the environment hands one Encrypt call. */
  datatype EncryptInputs = EncryptInputs(check: Time, rateCheck: Time, entered: Time, startedAt: Time,
                                         handed: Handed, nonce: seq<byte>)

  /** The write parameter for a change: NULL, the empty value, or a sealed blob.
      Encrypting never fails, so the writers have no error branch for it. */
  method EncryptChange(cipher: Cipher, change: Change, i: EncryptInputs) returns (param: Option<Blob>)
    requires |i.nonce| == NONCE_SIZE && WellFormed(cipher.keys) && ValidChange(change)
    modifies cipher, HandedBuffers(i.handed)
    ensures WellFormed(cipher.keys) && (param.None? <==> change.Keep?)
    ensures forall before :: Stores(cipher.g, cipher.keys, change, before, Coalesce(param, before))
    ensures !change.SetTo? ==> cipher.Value() == old(cipher.Value())
  {
    match change {
      case Keep => return None;
      case Clear => return Some([]);
      case SetTo(plaintext) =>
        ghost var call := Call(i.check, i.rateCheck, Reload(i.entered, i.startedAt, AnswerOf(i.handed)), i.nonce);
        ghost var before := cipher.Value();
        var sealed := cipher.Encrypt(plaintext, i.check, i.rateCheck, i.entered, i.startedAt, i.handed, i.nonce);
        SealStores(cipher.g, before, cipher.hasStore, plaintext, call);
        return Some(sealed.value);
    }
  }

  lemma SealStores(g: Aead, st: State, hasStore: bool, plaintext: seq<byte>, call: Call)
    requires WellFormed(st.keys) && |call.nonce| == NONCE_SIZE && plaintext != []
    ensures var (st', r) := Encrypted(g, st, hasStore, plaintext, call);
            && WellFormed(st'.keys) && r.Ok?
            && forall before :: Stores(g, st'.keys, SetTo(plaintext), before, Bytes(r.value))
  {
    ReloadKeepsSnapshot(st, call.reload);
    var st' := EncryptState(st, hasStore, call);
    forall now {
      SealedByAnyOpensInAny(g, st'.keys, st'.keys, call.nonce, plaintext, now);
    }
    SealedOpens(g, st'.keys.active, st'.keys.byVersion[st'.keys.active].key, call.nonce, plaintext);
  }

  /** UpdateByEntityUUID: names that are not given are written back as they were
      read, the encrypted column goes through COALESCE. */
  method UpdateRecord(table: SubtypeTable, cipher: Cipher, e: Entity, names: Names, field: Option<seq<byte>>,
                      i: EncryptInputs, w: Conditions)
    returns (r: Result<Unit, WriteError>)
    requires |i.nonce| == NONCE_SIZE && WellFormed(cipher.keys)
    modifies table, cipher, HandedBuffers(i.handed)
    ensures WellFormed(cipher.keys)
    ensures r.Ok? ==>
              && e in old(table.committed)
              && var was := old(table.committed)[e];
                 && e in table.committed && table.committed == old(table.committed)[e := table.committed[e]]
                 && table.committed[e].names == Names(if names.first.Some? then names.first else was.names.first,
                                                      if names.second.Some? then names.second else was.names.second)
                 && Stores(cipher.g, cipher.keys, ChangeOf(field), was.blob, table.committed[e].blob)
    ensures r.Ok? && field.None? ==> table.committed[e].blob == old(table.committed)[e].blob
    ensures r.Ok? && field == Some([]) ==> table.committed[e].blob == Bytes([])
    ensures r.Ok? && field.Some? && field.value != [] ==>
              && table.committed[e].blob.Bytes?
              && var blob := table.committed[e].blob.b;
                 && |blob| == 32 + |field.value| && BlobVersion(blob) == Ok(cipher.keys.active)
                 && cipher.keys.active in cipher.keys.byVersion
                 && OpenUnder(cipher.g, cipher.keys.byVersion[cipher.keys.active].key, blob) == Some(field.value)
    ensures r.Err? && !w.commit.CommitUnreported? ==> table.committed == old(table.committed)
    ensures r == Err(NotFound) <==> w.begins && w.firstRuns && e !in old(table.committed)
    ensures r.Ok? <==> w.Fair() && e in old(table.committed)
  {
    if !w.begins {
      return Err(WriteFault);
    }
    table.Begin();
    if !w.firstRuns {
      return Err(WriteFault);
    }
    if e !in table.working {
      return Err(NotFound);
    }
    var was := table.working[e].names;
    var param := EncryptChange(cipher, ChangeOf(field), i);
    if !w.secondRuns {
      return Err(WriteFault);
    }
    var first := if names.first.Some? then names.first else was.first;
    var second := if names.second.Some? then names.second else was.second;
    table.Update(e, Names(first, second), param);
    if !w.observes || w.commit.CommitRefused? {
      return Err(WriteFault);
    }
    table.Commit();
    return if w.commit.Commits? then Ok(Unit) else Err(WriteFault);
  }

  /** createNaturalPersonInTx and Create: a blank value is no value, stored as NULL. */
  method CreateRecord(table: SubtypeTable, cipher: Cipher, e: Entity, names: Names, value: seq<byte>,
                      i: EncryptInputs, w: Conditions)
    returns (r: Result<Unit, WriteError>)
    requires |i.nonce| == NONCE_SIZE && WellFormed(cipher.keys)
    modifies table, cipher, HandedBuffers(i.handed)
    ensures WellFormed(cipher.keys)
    ensures r.Ok? ==>
              && e !in old(table.committed) && e in table.committed
              && table.committed == old(table.committed)[e := table.committed[e]]
              && table.committed[e].names == names
              && Stores(cipher.g, cipher.keys, if value == [] then Keep else SetTo(value), Null, table.committed[e].blob)
    ensures r.Ok? && value == [] ==> table.committed[e].blob == Null
    ensures r.Ok? && value != [] ==>
              && table.committed[e].blob.Bytes?
              && var blob := table.committed[e].blob.b;
                 && |blob| == 32 + |value| && BlobVersion(blob) == Ok(cipher.keys.active)
                 && cipher.keys.active in cipher.keys.byVersion
                 && OpenUnder(cipher.g, cipher.keys.byVersion[cipher.keys.active].key, blob) == Some(value)
    ensures r.Err? && !w.commit.CommitUnreported? ==> table.committed == old(table.committed)
    ensures r == Err(Conflict) <==> w.begins && w.firstRuns && w.secondRuns && e in old(table.committed)
    ensures r.Ok? <==> w.Fair() && e !in old(table.committed)
  {
    if !w.begins {
      return Err(WriteFault);
    }
    table.Begin();
    if !w.firstRuns {
      return Err(WriteFault);
    }
    var param := EncryptChange(cipher, if value == [] then Keep else SetTo(value), i);
    if !w.secondRuns {
      return Err(WriteFault);
    }
    var inserted := table.Insert(e, names, param);
    if !inserted {
      return Err(Conflict);
    }
    if !w.observes || w.commit.CommitRefused? {
      return Err(WriteFault);
    }
    table.Commit();
    return if w.commit.Commits? then Ok(Unit) else Err(WriteFault);
  }
}
