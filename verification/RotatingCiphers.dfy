/** decryptRotating as the code runs it, on one row, with everybody else's commits
    arriving between its statements. */
module RotatingCiphers {
  import opened Wrappers
  import opened Aead
  import opened Blobs
  import opened TaxIds
  import opened Ciphers
  import opened KeyAdmin
  import opened TaxIdStores

  datatype SwapAnswer = SwapRuns | LockTimedOut | SwapFaults

  /** One attempt's surroundings: what has been committed by the time the swap has
      its row lock, and by the time of a re-read. */
  datatype Surroundings = Surroundings(begins: bool, boundsLockWait: bool, swap: SwapAnswer, atSwap: Rows,
                                       rereads: bool, atReread: Rows, commit: CommitAnswer)

  datatype AttemptError = NoWriteHandle | LockTimeout | LostSwap | NotVerified(e: StaleError) | AttemptFault

  /** What the attempt reports, by what it met. */
  function AttemptResult(handle: bool, e: Entity, was: Blob, rot: Rotation, s: Surroundings): (r: Result<Unit, AttemptError>) {
    if !handle then Err(NoWriteHandle)
    else if !s.begins || !s.boundsLockWait || s.swap.SwapFaults? then Err(AttemptFault)
    else if s.swap.LockTimedOut? then Err(LockTimeout)
    else if !SwapMatches(BlobOf(s.atSwap, e), was) && !rot.mustPersist then Err(LostSwap)
    else if !SwapMatches(BlobOf(s.atSwap, e), was) && !s.rereads then Err(NotVerified(RereadFailed))
    else if !SwapMatches(BlobOf(s.atSwap, e), was) && VerifyStale(BlobOf(s.atReread, e), rot.toVersion).Err? then
      Err(NotVerified(VerifyStale(BlobOf(s.atReread, e), rot.toVersion).error))
    else if s.commit.Commits? then Ok(Unit)
    else Err(AttemptFault)
  }

  function WriteBackResult(handle: bool, e: Entity, was: Blob, rot: Rotation, s1: Surroundings, s2: Surroundings)
    : (r: Result<Unit, AttemptError>)
  {
    AttemptResult(handle, e, was, rot, LastAttempt(handle, e, was, rot, s1, s2))
  }

  /** The surroundings of the attempt that decides: there is one retry, and only on
      a lock timeout. */
  function LastAttempt(handle: bool, e: Entity, was: Blob, rot: Rotation, s1: Surroundings, s2: Surroundings)
    : (s: Surroundings)
  {
    if AttemptResult(handle, e, was, rot, s1) == Err(LockTimeout) then s2 else s1
  }

  /** The swap found its blob, and its commit landed. */
  predicate Lands(handle: bool, e: Entity, was: Blob, s: Surroundings) {
    && handle && s.begins && s.boundsLockWait && s.swap.SwapRuns? && SwapMatches(BlobOf(s.atSwap, e), was)
    && !s.commit.CommitRefused?
  }

  function Replaced(rows: Rows, e: Entity, blob: Blob): (rows': Rows)
    requires e in rows
  {
    rows[e := rows[e].(blob := Bytes(blob))]
  }

  /** An attempt changes at most its own row's blob, only over the exact blob that
      was read, and only by a commit that lands. */
  method AttemptWriteBack(table: SubtypeTable?, e: Entity, was: Blob, rot: Rotation, s: Surroundings)
    returns (r: Result<Unit, AttemptError>)
    modifies if table == null then {} else {table}
    ensures r == AttemptResult(table != null, e, was, rot, s)
    ensures r == Err(NoWriteHandle) <==> table == null
    ensures r == Err(LockTimeout) <==> table != null && s.begins && s.boundsLockWait && s.swap.LockTimedOut?
    ensures r == Err(LostSwap) <==>
              && table != null && s.begins && s.boundsLockWait && s.swap.SwapRuns? && !rot.mustPersist
              && !(e in s.atSwap && s.atSwap[e].blob == Bytes(was))
    ensures table != null && Lands(true, e, was, s) ==> table.committed == Replaced(s.atSwap, e, rot.blob)
    ensures table != null && !Lands(true, e, was, s) ==> table.committed in {old(table.committed), s.atSwap, s.atReread}
  {
    if table == null {
      return Err(NoWriteHandle);
    }
    if !s.begins || !s.boundsLockWait {
      return Err(AttemptFault);
    }
    table.OthersCommit(s.atSwap);
    table.Begin();
    match s.swap {
      case LockTimedOut => return Err(LockTimeout);
      case SwapFaults => return Err(AttemptFault);
      case SwapRuns =>
    }
    var n := table.SwapBlob(e, was, rot.blob);
    if n == 0 {
      if !rot.mustPersist {
        return Err(LostSwap);
      }
      if !s.rereads {
        return Err(NotVerified(RereadFailed));
      }
      table.OthersCommit(s.atReread);
      var verified := VerifyStale(BlobOf(table.working, e), rot.toVersion);
      if verified.Err? {
        return Err(NotVerified(verified.error));
      }
      return if s.commit.Commits? then Ok(Unit) else Err(AttemptFault);
    }
    if s.commit.CommitRefused? {
      return Err(AttemptFault);
    }
    table.Commit();
    return if s.commit.Commits? then Ok(Unit) else Err(AttemptFault);
  }

  /** The attempt's transaction committed, and in it the row was left under the
      target version by the swap, or found empty or under it by the re-read. */
  ghost predicate MetSafeRow(e: Entity, was: Blob, rot: Rotation, s: Surroundings) {
    && s.begins && s.swap.SwapRuns? && s.commit.Commits?
    && if SwapMatches(BlobOf(s.atSwap, e), was) then SafeUnder(Some(Bytes(rot.blob)), rot.toVersion)
       else s.rereads && SafeUnder(BlobOf(s.atReread, e), rot.toVersion)
  }

  lemma AttemptPersistsSafely(handle: bool, e: Entity, was: Blob, rot: Rotation, s: Surroundings)
    requires AttemptResult(handle, e, was, rot, s).Ok? && BlobVersion(rot.blob) == Ok(rot.toVersion)
    ensures handle && MetSafeRow(e, was, rot, s)
  {
    VerifiedIsSafe(BlobOf(s.atReread, e), rot.toVersion);
  }

  /** The same for the attempt that decides. */
  lemma WriteBackPersistsSafely(handle: bool, e: Entity, was: Blob, rot: Rotation, s1: Surroundings, s2: Surroundings)
    requires WriteBackResult(handle, e, was, rot, s1, s2).Ok? && BlobVersion(rot.blob) == Ok(rot.toVersion)
    ensures handle && MetSafeRow(e, was, rot, LastAttempt(handle, e, was, rot, s1, s2))
  {
    AttemptPersistsSafely(handle, e, was, rot, LastAttempt(handle, e, was, rot, s1, s2));
  }

  /** What the write-back leaves: the replacement over the committed rows, other
      rows and names untouched, exactly when the deciding attempt's swap landed, and
      otherwise rows that others committed. Success means that a committed
      transaction of its own left or met a safe row. */
  method WriteBack(table: SubtypeTable?, e: Entity, was: Blob, rot: Rotation, s1: Surroundings, s2: Surroundings)
    returns (r: Result<Unit, AttemptError>)
    modifies if table == null then {} else {table}
    ensures r == WriteBackResult(table != null, e, was, rot, s1, s2)
    ensures table != null ==>
              var last := LastAttempt(true, e, was, rot, s1, s2);
              if Lands(true, e, was, last) then table.committed == Replaced(last.atSwap, e, rot.blob)
              else table.committed in {old(table.committed), s1.atSwap, s1.atReread, s2.atSwap, s2.atReread}
    ensures r.Ok? && BlobVersion(rot.blob) == Ok(rot.toVersion) ==>
              table != null && MetSafeRow(e, was, rot, LastAttempt(true, e, was, rot, s1, s2))
    ensures r == Err(LockTimeout) ==> s1.swap.LockTimedOut? && s2.swap.LockTimedOut?
  {
    r := AttemptWriteBack(table, e, was, rot, s1);
    if r == Err(LockTimeout) {
      r := AttemptWriteBack(table, e, was, rot, s2);
    }
    if r.Ok? && BlobVersion(rot.blob) == Ok(rot.toVersion) {
      WriteBackPersistsSafely(table != null, e, was, rot, s1, s2);
    }
  }

  /** The read. Nothing is written when nothing needs rotating; under a key that
      is not known leaked the plaintext always comes back; under a leaked one only
      if the write-back met, or left, a safe row. What it leaves in the table is
      what the write-back leaves. */
  method DecryptRotating(cipher: Cipher, table: SubtypeTable?, e: Entity, blob: Blob, check: Time, rateCheck: Time,
                         entered: Time, startedAt: Time, handed: Handed, nonce: seq<byte>,
                         s1: Surroundings, s2: Surroundings)
    returns (r: Result<seq<byte>, ReadError>)
    requires |nonce| == NONCE_SIZE && WellFormed(cipher.keys)
    modifies cipher, HandedBuffers(handed), if table == null then {} else {table}
    ensures var d := Decrypted(cipher.g, old(cipher.Value()), cipher.hasStore, blob,
                               Call(check, rateCheck, Reload(entered, startedAt, old(AnswerOf(handed))), nonce)).1;
            match d
            case Err(c) => r == Err(CannotOpen(c)) && (table != null ==> table.committed == old(table.committed))
            case Ok((plaintext, rot)) =>
              if !rot.Needed() then r == Ok(plaintext) && (table != null ==> table.committed == old(table.committed))
              else
                var last := LastAttempt(table != null, e, blob, rot, s1, s2);
                && r == Adjudicate(WriteBackResult(table != null, e, blob, rot, s1, s2).Ok?, rot, plaintext)
                && (rot.mustPersist && r.Ok? ==> table != null && MetSafeRow(e, blob, rot, last))
                && (table != null ==>
                      if Lands(true, e, blob, last) then table.committed == Replaced(last.atSwap, e, rot.blob)
                      else table.committed in {old(table.committed), s1.atSwap, s1.atReread, s2.atSwap, s2.atReread})
  {
    ghost var before := cipher.Value();
    ghost var call := Call(check, rateCheck, Reload(entered, startedAt, AnswerOf(handed)), nonce);
    var decrypted := cipher.DecryptWithRotation(blob, check, rateCheck, entered, startedAt, handed, nonce);
    if decrypted.Err? {
      return Err(CannotOpen(decrypted.error));
    }
    var (plaintext, rot) := decrypted.value;
    if !rot.Needed() {
      return Ok(plaintext);
    }
    ReplacementIsUnderTarget(cipher.g, before, cipher.hasStore, blob, call);
    var persisted := WriteBack(table, e, blob, rot, s1, s2);
    if persisted.Ok? {
      return Ok(plaintext);
    } else if rot.mustPersist {
      return Err(Unpersisted(rot.fromVersion));
    }
    return Ok(plaintext);
  }

  lemma ReplacementIsUnderTarget(g: Aead, st: State, hasStore: bool, blob: Blob, call: Call)
    requires WellFormed(st.keys) && |call.nonce| == NONCE_SIZE
    ensures var r := Decrypted(g, st, hasStore, blob, call).1;
            r.Ok? && r.value.1.Needed() ==> BlobVersion(r.value.1.blob) == Ok(r.value.1.toVersion)
  {
    DecryptNeverFailsToReseal(g, st, hasStore, blob, call);
    var (st', r) := Decrypted(g, st, hasStore, blob, call);
    if r.Ok? {
      RotationCompletes(g, st'.keys, blob, call.check, call.check, call.nonce, call.nonce);
    }
  }
}
