/** The Cipher: a snapshot of the keys that a call may refresh first. A call's
    clock readings, what the store answered and the nonce it drew are inputs, so
    each call is a function of the state it starts in. */
module Ciphers {
  import opened Wrappers
  import opened Aead
  import opened Blobs
  import opened KeySets

  const KEY_SET_TTL: Time := 60_000_000_000
  const MIN_RELOAD_INTERVAL: Time := 5_000_000_000

  datatype State = State(keys: KeySet, lastLoadAttempt: Time)

  /** What the store answered; `cancelled` says the caller's context had ended. */
  datatype Answer = Rows(recs: seq<Record>) | LoadFailed(cancelled: bool)

  /** The clock at reload's entry, the clock when it may start its load, and the answer. */
  datatype Reload = Reload(entered: Time, startedAt: Time, answer: Answer)

  /** `check` is the first clock reading of the call, `rateCheck` the one the rate
      limit compares. */
  datatype Call = Call(check: Time, rateCheck: Time, reload: Reload, nonce: seq<byte>)

  datatype ReloadError = StoreError | BadRecords(e: BuildError)

  datatype CallError = ReloadFailed(r: ReloadError) | Refused(o: OpenError)

  function Reloaded(st: State, r: Reload): (p: (State, Result<Unit, ReloadError>)) {
    if st.keys.loadedAt > r.entered then (st, Ok(Unit))
    else
      match r.answer
      case LoadFailed(cancelled) =>
        (if cancelled then st else st.(lastLoadAttempt := r.startedAt), Err(StoreError))
      case Rows(recs) =>
        match Build(recs, r.startedAt)
        case Err(e) => (st.(lastLoadAttempt := r.startedAt), Err(BadRecords(e)))
        case Ok(keys) => (State(keys, r.startedAt), Ok(Unit))
  }

  predicate ReloadAllowed(st: State, now: Time) { now - st.lastLoadAttempt >= MIN_RELOAD_INTERVAL }

  predicate EncryptReloads(st: State, call: Call) {
    call.check - st.keys.loadedAt >= KEY_SET_TTL && ReloadAllowed(st, call.rateCheck)
  }

  /** encryptSet: refresh a snapshot past its TTL, and use whatever is held then. */
  function EncryptState(st: State, hasStore: bool, call: Call): (st': State) {
    if hasStore && EncryptReloads(st, call) then Reloaded(st, call.reload).0 else st
  }

  function Encrypted(g: Aead, st: State, hasStore: bool, plaintext: seq<byte>, call: Call)
    : (p: (State, Result<Blob, SealError>))
  {
    if plaintext == [] then (st, Ok([]))
    else
      var st' := EncryptState(st, hasStore, call);
      (st', Seal(g, st'.keys, call.nonce, plaintext))
  }

  predicate DecryptReloads(st: State, blob: Blob, call: Call) {
    && blob != [] && BlobVersion(blob).Ok?
    && Usable(st.keys, BlobVersion(blob).value, call.check).None?
    && ReloadAllowed(st, call.rateCheck)
  }

  /** openBlob's refresh: at most one, and only for a well-formed blob whose
      version is not usable. */
  function DecryptState(st: State, hasStore: bool, blob: Blob, call: Call): (p: (State, Result<Unit, ReloadError>)) {
    if hasStore && DecryptReloads(st, blob, call) then Reloaded(st, call.reload) else (st, Ok(Unit))
  }

  function Decrypted(g: Aead, st: State, hasStore: bool, blob: Blob, call: Call)
    : (p: (State, Result<(seq<byte>, Rotation), CallError>))
  {
    var (st', reload) := DecryptState(st, hasStore, blob, call);
    if reload.Err? then (st', Err(ReloadFailed(reload.error)))
    else
      match DecryptIn(g, st'.keys, blob, call.check, call.nonce)
      case Err(e) => (st', Err(Refused(e)))
      case Ok(v) => (st', Ok(v))
  }

  // ------------------------------------------------------------------ what every call keeps

  /** A refresh installs only well-formed snapshots, and one that fails leaves the
      held snapshot alone. */
  lemma ReloadKeepsSnapshot(st: State, r: Reload)
    requires WellFormed(st.keys)
    ensures WellFormed(Reloaded(st, r).0.keys)
    ensures Reloaded(st, r).1.Err? ==> Reloaded(st, r).0.keys == st.keys
  {
    if r.answer.Rows? {
      BuildSucceedsExactlyWhen(r.answer.recs, r.startedAt);
    }
  }

  /** Whatever the store does, Encrypt always seals: a snapshot always holds its
      active key, so the missing-active branch is never taken; and the blob
      opens under the snapshot that sealed it. */
  lemma EncryptAlwaysSeals(g: Aead, st: State, hasStore: bool, plaintext: seq<byte>, call: Call, now: Time)
    requires WellFormed(st.keys) && |call.nonce| == NONCE_SIZE
    ensures var (st', r) := Encrypted(g, st, hasStore, plaintext, call);
            && WellFormed(st'.keys) && r.Ok?
            && (plaintext == [] ==> r == Ok([]) && st' == st)
            && (plaintext != [] ==>
                  && |r.value| == MIN_BLOB_SIZE + |plaintext|
                  && BlobVersion(r.value) == Ok(st'.keys.active)
                  && DecryptIn(g, st'.keys, r.value, now, call.nonce) == Ok((plaintext, NO_ROTATION)))
  {
    ReloadKeepsSnapshot(st, call.reload);
    var st' := EncryptState(st, hasStore, call);
    SealedOpens(g, st'.keys.active, st'.keys.byVersion[st'.keys.active].key, call.nonce, plaintext);
  }

  /** Decrypting keeps the snapshot well formed and fails only by refusing the
      blob: the replacement can always be sealed. */
  lemma DecryptNeverFailsToReseal(g: Aead, st: State, hasStore: bool, blob: Blob, call: Call)
    requires WellFormed(st.keys)
    ensures WellFormed(Decrypted(g, st, hasStore, blob, call).0.keys)
    ensures Decrypted(g, st, hasStore, blob, call).1 != Err(Refused(CannotReseal))
  {
    ReloadKeepsSnapshot(st, call.reload);
  }

  /** What a refresh that a call has decided on comes to. A snapshot whose load began
      after the refresh entered stands; a failed load keeps the snapshot and uses up
      the attempt, unless the caller's context had ended; a good one installs what it
      listed, as of when the load began. */
  ghost predicate RefreshedAs(st: State, r: Reload, st': State, outcome: Result<Unit, ReloadError>) {
    if st.keys.loadedAt > r.entered then st' == st && outcome == Ok(Unit)
    else
      match r.answer
      case LoadFailed(cancelled) =>
        && outcome == Err(StoreError) && st'.keys == st.keys
        && st'.lastLoadAttempt == (if cancelled then st.lastLoadAttempt else r.startedAt)
      case Rows(recs) =>
        && st'.lastLoadAttempt == r.startedAt
        && (Acceptable(recs) ==>
              outcome == Ok(Unit) && HoldsExactly(st'.keys, recs) && st'.keys.loadedAt == r.startedAt)
        && (!Acceptable(recs) ==> outcome.Err? && outcome.error.BadRecords? && st'.keys == st.keys)
  }

  lemma ReloadRefreshes(st: State, r: Reload)
    ensures RefreshedAs(st, r, Reloaded(st, r).0, Reloaded(st, r).1)
  {
    if r.answer.Rows? {
      BuildSucceedsExactlyWhen(r.answer.recs, r.startedAt);
    }
  }

  /** A well-formed blob whose version the snapshot does not hold, or no longer
      honours, is fetched for exactly when there is a store and the last load is 5 s
      ago: the call then opens it under the refreshed snapshot, and fails when the
      refresh does. Otherwise the version is refused and nothing changes. */
  lemma UnknownVersionIsFetched(g: Aead, st: State, hasStore: bool, blob: Blob, call: Call)
    requires blob != [] && BlobVersion(blob).Ok?
    requires var v := BlobVersion(blob).value;
             v in st.keys.byVersion ==>
               var until := st.keys.byVersion[v].decryptableUntil;
               until.Some? && until.value <= call.check
    ensures var (st', r) := Decrypted(g, st, hasStore, blob, call);
            if hasStore && call.rateCheck - st.lastLoadAttempt >= 5_000_000_000 then
              exists outcome ::
                && RefreshedAs(st, call.reload, st', outcome)
                && (outcome.Err? ==> r == Err(ReloadFailed(outcome.error)))
                && (outcome.Ok? && OpenIn(g, st'.keys, blob, call.check).Err? ==>
                      r == Err(Refused(OpenIn(g, st'.keys, blob, call.check).error)))
                && (outcome.Ok? && OpenIn(g, st'.keys, blob, call.check).Ok? && WellFormed(st'.keys) ==>
                      r.Ok? && r.value.0 == OpenIn(g, st'.keys, blob, call.check).value.plaintext)
            else
              st' == st && (r == Err(Refused(ExpiredVersion)) || r == Err(Refused(UnknownVersion)))
  {
    if hasStore && call.rateCheck - st.lastLoadAttempt >= 5_000_000_000 {
      ReloadRefreshes(st, call.reload);
      assert RefreshedAs(st, call.reload, Reloaded(st, call.reload).0, Reloaded(st, call.reload).1);
    }
  }

  /** Encrypt refreshes exactly a snapshot that is 60 s old, when there is a store
      and the last load is 5 s ago; it seals under what it then holds. */
  lemma StaleSnapshotIsRefreshed(g: Aead, st: State, hasStore: bool, plaintext: seq<byte>, call: Call)
    requires plaintext != [] && |call.nonce| == NONCE_SIZE
    ensures var (st', r) := Encrypted(g, st, hasStore, plaintext, call);
            && (if && hasStore && call.check - st.keys.loadedAt >= 60_000_000_000
                   && call.rateCheck - st.lastLoadAttempt >= 5_000_000_000
                then exists outcome :: RefreshedAs(st, call.reload, st', outcome)
                else st' == st)
            && (WellFormed(st'.keys) ==>
                  && r.Ok? && BlobVersion(r.value) == Ok(st'.keys.active)
                  && OpenUnder(g, st'.keys.byVersion[st'.keys.active].key, r.value) == Some(plaintext))
  {
    ReloadRefreshes(st, call.reload);
    var st' := Encrypted(g, st, hasStore, plaintext, call).0;
    if WellFormed(st'.keys) {
      SealedOpens(g, st'.keys.active, st'.keys.byVersion[st'.keys.active].key, call.nonce, plaintext);
    }
  }

  /** A malformed blob, an empty one and one whose version is usable cost no
      load; neither does anything on a cipher without a store. */
  lemma NoLoadWithoutNeed(g: Aead, st: State, hasStore: bool, blob: Blob, call: Call)
    requires || blob == [] || BlobVersion(blob).Err? || !hasStore
             || Usable(st.keys, BlobVersion(blob).value, call.check).Some?
    ensures Decrypted(g, st, hasStore, blob, call).0 == st
    ensures blob != [] && BlobVersion(blob).Err? ==>
              Decrypted(g, st, hasStore, blob, call).1 == Err(Refused(Malformed(BlobVersion(blob).error)))
  {
  }

  /** A cipher built from one raw key never owes a rotation and never changes. */
  lemma StaticCipherNeverRotates(g: Aead, key: seq<byte>, loadedAt: Time, blob: Blob, call: Call)
    requires Build([Record(1, key, None, None, None)], loadedAt).Ok?
    ensures var st := State(Build([Record(1, key, None, None, None)], loadedAt).value, 0);
            var (st', r) := Decrypted(g, st, false, blob, call);
            st' == st && (r.Ok? ==> r.value.1 == NO_ROTATION)
  {
    var recs := [Record(1, key, None, None, None)];
    BuildSucceedsExactlyWhen(recs, loadedAt);
    var keys := Build(recs, loadedAt).value;
    forall v | v in keys.byVersion ensures v == keys.active {
      var i :| 0 <= i < |recs| && recs[i].version == v;
    }
    var r := Decrypted(g, State(keys, 0), false, blob, call).1;
    if r.Ok? && r.value.1.Needed() {
      RotationVersions(g, keys, blob, call.check, call.nonce);
    }
  }

  // ------------------------------------------------------------------ the object

  /** A store's answer as it is handed over: the key material sits in buffers
      nobody else holds. */
  datatype Handed = Records(records: seq<KeyRecord>) | Failure(cancelled: bool)

  function HandedBuffers(h: Handed): (s: set<array<byte>>) {
    if h.Records? then Buffers(h.records) else {}
  }

  function AnswerOf(h: Handed): (a: Answer)
    reads HandedBuffers(h)
  {
    if h.Records? then Rows(Views(h.records)) else LoadFailed(h.cancelled)
  }

  class Cipher {
    const g: Aead
    const hasStore: bool
    var keys: KeySet
    var lastLoadAttempt: Time

    function Value(): (st: State)
      reads this
    {
      State(keys, lastLoadAttempt)
    }

    constructor (g: Aead, hasStore: bool, keys: KeySet, startedAt: Time)
      ensures this.g == g && this.hasStore == hasStore && Value() == State(keys, startedAt)
    {
      this.g, this.hasStore := g, hasStore;
      this.keys, this.lastLoadAttempt := keys, startedAt;
    }

    /** Charges the attempt before the load, gives it back if the context had
        ended, wipes what the store handed out, and swaps the new set in. */
    method TryReload(entered: Time, startedAt: Time, handed: Handed) returns (r: Result<Unit, ReloadError>)
      modifies this, HandedBuffers(handed)
      ensures (Value(), r) == Reloaded(old(Value()), Reload(entered, startedAt, old(AnswerOf(handed))))
      ensures old(Value()).keys.loadedAt <= entered ==> forall b | b in HandedBuffers(handed) :: Zeroed(b)
    {
      if keys.loadedAt > entered {
        return Ok(Unit);
      }
      var previousAttempt := lastLoadAttempt;
      lastLoadAttempt := startedAt;
      match handed {
        case Failure(cancelled) =>
          if cancelled {
            lastLoadAttempt := previousAttempt;
          }
          return Err(StoreError);
        case Records(records) =>
          var built := AdoptRecords(records, startedAt);
          if built.Err? {
            return Err(BadRecords(built.error));
          }
          keys := built.value;
          return Ok(Unit);
      }
    }

    method Encrypt(plaintext: seq<byte>, check: Time, rateCheck: Time, entered: Time, startedAt: Time,
                   handed: Handed, nonce: seq<byte>)
      returns (r: Result<Blob, SealError>)
      requires |nonce| == NONCE_SIZE
      modifies this, HandedBuffers(handed)
      ensures (Value(), r) == Encrypted(g, old(Value()), hasStore, plaintext,
                                        Call(check, rateCheck, Reload(entered, startedAt, old(AnswerOf(handed))), nonce))
    {
      if plaintext == [] {
        return Ok([]);
      }
      var stale := check - keys.loadedAt >= KEY_SET_TTL;
      if hasStore && stale && rateCheck - lastLoadAttempt >= MIN_RELOAD_INTERVAL {
        // A failed refresh is tolerated: the existing snapshot is used.
        var _ := TryReload(entered, startedAt, handed);
      }
      r := SealBlob(g, keys, nonce, plaintext);
    }

    method DecryptWithRotation(blob: Blob, check: Time, rateCheck: Time, entered: Time, startedAt: Time,
                               handed: Handed, nonce: seq<byte>)
      returns (r: Result<(seq<byte>, Rotation), CallError>)
      requires |nonce| == NONCE_SIZE
      modifies this, HandedBuffers(handed)
      ensures (Value(), r) == Decrypted(g, old(Value()), hasStore, blob,
                                        Call(check, rateCheck, Reload(entered, startedAt, old(AnswerOf(handed))), nonce))
    {
      if blob == [] {
        return Ok(([], NO_ROTATION));
      }
      var decoded := BlobVersion(blob);
      if decoded.Err? {
        return Err(Refused(Malformed(decoded.error)));
      }
      var version := decoded.value;
      var entry := Usable(keys, version, check);
      if entry.None? && hasStore && rateCheck - lastLoadAttempt >= MIN_RELOAD_INTERVAL {
        var reload := TryReload(entered, startedAt, handed);
        if reload.Err? {
          return Err(ReloadFailed(reload.error));
        }
        entry := Usable(keys, version, check);
      }
      if entry.None? {
        return Err(Refused(UnusableVersion(keys, version)));
      }
      var plaintext := OpenUnder(g, entry.value.key, blob);
      if plaintext.None? {
        return Err(Refused(Unauthentic));
      }
      if version == keys.active {
        return Ok((plaintext.value, NO_ROTATION));
      }
      var replacement := SealBlob(g, keys, nonce, plaintext.value);
      if replacement.Err? {
        return Err(Refused(CannotReseal));
      }
      return Ok((plaintext.value, Rotation(version, keys.active, replacement.value, entry.value.compromisedAt.Some?)));
    }
  }
}
