/** Re-encrypt-on-read among ordinary writers, clears and key rotations, for any
    number of processes and any interleaving. A process decrypts under whatever
    snapshot it holds, however stale; a write-back is a transaction of its own
    that swaps the replacement in only over the exact blob that was read; row
    locks make competing statements wait; any transaction may fail or roll back
    at any point, a commit may land and still be reported as failed, and a lock
    timeout is retried once. */
module WriteBack {
  import opened Wrappers
  import opened Aead
  import opened Blobs
  import opened KeyTables
  import opened TaxIds

  type Entity = int
  type Pid = nat
  type Tid = nat

  /** One committed set, clear or creation. */
  datatype Entry = Entry(e: Entity, plaintext: seq<byte>)

  datatype Writer =
    | Composing(p: Pid, e: Entity, create: bool, change: Change)
    | Ready(e: Entity, create: bool, change: Change, param: Option<Blob>)
    | Holding(e: Entity, create: bool, change: Change, col: Column)
    | Ended

  /** A read whose blob needs rotating. `asOf` is how many ordinary changes had
      committed when the blob was fetched. */
  datatype ReadJob = ReadJob(e: Entity, blob: Blob, asOf: nat, plaintext: seq<byte>, rot: Rotation)

  datatype Phase = Started | Swapped | Lost | Verified

  datatype Reader =
    | Fetched(p: Pid, e: Entity, blob: Blob, asOf: nat)
    | Rotating(job: ReadJob, attempt: nat, phase: Phase)
    | Finished(e: Entity, asOf: nat, rotated: Option<ReadJob>, result: Result<seq<byte>, ReadError>)

  datatype Holder = ByWriter(w: Tid) | ByReader(r: Tid)

  /** `tables` is the history of the key table, the committed one last; `cols` the
      committed column by entity; `log` the history of committed changes. */
  datatype State = State(
    tables: seq<Table>, cols: map<Entity, Column>, locks: map<Entity, Holder>,
    procs: map<Pid, KeySet>, writers: map<Tid, Writer>, readers: map<Tid, Reader>, log: seq<Entry>)

  function Now(s: State): (t: Table)
    requires |s.tables| > 0
  {
    s.tables[|s.tables| - 1]
  }

  function RowOf(s: State, e: Entity): (row: Option<Column>) {
    if e in s.cols then Some(s.cols[e]) else None
  }

  /** The value last set for `e`; empty when it was cleared or never set. */
  function LastOf(log: seq<Entry>, e: Entity): (plaintext: seq<byte>) {
    if log == [] then []
    else if log[|log| - 1].e == e then log[|log| - 1].plaintext
    else LastOf(log[..|log| - 1], e)
  }

  /** What a stored blob decrypts to under the full key table. */
  function Plain(g: Aead, t: Table, blob: Blob): (r: Option<seq<byte>>) {
    if blob == [] then Some([])
    else
      match BlobVersion(blob)
      case Err(_) => None
      case Ok(version) => if version in t then OpenUnder(g, t[version].key, blob) else None
  }

  // ------------------------------------------------------------------ steps

  datatype Label =
    | ChangeTable(op: Op)
    | Refresh(p: Pid, i: nat, now: Time, loadedAt: Time)
    | StartWrite(w: Tid, p: Pid, e: Entity, create: bool, change: Change)
    | Compose(w: Tid, nonce: seq<byte>)
    | Update(w: Tid)
    | CommitWrite(w: Tid)
    | AbortWrite(w: Tid)
    | Fetch(r: Tid, p: Pid, e: Entity)
    | OpenBlob(r: Tid, now: Time, nonce: seq<byte>)
    | FailRefresh(r: Tid, error: Ciphers.ReloadError)
    | Swap(r: Tid)
    | Verify(r: Tid)
    | CommitRead(r: Tid, reported: bool)
    | FailAttempt(r: Tid, lockTimeout: bool)

  /** Encrypting under the snapshot the process holds. */
  function Composed(g: Aead, keys: KeySet, wr: Writer, nonce: seq<byte>): (wr': Writer)
    requires wr.Composing?
  {
    match wr.change
    case Keep => Ready(wr.e, wr.create, wr.change, None)
    case Clear => Ready(wr.e, wr.create, wr.change, Some([]))
    case SetTo(plaintext) =>
      match Seal(g, keys, nonce, plaintext)
      case Err(_) => Ended
      case Ok(blob) => Ready(wr.e, wr.create, wr.change, Some(blob))
  }

  /** The INSERT or UPDATE, once the row is free: an insert needs a new row, an
      update an existing one. */
  function Updated(s: State, wr: Writer): (wr': Writer)
    requires wr.Ready?
  {
    if wr.create then
      if wr.e in s.cols then Ended else Holding(wr.e, true, wr.change, Coalesce(wr.param, Null))
    else
      if wr.e in s.cols then Holding(wr.e, false, wr.change, Coalesce(wr.param, s.cols[wr.e])) else Ended
  }

  function Logged(wr: Writer): (entries: seq<Entry>)
    requires wr.Holding?
  {
    if wr.create || !wr.change.Keep? then [Entry(wr.e, NewValue(wr.change))] else []
  }

  function OpenedReader(g: Aead, keys: KeySet, rd: Reader, now: Time, nonce: seq<byte>): (rd': Reader)
    requires rd.Fetched?
  {
    match DecryptIn(g, keys, rd.blob, now, nonce)
    case Err(e) => Finished(rd.e, rd.asOf, None, Err(CannotOpen(Ciphers.Refused(e))))
    case Ok((plaintext, rot)) =>
      if !rot.Needed() then Finished(rd.e, rd.asOf, None, Ok(plaintext))
      else Rotating(ReadJob(rd.e, rd.blob, rd.asOf, plaintext, rot), 1, Started)
  }

  /** The refresh that the read's blob needed failed. */
  function RefusedReader(rd: Reader, error: Ciphers.ReloadError): (rd': Reader)
    requires rd.Fetched?
  {
    Finished(rd.e, rd.asOf, None, Err(CannotOpen(Ciphers.ReloadFailed(error))))
  }

  function Finish(job: ReadJob, persisted: bool): (rd: Reader) {
    Finished(job.e, job.asOf, Some(job), Adjudicate(persisted, job.rot, job.plaintext))
  }

  function SwapResult(s: State, rd: Reader): (rd': Reader)
    requires rd.Rotating?
  {
    if SwapMatches(RowOf(s, rd.job.e), rd.job.blob) then rd.(phase := Swapped)
    else if rd.job.rot.mustPersist then rd.(phase := Lost)
    else Finish(rd.job, false)
  }

  function VerifyResult(s: State, rd: Reader): (rd': Reader)
    requires rd.Rotating?
  {
    if VerifyStale(RowOf(s, rd.job.e), rd.job.rot.toVersion).Ok? then rd.(phase := Verified)
    else Finish(rd.job, false)
  }

  function FailResult(rd: Reader, lockTimeout: bool): (rd': Reader)
    requires rd.Rotating?
  {
    if lockTimeout && rd.attempt == 1 then Rotating(rd.job, 2, Started) else Finish(rd.job, false)
  }

  function SetWriter(s: State, w: Tid, wr: Writer): (s': State) { s.(writers := s.writers[w := wr]) }

  function SetReader(s: State, r: Tid, rd: Reader): (s': State) { s.(readers := s.readers[r := rd]) }

  function Locked(s: State, e: Entity, h: Holder): (s': State) { s.(locks := s.locks[e := h]) }

  function Released(s: State, e: Entity): (s': State) { s.(locks := s.locks - {e}) }

  ghost predicate Step(g: Aead, s: State, l: Label, s': State)
    requires |s.tables| > 0
  {
    match l
    case ChangeTable(op) =>
      exists t :: TableStep(Now(s), op, t) && s' == s.(tables := s.tables + [t])
    case Refresh(p, i, now, loadedAt) =>
      && i < |s.tables| && TableInv(s.tables[i]) && s.tables[i] != map[]
      && s' == s.(procs := s.procs[p := SnapshotOf(s.tables[i], now, loadedAt)])
    case StartWrite(w, p, e, create, change) =>
      && w !in s.writers && ValidChange(change) && !(create && change.Clear?)
      && s' == SetWriter(s, w, Composing(p, e, create, change))
    case Compose(w, nonce) =>
      && w in s.writers && s.writers[w].Composing? && s.writers[w].p in s.procs && |nonce| == NONCE_SIZE
      && s' == SetWriter(s, w, Composed(g, s.procs[s.writers[w].p], s.writers[w], nonce))
    case Update(w) =>
      && w in s.writers && s.writers[w].Ready? && s.writers[w].e !in s.locks
      && var wr := Updated(s, s.writers[w]);
         s' == if wr.Holding? then Locked(SetWriter(s, w, wr), wr.e, ByWriter(w)) else SetWriter(s, w, wr)
    case CommitWrite(w) =>
      && w in s.writers && s.writers[w].Holding?
      && var wr := s.writers[w];
         s' == Released(SetWriter(s, w, Ended), wr.e).(cols := s.cols[wr.e := wr.col], log := s.log + Logged(wr))
    case AbortWrite(w) =>
      && w in s.writers && !s.writers[w].Ended?
      && s' == if s.writers[w].Holding? then Released(SetWriter(s, w, Ended), s.writers[w].e) else SetWriter(s, w, Ended)
    case Fetch(r, p, e) =>
      && r !in s.readers && e in s.cols
      && s' == SetReader(s, r, Fetched(p, e, Content(s.cols[e]), |s.log|))
    case OpenBlob(r, now, nonce) =>
      && r in s.readers && s.readers[r].Fetched? && s.readers[r].p in s.procs && |nonce| == NONCE_SIZE
      && s' == SetReader(s, r, OpenedReader(g, s.procs[s.readers[r].p], s.readers[r], now, nonce))
    case FailRefresh(r, error) =>
      && r in s.readers && s.readers[r].Fetched?
      && s' == SetReader(s, r, RefusedReader(s.readers[r], error))
    case Swap(r) =>
      && r in s.readers && s.readers[r].Rotating? && s.readers[r].phase.Started? && s.readers[r].job.e !in s.locks
      && var rd := SwapResult(s, s.readers[r]);
         s' == if rd.Rotating? && rd.phase.Swapped? then Locked(SetReader(s, r, rd), rd.job.e, ByReader(r))
               else SetReader(s, r, rd)
    case Verify(r) =>
      && r in s.readers && s.readers[r].Rotating? && s.readers[r].phase.Lost?
      && s' == SetReader(s, r, VerifyResult(s, s.readers[r]))
    case CommitRead(r, reported) =>
      && r in s.readers && s.readers[r].Rotating?
      && var rd := s.readers[r];
         if rd.phase.Swapped? then
           s' == Released(SetReader(s, r, Finish(rd.job, reported)), rd.job.e).(
                   cols := s.cols[rd.job.e := Bytes(rd.job.rot.blob)])
         else rd.phase.Verified? && s' == SetReader(s, r, Finish(rd.job, reported))
    case FailAttempt(r, lockTimeout) =>
      && r in s.readers && s.readers[r].Rotating?
      && var rd := s.readers[r];
         var s1 := SetReader(s, r, FailResult(rd, lockTimeout));
         s' == if rd.phase.Swapped? then Released(s1, rd.job.e) else s1
  }

  // ------------------------------------------------------------------ the invariant

  /** The blob decrypts to `plaintext` under the table, and is not from the future. */
  ghost predicate GoodBlob(g: Aead, t: Table, blob: Blob, plaintext: seq<byte>) {
    && TableInv(t) && t != map[]
    && Plain(g, t, blob) == Some(plaintext)
    && (blob != [] ==> BlobVersion(blob).value <= ActiveVersion(t))
  }

  ghost predicate WriterInv(g: Aead, t: Table, cols: map<Entity, Column>, locks: map<Entity, Holder>, w: Tid, wr: Writer) {
    match wr
    case Composing(_, _, create, change) => ValidChange(change) && !(create && change.Clear?)
    case Ready(_, create, change, param) =>
      && !(create && change.Clear?)
      && (match change
          case Keep => param.None?
          case Clear => param == Some([])
          case SetTo(plaintext) => param.Some? && GoodBlob(g, t, param.value, plaintext))
    case Holding(e, create, change, col) =>
      && e in locks && locks[e] == ByWriter(w) && (create <==> e !in cols)
      && (if change.Keep? && !create then col == cols[e] else GoodBlob(g, t, Content(col), NewValue(change)))
    case Ended => true
  }

  ghost predicate JobInv(g: Aead, t: Table, log: seq<Entry>, job: ReadJob) {
    && job.asOf <= |log| && job.plaintext == LastOf(log[..job.asOf], job.e)
    && job.rot.Needed() && job.blob != []
    && GoodBlob(g, t, job.blob, job.plaintext) && GoodBlob(g, t, job.rot.blob, job.plaintext)
    && BlobVersion(job.blob) == Ok(job.rot.fromVersion) && BlobVersion(job.rot.blob) == Ok(job.rot.toVersion)
    && job.rot.fromVersion < job.rot.toVersion
  }

  ghost predicate ReaderInv(g: Aead, t: Table, log: seq<Entry>, cols: map<Entity, Column>, locks: map<Entity, Holder>,
                            r: Tid, rd: Reader)
  {
    match rd
    case Fetched(_, e, blob, asOf) => asOf <= |log| && GoodBlob(g, t, blob, LastOf(log[..asOf], e))
    case Rotating(job, attempt, phase) =>
      && 1 <= attempt <= 2 && JobInv(g, t, log, job)
      && (phase.Swapped? ==>
            && job.e in locks && locks[job.e] == ByReader(r)
            && job.e in cols && cols[job.e] == Bytes(job.blob))
    case Finished(e, asOf, rotated, result) =>
      && asOf <= |log| && (result.Ok? ==> result.value == LastOf(log[..asOf], e))
      && (rotated.Some? ==>
            && JobInv(g, t, log, rotated.value)
            && (!rotated.value.rot.mustPersist ==> result == Ok(rotated.value.plaintext)))
  }

  ghost predicate Inv(g: Aead, s: State) {
    && |s.tables| > 0 && TablesInv(s.tables)
    && (forall p | p in s.procs :: SnapshotWithin(s.procs[p], Now(s)))
    && (forall e | e in s.cols :: GoodBlob(g, Now(s), Content(s.cols[e]), LastOf(s.log, e)))
    && (forall w | w in s.writers :: WriterInv(g, Now(s), s.cols, s.locks, w, s.writers[w]))
    && (forall r | r in s.readers :: ReaderInv(g, Now(s), s.log, s.cols, s.locks, r, s.readers[r]))
  }

  /** Any bootstrapped key table, nothing stored yet, nobody running. */
  ghost predicate Initial(s: State) {
    && |s.tables| == 1 && TableInv(s.tables[0]) && s.tables[0] != map[]
    && s.cols == map[] && s.locks == map[] && s.procs == map[] && s.writers == map[] && s.readers == map[] && s.log == []
  }

  lemma InitialInv(g: Aead, s: State)
    requires Initial(s)
    ensures Inv(g, s)
  {
    hide TableInv;
    LaterReflexive(s.tables[0]);
  }

  // ------------------------------------------------------------------ blobs keep their meaning

  lemma GoodBlobLater(g: Aead, t: Table, t': Table, blob: Blob, plaintext: seq<byte>)
    requires GoodBlob(g, t, blob, plaintext) && TableInv(t') && Later(t, t')
    ensures GoodBlob(g, t', blob, plaintext)
  {
    LaterActive(t, t');
    hide TableInv;
  }

  lemma GoodBlobReadsOneWay(g: Aead, t: Table, blob: Blob, plaintext: seq<byte>, other: seq<byte>)
    requires GoodBlob(g, t, blob, plaintext) && GoodBlob(g, t, blob, other)
    ensures plaintext == other
  {
    hide TableInv;
  }

  lemma SealedIsGood(g: Aead, t: Table, keys: KeySet, nonce: seq<byte>, plaintext: seq<byte>)
    requires SnapshotWithin(keys, t) && |nonce| == NONCE_SIZE
    ensures Seal(g, keys, nonce, plaintext).Ok?
    ensures GoodBlob(g, t, Seal(g, keys, nonce, plaintext).value, plaintext)
    ensures BlobVersion(Seal(g, keys, nonce, plaintext).value) == Ok(keys.active)
  {
    hide TableInv;
    SealedOpens(g, keys.active, keys.byVersion[keys.active].key, nonce, plaintext);
  }

  lemma OpenedIsGood(g: Aead, t: Table, keys: KeySet, blob: Blob, now: Time, plaintext: seq<byte>)
    requires SnapshotWithin(keys, t) && OpenIn(g, keys, blob, now).Ok? && GoodBlob(g, t, blob, plaintext)
    ensures OpenIn(g, keys, blob, now).value.plaintext == plaintext
  {
    hide TableInv, WellFormed;
  }

  /** A blob that reads as `plaintext` under the table, opened under any earlier
      snapshot of it, owes a rotation that reads the same and points forward. */
  lemma RotationIsGood(g: Aead, t: Table, keys: KeySet, blob: Blob, now: Time, nonce: seq<byte>, plaintext: seq<byte>)
    requires SnapshotWithin(keys, t) && GoodBlob(g, t, blob, plaintext) && |nonce| == NONCE_SIZE
    requires DecryptIn(g, keys, blob, now, nonce).Ok?
    ensures var (text, rot) := DecryptIn(g, keys, blob, now, nonce).value;
            && text == plaintext
            && (rot.Needed() ==>
                  && blob != [] && GoodBlob(g, t, rot.blob, plaintext)
                  && BlobVersion(blob) == Ok(rot.fromVersion) && BlobVersion(rot.blob) == Ok(rot.toVersion)
                  && rot.fromVersion < rot.toVersion)
  {
    OpenedIsGood(g, t, keys, blob, now, plaintext);
    SealedIsGood(g, t, keys, nonce, plaintext);
    if DecryptIn(g, keys, blob, now, nonce).value.1.Needed() {
      RotationPointsForward(g, keys, t, blob, now, nonce);
      RotationVersions(g, keys, blob, now, nonce);
    }
    hide TableInv, WellFormed, GoodBlob, Seal, OpenUnder, BlobVersion;
  }

  // ------------------------------------------------------------------ what one step leaves alone

  lemma JobInvLater(g: Aead, t: Table, t': Table, log: seq<Entry>, job: ReadJob)
    requires JobInv(g, t, log, job) && TableInv(t') && Later(t, t')
    ensures JobInv(g, t', log, job)
  {
    hide GoodBlob;
    GoodBlobLater(g, t, t', job.blob, job.plaintext);
    GoodBlobLater(g, t, t', job.rot.blob, job.plaintext);
  }

  lemma JobInvLonger(g: Aead, t: Table, log: seq<Entry>, log': seq<Entry>, job: ReadJob)
    requires JobInv(g, t, log, job) && log <= log'
    ensures JobInv(g, t, log', job)
  {
    hide GoodBlob;
    assert log'[..job.asOf] == log[..job.asOf];
  }

  lemma WriterInvLater(g: Aead, t: Table, t': Table, cols: map<Entity, Column>, locks: map<Entity, Holder>, w: Tid, wr: Writer)
    requires WriterInv(g, t, cols, locks, w, wr) && TableInv(t') && Later(t, t')
    ensures WriterInv(g, t', cols, locks, w, wr)
  {
    hide GoodBlob;
    if wr.Ready? && wr.change.SetTo? {
      GoodBlobLater(g, t, t', wr.param.value, wr.change.plaintext);
    } else if wr.Holding? && !(wr.change.Keep? && !wr.create) {
      GoodBlobLater(g, t, t', Content(wr.col), NewValue(wr.change));
    }
  }

  lemma ReaderInvLater(g: Aead, t: Table, t': Table, log: seq<Entry>, cols: map<Entity, Column>,
                       locks: map<Entity, Holder>, r: Tid, rd: Reader)
    requires ReaderInv(g, t, log, cols, locks, r, rd) && TableInv(t') && Later(t, t')
    ensures ReaderInv(g, t', log, cols, locks, r, rd)
  {
    hide GoodBlob, JobInv;
    match rd
    case Fetched(_, e, blob, asOf) => GoodBlobLater(g, t, t', blob, LastOf(log[..asOf], e));
    case Rotating(job, _, _) => JobInvLater(g, t, t', log, job);
    case Finished(_, _, rotated, _) =>
      if rotated.Some? {
        JobInvLater(g, t, t', log, rotated.value);
      }
  }

  /** The rows `h` has locked, and their locks, are the same in both states. */
  ghost predicate Untouched(cols: map<Entity, Column>, locks: map<Entity, Holder>,
                            cols': map<Entity, Column>, locks': map<Entity, Holder>, h: Holder)
  {
    forall e | e in locks && locks[e] == h ::
      && e in locks' && locks'[e] == h && (e in cols <==> e in cols') && (e in cols ==> cols'[e] == cols[e])
  }

  lemma WriterInvFramed(g: Aead, t: Table, cols: map<Entity, Column>, locks: map<Entity, Holder>,
                        cols': map<Entity, Column>, locks': map<Entity, Holder>, w: Tid, wr: Writer)
    requires WriterInv(g, t, cols, locks, w, wr) && Untouched(cols, locks, cols', locks', ByWriter(w))
    ensures WriterInv(g, t, cols', locks', w, wr)
  {
    hide GoodBlob;
  }

  lemma ReaderInvFramed(g: Aead, t: Table, log: seq<Entry>, log': seq<Entry>,
                        cols: map<Entity, Column>, locks: map<Entity, Holder>,
                        cols': map<Entity, Column>, locks': map<Entity, Holder>, r: Tid, rd: Reader)
    requires ReaderInv(g, t, log, cols, locks, r, rd) && Untouched(cols, locks, cols', locks', ByReader(r)) && log <= log'
    ensures ReaderInv(g, t, log', cols', locks', r, rd)
  {
    hide GoodBlob, JobInv;
    match rd
    case Fetched(_, e, blob, asOf) => assert log'[..asOf] == log[..asOf];
    case Rotating(job, _, _) => JobInvLonger(g, t, log, log', job);
    case Finished(_, asOf, rotated, _) =>
      assert log'[..asOf] == log[..asOf];
      if rotated.Some? {
        JobInvLonger(g, t, log, log', rotated.value);
      }
  }

  lemma LastOfAppend(log: seq<Entry>, entry: Entry, e: Entity)
    ensures LastOf(log + [entry], e) == if entry.e == e then entry.plaintext else LastOf(log, e)
  {
    assert (log + [entry])[..|log|] == log;
  }

  // ------------------------------------------------------------------ every step keeps the invariant

  lemma ChangeTableKeepsInv(g: Aead, s: State, op: Op, s': State)
    requires Inv(g, s) && Step(g, s, ChangeTable(op), s')
    ensures Inv(g, s')
  {
    hide TablesInv, TableInv, Later, TableStep, WellFormed, SnapshotWithin, WriterInv, ReaderInv, GoodBlob;
    var t :| TableStep(Now(s), op, t) && s' == s.(tables := s.tables + [t]);
    ExtendTables(s.tables, op, t);
    assert Now(s') == t;
    forall p | p in s'.procs ensures SnapshotWithin(s'.procs[p], t) {
      SnapshotStaysWithin(s.procs[p], Now(s), t);
    }
    forall e | e in s'.cols ensures GoodBlob(g, t, Content(s'.cols[e]), LastOf(s'.log, e)) {
      GoodBlobLater(g, Now(s), t, Content(s.cols[e]), LastOf(s.log, e));
    }
    forall w | w in s'.writers ensures WriterInv(g, t, s'.cols, s'.locks, w, s'.writers[w]) {
      WriterInvLater(g, Now(s), t, s.cols, s.locks, w, s.writers[w]);
    }
    forall r | r in s'.readers ensures ReaderInv(g, t, s'.log, s'.cols, s'.locks, r, s'.readers[r]) {
      ReaderInvLater(g, Now(s), t, s.log, s.cols, s.locks, r, s.readers[r]);
    }
  }

  lemma LoadedSnapshotIsGood(s: State, i: nat, now: Time, loadedAt: Time)
    requires |s.tables| > 0 && TablesInv(s.tables) && i < |s.tables|
    ensures TableInv(s.tables[i]) && s.tables[i] != map[]
    ensures SnapshotWithin(SnapshotOf(s.tables[i], now, loadedAt), Now(s))
  {
    hide TableInv, Later, SnapshotWithin, SnapshotOf;
    SnapshotFitsLaterTable(s.tables[i], now, loadedAt, Now(s));
  }

  lemma RefreshKeepsInv(g: Aead, s: State, p: Pid, i: nat, now: Time, loadedAt: Time, s': State)
    requires Inv(g, s) && Step(g, s, Refresh(p, i, now, loadedAt), s')
    ensures Inv(g, s')
  {
    hide TablesInv, TableInv, SnapshotWithin, WriterInv, ReaderInv, GoodBlob, SnapshotOf;
    LoadedSnapshotIsGood(s, i, now, loadedAt);
  }

  /** A step that moves one writer, and with it at most the lock and the row it holds. */
  lemma WriterMoveKeepsInv(g: Aead, s: State, w: Tid, s': State)
    requires Inv(g, s) && w in s'.writers
    requires s' == s.(writers := s.writers[w := s'.writers[w]], locks := s'.locks, cols := s'.cols, log := s'.log)
    requires s.log <= s'.log
    requires WriterInv(g, Now(s), s'.cols, s'.locks, w, s'.writers[w])
    requires forall e | e in s'.cols :: GoodBlob(g, Now(s), Content(s'.cols[e]), LastOf(s'.log, e))
    requires forall h | h != ByWriter(w) :: Untouched(s.cols, s.locks, s'.cols, s'.locks, h)
    ensures Inv(g, s')
  {
    hide TablesInv, SnapshotWithin, WriterInv, ReaderInv, GoodBlob, Untouched;
    forall w' | w' in s'.writers ensures WriterInv(g, Now(s'), s'.cols, s'.locks, w', s'.writers[w']) {
      if w' != w {
        assert Untouched(s.cols, s.locks, s'.cols, s'.locks, ByWriter(w'));
        WriterInvFramed(g, Now(s), s.cols, s.locks, s'.cols, s'.locks, w', s.writers[w']);
      }
    }
    forall r | r in s'.readers ensures ReaderInv(g, Now(s'), s'.log, s'.cols, s'.locks, r, s'.readers[r]) {
      assert Untouched(s.cols, s.locks, s'.cols, s'.locks, ByReader(r));
      ReaderInvFramed(g, Now(s), s.log, s'.log, s.cols, s.locks, s'.cols, s'.locks, r, s.readers[r]);
    }
  }

  lemma ReaderMoveKeepsInv(g: Aead, s: State, r: Tid, s': State)
    requires Inv(g, s) && r in s'.readers
    requires s' == s.(readers := s.readers[r := s'.readers[r]], locks := s'.locks, cols := s'.cols)
    requires ReaderInv(g, Now(s), s.log, s'.cols, s'.locks, r, s'.readers[r])
    requires forall e | e in s'.cols :: GoodBlob(g, Now(s), Content(s'.cols[e]), LastOf(s.log, e))
    requires forall h | h != ByReader(r) :: Untouched(s.cols, s.locks, s'.cols, s'.locks, h)
    ensures Inv(g, s')
  {
    hide TablesInv, SnapshotWithin, WriterInv, ReaderInv, GoodBlob, Untouched;
    forall w | w in s'.writers ensures WriterInv(g, Now(s'), s'.cols, s'.locks, w, s'.writers[w]) {
      assert Untouched(s.cols, s.locks, s'.cols, s'.locks, ByWriter(w));
      WriterInvFramed(g, Now(s), s.cols, s.locks, s'.cols, s'.locks, w, s.writers[w]);
    }
    forall r' | r' in s'.readers ensures ReaderInv(g, Now(s'), s'.log, s'.cols, s'.locks, r', s'.readers[r']) {
      if r' != r {
        assert Untouched(s.cols, s.locks, s'.cols, s'.locks, ByReader(r'));
        ReaderInvFramed(g, Now(s), s.log, s.log, s.cols, s.locks, s'.cols, s'.locks, r', s.readers[r']);
      }
    }
  }

  /** `holder` locks, releases or writes at most the row `e`, under its own lock. */
  predicate TouchesOnly(s: State, s': State, e: Entity, holder: Holder) {
    || (s'.locks == s.locks && s'.cols == s.cols)
    || (e !in s.locks && s'.locks == s.locks[e := holder] && s'.cols == s.cols)
    || (&& e in s.locks && s.locks[e] == holder && s'.locks == s.locks - {e}
        && (s'.cols == s.cols || (e in s'.cols && s'.cols == s.cols[e := s'.cols[e]])))
  }

  lemma OthersUntouched(s: State, s': State, e: Entity, holder: Holder)
    requires TouchesOnly(s, s', e, holder)
    ensures forall h | h != holder :: Untouched(s.cols, s.locks, s'.cols, s'.locks, h)
  {
  }

  /** A read that ends, however it ends. */
  lemma FinishInv(g: Aead, t: Table, log: seq<Entry>, r: Tid, job: ReadJob, persisted: bool)
    requires JobInv(g, t, log, job)
    ensures Finish(job, persisted).Finished?
    ensures forall cols, locks :: ReaderInv(g, t, log, cols, locks, r, Finish(job, persisted))
  {
    hide GoodBlob, BlobVersion;
  }

  lemma StartWriteKeepsInv(g: Aead, s: State, w: Tid, p: Pid, e: Entity, create: bool, change: Change, s': State)
    requires Inv(g, s) && Step(g, s, StartWrite(w, p, e, create, change), s')
    ensures Inv(g, s')
  {
    hide TablesInv, SnapshotWithin, ReaderInv, GoodBlob;
    WriterMoveKeepsInv(g, s, w, s');
  }

  lemma ComposeKeepsInv(g: Aead, s: State, w: Tid, nonce: seq<byte>, s': State)
    requires Inv(g, s) && Step(g, s, Compose(w, nonce), s')
    ensures Inv(g, s')
  {
    hide TablesInv, SnapshotWithin, ReaderInv, GoodBlob, Seal;
    var wr := s.writers[w];
    assert WriterInv(g, Now(s), s.cols, s.locks, w, wr);
    if wr.change.SetTo? {
      SealedIsGood(g, Now(s), s.procs[wr.p], nonce, wr.change.plaintext);
    }
    WriterMoveKeepsInv(g, s, w, s');
  }

  lemma EmptyIsGood(g: Aead, s: State)
    requires |s.tables| > 0 && TablesInv(s.tables)
    ensures GoodBlob(g, Now(s), [], [])
  {
    hide TableInv, Later;
  }

  lemma UpdatedInv(g: Aead, s: State, w: Tid, wr: Writer, wr': Writer)
    requires |s.tables| > 0 && wr.Ready? && WriterInv(g, Now(s), s.cols, s.locks, w, wr) && GoodBlob(g, Now(s), [], [])
    requires wr' == Updated(s, wr)
    ensures wr'.Ended? || (wr'.Holding? && wr'.e == wr.e)
    ensures WriterInv(g, Now(s), s.cols, if wr'.Holding? then s.locks[wr.e := ByWriter(w)] else s.locks, w, wr')
  {
    hide GoodBlob;
  }

  lemma UpdateKeepsInv(g: Aead, s: State, w: Tid, s': State)
    requires Inv(g, s) && Step(g, s, Update(w), s')
    ensures Inv(g, s')
  {
    hide TablesInv, SnapshotWithin, WriterInv, ReaderInv, GoodBlob, Untouched, Updated;
    var wr := s.writers[w];
    assert WriterInv(g, Now(s), s.cols, s.locks, w, wr);
    EmptyIsGood(g, s);
    UpdatedInv(g, s, w, wr, Updated(s, wr));
    OthersUntouched(s, s', wr.e, ByWriter(w));
    WriterMoveKeepsInv(g, s, w, s');
  }

  lemma CommitWriteCols(g: Aead, s: State, w: Tid, s': State, e: Entity)
    requires Inv(g, s) && Step(g, s, CommitWrite(w), s') && e in s'.cols
    ensures GoodBlob(g, Now(s), Content(s'.cols[e]), LastOf(s'.log, e))
  {
    hide TablesInv, SnapshotWithin, ReaderInv, GoodBlob;
    var wr := s.writers[w];
    assert WriterInv(g, Now(s), s.cols, s.locks, w, wr);
    if Logged(wr) != [] {
      LastOfAppend(s.log, Entry(wr.e, NewValue(wr.change)), e);
    } else {
      assert s'.log == s.log;
    }
  }

  lemma CommitWriteKeepsInv(g: Aead, s: State, w: Tid, s': State)
    requires Inv(g, s) && Step(g, s, CommitWrite(w), s')
    ensures Inv(g, s')
  {
    hide TablesInv, SnapshotWithin, ReaderInv, GoodBlob, Untouched;
    var wr := s.writers[w];
    assert WriterInv(g, Now(s), s.cols, s.locks, w, wr);
    forall e | e in s'.cols ensures GoodBlob(g, Now(s), Content(s'.cols[e]), LastOf(s'.log, e)) {
      CommitWriteCols(g, s, w, s', e);
    }
    OthersUntouched(s, s', wr.e, ByWriter(w));
    WriterMoveKeepsInv(g, s, w, s');
  }

  lemma AbortWriteKeepsInv(g: Aead, s: State, w: Tid, s': State)
    requires Inv(g, s) && Step(g, s, AbortWrite(w), s')
    ensures Inv(g, s')
  {
    hide TablesInv, SnapshotWithin, ReaderInv, GoodBlob, Untouched;
    var wr := s.writers[w];
    assert WriterInv(g, Now(s), s.cols, s.locks, w, wr);
    OthersUntouched(s, s', wr.e, ByWriter(w));
    WriterMoveKeepsInv(g, s, w, s');
  }

  lemma FetchKeepsInv(g: Aead, s: State, r: Tid, p: Pid, e: Entity, s': State)
    requires Inv(g, s) && Step(g, s, Fetch(r, p, e), s')
    ensures Inv(g, s')
  {
    hide TablesInv, SnapshotWithin, WriterInv, GoodBlob;
    assert s.log[..|s.log|] == s.log;
    ReaderMoveKeepsInv(g, s, r, s');
  }

  lemma OpenKeepsInv(g: Aead, s: State, r: Tid, now: Time, nonce: seq<byte>, s': State)
    requires Inv(g, s) && Step(g, s, OpenBlob(r, now, nonce), s')
    ensures Inv(g, s')
  {
    hide TablesInv, SnapshotWithin, WriterInv, GoodBlob, DecryptIn, BlobVersion;
    var rd := s.readers[r];
    var keys := s.procs[rd.p];
    assert ReaderInv(g, Now(s), s.log, s.cols, s.locks, r, rd);
    if DecryptIn(g, keys, rd.blob, now, nonce).Ok? {
      RotationIsGood(g, Now(s), keys, rd.blob, now, nonce, LastOf(s.log[..rd.asOf], rd.e));
    }
    ReaderMoveKeepsInv(g, s, r, s');
  }

  lemma FailRefreshKeepsInv(g: Aead, s: State, r: Tid, error: Ciphers.ReloadError, s': State)
    requires Inv(g, s) && Step(g, s, FailRefresh(r, error), s')
    ensures Inv(g, s')
  {
    hide TablesInv, SnapshotWithin, WriterInv, GoodBlob;
    assert ReaderInv(g, Now(s), s.log, s.cols, s.locks, r, s.readers[r]);
    ReaderMoveKeepsInv(g, s, r, s');
  }

  function LocksAfterSwap(s: State, r: Tid, rd: Reader): (locks: map<Entity, Holder>)
    requires rd.Rotating?
  {
    var rd' := SwapResult(s, rd);
    if rd'.Rotating? && rd'.phase.Swapped? then s.locks[rd.job.e := ByReader(r)] else s.locks
  }

  lemma SwapResultInv(g: Aead, s: State, r: Tid, rd: Reader)
    requires |s.tables| > 0 && rd.Rotating? && rd.phase.Started? && ReaderInv(g, Now(s), s.log, s.cols, s.locks, r, rd)
    ensures ReaderInv(g, Now(s), s.log, s.cols, LocksAfterSwap(s, r, rd), r, SwapResult(s, rd))
    ensures SwapResult(s, rd).Rotating? ==> SwapResult(s, rd).job == rd.job
  {
    hide GoodBlob, BlobVersion, JobInv, Finish;
    FinishInv(g, Now(s), s.log, r, rd.job, false);
  }

  lemma SwapKeepsInv(g: Aead, s: State, r: Tid, s': State)
    requires Inv(g, s) && Step(g, s, Swap(r), s')
    ensures Inv(g, s')
  {
    hide TablesInv, SnapshotWithin, WriterInv, ReaderInv, GoodBlob, Untouched, SwapResult;
    var rd := s.readers[r];
    assert ReaderInv(g, Now(s), s.log, s.cols, s.locks, r, rd);
    SwapResultInv(g, s, r, rd);
    OthersUntouched(s, s', rd.job.e, ByReader(r));
    ReaderMoveKeepsInv(g, s, r, s');
  }

  lemma VerifyKeepsInv(g: Aead, s: State, r: Tid, s': State)
    requires Inv(g, s) && Step(g, s, Verify(r), s')
    ensures Inv(g, s')
  {
    hide TablesInv, SnapshotWithin, WriterInv, GoodBlob, BlobVersion, VerifyStale, JobInv, Finish, Untouched;
    var rd := s.readers[r];
    assert ReaderInv(g, Now(s), s.log, s.cols, s.locks, r, rd);
    FinishInv(g, Now(s), s.log, r, rd.job, false);
    OthersUntouched(s, s', rd.job.e, ByReader(r));
    ReaderMoveKeepsInv(g, s, r, s');
  }

  /** The row still holds the blob that was read, so the replacement reads as the
      row does now. */
  lemma SwappedRowReadsTheSame(g: Aead, s: State, job: ReadJob)
    requires Inv(g, s) && JobInv(g, Now(s), s.log, job) && job.e in s.cols && s.cols[job.e] == Bytes(job.blob)
    ensures GoodBlob(g, Now(s), job.rot.blob, LastOf(s.log, job.e))
  {
    hide TablesInv, SnapshotWithin, WriterInv, ReaderInv, GoodBlob, BlobVersion;
    assert GoodBlob(g, Now(s), Content(s.cols[job.e]), LastOf(s.log, job.e));
    GoodBlobReadsOneWay(g, Now(s), job.blob, job.plaintext, LastOf(s.log, job.e));
  }

  lemma CommitReadKeepsInv(g: Aead, s: State, r: Tid, reported: bool, s': State)
    requires Inv(g, s) && Step(g, s, CommitRead(r, reported), s')
    ensures Inv(g, s')
  {
    hide TablesInv, SnapshotWithin, WriterInv, GoodBlob, BlobVersion, JobInv, Finish, Untouched;
    var rd := s.readers[r];
    assert ReaderInv(g, Now(s), s.log, s.cols, s.locks, r, rd);
    FinishInv(g, Now(s), s.log, r, rd.job, reported);
    if rd.phase.Swapped? {
      SwappedRowReadsTheSame(g, s, rd.job);
    }
    OthersUntouched(s, s', rd.job.e, ByReader(r));
    ReaderMoveKeepsInv(g, s, r, s');
  }

  lemma FailAttemptKeepsInv(g: Aead, s: State, r: Tid, lockTimeout: bool, s': State)
    requires Inv(g, s) && Step(g, s, FailAttempt(r, lockTimeout), s')
    ensures Inv(g, s')
  {
    hide TablesInv, SnapshotWithin, WriterInv, GoodBlob, BlobVersion, JobInv, Finish, Untouched;
    var rd := s.readers[r];
    assert ReaderInv(g, Now(s), s.log, s.cols, s.locks, r, rd);
    FinishInv(g, Now(s), s.log, r, rd.job, false);
    OthersUntouched(s, s', rd.job.e, ByReader(r));
    ReaderMoveKeepsInv(g, s, r, s');
  }

  lemma StepKeepsInvariant(g: Aead, s: State, l: Label, s': State)
    requires Inv(g, s) && Step(g, s, l, s')
    ensures Inv(g, s')
  {
    hide Step;
    match l
    case ChangeTable(op) => hide Inv; ChangeTableKeepsInv(g, s, op, s');
    case Refresh(p, i, now, loadedAt) => hide Inv; RefreshKeepsInv(g, s, p, i, now, loadedAt, s');
    case StartWrite(w, p, e, create, change) => hide Inv; StartWriteKeepsInv(g, s, w, p, e, create, change, s');
    case Compose(w, nonce) => hide Inv; ComposeKeepsInv(g, s, w, nonce, s');
    case Update(w) => hide Inv; UpdateKeepsInv(g, s, w, s');
    case CommitWrite(w) => hide Inv; CommitWriteKeepsInv(g, s, w, s');
    case AbortWrite(w) => hide Inv; AbortWriteKeepsInv(g, s, w, s');
    case Fetch(r, p, e) => hide Inv; FetchKeepsInv(g, s, r, p, e, s');
    case OpenBlob(r, now, nonce) => hide Inv; OpenKeepsInv(g, s, r, now, nonce, s');
    case FailRefresh(r, error) => hide Inv; FailRefreshKeepsInv(g, s, r, error, s');
    case Swap(r) => hide Inv; SwapKeepsInv(g, s, r, s');
    case Verify(r) => hide Inv; VerifyKeepsInv(g, s, r, s');
    case CommitRead(r, reported) => hide Inv; CommitReadKeepsInv(g, s, r, reported, s');
    case FailAttempt(r, lockTimeout) => hide Inv; FailAttemptKeepsInv(g, s, r, lockTimeout, s');
  }
}
