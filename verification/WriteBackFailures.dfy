/** When a read away from a compromised key fails although nothing is wrong with
    the row: the exact conditions, and runs in which it happens. */
module WriteBackFailures {
  import opened Wrappers
  import opened Aead
  import opened Blobs
  import opened KeySets
  import opened KeyTables
  import opened TaxIds
  import opened WriteBack
  import opened WriteBackRuns

  // ------------------------------------------------------------------ exact conditions

  /** A re-read fails the read exactly when the row is gone, or holds something
      under a version other than the target. It does so whatever that version is,
      while the row decrypts to its current value all along. */
  lemma RereadFailsExactlyWhen(g: Aead, s: State, r: Tid, s': State)
    requires Inv(g, s) && |s.tables| > 0 && r in s.readers && s.readers[r].Rotating? && s.readers[r].job.rot.mustPersist
    requires Step(g, s, Verify(r), s')
    ensures var job := s.readers[r].job;
            var row := RowOf(s, job.e);
            && r in s'.readers
            && (s'.readers[r] == Finished(job.e, job.asOf, Some(job), Err(Unpersisted(job.rot.fromVersion)))
                <==> row.None? || (Content(row.value) != [] && BlobVersion(Content(row.value)) != Ok(job.rot.toVersion)))
            && (row.Some? ==> Plain(g, Now(s), Content(row.value)) == Some(LastOf(s.log, job.e)))
  {
    hide TablesInv, WriterInv, ReaderInv, SnapshotWithin, BlobVersion, VerifyStale, Plain;
    var job := s.readers[r].job;
    VerifiedIsSafe(RowOf(s, job.e), job.rot.toVersion);
    if job.e in s.cols {
      StoredReads(g, s, job.e);
    }
  }

  lemma StoredReads(g: Aead, s: State, e: Entity)
    requires Inv(g, s) && |s.tables| > 0 && e in s.cols
    ensures Plain(g, Now(s), Content(s.cols[e])) == Some(LastOf(s.log, e))
  {
    hide TablesInv, TableInv, WriterInv, ReaderInv, SnapshotWithin, Plain;
    assert GoodBlob(g, Now(s), Content(s.cols[e]), LastOf(s.log, e));
  }

  /** A commit that lands ends the read in an error exactly when it is reported as
      failed and the key is compromised; after a swap the row is then safe all the
      same. */
  lemma LandedCommitFailsExactlyWhen(g: Aead, s: State, r: Tid, reported: bool, s': State)
    requires Inv(g, s) && |s.tables| > 0 && r in s.readers && s.readers[r].Rotating? && Step(g, s, CommitRead(r, reported), s')
    ensures var job := s.readers[r].job;
            && r in s'.readers && s'.readers[r].Finished?
            && (s'.readers[r].result == Err(Unpersisted(job.rot.fromVersion)) <==> !reported && job.rot.mustPersist)
            && (s'.readers[r].result == Ok(job.plaintext) <==> reported || !job.rot.mustPersist)
            && (s.readers[r].phase.Swapped? ==> SafeUnder(RowOf(s', job.e), job.rot.toVersion))
  {
    hide TablesInv, WriterInv, GoodBlob, SnapshotWithin, BlobVersion;
    assert ReaderInv(g, Now(s), s.log, s.cols, s.locks, r, s.readers[r]);
  }

  // ------------------------------------------------------------------ reachable states

  ghost predicate Reachable(g: Aead, s: State) {
    exists run :: IsRun(g, run) && run.states[|run.labels|] == s
  }

  lemma ReachableInv(g: Aead, s: State)
    requires Reachable(g, s)
    ensures |s.tables| > 0 && Inv(g, s)
  {
    hide Inv, StepAt, Initial;
    var run :| IsRun(g, run) && run.states[|run.labels|] == s;
    RunInv(g, run, |run.labels|);
  }

  lemma StartedAt(g: Aead, s: State)
    requires Initial(s)
    ensures Reachable(g, s)
  {
    hide Initial;
    var run := Run([s], []);
    assert IsRun(g, run) && run.states[|run.labels|] == s;
  }

  lemma Reached(g: Aead, s: State, l: Label, s': State)
    requires Reachable(g, s) && |s.tables| > 0 && Step(g, s, l, s')
    ensures Reachable(g, s') && |s'.tables| > 0
  {
    hide Step, Initial, Inv;
    var run :| IsRun(g, run) && run.states[|run.labels|] == s;
    var run' := Run(run.states + [s'], run.labels + [l]);
    forall i | 0 <= i < |run'.labels| ensures StepAt(g, run', i) {
      if i < |run.labels| {
        assert StepAt(g, run, i);
      }
    }
    assert IsRun(g, run') && run'.states[|run'.labels|] == s';
    ReachableInv(g, s');
  }

  /** A whole set or creation with nothing in the way. */
  lemma WriteThrough(g: Aead, s: State, w: Tid, p: Pid, e: Entity, create: bool, plaintext: seq<byte>, nonce: seq<byte>)
    returns (s': State)
    requires Reachable(g, s) && w !in s.writers && e !in s.locks && (create <==> e !in s.cols)
    requires p in s.procs && plaintext != [] && |nonce| == NONCE_SIZE
    ensures Reachable(g, s') && Seal(g, s.procs[p], nonce, plaintext).Ok?
    ensures s' == s.(writers := s.writers[w := Ended], log := s.log + [Entry(e, plaintext)],
                     cols := s.cols[e := Bytes(Seal(g, s.procs[p], nonce, plaintext).value)])
  {
    hide Reachable, Inv, Seal, IsRun;
    ReachableInv(g, s);
    ProcSeals(g, s, p, nonce, plaintext);
    var blob := Seal(g, s.procs[p], nonce, plaintext).value;
    var change := SetTo(plaintext);
    var s1 := SetWriter(s, w, Composing(p, e, create, change));
    var s2 := SetWriter(s, w, Ready(e, create, change, Some(blob)));
    Reached(g, s, StartWrite(w, p, e, create, change), s1);
    Reached(g, s1, Compose(w, nonce), s2);
    s' := WriteLands(g, s2, w, e, create, change, blob);
  }

  lemma WriteLands(g: Aead, s: State, w: Tid, e: Entity, create: bool, change: Change, blob: Blob) returns (s': State)
    requires Reachable(g, s) && |s.tables| > 0 && change.SetTo? && e !in s.locks && (create <==> e !in s.cols)
    requires w in s.writers && s.writers[w] == Ready(e, create, change, Some(blob))
    ensures Reachable(g, s')
    ensures s' == s.(writers := s.writers[w := Ended], log := s.log + [Entry(e, change.plaintext)],
                     cols := s.cols[e := Bytes(blob)])
  {
    hide Reachable, Inv, IsRun;
    var holding := Writer.Holding(e, create, change, Bytes(blob));
    var s1 := Locked(SetWriter(s, w, holding), e, ByWriter(w));
    s' := s.(writers := s.writers[w := Ended], log := s.log + [Entry(e, change.plaintext)], cols := s.cols[e := Bytes(blob)]);
    assert Updated(s, s.writers[w]) == holding;
    Reached(g, s, Update(w), s1);
    assert s1.locks - {e} == s.locks;
    Reached(g, s1, CommitWrite(w), s');
  }

  lemma ProcSeals(g: Aead, s: State, p: Pid, nonce: seq<byte>, plaintext: seq<byte>)
    requires |s.tables| > 0 && Inv(g, s) && p in s.procs && |nonce| == NONCE_SIZE
    ensures WellFormed(s.procs[p]) && Seal(g, s.procs[p], nonce, plaintext).Ok?
  {
    hide TablesInv, WriterInv, ReaderInv, GoodBlob, Seal;
    assert SnapshotWithin(s.procs[p], Now(s));
    SealedIsGood(g, Now(s), s.procs[p], nonce, plaintext);
  }

  lemma RotateThrough(g: Aead, s: State, op: Op, t: Table) returns (s': State)
    requires Reachable(g, s) && |s.tables| > 0 && TableStep(Now(s), op, t)
    ensures Reachable(g, s') && s' == s.(tables := s.tables + [t])
  {
    hide Reachable, TableStep;
    s' := s.(tables := s.tables + [t]);
    Reached(g, s, ChangeTable(op), s');
  }

  lemma RefreshThrough(g: Aead, s: State, p: Pid, i: nat) returns (s': State)
    requires Reachable(g, s) && i < |s.tables|
    ensures TableInv(s.tables[i]) && s.tables[i] != map[]
    ensures Reachable(g, s') && s' == s.(procs := s.procs[p := SnapshotOf(s.tables[i], 0, 0)])
  {
    hide Reachable, TableInv, Later, WriterInv, ReaderInv, GoodBlob, SnapshotWithin, SnapshotOf;
    ReachableInv(g, s);
    assert TableInv(s.tables[i]) && s.tables[i] != map[];
    s' := s.(procs := s.procs[p := SnapshotOf(s.tables[i], 0, 0)]);
    Reached(g, s, Refresh(p, i, 0, 0), s');
  }

  // ------------------------------------------------------------------ a key table with two rotations behind it

  /** Key 1 was retired as compromised, key 2 in an ordinary rotation. */
  function FirstTable(k1: seq<byte>): (t: Table) { map[1 := FreshRow(k1)] }

  function SecondTable(k1: seq<byte>, k2: seq<byte>): (t: Table) {
    map[1 := Row(k1, Some(0), None, Some(0)), 2 := FreshRow(k2)]
  }

  function ThirdTable(k1: seq<byte>, k2: seq<byte>, k3: seq<byte>): (t: Table) {
    map[1 := Row(k1, Some(0), None, Some(0)), 2 := Row(k2, Some(0), None, None), 3 := FreshRow(k3)]
  }

  predicate ThreeKeys(k1: seq<byte>, k2: seq<byte>, k3: seq<byte>) {
    IsKeyMaterial(k1) && IsKeyMaterial(k2) && IsKeyMaterial(k3) && k1 != k2 && k1 != k3 && k2 != k3
  }

  lemma FirstStep(k1: seq<byte>)
    requires IsKeyMaterial(k1)
    ensures TableInv(FirstTable(k1)) && FirstTable(k1) != map[]
  {
    StepKeepsInv(map[], Init(1, k1), FirstTable(k1));
  }

  lemma SecondStep(k1: seq<byte>, k2: seq<byte>)
    requires IsKeyMaterial(k1) && IsKeyMaterial(k2) && k1 != k2
    ensures TableStep(FirstTable(k1), Rotate(2, k2, None, true, 0), SecondTable(k1, k2))
  {
    hide IsKeyMaterial;
    var t, op := FirstTable(k1), Rotate(2, k2, None, true, 0);
    assert 1 in t;
    assert Applies(t, op);
    assert Apply(t, op) == SecondTable(k1, k2);
  }

  lemma ThirdStep(k1: seq<byte>, k2: seq<byte>, k3: seq<byte>)
    requires ThreeKeys(k1, k2, k3)
    ensures TableStep(SecondTable(k1, k2), Rotate(3, k3, None, false, 0), ThirdTable(k1, k2, k3))
  {
    hide IsKeyMaterial;
    var t, op := SecondTable(k1, k2), Rotate(3, k3, None, false, 0);
    assert 1 in t;
    assert Applies(t, op);
    assert Apply(t, op) == ThirdTable(k1, k2, k3);
  }

  lemma TableSteps(k1: seq<byte>, k2: seq<byte>, k3: seq<byte>)
    requires ThreeKeys(k1, k2, k3)
    ensures TableInv(FirstTable(k1)) && FirstTable(k1) != map[]
    ensures TableStep(FirstTable(k1), Rotate(2, k2, None, true, 0), SecondTable(k1, k2))
    ensures TableStep(SecondTable(k1, k2), Rotate(3, k3, None, false, 0), ThirdTable(k1, k2, k3))
  {
    hide TableInv, TableStep, IsKeyMaterial, FirstTable, SecondTable, ThirdTable;
    FirstStep(k1);
    SecondStep(k1, k2);
    ThirdStep(k1, k2, k3);
  }

  /** What a load of a table installs while no row of it has a deadline. */
  lemma SnapshotWithoutDeadlines(t: Table, a: uint32)
    requires TableInv(t) && a in t && IsActive(t[a]) && forall v | v in t :: t[v].decryptableUntil.None?
    ensures t != map[] && SnapshotOf(t, 0, 0) == KeySet(a, map v | v in t :: EntryOf(RecordOf(v, t[v])), 0)
  {
    OnlyOneActive(t, a);
    hide TableInv;
  }

  lemma SnapshotActives(k1: seq<byte>, k2: seq<byte>, k3: seq<byte>)
    requires TableInv(FirstTable(k1)) && TableInv(SecondTable(k1, k2)) && TableInv(ThirdTable(k1, k2, k3))
    requires FirstTable(k1) != map[] && SecondTable(k1, k2) != map[] && ThirdTable(k1, k2, k3) != map[]
    ensures SnapshotOf(FirstTable(k1), 0, 0) == KeySet(1, map[1 := KeyEntry(k1, None, None)], 0)
    ensures SnapshotOf(SecondTable(k1, k2), 0, 0) == SnapshotHeldBy(OLD_PROC, k1, k2, k3)
    ensures SnapshotOf(ThirdTable(k1, k2, k3), 0, 0) == SnapshotHeldBy(NEW_PROC, k1, k2, k3)
  {
    hide TableInv, SnapshotOf;
    SnapshotWithoutDeadlines(FirstTable(k1), 1);
    SnapshotWithoutDeadlines(SecondTable(k1, k2), 2);
    SnapshotWithoutDeadlines(ThirdTable(k1, k2, k3), 3);
  }

  const OLD_PROC: Pid := 1
  const NEW_PROC: Pid := 2
  const ROW: Entity := 0

  function SnapshotHeldBy(p: Pid, k1: seq<byte>, k2: seq<byte>, k3: seq<byte>): (keys: KeySet)
    requires p == OLD_PROC || p == NEW_PROC
  {
    if p == OLD_PROC then KeySet(2, map[1 := KeyEntry(k1, None, Some(0)), 2 := KeyEntry(k2, None, None)], 0)
    else KeySet(3, map[1 := KeyEntry(k1, None, Some(0)), 2 := KeyEntry(k2, None, None), 3 := KeyEntry(k3, None, None)], 0)
  }

  /** Both rotations are done, one process holds the snapshot from between them and
      one the latest, and a value is still stored under the compromised key. */
  ghost predicate IsScene(g: Aead, s: State, k1: seq<byte>, k2: seq<byte>, k3: seq<byte>, x: seq<byte>, nonce: seq<byte>) {
    && s.tables == [FirstTable(k1), SecondTable(k1, k2), ThirdTable(k1, k2, k3)]
    && (forall p | p == OLD_PROC || p == NEW_PROC :: p in s.procs && s.procs[p] == SnapshotHeldBy(p, k1, k2, k3))
    && s.cols == map[ROW := Bytes(SealUnder(g, 1, k1, nonce, x))]
    && s.locks == map[] && s.writers == map[0 := Ended] && s.readers == map[] && |s.log| == 1
  }

  lemma Scene(g: Aead, k1: seq<byte>, k2: seq<byte>, k3: seq<byte>, x: seq<byte>, nonce: seq<byte>) returns (s: State)
    requires ThreeKeys(k1, k2, k3) && x != [] && |nonce| == NONCE_SIZE
    ensures Reachable(g, s) && IsScene(g, s, k1, k2, k3, x, nonce)
  {
    hide Reachable, TableInv, TableStep, SnapshotOf, FirstTable, SecondTable, ThirdTable;
    TableSteps(k1, k2, k3);
    var t1, t2, t3 := FirstTable(k1), SecondTable(k1, k2), ThirdTable(k1, k2, k3);
    StepKeepsInv(t1, Rotate(2, k2, None, true, 0), t2);
    StepKeepsInv(t2, Rotate(3, k3, None, false, 0), t3);
    SnapshotActives(k1, k2, k3);
    var s0 := State([t1], map[], map[], map[], map[], map[], []);
    StartedAt(g, s0);
    var s1 := RefreshThrough(g, s0, 0, 0);
    var s2 := WriteThrough(g, s1, 0, 0, ROW, true, x, nonce);
    var s3 := RotateThrough(g, s2, Rotate(2, k2, None, true, 0), t2);
    var s4 := RefreshThrough(g, s3, OLD_PROC, 1);
    var s5 := RotateThrough(g, s4, Rotate(3, k3, None, false, 0), t3);
    s := RefreshThrough(g, s5, NEW_PROC, 2);
    assert s.tables == [t1, t2, t3];
  }

  /** A process with a later snapshot opens the value and owes a rotation away from
      the compromised key. */
  lemma OwesRotation(g: Aead, p: Pid, k1: seq<byte>, k2: seq<byte>, k3: seq<byte>, x: seq<byte>, nonce: seq<byte>)
    returns (rot: Rotation)
    requires ThreeKeys(k1, k2, k3) && |nonce| == NONCE_SIZE && (p == OLD_PROC || p == NEW_PROC)
    ensures var keys := SnapshotHeldBy(p, k1, k2, k3);
            DecryptIn(g, keys, SealUnder(g, 1, k1, nonce, x), 0, nonce) == Ok((x, rot))
    ensures rot.Needed() && rot.mustPersist && rot.fromVersion == 1 && rot.toVersion == SnapshotHeldBy(p, k1, k2, k3).active
    ensures BlobVersion(rot.blob) == Ok(rot.toVersion)
  {
    var keys := SnapshotHeldBy(p, k1, k2, k3);
    SealedOpens(g, 1, k1, nonce, x);
    SealedOpens(g, keys.active, keys.byVersion[keys.active].key, nonce, x);
    rot := Rotation(1, keys.active, SealUnder(g, keys.active, keys.byVersion[keys.active].key, nonce, x), true);
  }

  /** The process fetches the row and opens it. */
  lemma ReadStarts(g: Aead, s: State, p: Pid, k1: seq<byte>, k2: seq<byte>, k3: seq<byte>, x: seq<byte>, nonce: seq<byte>)
    returns (s': State, job: ReadJob)
    requires ThreeKeys(k1, k2, k3) && |nonce| == NONCE_SIZE && (p == OLD_PROC || p == NEW_PROC)
    requires Reachable(g, s) && IsScene(g, s, k1, k2, k3, x, nonce)
    ensures Reachable(g, s') && s' == s.(readers := map[0 := Rotating(job, 1, Started)])
    ensures job.e == ROW && job.blob == SealUnder(g, 1, k1, nonce, x) && job.rot.mustPersist
    ensures job.rot.fromVersion == 1 && job.rot.toVersion == SnapshotHeldBy(p, k1, k2, k3).active
    ensures BlobVersion(job.rot.blob) == Ok(job.rot.toVersion)
  {
    hide Reachable, SealUnder, DecryptIn, BlobVersion, ThirdTable, SecondTable, FirstTable;
    var blob := SealUnder(g, 1, k1, nonce, x);
    var rot := OwesRotation(g, p, k1, k2, k3, x, nonce);
    job := ReadJob(ROW, blob, 1, x, rot);
    var s1 := s.(readers := map[0 := Fetched(p, ROW, blob, 1)]);
    s' := s.(readers := map[0 := Rotating(job, 1, Started)]);
    Reached(g, s, Fetch(0, p, ROW), s1);
    Reached(g, s1, OpenBlob(0, 0, nonce), s');
  }

  // ------------------------------------------------------------------ the runs

  /** A sound row is refused: in a reachable state the row holds a value some
      process has just written under a key that is not compromised, it decrypts to
      that value, and the re-read still fails the read. With `newer` the writer's
      snapshot is newer than the reader's and the row's version above the target;
      otherwise the writer's is staler and the version lies between the two. */
  lemma SoundRowRefused(g: Aead, k1: seq<byte>, k2: seq<byte>, k3: seq<byte>, x: seq<byte>, y: seq<byte>,
                        nonce: seq<byte>, newer: bool)
    returns (s: State, s': State, v: uint32)
    requires ThreeKeys(k1, k2, k3) && x != [] && y != [] && |nonce| == NONCE_SIZE
    ensures Reachable(g, s) && |s.tables| > 0 && Step(g, s, Verify(0), s')
    ensures 0 in s.readers && s.readers[0].Rotating? && 0 in s'.readers
    ensures var job := s.readers[0].job;
            && job.e in s.cols && s'.cols == s.cols && BlobVersion(Content(s.cols[job.e])) == Ok(v)
            && v in Now(s) && Now(s)[v].compromisedAt.None? && Plain(g, Now(s), Content(s.cols[job.e])) == Some(y)
            && (if newer then job.rot.fromVersion < job.rot.toVersion < v else job.rot.fromVersion < v < job.rot.toVersion)
            && s'.readers[0] == Finished(job.e, job.asOf, Some(job), Err(Unpersisted(job.rot.fromVersion)))
  {
    hide Reachable, Inv, SealUnder, ThirdTable, SecondTable, FirstTable, Plain, BlobVersion, Seal, Step;
    var reader, writer := if newer then OLD_PROC else NEW_PROC, if newer then NEW_PROC else OLD_PROC;
    var s0 := Scene(g, k1, k2, k3, x, nonce);
    var s1, job := ReadStarts(g, s0, reader, k1, k2, k3, x, nonce);
    var s2 := WriteThrough(g, s1, 1, writer, ROW, false, y, nonce);
    v := SnapshotHeldBy(writer, k1, k2, k3).active;
    WrittenVersions(g, writer, k1, k2, k3, x, y, nonce);
    s, s' := LosesAndFails(g, s2, job, v);
    LastTableRows(k1, k2, k3, v);
    ReachableInv(g, s);
    StoredReads(g, s, ROW);
    LastOfAppend(s1.log, Entry(ROW, y), ROW);
  }

  /** The swap misses the row, and the re-read finds it under another version. */
  lemma LosesAndFails(g: Aead, s0: State, job: ReadJob, v: uint32) returns (s: State, s': State)
    requires Reachable(g, s0) && |s0.tables| > 0 && s0.readers == map[0 := Rotating(job, 1, Started)]
    requires job.e in s0.cols && job.e !in s0.locks && s0.cols[job.e] != Bytes(job.blob) && job.rot.mustPersist
    requires Content(s0.cols[job.e]) != [] && BlobVersion(Content(s0.cols[job.e])) == Ok(v) && v != job.rot.toVersion
    ensures Reachable(g, s) && s == s0.(readers := map[0 := Rotating(job, 1, Lost)]) && Step(g, s, Verify(0), s')
    ensures s' == s.(readers := map[0 := Finished(job.e, job.asOf, Some(job), Err(Unpersisted(job.rot.fromVersion)))])
  {
    hide Reachable, BlobVersion;
    s := s0.(readers := map[0 := Rotating(job, 1, Lost)]);
    Reached(g, s0, Swap(0), s);
    VerifiedIsSafe(RowOf(s, job.e), job.rot.toVersion);
    s' := s.(readers := map[0 := Finish(job, false)]);
  }

  lemma WrittenVersions(g: Aead, p: Pid, k1: seq<byte>, k2: seq<byte>, k3: seq<byte>, x: seq<byte>, y: seq<byte>, nonce: seq<byte>)
    requires ThreeKeys(k1, k2, k3) && |nonce| == NONCE_SIZE && (p == OLD_PROC || p == NEW_PROC)
    ensures var keys := SnapshotHeldBy(p, k1, k2, k3);
            && Seal(g, keys, nonce, y).Ok? && Seal(g, keys, nonce, y).value != []
            && BlobVersion(Seal(g, keys, nonce, y).value) == Ok(keys.active)
            && Seal(g, keys, nonce, y).value != SealUnder(g, 1, k1, nonce, x)
  {
    var keys := SnapshotHeldBy(p, k1, k2, k3);
    SealedOpens(g, keys.active, keys.byVersion[keys.active].key, nonce, y);
    SealedOpens(g, 1, k1, nonce, x);
  }

  lemma LastTableRows(k1: seq<byte>, k2: seq<byte>, k3: seq<byte>, v: uint32)
    requires v == 2 || v == 3
    ensures v in ThirdTable(k1, k2, k3) && ThirdTable(k1, k2, k3)[v].compromisedAt.None?
  {
  }

  /** A commit that lands and is reported as failed: in a reachable state it leaves
      the row under the target version, and the read ends in the unpersisted error. */
  lemma UnreportedCommitFailsRead(g: Aead, k1: seq<byte>, k2: seq<byte>, k3: seq<byte>, x: seq<byte>, nonce: seq<byte>)
    returns (s: State, s': State)
    requires ThreeKeys(k1, k2, k3) && x != [] && |nonce| == NONCE_SIZE
    ensures Reachable(g, s) && |s.tables| > 0 && Step(g, s, CommitRead(0, false), s')
    ensures 0 in s.readers && s.readers[0].Rotating? && 0 in s'.readers
    ensures var job := s.readers[0].job;
            && s'.cols == map[job.e := Bytes(job.rot.blob)] && BlobVersion(job.rot.blob) == Ok(job.rot.toVersion)
            && s'.readers[0] == Finished(job.e, job.asOf, Some(job), Err(Unpersisted(job.rot.fromVersion)))
  {
    hide Reachable, Inv, SealUnder, ThirdTable, SecondTable, FirstTable, BlobVersion;
    var s0 := Scene(g, k1, k2, k3, x, nonce);
    var s1, job := ReadStarts(g, s0, NEW_PROC, k1, k2, k3, x, nonce);
    s := Locked(s1.(readers := map[0 := Rotating(job, 1, Swapped)]), ROW, ByReader(0));
    Reached(g, s1, Swap(0), s);
    s' := Released(s.(readers := map[0 := Finish(job, false)]), ROW).(cols := s.cols[ROW := Bytes(job.rot.blob)]);
    assert s'.cols == map[ROW := Bytes(job.rot.blob)];
  }
}
