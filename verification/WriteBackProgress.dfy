/** Rotation only moves forward: each write-back that lands raises the stored
    version, and how far the stored versions lag behind the active one bounds how
    many can still land. */
module WriteBackProgress {
  import opened Wrappers
  import opened Aead
  import opened Blobs
  import opened KeyTables
  import opened TaxIds
  import opened WriteBack
  import opened WriteBackRuns

  /** How many versions a stored blob lags behind `active`. */
  function Lag(active: uint32, col: Column): (n: nat) {
    if Content(col) == [] then 0
    else
      match BlobVersion(Content(col))
      case Err(_) => 0
      case Ok(version) => if version <= active then active - version else 0
  }

  ghost function TotalLag(cols: map<Entity, Column>, rows: set<Entity>, active: uint32): (n: nat)
    requires rows <= cols.Keys
    decreases rows
  {
    if rows == {} then 0
    else Lag(active, cols[Pick(rows)]) + TotalLag(cols, rows - {Pick(rows)}, active)
  }

  lemma {:induction false} TotalLagSplits(cols: map<Entity, Column>, rows: set<Entity>, active: uint32, e: Entity)
    requires rows <= cols.Keys && e in rows
    ensures TotalLag(cols, rows, active) == Lag(active, cols[e]) + TotalLag(cols, rows - {e}, active)
    decreases rows
  {
    hide Lag;
    var d := Pick(rows);
    if d != e {
      TotalLagSplits(cols, rows - {d}, active, e);
      TotalLagSplits(cols, rows - {e}, active, d);
      assert (rows - {d}) - {e} == (rows - {e}) - {d};
    }
  }

  lemma {:induction false} TotalLagAgrees(cols: map<Entity, Column>, cols': map<Entity, Column>, rows: set<Entity>, active: uint32)
    requires rows <= cols.Keys && rows <= cols'.Keys && forall e | e in rows :: cols'[e] == cols[e]
    ensures TotalLag(cols', rows, active) == TotalLag(cols, rows, active)
    decreases rows
  {
    hide Lag;
    if rows != {} {
      var d := Pick(rows);
      TotalLagSplits(cols', rows, active, d);
      TotalLagAgrees(cols, cols', rows - {d}, active);
    }
  }

  ghost function LagOf(s: State): (n: nat)
    requires |s.tables| > 0 && TableInv(Now(s)) && Now(s) != map[]
  {
    TotalLag(s.cols, s.cols.Keys, ActiveVersion(Now(s)))
  }

  lemma {:induction false} NoLagExactlyWhen(cols: map<Entity, Column>, rows: set<Entity>, active: uint32)
    requires rows <= cols.Keys
    ensures TotalLag(cols, rows, active) == 0 <==> forall e | e in rows :: Lag(active, cols[e]) == 0
    decreases rows
  {
    hide Lag;
    if rows != {} {
      var d := Pick(rows);
      NoLagExactlyWhen(cols, rows - {d}, active);
      assert forall e :: e in rows <==> e == d || e in rows - {d};
    }
  }

  /** The rotation is complete, every stored value being under the active key,
      exactly when no lag is left. */
  lemma NoLagMeansRotated(g: Aead, s: State)
    requires Inv(g, s)
    ensures |s.tables| > 0 && TableInv(Now(s)) && Now(s) != map[]
    ensures LagOf(s) == 0 <==>
              forall e | e in s.cols ::
                Content(s.cols[e]) == [] || BlobVersion(Content(s.cols[e])) == Ok(ActiveVersion(Now(s)))
  {
    hide TableInv, WriterInv, ReaderInv, TablesInv, SnapshotWithin, BlobVersion;
    TablesAreBootstrapped(g, s);
    NoLagExactlyWhen(s.cols, s.cols.Keys, ActiveVersion(Now(s)));
    forall e | e in s.cols
      ensures Lag(ActiveVersion(Now(s)), s.cols[e]) == 0 <==>
                Content(s.cols[e]) == [] || BlobVersion(Content(s.cols[e])) == Ok(ActiveVersion(Now(s)))
    {
      assert GoodBlob(g, Now(s), Content(s.cols[e]), LastOf(s.log, e));
    }
  }

  // ------------------------------------------------------------------ one step

  predicate LandsSwap(s: State, l: Label) {
    l.CommitRead? && l.r in s.readers && s.readers[l.r].Rotating? && s.readers[l.r].phase.Swapped?
  }

  /** No ordinary write commits and no new key becomes active. */
  predicate Quiet(l: Label) { !l.CommitWrite? && !(l.ChangeTable? && l.op.Rotate?) }

  lemma TablesAreBootstrapped(g: Aead, s: State)
    requires Inv(g, s)
    ensures |s.tables| > 0 && TableInv(Now(s)) && Now(s) != map[]
  {
    hide TableInv, Later, SnapshotWithin, GoodBlob, WriterInv, ReaderInv;
  }

  /** A write-back that lands replaces a blob by one under a strictly higher
      version, never above the active one, and leaves every other row alone. */
  lemma SwapRaisesVersion(g: Aead, s: State, l: Label, s': State) returns (e: Entity, before: uint32, after: uint32)
    requires Inv(g, s) && |s.tables| > 0 && Step(g, s, l, s') && LandsSwap(s, l)
    ensures e == s.readers[l.r].job.e && e in s.cols && e in s'.cols && s'.cols == s.cols[e := s'.cols[e]]
    ensures Content(s.cols[e]) != [] && BlobVersion(Content(s.cols[e])) == Ok(before)
    ensures Content(s'.cols[e]) != [] && BlobVersion(Content(s'.cols[e])) == Ok(after)
    ensures TableInv(Now(s)) && Now(s) != map[] && before < after <= ActiveVersion(Now(s))
  {
    hide TablesInv, TableInv, SnapshotWithin, WriterInv, BlobVersion, Plain;
    TablesAreBootstrapped(g, s);
    assert ReaderInv(g, Now(s), s.log, s.cols, s.locks, l.r, s.readers[l.r]);
    var job := s.readers[l.r].job;
    e, before, after := job.e, job.rot.fromVersion, job.rot.toVersion;
  }

  lemma FlagKeepsActive(t: Table, op: Op, t': Table)
    requires TableInv(t) && t != map[] && TableStep(t, op, t') && !op.Rotate?
    ensures TableInv(t') && t' != map[] && ActiveVersion(t') == ActiveVersion(t)
  {
    StepKeepsInv(t, op, t');
    OnlyOneActive(t', ActiveVersion(t));
  }

  lemma OnlyChangeTableMovesTables(g: Aead, s: State, l: Label, s': State)
    requires |s.tables| > 0 && Step(g, s, l, s') && !l.ChangeTable?
    ensures s'.tables == s.tables
  {
    hide TableInv, TableStep, Composed, Updated, SnapshotOf, OpenedReader, SwapResult, VerifyResult, FailResult, Finish,
         Logged, ValidChange, Content, BlobVersion, RowOf, LandsSwap;
    match l
    case Refresh(_, _, _, _) =>
    case StartWrite(_, _, _, _, _) =>
    case Update(_) =>
    case CommitWrite(_) =>
    case AbortWrite(_) =>
    case _ =>
  }

  lemma QuietChangeKeepsActive(g: Aead, s: State, op: Op, s': State)
    requires |s.tables| > 0 && TableInv(Now(s)) && Now(s) != map[] && Step(g, s, ChangeTable(op), s') && !op.Rotate?
    ensures |s'.tables| > 0 && TableInv(Now(s')) && Now(s') != map[] && ActiveVersion(Now(s')) == ActiveVersion(Now(s))
  {
    hide TableInv, TableStep;
    var t :| TableStep(Now(s), op, t) && s' == s.(tables := s.tables + [t]);
    FlagKeepsActive(Now(s), op, t);
    assert Now(s') == t;
  }

  lemma QuietStepKeepsActive(g: Aead, s: State, l: Label, s': State)
    requires Inv(g, s) && |s.tables| > 0 && Step(g, s, l, s') && Quiet(l)
    ensures TableInv(Now(s)) && Now(s) != map[]
    ensures |s'.tables| > 0 && TableInv(Now(s')) && Now(s') != map[]
    ensures ActiveVersion(Now(s')) == ActiveVersion(Now(s))
  {
    hide Inv, TableInv, Step;
    TablesAreBootstrapped(g, s);
    if l.ChangeTable? {
      QuietChangeKeepsActive(g, s, l.op, s');
    } else {
      OnlyChangeTableMovesTables(g, s, l, s');
    }
  }

  lemma QuietStepKeepsCols(g: Aead, s: State, l: Label, s': State)
    requires |s.tables| > 0 && Step(g, s, l, s') && Quiet(l) && !LandsSwap(s, l)
    ensures s'.cols == s.cols
  {
    hide TableInv, TableStep, Composed, Updated, SnapshotOf, OpenedReader, SwapResult, VerifyResult, FailResult, Finish,
         Logged, ValidChange;
  }

  lemma StepLowersLag(g: Aead, s: State, l: Label, s': State)
    requires Inv(g, s) && |s.tables| > 0 && Step(g, s, l, s') && Quiet(l)
    ensures TableInv(Now(s)) && Now(s) != map[]
    ensures |s'.tables| > 0 && TableInv(Now(s')) && Now(s') != map[]
    ensures LagOf(s') + (if LandsSwap(s, l) then 1 else 0) <= LagOf(s)
  {
    hide TableInv, Step, Inv;
    QuietStepKeepsActive(g, s, l, s');
    if LandsSwap(s, l) {
      hide LandsSwap, BlobVersion, TotalLag;
      var e, _, _ := SwapRaisesVersion(g, s, l, s');
      TotalLagSplits(s.cols, s.cols.Keys, ActiveVersion(Now(s)), e);
      TotalLagSplits(s'.cols, s'.cols.Keys, ActiveVersion(Now(s)), e);
      TotalLagAgrees(s.cols, s'.cols, s.cols.Keys - {e}, ActiveVersion(Now(s)));
      assert s'.cols.Keys == s.cols.Keys;
    } else {
      QuietStepKeepsCols(g, s, l, s');
    }
  }

  // ------------------------------------------------------------------ whole runs

  function Swaps(run: Run, i: nat, j: nat): (n: nat)
    requires i <= j <= |run.labels| < |run.states|
    decreases j - i
  {
    if i == j then 0
    else Swaps(run, i, j - 1) + if LandsSwap(run.states[j - 1], run.labels[j - 1]) then 1 else 0
  }

  /** Between ordinary writes and rotations at most as many write-backs land as
      the stored versions lag behind the active one in total, over all rows and
      all readers; every one that lands uses up at least one unit of it. */
  lemma {:induction false} SwapsBoundedByLag(g: Aead, run: Run, i: nat, j: nat)
    requires IsRun(g, run) && i <= j < |run.states|
    requires forall k | i <= k < j :: Quiet(run.labels[k])
    ensures |run.states[i].tables| > 0 && TableInv(Now(run.states[i])) && Now(run.states[i]) != map[]
    ensures |run.states[j].tables| > 0 && TableInv(Now(run.states[j])) && Now(run.states[j]) != map[]
    ensures Swaps(run, i, j) + LagOf(run.states[j]) <= LagOf(run.states[i])
    decreases j - i
  {
    hide TableInv, Inv, Step, Initial, LandsSwap, TotalLag;
    RunInv(g, run, i);
    TablesAreBootstrapped(g, run.states[i]);
    if i < j {
      hide LagOf;
      SwapsBoundedByLag(g, run, i, j - 1);
      RunInv(g, run, j - 1);
      assert StepAt(g, run, j - 1);
      assert Quiet(run.labels[j - 1]);
      StepLowersLag(g, run.states[j - 1], run.labels[j - 1], run.states[j]);
    }
  }

  // ------------------------------------------------------------------ when nothing is in the way

  /** With the row still as it was read, unlocked, and no failure, the write-back
      lands: the row is under the target version and the read returns its value. */
  lemma UnobstructedWriteBackLands(g: Aead, s: State, r: Tid) returns (s1: State, s2: State)
    requires |s.tables| > 0 && r in s.readers && s.readers[r].Rotating? && s.readers[r].phase.Started?
    requires s.readers[r].job.e !in s.locks && RowOf(s, s.readers[r].job.e) == Some(Bytes(s.readers[r].job.blob))
    ensures Step(g, s, Swap(r), s1) && |s1.tables| > 0 && Step(g, s1, CommitRead(r, true), s2)
    ensures var job := s.readers[r].job;
            && s2.cols == s.cols[job.e := Bytes(job.rot.blob)] && s2.locks == s.locks
            && s2.readers[r] == Finished(job.e, job.asOf, Some(job), Ok(job.plaintext))
  {
    var rd := s.readers[r];
    s1 := Locked(SetReader(s, r, rd.(phase := Swapped)), rd.job.e, ByReader(r));
    s2 := Released(SetReader(s1, r, Finish(rd.job, true)), rd.job.e).(cols := s1.cols[rd.job.e := Bytes(rd.job.rot.blob)]);
    assert s2.locks == s.locks;
  }

  /** With the row unlocked and no failure an ordinary write runs through: an absent
      field leaves the column (NULL in a new row), a clear stores the empty value, and
      a set a blob that reads as the value. */
  lemma UnobstructedWriteLands(g: Aead, s: State, w: Tid, nonce: seq<byte>) returns (s1: State, s2: State, s3: State)
    requires Inv(g, s) && |s.tables| > 0 && w in s.writers && s.writers[w].Composing? && |nonce| == NONCE_SIZE
    requires s.writers[w].p in s.procs && s.writers[w].e !in s.locks && (s.writers[w].create <==> s.writers[w].e !in s.cols)
    ensures Step(g, s, Compose(w, nonce), s1) && |s1.tables| > 0 && Step(g, s1, Update(w), s2)
    ensures |s2.tables| > 0 && Step(g, s2, CommitWrite(w), s3)
    ensures var wr := s.writers[w];
            && wr.e in s3.cols && s3.cols == s.cols[wr.e := s3.cols[wr.e]] && s3.locks == s.locks
            && (wr.change.Keep? ==> s3.cols[wr.e] == if wr.create then Null else s.cols[wr.e])
            && (wr.change.Clear? ==> s3.cols[wr.e] == Bytes([]))
            && (wr.change.SetTo? ==>
                  Content(s3.cols[wr.e]) != [] && Plain(g, Now(s), Content(s3.cols[wr.e])) == Some(wr.change.plaintext))
  {
    hide Inv, Seal, Step, SnapshotWithin;
    ComposerInv(g, s, w);
    var wr := s.writers[w];
    var param;
    s1, param := ComposeRuns(g, s, w, nonce);
    s2, s3 := ReadyWriteLands(g, s1, w, wr.e, wr.create, wr.change, param);
  }

  lemma ComposeRuns(g: Aead, s: State, w: Tid, nonce: seq<byte>) returns (s': State, param: Option<Blob>)
    requires |s.tables| > 0 && w in s.writers && s.writers[w].Composing? && |nonce| == NONCE_SIZE
    requires s.writers[w].p in s.procs && SnapshotWithin(s.procs[s.writers[w].p], Now(s))
    ensures Step(g, s, Compose(w, nonce), s')
    ensures var wr := s.writers[w];
            && s' == s.(writers := s.writers[w := Ready(wr.e, wr.create, wr.change, param)])
            && (wr.change.Keep? ==> param.None?) && (wr.change.Clear? ==> param == Some([]))
            && (wr.change.SetTo? ==>
                  param.Some? && param.value != [] && Plain(g, Now(s), param.value) == Some(wr.change.plaintext))
  {
    hide SnapshotWithin, Seal, Plain;
    var wr := s.writers[w];
    var keys := s.procs[wr.p];
    param := None;
    if wr.change.Clear? {
      param := Some([]);
    } else if wr.change.SetTo? {
      SealedReads(g, Now(s), keys, nonce, wr.change.plaintext);
      param := Some(Seal(g, keys, nonce, wr.change.plaintext).value);
    }
    s' := s.(writers := s.writers[w := Ready(wr.e, wr.create, wr.change, param)]);
    assert Composed(g, keys, wr, nonce) == s'.writers[w];
  }

  lemma ReadyWriteLands(g: Aead, s: State, w: Tid, e: Entity, create: bool, change: Change, param: Option<Blob>)
    returns (s1: State, s2: State)
    requires |s.tables| > 0 && w in s.writers && s.writers[w] == Ready(e, create, change, param)
    requires e !in s.locks && (create <==> e !in s.cols)
    ensures Step(g, s, Update(w), s1) && |s1.tables| > 0 && Step(g, s1, CommitWrite(w), s2) && s2.locks == s.locks
    ensures s2.cols == s.cols[e := if param.Some? then Bytes(param.value) else if create then Null else s.cols[e]]
  {
    var was := if create then Null else s.cols[e];
    var holding := Writer.Holding(e, create, change, if param.Some? then Bytes(param.value) else was);
    s1 := Locked(SetWriter(s, w, holding), e, ByWriter(w));
    assert Updated(s, s.writers[w]) == holding;
    s2 := Released(SetWriter(s1, w, Ended), e).(cols := s.cols[e := holding.col], log := s.log + Logged(holding));
    assert s2.locks == s.locks;
  }

  lemma ComposerInv(g: Aead, s: State, w: Tid)
    requires Inv(g, s) && |s.tables| > 0 && w in s.writers && s.writers[w].Composing? && s.writers[w].p in s.procs
    ensures SnapshotWithin(s.procs[s.writers[w].p], Now(s))
  {
    hide TablesInv, ReaderInv, WriterInv, GoodBlob, SnapshotWithin;
  }

  lemma SealedReads(g: Aead, t: Table, keys: KeySet, nonce: seq<byte>, plaintext: seq<byte>)
    requires SnapshotWithin(keys, t) && |nonce| == NONCE_SIZE
    ensures Seal(g, keys, nonce, plaintext).Ok? && Seal(g, keys, nonce, plaintext).value != []
    ensures Plain(g, t, Seal(g, keys, nonce, plaintext).value) == Some(plaintext)
  {
    SealedIsGood(g, t, keys, nonce, plaintext);
  }

  /** A swap lost to a writer or reader that left the row safe does not fail a
      read away from a compromised key: re-read and commit give its value. */
  lemma BenignLossStillReads(g: Aead, s: State, r: Tid) returns (s1: State, s2: State)
    requires |s.tables| > 0 && r in s.readers && s.readers[r].Rotating? && s.readers[r].phase.Lost?
    requires SafeUnder(RowOf(s, s.readers[r].job.e), s.readers[r].job.rot.toVersion)
    ensures Step(g, s, Verify(r), s1) && |s1.tables| > 0 && Step(g, s1, CommitRead(r, true), s2)
    ensures var job := s.readers[r].job;
            s2.cols == s.cols && s2.readers[r] == Finished(job.e, job.asOf, Some(job), Ok(job.plaintext))
  {
    var rd := s.readers[r];
    VerifiedIsSafe(RowOf(s, rd.job.e), rd.job.rot.toVersion);
    s1 := SetReader(s, r, rd.(phase := Verified));
    s2 := SetReader(s1, r, Finish(rd.job, true));
  }

  /** A writer may abort and an attempt may fail wherever it is, and then holds no
      lock and has written nothing. */
  lemma FailureStrikesAnywhere(g: Aead, s: State, w: Tid, r: Tid, lockTimeout: bool) returns (s1: State, s2: State)
    requires |s.tables| > 0 && w in s.writers && !s.writers[w].Ended? && r in s.readers && s.readers[r].Rotating?
    ensures Step(g, s, AbortWrite(w), s1) && s1.cols == s.cols && s1.log == s.log && w in s1.writers && s1.writers[w].Ended?
    ensures Step(g, s, FailAttempt(r, lockTimeout), s2) && s2.cols == s.cols && s2.log == s.log && r in s2.readers
    ensures s2.readers[r] == if lockTimeout && s.readers[r].attempt == 1 then Rotating(s.readers[r].job, 2, Started)
                             else Finish(s.readers[r].job, false)
  {
    var done := SetWriter(s, w, Ended);
    s1 := if s.writers[w].Holding? then Released(done, s.writers[w].e) else done;
    var failed := SetReader(s, r, FailResult(s.readers[r], lockTimeout));
    s2 := if s.readers[r].phase.Swapped? then Released(failed, s.readers[r].job.e) else failed;
  }

  // ------------------------------------------------------------------ updates without the field

  /** Committing an update that does not carry the field leaves every column as
      the latest committed write or write-back left it. */
  lemma KeepCommitIsInvisible(g: Aead, s: State, w: Tid, s': State)
    requires Inv(g, s) && |s.tables| > 0 && Step(g, s, CommitWrite(w), s')
    requires s.writers[w].change.Keep? && !s.writers[w].create
    ensures s'.cols == s.cols && s'.log == s.log
  {
    hide TablesInv, SnapshotWithin, ReaderInv, GoodBlob;
    assert WriterInv(g, Now(s), s.cols, s.locks, w, s.writers[w]);
  }

  /** A swap that commits changes exactly its own row. */
  lemma SwapThenCommit(g: Aead, s: State, r: Tid, reported: bool, s1: State, s2: State)
    requires |s.tables| > 0 && Step(g, s, Swap(r), s1) && |s1.tables| > 0 && Step(g, s1, CommitRead(r, reported), s2)
    ensures s2.cols == s.cols[s.readers[r].job.e := Bytes(s.readers[r].job.rot.blob)] && s2.log == s.log
    ensures s2.writers == s.writers && s2.readers.Keys == s.readers.Keys && s2.tables == s.tables
  {
    SwapThatCommits(g, s, r, reported, s1, s2);
    hide Adjudicate, SwapMatches, SwapResult;
  }

  lemma SwapThatCommits(g: Aead, s: State, r: Tid, reported: bool, s1: State, s2: State)
    requires |s.tables| > 0 && Step(g, s, Swap(r), s1) && |s1.tables| > 0 && Step(g, s1, CommitRead(r, reported), s2)
    ensures SwapResult(s, s.readers[r]) == s.readers[r].(phase := Swapped)
  {
    hide Adjudicate, SwapMatches;
  }

  /** An update without the field, run through, changes neither columns nor readers. */
  lemma KeepThenCommit(g: Aead, s: State, w: Tid, s1: State, s2: State)
    requires Inv(g, s) && |s.tables| > 0 && w in s.writers && s.writers[w].Ready?
    requires s.writers[w].change.Keep? && !s.writers[w].create
    requires Step(g, s, Update(w), s1) && |s1.tables| > 0 && Step(g, s1, CommitWrite(w), s2)
    ensures s2.cols == s.cols && s2.log == s.log && s2.readers == s.readers && s2.tables == s.tables
  {
    hide Inv;
    UpdateKeepsInv(g, s, w, s1);
    KeepCommitIsInvisible(g, s1, w, s2);
  }

  /** Such an update and a write-back commute: run in either order from the same
      state they leave the same columns. */
  lemma KeepCommutesWithWriteBack(g: Aead, s: State, w: Tid, r: Tid, reported: bool,
                                  a1: State, a2: State, a3: State, a4: State,
                                  b1: State, b2: State, b3: State, b4: State)
    requires Inv(g, s) && |s.tables| > 0 && w in s.writers && s.writers[w].Ready?
    requires s.writers[w].change.Keep? && !s.writers[w].create
    requires Step(g, s, Update(w), a1) && |a1.tables| > 0 && Step(g, a1, CommitWrite(w), a2)
    requires |a2.tables| > 0 && Step(g, a2, Swap(r), a3) && |a3.tables| > 0 && Step(g, a3, CommitRead(r, reported), a4)
    requires Step(g, s, Swap(r), b1) && |b1.tables| > 0 && Step(g, b1, CommitRead(r, reported), b2)
    requires |b2.tables| > 0 && Step(g, b2, Update(w), b3) && |b3.tables| > 0 && Step(g, b3, CommitWrite(w), b4)
    ensures a4.cols == b4.cols && a4.log == b4.log
  {
    hide Inv, Step;
    KeepThenCommit(g, s, w, a1, a2);
    SwapThenCommit(g, a2, r, reported, a3, a4);
    SwapKeepsInv(g, s, r, b1);
    CommitReadKeepsInv(g, b1, r, reported, b2);
    SwapThenCommit(g, s, r, reported, b1, b2);
    KeepThenCommit(g, b2, w, b3, b4);
  }
}
