/** What the write-back protocol guarantees over whole runs. */
module WriteBackRuns {
  import opened Wrappers
  import opened Aead
  import opened Blobs
  import opened KeyTables
  import opened TaxIds
  import opened WriteBack

  /** labels[i] leads from states[i] to states[i + 1]. */
  datatype Run = Run(states: seq<State>, labels: seq<Label>)

  ghost predicate StepAt(g: Aead, run: Run, i: nat)
    requires i < |run.labels| < |run.states|
  {
    |run.states[i].tables| > 0 && Step(g, run.states[i], run.labels[i], run.states[i + 1])
  }

  ghost predicate IsRun(g: Aead, run: Run) {
    && |run.states| == |run.labels| + 1
    && Initial(run.states[0])
    && forall i | 0 <= i < |run.labels| :: StepAt(g, run, i)
  }

  lemma {:induction false} RunInv(g: Aead, run: Run, i: nat)
    requires IsRun(g, run) && i < |run.states|
    ensures |run.states[i].tables| > 0 && Inv(g, run.states[i])
  {
    if i == 0 {
      hide Inv;
      InitialInv(g, run.states[0]);
    } else {
      RunInv(g, run, i - 1);
      hide Inv, Step, Initial;
      assert StepAt(g, run, i - 1);
      StepKeepsInvariant(g, run.states[i - 1], run.labels[i - 1], run.states[i]);
      InvHasTables(g, run.states[i]);
    }
  }

  lemma InvHasTables(g: Aead, s: State)
    requires Inv(g, s)
    ensures |s.tables| > 0
  {
    hide TablesInv, WriterInv, ReaderInv, GoodBlob, SnapshotWithin;
  }

  // ------------------------------------------------------------------ stored values

  /** In every reachable state every stored blob decrypts, under the full key
      table, to the value of the last committed set or clear of that row: no
      write-back and no rotation changes or loses a value, even when the same
      bytes reappear. */
  lemma StoredValueIsLastWritten(g: Aead, run: Run, i: nat, e: Entity)
    requires IsRun(g, run) && i < |run.states| && e in run.states[i].cols
    ensures |run.states[i].tables| > 0
    ensures Plain(g, Now(run.states[i]), Content(run.states[i].cols[e])) == Some(LastOf(run.states[i].log, e))
  {
    hide TablesInv, TableInv, WriterInv, ReaderInv, SnapshotWithin, IsRun, Plain;
    RunInv(g, run, i);
  }

  /** The step commits an ordinary set, clear or creation of `e`. */
  predicate Writes(s: State, l: Label, e: Entity) {
    && l.CommitWrite? && l.w in s.writers
    && var wr := s.writers[l.w];
       wr.Holding? && wr.e == e && Logged(wr) != []
  }

  predicate WritesTo(run: Run, i: nat, e: Entity)
    requires i < |run.labels| < |run.states|
  {
    Writes(run.states[i], run.labels[i], e)
  }

  lemma CommitExtendsLog(s: State, wr: Writer, s': State, e: Entity)
    requires wr.Holding? && s'.log == s.log + Logged(wr)
    ensures s.log <= s'.log
    ensures !(wr.e == e && Logged(wr) != []) ==> LastOf(s'.log, e) == LastOf(s.log, e)
  {
    if Logged(wr) == [] {
      assert s'.log == s.log;
    } else {
      LastOfAppend(s.log, Logged(wr)[0], e);
      assert s'.log == s.log + [Logged(wr)[0]];
    }
  }

  lemma StepLog(g: Aead, s: State, l: Label, s': State, e: Entity)
    requires |s.tables| > 0 && Step(g, s, l, s')
    ensures s.log <= s'.log && s.cols.Keys <= s'.cols.Keys
    ensures !Writes(s, l, e) ==> LastOf(s'.log, e) == LastOf(s.log, e)
  {
    hide TableStep, TableInv, Composed, Updated, SnapshotOf, OpenedReader, SwapResult, VerifyResult, FailResult, Logged, LastOf, ValidChange;
    if l.CommitWrite? {
      CommitExtendsLog(s, s.writers[l.w], s', e);
    } else {
      assert s'.log == s.log;
    }
  }

  lemma StepKeepsLog(g: Aead, run: Run, i: nat, e: Entity)
    requires IsRun(g, run) && i < |run.labels|
    ensures run.states[i].log <= run.states[i + 1].log
    ensures run.states[i].cols.Keys <= run.states[i + 1].cols.Keys
    ensures !WritesTo(run, i, e) ==> LastOf(run.states[i + 1].log, e) == LastOf(run.states[i].log, e)
  {
    hide Step, LastOf, Initial, Writes;
    assert StepAt(g, run, i);
    StepLog(g, run.states[i], run.labels[i], run.states[i + 1], e);
  }

  lemma {:induction false} QuietRowKeepsLog(g: Aead, run: Run, i: nat, j: nat, e: Entity)
    requires IsRun(g, run) && i <= j < |run.states| && e in run.states[i].cols
    requires forall k | i <= k < j :: !WritesTo(run, k, e)
    ensures e in run.states[j].cols && LastOf(run.states[j].log, e) == LastOf(run.states[i].log, e)
    decreases j - i
  {
    if i < j {
      hide IsRun;
      QuietRowKeepsLog(g, run, i, j - 1, e);
      assert !WritesTo(run, j - 1, e);
      StepKeepsLog(g, run, j - 1, e);
    }
  }

  /** Refinement: between two states with no ordinary write to the row in between,
      the decrypted value is the same, whatever write-backs, rotations, refreshes,
      failures and writes to other rows happened. */
  lemma OnlyOrdinaryWritesChangeValues(g: Aead, run: Run, i: nat, j: nat, e: Entity)
    requires IsRun(g, run) && i <= j < |run.states| && e in run.states[i].cols
    requires forall k | i <= k < j :: !WritesTo(run, k, e)
    ensures |run.states[i].tables| > 0 && |run.states[j].tables| > 0 && e in run.states[j].cols
    ensures Plain(g, Now(run.states[j]), Content(run.states[j].cols[e]))
            == Plain(g, Now(run.states[i]), Content(run.states[i].cols[e]))
  {
    hide IsRun, Plain;
    QuietRowKeepsLog(g, run, i, j, e);
    StoredValueIsLastWritten(g, run, i, e);
    StoredValueIsLastWritten(g, run, j, e);
  }

  // ------------------------------------------------------------------ what a read returns

  function EntityOf(rd: Reader): (e: Entity) { if rd.Rotating? then rd.job.e else rd.e }

  function AsOf(rd: Reader): (n: nat) { if rd.Rotating? then rd.job.asOf else rd.asOf }

  /** The ways a step can move a reader. */
  predicate Moves(g: Aead, s: State, l: Label, rd: Reader, rd': Reader) {
    match l
    case OpenBlob(_, now, nonce) => rd.Fetched? && rd.p in s.procs && rd' == OpenedReader(g, s.procs[rd.p], rd, now, nonce)
    case FailRefresh(_, error) => rd.Fetched? && rd' == RefusedReader(rd, error)
    case Swap(_) => rd.Rotating? && rd.phase.Started? && rd' == SwapResult(s, rd)
    case Verify(_) => rd.Rotating? && rd.phase.Lost? && rd' == VerifyResult(s, rd)
    case CommitRead(_, reported) =>
      rd.Rotating? && (rd.phase.Swapped? || rd.phase.Verified?) && rd' == Finish(rd.job, reported)
    case FailAttempt(_, lockTimeout) => rd.Rotating? && rd' == FailResult(rd, lockTimeout)
    case _ => false
  }

  predicate IsReadStep(l: Label) {
    l.Fetch? || l.OpenBlob? || l.FailRefresh? || l.Swap? || l.Verify? || l.CommitRead? || l.FailAttempt?
  }

  lemma OtherStepsKeepReaders(g: Aead, s: State, l: Label, s': State)
    requires |s.tables| > 0 && Step(g, s, l, s') && !IsReadStep(l)
    ensures s'.readers == s.readers
  {
    hide TableStep, TableInv, Composed, Updated, SnapshotOf, Logged, ValidChange, Content, RowOf;
  }

  /** A read step moves the one reader it names. */
  lemma ReadStepMovesOne(g: Aead, s: State, l: Label, s': State)
    requires |s.tables| > 0 && Step(g, s, l, s') && IsReadStep(l)
    ensures l.r in s'.readers && s'.readers == s.readers[l.r := s'.readers[l.r]]
    ensures if l.r in s.readers then Moves(g, s, l, s.readers[l.r], s'.readers[l.r]) else s'.readers[l.r].Fetched?
  {
    hide OpenedReader, SwapResult, VerifyResult, FailResult, Finish, Content, RowOf, BlobVersion;
    match l
    case Fetch(_, _, _) =>
    case OpenBlob(_, _, _) =>
    case FailRefresh(_, _) =>
    case Swap(_) => assert s'.readers == s.readers[l.r := SwapResult(s, s.readers[l.r])];
    case Verify(_) =>
    case CommitRead(_, _) =>
    case FailAttempt(_, lockTimeout) => assert s'.readers == s.readers[l.r := FailResult(s.readers[l.r], lockTimeout)];
  }

  lemma StepMovesReader(g: Aead, s: State, l: Label, s': State, r: Tid)
    requires |s.tables| > 0 && Step(g, s, l, s')
    ensures r in s.readers ==>
              r in s'.readers && (s'.readers[r] == s.readers[r] || Moves(g, s, l, s.readers[r], s'.readers[r]))
    ensures r in s'.readers && r !in s.readers ==> s'.readers[r].Fetched?
  {
    hide Step, Moves;
    if IsReadStep(l) {
      ReadStepMovesOne(g, s, l, s');
    } else {
      OtherStepsKeepReaders(g, s, l, s');
    }
  }

  lemma StepReader(g: Aead, s: State, l: Label, s': State, r: Tid)
    requires |s.tables| > 0 && Step(g, s, l, s') && r in s.readers
    ensures r in s'.readers && EntityOf(s'.readers[r]) == EntityOf(s.readers[r]) && AsOf(s'.readers[r]) == AsOf(s.readers[r])
  {
    hide Step, DecryptIn, VerifyStale, SwapMatches, Adjudicate;
    StepMovesReader(g, s, l, s', r);
  }

  lemma StepKeepsReader(g: Aead, run: Run, i: nat, r: Tid)
    requires IsRun(g, run) && i < |run.labels| && r in run.states[i].readers
    ensures r in run.states[i + 1].readers
    ensures EntityOf(run.states[i + 1].readers[r]) == EntityOf(run.states[i].readers[r])
    ensures AsOf(run.states[i + 1].readers[r]) == AsOf(run.states[i].readers[r])
  {
    hide Step, Initial, EntityOf, AsOf;
    assert StepAt(g, run, i);
    StepReader(g, run.states[i], run.labels[i], run.states[i + 1], r);
  }

  lemma {:induction false} ReaderRemembersFetch(g: Aead, run: Run, k: nat, i: nat, r: Tid)
    requires IsRun(g, run) && k < i < |run.states| && run.labels[k].Fetch? && run.labels[k].r == r
    ensures r in run.states[i].readers && EntityOf(run.states[i].readers[r]) == run.labels[k].e
    ensures AsOf(run.states[i].readers[r]) == |run.states[k].log| && run.states[k].log <= run.states[i].log
    decreases i
  {
    if i == k + 1 {
      assert StepAt(g, run, k);
    } else {
      hide IsRun;
      ReaderRemembersFetch(g, run, k, i - 1, r);
      StepKeepsReader(g, run, i - 1, r);
      StepKeepsLog(g, run, i - 1, 0);
    }
  }

  /** A read that returns a plaintext returns the value the row had when its blob
      was fetched, whatever happened in between. */
  lemma ReadReturnsFetchedValue(g: Aead, run: Run, k: nat, i: nat, r: Tid)
    requires IsRun(g, run) && k < i < |run.states| && run.labels[k].Fetch? && run.labels[k].r == r
    ensures r in run.states[i].readers
    ensures run.states[i].readers[r].Finished? && run.states[i].readers[r].result.Ok? ==>
              run.states[i].readers[r].result.value == LastOf(run.states[k].log, run.labels[k].e)
  {
    hide IsRun, TablesInv, WriterInv, GoodBlob, SnapshotWithin, JobInv;
    ReaderRemembersFetch(g, run, k, i, r);
    RunInv(g, run, i);
    var s := run.states[i];
    assert ReaderInv(g, Now(s), s.log, s.cols, s.locks, r, s.readers[r]);
    assert s.log[..|run.states[k].log|] == run.states[k].log;
  }

  /** Under a key that is not known leaked no write-back failure fails the read:
      whatever happened to it, it returns the value the row had when it was
      fetched. */
  lemma StandardRotationNeverFailsRead(g: Aead, run: Run, k: nat, i: nat, r: Tid)
    requires IsRun(g, run) && k < i < |run.states| && run.labels[k].Fetch? && run.labels[k].r == r
    ensures r in run.states[i].readers
    ensures var rd := run.states[i].readers[r];
            rd.Finished? && rd.rotated.Some? && !rd.rotated.value.rot.mustPersist ==>
              rd.result == Ok(LastOf(run.states[k].log, run.labels[k].e))
  {
    hide IsRun, TablesInv, WriterInv, GoodBlob, SnapshotWithin, JobInv;
    ReadReturnsFetchedValue(g, run, k, i, r);
    RunInv(g, run, i);
    var s := run.states[i];
    assert ReaderInv(g, Now(s), s.log, s.cols, s.locks, r, s.readers[r]);
  }

  // ------------------------------------------------------------------ bounded work

  /** How far a read has come. */
  function Progress(rd: Reader): (n: nat) {
    match rd
    case Fetched(_, _, _, _) => 0
    case Rotating(_, attempt, phase) =>
      3 * attempt + (if phase.Started? then 0 else if phase.Verified? then 2 else 1)
    case Finished(_, _, _, _) => 9
  }

  /** Every step that moves a read brings it nearer its end, so that a read makes
      at most two write-back attempts and is over after at most nine steps of its
      own, whatever the others do. */
  lemma EveryMoveAdvances(g: Aead, run: Run, i: nat, r: Tid)
    requires IsRun(g, run) && i < |run.labels| && r in run.states[i].readers
    ensures r in run.states[i + 1].readers && Progress(run.states[i + 1].readers[r]) <= 9
    ensures run.states[i + 1].readers[r] == run.states[i].readers[r]
            || Progress(run.states[i].readers[r]) < Progress(run.states[i + 1].readers[r])
  {
    hide Step, Initial, TablesInv, WriterInv, GoodBlob, SnapshotWithin, JobInv, Progress, Moves;
    RunInv(g, run, i);
    RunInv(g, run, i + 1);
    assert StepAt(g, run, i);
    var s, s' := run.states[i], run.states[i + 1];
    StepMovesReader(g, s, run.labels[i], s', r);
    assert ReaderInv(g, Now(s), s.log, s.cols, s.locks, r, s.readers[r]);
    assert ReaderInv(g, Now(s'), s'.log, s'.cols, s'.locks, r, s'.readers[r]);
    ProgressBounded(s'.readers[r]);
    if s'.readers[r] != s.readers[r] {
      MoveAdvances(g, s, run.labels[i], s.readers[r], s'.readers[r]);
    }
  }

  lemma ProgressBounded(rd: Reader)
    requires rd.Rotating? ==> 1 <= rd.attempt <= 2
    ensures Progress(rd) <= 9
  {
  }

  lemma MoveAdvances(g: Aead, s: State, l: Label, rd: Reader, rd': Reader)
    requires Moves(g, s, l, rd, rd') && (rd.Rotating? ==> 1 <= rd.attempt <= 2)
    ensures Progress(rd) < Progress(rd')
  {
    hide DecryptIn, VerifyStale, SwapMatches, Adjudicate;
  }

  // ------------------------------------------------------------------ compromised keys

  predicate Carries(rd: Reader, job: ReadJob) {
    (rd.Rotating? && rd.job == job) || (rd.Finished? && rd.rotated == Some(job))
  }

  /** The write-back has verified the row, or has ended by returning plaintext
      away from a compromised key. */
  predicate ClaimsSafe(rd: Reader, job: ReadJob) {
    || (rd.Rotating? && rd.job == job && rd.phase.Verified?)
    || (rd.Finished? && rd.rotated == Some(job) && job.rot.mustPersist && rd.result.Ok?)
  }

  predicate SafeNow(s: State, r: Tid, job: ReadJob) {
    r in s.readers && Carries(s.readers[r], job) && SafeUnder(RowOf(s, job.e), job.rot.toVersion)
  }

  predicate SafeAt(run: Run, k: nat, r: Tid, job: ReadJob)
    requires k < |run.states|
  {
    SafeNow(run.states[k], r, job)
  }

  predicate ClaimsAt(run: Run, k: nat, r: Tid, job: ReadJob)
    requires k < |run.states|
  {
    r in run.states[k].readers && ClaimsSafe(run.states[k].readers[r], job)
  }

  /** State k is where the claim that still stands in state i was made. */
  predicate ClaimStands(run: Run, k: nat, i: nat, r: Tid, job: ReadJob)
    requires 0 < k <= i < |run.states|
  {
    !ClaimsAt(run, k - 1, r, job) && forall m | k <= m <= i :: ClaimsAt(run, m, r, job)
  }

  /** At the very instant the standing claim was made, which is the re-read or the
      commit of the write-back transaction that committed, the row held nothing
      under any version but the rotation's target. */
  ghost predicate WasSafe(run: Run, i: nat, r: Tid, job: ReadJob)
    requires i < |run.states|
  {
    exists k :: 0 < k <= i && SafeAt(run, k, r, job) && ClaimStands(run, k, i, r, job)
  }

  lemma CommittedSwapIsSafe(g: Aead, s: State, r: Tid, reported: bool, s': State)
    requires |s.tables| > 0 && Inv(g, s) && Step(g, s, CommitRead(r, reported), s') && s.readers[r].phase.Swapped?
    ensures SafeNow(s', r, s.readers[r].job)
  {
    hide TablesInv, WriterInv, GoodBlob, SnapshotWithin, BlobVersion;
    assert ReaderInv(g, Now(s), s.log, s.cols, s.locks, r, s.readers[r]);
  }

  lemma VerifiedStepIsSafe(g: Aead, s: State, r: Tid, s': State, job: ReadJob)
    requires |s.tables| > 0 && Step(g, s, Verify(r), s') && ClaimsSafe(s'.readers[r], job)
    ensures SafeNow(s', r, job)
  {
    hide BlobVersion, SafeUnder, VerifyStale;
    VerifiedIsSafe(RowOf(s, job.e), job.rot.toVersion);
  }

  /** Only a verification and a committed swap make the claim. */
  lemma ClaimComesFrom(g: Aead, s: State, l: Label, rd: Reader, rd': Reader, job: ReadJob)
    requires Moves(g, s, l, rd, rd') && ClaimsSafe(rd', job)
    ensures l.Verify? || (l.CommitRead? && rd.job == job && (rd.phase.Swapped? || ClaimsSafe(rd, job)))
  {
    hide DecryptIn, VerifyStale, SwapMatches;
  }

  lemma StepClaims(g: Aead, s: State, l: Label, s': State, r: Tid, job: ReadJob)
    requires |s.tables| > 0 && Inv(g, s) && Step(g, s, l, s') && r in s'.readers && ClaimsSafe(s'.readers[r], job)
    ensures (r in s.readers && ClaimsSafe(s.readers[r], job)) || SafeNow(s', r, job)
  {
    StepMovesReader(g, s, l, s', r);
    if r in s.readers && s'.readers[r] != s.readers[r] {
      ClaimComesFrom(g, s, l, s.readers[r], s'.readers[r], job);
      MoverIsNamed(g, s, l, s', r);
      hide Step, Inv, Moves, ClaimsSafe, SafeNow;
      if l.Verify? {
        VerifiedStepIsSafe(g, s, r, s', job);
      } else if s.readers[r].phase.Swapped? {
        CommittedSwapIsSafe(g, s, r, l.reported, s');
      }
    }
  }

  lemma MoverIsNamed(g: Aead, s: State, l: Label, s': State, r: Tid)
    requires |s.tables| > 0 && Step(g, s, l, s') && r in s.readers && r in s'.readers && s'.readers[r] != s.readers[r]
    ensures l.Verify? || l.CommitRead? ==> l.r == r
  {
    hide TableStep, TableInv, Composed, Updated, SnapshotOf, Logged, OpenedReader, ValidChange, SwapResult, VerifyResult, FailResult, Finish;
  }

  lemma ClaimMadeBySafeStep(g: Aead, run: Run, i: nat, r: Tid, job: ReadJob)
    requires IsRun(g, run) && i < |run.labels| && ClaimsAt(run, i + 1, r, job)
    ensures ClaimsAt(run, i, r, job) || SafeAt(run, i + 1, r, job)
  {
    hide Step, Initial, ClaimsSafe, Inv, SafeNow;
    assert StepAt(g, run, i);
    RunInv(g, run, i);
    StepClaims(g, run.states[i], run.labels[i], run.states[i + 1], r, job);
  }

  lemma WasSafeStill(run: Run, i: nat, r: Tid, job: ReadJob)
    requires i + 1 < |run.states| && WasSafe(run, i, r, job) && ClaimsAt(run, i + 1, r, job)
    ensures WasSafe(run, i + 1, r, job)
  {
    hide ClaimsAt, SafeAt;
    var k :| 0 < k <= i && SafeAt(run, k, r, job) && ClaimStands(run, k, i, r, job);
    assert ClaimStands(run, k, i + 1, r, job);
  }

  lemma {:induction false} ClaimsAreSafe(g: Aead, run: Run, i: nat, r: Tid, job: ReadJob)
    requires IsRun(g, run) && i < |run.states| && ClaimsAt(run, i, r, job)
    ensures WasSafe(run, i, r, job)
    decreases i
  {
    if i == 0 {
      NobodyReadsInitially(g, run, r);
    } else {
      hide IsRun, ClaimsAt, SafeAt;
      ClaimMadeBySafeStep(g, run, i - 1, r, job);
      if ClaimsAt(run, i - 1, r, job) {
        ClaimsAreSafe(g, run, i - 1, r, job);
        WasSafeStill(run, i - 1, r, job);
      } else {
        assert ClaimStands(run, i, i, r, job);
      }
    }
  }

  lemma NobodyReadsInitially(g: Aead, run: Run, r: Tid)
    requires IsRun(g, run)
    ensures r !in run.states[0].readers
  {
    hide StepAt, TableInv;
  }

  /** A read away from a compromised key returns plaintext only if, at the instant
      its committed write-back transaction re-read or replaced the row, the row was
      empty or held a blob under the target version; otherwise it ends in an
      error. */
  lemma CompromisedReadIsSafe(g: Aead, run: Run, i: nat, r: Tid)
    requires IsRun(g, run) && i < |run.states| && r in run.states[i].readers
    ensures var rd := run.states[i].readers[r];
            rd.Finished? && rd.rotated.Some? && rd.rotated.value.rot.mustPersist ==>
              || rd.result == Err(Unpersisted(rd.rotated.value.rot.fromVersion))
              || (rd.result == Ok(rd.rotated.value.plaintext) && WasSafe(run, i, r, rd.rotated.value))
  {
    var rd := run.states[i].readers[r];
    hide IsRun, WasSafe;
    FinishedAdjudicated(g, run, i, r);
    if rd.Finished? && rd.rotated.Some? && rd.rotated.value.rot.mustPersist && rd.result.Ok? {
      ClaimsAreSafe(g, run, i, r, rd.rotated.value);
    }
  }

  /** A read that rotated ended in one of the policy's outcomes. */
  predicate Adjudicated(rd: Reader) {
    rd.Finished? && rd.rotated.Some? ==>
      exists persisted :: rd.result == Adjudicate(persisted, rd.rotated.value.rot, rd.rotated.value.plaintext)
  }

  lemma {:induction false} FinishedAdjudicated(g: Aead, run: Run, i: nat, r: Tid)
    requires IsRun(g, run) && i < |run.states| && r in run.states[i].readers
    ensures Adjudicated(run.states[i].readers[r])
    decreases i
  {
    if i == 0 {
      NobodyReadsInitially(g, run, r);
    } else {
      if r in run.states[i - 1].readers {
        hide Adjudicated, StepAt;
        FinishedAdjudicated(g, run, i - 1, r);
      }
      StepAdjudicates(g, run, i - 1, r);
    }
  }

  lemma MoveAdjudicates(g: Aead, s: State, l: Label, rd: Reader, rd': Reader)
    requires Moves(g, s, l, rd, rd')
    ensures Adjudicated(rd')
  {
    hide DecryptIn, VerifyStale, SwapMatches, Adjudicate;
    if rd'.Finished? && rd'.rotated.Some? {
      assert rd' == Finish(rd'.rotated.value, true) || rd' == Finish(rd'.rotated.value, false);
    }
  }

  lemma StepAdjudicatesState(g: Aead, s: State, l: Label, s': State, r: Tid)
    requires |s.tables| > 0 && Step(g, s, l, s') && r in s'.readers
    requires r in s.readers ==> Adjudicated(s.readers[r])
    ensures Adjudicated(s'.readers[r])
  {
    hide Step, Moves, Adjudicate;
    StepMovesReader(g, s, l, s', r);
    if r in s.readers && s'.readers[r] != s.readers[r] {
      MoveAdjudicates(g, s, l, s.readers[r], s'.readers[r]);
    }
  }

  lemma StepAdjudicates(g: Aead, run: Run, i: nat, r: Tid)
    requires IsRun(g, run) && i < |run.labels| && r in run.states[i + 1].readers
    requires r in run.states[i].readers ==> Adjudicated(run.states[i].readers[r])
    ensures Adjudicated(run.states[i + 1].readers[r])
  {
    hide Step, Initial, Adjudicated;
    assert StepAt(g, run, i);
    StepAdjudicatesState(g, run.states[i], run.labels[i], run.states[i + 1], r);
  }
}
