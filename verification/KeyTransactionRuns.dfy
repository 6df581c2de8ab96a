/** What interleaved key-table transactions can and cannot do to each other over
    whole runs. */
module KeyTransactionRuns {
  import opened Wrappers
  import opened Aead
  import opened Blobs
  import opened KeyTables
  import opened KeyTransactions

  // ------------------------------------------------------------------ competing rotations

  /** The transaction commits its rotation in the step from state i. */
  ghost predicate RotationCommitsAt(run: seq<State>, i: nat, id: TxId)
    requires i + 1 < |run|
  {
    id in run[i].txs && run[i].txs[id].job.RotateJob? && Step(run[i], Commit(id), run[i + 1])
  }

  /** The rotation retired exactly one row; it was active until then and is retired
      from then on. */
  lemma RetiresOne(run: seq<State>, i: nat, id: TxId) returns (a: uint32)
    requires IsRun(run) && i + 1 < |run| && RotationCommitsAt(run, i, id)
    ensures id in run[i].txs && run[i].txs[id].phase.Inserted? && run[i].txs[id].phase.held.Keys == {a}
    ensures a in run[i].rows && IsActive(run[i].rows[a])
    ensures a in run[i + 1].rows && !IsActive(run[i + 1].rows[a])
  {
    hide IsRun, TableInv;
    RunInvariant(run, i);
    a := RetiresTheActive(run[i], id, run[i + 1]);
  }

  lemma RetiresTheActive(s: State, id: TxId, s': State) returns (a: uint32)
    requires Inv(s) && id in s.txs && s.txs[id].job.RotateJob? && Step(s, Commit(id), s')
    ensures s.txs[id].phase.Inserted? && s.txs[id].phase.held.Keys == {a}
    ensures a in s.rows && IsActive(s.rows[a]) && a in s'.rows && !IsActive(s'.rows[a])
  {
    hide LocksDisjoint, OneSlotHolder, Counted;
    assert TxInv(s.rows, s.nextVersion, s.txs[id]);
    a := HeldRow(s.rows, s.nextVersion, s.txs[id]);
  }

  lemma RetiredForGood(run: seq<State>, i: nat, j: nat, a: uint32)
    requires IsRun(run) && i <= j < |run| && a in run[i].rows && !IsActive(run[i].rows[a])
    ensures a in run[j].rows && !IsActive(run[j].rows[a])
  {
    hide IsRun;
    RunIsLater(run, i, j);
  }

  /** No two committed rotations of a run retired the same key: of any number that
      set out against one incumbent at most one commits. */
  lemma NoKeyIsRetiredTwice(run: seq<State>, i: nat, j: nat, p: TxId, q: TxId)
    requires IsRun(run) && i < j && j + 1 < |run| && RotationCommitsAt(run, i, p) && RotationCommitsAt(run, j, q)
    ensures run[i].txs[p].phase.Inserted? && run[j].txs[q].phase.Inserted?
    ensures |run[i].txs[p].phase.held| == 1 && |run[j].txs[q].phase.held| == 1
    ensures run[i].txs[p].phase.held.Keys !! run[j].txs[q].phase.held.Keys
  {
    hide IsRun, RotationCommitsAt;
    var a := RetiresOne(run, i, p);
    var b := RetiresOne(run, j, q);
    RetiredForGood(run, i + 1, j, a);
    assert |run[i].txs[p].phase.held.Keys| == 1 && |run[j].txs[q].phase.held.Keys| == 1;
  }

  /** Once a rotation has committed, every other one that had set out against the
      same incumbent finds, however much later it gets the row lock, that its
      retire matches no row. */
  lemma LosingRotationFindsNothing(run: seq<State>, i: nat, j: nat, winner: TxId, loser: TxId, s': State)
    requires IsRun(run) && i < j < |run| && RotationCommitsAt(run, i, winner)
    requires loser in run[j].txs && run[j].txs[loser].job.RotateJob? && run[j].txs[loser].phase.Scanned?
    requires run[i].txs[winner].phase.Inserted? && run[j].txs[loser].phase.candidate in run[i].txs[winner].phase.held
    requires Step(run[j], Lock(loser), s')
    ensures s'.txs[loser].phase == Failed(NoActiveKey) && s'.rows == run[j].rows
  {
    hide IsRun, RotationCommitsAt;
    var a := RetiresOne(run, i, winner);
    assert run[j].txs[loser].phase.candidate == a;
    RetiredForGood(run, i + 1, j, a);
  }

  // ------------------------------------------------------------------ how each statement ends

  /** The first statement: which transactions it ends, and why. */
  lemma ScanExactlyWhen(s: State, id: TxId, candidate: uint32, s': State)
    requires id in s.txs && Step(s, Scan(id, candidate), s')
    ensures id in s'.txs && s'.rows == s.rows
    ensures var job, phase := s.txs[id].job, s'.txs[id].phase;
            match job
            case RotateJob(_, _, _) =>
              && (phase == Failed(NoActiveKey) <==> forall v | v in s.rows :: s.rows[v].retiredAt.Some?)
              && (phase != Failed(NoActiveKey) ==>
                    phase == Scanned(candidate) && candidate in s.rows && s.rows[candidate].retiredAt.None?)
            case FlagJob(version, _) =>
              && (phase == Failed(NoSuchVersion) <==> version !in s.rows)
              && (phase == Failed(StillActive) <==> version in s.rows && s.rows[version].retiredAt.None?)
              && (phase == Scanned(version) <==> version in s.rows && s.rows[version].retiredAt.Some?)
            case InitJob(_) =>
              && (phase == Failed(NoRows) <==> s.rows != map[])
              && (phase == Scanned(0) <==> s.rows == map[])
  {
    assert SomeActive(s.rows) <==> exists v :: v in s.rows && s.rows[v].retiredAt.None?;
  }

  /** No transaction is stuck before its first statement. */
  lemma ScanAlwaysRuns(s: State, id: TxId) returns (candidate: uint32, s': State)
    requires id in s.txs && s.txs[id].phase.Begun?
    ensures Step(s, Scan(id, candidate), s')
  {
    candidate := 0;
    var job := s.txs[id].job;
    var phase := Failed(NoRows);
    if job.RotateJob? {
      if SomeActive(s.rows) {
        candidate :| candidate in s.rows && IsActive(s.rows[candidate]);
        phase := Scanned(candidate);
      } else {
        phase := Failed(NoActiveKey);
      }
    } else if job.FlagJob? {
      phase := if job.version !in s.rows then Failed(NoSuchVersion)
               else if IsActive(s.rows[job.version]) then Failed(StillActive) else Scanned(job.version);
    } else if s.rows == map[] {
      phase := Scanned(0);
    }
    assert ScanResult(s.rows, job, candidate, phase);
    s' := SetPhase(s, id, phase);
  }

  /** The update, once it has the row lock: it finds its row retired or not as the
      latest commit left it, and writes exactly the row it is to write. */
  lemma LockExactlyWhen(s: State, id: TxId, s': State)
    requires Inv(s) && id in s.txs && Step(s, Lock(id), s')
    ensures id in s'.txs && s'.rows == s.rows && s.txs[id].phase.Scanned?
    ensures var tx, phase, v := s.txs[id], s'.txs[id].phase, s.txs[id].phase.candidate;
            match tx.job
            case RotateJob(_, grace, compromised) =>
              && (phase == Failed(NoActiveKey) <==> v !in s.rows || s.rows[v].retiredAt.Some?)
              && (phase != Failed(NoActiveKey) ==>
                    phase == Phase.Holding(v, Row(s.rows[v].key, Some(tx.now),
                                                  if grace.None? then None
                                                  else Some(tx.now + grace.value * 86_400_000_000_000),
                                                  if compromised then Some(tx.now) else None)))
            case FlagJob(version, change) =>
              && v == version
              && (phase == Failed(NoRows) <==> v !in s.rows || s.rows[v].retiredAt.None?)
              && (phase.Holding? ==>
                    && phase.version == v && phase.row.key == s.rows[v].key && phase.row.retiredAt == s.rows[v].retiredAt
                    && (change.Compromise? ==>
                          && phase.row.decryptableUntil == s.rows[v].decryptableUntil
                          && phase.row.compromisedAt == if s.rows[v].compromisedAt.Some? then s.rows[v].compromisedAt
                                                        else Some(tx.now))
                    && (change.Grace? ==>
                          && phase.row.compromisedAt == s.rows[v].compromisedAt
                          && phase.row.decryptableUntil == if change.days.None? then None
                                                           else Some(tx.now + change.days.value * 86_400_000_000_000)))
            case InitJob(_) => false
  {
    hide LocksDisjoint, OneSlotHolder, Counted, RowLockFree, KeysDistinct;
    var tx := s.txs[id];
    assert TxInv(s.rows, s.nextVersion, tx);
    if tx.job.RotateJob? && tx.phase.candidate in s.rows && IsActive(s.rows[tx.phase.candidate]) {
      RetiredActiveRowOk(s.rows, tx.phase.candidate, tx.job, tx.now);
    }
  }

  /** The insert: what stands in its way, what it writes, and that it uses up a
      value of the sequence either way. */
  lemma InsertExactlyWhen(s: State, id: TxId, s': State)
    requires Inv(s) && id in s.txs && Step(s, Insert(id), s') && s.nextVersion <= 0x7fff_ffff
    ensures id in s'.txs && s'.rows == s.rows && s'.nextVersion == s.nextVersion + 1
    ensures var job, phase := s.txs[id].job, s'.txs[id].phase;
            match job
            case RotateJob(key, _, _) =>
              && (phase == Failed(UniqueViolation) <==> exists v :: v in s.rows && s.rows[v].key == key)
              && (phase != Failed(UniqueViolation) ==>
                    phase.Inserted? && phase.version == s.nextVersion && phase.row == Row(key, None, None, None))
            case InitJob(key) =>
              && (phase == Failed(NoRows) <==> s.rows != map[])
              && (phase != Failed(NoRows) ==>
                    phase.Inserted? && phase.version == s.nextVersion && phase.row == Row(key, None, None, None))
            case FlagJob(_, _) => false
  {
    hide LocksDisjoint, OneSlotHolder, Counted, SlotFree, KeysDistinct, RowOk;
    var tx := s.txs[id];
    assert TxInv(s.rows, s.nextVersion, tx);
    if tx.job.RotateJob? {
      OnlyOneActive(s.rows, tx.phase.version);
      assert Writes(tx).Keys == {tx.phase.version};
      assert !SomeActive(s.rows - Writes(tx).Keys);
    } else if s.rows != map[] {
      assert IsTheActive(s.rows, ActiveVersion(s.rows));
      assert s.rows - Writes(tx).Keys == s.rows;
    }
  }

  /** With nobody in the way a flag change that the checks allow runs through and
      commits exactly that change. */
  lemma LoneFlagCommits(s: State, id: TxId, job: Job) returns (path: seq<State>)
    requires Inv(s) && id !in s.txs && job.FlagJob? && AcceptedJob(job)
    requires Applies(s.rows, Flag(job.version, job.change, s.clock))
    requires forall other | other in s.txs :: Writes(s.txs[other]) == map[]
    ensures |path| == 5 && path[0] == s && forall i | 0 < i < 5 :: NextAt(path, i)
    ensures path[4] == s.(rows := Apply(s.rows, Flag(job.version, job.change, s.clock)),
                          txs := s.txs[id := Tx(job, s.clock, Committed)])
  {
    hide Inv;
    var v := job.version;
    var row := FlaggedRow(s.rows[v], job.change, s.clock);
    var s1 := s.(txs := s.txs[id := Tx(job, s.clock, Begun)]);
    var s2 := SetPhase(s1, id, Scanned(v));
    var s3 := SetPhase(s2, id, Phase.Holding(v, row));
    var s4 := SetPhase(s3, id, Phase.Committed).(rows := s.rows + map[v := row]);
    path := [s, s1, s2, s3, s4];
    BeginStarts(s, id, job, s1);
    ScansRetired(s1, id, job, s2);
    assert Step(s2, Lock(id), s3);
    assert Writes(s3.txs[id]) == map[v := row];
    assert Step(s3, Commit(id), s4);
    assert s.rows + map[v := row] == Apply(s.rows, Flag(v, job.change, s.clock));
    hide Step;
    assert NextAt(path, 1) && NextAt(path, 2) && NextAt(path, 3) && NextAt(path, 4);
  }

  // ------------------------------------------------------------------ deadlines before the retirement

  /** A flag change that has found its retired row violates a check exactly when it
      sets a deadline before the retirement; for an accepted deadline that takes a
      transaction that began before the key was retired. */
  lemma CheckFailsExactlyWhen(s: State, id: TxId, s': State)
    requires Inv(s) && id in s.txs && s.txs[id].job.FlagJob? && Step(s, Lock(id), s')
    ensures var tx := s.txs[id];
            var v := tx.job.version;
            s'.txs[id].phase == Failed(CheckViolation) <==>
              && v in s.rows && s.rows[v].retiredAt.Some?
              && tx.job.change.Grace? && tx.job.change.days.Some?
              && tx.now + tx.job.change.days.value * DAY < s.rows[v].retiredAt.value
    ensures s'.txs[id].phase == Failed(CheckViolation) ==>
              s.txs[id].now < s.rows[s.txs[id].job.version].retiredAt.value && s'.rows == s.rows
  {
    hide LocksDisjoint, OneSlotHolder, Counted, RowLockFree, KeysDistinct;
    var tx := s.txs[id];
    assert TxInv(s.rows, s.nextVersion, tx);
    assert tx.phase.candidate == tx.job.version;
    if tx.job.version in s.rows {
      assert RowOk(s.rows[tx.job.version]);
      if tx.job.change.Grace? && tx.job.change.days.Some? {
        assert tx.job.change.days.value * DAY >= 0;
      }
    }
  }

  ghost predicate Reachable(s: State) {
    exists run :: IsRun(run) && run[|run| - 1] == s
  }

  lemma Started(s: State)
    requires Init0(s)
    ensures Reachable(s)
  {
    assert IsRun([s]);
    assert [s][|[s]| - 1] == s;
  }

  lemma Reached(s: State, l: Label, s': State)
    requires Reachable(s) && Step(s, l, s')
    ensures Reachable(s')
  {
    hide Step, Init0;
    var run :| IsRun(run) && run[|run| - 1] == s;
    var run' := run + [s'];
    assert Next(s, s');
    forall i | 0 < i < |run'| ensures NextAt(run', i) {
      if i < |run| {
        assert NextAt(run, i);
      }
    }
    assert IsRun(run') && run'[|run'| - 1] == s';
  }

  lemma {:induction false} ReachedAlong(path: seq<State>)
    requires |path| > 0 && Reachable(path[0]) && forall i | 0 < i < |path| :: NextAt(path, i)
    ensures Reachable(path[|path| - 1])
  {
    hide Step, Reachable;
    if |path| > 1 {
      var front := path[..|path| - 1];
      forall i | 0 < i < |front| ensures NextAt(front, i) {
        assert NextAt(path, i);
      }
      ReachedAlong(front);
      assert NextAt(path, |path| - 1);
      var l :| Step(path[|path| - 2], l, path[|path| - 1]);
      Reached(path[|path| - 2], l, path[|path| - 1]);
    }
  }

  lemma ReachableInv(s: State)
    requires Reachable(s)
    ensures Inv(s)
  {
    hide Inv, NextAt, Init0;
    var run :| IsRun(run) && run[|run| - 1] == s;
    RunInvariant(run, |run| - 1);
  }

  /** An empty table, then its first row. */
  lemma Bootstrapped(key: seq<byte>) returns (s: State)
    requires IsKeyMaterial(key)
    ensures Reachable(s) && s.rows == map[1 := FreshRow(key)] && s.nextVersion == 2 && s.clock == 0
    ensures s.txs == map[0 := Tx(InitJob(key), 0, Committed)]
  {
    hide Reachable;
    var job := InitJob(key);
    var s0 := State(map[], 1, 0, map[], 0, 0);
    var s1 := s0.(txs := map[0 := Tx(job, 0, Begun)]);
    var s2 := SetPhase(s1, 0, Scanned(0));
    var s3 := SetPhase(s2, 0, Inserted(map[], 1, FreshRow(key))).(nextVersion := 2);
    s := SetPhase(s3, 0, Phase.Committed).(rows := map[1 := FreshRow(key)], inits := 1);
    Started(s0);
    Reached(s0, Begin(0, job), s1);
    assert ScanResult(s1.rows, job, 0, Scanned(0));
    Reached(s1, Scan(0, 0), s2);
    FirstInsert(s2, key, s3);
    Reached(s2, Insert(0), s3);
    assert Writes(s3.txs[0]) == map[1 := FreshRow(key)];
    assert s3.rows + Writes(s3.txs[0]) == map[1 := FreshRow(key)];
    Reached(s3, Commit(0), s);
  }

  lemma FirstInsert(s: State, key: seq<byte>, s': State)
    requires s.rows == map[] && s.nextVersion == 1 && s.txs == map[0 := Tx(InitJob(key), 0, Scanned(0))]
    requires s' == SetPhase(s, 0, Inserted(map[], 1, FreshRow(key))).(nextVersion := 2)
    ensures Step(s, Insert(0), s')
  {
    assert InsertResult(s.rows, s.txs[0], 1) == Inserted(map[], 1, FreshRow(key));
  }

  /** It does happen: a deadline of 0 days, accepted by the handler, is set by a
      transaction that began just before another one retired the key. */
  lemma DeadlineRaceViolatesCheck(key: seq<byte>, next: seq<byte>) returns (s: State, s': State)
    requires IsKeyMaterial(key) && IsKeyMaterial(next) && key != next
    ensures Reachable(s) && 1 in s.txs && s.txs[1].job == FlagJob(1, Grace(Some(0))) && AcceptedJob(s.txs[1].job)
    ensures Step(s, Lock(1), s') && 1 in s'.txs && s'.txs[1].phase == Failed(CheckViolation) && s'.rows == s.rows
  {
    hide Reachable, Inv, Step, Apply, SomeActive;
    var flag := FlagJob(1, Grace(Some(0)));
    var rotate := RotateJob(next, None, false);
    var s4 := Bootstrapped(key);
    var s5 := s4.(txs := s4.txs[1 := Tx(flag, 0, Begun)]);
    BeginStarts(s4, 1, flag, s5);
    Reached(s4, Begin(1, flag), s5);
    var s6 := s5.(clock := 1);
    Ticks(s5, 1, s6);
    Reached(s5, Tick(1), s6);
    ReachableInv(s6);
    assert 1 in s6.rows;
    var path := LoneRotationCommits(s6, 2, rotate);
    ReachedAlong(path);
    var s7 := path[5];
    RetiredFirstRow(key, next);
    s := SetPhase(s7, 1, Scanned(1));
    ScansRetired(s7, 1, flag, s);
    Reached(s7, Scan(1, 0), s);
    s' := SetPhase(s, 1, Failed(CheckViolation));
    LockRefuses(s, s');
  }

  lemma Ticks(s: State, d: nat, s': State)
    requires s' == s.(clock := s.clock + d)
    ensures Step(s, Tick(d), s')
  {
  }

  lemma RetiredFirstRow(key: seq<byte>, next: seq<byte>)
    ensures Apply(map[1 := FreshRow(key)], Rotate(2, next, None, false, 1))
            == map[1 := Row(key, Some(1), None, None), 2 := FreshRow(next)]
  {
  }

  lemma ScansRetired(s: State, id: TxId, job: Job, s': State)
    requires id in s.txs && s.txs[id].job == job && s.txs[id].phase.Begun? && job.FlagJob?
    requires job.version in s.rows && !IsActive(s.rows[job.version]) && s' == SetPhase(s, id, Scanned(job.version))
    ensures Step(s, Scan(id, 0), s')
  {
    assert ScanResult(s.rows, job, 0, Scanned(job.version));
  }

  lemma LockRefuses(s: State, s': State)
    requires 1 in s.txs && s.txs[1] == Tx(FlagJob(1, Grace(Some(0))), 0, Scanned(1))
    requires 1 in s.rows && s.rows[1].retiredAt == Some(1) && s' == SetPhase(s, 1, Failed(CheckViolation))
    requires forall other | other in s.txs && other != 1 :: Writes(s.txs[other]) == map[]
    ensures Step(s, Lock(1), s')
  {
  }
}
