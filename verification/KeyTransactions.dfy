/** Rotation, mark-compromised, set-grace and first-boot transactions running at
    the same time against the key table, statement by statement, under READ
    COMMITTED: a statement scans what is committed when it starts, waits for the
    row lock, re-checks its WHERE clause on the latest committed row, and the
    unique indexes make an insert wait for any other transaction that has the
    one-active slot in flux. Versions come from the identity sequence, which a
    rollback does not give back. A transaction may abort at any point. */
module KeyTransactions {
  import opened Wrappers
  import opened Aead
  import opened Blobs
  import opened KeyTables

  type TxId = nat

  datatype Job =
    | RotateJob(key: seq<byte>, grace: Option<nat>, compromised: bool)
    | FlagJob(version: uint32, change: FlagChange)
    | InitJob(key: seq<byte>)

  datatype Failure = NoActiveKey | NoSuchVersion | StillActive | CheckViolation | UniqueViolation | NoRows | Aborted

  datatype Phase =
    | Begun
    | Scanned(candidate: uint32)
    | Holding(version: uint32, row: Row)
    | Inserted(held: Table, version: uint32, row: Row)
    | Committed
    | Failed(why: Failure)

  /** `now` is the transaction's start time, which is what SQL now() returns. */
  datatype Tx = Tx(job: Job, now: Time, phase: Phase)

  /** `rows` is the committed table; the last two fields count commits. */
  datatype State = State(rows: Table, nextVersion: int, clock: Time, txs: map<TxId, Tx>, inits: nat, rotations: nat)

  /** The row versions a transaction has written and not yet committed; it holds
      the locks on them. */
  function Writes(tx: Tx): (w: Table) {
    match tx.phase
    case Holding(version, row) => map[version := row]
    case Inserted(held, version, row) => held[version := row]
    case _ => map[]
  }

  predicate HoldsActiveSlot(tx: Tx) {
    tx.phase.Inserted? || (tx.phase.Holding? && tx.job.RotateJob?)
  }

  predicate Open(tx: Tx) { !tx.phase.Committed? && !tx.phase.Failed? }

  predicate ReadyToCommit(tx: Tx) {
    if tx.job.FlagJob? then tx.phase.Holding? else tx.phase.Inserted?
  }

  /** The atomic table operation a transaction that is ready to commit stands for. */
  function OpOf(tx: Tx): (op: Op)
    requires ReadyToCommit(tx)
  {
    match tx.job
    case RotateJob(key, grace, compromised) => Rotate(tx.phase.version, key, grace, compromised, tx.now)
    case FlagJob(version, change) => Flag(version, change, tx.now)
    case InitJob(key) => Init(tx.phase.version, key)
  }

  predicate AcceptedJob(job: Job) {
    match job
    case RotateJob(key, grace, compromised) => Accepted(Rotate(0, key, grace, compromised, 0))
    case FlagJob(version, change) => Accepted(Flag(version, change, 0))
    case InitJob(key) => Accepted(Init(0, key))
  }

  // ------------------------------------------------------------------ the statements

  datatype Label =
    | Begin(id: TxId, job: Job)
    | Scan(id: TxId, candidate: uint32)
    | Lock(id: TxId)
    | Insert(id: TxId)
    | Commit(id: TxId)
    | Abort(id: TxId)
    | Tick(d: nat)

  /** The first statement, on the committed rows it starts from. For a rotation
      `candidate` is an active row if there is one. */
  ghost predicate ScanResult(rows: Table, job: Job, candidate: uint32, phase: Phase) {
    match job
    case RotateJob(_, _, _) =>
      if SomeActive(rows) then candidate in rows && IsActive(rows[candidate]) && phase == Scanned(candidate)
      else phase == Failed(NoActiveKey)
    case FlagJob(version, _) =>
      phase == if version !in rows then Failed(NoSuchVersion)
               else if IsActive(rows[version]) then Failed(StillActive)
               else Scanned(version)
    case InitJob(_) =>
      phase == if rows != map[] then Failed(NoRows) else Scanned(0)
  }

  /** The UPDATE once it has the row lock: the WHERE clause is evaluated again on
      the latest committed version of the row. */
  function LockResult(rows: Table, tx: Tx, candidate: uint32): (phase: Phase) {
    match tx.job
    case RotateJob(_, grace, compromised) =>
      if candidate !in rows || !IsActive(rows[candidate]) then Failed(NoActiveKey)
      else
        var row := RetiredRow(rows[candidate], tx.now, grace, compromised);
        if RowOk(row) then Holding(candidate, row) else Failed(CheckViolation)
    case FlagJob(_, change) =>
      if candidate !in rows || IsActive(rows[candidate]) then Failed(NoRows)
      else
        var row := FlaggedRow(rows[candidate], change, tx.now);
        if RowOk(row) then Holding(candidate, row) else Failed(CheckViolation)
    case InitJob(_) => Failed(Aborted)
  }

  /** The INSERT, once no other transaction has the active slot in flux. The
      rotation's own retired row no longer occupies the one-active index. */
  ghost function InsertResult(rows: Table, tx: Tx, version: int): (phase: Phase)
    requires 0 < version && (tx.job.RotateJob? || tx.job.InitJob?)
  {
    var key := tx.job.key;
    if version > MAX_VERSION then Failed(Aborted)
    else if KeyInUse(rows, key) || SomeActive(rows - Writes(tx).Keys) then
      Failed(if tx.job.InitJob? then NoRows else UniqueViolation)
    else Inserted(Writes(tx), version, FreshRow(key))
  }

  ghost predicate RowLockFree(s: State, id: TxId, version: uint32) {
    forall other | other in s.txs && other != id :: version !in Writes(s.txs[other])
  }

  ghost predicate SlotFree(s: State, id: TxId) {
    forall other | other in s.txs && other != id :: !HoldsActiveSlot(s.txs[other])
  }

  function SetPhase(s: State, id: TxId, phase: Phase): (s': State)
    requires id in s.txs
  {
    s.(txs := s.txs[id := s.txs[id].(phase := phase)])
  }

  ghost predicate Step(s: State, l: Label, s': State) {
    match l
    case Begin(id, job) =>
      id !in s.txs && AcceptedJob(job) && s' == s.(txs := s.txs[id := Tx(job, s.clock, Begun)])
    case Scan(id, candidate) =>
      && id in s.txs && s.txs[id].phase.Begun?
      && exists phase :: ScanResult(s.rows, s.txs[id].job, candidate, phase) && s' == SetPhase(s, id, phase)
    case Lock(id) =>
      && id in s.txs && s.txs[id].phase.Scanned? && !s.txs[id].job.InitJob?
      && var candidate := s.txs[id].phase.candidate;
         RowLockFree(s, id, candidate) && s' == SetPhase(s, id, LockResult(s.rows, s.txs[id], candidate))
    case Insert(id) =>
      && id in s.txs && s.nextVersion > 0 && SlotFree(s, id)
      && (if s.txs[id].job.RotateJob? then s.txs[id].phase.Holding?
          else s.txs[id].job.InitJob? && s.txs[id].phase.Scanned?)
      && var s1 := SetPhase(s, id, InsertResult(s.rows, s.txs[id], s.nextVersion));
         s' == if s.nextVersion > MAX_VERSION then s1 else s1.(nextVersion := s.nextVersion + 1)
    case Commit(id) =>
      && id in s.txs && ReadyToCommit(s.txs[id])
      && s' == SetPhase(s, id, Phase.Committed).(
                 rows := s.rows + Writes(s.txs[id]),
                 inits := s.inits + if s.txs[id].job.InitJob? then 1 else 0,
                 rotations := s.rotations + if s.txs[id].job.RotateJob? then 1 else 0)
    case Abort(id) =>
      id in s.txs && Open(s.txs[id]) && s' == SetPhase(s, id, Failed(Aborted))
    case Tick(d) => s' == s.(clock := s.clock + d)
  }

  // ------------------------------------------------------------------ the invariant

  /** What holds of one transaction whatever the others do meanwhile. */
  ghost predicate TxInv(rows: Table, nextVersion: int, tx: Tx) {
    && AcceptedJob(tx.job)
    && match tx.phase
       case Holding(version, row) =>
         && version in rows
         && (match tx.job
             case RotateJob(_, grace, compromised) =>
               IsActive(rows[version]) && row == RetiredRow(rows[version], tx.now, grace, compromised)
             case FlagJob(v, change) =>
               && v == version && !IsActive(rows[version])
               && row == FlaggedRow(rows[version], change, tx.now) && RowOk(row)
             case InitJob(_) => false)
       case Inserted(held, version, row) =>
         && 0 < version < nextVersion && version <= MAX_VERSION
         && (forall v | v in rows :: v < version)
         && (match tx.job
             case RotateJob(key, grace, compromised) =>
               && row == FreshRow(key) && !KeyInUse(rows, key)
               && exists a :: && a in rows && IsActive(rows[a])
                              && held == map[a := RetiredRow(rows[a], tx.now, grace, compromised)]
             case FlagJob(_, _) => false
             case InitJob(key) => row == FreshRow(key) && held == map[] && rows == map[])
       case Scanned(candidate) => tx.job.FlagJob? ==> candidate == tx.job.version
       case _ => true
  }

  ghost predicate LocksDisjoint(txs: map<TxId, Tx>) {
    forall i, j | i in txs && j in txs && i != j :: Writes(txs[i]).Keys !! Writes(txs[j]).Keys
  }

  ghost predicate OneSlotHolder(txs: map<TxId, Tx>) {
    forall i, j | i in txs && j in txs && HoldsActiveSlot(txs[i]) && HoldsActiveSlot(txs[j]) :: i == j
  }

  ghost predicate Counted(s: State) {
    |s.rows| == s.inits + s.rotations && s.inits <= 1 && (s.inits == 0 <==> s.rows == map[])
  }

  ghost predicate Inv(s: State) {
    && TableInv(s.rows)
    && 0 < s.nextVersion && (forall v | v in s.rows :: v < s.nextVersion)
    && (forall id | id in s.txs :: TxInv(s.rows, s.nextVersion, s.txs[id]))
    && LocksDisjoint(s.txs) && OneSlotHolder(s.txs) && Counted(s)
  }

  ghost predicate Init0(s: State) {
    s.rows == map[] && s.nextVersion == 1 && s.txs == map[] && s.inits == 0 && s.rotations == 0
  }

  // ------------------------------------------------------------------ commits are atomic operations

  /** A commit installs exactly what the whole transaction, run alone at that
      instant, would: nothing another transaction did in between shows through. */
  lemma CommitIsAtomic(rows: Table, nextVersion: int, tx: Tx)
    requires TableInv(rows) && TxInv(rows, nextVersion, tx) && ReadyToCommit(tx)
    ensures TableStep(rows, OpOf(tx), rows + Writes(tx))
  {
    match tx.job
    case RotateJob(_, _, _) => RotateCommitIsAtomic(rows, nextVersion, tx);
    case FlagJob(_, _) =>
      assert rows + Writes(tx) == Apply(rows, OpOf(tx));
    case InitJob(_) =>
      assert rows + Writes(tx) == Apply(rows, OpOf(tx));
  }

  lemma RotateCommitIsAtomic(rows: Table, nextVersion: int, tx: Tx)
    requires TableInv(rows) && TxInv(rows, nextVersion, tx) && tx.job.RotateJob? && tx.phase.Inserted?
    ensures TableStep(rows, OpOf(tx), rows + Writes(tx))
  {
    var a := HeldRow(rows, nextVersion, tx);
    RotateWrites(rows, tx, a);
  }

  lemma HeldRow(rows: Table, nextVersion: int, tx: Tx) returns (a: uint32)
    requires TableInv(rows) && TxInv(rows, nextVersion, tx) && tx.job.RotateJob? && tx.phase.Inserted?
    ensures IsTheActive(rows, a) && tx.phase.held == map[a := RetiredRow(rows[a], tx.now, tx.job.grace, tx.job.compromised)]
  {
    a :| a in rows && IsActive(rows[a])
         && tx.phase.held == map[a := RetiredRow(rows[a], tx.now, tx.job.grace, tx.job.compromised)];
    OnlyOneActive(rows, a);
  }

  lemma RotateWrites(rows: Table, tx: Tx, a: uint32)
    requires IsTheActive(rows, a) && tx.job.RotateJob? && tx.phase.Inserted?
    requires tx.phase.held == map[a := RetiredRow(rows[a], tx.now, tx.job.grace, tx.job.compromised)]
    requires tx.phase.row == FreshRow(tx.job.key)
    ensures rows + Writes(tx) == Apply(rows, OpOf(tx))
  {
  }

  lemma StepTable(s: State, l: Label, s': State)
    requires Inv(s) && Step(s, l, s')
    ensures TableInv(s'.rows) && Later(s.rows, s'.rows)
    ensures s'.rows == s.rows || (l.Commit? && TableStep(s.rows, OpOf(s.txs[l.id]), s'.rows))
  {
    hide TableInv, TxInv, LocksDisjoint, OneSlotHolder, Counted, TableStep;
    if l.Commit? {
      CommitIsAtomic(s.rows, s.nextVersion, s.txs[l.id]);
      StepKeepsInv(s.rows, OpOf(s.txs[l.id]), s'.rows);
      StepIsLater(s.rows, OpOf(s.txs[l.id]), s'.rows);
    }
  }

  // ------------------------------------------------------------------ preservation

  /** A commit leaves alone the row another transaction holds. */
  lemma OtherHolding(rows: Table, n: int, tx: Tx, other: Tx)
    requires TxInv(rows, n, other) && other.phase.Holding? && Writes(tx).Keys !! Writes(other).Keys
    ensures TxInv(rows + Writes(tx), n, other)
  {
    assert other.phase.version in Writes(other);
  }

  /** A commit of a flag change leaves alone a transaction that has inserted. */
  lemma OtherInserted(rows: Table, n: int, tx: Tx, other: Tx)
    requires TxInv(rows, n, tx) && tx.job.FlagJob? && tx.phase.Holding?
    requires TxInv(rows, n, other) && other.phase.Inserted? && Writes(tx).Keys !! Writes(other).Keys
    ensures TxInv(rows + Writes(tx), n, other)
  {
    var rows' := rows + Writes(tx);
    assert rows'.Keys == rows.Keys && forall v | v in rows :: rows'[v].key == rows[v].key;
    if other.job.RotateJob? {
      var a :| a in rows && IsActive(rows[a])
               && other.phase.held == map[a := RetiredRow(rows[a], other.now, other.job.grace, other.job.compromised)];
      assert a in Writes(other);
      assert rows'[a] == rows[a];
    }
  }

  lemma OthersUnaffected(s: State, id: TxId, other: TxId)
    requires Inv(s) && id in s.txs && ReadyToCommit(s.txs[id]) && other in s.txs && other != id
    ensures TxInv(s.rows + Writes(s.txs[id]), s.nextVersion, s.txs[other])
  {
    var tx, o := s.txs[id], s.txs[other];
    assert Writes(tx).Keys !! Writes(o).Keys;
    if o.phase.Holding? {
      hide TableInv, Inv;
      OtherHolding(s.rows, s.nextVersion, tx, o);
    } else if o.phase.Inserted? {
      hide TableInv, TxInv, Inv;
      assert !HoldsActiveSlot(tx);
      OtherInserted(s.rows, s.nextVersion, tx, o);
    } else {
      assert TxInv(s.rows, s.nextVersion, o);
    }
  }

  lemma UnionCounts(rows: Table, w: Table, extra: set<uint32>)
    requires extra !! rows.Keys && w.Keys + rows.Keys == extra + rows.Keys
    ensures |rows + w| == |rows| + |extra|
  {
    assert (rows + w).Keys == rows.Keys + extra;
    assert |rows + w| == |(rows + w).Keys| && |rows| == |rows.Keys|;
  }

  lemma CommitExtends(rows: Table, n: int, tx: Tx) returns (extra: set<uint32>)
    requires TxInv(rows, n, tx) && ReadyToCommit(tx)
    ensures extra == if tx.job.FlagJob? then {} else {tx.phase.version}
    ensures extra !! rows.Keys && Writes(tx).Keys + rows.Keys == extra + rows.Keys
    ensures tx.phase.version in Writes(tx)
    ensures if tx.job.InitJob? then rows == map[] else exists v :: v in rows
  {
    extra := if tx.job.FlagJob? then {} else {tx.phase.version};
    if tx.job.RotateJob? {
      var a :| a in rows && IsActive(rows[a])
               && tx.phase.held == map[a := RetiredRow(rows[a], tx.now, tx.job.grace, tx.job.compromised)];
    }
  }

  lemma CommitCounts(rows: Table, n: int, tx: Tx)
    requires TxInv(rows, n, tx) && ReadyToCommit(tx)
    ensures |rows + Writes(tx)| == |rows| + if tx.job.FlagJob? then 0 else 1
    ensures rows + Writes(tx) != map[]
    ensures if tx.job.InitJob? then rows == map[] else rows != map[]
  {
    hide TxInv, Writes;
    var extra := CommitExtends(rows, n, tx);
    UnionCounts(rows, Writes(tx), extra);
    assert tx.phase.version in rows + Writes(tx);
  }

  lemma CommitVersions(rows: Table, n: int, tx: Tx)
    requires TxInv(rows, n, tx) && ReadyToCommit(tx) && forall v | v in rows :: v < n
    ensures forall v | v in rows + Writes(tx) :: v < n
  {
    hide KeyInUse, AcceptedJob, RetiredRow, FlaggedRow, RowOk;
  }

  /** A transaction that has written nothing, or nothing any more, is in no one's way. */
  lemma IdleTxKeepsLocks(txs: map<TxId, Tx>, id: TxId, tx: Tx)
    requires LocksDisjoint(txs) && OneSlotHolder(txs) && Writes(tx) == map[] && !HoldsActiveSlot(tx)
    ensures LocksDisjoint(txs[id := tx]) && OneSlotHolder(txs[id := tx])
  {
    hide Writes, HoldsActiveSlot;
  }

  lemma CommittedInv(s: State, id: TxId, s': State)
    requires Inv(s) && Step(s, Commit(id), s')
    ensures TxInv(s'.rows, s'.nextVersion, s'.txs[id])
  {
    hide TableInv, LocksDisjoint, OneSlotHolder, Counted;
    assert TxInv(s.rows, s.nextVersion, s.txs[id]);
  }

  lemma CommitKeepsOthers(s: State, id: TxId, s': State)
    requires Inv(s) && Step(s, Commit(id), s')
    ensures forall other | other in s'.txs :: TxInv(s'.rows, s'.nextVersion, s'.txs[other])
  {
    hide Inv, TableInv, TxInv, Writes;
    forall other | other in s'.txs ensures TxInv(s'.rows, s'.nextVersion, s'.txs[other]) {
      if other != id {
        OthersUnaffected(s, id, other);
      } else {
        CommittedInv(s, id, s');
      }
    }
  }

  lemma CommitKeepsInv(s: State, id: TxId, s': State)
    requires Inv(s) && Step(s, Commit(id), s')
    ensures Inv(s')
  {
    hide TableInv, TxInv, Later, TableStep, LocksDisjoint, OneSlotHolder;
    StepTable(s, Commit(id), s');
    CommitCounts(s.rows, s.nextVersion, s.txs[id]);
    CommitVersions(s.rows, s.nextVersion, s.txs[id]);
    CommitKeepsOthers(s, id, s');
    IdleTxKeepsLocks(s.txs, id, s'.txs[id]);
  }

  /** Steps that leave the table alone and move one transaction. */
  lemma PhaseChangeKeepsInv(s: State, id: TxId, phase: Phase, n: int)
    requires Inv(s) && id in s.txs && n >= s.nextVersion
    requires TxInv(s.rows, n, s.txs[id].(phase := phase))
    requires forall other | other in s.txs && other != id ::
               Writes(s.txs[other]).Keys !! Writes(s.txs[id].(phase := phase)).Keys
    requires HoldsActiveSlot(s.txs[id].(phase := phase)) ==> HoldsActiveSlot(s.txs[id]) || SlotFree(s, id)
    ensures Inv(SetPhase(s, id, phase).(nextVersion := n))
  {
    hide TableInv;
    var s' := SetPhase(s, id, phase).(nextVersion := n);
    forall other | other in s'.txs ensures TxInv(s'.rows, n, s'.txs[other]) {
      if other != id {
        SequenceMayAdvance(s.rows, s.nextVersion, n, s.txs[other]);
      }
    }
    hide TxInv, Writes, HoldsActiveSlot;
    assert LocksDisjoint(s'.txs);
    assert OneSlotHolder(s'.txs);
  }

  lemma SequenceMayAdvance(rows: Table, n: int, n': int, tx: Tx)
    requires TxInv(rows, n, tx) && n <= n'
    ensures TxInv(rows, n', tx)
  {
  }

  /** Whoever holds the slot while an active row exists holds that row's lock. */
  lemma SlotHolderLocksActive(rows: Table, n: int, tx: Tx, a: uint32)
    requires TableInv(rows) && TxInv(rows, n, tx) && a in rows && IsActive(rows[a]) && HoldsActiveSlot(tx)
    ensures a in Writes(tx)
  {
    OnlyOneActive(rows, a);
  }

  lemma LockResultInv(rows: Table, n: int, tx: Tx)
    requires TxInv(rows, n, tx) && tx.phase.Scanned? && !tx.job.InitJob?
    ensures TxInv(rows, n, tx.(phase := LockResult(rows, tx, tx.phase.candidate)))
  {
  }

  lemma LockKeepsInv(s: State, id: TxId, s': State)
    requires Inv(s) && Step(s, Lock(id), s')
    ensures Inv(s')
  {
    var tx := s.txs[id];
    var phase := LockResult(s.rows, tx, tx.phase.candidate);
    LockResultInv(s.rows, s.nextVersion, tx);
    forall other | other in s.txs && other != id
      ensures Writes(s.txs[other]).Keys !! Writes(tx.(phase := phase)).Keys
      ensures phase.Holding? && tx.job.RotateJob? ==> !HoldsActiveSlot(s.txs[other])
    {
      if phase.Holding? && tx.job.RotateJob? && HoldsActiveSlot(s.txs[other]) {
        SlotHolderLocksActive(s.rows, s.nextVersion, s.txs[other], phase.version);
      }
    }
    hide TableInv, TxInv, Inv;
    PhaseChangeKeepsInv(s, id, phase, s.nextVersion);
    assert s' == SetPhase(s, id, phase).(nextVersion := s.nextVersion);
  }

  lemma InsertResultInv(rows: Table, n: int, tx: Tx)
    requires TableInv(rows) && TxInv(rows, n, tx) && 0 < n && (forall v | v in rows :: v < n)
    requires if tx.job.RotateJob? then tx.phase.Holding? else tx.job.InitJob? && tx.phase.Scanned?
    ensures TxInv(rows, n + 1, tx.(phase := InsertResult(rows, tx, n)))
    ensures n > MAX_VERSION ==> TxInv(rows, n, tx.(phase := InsertResult(rows, tx, n)))
  {
    if tx.job.InitJob? && rows != map[] {
      assert IsTheActive(rows, ActiveVersion(rows));
      assert rows - Writes(tx).Keys == rows;
    }
  }

  lemma InsertKeepsInv(s: State, id: TxId, s': State)
    requires Inv(s) && Step(s, Insert(id), s')
    ensures Inv(s')
  {
    var tx := s.txs[id];
    var phase := InsertResult(s.rows, tx, s.nextVersion);
    var n := if s.nextVersion > MAX_VERSION then s.nextVersion else s.nextVersion + 1;
    InsertResultInv(s.rows, s.nextVersion, tx);
    forall other | other in s.txs && other != id
      ensures Writes(s.txs[other]).Keys !! Writes(tx.(phase := phase)).Keys
    {
      OtherLocksOldRow(s.rows, s.nextVersion, s.txs[other]);
      assert Writes(s.txs[other]).Keys !! Writes(tx).Keys;
    }
    hide TableInv, TxInv, Inv;
    PhaseChangeKeepsInv(s, id, phase, n);
    assert s' == SetPhase(s, id, phase).(nextVersion := n);
  }

  lemma OtherLocksOldRow(rows: Table, n: int, tx: Tx)
    requires TxInv(rows, n, tx) && !HoldsActiveSlot(tx) && forall v | v in rows :: v < n
    ensures n !in Writes(tx)
  {
  }

  lemma ScanResultInv(rows: Table, n: int, tx: Tx, candidate: uint32, phase: Phase)
    requires TxInv(rows, n, tx) && ScanResult(rows, tx.job, candidate, phase)
    ensures TxInv(rows, n, tx.(phase := phase)) && Writes(tx.(phase := phase)) == map[]
    ensures !HoldsActiveSlot(tx.(phase := phase))
  {
    hide RowOk, AcceptedJob, KeyInUse;
  }

  lemma ScanKeepsInv(s: State, id: TxId, candidate: uint32, s': State)
    requires Inv(s) && Step(s, Scan(id, candidate), s')
    ensures Inv(s')
  {
    hide TableInv, TxInv, ScanResult, LocksDisjoint, OneSlotHolder, Counted;
    var phase :| ScanResult(s.rows, s.txs[id].job, candidate, phase) && s' == SetPhase(s, id, phase);
    ScanResultInv(s.rows, s.nextVersion, s.txs[id], candidate, phase);
    PhaseChangeKeepsInv(s, id, phase, s.nextVersion);
    assert s' == SetPhase(s, id, phase).(nextVersion := s.nextVersion);
  }

  lemma AbortKeepsInv(s: State, id: TxId, s': State)
    requires Inv(s) && Step(s, Abort(id), s')
    ensures Inv(s')
  {
    assert TxInv(s.rows, s.nextVersion, s.txs[id].(phase := Failed(Aborted))) by {
      assert TxInv(s.rows, s.nextVersion, s.txs[id]);
    }
    hide TableInv, TxInv, Inv;
    PhaseChangeKeepsInv(s, id, Failed(Aborted), s.nextVersion);
    assert s' == SetPhase(s, id, Failed(Aborted)).(nextVersion := s.nextVersion);
  }

  lemma BegunInv(rows: Table, n: int, tx: Tx)
    requires tx.phase.Begun? && AcceptedJob(tx.job)
    ensures TxInv(rows, n, tx) && Writes(tx) == map[] && !HoldsActiveSlot(tx)
  {
  }

  lemma BeginKeepsInv(s: State, id: TxId, job: Job, s': State)
    requires Inv(s) && Step(s, Begin(id, job), s')
    ensures Inv(s')
  {
    hide TableInv, LocksDisjoint, OneSlotHolder;
    BegunInv(s.rows, s.nextVersion, s'.txs[id]);
    IdleTxKeepsLocks(s.txs, id, s'.txs[id]);
    forall other | other in s'.txs ensures TxInv(s'.rows, s'.nextVersion, s'.txs[other]) {
      hide TxInv;
      if other != id {
        assert s'.txs[other] == s.txs[other];
      }
    }
  }

  lemma StepKeepsInvariant(s: State, l: Label, s': State)
    requires Inv(s) && Step(s, l, s')
    ensures Inv(s')
  {
    match l
    case Begin(id, job) => hide Inv; BeginKeepsInv(s, id, job, s');
    case Scan(id, candidate) => hide Inv; ScanKeepsInv(s, id, candidate, s');
    case Lock(id) => hide Inv; LockKeepsInv(s, id, s');
    case Insert(id) => hide Inv; InsertKeepsInv(s, id, s');
    case Commit(id) => hide Inv; CommitKeepsInv(s, id, s');
    case Abort(id) => hide Inv; AbortKeepsInv(s, id, s');
    case Tick(d) => hide TableInv, TxInv;
  }

  // ------------------------------------------------------------------ whole runs

  ghost predicate Next(s: State, s': State) { exists l :: Step(s, l, s') }

  ghost predicate IsRun(run: seq<State>) {
    |run| > 0 && Init0(run[0]) && forall i | 0 < i < |run| :: NextAt(run, i)
  }

  ghost predicate NextAt(run: seq<State>, i: nat)
    requires 0 < i < |run|
  {
    Next(run[i - 1], run[i])
  }

  lemma EmptyTableInv(s: State)
    requires Init0(s)
    ensures Inv(s)
  {
  }

  lemma {:induction false} RunInvariant(run: seq<State>, i: nat)
    requires IsRun(run) && i < |run|
    ensures Inv(run[i])
  {
    hide Inv, Step, Init0;
    if i == 0 {
      EmptyTableInv(run[0]);
    } else {
      RunInvariant(run, i - 1);
      assert NextAt(run, i);
      var l :| Step(run[i - 1], l, run[i]);
      StepKeepsInvariant(run[i - 1], l, run[i]);
    }
  }

  ghost predicate AtomicNext(t: Table, t': Table) { exists op :: TableStep(t, op, t') }

  /** The committed states of a run, with repetitions, are a run of atomic
      operations: this is what lets the other modules treat each transaction as
      one instant. */
  lemma RunRefinesAtomic(run: seq<State>, i: nat)
    requires IsRun(run) && 0 < i < |run|
    ensures run[i].rows == run[i - 1].rows || AtomicNext(run[i - 1].rows, run[i].rows)
    ensures TableInv(run[i].rows) && Later(run[i - 1].rows, run[i].rows)
  {
    hide Inv, TableInv, Later, Step, TableStep;
    RunInvariant(run, i - 1);
    assert NextAt(run, i);
    var l :| Step(run[i - 1], l, run[i]);
    StepTable(run[i - 1], l, run[i]);
  }

  lemma {:induction false} RunIsLater(run: seq<State>, i: nat, j: nat)
    requires IsRun(run) && i <= j < |run|
    ensures Later(run[i].rows, run[j].rows)
    decreases j - i
  {
    if i < j {
      hide TableInv, Later, TableStep, AtomicNext, Next, Init0;
      RunIsLater(run, i, j - 1);
      RunRefinesAtomic(run, j);
      LaterTransitive(run[i].rows, run[j - 1].rows, run[j].rows);
    }
  }

  /** Over any interleaving: every committed state has, once bootstrapped, exactly
      one active row and it has the highest version; flags appear only on retired
      rows; there is one row per committed rotation plus the first; and nothing
      later undoes a retirement, a key or the first compromise time. */
  lemma RunKeepsTable(run: seq<State>, i: nat, j: nat)
    requires IsRun(run) && i <= j < |run|
    ensures TableInv(run[i].rows) && Later(run[i].rows, run[j].rows)
    ensures |run[j].rows| == (if run[j].rows == map[] then 0 else 1) + run[j].rotations
  {
    hide TableInv, TxInv, Later, LocksDisjoint, OneSlotHolder, IsRun;
    RunInvariant(run, i);
    RunInvariant(run, j);
    RunIsLater(run, i, j);
  }

  /** A transaction may abort wherever it is. */
  lemma AbortStrikesAnywhere(s: State, id: TxId)
    requires id in s.txs && Open(s.txs[id])
    ensures exists s' :: Step(s, Abort(id), s')
  {
    assert Step(s, Abort(id), SetPhase(s, id, Failed(Aborted)));
  }

  /** With no other transaction in the way a rotation of fresh material runs
      through: its five statements exist, and they commit exactly the rotation. */
  lemma LoneRotationCommits(s: State, id: TxId, job: Job) returns (run: seq<State>)
    requires Inv(s) && id !in s.txs && job.RotateJob? && AcceptedJob(job)
    requires s.rows != map[] && !KeyInUse(s.rows, job.key) && s.nextVersion <= MAX_VERSION
    requires forall other | other in s.txs :: Writes(s.txs[other]) == map[] && !HoldsActiveSlot(s.txs[other])
    ensures |run| == 6 && run[0] == s && forall i | 0 < i < 6 :: NextAt(run, i)
    ensures run[5].rows == Apply(s.rows, Rotate(s.nextVersion, job.key, job.grace, job.compromised, s.clock))
    ensures run[5] == s.(rows := run[5].rows, nextVersion := s.nextVersion + 1, rotations := s.rotations + 1,
                         txs := s.txs[id := Tx(job, s.clock, Committed)])
  {
    hide Step, Inv, Writes, HoldsActiveSlot, RowOk, AcceptedJob, KeyInUse, Apply;
    InvMeansTable(s);
    var a := ActiveVersion(s.rows);
    var tx := Tx(job, s.clock, Begun);
    var retired := RetiredRow(s.rows[a], s.clock, job.grace, job.compromised);
    var op := Rotate(s.nextVersion, job.key, job.grace, job.compromised, s.clock);
    RetiredActiveRowOk(s.rows, a, job, s.clock);
    hide TableInv, RetiredRow;
    var s1 := s.(txs := s.txs[id := tx]);
    var s2 := SetPhase(s1, id, Scanned(a));
    var s3 := SetPhase(s2, id, Phase.Holding(a, retired));
    var phase := Inserted(map[a := retired], s.nextVersion, FreshRow(job.key));
    var s4 := SetPhase(s3, id, phase).(nextVersion := s.nextVersion + 1);
    var s5 := SetPhase(s4, id, Phase.Committed).(rows := s.rows + Writes(s4.txs[id]), rotations := s.rotations + 1);
    run := [s, s1, s2, s3, s4, s5];
    BeginStarts(s, id, job, s1);
    ScanFinds(s1, id, a, s2);
    LockTakes(s2, id, a, s3);
    InsertLands(s3, id, a, s4);
    CommitEnds(s4, id, s5);
    RotateWrites(s.rows, s4.txs[id], a);
    FiveSteps(run, Begin(id, job), Scan(id, a), Lock(id), Insert(id), Commit(id));
  }

  lemma FiveSteps(run: seq<State>, l1: Label, l2: Label, l3: Label, l4: Label, l5: Label)
    requires |run| == 6 && Step(run[0], l1, run[1]) && Step(run[1], l2, run[2]) && Step(run[2], l3, run[3])
    requires Step(run[3], l4, run[4]) && Step(run[4], l5, run[5])
    ensures forall i | 0 < i < 6 :: NextAt(run, i)
  {
    hide Step;
    assert NextAt(run, 1) && NextAt(run, 2) && NextAt(run, 3) && NextAt(run, 4) && NextAt(run, 5);
  }

  lemma InvMeansTable(s: State)
    requires Inv(s)
    ensures TableInv(s.rows) && s.nextVersion > 0
  {
  }

  lemma RetiredActiveRowOk(rows: Table, a: uint32, job: Job, now: Time)
    requires TableInv(rows) && a in rows && job.RotateJob? && AcceptedJob(job)
    ensures RowOk(RetiredRow(rows[a], now, job.grace, job.compromised))
  {
    assert RowOk(rows[a]);
    RetiredRowOk(rows[a], Rotate(0, job.key, job.grace, job.compromised, now));
  }

  lemma BeginStarts(s: State, id: TxId, job: Job, s': State)
    requires id !in s.txs && AcceptedJob(job) && s' == s.(txs := s.txs[id := Tx(job, s.clock, Begun)])
    ensures Step(s, Begin(id, job), s')
  {
  }

  lemma CommitEnds(s: State, id: TxId, s': State)
    requires id in s.txs && s.txs[id].job.RotateJob? && s.txs[id].phase.Inserted?
    requires s' == SetPhase(s, id, Phase.Committed).(rows := s.rows + Writes(s.txs[id]), rotations := s.rotations + 1)
    ensures Step(s, Commit(id), s')
  {
  }

  lemma ScanFinds(s: State, id: TxId, a: uint32, s': State)
    requires id in s.txs && s.txs[id].phase.Begun? && s.txs[id].job.RotateJob?
    requires a in s.rows && IsActive(s.rows[a]) && s' == SetPhase(s, id, Scanned(a))
    ensures Step(s, Scan(id, a), s')
  {
    assert ScanResult(s.rows, s.txs[id].job, a, Scanned(a));
  }

  lemma LockTakes(s: State, id: TxId, a: uint32, s': State)
    requires id in s.txs && s.txs[id].job.RotateJob? && s.txs[id].phase == Scanned(a) && a in s.rows && IsActive(s.rows[a])
    requires var tx := s.txs[id];
             var row := RetiredRow(s.rows[a], tx.now, tx.job.grace, tx.job.compromised);
             RowOk(row) && s' == SetPhase(s, id, Phase.Holding(a, row))
    requires forall other | other in s.txs && other != id :: Writes(s.txs[other]) == map[]
    ensures Step(s, Lock(id), s')
  {
  }

  lemma InsertLands(s: State, id: TxId, a: uint32, s': State)
    requires id in s.txs && s.txs[id].job.RotateJob? && s.txs[id].phase.Holding? && s.txs[id].phase.version == a
    requires IsTheActive(s.rows, a) && !KeyInUse(s.rows, s.txs[id].job.key) && 0 < s.nextVersion <= MAX_VERSION
    requires forall other | other in s.txs && other != id :: !HoldsActiveSlot(s.txs[other])
    requires var tx := s.txs[id];
             s' == SetPhase(s, id, Inserted(map[a := tx.phase.row], s.nextVersion, FreshRow(tx.job.key))).(
                     nextVersion := s.nextVersion + 1)
    ensures Step(s, Insert(id), s')
  {
    var tx := s.txs[id];
    assert Writes(tx) == map[a := tx.phase.row];
    assert !SomeActive(s.rows - {a});
    assert InsertResult(s.rows, tx, s.nextVersion) == Inserted(map[a := tx.phase.row], s.nextVersion, FreshRow(tx.job.key));
  }
}
