/** Concurrent reloads of one Cipher: any number of calls queue on the reload
    mutex while the key table changes and the clock runs. A call that finds a
    snapshot whose load began after it entered returns without a query; a load
    may fail, and one that fails under a cancelled context gives its attempt back. */
module Reloads {
  import opened Wrappers
  import opened Blobs
  import opened KeyTables

  type Tid = nat

  /** `since` is the latest table state when the call entered. */
  datatype Call =
    | Waiting(entered: Time, since: nat)
    | Owner(entered: Time, since: nat)
    | Loading(entered: Time, since: nat, startedAt: Time, previous: Time)
    | Loaded(entered: Time, since: nat, keys: KeySet, src: nat)
    | Returned(ok: bool, since: nat)

  /** `src` is the table state the held snapshot was loaded from. */
  datatype State = State(tables: seq<Table>, clock: Time, keys: KeySet, src: nat, lastLoadAttempt: Time,
                         mutex: Option<Tid>, calls: map<Tid, Call>)

  datatype Label =
    | Tick(d: nat)
    | ChangeTable(op: Op)
    | Enter(c: Tid)
    | Lock(c: Tid)
    | Skip(c: Tid)
    | Start(c: Tid)
    | Query(c: Tid)
    | Fail(c: Tid, cancelled: bool)
    | Install(c: Tid)

  function Latest(s: State): (i: int) { |s.tables| - 1 }

  function SetCall(s: State, c: Tid, call: Call): (s': State) { s.(calls := s.calls[c := call]) }

  ghost predicate Step(s: State, l: Label, s': State)
    requires |s.tables| > 0 && TablesInv(s.tables)
  {
    match l
    case Tick(d) => s' == s.(clock := s.clock + d)
    case ChangeTable(op) =>
      exists t :: TableStep(s.tables[Latest(s)], op, t) && s' == s.(tables := s.tables + [t])
    case Enter(c) =>
      c !in s.calls && s' == SetCall(s, c, Waiting(s.clock, Latest(s)))
    case Lock(c) =>
      && c in s.calls && s.calls[c].Waiting? && s.mutex.None?
      && s' == SetCall(s, c, Owner(s.calls[c].entered, s.calls[c].since)).(mutex := Some(c))
    case Skip(c) =>
      && c in s.calls && s.calls[c].Owner? && s.keys.loadedAt > s.calls[c].entered
      && s' == SetCall(s, c, Returned(true, s.calls[c].since)).(mutex := None)
    case Start(c) =>
      && c in s.calls && s.calls[c].Owner? && s.keys.loadedAt <= s.calls[c].entered
      && s' == SetCall(s, c, Loading(s.calls[c].entered, s.calls[c].since, s.clock, s.lastLoadAttempt)).(
                 lastLoadAttempt := s.clock)
    case Query(c) =>
      && c in s.calls && s.calls[c].Loading?
      && s' == SetCall(s, c, Loaded(s.calls[c].entered, s.calls[c].since,
                                    SnapshotOf(s.tables[Latest(s)], s.clock, s.calls[c].startedAt), Latest(s)))
    case Fail(c, cancelled) =>
      && c in s.calls && s.calls[c].Loading?
      && s' == SetCall(s, c, Returned(false, s.calls[c].since)).(
                 mutex := None,
                 lastLoadAttempt := if cancelled then s.calls[c].previous else s.lastLoadAttempt)
    case Install(c) =>
      && c in s.calls && s.calls[c].Loaded?
      && s' == SetCall(s, c, Returned(true, s.calls[c].since)).(
                 mutex := None, keys := s.calls[c].keys, src := s.calls[c].src)
  }

  // ------------------------------------------------------------------ the invariant

  /** `keys` is what some load of the table `t` installs. */
  ghost predicate TakenFrom(t: Table, keys: KeySet) {
    TableInv(t) && t != map[] && exists now :: keys == SnapshotOf(t, now, keys.loadedAt)
  }

  ghost predicate CallInv(s: State, c: Tid, call: Call) {
    && call.since < |s.tables|
    && (call.Returned? ==> call.ok ==> call.since <= s.src)
    && (!call.Returned? ==> call.entered <= s.clock && (call.entered < s.keys.loadedAt ==> call.since <= s.src))
    && (call.Owner? || call.Loading? || call.Loaded? ==> s.mutex == Some(c))
    && (call.Loading? ==> s.keys.loadedAt <= call.startedAt <= s.clock)
    && (call.Loaded? ==>
          && s.keys.loadedAt <= call.keys.loadedAt <= s.clock
          && s.src <= call.src && call.since <= call.src
          && call.src < |s.tables| && TakenFrom(s.tables[call.src], call.keys))
  }

  /** Whoever entered before a load began entered no later a table state than
      that load saw. */
  ghost predicate LoadsSeeEarlierCalls(calls: map<Tid, Call>) {
    forall c, d | c in calls && d in calls && calls[c].Loaded? && !calls[d].Returned?
                  && calls[d].entered < calls[c].keys.loadedAt :: calls[d].since <= calls[c].src
  }

  ghost predicate Inv(s: State) {
    && |s.tables| > 0 && TablesInv(s.tables)
    && s.keys.loadedAt <= s.clock && s.src < |s.tables| && TakenFrom(s.tables[s.src], s.keys)
    && (forall c | c in s.calls :: CallInv(s, c, s.calls[c]))
    && LoadsSeeEarlierCalls(s.calls)
  }

  /** What the constructor leaves: a snapshot of the table as it is. */
  ghost predicate Initial(s: State) {
    && |s.tables| > 0 && TablesInv(s.tables) && s.keys.loadedAt <= s.clock
    && s.src < |s.tables| && TakenFrom(s.tables[s.src], s.keys)
    && s.mutex.None? && s.calls == map[]
  }

  // ------------------------------------------------------------------ preservation

  lemma ChangeTableKeepsInv(s: State, op: Op, s': State)
    requires Inv(s) && |s.tables| > 0 && Step(s, ChangeTable(op), s')
    ensures Inv(s')
  {
    hide TablesInv, TakenFrom, TableStep, TableInv;
    var t :| TableStep(s.tables[Latest(s)], op, t) && s' == s.(tables := s.tables + [t]);
    ExtendTables(s.tables, op, t);
  }

  lemma TickKeepsInv(s: State, d: nat, s': State)
    requires Inv(s) && |s.tables| > 0 && Step(s, Tick(d), s')
    ensures Inv(s')
  {
    hide TablesInv, TakenFrom;
  }

  lemma EnterKeepsInv(s: State, c: Tid, s': State)
    requires Inv(s) && |s.tables| > 0 && Step(s, Enter(c), s')
    ensures Inv(s')
  {
    hide TablesInv, TakenFrom;
  }

  lemma LockKeepsInv(s: State, c: Tid, s': State)
    requires Inv(s) && |s.tables| > 0 && Step(s, Lock(c), s')
    ensures Inv(s')
  {
    hide TablesInv, TakenFrom;
    assert CallInv(s, c, s.calls[c]);
  }

  lemma SkipKeepsInv(s: State, c: Tid, s': State)
    requires Inv(s) && |s.tables| > 0 && Step(s, Skip(c), s')
    ensures Inv(s')
  {
    hide TablesInv, TakenFrom;
    assert CallInv(s, c, s.calls[c]);
  }

  lemma StartKeepsInv(s: State, c: Tid, s': State)
    requires Inv(s) && |s.tables| > 0 && Step(s, Start(c), s')
    ensures Inv(s')
  {
    hide TablesInv, TakenFrom;
    assert CallInv(s, c, s.calls[c]);
  }

  lemma QueryKeepsInv(s: State, c: Tid, s': State)
    requires Inv(s) && |s.tables| > 0 && Step(s, Query(c), s')
    ensures Inv(s')
  {
    hide TablesInv, TakenFrom, SnapshotOf;
    assert CallInv(s, c, s.calls[c]);
    LoadIsTaken(s.tables, Latest(s), s.clock, s.calls[c].startedAt);
  }

  lemma LoadIsTaken(tables: seq<Table>, i: nat, now: Time, loadedAt: Time)
    requires TablesInv(tables) && i < |tables|
    ensures TableInv(tables[i]) && tables[i] != map[]
    ensures SnapshotOf(tables[i], now, loadedAt).loadedAt == loadedAt
    ensures TakenFrom(tables[i], SnapshotOf(tables[i], now, loadedAt))
  {
    hide TableInv, Later;
  }

  lemma FailKeepsInv(s: State, c: Tid, cancelled: bool, s': State)
    requires Inv(s) && |s.tables| > 0 && Step(s, Fail(c, cancelled), s')
    ensures Inv(s')
  {
    hide TablesInv, TakenFrom;
    assert CallInv(s, c, s.calls[c]);
  }

  lemma InstallKeepsInv(s: State, c: Tid, s': State)
    requires Inv(s) && |s.tables| > 0 && Step(s, Install(c), s')
    ensures Inv(s')
  {
    hide TablesInv, TakenFrom;
    assert CallInv(s, c, s.calls[c]);
    forall d | d in s'.calls ensures CallInv(s', d, s'.calls[d]) {
      assert CallInv(s, d, s.calls[d]);
    }
  }

  lemma StepKeepsInv(s: State, l: Label, s': State)
    requires Inv(s) && |s.tables| > 0 && Step(s, l, s')
    ensures Inv(s')
  {
    hide Inv, Step;
    match l
    case Tick(d) => TickKeepsInv(s, d, s');
    case ChangeTable(op) => ChangeTableKeepsInv(s, op, s');
    case Enter(c) => EnterKeepsInv(s, c, s');
    case Lock(c) => LockKeepsInv(s, c, s');
    case Skip(c) => SkipKeepsInv(s, c, s');
    case Start(c) => StartKeepsInv(s, c, s');
    case Query(c) => QueryKeepsInv(s, c, s');
    case Fail(c, cancelled) => FailKeepsInv(s, c, cancelled, s');
    case Install(c) => InstallKeepsInv(s, c, s');
  }

  // ------------------------------------------------------------------ coherence

  lemma KeepsEntry(s: State, l: Label, s': State, c: Tid)
    requires |s.tables| > 0 && TablesInv(s.tables) && Step(s, l, s') && c in s.calls && c in s'.calls
    ensures s'.calls[c].since == s.calls[c].since
  {
    hide TablesInv, TableStep, SnapshotOf;
  }

  lemma ReturnedIsCoherent(s: State, c: Tid)
    requires Inv(s) && c in s.calls && s.calls[c].Returned? && s.calls[c].ok
    ensures s.calls[c].since <= s.src < |s.tables| && TakenFrom(s.tables[s.src], s.keys)
  {
    hide TablesInv, TakenFrom, LoadsSeeEarlierCalls;
    assert CallInv(s, c, s.calls[c]);
  }

  lemma InvHasTables(s: State)
    requires Inv(s)
    ensures |s.tables| > 0 && TablesInv(s.tables)
  {
    hide TablesInv, TakenFrom, LoadsSeeEarlierCalls, CallInv;
  }

  /** A reload that returns nil, by loading or by finding a newer snapshot, leaves
      a snapshot of a table state no older than the latest one at its entry. */
  lemma ReloadIsCoherent(s: State, l: Label, s': State, c: Tid)
    requires Inv(s) && |s.tables| > 0 && Step(s, l, s') && c in s.calls && c in s'.calls
    requires !s.calls[c].Returned? && s'.calls[c].Returned? && s'.calls[c].ok
    ensures s.calls[c].since <= s'.src < |s'.tables| && TakenFrom(s'.tables[s'.src], s'.keys)
  {
    hide Inv, Step, TablesInv, TakenFrom;
    InvHasTables(s);
    StepKeepsInv(s, l, s');
    KeepsEntry(s, l, s', c);
    ReturnedIsCoherent(s', c);
  }

  /** No step moves the snapshot backwards. */
  lemma SnapshotMovesForward(s: State, l: Label, s': State)
    requires Inv(s) && |s.tables| > 0 && Step(s, l, s')
    ensures s.keys.loadedAt <= s'.keys.loadedAt && s.src <= s'.src && s.tables <= s'.tables
    ensures !l.Install? ==> s'.keys == s.keys
  {
    hide TablesInv, TakenFrom, LoadsSeeEarlierCalls;
    if l.Install? {
      assert CallInv(s, l.c, s.calls[l.c]);
    }
  }

  ghost predicate StepAt(run: seq<State>, i: nat)
    requires 0 < i < |run|
  {
    Next(run[i - 1], run[i])
  }

  ghost predicate Next(s: State, s': State) {
    |s.tables| > 0 && TablesInv(s.tables) && exists l :: Step(s, l, s')
  }

  ghost predicate IsRun(run: seq<State>) {
    |run| > 0 && Initial(run[0]) && forall i | 0 < i < |run| :: StepAt(run, i)
  }

  lemma {:induction false} RunInv(run: seq<State>, i: nat)
    requires IsRun(run) && i < |run|
    ensures Inv(run[i])
  {
    hide Step, TablesInv, TakenFrom;
    if i > 0 {
      RunInv(run, i - 1);
      assert StepAt(run, i);
      hide Inv;
      var l :| Step(run[i - 1], l, run[i]);
      StepKeepsInv(run[i - 1], l, run[i]);
    }
  }

  lemma {:induction false} RunMovesForward(run: seq<State>, i: nat, j: nat)
    requires IsRun(run) && i <= j < |run|
    ensures run[i].keys.loadedAt <= run[j].keys.loadedAt && run[i].src <= run[j].src && run[i].tables <= run[j].tables
    decreases j - i
  {
    hide Step, TablesInv, TakenFrom, Inv, Initial;
    if i < j {
      RunMovesForward(run, i, j - 1);
      RunInv(run, j - 1);
      assert StepAt(run, j);
      var l :| Step(run[j - 1], l, run[j]);
      SnapshotMovesForward(run[j - 1], l, run[j]);
    }
  }

  lemma SourceActive(tables: seq<Table>, keys: KeySet, src: nat)
    requires TablesInv(tables) && src < |tables| && TakenFrom(tables[src], keys)
    ensures TableInv(tables[src]) && tables[src] != map[] && keys.active == ActiveVersion(tables[src])
    ensures SnapshotWithin(keys, tables[|tables| - 1])
  {
    hide TableInv, SnapshotWithin, Later;
    var now :| keys == SnapshotOf(tables[src], now, keys.loadedAt);
    SnapshotFitsLaterTable(tables[src], now, keys.loadedAt, tables[|tables| - 1]);
  }

  lemma SourcesInOrder(tables: seq<Table>, i: nat, j: nat)
    requires TablesInv(tables) && i <= j < |tables|
    ensures TableInv(tables[i]) && tables[i] != map[] && TableInv(tables[j]) && tables[j] != map[]
    ensures ActiveVersion(tables[i]) <= ActiveVersion(tables[j])
  {
    hide TableInv, Later;
    LaterActive(tables[i], tables[j]);
  }

  /** Over any run with concurrent reloads: loadedAt and the active version never
      decrease, and any two snapshots agree on the key of every version they share. */
  lemma SnapshotsCohereOverRun(run: seq<State>, i: nat, j: nat)
    requires IsRun(run) && i <= j < |run|
    ensures run[i].keys.loadedAt <= run[j].keys.loadedAt && run[i].keys.active <= run[j].keys.active
    ensures forall v | v in run[i].keys.byVersion && v in run[j].keys.byVersion ::
              run[i].keys.byVersion[v].key == run[j].keys.byVersion[v].key
  {
    hide IsRun, TablesInv, TableInv, TakenFrom, SnapshotWithin, Later, LoadsSeeEarlierCalls, CallInv;
    RunInv(run, i);
    RunInv(run, j);
    RunMovesForward(run, i, j);
    assert run[j].tables[run[i].src] == run[i].tables[run[i].src];
    SourceActive(run[j].tables, run[i].keys, run[i].src);
    SourceActive(run[j].tables, run[j].keys, run[j].src);
    SourcesInOrder(run[j].tables, run[i].src, run[j].src);
    var t := run[j].tables[|run[j].tables| - 1];
    forall v | v in run[i].keys.byVersion && v in run[j].keys.byVersion
      ensures run[i].keys.byVersion[v].key == run[j].keys.byVersion[v].key
    {
      SnapshotsAgree(run[i].keys, run[j].keys, t, v);
    }
  }

  // ------------------------------------------------------------------ the rate limit

  lemma LoadingIsUndisturbed(s: State, l: Label, s': State, c: Tid)
    requires Inv(s) && |s.tables| > 0 && Step(s, l, s') && c in s.calls && c in s'.calls
    requires s.calls[c].Loading? && s'.calls[c].Loading?
    ensures s'.calls[c] == s.calls[c] && s'.lastLoadAttempt == s.lastLoadAttempt && s'.keys == s.keys
  {
    hide TablesInv, TakenFrom, LoadsSeeEarlierCalls, TableStep, SnapshotOf;
    assert CallInv(s, c, s.calls[c]);
  }

  /** The call starts its load in the step from state i and is still at it in state j. */
  ghost predicate LoadsFrom(run: seq<State>, i: nat, j: nat, c: Tid)
    requires i < j < |run|
  {
    && |run[i].tables| > 0 && TablesInv(run[i].tables) && Step(run[i], Start(c), run[i + 1])
    && forall m | i < m <= j :: c in run[m].calls && run[m].calls[c].Loading?
  }

  lemma StartCharges(s: State, c: Tid, s': State)
    requires |s.tables| > 0 && TablesInv(s.tables) && Step(s, Start(c), s')
    ensures c in s'.calls && s'.calls[c].Loading? && s'.calls[c].previous == s.lastLoadAttempt
    ensures s'.calls[c].startedAt == s.clock == s'.lastLoadAttempt && s'.keys == s.keys
  {
    hide TablesInv;
  }

  lemma {:induction false} ChargedWhileLoading(run: seq<State>, i: nat, j: nat, c: Tid)
    requires IsRun(run) && i < j < |run| && LoadsFrom(run, i, j, c)
    ensures c in run[j].calls && run[j].calls[c].Loading? && run[j].calls[c].previous == run[i].lastLoadAttempt
    ensures run[j].calls[c].startedAt == run[i].clock == run[j].lastLoadAttempt && run[j].keys == run[i].keys
    decreases j
  {
    hide IsRun, Step, TablesInv, Inv;
    if j == i + 1 {
      StartCharges(run[i], c, run[j]);
    } else {
      ChargedWhileLoading(run, i, j - 1, c);
      RunInv(run, j - 1);
      NextStep(run, j);
      var l :| Step(run[j - 1], l, run[j]);
      LoadingIsUndisturbed(run[j - 1], l, run[j], c);
    }
  }

  lemma NextStep(run: seq<State>, j: nat)
    requires IsRun(run) && 0 < j < |run|
    ensures Next(run[j - 1], run[j])
  {
    hide Next;
    assert StepAt(run, j);
  }

  /** A load that fails under a cancelled context leaves the rate limit as it was
      before the load, whatever other calls did meanwhile; any other failed load is
      charged with the time it began. Neither touches the snapshot. */
  lemma FailedLoadCharges(run: seq<State>, i: nat, j: nat, c: Tid, cancelled: bool, s': State)
    requires IsRun(run) && i < j < |run| && LoadsFrom(run, i, j, c)
    requires |run[j].tables| > 0 && TablesInv(run[j].tables) && Step(run[j], Fail(c, cancelled), s')
    ensures s'.lastLoadAttempt == (if cancelled then run[i].lastLoadAttempt else run[i].clock)
    ensures s'.keys == run[i].keys && s'.mutex.None?
  {
    hide IsRun, LoadsFrom, TablesInv;
    ChargedWhileLoading(run, i, j, c);
  }

  // ------------------------------------------------------------------ when nothing is in the way

  /** A call that finds the mutex free and no newer snapshot loads, and returns with
      the latest table in hand, loaded as of the clock at its start. */
  lemma LoneReloadLoads(s: State, c: Tid) returns (path: seq<State>)
    requires Inv(s) && |s.tables| > 0 && s.mutex.None? && c !in s.calls
    ensures |path| == 6 && path[0] == s && forall i | 0 < i < 6 :: StepAt(path, i)
    ensures TableInv(s.tables[Latest(s)]) && s.tables[Latest(s)] != map[]
    ensures path[5].keys == SnapshotOf(s.tables[Latest(s)], s.clock, s.clock) && path[5].lastLoadAttempt == s.clock
    ensures c in path[5].calls && path[5].calls[c] == Returned(true, Latest(s)) && path[5].mutex.None?
  {
    hide Inv, TablesInv, TableInv, SnapshotOf, TakenFrom;
    InvHasTables(s);
    InvClock(s);
    LoadIsTaken(s.tables, Latest(s), s.clock, s.clock);
    var n := Latest(s);
    var keys := SnapshotOf(s.tables[n], s.clock, s.clock);
    var s1 := SetCall(s, c, Waiting(s.clock, n));
    var s2 := SetCall(s1, c, Owner(s.clock, n)).(mutex := Some(c));
    var s3 := SetCall(s2, c, Loading(s.clock, n, s.clock, s.lastLoadAttempt)).(lastLoadAttempt := s.clock);
    var s4 := SetCall(s3, c, Loaded(s.clock, n, keys, n));
    var s5 := SetCall(s4, c, Returned(true, n)).(mutex := None, keys := keys, src := n);
    path := [s, s1, s2, s3, s4, s5];
    assert Step(s, Enter(c), s1) && Step(s1, Lock(c), s2) && Step(s2, Start(c), s3);
    LoadEnds(s3, c, s4, s5);
    hide Step;
    assert StepAt(path, 1) && StepAt(path, 2) && StepAt(path, 3) && StepAt(path, 4) && StepAt(path, 5);
  }

  lemma LoadEnds(s: State, c: Tid, s1: State, s2: State)
    requires |s.tables| > 0 && TablesInv(s.tables) && c in s.calls && s.calls[c].Loading? && s.mutex == Some(c)
    requires TableInv(s.tables[Latest(s)]) && s.tables[Latest(s)] != map[]
    requires var call := s.calls[c];
             var keys := SnapshotOf(s.tables[Latest(s)], s.clock, call.startedAt);
             && s1 == SetCall(s, c, Loaded(call.entered, call.since, keys, Latest(s)))
             && s2 == SetCall(s1, c, Returned(true, call.since)).(mutex := None, keys := keys, src := Latest(s))
    ensures Step(s, Query(c), s1) && Step(s1, Install(c), s2)
  {
    hide TablesInv, TableInv, SnapshotOf;
  }

  lemma InvClock(s: State)
    requires Inv(s)
    ensures s.keys.loadedAt <= s.clock
  {
    hide TablesInv, TakenFrom, LoadsSeeEarlierCalls, CallInv;
  }

  /** A call that has the mutex returns without a query exactly when a load that
      began after it entered is already installed, and loads otherwise. */
  lemma OwnerSkipsExactlyWhen(s: State, c: Tid)
    requires |s.tables| > 0 && TablesInv(s.tables) && c in s.calls && s.calls[c].Owner?
    ensures (exists s' :: Step(s, Skip(c), s')) <==> s.keys.loadedAt > s.calls[c].entered
    ensures (exists s' :: Step(s, Start(c), s')) <==> s.keys.loadedAt <= s.calls[c].entered
    ensures forall s' | Step(s, Skip(c), s') ::
              s'.keys == s.keys && s'.lastLoadAttempt == s.lastLoadAttempt && s'.mutex.None?
              && c in s'.calls && s'.calls[c].Returned? && s'.calls[c].ok
  {
    hide TablesInv;
    if s.keys.loadedAt > s.calls[c].entered {
      assert Step(s, Skip(c), SetCall(s, c, Returned(true, s.calls[c].since)).(mutex := None));
    } else {
      assert Step(s, Start(c), SetCall(s, c, Loading(s.calls[c].entered, s.calls[c].since, s.clock, s.lastLoadAttempt)).(
                                 lastLoadAttempt := s.clock));
    }
  }
}
