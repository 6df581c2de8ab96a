/** Any number of processes constructing a cipher at once while administrators
    rotate and flag keys. Loads and inserts are one statement each; an insert may
    fail, and one that is reported as failed may still have landed. */
module BootstrapRace {
  import opened Wrappers
  import opened Aead
  import opened Blobs
  import opened KeySets
  import opened KeyTables
  import opened Ciphers
  import opened Bootstrap

  type Pid = nat

  datatype Constructor =
    | Loading(inputs: Inputs)
    | Inserting(inputs: Inputs)
    | LoadingAgain(inputs: Inputs)
    | Returned(inputs: Inputs, first: Answer, insert: InsertAnswer, second: Answer)

  /** `inserts` counts the rows that constructors ever inserted. */
  datatype State = State(table: Table, ctors: map<Pid, Constructor>, inserts: nat)

  datatype Label =
    | Administer(op: Op)
    | Enter(p: Pid, inputs: Inputs)
    | Load(p: Pid, answer: Answer, now: Time)
    | Insert(p: Pid, outcome: InsertAnswer)
    | LoadAfterInsert(p: Pid, answer: Answer, now: Time)

  const UNASKED: Answer := LoadFailed(false)

  /** The seed decodes, and a generated key is 32 bytes that are not all zero. */
  predicate Admissible(inputs: Inputs) {
    EnvSeed(inputs.env).Ok? && (inputs.generated.Some? ==> IsKeyMaterial(inputs.generated.value))
  }

  ghost predicate Answers(answer: Answer, t: Table, now: Time) {
    answer.Rows? ==> IsListing(answer.recs, t, now)
  }

  function SetCtor(s: State, p: Pid, c: Constructor): (s': State) { s.(ctors := s.ctors[p := c]) }

  function AfterLoad(inputs: Inputs, answer: Answer): (c: Constructor) {
    if answer == Rows([]) && SeedFor(inputs).Some? then Inserting(inputs)
    else Returned(inputs, answer, InsertFailed, UNASKED)
  }

  function AfterInsert(inputs: Inputs, answer: InsertAnswer): (c: Constructor) {
    if answer.NothingInserted? then LoadingAgain(inputs) else Returned(inputs, Rows([]), answer, UNASKED)
  }

  ghost predicate Step(s: State, l: Label, s': State) {
    match l
    case Administer(op) =>
      !op.Init? && exists t :: TableStep(s.table, op, t) && s' == s.(table := t)
    case Enter(p, inputs) =>
      p !in s.ctors && Admissible(inputs) && s' == SetCtor(s, p, Loading(inputs))
    case Load(p, answer, now) =>
      && p in s.ctors && s.ctors[p].Loading? && Answers(answer, s.table, now)
      && s' == SetCtor(s, p, AfterLoad(s.ctors[p].inputs, answer))
    case Insert(p, answer) =>
      && p in s.ctors && s.ctors[p].Inserting? && SeedFor(s.ctors[p].inputs).Some?
      && InsertAnswers(s.table, SeedFor(s.ctors[p].inputs).value, answer, s'.table)
      && s' == SetCtor(s, p, AfterInsert(s.ctors[p].inputs, answer)).(
                 table := s'.table, inserts := s.inserts + if s'.table == s.table then 0 else 1)
    case LoadAfterInsert(p, answer, now) =>
      && p in s.ctors && s.ctors[p].LoadingAgain? && Answers(answer, s.table, now)
      && s' == SetCtor(s, p, Returned(s.ctors[p].inputs, Rows([]), NothingInserted, answer))
  }

  function Outcome(c: Constructor): (r: Result<Ciphers.State, ConstructError>)
    requires c.Returned?
  {
    Constructed(c.inputs, c.first, c.insert, c.second)
  }

  // ------------------------------------------------------------------ the invariant

  /** A constructor that succeeded holds table rows only. */
  ghost predicate CtorInv(t: Table, c: Constructor) {
    && Admissible(c.inputs)
    && (c.Returned? && Outcome(c).Ok? ==> SnapshotWithin(Outcome(c).value.keys, t))
  }

  ghost predicate Inv(s: State) {
    && TableInv(s.table) && s.inserts <= 1 && (s.inserts == 1 ==> s.table != map[])
    && forall p | p in s.ctors :: CtorInv(s.table, s.ctors[p])
  }

  lemma AdministerKeepsInv(s: State, op: Op, s': State)
    requires Inv(s) && Step(s, Administer(op), s')
    ensures Inv(s')
  {
    hide TableInv, SnapshotWithin, Constructed, TableStep, Later;
    StepKeepsInv(s.table, op, s'.table);
    StepIsLater(s.table, op, s'.table);
    forall p | p in s'.ctors ensures CtorInv(s'.table, s'.ctors[p]) {
      assert CtorInv(s.table, s.ctors[p]);
      CtorInvLater(s.table, s'.table, s.ctors[p]);
    }
  }

  lemma CtorInvLater(t: Table, t': Table, c: Constructor)
    requires CtorInv(t, c) && TableInv(t') && Later(t, t')
    ensures CtorInv(t', c)
  {
    hide TableInv, SnapshotWithin, Constructed, Later;
    if c.Returned? && Outcome(c).Ok? {
      SnapshotStaysWithin(Outcome(c).value.keys, t, t');
    }
  }

  /** Records listed from the table build a snapshot within it. */
  lemma ListedSnapshotWithin(recs: seq<Record>, t: Table, now: Time, loadedAt: Time)
    requires TableInv(t) && IsListing(recs, t, now) && recs != []
    ensures Build(recs, loadedAt).Ok? && SnapshotWithin(Build(recs, loadedAt).value, t)
  {
    assert recs[0].version in t;
    hide TableInv, IsListing, SnapshotWithin, Later;
    ListingBuilds(recs, t, now, loadedAt);
    LaterReflexive(t);
    SnapshotFitsLaterTable(t, now, loadedAt, t);
  }

  lemma LoadKeepsInv(s: State, p: Pid, answer: Answer, now: Time, s': State)
    requires Inv(s) && Step(s, Load(p, answer, now), s')
    ensures Inv(s')
  {
    hide TableInv, SnapshotWithin, IsListing, Build, EnvSeed, SeedConflict;
    assert CtorInv(s.table, s.ctors[p]);
    if answer.Rows? && answer.recs != [] {
      ListedSnapshotWithin(answer.recs, s.table, now, StartedAt(s.ctors[p].inputs, answer));
    }
    assert CtorInv(s.table, s'.ctors[p]);
  }

  lemma LoadAfterInsertKeepsInv(s: State, p: Pid, answer: Answer, now: Time, s': State)
    requires Inv(s) && Step(s, LoadAfterInsert(p, answer, now), s')
    ensures Inv(s')
  {
    hide TableInv, SnapshotWithin, IsListing, Build, EnvSeed, SeedConflict;
    assert CtorInv(s.table, s.ctors[p]);
    if answer.Rows? && answer.recs != [] {
      ListedSnapshotWithin(answer.recs, s.table, now, StartedAt(s.ctors[p].inputs, Rows([])));
    }
    assert CtorInv(s.table, s'.ctors[p]);
  }

  lemma SeedIsMaterial(inputs: Inputs)
    requires Admissible(inputs) && SeedFor(inputs).Some?
    ensures IsKeyMaterial(SeedFor(inputs).value)
  {
    if inputs.env.Some? {
      KeyMaterial.MaterialExactlyWhen(inputs.env.value, []);
    }
  }

  lemma InsertIsTableStep(t: Table, seed: seq<byte>, answer: InsertAnswer, t': Table)
    requires TableInv(t) && IsKeyMaterial(seed) && InsertAnswers(t, seed, answer, t')
    ensures TableInv(t') && Later(t, t') && (t' != t ==> t == map[] && t' != map[])
    ensures answer.Inserted? ==> t' != t && IsListing([answer.rec], t', 0)
  {
    if answer.Inserted? {
      FirstRowInv(answer.rec.version, seed);
      assert answer.rec.version in t';
    } else if t' != t {
      var v: uint32 :| 0 < v <= MAX_VERSION && t' == map[v := FreshRow(seed)];
      FirstRowInv(v, seed);
    }
  }

  lemma FirstRowInv(v: uint32, seed: seq<byte>)
    requires 0 < v <= MAX_VERSION && IsKeyMaterial(seed)
    ensures TableInv(map[v := FreshRow(seed)])
    ensures IsListing([RecordOf(v, FreshRow(seed))], map[v := FreshRow(seed)], 0)
  {
    var t: Table := map[v := FreshRow(seed)];
    StepKeepsInv(map[], Init(v, seed), t);
    FirstRowListed(v, seed, 0);
  }

  lemma InsertKeepsInv(s: State, p: Pid, answer: InsertAnswer, s': State)
    requires Inv(s) && Step(s, Insert(p, answer), s')
    ensures Inv(s')
  {
    hide TableInv, SnapshotWithin, IsListing, Build, EnvSeed, SeedConflict, Later, SeedFor, Constructed, InsertAnswers;
    var inputs := s.ctors[p].inputs;
    assert CtorInv(s.table, s.ctors[p]);
    SeedIsMaterial(inputs);
    InsertIsTableStep(s.table, SeedFor(inputs).value, answer, s'.table);
    forall q | q in s'.ctors ensures CtorInv(s'.table, s'.ctors[q]) {
      if q != p {
        CtorInvLater(s.table, s'.table, s.ctors[q]);
      } else {
        InsertedCtorInv(s'.table, inputs, answer);
      }
    }
  }

  lemma InsertedCtorInv(t: Table, inputs: Inputs, answer: InsertAnswer)
    requires TableInv(t) && Admissible(inputs) && (answer.Inserted? ==> IsListing([answer.rec], t, 0))
    ensures CtorInv(t, AfterInsert(inputs, answer))
  {
    hide TableInv, SnapshotWithin, IsListing, Build, EnvSeed, SeedConflict;
    if answer.Inserted? {
      ListedSnapshotWithin([answer.rec], t, 0, StartedAt(inputs, Rows([])));
    }
  }

  lemma StepKeepsInvariant(s: State, l: Label, s': State)
    requires Inv(s) && Step(s, l, s')
    ensures Inv(s')
  {
    match l
    case Administer(op) => hide Inv, Step; AdministerKeepsInv(s, op, s');
    case Enter(p, inputs) => hide TableInv, SnapshotWithin;
    case Load(p, answer, now) => hide Inv, Step; LoadKeepsInv(s, p, answer, now, s');
    case Insert(p, answer) => hide Inv, Step; InsertKeepsInv(s, p, answer, s');
    case LoadAfterInsert(p, answer, now) => hide Inv, Step; LoadAfterInsertKeepsInv(s, p, answer, now, s');
  }

  // ------------------------------------------------------------------ whole runs

  ghost predicate Next(s: State, s': State) { exists l :: Step(s, l, s') }

  ghost predicate NextAt(run: seq<State>, i: nat)
    requires 0 < i < |run|
  {
    Next(run[i - 1], run[i])
  }

  /** Any table that meets its invariant, nobody constructing yet. */
  ghost predicate IsRun(run: seq<State>) {
    && |run| > 0 && TableInv(run[0].table) && run[0].ctors == map[] && run[0].inserts == 0
    && forall i | 0 < i < |run| :: NextAt(run, i)
  }

  lemma {:induction false} RunInv(run: seq<State>, i: nat)
    requires IsRun(run) && i < |run|
    ensures Inv(run[i])
    ensures run[i].table != map[] <==> run[0].table != map[] || run[i].inserts == 1
    ensures run[0].table != map[] ==> run[i].inserts == 0
  {
    hide TableInv, CtorInv, Step;
    if i > 0 {
      hide Inv;
      RunInv(run, i - 1);
      assert NextAt(run, i);
      var l :| Step(run[i - 1], l, run[i]);
      StepKeepsInvariant(run[i - 1], l, run[i]);
      StepCountsInserts(run[i - 1], l, run[i]);
    }
  }

  lemma StepCountsInserts(s: State, l: Label, s': State)
    requires Inv(s) && Step(s, l, s')
    ensures s'.inserts == s.inserts + if s.table == map[] && s'.table != map[] then 1 else 0
    ensures s.table != map[] ==> s'.table != map[]
  {
    hide TableInv, CtorInv, EnvSeed, SeedFor, IsListing;
    if l.Administer? {
      StepKeepsInv(s.table, l.op, s'.table);
    }
  }

  /** The key a process establishes when it comes to that. */
  predicate IsOwnSeed(inputs: Inputs, key: seq<byte>) {
    if inputs.env.Some? then KeyMaterial.Material(inputs.env.value) == Ok(key) else inputs.generated == Some(key)
  }

  /** Some process's own seed is on file. */
  ghost predicate SomeSeedStored(s: State) {
    exists p, v :: SeedStored(s, p, v)
  }

  predicate SeedStored(s: State, p: Pid, v: uint32) {
    p in s.ctors && v in s.table && IsOwnSeed(s.ctors[p].inputs, s.table[v].key)
  }

  lemma StepStoresSeed(s: State, l: Label, s': State)
    requires Inv(s) && Step(s, l, s') && (s.table != map[] ==> SomeSeedStored(s))
    ensures s'.table != map[] ==> SomeSeedStored(s')
  {
    if s.table == map[] {
      if s'.table != map[] {
        FirstRowIsTheSeed(s, l, s');
      }
    } else {
      var p, v :| SeedStored(s, p, v);
      StepKeepsCtors(s, l, s', p);
      hide Step, Inv;
      assert SeedStored(s', p, v);
    }
  }

  lemma StepKeepsCtors(s: State, l: Label, s': State, p: Pid)
    requires Inv(s) && Step(s, l, s') && p in s.ctors
    ensures p in s'.ctors && s'.ctors[p].inputs == s.ctors[p].inputs
    ensures forall v | v in s.table :: v in s'.table && s'.table[v].key == s.table[v].key
  {
    hide TableInv, CtorInv, EnvSeed, SeedFor, IsListing;
    if l.Administer? {
      StepIsLater(s.table, l.op, s'.table);
    }
  }

  /** The insert that fills an empty table stores the process's environment seed if
      one is set, and its generated key otherwise. */
  lemma FirstRowIsTheSeed(s: State, l: Label, s': State)
    requires Inv(s) && Step(s, l, s') && s.table == map[] && s'.table != map[]
    ensures l.Insert? && l.p in s.ctors && SomeSeedStored(s')
    ensures forall v | v in s'.table :: IsOwnSeed(s.ctors[l.p].inputs, s'.table[v].key)
  {
    hide TableInv, IsListing;
    assert l.Insert?;
    var p := l.p;
    assert CtorInv(s.table, s.ctors[p]);
    SeedIsTheEnvironments(s.ctors[p].inputs);
    var v := SomeRow(s'.table);
    assert SeedStored(s', p, v);
  }

  lemma SomeRow(t: Table) returns (v: uint32)
    requires t != map[]
    ensures v in t
  {
    v :| v in t;
  }

  /** The key a race establishes is the own seed of one of the racing processes. */
  lemma {:induction false} EstablishedKeyIsASeed(run: seq<State>, i: nat)
    requires IsRun(run) && run[0].table == map[] && i < |run| && run[i].table != map[]
    ensures SomeSeedStored(run[i])
  {
    if i > 0 {
      RunInv(run, i - 1);
      assert NextAt(run, i);
      var l :| Step(run[i - 1], l, run[i]);
      hide Inv, Step, SomeSeedStored, TableInv;
      if run[i - 1].table != map[] {
        EstablishedKeyIsASeed(run, i - 1);
      }
      StepStoresSeed(run[i - 1], l, run[i]);
    }
  }

  /** Alone on an empty table, a process with a seed or a generated key bootstraps it
      with that key and holds it as its only, active key. */
  lemma LoneFirstBoot(inputs: Inputs, seed: seq<byte>) returns (run: seq<State>)
    requires IsOwnSeed(inputs, seed) && (inputs.generated.Some? ==> IsKeyMaterial(inputs.generated.value))
    ensures IsRun(run) && |run| == 4 && run[0].table == map[]
    ensures run[3].table == map[1 := Row(seed, None, None, None)] && run[3].inserts == 1
    ensures 0 in run[3].ctors && run[3].ctors[0].Returned?
    ensures Outcome(run[3].ctors[0])
            == Ok(Ciphers.State(KeySet(1, map[1 := KeyEntry(seed, None, None)], inputs.t1), inputs.t1))
  {
    hide Constructed, TableInv;
    var rec := RecordOf(1, FreshRow(seed));
    var t: Table := map[1 := FreshRow(seed)];
    SeedIsTheEnvironments(inputs);
    var s0 := State.State(map[], map[], 0);
    var s1 := SetCtor(s0, 0, Loading(inputs));
    var s2 := SetCtor(s1, 0, Inserting(inputs));
    var s3 := SetCtor(s2, 0, Returned(inputs, Rows([]), Inserted(rec), UNASKED)).(table := t, inserts := 1);
    run := [s0, s1, s2, s3];
    FirstBootConstructs(inputs, seed, rec, t, UNASKED);
    assert 1 in t;
    hide Step, EnvSeed, SeedFor, InsertAnswers, IsKeyMaterial;
    Enters(s0, 0, inputs, s1);
    LoadsNothing(s1, 0, inputs, s2);
    InsertsFirst(s2, 0, inputs, seed, s3);
    EmptyTableInv();
    assert NextAt(run, 1) && NextAt(run, 2) && NextAt(run, 3);
  }

  lemma EmptyTableInv()
    ensures TableInv(map[])
  {
  }

  /** A process that loses the race to a winner and has no seed of its own adopts
      the winner's key. */
  lemma LoserAdoptsWinner(winner: Inputs, seed: seq<byte>, loser: Inputs, own: seq<byte>) returns (run: seq<State>)
    requires IsOwnSeed(winner, seed) && (winner.generated.Some? ==> IsKeyMaterial(winner.generated.value))
    requires loser.env.None? && loser.generated == Some(own) && IsKeyMaterial(own)
    ensures IsRun(run) && |run| == 8 && run[0].table == map[]
    ensures run[7].table == map[1 := Row(seed, None, None, None)] && run[7].inserts == 1
    ensures 1 in run[7].ctors && run[7].ctors[1].Returned?
    ensures Outcome(run[7].ctors[1])
            == Ok(Ciphers.State(KeySet(1, map[1 := KeyEntry(seed, None, None)], loser.t1), loser.t1))
  {
    hide Constructed, TableInv, IsListing, Step, EnvSeed, SeedFor, IsKeyMaterial;
    var rec := RecordOf(1, FreshRow(seed));
    var t: Table := map[1 := FreshRow(seed)];
    var won := Returned(winner, Rows([]), Inserted(rec), UNASKED);
    var lost := Returned(loser, Rows([]), NothingInserted, Rows([rec]));
    SeedIsTheEnvironments(winner);
    SeedIsTheEnvironments(loser);
    SeedIsMaterial(winner);
    FirstRowListed(1, seed, 0);
    AdoptsFirstRow(loser, seed, rec, t);
    var s0 := State.State(map[], map[], 0);
    var s1 := SetCtor(s0, 0, Loading(winner));
    var s2 := SetCtor(s1, 1, Loading(loser));
    var s3 := SetCtor(s2, 0, Inserting(winner));
    var s4 := SetCtor(s3, 1, Inserting(loser));
    var s5 := SetCtor(s4, 0, won).(table := t, inserts := 1);
    var s6 := SetCtor(s5, 1, LoadingAgain(loser));
    var s7 := SetCtor(s6, 1, lost);
    assert 1 in t;
    Enters(s0, 0, winner, s1);
    Enters(s1, 1, loser, s2);
    LoadsNothing(s2, 0, winner, s3);
    LoadsNothing(s3, 1, loser, s4);
    InsertsFirst(s4, 0, winner, seed, s5);
    FindsOccupied(s5, 1, loser, s6);
    LoadsAgain(s6, 1, loser, [rec], s7);
    NobodyYet(s0);
    hide IsRun, IsOwnSeed, SetCtor;
    run := Extend([s0], Enter(0, winner), s1);
    run := Extend(run, Enter(1, loser), s2);
    run := Extend(run, Load(0, Rows([]), 0), s3);
    run := Extend(run, Load(1, Rows([]), 0), s4);
    run := Extend(run, Insert(0, Inserted(rec)), s5);
    run := Extend(run, Insert(1, NothingInserted), s6);
    run := Extend(run, LoadAfterInsert(1, Rows([rec]), 0), s7);
  }

  lemma NobodyYet(s: State)
    requires s == State.State(map[], map[], 0)
    ensures IsRun([s])
  {
    EmptyTableInv();
  }

  lemma Extend(run: seq<State>, l: Label, s: State) returns (run': seq<State>)
    requires |run| > 0 && IsRun(run) && Step(run[|run| - 1], l, s)
    ensures IsRun(run') && run' == run + [s]
  {
    hide TableInv, Step;
    run' := run + [s];
    assert Next(run[|run| - 1], s);
    forall i | 0 < i < |run'| ensures NextAt(run', i) {
      if i < |run| {
        assert NextAt(run, i);
      }
    }
  }

  lemma Enters(s: State, p: Pid, inputs: Inputs, s': State)
    requires p !in s.ctors && Admissible(inputs) && s' == SetCtor(s, p, Loading(inputs))
    ensures Step(s, Enter(p, inputs), s')
  {
  }

  lemma LoadsNothing(s: State, p: Pid, inputs: Inputs, s': State)
    requires s.table == map[] && p in s.ctors && s.ctors[p] == Loading(inputs) && SeedFor(inputs).Some?
    requires s' == SetCtor(s, p, Inserting(inputs))
    ensures Step(s, Load(p, Rows([]), 0), s')
  {
    EmptyListing();
  }

  lemma InsertsFirst(s: State, p: Pid, inputs: Inputs, seed: seq<byte>, s': State)
    requires s.table == map[] && p in s.ctors && s.ctors[p] == Inserting(inputs) && SeedFor(inputs) == Some(seed)
    requires var rec := RecordOf(1, FreshRow(seed));
             s' == SetCtor(s, p, Returned(inputs, Rows([]), Inserted(rec), UNASKED)).(
                     table := map[1 := FreshRow(seed)], inserts := s.inserts + 1)
    ensures Step(s, Insert(p, Inserted(RecordOf(1, FreshRow(seed)))), s')
  {
    assert 1 in s'.table;
  }

  lemma FindsOccupied(s: State, p: Pid, inputs: Inputs, s': State)
    requires s.table != map[] && p in s.ctors && s.ctors[p] == Inserting(inputs) && SeedFor(inputs).Some?
    requires s' == SetCtor(s, p, LoadingAgain(inputs))
    ensures Step(s, Insert(p, NothingInserted), s')
  {
  }

  lemma LoadsAgain(s: State, p: Pid, inputs: Inputs, recs: seq<Record>, s': State)
    requires p in s.ctors && s.ctors[p] == LoadingAgain(inputs) && IsListing(recs, s.table, 0)
    requires s' == SetCtor(s, p, Returned(inputs, Rows([]), NothingInserted, Rows(recs)))
    ensures Step(s, LoadAfterInsert(p, Rows(recs), 0), s')
  {
  }

  lemma EmptyListing()
    ensures IsListing([], map[], 0)
  {
  }

  lemma AdoptsFirstRow(inputs: Inputs, seed: seq<byte>, rec: Record, t: Table)
    requires inputs.env.None? && inputs.generated.Some? && IsKeyMaterial(seed)
    requires t == map[1 := FreshRow(seed)] && rec == RecordOf(1, FreshRow(seed))
    ensures Constructed(inputs, Rows([]), NothingInserted, Rows([rec]))
            == Ok(Ciphers.State(KeySet(1, map[1 := KeyEntry(seed, None, None)], inputs.t1), inputs.t1))
  {
    StepKeepsInv(map[], Init(1, seed), t);
    assert 1 in t;
    FirstRowListed(1, seed, 0);
    OnlyOneActive(t, 1);
    SnapshotOfFirstRow(t, 1, seed, inputs.t1);
    hide TableInv, IsListing, Constructed, SnapshotOf;
    LostRaceConstructs(inputs, [rec], t, 0);
  }

  /** A process whose load fails ends in an error and asks for nothing; one whose
      load lists rows returns without asking for an insert. */
  lemma OnlyEmptyLoadsInsert(s: State, p: Pid, answer: Answer, now: Time, s': State)
    requires Step(s, Load(p, answer, now), s')
    ensures p in s'.ctors && (s'.ctors[p].Inserting? <==> answer == Rows([]) && SeedFor(s.ctors[p].inputs).Some?)
    ensures answer.LoadFailed? ==> s'.ctors[p].Returned? && Outcome(s'.ctors[p]).Err?
  {
  }

  /** At most one row is ever inserted by however many constructors, none into a
      table that had rows, and the table is bootstrapped exactly when one was. */
  lemma OneKeyIsEverInserted(run: seq<State>, i: nat)
    requires IsRun(run) && i < |run|
    ensures run[i].inserts <= 1
    ensures run[i].table != map[] <==> run[0].table != map[] || run[i].inserts == 1
    ensures run[0].table != map[] ==> run[i].inserts == 0
  {
    hide IsRun, TableInv, CtorInv;
    RunInv(run, i);
  }

  lemma WithinMeansRows(keys: KeySet, t: Table)
    requires SnapshotWithin(keys, t)
    ensures t != map[]
  {
    hide TableInv, WellFormed;
  }

  /** Every constructor that succeeded, whoever won the race, holds rows of the
      one table, before and after: all of them agree on every key they share, and
      one that was given a seed adopted exactly that key as active. */
  lemma WinnersAndLosersAgree(run: seq<State>, i: nat, p: Pid, q: Pid)
    requires IsRun(run) && i < |run| && p in run[i].ctors && q in run[i].ctors
    requires run[i].ctors[p].Returned? && Outcome(run[i].ctors[p]).Ok?
    requires run[i].ctors[q].Returned? && Outcome(run[i].ctors[q]).Ok?
    ensures run[0].table == map[] ==> run[i].inserts == 1
    ensures var a, b := Outcome(run[i].ctors[p]).value.keys, Outcome(run[i].ctors[q]).value.keys;
            && SnapshotWithin(a, run[i].table)
            && forall v | v in a.byVersion && v in b.byVersion :: a.byVersion[v].key == b.byVersion[v].key
    ensures var inputs := run[i].ctors[p].inputs;
            var a := Outcome(run[i].ctors[p]).value.keys;
            inputs.env.Some? ==>
              && KeyMaterial.Material(inputs.env.value).Ok? && a.active in a.byVersion
              && a.byVersion[a.active].key == KeyMaterial.Material(inputs.env.value).value
  {
    hide IsRun, TableInv, SnapshotWithin, Constructed;
    RunInv(run, i);
    var c, d := run[i].ctors[p], run[i].ctors[q];
    assert CtorInv(run[i].table, c) && CtorInv(run[i].table, d);
    WithinMeansRows(Outcome(c).value.keys, run[i].table);
    var a, b := Outcome(c).value.keys, Outcome(d).value.keys;
    forall v | v in a.byVersion && v in b.byVersion ensures a.byVersion[v].key == b.byVersion[v].key {
      SnapshotsAgree(a, b, run[i].table, v);
    }
    ConstructedIsSound(c.inputs, c.first, c.insert, c.second);
  }
}
