/** Constructing a Cipher from the key store: load every usable key, establish
    the first one on an empty table, and hold the environment's seed to the key
    that is active. */
module Bootstrap {
  import opened Wrappers
  import opened Aead
  import opened Blobs
  import opened KeySets
  import opened KeyTables
  import opened KeyMaterial
  import opened Ciphers
  import opened KeyStores

  /** What the guarded insert answered. */
  datatype InsertAnswer = Inserted(rec: Record) | NothingInserted | InsertFailed

  datatype ConstructError =
    | BadSeed(m: MaterialError)
    | LoadError
    | NoRandomness
    | PersistError
    | NoUsableKey
    | BadKeys(e: BuildError)
    | SeedMismatch(active: uint32)

  /** `env` is the environment variable; `generated` is what the randomness source
      delivers, when it does; `t0` and `t1` are the clock before the first load
      and before the insert. */
  datatype Inputs = Inputs(env: Option<string>, generated: Option<seq<byte>>, t0: Time, t1: Time)

  function EnvSeed(env: Option<string>): (r: Result<Option<seq<byte>>, MaterialError>) {
    if env.None? then Ok(None)
    else
      match Material(env.value)
      case Err(e) => Err(e)
      case Ok(key) => Ok(Some(key))
  }

  /** The environment's seed, or a generated key. */
  function SeedFor(inputs: Inputs): (seed: Option<seq<byte>>) {
    match EnvSeed(inputs.env)
    case Ok(Some(key)) => Some(key)
    case _ => inputs.generated
  }

  /** The records to adopt, given everything the store answered. */
  function Adopted(inputs: Inputs, first: Answer, insert: InsertAnswer, second: Answer)
    : (r: Result<seq<Record>, ConstructError>)
  {
    match first
    case LoadFailed(_) => Err(LoadError)
    case Rows(recs) =>
      if recs != [] then Ok(recs)
      else if SeedFor(inputs).None? then Err(NoRandomness)
      else
        match insert
        case Inserted(rec) => Ok([rec])
        case InsertFailed => Err(PersistError)
        case NothingInserted =>
          match second
          case LoadFailed(_) => Err(LoadError)
          case Rows(again) => if again == [] then Err(NoUsableKey) else Ok(again)
  }

  function StartedAt(inputs: Inputs, first: Answer): (t: Time) {
    if first.Rows? && first.recs == [] then inputs.t1 else inputs.t0
  }

  /** The first unretired record decides; None is a pass. */
  function SeedConflict(seed: Option<seq<byte>>, recs: seq<Record>): (active: Option<uint32>) {
    if seed.None? || recs == [] then None
    else if recs[0].retiredAt.Some? then SeedConflict(seed, recs[1..])
    else if recs[0].key == seed.value then None
    else Some(recs[0].version)
  }

  /** NewFromEnvOrGenerate, as a function of what it was given and answered. */
  function Constructed(inputs: Inputs, first: Answer, insert: InsertAnswer, second: Answer)
    : (r: Result<State, ConstructError>)
  {
    match EnvSeed(inputs.env)
    case Err(e) => Err(BadSeed(e))
    case Ok(seed) =>
      match Adopted(inputs, first, insert, second)
      case Err(e) => Err(e)
      case Ok(recs) =>
        match Build(recs, StartedAt(inputs, first))
        case Err(e) => Err(BadKeys(e))
        case Ok(keys) =>
          match SeedConflict(seed, recs)
          case Some(active) => Err(SeedMismatch(active))
          case None => Ok(State(keys, StartedAt(inputs, first)))
  }

  // ------------------------------------------------------------------ what it guarantees

  lemma {:induction false} ConflictAt(seed: seq<byte>, recs: seq<Record>, a: nat)
    requires a < |recs| && recs[a].retiredAt.None? && forall i | 0 <= i < a :: recs[i].retiredAt.Some?
    ensures SeedConflict(Some(seed), recs) == if recs[a].key == seed then None else Some(recs[a].version)
  {
    if a > 0 {
      assert forall i | 0 <= i < a - 1 :: recs[1..][i] == recs[i + 1];
      ConflictAt(seed, recs[1..], a - 1);
    }
  }

  /** On records that build, a seed passes exactly when it is the active key, and
      a conflict names the active version. */
  lemma SeedPassesExactlyWhen(seed: seq<byte>, recs: seq<Record>, loadedAt: Time)
    requires Build(recs, loadedAt).Ok?
    ensures var keys := Build(recs, loadedAt).value;
            && keys.active in keys.byVersion
            && SeedConflict(Some(seed), recs)
               == if keys.byVersion[keys.active].key == seed then None else Some(keys.active)
  {
    BuildSucceedsExactlyWhen(recs, loadedAt);
    var keys := Build(recs, loadedAt).value;
    var a :| 0 <= a < |recs| && recs[a].retiredAt.None? && recs[a].version == keys.active;
    assert forall i | 0 <= i < a :: recs[i].retiredAt.Some?;
    ConflictAt(seed, recs, a);
  }

  /** A constructed cipher holds a well-formed snapshot, its rate limit counts
      from the load, and a seed that was given is its active key. */
  lemma ConstructedIsSound(inputs: Inputs, first: Answer, insert: InsertAnswer, second: Answer)
    requires Constructed(inputs, first, insert, second).Ok?
    ensures var st := Constructed(inputs, first, insert, second).value;
            && WellFormed(st.keys) && st.lastLoadAttempt == st.keys.loadedAt
            && (inputs.env.Some? ==>
                  && Material(inputs.env.value).Ok?
                  && st.keys.byVersion[st.keys.active].key == Material(inputs.env.value).value)
  {
    var recs := Adopted(inputs, first, insert, second).value;
    BuildSucceedsExactlyWhen(recs, StartedAt(inputs, first));
    if inputs.env.Some? {
      SeedPassesExactlyWhen(Material(inputs.env.value).value, recs, StartedAt(inputs, first));
    }
  }

  /** The environment's seed comes first: the generated key is used exactly when the
      variable is not set. */
  lemma SeedIsTheEnvironments(inputs: Inputs)
    ensures EnvSeed(inputs.env).Err? <==> inputs.env.Some? && Material(inputs.env.value).Err?
    ensures EnvSeed(inputs.env).Err? ==> EnvSeed(inputs.env) == Err(Material(inputs.env.value).error)
    ensures EnvSeed(inputs.env).Ok? ==>
              && EnvSeed(inputs.env) == Ok(if inputs.env.Some? then Some(Material(inputs.env.value).value) else None)
              && SeedFor(inputs) == if inputs.env.Some? then Some(Material(inputs.env.value).value) else inputs.generated
  {
  }

  /** How the guarded insert can turn out against the committed table. */
  ghost predicate InsertAnswers(t: Table, seed: seq<byte>, answer: InsertAnswer, t': Table) {
    match answer
    case Inserted(rec) =>
      && t == map[] && 0 < rec.version <= MAX_VERSION
      && t' == map[rec.version := FreshRow(seed)] && rec == RecordOf(rec.version, FreshRow(seed))
    case NothingInserted => t != map[] && t' == t
    case InsertFailed =>
      || t' == t
      || (t == map[] && exists v: uint32 :: 0 < v <= MAX_VERSION && t' == map[v := FreshRow(seed)])
  }

  /** The first row of a table is what a load lists of it at any time. */
  lemma FirstRowListed(v: uint32, seed: seq<byte>, now: Time)
    ensures IsListing([RecordOf(v, FreshRow(seed))], map[v := FreshRow(seed)], now)
  {
    assert [RecordOf(v, FreshRow(seed))][0].version == v;
  }

  /** After an empty first load, what is adopted is a listing of the table as the
      insert left it: of the one row this constructor inserted, or of rows that were
      there before it; and the insert never adds to a table that has rows. There is
      nothing to adopt exactly when the insert or the second load fails, or when the
      table has rows and lists none. */
  lemma AdoptedAreTableRows(inputs: Inputs, t: Table, t': Table, insert: InsertAnswer, second: Answer, now: Time)
    requires SeedFor(inputs).Some? && InsertAnswers(t, SeedFor(inputs).value, insert, t')
    requires second.Rows? ==> IsListing(second.recs, t', now)
    ensures var adopted := Adopted(inputs, Rows([]), insert, second);
            && (adopted.Ok? ==> adopted.value != [] && t' != map[] && IsListing(adopted.value, t', now))
            && (t != map[] ==> t' == t)
            && (adopted.Ok? <==> insert.Inserted? || (insert.NothingInserted? && second.Rows? && SomeUsable(t', now)))
            && (adopted == Err(NoUsableKey) <==> insert.NothingInserted? && second.Rows? && !SomeUsable(t', now))
  {
    if insert.Inserted? {
      FirstRowListed(insert.rec.version, SeedFor(inputs).value, now);
      assert insert.rec.version in t';
    } else if insert.NothingInserted? && second.Rows? {
      ListsSomeExactlyWhen(second.recs, t', now);
    }
  }

  ghost predicate SomeUsable(t: Table, now: Time) { exists v :: v in t && UsableRow(t[v], now) }

  lemma ListsSomeExactlyWhen(recs: seq<Record>, t: Table, now: Time)
    requires IsListing(recs, t, now)
    ensures recs != [] <==> SomeUsable(t, now)
  {
    if recs != [] {
      FirstListed(recs, t, now);
    } else {
      NothingListedNothingUsable(t, now);
    }
  }

  lemma NothingListedNothingUsable(t: Table, now: Time)
    requires IsListing([], t, now)
    ensures !SomeUsable(t, now)
  {
  }

  /** The seed the environment demands, if it is set, is the active key. */
  predicate SeedAgrees(inputs: Inputs, active: seq<byte>) {
    inputs.env.Some? ==> Material(inputs.env.value) == Ok(active)
  }

  lemma BuiltConstructs(inputs: Inputs, first: Answer, insert: InsertAnswer, second: Answer, recs: seq<Record>)
    requires (inputs.env.Some? ==> Material(inputs.env.value).Ok?) && Adopted(inputs, first, insert, second) == Ok(recs)
    requires Build(recs, StartedAt(inputs, first)).Ok?
    ensures var keys := Build(recs, StartedAt(inputs, first)).value;
            && keys.active in keys.byVersion
            && Constructed(inputs, first, insert, second)
               == if SeedAgrees(inputs, keys.byVersion[keys.active].key) then Ok(State(keys, StartedAt(inputs, first)))
                  else Err(SeedMismatch(keys.active))
  {
    BuildSucceedsExactlyWhen(recs, StartedAt(inputs, first));
    if inputs.env.Some? {
      SeedPassesExactlyWhen(Material(inputs.env.value).value, recs, StartedAt(inputs, first));
    }
  }

  lemma ListedConstructs(inputs: Inputs, first: Answer, insert: InsertAnswer, second: Answer, recs: seq<Record>, t: Table,
                         now: Time)
    requires TableInv(t) && t != map[] && IsListing(recs, t, now)
    requires (inputs.env.Some? ==> Material(inputs.env.value).Ok?) && Adopted(inputs, first, insert, second) == Ok(recs)
    ensures Constructed(inputs, first, insert, second)
            == if SeedAgrees(inputs, t[ActiveVersion(t)].key)
               then Ok(State(SnapshotOf(t, now, StartedAt(inputs, first)), StartedAt(inputs, first)))
               else Err(SeedMismatch(ActiveVersion(t)))
  {
    ListingBuilds(recs, t, now, StartedAt(inputs, first));
    SnapshotHoldsExactly(t, now, StartedAt(inputs, first), ActiveVersion(t));
    assert RowOk(t[ActiveVersion(t)]);
    hide TableInv, IsListing, Build, Adopted, SnapshotOf;
    BuiltConstructs(inputs, first, insert, second, recs);
    SnapshotActiveVersion(t, now, StartedAt(inputs, first));
  }

  lemma SnapshotActiveVersion(t: Table, now: Time, loadedAt: Time)
    requires TableInv(t) && t != map[]
    ensures SnapshotOf(t, now, loadedAt).active == ActiveVersion(t)
  {
    hide TableInv;
  }

  /** On a table that has been bootstrapped, construction adopts the table as the
      first load saw it, as of the clock before that load, and asks for nothing
      else; it fails exactly when a seed is set that is not the active key. */
  lemma BootstrappedTableConstructs(inputs: Inputs, recs: seq<Record>, t: Table, now: Time, insert: InsertAnswer, second: Answer)
    requires TableInv(t) && t != map[] && IsListing(recs, t, now) && (inputs.env.Some? ==> Material(inputs.env.value).Ok?)
    ensures Constructed(inputs, Rows(recs), insert, second)
            == if SeedAgrees(inputs, t[ActiveVersion(t)].key) then Ok(State(SnapshotOf(t, now, inputs.t0), inputs.t0))
               else Err(SeedMismatch(ActiveVersion(t)))
  {
    ListingNotEmpty(recs, t, now);
    hide TableInv, IsListing, Constructed;
    ListedConstructs(inputs, Rows(recs), insert, second, recs, t, now);
  }

  lemma ListingNotEmpty(recs: seq<Record>, t: Table, now: Time)
    requires TableInv(t) && t != map[] && IsListing(recs, t, now)
    ensures recs != []
  {
    assert UsableRow(t[ActiveVersion(t)], now);
  }

  /** A lost race: the same, of the table the second load saw, as of the clock
      before the insert. */
  lemma LostRaceConstructs(inputs: Inputs, recs: seq<Record>, t: Table, now: Time)
    requires TableInv(t) && t != map[] && IsListing(recs, t, now) && (inputs.env.Some? ==> Material(inputs.env.value).Ok?)
    requires inputs.env.Some? || inputs.generated.Some?
    ensures Constructed(inputs, Rows([]), NothingInserted, Rows(recs))
            == if SeedAgrees(inputs, t[ActiveVersion(t)].key) then Ok(State(SnapshotOf(t, now, inputs.t1), inputs.t1))
               else Err(SeedMismatch(ActiveVersion(t)))
  {
    ListingNotEmpty(recs, t, now);
    hide TableInv, IsListing, Constructed;
    ListedConstructs(inputs, Rows([]), NothingInserted, Rows(recs), recs, t, now);
  }

  /** A first boot: the row is the environment's seed when that is set and the
      generated key otherwise, and construction succeeds with it as the only key. */
  lemma FirstBootConstructs(inputs: Inputs, seed: seq<byte>, rec: Record, t': Table, second: Answer)
    requires if inputs.env.Some? then Material(inputs.env.value) == Ok(seed)
             else inputs.generated == Some(seed) && IsKeyMaterial(seed)
    requires InsertAnswers(map[], seed, Inserted(rec), t')
    ensures SeedFor(inputs) == Some(seed) && t' == map[rec.version := Row(seed, None, None, None)]
    ensures Constructed(inputs, Rows([]), Inserted(rec), second)
            == Ok(State(KeySet(rec.version, map[rec.version := KeyEntry(seed, None, None)], inputs.t1), inputs.t1))
  {
    MaterialExactlyWhen(if inputs.env.Some? then inputs.env.value else "", []);
    StepKeepsInv(map[], Init(rec.version, seed), t');
    assert rec.version in t';
    FirstRowListed(rec.version, seed, 0);
    OnlyOneActive(t', rec.version);
    SnapshotOfFirstRow(t', rec.version, seed, inputs.t1);
    hide TableInv, IsListing, Constructed, SnapshotOf;
    ListedConstructs(inputs, Rows([]), Inserted(rec), second, [rec], t', 0);
  }

  lemma SnapshotOfFirstRow(t: Table, v: uint32, seed: seq<byte>, loadedAt: Time)
    requires t == map[v := FreshRow(seed)] && TableInv(t) && t != map[] && ActiveVersion(t) == v
    ensures SnapshotOf(t, 0, loadedAt) == KeySet(v, map[v := KeyEntry(seed, None, None)], loadedAt)
  {
    hide TableInv;
  }

  /** And every failure of the environment or the store is an error of its own. */
  lemma FailuresConstructNothing(inputs: Inputs, first: Answer, insert: InsertAnswer, second: Answer)
    ensures var r := Constructed(inputs, first, insert, second);
            if inputs.env.Some? && Material(inputs.env.value).Err? then r == Err(BadSeed(Material(inputs.env.value).error))
            else if first.LoadFailed? then r == Err(LoadError)
            else
              first.recs == [] ==>
                if inputs.env.None? && inputs.generated.None? then r == Err(NoRandomness)
                else
                  && (insert.InsertFailed? ==> r == Err(PersistError))
                  && (insert.NothingInserted? && second.LoadFailed? ==> r == Err(LoadError))
                  && (insert.NothingInserted? && second == Rows([]) ==> r == Err(NoUsableKey))
  {
  }

  /** A table that has rows but no usable one, whatever else is wrong with it, is
      always an error, and it is left alone: no new key is ever written. */
  lemma UnusableTableIsAnError(t: Table, t': Table, inputs: Inputs, now0: Time, now1: Time,
                               first: Answer, insert: InsertAnswer, second: Answer)
    requires t != map[] && forall v | v in t :: !UsableRow(t[v], now0) && !UsableRow(t[v], now1)
    requires first.Rows? ==> IsListing(first.recs, t, now0)
    requires SeedFor(inputs).Some? ==> InsertAnswers(t, SeedFor(inputs).value, insert, t')
    requires second.Rows? ==> IsListing(second.recs, t, now1)
    ensures Constructed(inputs, first, insert, second).Err?
    ensures SeedFor(inputs).Some? ==> t' == t
  {
    if first.Rows? {
      NothingListed(first.recs, t, now0);
    }
    if second.Rows? {
      NothingListed(second.recs, t, now1);
    }
  }

  lemma NothingListed(recs: seq<Record>, t: Table, now: Time)
    requires IsListing(recs, t, now) && forall v | v in t :: !UsableRow(t[v], now)
    ensures recs == []
  {
    if recs != [] {
      FirstListed(recs, t, now);
    }
  }

  lemma FirstListed(recs: seq<Record>, t: Table, now: Time)
    requires IsListing(recs, t, now) && recs != []
    ensures recs[0].version in t && UsableRow(t[recs[0].version], now)
  {
  }

  // ------------------------------------------------------------------ the code

  /** The insert's answer as it is handed over, the key in a buffer. */
  datatype InsertHanded = InsertedRow(rec: KeyRecord) | Nothing | Failed

  function InsertAnswerOf(h: InsertHanded): (a: InsertAnswer)
    reads if h.InsertedRow? then {h.rec.keyBytes} else {}
  {
    match h
    case InsertedRow(rec) => Inserted(View(rec))
    case Nothing => NothingInserted
    case Failed => InsertFailed
  }

  function InsertBuffers(h: InsertHanded): (s: set<array<byte>>) {
    if h.InsertedRow? then {h.rec.keyBytes} else {}
  }

  /** The adapter's insert: the returned row is a copy in a buffer of its own, and
      goes through the adapter's mapping. */
  method InsertInitialKey(db: KeyDb, seed: seq<byte>) returns (h: InsertHanded)
    requires db.Valid()
    modifies db
    ensures db.Valid() && fresh(InsertBuffers(h))
    ensures InsertAnswers(old(db.committed), seed, InsertAnswerOf(h), db.committed)
    ensures h.InsertedRow? <==> old(db.committed) == map[] && old(db.nextVersion) <= MAX_VERSION
  {
    var r := db.InsertInitial(seed);
    match r {
      case Err(NoInsertedRow) => h := Nothing;
      case Err(InitialFailed) => h := Failed;
      case Ok(version) =>
        var b := new byte[|seed|](i requires 0 <= i < |seed| => seed[i]);
        assert b[..] == seed;
        h := HandOver(DbRow(version, b, None, None, None));
    }
  }

  /** A row that does not map is wiped and reported as a failed insert. */
  method HandOver(row: DbRow) returns (h: InsertHanded)
    modifies row.keyBytes
    ensures if row.version >= 0 then
              && h == InsertedRow(KeyRecord(row.version, row.keyBytes, row.retiredAt, row.decryptableUntil, row.compromisedAt))
              && row.keyBytes[..] == old(row.keyBytes[..])
            else h == Failed && Zeroed(row.keyBytes)
  {
    var rec := AdoptInsertedRow(row);
    h := if rec.Ok? then InsertedRow(rec.value) else Failed;
  }

  method CheckEnvSeed(seed: Option<seq<byte>>, records: seq<KeyRecord>) returns (conflict: Option<uint32>)
    ensures conflict == SeedConflict(seed, Views(records))
  {
    if seed.None? {
      return None;
    }
    ghost var views := Views(records);
    for i := 0 to |records|
      invariant SeedConflict(seed, views) == SeedConflict(seed, views[i..])
    {
      assert views[i] == View(records[i]) && views[i..][1..] == views[i + 1..];
      if records[i].retiredAt.None? {
        if records[i].keyBytes[..] == seed.value {
          return None;
        }
        return Some(records[i].version);
      }
    }
    return None;
  }

  /** bootstrap: what to adopt after the insert, before anything is built. The
      records are the ones the specification adopts, in the buffers they came in. */
  method AdoptFirstKey(ghost inputs: Inputs, insert: InsertHanded, second: Handed)
    returns (r: Result<seq<KeyRecord>, ConstructError>)
    requires SeedFor(inputs).Some?
    ensures Adopted(inputs, Rows([]), InsertAnswerOf(insert), AnswerOf(second))
            == if r.Ok? then Ok(Views(r.value)) else Err(r.error)
    ensures r.Ok? ==> Buffers(r.value) == if insert.InsertedRow? then InsertBuffers(insert) else HandedBuffers(second)
  {
    match insert {
      case InsertedRow(rec) =>
        assert Views([rec]) == [View(rec)];
        return Ok([rec]);
      case Failed => return Err(PersistError);
      case Nothing =>
        match second {
          case Failure(_) => return Err(LoadError);
          case Records(records) =>
            assert Views(records) == [] <==> records == [];
            if |records| == 0 {
              return Err(NoUsableKey);
            }
            return Ok(records);
        }
    }
  }

  /** The constructor. Whatever comes of it, the buffers of the records it adopted
      are wiped; the snapshot keeps its own copies. `asked` is the key it asked the
      store to insert, if it came to that. */
  method NewFromEnvOrGenerate(g: Aead, inputs: Inputs, first: Handed, insert: InsertHanded, second: Handed)
    returns (r: Result<Cipher, ConstructError>, asked: Option<seq<byte>>)
    modifies HandedBuffers(first), InsertBuffers(insert), HandedBuffers(second)
    ensures Constructed(inputs, old(AnswerOf(first)), old(InsertAnswerOf(insert)), old(AnswerOf(second)))
            == if r.Ok? then Ok(r.value.Value()) else Err(r.error)
    ensures asked == if (inputs.env.Some? && Material(inputs.env.value).Err?) || first.Failure? || first.records != [] then None
                     else if inputs.env.Some? then Some(Material(inputs.env.value).value) else inputs.generated
    ensures r.Ok? ==> fresh(r.value) && r.value.hasStore
    ensures EnvSeed(inputs.env).Ok? && first.Records? ==> forall b | b in HandedBuffers(first) :: Zeroed(b)
    ensures EnvSeed(inputs.env).Ok? && first.Records? && first.records == [] && SeedFor(inputs).Some? ==>
              if insert.InsertedRow? then Zeroed(insert.rec.keyBytes)
              else insert.Nothing? ==> forall b | b in HandedBuffers(second) :: Zeroed(b)
  {
    asked := None;
    var seed := EnvSeed(inputs.env);
    if seed.Err? {
      return Err(BadSeed(seed.error)), asked;
    }
    if first.Failure? {
      return Err(LoadError), asked;
    }
    var records, startedAt := first.records, inputs.t0;
    if |records| == 0 {
      if SeedFor(inputs).None? {
        return Err(NoRandomness), asked;
      }
      asked := SeedFor(inputs);
      startedAt := inputs.t1;
      assert Views(first.records) == [];
      var adopted := AdoptFirstKey(inputs, insert, second);
      if adopted.Err? {
        return Err(adopted.error), asked;
      }
      records := adopted.value;
    }
    ghost var recs := Views(records);
    assert Adopted(inputs, AnswerOf(first), InsertAnswerOf(insert), AnswerOf(second)) == Ok(recs);
    var built := BuildKeySet(records, startedAt);
    if built.Err? {
      ZeroKeyMaterial(records);
      return Err(BadKeys(built.error)), asked;
    }
    var conflict := CheckEnvSeed(seed.value, records);
    ZeroKeyMaterial(records);
    if conflict.Some? {
      return Err(SeedMismatch(conflict.value)), asked;
    }
    var cipher := new Cipher(g, true, built.value, startedAt);
    return Ok(cipher), asked;
  }
}
