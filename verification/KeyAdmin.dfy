/** The three administrative operations on the key table: what they accept, the
    transaction each runs, and every way each can end. */
module KeyAdmin {
  import opened Wrappers
  import opened Aead
  import opened Blobs
  import opened KeySets
  import opened KeyTables
  import opened KeyMaterial
  import opened KeyStores
  import opened Ciphers

  // ------------------------------------------------------------------ the transaction bracket

  /** A commit can land and still be reported as failed. */
  datatype CommitAnswer = Commits | CommitRefused | CommitUnreported

  /** Which parts of the transaction the environment lets through. */
  datatype Conditions = Conditions(begins: bool, firstRuns: bool, secondRuns: bool, observes: bool, commit: CommitAnswer) {
    predicate Fair() { begins && firstRuns && secondRuns && observes && commit.Commits? }
  }

  datatype TxError<E> = BodyFailed(e: E) | CommitFailed

  /** txhelper's second half: roll back on any error of the body, otherwise commit. */
  method EndTx<T, E>(db: KeyDb, body: Result<T, E>, commit: CommitAnswer) returns (r: Result<T, TxError<E>>)
    requires db.Valid()
    modifies db
    ensures db.Valid() && db.nextVersion == old(db.nextVersion)
    ensures r == if body.Err? then Err(BodyFailed(body.error))
                 else if commit.Commits? then Ok(body.value) else Err(CommitFailed)
    ensures db.committed == if body.Err? || commit.CommitRefused? then old(db.committed) else old(db.working)
  {
    if body.Err? {
      db.Rollback();
      return Err(BodyFailed(body.error));
    }
    if !commit.CommitRefused? {
      db.Commit();
    }
    return if commit.Commits? then Ok(body.value) else Err(CommitFailed);
  }

  // ------------------------------------------------------------------ validation

  datatype RotateRequest = RotateRequest(keyHex: Option<string>, compromised: bool, graceDays: Option<int>)

  datatype RotateError =
    | GraceWithCompromised
    | GraceTooSmall
    | GraceInvalid
    | BadKeyHex(m: MaterialError)
    | NoRandomness
    | NothingToRetire
    | MaterialInUse
    | Fault

  function GraceDays(days: Option<int>): (r: Option<Option<nat>>) {
    if days.None? then Some(None)
    else if days.value < 0 || days.value > MAX_GRACE_DAYS then None
    else Some(Some(days.value))
  }

  /** The new key's material: what the operator supplied, or 32 random bytes. */
  function NewMaterial(keyHex: Option<string>, generated: Option<seq<byte>>): (r: Result<seq<byte>, RotateError>) {
    match keyHex
    case Some(hex) =>
      (match Material(hex)
       case Err(e) => Err(BadKeyHex(e))
       case Ok(key) => Ok(key))
    case None => if generated.None? then Err(NoRandomness) else Ok(generated.value)
  }

  datatype NewKey = NewKey(key: seq<byte>, grace: Option<nat>, compromised: bool)

  function ValidateRotate(req: RotateRequest, generated: Option<seq<byte>>): (r: Result<NewKey, RotateError>) {
    if req.compromised && req.graceDays.Some? then Err(GraceWithCompromised)
    else if req.graceDays.Some? && req.graceDays.value < 1 then Err(GraceTooSmall)
    else
      match GraceDays(req.graceDays)
      case None => Err(GraceInvalid)
      case Some(grace) =>
        match NewMaterial(req.keyHex, generated)
        case Err(e) => Err(e)
        case Ok(key) => Ok(NewKey(key, grace, req.compromised))
  }

  /** Every way validation can end, in the order the checks are made. */
  lemma ValidateRotateExactlyWhen(req: RotateRequest, generated: Option<seq<byte>>)
    ensures var r := ValidateRotate(req, generated);
            var daysOk := req.graceDays.None? || (!req.compromised && 1 <= req.graceDays.value <= 36500);
            && (r == Err(GraceWithCompromised) <==> req.compromised && req.graceDays.Some?)
            && (r == Err(GraceTooSmall) <==> !req.compromised && req.graceDays.Some? && req.graceDays.value < 1)
            && (r == Err(GraceInvalid) <==> !req.compromised && req.graceDays.Some? && req.graceDays.value > 36500)
            && (r == Err(NoRandomness) <==> daysOk && req.keyHex.None? && generated.None?)
            && (daysOk && req.keyHex.Some? ==>
                  match Material(req.keyHex.value)
                  case Err(m) => r == Err(BadKeyHex(m))
                  case Ok(key) => r == Ok(NewKey(key, req.graceDays, req.compromised)))
            && (daysOk && req.keyHex.None? && generated.Some? ==>
                  r == Ok(NewKey(generated.value, req.graceDays, req.compromised)))
  {
  }

  /** The rotations that get past validation are exactly the accepted ones: no
      deadline on a compromised key, no deadline under a day, usable material. */
  lemma RotationsAreTheAcceptedOnes(req: RotateRequest, generated: Option<seq<byte>>, version: uint32, now: Time,
                                    key: seq<byte>, grace: Option<nat>, compromised: bool)
    requires generated.Some? ==> IsKeyMaterial(generated.value)
    ensures var r := ValidateRotate(req, generated);
            r.Ok? ==> Accepted(Op.Rotate(version, r.value.key, r.value.grace, r.value.compromised, now))
    ensures Accepted(Op.Rotate(version, key, grace, compromised, now)) ==>
              var days := if grace.None? then None else Some(grace.value as int);
              ValidateRotate(RotateRequest(Some(HexEncode(key)), compromised, days), generated)
              == Ok(NewKey(key, grace, compromised))
  {
    MaterialExactlyWhen(if req.keyHex.Some? then req.keyHex.value else "", key);
  }

  datatype GraceBody = NoBody | WithoutField | Given(days: Option<int>)

  datatype UpdateError = VersionInvalid | GraceRequired | GraceOutOfRange | NoSuchKey | VersionActive | UpdateFault

  function VersionParam(version: Option<int>): (r: Option<uint32>) {
    if version.Some? && 1 <= version.value <= MAX_VERSION then Some(version.value) else None
  }

  function ValidateGrace(version: Option<int>, body: GraceBody): (r: Result<FlagChange, UpdateError>) {
    if VersionParam(version).None? then Err(VersionInvalid)
    else if !body.Given? then Err(GraceRequired)
    else
      match GraceDays(body.days)
      case None => Err(GraceOutOfRange)
      case Some(days) => Ok(Grace(days))
  }

  /** A deadline is cleared only on an explicit null, and no other body is read as one. */
  lemma OnlyNullClears(version: Option<int>, body: GraceBody, now: Time)
    ensures ValidateGrace(version, body) == Ok(Grace(None)) <==> VersionParam(version).Some? && body == Given(None)
    ensures ValidateGrace(version, body).Ok? ==> forall v :: Accepted(Flag(v, ValidateGrace(version, body).value, now))
    ensures forall v, days: Option<nat> | Accepted(Flag(v, Grace(days), now)) && VersionParam(version).Some? ::
              ValidateGrace(version, Given(if days.None? then None else Some(days.value as int))) == Ok(Grace(days))
  {
  }

  // ------------------------------------------------------------------ rotation

  datatype Rotated = Rotated(retired: uint32, active: uint32)

  /** The transaction body, between begin and commit. */
  method RotateBody(db: KeyDb, rot: NewKey, now: Time, w: Conditions) returns (r: Result<Rotated, RotateError>)
    requires db.Valid() && db.working == db.committed
    modifies db`working, db`nextVersion
    ensures db.Valid()
    ensures r.Ok? <==> && w.firstRuns && w.secondRuns && w.observes
                       && SomeActive(db.committed) && !KeyInUse(db.committed, rot.key) && old(db.nextVersion) <= MAX_VERSION
    ensures r.Ok? ==> && r.value.retired in db.committed && IsActive(db.committed[r.value.retired])
                      && Applies(db.committed, Op.Rotate(r.value.active, rot.key, rot.grace, rot.compromised, now))
                      && db.working == Apply(db.committed, Op.Rotate(r.value.active, rot.key, rot.grace, rot.compromised, now))
    ensures r == Err(NothingToRetire) <==> w.firstRuns && !SomeActive(db.committed)
    ensures r == Err(MaterialInUse) <==>
              && w.firstRuns && w.secondRuns && SomeActive(db.committed)
              && old(db.nextVersion) <= MAX_VERSION && KeyInUse(db.committed, rot.key)
    ensures r.Ok? || r == Err(NothingToRetire) || r == Err(MaterialInUse) || r == Err(Fault)
  {
    if !w.firstRuns {
      return Err(Fault);
    }
    var retired := db.RetireActive(now, rot.grace, rot.compromised);
    if retired.None? {
      return Err(NothingToRetire);
    }
    ghost var between := db.working;
    assert forall v | v in db.committed :: between[v].key == db.committed[v].key && !IsActive(between[v]);
    assert KeyInUse(between, rot.key) <==> KeyInUse(db.committed, rot.key) by {
      if v :| v in db.committed && db.committed[v].key == rot.key {
        assert between[v].key == rot.key;
      }
    }
    if !w.secondRuns {
      return Err(Fault);
    }
    var inserted := db.InsertActive(rot.key);
    if inserted.Err? {
      return if inserted.error.UniqueKey? then Err(MaterialInUse) else Err(Fault);
    }
    if !w.observes {
      return Err(Fault);
    }
    return Ok(Rotated(retired.value, inserted.value));
  }

  /** What a rotation does to the table, row by row. */
  lemma RotatedRows(t: Table, op: Op, t': Table)
    requires op.Rotate? && op.version !in t && t' == Apply(t, op)
    ensures t'.Keys == t.Keys + {op.version} && t'[op.version] == Row(op.key, None, None, None)
    ensures forall v | v in t ::
              t'[v] == if t[v].retiredAt.Some? then t[v]
                       else Row(t[v].key, Some(op.now),
                                if op.grace.None? then None else Some(op.now + op.grace.value * 86_400_000_000_000),
                                if op.compromised then Some(op.now) else None)
  {
  }

  /** Rotate. Success means the table took exactly the accepted rotation; every
      failure that was not an unreported commit left it alone. */
  method Rotate(db: KeyDb, req: RotateRequest, generated: Option<seq<byte>>, now: Time, w: Conditions)
    returns (r: Result<Rotated, RotateError>)
    requires db.Valid() && (generated.Some? ==> IsKeyMaterial(generated.value))
    modifies db
    ensures db.Valid()
    ensures ValidateRotate(req, generated).Err? ==> r == Err(ValidateRotate(req, generated).error)
    ensures r.Ok? ==>
              && ValidateRotate(req, generated).Ok?
              && r.value.retired in old(db.committed) && IsActive(old(db.committed)[r.value.retired])
              && var rot := ValidateRotate(req, generated).value;
                 TableStep(old(db.committed), Op.Rotate(r.value.active, rot.key, rot.grace, rot.compromised, now), db.committed)
    ensures r.Ok? ==>
              && (req.graceDays.Some? ==> 1 <= req.graceDays.value <= 36500)
              && r.value.active !in old(db.committed)
              && db.committed.Keys == old(db.committed).Keys + {r.value.active}
              && forall v | v in old(db.committed) ::
                   var was := old(db.committed)[v];
                   db.committed[v] == if was.retiredAt.Some? then was
                                      else Row(was.key, Some(now),
                                               if req.graceDays.None? then None
                                               else Some(now + req.graceDays.value * 86_400_000_000_000),
                                               if req.compromised then Some(now) else None)
    ensures r.Ok? ==>
              && db.committed[r.value.active].retiredAt.None? && db.committed[r.value.active].decryptableUntil.None?
              && db.committed[r.value.active].compromisedAt.None?
              && (if req.keyHex.Some? then Material(req.keyHex.value) == Ok(db.committed[r.value.active].key)
                  else generated == Some(db.committed[r.value.active].key))
    ensures r.Err? && !w.commit.CommitUnreported? ==> db.committed == old(db.committed)
    ensures ValidateRotate(req, generated).Ok? && w.begins ==>
              var key := ValidateRotate(req, generated).value.key;
              && (r == Err(NothingToRetire) <==> w.firstRuns && !SomeActive(old(db.committed)))
              && (r == Err(MaterialInUse) <==>
                    && w.firstRuns && w.secondRuns && SomeActive(old(db.committed))
                    && old(db.nextVersion) <= MAX_VERSION && KeyInUse(old(db.committed), key))
              && (r.Ok? <==> && w.Fair() && SomeActive(old(db.committed)) && !KeyInUse(old(db.committed), key)
                             && old(db.nextVersion) <= MAX_VERSION)
    ensures !w.begins && ValidateRotate(req, generated).Ok? ==> r == Err(Fault)
  {
    hide ValidateRotate, Apply, SomeActive, KeyInUse, IsActive;
    var valid := ValidateRotate(req, generated);
    ValidateRotateExactlyWhen(req, generated);
    if valid.Err? {
      return Err(valid.error);
    }
    if !w.begins {
      return Err(Fault);
    }
    RotationsAreTheAcceptedOnes(req, generated, 0, now, valid.value.key, valid.value.grace, valid.value.compromised);
    db.Begin();
    var body := RotateBody(db, valid.value, now, w);
    var ended := EndTx(db, body, w.commit);
    match ended {
      case Ok(rotated) =>
        RotatedRows(old(db.committed), Op.Rotate(rotated.active, valid.value.key, valid.value.grace,
                                                 valid.value.compromised, now), db.committed);
        return Ok(rotated);
      case Err(BodyFailed(e)) => return Err(e);
      case Err(CommitFailed) => return Err(Fault);
    }
  }

  /** A rotation served by this process is followed by a reload of its own cipher:
      unless the load fails, it seals under the new version from then on. A failed
      reload does not fail the request. A snapshot whose load began after the reload
      entered is kept: that load already saw the rotation. */
  method RotateAndReload(db: KeyDb, cipher: Cipher, req: RotateRequest, generated: Option<seq<byte>>,
                         now: Time, w: Conditions, entered: Time, startedAt: Time, queried: Time, storeUp: bool)
    returns (r: Result<Rotated, RotateError>)
    requires db.Valid() && TableInv(db.committed) && (generated.Some? ==> IsKeyMaterial(generated.value))
    modifies db, cipher
    ensures db.Valid() && (r.Ok? ==> TableInv(db.committed) && db.committed != map[])
    ensures r.Ok? && storeUp && old(cipher.keys.loadedAt) <= entered ==>
              && cipher.keys == SnapshotOf(db.committed, queried, startedAt)
              && cipher.keys.active == r.value.active && cipher.keys.active > r.value.retired
    ensures r.Err? || !storeUp || old(cipher.keys.loadedAt) > entered ==> cipher.keys == old(cipher.keys)
  {
    hide TableInv, TableStep, IsListing, Build, SnapshotOf, ValidateRotate, SomeActive, KeyInUse, IsActive;
    r := Rotate(db, req, generated, now, w);
    if r.Err? {
      return;
    }
    var rot := ValidateRotate(req, generated).value;
    RotationTakesOver(old(db.committed), Op.Rotate(r.value.active, rot.key, rot.grace, rot.compromised, now),
                      db.committed, r.value.retired);
    if !storeUp {
      var _ := cipher.TryReload(entered, startedAt, Failure(false));
      return;
    }
    var records := Load(db, queried);
    ListingBuilds(Views(records), db.committed, queried, startedAt);
    SnapshotActive(db.committed, queried, startedAt);
    var _ := cipher.TryReload(entered, startedAt, Records(records));
  }

  lemma RotationTakesOver(t: Table, op: Op, t': Table, retired: uint32)
    requires TableInv(t) && op.Rotate? && TableStep(t, op, t') && retired in t
    ensures TableInv(t') && t' != map[] && ActiveVersion(t') == op.version && op.version > retired
  {
    RotateKeepsInv(t, op);
    OnlyOneActive(t', op.version);
  }

  lemma SnapshotActive(t: Table, now: Time, loadedAt: Time)
    requires TableInv(t) && t != map[]
    ensures SnapshotOf(t, now, loadedAt).active == ActiveVersion(t)
  {
    hide TableInv;
  }

  // ------------------------------------------------------------------ flags

  /** loadRetiredKey, then the update; `firstRuns` lets the point query through,
      `secondRuns` the update. */
  method UpdateBody(db: KeyDb, version: uint32, change: FlagChange, now: Time, w: Conditions) returns (r: Result<Row, UpdateError>)
    requires db.Valid() && db.working == db.committed
    modifies db`working
    ensures db.Valid()
    ensures r == Err(NoSuchKey) <==> w.firstRuns && version !in db.committed
    ensures r == Err(VersionActive) <==> w.firstRuns && version in db.committed && IsActive(db.committed[version])
    ensures r.Ok? <==> && w.firstRuns && w.secondRuns && w.observes && Applies(db.committed, Flag(version, change, now))
    ensures r.Ok? ==> r.value == FlaggedRow(db.committed[version], change, now)
                      && db.working == Apply(db.committed, Flag(version, change, now))
    ensures r.Ok? || r == Err(NoSuchKey) || r == Err(VersionActive) || r == Err(UpdateFault)
  {
    if !w.firstRuns {
      return Err(UpdateFault);
    }
    if version !in db.working {
      return Err(NoSuchKey);
    }
    if IsActive(db.working[version]) {
      return Err(VersionActive);
    }
    if !w.secondRuns {
      return Err(UpdateFault);
    }
    var updated := db.UpdateFlag(version, change, now);
    if updated.Err? || !w.observes {
      return Err(UpdateFault);
    }
    return Ok(updated.value);
  }

  /** The transaction both update routes run. */
  method UpdateKey(db: KeyDb, version: uint32, change: FlagChange, now: Time, w: Conditions) returns (r: Result<Row, UpdateError>)
    requires db.Valid() && Accepted(Flag(version, change, now))
    modifies db
    ensures db.Valid()
    ensures r == Err(NoSuchKey) <==> w.begins && w.firstRuns && version !in old(db.committed)
    ensures r == Err(VersionActive) <==>
              w.begins && w.firstRuns && version in old(db.committed) && IsActive(old(db.committed)[version])
    ensures r.Ok? <==> w.Fair() && Applies(old(db.committed), Flag(version, change, now))
    ensures r.Ok? ==> && TableStep(old(db.committed), Flag(version, change, now), db.committed)
                      && r.value == db.committed[version]
    ensures r.Err? && !w.commit.CommitUnreported? ==> db.committed == old(db.committed)
    ensures r.Ok? || r == Err(NoSuchKey) || r == Err(VersionActive) || r == Err(UpdateFault)
  {
    if !w.begins {
      return Err(UpdateFault);
    }
    db.Begin();
    var body := UpdateBody(db, version, change, now, w);
    var ended := EndTx(db, body, w.commit);
    match ended {
      case Ok(row) => return Ok(row);
      case Err(BodyFailed(e)) => return Err(e);
      case Err(CommitFailed) => return Err(UpdateFault);
    }
  }

  /** Marking an already compromised key again reports the first time. */
  method MarkCompromised(db: KeyDb, version: Option<int>, now: Time, w: Conditions) returns (r: Result<Row, UpdateError>)
    requires db.Valid()
    modifies db
    ensures db.Valid()
    ensures r == Err(VersionInvalid) <==> version.None? || !(1 <= version.value <= 0x7fff_ffff)
    ensures r.Ok? ==>
              && var v: uint32 := version.value;
                 && TableStep(old(db.committed), Flag(v, Compromise, now), db.committed)
                 && v in old(db.committed) && v in db.committed && r.value == db.committed[v]
                 && db.committed == old(db.committed)[v := r.value]
                 && var was := old(db.committed)[v];
                    r.value == Row(was.key, was.retiredAt, was.decryptableUntil,
                                   if was.compromisedAt.Some? then was.compromisedAt else Some(now))
    ensures r.Err? && !w.commit.CommitUnreported? ==> db.committed == old(db.committed)
    ensures r != Err(VersionInvalid) && w.Fair() && TableInv(old(db.committed)) ==>
              var v: uint32 := version.value;
              && (r == Err(NoSuchKey) <==> v !in old(db.committed))
              && (r == Err(VersionActive) <==> v in old(db.committed) && IsActive(old(db.committed)[v]))
              && (r.Ok? <==> v in old(db.committed) && !IsActive(old(db.committed)[v]))
  {
    var v := VersionParam(version);
    if v.None? {
      return Err(VersionInvalid);
    }
    r := UpdateKey(db, v.value, Compromise, now, w);
  }

  method SetGrace(db: KeyDb, version: Option<int>, body: GraceBody, now: Time, w: Conditions) returns (r: Result<Row, UpdateError>)
    requires db.Valid()
    modifies db
    ensures db.Valid()
    ensures r == Err(VersionInvalid) <==> version.None? || !(1 <= version.value <= 0x7fff_ffff)
    ensures r == Err(GraceRequired) <==> r != Err(VersionInvalid) && !body.Given?
    ensures r == Err(GraceOutOfRange) <==>
              && r != Err(VersionInvalid) && body.Given? && body.days.Some?
              && !(0 <= body.days.value <= 36500)
    ensures r.Ok? ==>
              && ValidateGrace(version, body).Ok?
              && var v: uint32 := version.value;
                 && TableStep(old(db.committed), Flag(v, ValidateGrace(version, body).value, now), db.committed)
                 && v in old(db.committed) && v in db.committed && r.value == db.committed[v]
                 && db.committed == old(db.committed)[v := r.value]
                 && var was := old(db.committed)[v];
                    r.value == Row(was.key, was.retiredAt,
                                   if body.days.None? then None else Some(now + body.days.value * 86_400_000_000_000),
                                   was.compromisedAt)
    ensures r.Err? && !w.commit.CommitUnreported? ==> db.committed == old(db.committed)
    ensures ValidateGrace(version, body).Ok? && w.Fair() && TableInv(old(db.committed)) ==>
              var v: uint32 := version.value;
              && (r == Err(NoSuchKey) <==> v !in old(db.committed))
              && (r == Err(VersionActive) <==> v in old(db.committed) && IsActive(old(db.committed)[v]))
              && (r.Ok? <==> && v in old(db.committed) && !IsActive(old(db.committed)[v])
                             && (body.days.Some? ==>
                                   now + body.days.value * 86_400_000_000_000 >= old(db.committed)[v].retiredAt.value))
  {
    var valid := ValidateGrace(version, body);
    if valid.Err? {
      return Err(valid.error);
    }
    r := UpdateKey(db, VersionParam(version).value, valid.value, now, w);
  }

  /** The database refuses a deadline before the retirement. That takes a
      transaction that began before the key was retired: otherwise every accepted
      deadline fits. */
  lemma DeadlineFitsAfterRetirement(row: Row, days: Option<int>, now: Time)
    requires GraceDays(days).Some? && row.retiredAt.Some? && row.retiredAt.value <= now
    ensures days.Some? ==> now + days.value * 86_400_000_000_000 >= row.retiredAt.value
  {
    if days.Some? {
      assert days.value * DAY >= 0;
    }
  }
}
