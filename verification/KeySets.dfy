/** Building a snapshot from the records a key store returns: the validation,
    what it accepts, and who owns the key buffers meanwhile. */
module KeySets {
  import opened Wrappers
  import opened Aead
  import opened Blobs

  /** One key row as the cipher sees it. An unset `retiredAt` marks the active key. */
  datatype Record = Record(version: uint32, key: seq<byte>, retiredAt: Option<Time>,
                           decryptableUntil: Option<Time>, compromisedAt: Option<Time>)

  datatype BuildError =
    | VersionZeroIssued
    | DuplicateVersion(v: uint32)
    | BadLength(v: uint32)
    | AllZero(v: uint32)
    | TwoActive(first: uint32, second: uint32)
    | ActiveFlagged(v: uint32)
    | NoActive

  predicate AllZeroBytes(key: seq<byte>) {
    forall i | 0 <= i < |key| :: key[i] == 0
  }

  function NewKeyEntry(rec: Record): (r: Result<KeyEntry, BuildError>) {
    if |rec.key| != KEY_SIZE then Err(BadLength(rec.version))
    else if AllZeroBytes(rec.key) then Err(AllZero(rec.version))
    else Ok(KeyEntry(rec.key, rec.decryptableUntil, rec.compromisedAt))
  }

  /** The loop body: adds one record to a partly built set (`active` is 0 until
      the active record is met). */
  function AddRecord(keys: KeySet, rec: Record): (r: Result<KeySet, BuildError>) {
    if rec.version == 0 then Err(VersionZeroIssued)
    else if rec.version in keys.byVersion then Err(DuplicateVersion(rec.version))
    else
      match NewKeyEntry(rec)
      case Err(e) => Err(e)
      case Ok(entry) =>
        var grown := keys.(byVersion := keys.byVersion[rec.version := entry]);
        if rec.retiredAt.Some? then Ok(grown)
        else if keys.active != 0 then Err(TwoActive(keys.active, rec.version))
        else if rec.compromisedAt.Some? || rec.decryptableUntil.Some? then Err(ActiveFlagged(rec.version))
        else Ok(grown.(active := rec.version))
  }

  function BuildPrefix(recs: seq<Record>, n: nat, loadedAt: Time): (r: Result<KeySet, BuildError>)
    requires n <= |recs|
  {
    if n == 0 then Ok(KeySet(0, map[], loadedAt))
    else
      match BuildPrefix(recs, n - 1, loadedAt)
      case Err(e) => Err(e)
      case Ok(keys) => AddRecord(keys, recs[n - 1])
  }

  function Build(recs: seq<Record>, loadedAt: Time): (r: Result<KeySet, BuildError>) {
    match BuildPrefix(recs, |recs|, loadedAt)
    case Err(e) => Err(e)
    case Ok(keys) => if keys.active == 0 then Err(NoActive) else Ok(keys)
  }

  // ------------------------------------------------------------------ what Build accepts

  predicate GoodRecord(rec: Record) {
    && rec.version != 0 && |rec.key| == KEY_SIZE && !AllZeroBytes(rec.key)
    && (rec.retiredAt.None? ==> rec.compromisedAt.None? && rec.decryptableUntil.None?)
  }

  /** All records are good, their versions are distinct, and exactly one of them
      is unretired. */
  ghost predicate Acceptable(recs: seq<Record>) {
    && (forall i | 0 <= i < |recs| :: GoodRecord(recs[i]))
    && (forall i, j | 0 <= i < j < |recs| :: recs[i].version != recs[j].version)
    && (forall i, j | 0 <= i < j < |recs| :: recs[i].retiredAt.Some? || recs[j].retiredAt.Some?)
    && (exists i :: 0 <= i < |recs| && recs[i].retiredAt.None?)
  }

  function EntryOf(rec: Record): (entry: KeyEntry) {
    KeyEntry(rec.key, rec.decryptableUntil, rec.compromisedAt)
  }

  /** The set holds exactly the records, each under its version, and its active
      version is the unretired record's. */
  ghost predicate HoldsExactly(keys: KeySet, recs: seq<Record>) {
    && (forall i | 0 <= i < |recs| ::
          recs[i].version in keys.byVersion && keys.byVersion[recs[i].version] == EntryOf(recs[i]))
    && (forall v | v in keys.byVersion :: exists i :: 0 <= i < |recs| && recs[i].version == v)
    && (exists i :: 0 <= i < |recs| && recs[i].retiredAt.None? && recs[i].version == keys.active)
  }

  // The same two facts one record at a time, in the shape of the loop.

  function Entries(recs: seq<Record>, n: nat): (m: map<uint32, KeyEntry>)
    requires n <= |recs|
  {
    if n == 0 then map[] else Entries(recs, n - 1)[recs[n - 1].version := EntryOf(recs[n - 1])]
  }

  function ActiveAmong(recs: seq<Record>, n: nat): (v: uint32)
    requires n <= |recs|
  {
    if n == 0 then 0
    else if recs[n - 1].retiredAt.None? then recs[n - 1].version
    else ActiveAmong(recs, n - 1)
  }

  predicate GoodPrefix(recs: seq<Record>, n: nat)
    requires n <= |recs|
  {
    n == 0
    || (&& GoodPrefix(recs, n - 1)
        && GoodRecord(recs[n - 1])
        && recs[n - 1].version !in Entries(recs, n - 1)
        && (recs[n - 1].retiredAt.Some? || ActiveAmong(recs, n - 1) == 0))
  }

  lemma {:induction false} PrefixMeaning(recs: seq<Record>, n: nat, loadedAt: Time)
    requires n <= |recs|
    ensures BuildPrefix(recs, n, loadedAt).Ok? <==> GoodPrefix(recs, n)
    ensures GoodPrefix(recs, n) ==>
              BuildPrefix(recs, n, loadedAt).value == KeySet(ActiveAmong(recs, n), Entries(recs, n), loadedAt)
  {
    if n > 0 {
      PrefixMeaning(recs, n - 1, loadedAt);
    }
  }

  lemma {:induction false} EntriesMeaning(recs: seq<Record>, n: nat, v: uint32)
    requires n <= |recs|
    ensures v in Entries(recs, n) <==> exists i :: 0 <= i < n && recs[i].version == v
  {
    if n > 0 {
      EntriesMeaning(recs, n - 1, v);
      if recs[n - 1].version == v {
        assert 0 <= n - 1 < n && recs[n - 1].version == v;
      }
    }
  }

  lemma {:induction false} GoodPrefixMeaning(recs: seq<Record>, n: nat)
    requires n <= |recs|
    ensures GoodPrefix(recs, n) <==>
              && (forall i | 0 <= i < n :: GoodRecord(recs[i]))
              && (forall i, j | 0 <= i < j < n :: recs[i].version != recs[j].version)
              && (forall i, j | 0 <= i < j < n :: recs[i].retiredAt.Some? || recs[j].retiredAt.Some?)
  {
    if n > 0 {
      GoodPrefixMeaning(recs, n - 1);
      EntriesMeaning(recs, n - 1, recs[n - 1].version);
      if GoodPrefix(recs, n - 1) {
        GoodPrefixActive(recs, n - 1);
      }
    }
  }

  lemma {:induction false} GoodPrefixActive(recs: seq<Record>, n: nat)
    requires n <= |recs| && GoodPrefix(recs, n)
    ensures forall i | 0 <= i < n && recs[i].retiredAt.None? :: ActiveAmong(recs, n) == recs[i].version && recs[i].version != 0
    ensures ActiveAmong(recs, n) != 0 ==>
              exists i :: 0 <= i < n && recs[i].retiredAt.None? && recs[i].version == ActiveAmong(recs, n)
  {
    if n > 0 {
      GoodPrefixActive(recs, n - 1);
      if recs[n - 1].retiredAt.None? {
        assert recs[n - 1].version == ActiveAmong(recs, n);
      }
    }
  }

  lemma {:induction false} GoodPrefixEntries(recs: seq<Record>, n: nat, i: nat)
    requires i < n <= |recs| && GoodPrefix(recs, n)
    ensures recs[i].version in Entries(recs, n) && Entries(recs, n)[recs[i].version] == EntryOf(recs[i])
  {
    if i < n - 1 {
      GoodPrefixEntries(recs, n - 1, i);
    }
  }

  /** buildKeySet succeeds exactly on acceptable records, and then the snapshot
      holds exactly those records and is well formed: its active entry exists
      and never expires. */
  lemma BuildSucceedsExactlyWhen(recs: seq<Record>, loadedAt: Time)
    ensures Build(recs, loadedAt).Ok? <==> Acceptable(recs)
    ensures Build(recs, loadedAt).Ok? ==>
              var keys := Build(recs, loadedAt).value;
              HoldsExactly(keys, recs) && WellFormed(keys) && keys.loadedAt == loadedAt
  {
    PrefixMeaning(recs, |recs|, loadedAt);
    GoodPrefixMeaning(recs, |recs|);
    forall v ensures v in Entries(recs, |recs|) <==> exists i :: 0 <= i < |recs| && recs[i].version == v {
      EntriesMeaning(recs, |recs|, v);
    }
    if GoodPrefix(recs, |recs|) {
      GoodPrefixActive(recs, |recs|);
      forall i | 0 <= i < |recs|
        ensures recs[i].version != 0 && |recs[i].key| == KEY_SIZE
        ensures recs[i].version in Entries(recs, |recs|) && Entries(recs, |recs|)[recs[i].version] == EntryOf(recs[i])
      {
        assert GoodRecord(recs[i]);
        GoodPrefixEntries(recs, |recs|, i);
      }
    }
  }

  /** The record at i is the defect the error names. */
  ghost predicate Explains(e: BuildError, recs: seq<Record>, i: nat)
    requires i < |recs|
  {
    match e
    case VersionZeroIssued => recs[i].version == 0
    case DuplicateVersion(v) => recs[i].version == v && exists k :: 0 <= k < i && recs[k].version == v
    case BadLength(v) => recs[i].version == v && |recs[i].key| != 32
    case AllZero(v) => recs[i].version == v && |recs[i].key| == 32 && forall k | 0 <= k < 32 :: recs[i].key[k] == 0
    case TwoActive(first, second) =>
      && recs[i].version == second && recs[i].retiredAt.None?
      && exists k :: 0 <= k < i && recs[k].version == first && recs[k].retiredAt.None?
    case ActiveFlagged(v) =>
      recs[i].version == v && recs[i].retiredAt.None? && (recs[i].compromisedAt.Some? || recs[i].decryptableUntil.Some?)
    case NoActive => false
  }

  lemma {:induction false} FirstDefect(recs: seq<Record>, n: nat, loadedAt: Time)
    requires n <= |recs| && BuildPrefix(recs, n, loadedAt).Err?
    ensures exists i :: 0 <= i < n && Explains(BuildPrefix(recs, n, loadedAt).error, recs, i)
  {
    if BuildPrefix(recs, n - 1, loadedAt).Err? {
      FirstDefect(recs, n - 1, loadedAt);
    } else {
      PrefixMeaning(recs, n - 1, loadedAt);
      EntriesMeaning(recs, n - 1, recs[n - 1].version);
      GoodPrefixActive(recs, n - 1);
      assert Explains(BuildPrefix(recs, n, loadedAt).error, recs, n - 1);
    }
  }

  /** A reported error is there: some record has the defect it names, or no record
      is unretired. */
  lemma ErrorIsReal(recs: seq<Record>, loadedAt: Time)
    requires Build(recs, loadedAt).Err?
    ensures if Build(recs, loadedAt) == Err(NoActive) then forall i | 0 <= i < |recs| :: recs[i].retiredAt.Some?
            else exists i :: 0 <= i < |recs| && Explains(Build(recs, loadedAt).error, recs, i)
  {
    if BuildPrefix(recs, |recs|, loadedAt).Err? {
      FirstDefect(recs, |recs|, loadedAt);
    } else {
      PrefixMeaning(recs, |recs|, loadedAt);
      GoodPrefixActive(recs, |recs|);
    }
  }

  /** A store that hands back an already wiped buffer is refused: no all-zero
      key is ever installed. */
  lemma WipedBufferRejected(recs: seq<Record>, i: nat, loadedAt: Time)
    requires i < |recs| && AllZeroBytes(recs[i].key)
    ensures Build(recs, loadedAt).Err?
  {
    BuildSucceedsExactlyWhen(recs, loadedAt);
    assert !GoodRecord(recs[i]);
  }

  // ------------------------------------------------------------------ order does not matter

  lemma {:induction false} TwiceHasTwoPlaces<T>(s: seq<T>, x: T)
    requires multiset(s)[x] >= 2
    ensures exists i, j :: 0 <= i < j < |s| && s[i] == x && s[j] == x
  {
    var last := |s| - 1;
    assert s == s[..last] + [s[last]];
    if s[last] == x {
      assert multiset(s[..last])[x] >= 1;
      assert x in s[..last];
      var i :| 0 <= i < last && s[..last][i] == x;
      assert s[i] == x && s[last] == x;
    } else {
      TwiceHasTwoPlaces(s[..last], x);
      var i, j :| 0 <= i < j < last && s[..last][i] == x && s[..last][j] == x;
      assert s[i] == x && s[j] == x;
    }
  }

  lemma TwoPlacesIsTwice<T>(s: seq<T>, i: nat, j: nat)
    requires i < j < |s| && s[i] == s[j]
    ensures multiset(s)[s[i]] >= 2
  {
    assert s == s[..j] + [s[j]] + s[j + 1..];
    assert s[i] in s[..j];
    assert s[i] in multiset(s[..j]);
  }

  lemma AcceptableIgnoresOrder(recs: seq<Record>, shuffled: seq<Record>)
    requires multiset(recs) == multiset(shuffled) && Acceptable(recs)
    ensures Acceptable(shuffled)
  {
    forall r ensures r in recs <==> r in shuffled {
      assert r in multiset(recs) <==> r in multiset(shuffled);
    }
    forall i | 0 <= i < |shuffled| ensures GoodRecord(shuffled[i]) {
      assert shuffled[i] in recs;
    }
    forall i, j | 0 <= i < j < |shuffled|
      ensures shuffled[i].version != shuffled[j].version
      ensures shuffled[i].retiredAt.Some? || shuffled[j].retiredAt.Some?
    {
      assert shuffled[i] in recs && shuffled[j] in recs;
      var a :| 0 <= a < |recs| && recs[a] == shuffled[i];
      if shuffled[i] == shuffled[j] {
        TwoPlacesIsTwice(shuffled, i, j);
        TwiceHasTwoPlaces(recs, shuffled[i]);
        assert false;
      }
      var b :| 0 <= b < |recs| && recs[b] == shuffled[j];
      assert a < b || b < a;
    }
    var i :| 0 <= i < |recs| && recs[i].retiredAt.None?;
    assert recs[i] in shuffled;
    var k :| 0 <= k < |shuffled| && shuffled[k] == recs[i];
  }

  /** Whether the set can be built, and what it is, do not depend on the order
      the store returned the records in. (Which error is reported may.) */
  lemma BuildIgnoresOrder(recs: seq<Record>, shuffled: seq<Record>, loadedAt: Time)
    requires multiset(recs) == multiset(shuffled)
    ensures Build(recs, loadedAt).Ok? <==> Build(shuffled, loadedAt).Ok?
    ensures Build(recs, loadedAt).Ok? ==> Build(recs, loadedAt) == Build(shuffled, loadedAt)
  {
    BuildSucceedsExactlyWhen(recs, loadedAt);
    BuildSucceedsExactlyWhen(shuffled, loadedAt);
    if Acceptable(recs) {
      AcceptableIgnoresOrder(recs, shuffled);
      HoldsSame(recs, shuffled, Build(recs, loadedAt).value, Build(shuffled, loadedAt).value);
    }
    if Acceptable(shuffled) {
      AcceptableIgnoresOrder(shuffled, recs);
    }
  }

  lemma PlaceIn(recs: seq<Record>, i: nat, shuffled: seq<Record>) returns (k: nat)
    requires multiset(recs) == multiset(shuffled) && i < |recs|
    ensures k < |shuffled| && shuffled[k] == recs[i]
  {
    assert recs[i] in multiset(recs);
    assert recs[i] in shuffled;
    k :| 0 <= k < |shuffled| && shuffled[k] == recs[i];
  }

  lemma EntryCarriesOver(recs: seq<Record>, shuffled: seq<Record>, a: KeySet, b: KeySet, v: uint32)
    requires multiset(recs) == multiset(shuffled)
    requires HoldsExactly(a, recs) && HoldsExactly(b, shuffled) && v in a.byVersion
    ensures v in b.byVersion && b.byVersion[v] == a.byVersion[v]
  {
    var i :| 0 <= i < |recs| && recs[i].version == v;
    var k := PlaceIn(recs, i, shuffled);
  }

  lemma HoldsSameEntries(recs: seq<Record>, shuffled: seq<Record>, a: KeySet, b: KeySet)
    requires multiset(recs) == multiset(shuffled) && HoldsExactly(a, recs) && HoldsExactly(b, shuffled)
    ensures a.byVersion == b.byVersion
  {
    hide HoldsExactly;
    forall v | v in a.byVersion ensures v in b.byVersion && b.byVersion[v] == a.byVersion[v] {
      EntryCarriesOver(recs, shuffled, a, b, v);
    }
    forall v | v in b.byVersion ensures v in a.byVersion {
      EntryCarriesOver(shuffled, recs, b, a, v);
    }
  }

  lemma HoldsSameActive(recs: seq<Record>, shuffled: seq<Record>, a: KeySet, b: KeySet)
    requires multiset(recs) == multiset(shuffled) && Acceptable(recs)
    requires HoldsExactly(a, recs) && HoldsExactly(b, shuffled)
    ensures a.active == b.active
  {
    hide GoodRecord;
    var i :| 0 <= i < |recs| && recs[i].retiredAt.None? && recs[i].version == a.active;
    var k :| 0 <= k < |shuffled| && shuffled[k].retiredAt.None? && shuffled[k].version == b.active;
    var j := PlaceIn(shuffled, k, recs);
    assert i == j;
  }

  lemma HoldsSame(recs: seq<Record>, shuffled: seq<Record>, a: KeySet, b: KeySet)
    requires multiset(recs) == multiset(shuffled) && Acceptable(recs)
    requires HoldsExactly(a, recs) && HoldsExactly(b, shuffled) && a.loadedAt == b.loadedAt
    ensures a == b
  {
    hide Acceptable, HoldsExactly;
    HoldsSameEntries(recs, shuffled, a, b);
    HoldsSameActive(recs, shuffled, a, b);
  }

  // ------------------------------------------------------------------ buffers

  /** A record as it is passed around: the key material sits in a buffer. */
  datatype KeyRecord = KeyRecord(version: uint32, keyBytes: array<byte>, retiredAt: Option<Time>,
                                 decryptableUntil: Option<Time>, compromisedAt: Option<Time>)

  function Buffers(records: seq<KeyRecord>): (s: set<array<byte>>) {
    set r | r in records :: r.keyBytes
  }

  function View(r: KeyRecord): (v: Record)
    reads r.keyBytes
  {
    Record(r.version, r.keyBytes[..], r.retiredAt, r.decryptableUntil, r.compromisedAt)
  }

  function Views(records: seq<KeyRecord>): (vs: seq<Record>)
    reads Buffers(records)
  {
    seq(|records|, i requires 0 <= i < |records| reads Buffers(records) => View(records[i]))
  }

  predicate Zeroed(b: array<byte>)
    reads b
  {
    forall i | 0 <= i < b.Length :: b[i] == 0
  }

  method ZeroBytes(b: array<byte>)
    modifies b
    ensures Zeroed(b)
  {
    for i := 0 to b.Length
      invariant forall k | 0 <= k < i :: b[k] == 0
    {
      b[i] := 0;
    }
  }

  /** Wipes the key bytes of every record, also when two records share a buffer. */
  method ZeroKeyMaterial(records: seq<KeyRecord>)
    modifies Buffers(records)
    ensures forall b | b in Buffers(records) :: Zeroed(b)
  {
    for i := 0 to |records|
      invariant forall k | 0 <= k < i :: Zeroed(records[k].keyBytes)
    {
      ZeroBytes(records[i].keyBytes);
    }
  }

  /** Reads the buffers in order and copies what it keeps. */
  method BuildKeySet(records: seq<KeyRecord>, loadedAt: Time) returns (r: Result<KeySet, BuildError>)
    ensures r == Build(Views(records), loadedAt)
  {
    var keys := KeySet(0, map[], loadedAt);
    ghost var views := Views(records);
    for n := 0 to |records|
      invariant BuildPrefix(views, n, loadedAt) == Ok(keys)
    {
      assert views[n] == View(records[n]);
      var step := AddRecord(keys, View(records[n]));
      assert BuildPrefix(views, n + 1, loadedAt) == step;
      if step.Err? {
        BuildStopsAtFirstError(views, n + 1, loadedAt);
        return Err(step.error);
      }
      keys := step.value;
    }
    if keys.active == 0 {
      return Err(NoActive);
    }
    return Ok(keys);
  }

  lemma {:induction false} BuildStopsAtFirstError(recs: seq<Record>, n: nat, loadedAt: Time)
    requires n <= |recs| && BuildPrefix(recs, n, loadedAt).Err?
    ensures Build(recs, loadedAt) == Err(BuildPrefix(recs, n, loadedAt).error)
    decreases |recs| - n
  {
    if n < |recs| {
      assert BuildPrefix(recs, n + 1, loadedAt) == BuildPrefix(recs, n, loadedAt);
      BuildStopsAtFirstError(recs, n + 1, loadedAt);
    }
  }

  /** A load's last step: build, then wipe every buffer the store handed out.
      The snapshot is the one the unwiped records describe. */
  method AdoptRecords(records: seq<KeyRecord>, loadedAt: Time) returns (r: Result<KeySet, BuildError>)
    modifies Buffers(records)
    ensures r == Build(old(Views(records)), loadedAt)
    ensures forall b | b in Buffers(records) :: Zeroed(b)
  {
    r := BuildKeySet(records, loadedAt);
    ZeroKeyMaterial(records);
  }
}
