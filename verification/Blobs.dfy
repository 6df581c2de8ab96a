/** The stored blob format and the operations on one key-set snapshot:
    version(4) || nonce(12) || ciphertext || tag(16). */
module Blobs {
  import opened Wrappers
  import opened Aead

  type Blob = seq<byte>
  type Time = int

  const VERSION_SIZE: int := 4
  const MIN_BLOB_SIZE: int := VERSION_SIZE + NONCE_SIZE + TAG_SIZE

  type uint32 = x: int | 0 <= x < 0x1_0000_0000

  // ------------------------------------------------------------------ the version prefix

  function PutUint32(v: uint32): (b: seq<byte>) {
    [(v / 0x1000000) as byte, (v / 0x10000 % 0x100) as byte, (v / 0x100 % 0x100) as byte, (v % 0x100) as byte]
  }

  function Uint32(b: seq<byte>): (v: uint32)
    requires |b| >= VERSION_SIZE
  {
    b[0] as int * 0x1000000 + b[1] as int * 0x10000 + b[2] as int * 0x100 + b[3] as int
  }

  lemma Uint32RoundTrip(v: uint32)
    ensures |PutUint32(v)| == VERSION_SIZE && Uint32(PutUint32(v)) == v
    ensures PutUint32(v)[0] as int == v / 0x1000000 && PutUint32(v)[3] as int == v % 0x100
  {
    assert v / 0x100 == v / 0x10000 * 0x100 + v / 0x100 % 0x100;
    assert v / 0x10000 == v / 0x1000000 * 0x100 + v / 0x10000 % 0x100;
  }

  lemma Uint32Injective(b: seq<byte>)
    requires |b| >= VERSION_SIZE
    ensures PutUint32(Uint32(b)) == b[..VERSION_SIZE]
  {
    var v := Uint32(b);
    var low := b[1] as int * 0x10000 + b[2] as int * 0x100 + b[3] as int;
    assert v / 0x1000000 == b[0] as int;
    assert v / 0x10000 == b[0] as int * 0x100 + b[1] as int;
    assert v / 0x100 == b[0] as int * 0x10000 + b[1] as int * 0x100 + b[2] as int;
  }

  datatype BlobError = TooShort | VersionZero

  /** Reads only the prefix: no key is needed and nothing is authenticated. */
  function BlobVersion(blob: Blob): (r: Result<uint32, BlobError>) {
    if |blob| < MIN_BLOB_SIZE then Err(TooShort)
    else if Uint32(blob) == 0 then Err(VersionZero)
    else Ok(Uint32(blob))
  }

  // ------------------------------------------------------------------ one snapshot of the keys

  /** One loaded key. `key` stands for the key schedule the AEAD was built from,
      which is a copy of the material it was built from. */
  datatype KeyEntry = KeyEntry(key: seq<byte>, decryptableUntil: Option<Time>, compromisedAt: Option<Time>)

  /** An immutable snapshot. `loadedAt` is when the load that produced it began. */
  datatype KeySet = KeySet(active: uint32, byVersion: map<uint32, KeyEntry>, loadedAt: Time)

  /** What every snapshot a constructor or a reload installs satisfies. */
  ghost predicate WellFormed(keys: KeySet) {
    && keys.active in keys.byVersion
    && keys.byVersion[keys.active].decryptableUntil.None?
    && keys.byVersion[keys.active].compromisedAt.None?
    && (forall v | v in keys.byVersion 
          :: v != 0 && |keys.byVersion[v].key| == KEY_SIZE)
  }

  predicate Expired(entry: KeyEntry, now: Time) {
    entry.decryptableUntil.Some? && entry.decryptableUntil.value <= now
  }

  /** The entry for `version`, unless it is unknown or its grace window closed. */
  function Usable(keys: KeySet, version: uint32, now: Time): (r: Option<KeyEntry>) {
    if version !in keys.byVersion || Expired(keys.byVersion[version], now) then None
    else Some(keys.byVersion[version])
  }

  // ------------------------------------------------------------------ sealing and opening

  datatype SealError = NoActiveEntry

  function Seal(g: Aead, keys: KeySet, nonce: seq<byte>, plaintext: seq<byte>): (r: Result<Blob, SealError>) {
    if keys.active !in keys.byVersion then Err(NoActiveEntry)
    else Ok(SealUnder(g, keys.active, keys.byVersion[keys.active].key, nonce, plaintext))
  }

  function SealUnder(g: Aead, version: uint32, key: seq<byte>, nonce: seq<byte>, plaintext: seq<byte>): (b: Blob) {
    var prefix := PutUint32(version);
    prefix + nonce + g.seal(key, nonce, plaintext, prefix)
  }

  /** What `key` makes of the blob; None when it does not authenticate. */
  function OpenUnder(g: Aead, key: seq<byte>, blob: Blob): (r: Option<seq<byte>>)
    requires |blob| >= MIN_BLOB_SIZE
  {
    g.open(key, blob[VERSION_SIZE..VERSION_SIZE + NONCE_SIZE], blob[VERSION_SIZE + NONCE_SIZE..], blob[..VERSION_SIZE])
  }

  /** A sealed blob is 32 bytes longer than the plaintext, names the version it
      was sealed under, and opens under that key to exactly the plaintext. */
  lemma SealedOpens(g: Aead, version: uint32, key: seq<byte>, nonce: seq<byte>, plaintext: seq<byte>)
    requires version != 0 && |key| == KEY_SIZE && |nonce| == NONCE_SIZE
    ensures |SealUnder(g, version, key, nonce, plaintext)| == MIN_BLOB_SIZE + |plaintext|
    ensures BlobVersion(SealUnder(g, version, key, nonce, plaintext)) == Ok(version)
    ensures OpenUnder(g, key, SealUnder(g, version, key, nonce, plaintext)) == Some(plaintext)
  {
    var prefix := PutUint32(version);
    var sealed := g.seal(key, nonce, plaintext, prefix);
    var blob := SealUnder(g, version, key, nonce, plaintext);
    Uint32RoundTrip(version);
    assert blob[..VERSION_SIZE] == prefix;
    assert blob[VERSION_SIZE..VERSION_SIZE + NONCE_SIZE] == nonce;
    assert blob[VERSION_SIZE + NONCE_SIZE..] == sealed;
    assert Uint32(blob) == Uint32(prefix);
  }

  /** sealBlob's own buffer: prefix and nonce are written in place, and the AEAD
      appends ciphertext and tag after them. `nonce` is what the randomness
      source delivered. */
  method SealBlob(g: Aead, keys: KeySet, nonce: seq<byte>, plaintext: seq<byte>) returns (r: Result<Blob, SealError>)
    requires |nonce| == NONCE_SIZE
    ensures r == Seal(g, keys, nonce, plaintext)
  {
    if keys.active !in keys.byVersion {
      return Err(NoActiveEntry);
    }
    var out := new byte[VERSION_SIZE + NONCE_SIZE];
    var prefix := PutUint32(keys.active);
    for i := 0 to VERSION_SIZE
      invariant out[..i] == prefix[..i]
    {
      out[i] := prefix[i];
    }
    assert out[..VERSION_SIZE] == prefix;
    for i := 0 to NONCE_SIZE
      invariant out[..VERSION_SIZE] == prefix
      invariant out[VERSION_SIZE..VERSION_SIZE + i] == nonce[..i]
    {
      out[VERSION_SIZE + i] := nonce[i];
    }
    assert out[VERSION_SIZE..VERSION_SIZE + NONCE_SIZE] == nonce;
    assert out[..] == prefix + nonce;
    return Ok(out[..] + g.seal(keys.byVersion[keys.active].key, out[VERSION_SIZE..VERSION_SIZE + NONCE_SIZE],
                               plaintext, out[..VERSION_SIZE]));
  }

  // ------------------------------------------------------------------ the rotation a read owes

  /** `blob` is the replacement, empty when there is nothing to do. */
  datatype Rotation = Rotation(fromVersion: uint32, toVersion: uint32, blob: Blob, mustPersist: bool) {
    predicate Needed() { |blob| > 0 }
  }

  const NO_ROTATION: Rotation := Rotation(0, 0, [], false)

  /** A blob opened to `plaintext` by `entry` of `keys` under `version`. */
  function RotationFor(g: Aead, keys: KeySet, version: uint32, entry: KeyEntry, plaintext: seq<byte>, nonce: seq<byte>)
    : (r: Result<Rotation, SealError>)
  {
    if version == 0 || version == keys.active then Ok(NO_ROTATION)
    else
      match Seal(g, keys, nonce, plaintext)
      case Err(e) => Err(e)
      case Ok(replacement) =>
        Ok(Rotation(version, keys.active, replacement, entry.compromisedAt.Some?))
  }

  datatype OpenError = Malformed(b: BlobError) | ExpiredVersion | UnknownVersion | Unauthentic | CannotReseal

  /** The outcome of opening: version 0 exactly when the blob is empty. */
  datatype Opened = Opened(plaintext: seq<byte>, version: uint32, entry: KeyEntry)

  const NO_ENTRY: KeyEntry := KeyEntry([], None, None)

  /** Opening a blob under one snapshot, with no reload. */
  function OpenIn(g: Aead, keys: KeySet, blob: Blob, now: Time): (r: Result<Opened, OpenError>) {
    if blob == [] then Ok(Opened([], 0, NO_ENTRY))
    else
      match BlobVersion(blob)
      case Err(e) => Err(Malformed(e))
      case Ok(version) =>
        match Usable(keys, version, now)
        case None => Err(UnusableVersion(keys, version))
        case Some(entry) =>
          match OpenUnder(g, entry.key, blob)
          case None => Err(Unauthentic)
          case Some(plaintext) => Ok(Opened(plaintext, version, entry))
  }

  function UnusableVersion(keys: KeySet, version: uint32): (e: OpenError) {
    if version in keys.byVersion && keys.byVersion[version].decryptableUntil.Some? then ExpiredVersion
    else UnknownVersion
  }

  /** DecryptWithRotation under one snapshot. */
  function DecryptIn(g: Aead, keys: KeySet, blob: Blob, now: Time, nonce: seq<byte>)
    : (r: Result<(seq<byte>, Rotation), OpenError>)
  {
    match OpenIn(g, keys, blob, now)
    case Err(e) => Err(e)
    case Ok(o) =>
      match RotationFor(g, keys, o.version, o.entry, o.plaintext, nonce)
      case Err(_) => Err(CannotReseal)
      case Ok(rot) => Ok((o.plaintext, rot))
  }

  /** A blob sealed by one process is recovered by every process whose snapshot
      holds the same key under that version and still honours it. */
  lemma SealedByAnyOpensInAny(g: Aead, sealer: KeySet, reader: KeySet, nonce: seq<byte>, plaintext: seq<byte>, now: Time)
    requires WellFormed(sealer) && |nonce| == NONCE_SIZE
    requires Usable(reader, sealer.active, now).Some?
    requires reader.byVersion[sealer.active].key == sealer.byVersion[sealer.active].key
    ensures Seal(g, sealer, nonce, plaintext).Ok?
    ensures OpenIn(g, reader, Seal(g, sealer, nonce, plaintext).value, now)
            == Ok(Opened(plaintext, sealer.active, reader.byVersion[sealer.active]))
  {
    SealedOpens(g, sealer.active, sealer.byVersion[sealer.active].key, nonce, plaintext);
  }

  /** For a blob that opens: a rotation is needed exactly when the blob is under
      a version other than the snapshot's active one; the replacement has the
      blob's own length, decrypts under the same snapshot to the same plaintext
      at every later instant, and a second read of it owes nothing. */
  lemma RotationCompletes(g: Aead, keys: KeySet, blob: Blob, now: Time, later: Time, nonce: seq<byte>, nonce2: seq<byte>)
    requires WellFormed(keys) && |nonce| == NONCE_SIZE
    requires OpenIn(g, keys, blob, now).Ok?
    ensures DecryptIn(g, keys, blob, now, nonce).Ok?
    ensures DecryptIn(g, keys, blob, now, nonce).value.0 == OpenIn(g, keys, blob, now).value.plaintext
    ensures DecryptIn(g, keys, blob, now, nonce).value.1.Needed()
            <==> blob != [] && BlobVersion(blob) != Ok(keys.active)
    ensures DecryptIn(g, keys, blob, now, nonce).value.1.Needed() ==>
              var (plaintext, rot) := DecryptIn(g, keys, blob, now, nonce).value;
              && BlobVersion(blob) == Ok(rot.fromVersion) && BlobVersion(rot.blob) == Ok(rot.toVersion)
              && rot.toVersion == keys.active && |rot.blob| == |blob|
              && (rot.mustPersist <==> keys.byVersion[rot.fromVersion].compromisedAt.Some?)
              && DecryptIn(g, keys, rot.blob, later, nonce2) == Ok((plaintext, NO_ROTATION))
  {
    if blob != [] && BlobVersion(blob) != Ok(keys.active) {
      var o := OpenIn(g, keys, blob, now).value;
      SealedOpens(g, keys.active, keys.byVersion[keys.active].key, nonce, o.plaintext);
    }
  }

  /** What a needed rotation names: a usable version other than the active one. */
  lemma RotationVersions(g: Aead, keys: KeySet, blob: Blob, now: Time, nonce: seq<byte>)
    requires DecryptIn(g, keys, blob, now, nonce).Ok? && DecryptIn(g, keys, blob, now, nonce).value.1.Needed()
    ensures var rot := DecryptIn(g, keys, blob, now, nonce).value.1;
            && Usable(keys, rot.fromVersion, now).Some? && rot.fromVersion != keys.active && rot.toVersion == keys.active
            && BlobVersion(blob) == Ok(rot.fromVersion)
  {
  }

  /** The errors are exact: a non-empty blob opens precisely when it is well
      formed, its version is held and not past its deadline, and it authenticates. */
  lemma OpensExactlyWhen(g: Aead, keys: KeySet, blob: Blob, now: Time)
    ensures OpenIn(g, keys, blob, now).Ok? <==>
              || blob == []
              || (&& |blob| >= 32 && blob[..4] != [0, 0, 0, 0]
                  && Uint32(blob) in keys.byVersion
                  && (var until := keys.byVersion[Uint32(blob)].decryptableUntil;
                      until.None? || now < until.value)
                  && OpenUnder(g, keys.byVersion[Uint32(blob)].key, blob).Some?)
    ensures OpenIn(g, keys, blob, now).Ok? && blob != [] ==>
              var o := OpenIn(g, keys, blob, now).value;
              && o.version == Uint32(blob) && o.entry == keys.byVersion[Uint32(blob)]
              && OpenUnder(g, o.entry.key, blob) == Some(o.plaintext)
    ensures OpenIn(g, keys, [], now).Ok? && OpenIn(g, keys, [], now).value.plaintext == []
  {
    if |blob| >= MIN_BLOB_SIZE {
      Uint32Injective(blob);
      Uint32RoundTrip(0);
    }
  }

  /** Which refusal a blob meets. */
  lemma RefusedExactlyWhen(g: Aead, keys: KeySet, blob: Blob, now: Time)
    ensures OpenIn(g, keys, blob, now) == Err(Malformed(TooShort)) <==> 0 < |blob| < 32
    ensures OpenIn(g, keys, blob, now) == Err(Malformed(VersionZero)) <==> |blob| >= 32 && blob[..4] == [0, 0, 0, 0]
    ensures |blob| >= 32 && blob[..4] != [0, 0, 0, 0] ==>
              var held := Uint32(blob) in keys.byVersion;
              && (OpenIn(g, keys, blob, now) == Err(UnknownVersion) <==> !held)
              && (OpenIn(g, keys, blob, now) == Err(ExpiredVersion) <==>
                    held && var until := keys.byVersion[Uint32(blob)].decryptableUntil; until.Some? && until.value <= now)
  {
    if |blob| >= MIN_BLOB_SIZE {
      Uint32Injective(blob);
      Uint32RoundTrip(0);
    }
  }
}
