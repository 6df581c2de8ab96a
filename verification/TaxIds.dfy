/** The encrypted column of natural_persons (ssn) and corporations (ein): the two
    tables differ in their other columns only, and every statement that touches
    the encrypted one is the same for both. */
module TaxIds {
  import opened Wrappers
  import opened Aead
  import opened Blobs
  import opened Ciphers

  /** A nullable BYTEA column; the empty value is what a clear stores. */
  datatype Column = Null | Bytes(b: Blob)

  function Content(col: Column): (b: Blob) {
    if col.Null? then [] else col.b
  }

  /** The three states of the SSN or EIN field of an update, after trimming: not
      given, given as blank, given as a value. */
  datatype Change = Keep | Clear | SetTo(plaintext: seq<byte>)

  predicate ValidChange(change: Change) { change.SetTo? ==> change.plaintext != [] }

  /** What a creation or a change other than Keep makes the column decrypt to. */
  function NewValue(change: Change): (plaintext: seq<byte>) {
    if change.SetTo? then change.plaintext else []
  }

  /** `ssn = COALESCE($4, ssn)`. */
  function Coalesce(param: Option<Blob>, col: Column): (c: Column) {
    if param.Some? then Bytes(param.value) else col
  }

  /** `WHERE entity_id = $2 AND ssn = $3`; NULL equals nothing. */
  predicate SwapMatches(row: Option<Column>, oldBlob: Blob) {
    row == Some(Bytes(oldBlob))
  }

  datatype StaleError = RereadFailed | UndecodableVersion(b: BlobError) | StillCompromised

  /** verifyStale's judgement of the row it re-read. */
  function VerifyStale(row: Option<Column>, toVersion: uint32): (r: Result<Unit, StaleError>) {
    if row.None? then Err(RereadFailed)
    else if Content(row.value) == [] then Ok(Unit)
    else
      match BlobVersion(Content(row.value))
      case Err(e) => Err(UndecodableVersion(e))
      case Ok(version) => if version == toVersion then Ok(Unit) else Err(StillCompromised)
  }

  datatype ReadError = CannotOpen(c: CallError) | Unpersisted(fromVersion: uint32)

  /** The policy branches of decryptRotating after a needed rotation. */
  function Adjudicate(persisted: bool, rot: Rotation, plaintext: seq<byte>): (r: Result<seq<byte>, ReadError>) {
    if persisted then Ok(plaintext)
    else if rot.mustPersist then Err(Unpersisted(rot.fromVersion))
    else Ok(plaintext)
  }

  /** Nothing under another version is left in the row. */
  predicate SafeUnder(row: Option<Column>, toVersion: uint32) {
    row.Some? && (Content(row.value) == [] || BlobVersion(Content(row.value)) == Ok(toVersion))
  }

  /** What verification accepts is exactly an empty row or one under the target
      version; every other decodable row is refused as still compromised, whether
      or not its key is. */
  lemma VerifiedIsSafe(row: Option<Column>, toVersion: uint32)
    ensures VerifyStale(row, toVersion).Ok? <==> SafeUnder(row, toVersion)
    ensures VerifyStale(row, toVersion) == Err(StillCompromised) <==>
              && row.Some? && Content(row.value) != [] && BlobVersion(Content(row.value)).Ok?
              && BlobVersion(Content(row.value)).value != toVersion
  {
  }
}
