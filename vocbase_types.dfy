/** Value types shared by the collection registry (arangod/VocBase/vocbase.h):
    the proxy status, error codes, collection types, the persisted parameter
    record, barriers and the abstract outcomes of the file and collection
    routines the registry calls. */
module VocBaseTypes {
  import opened Chars

  /** `TRI_vocbase_col_status_e`. */
  datatype Status = Corrupted | NewBorn | Unloaded | Loaded | Unloading | Deleted

  /** The numeric value of each status in the C enum. */
  function StatusCode(s: Status): (c: nat)
    ensures c < 6
  {
    match s
    case Corrupted => 0
    case NewBorn => 1
    case Unloaded => 2
    case Loaded => 3
    case Unloading => 4
    case Deleted => 5
  }

  /** Reading a status back from its number; numbers outside the enum have
      no status. */
  function StatusOfCode(c: int): (r: Option<Status>)
    ensures r.Some? <==> 0 <= c < 6
  {
    if c == 0 then Some(Corrupted)
    else if c == 1 then Some(NewBorn)
    else if c == 2 then Some(Unloaded)
    else if c == 3 then Some(Loaded)
    else if c == 4 then Some(Unloading)
    else if c == 5 then Some(Deleted)
    else None
  }

  /** The six statuses and the six codes 0..5 are in one-to-one correspondence. */
  lemma StatusCodeBijection(s: Status, c: int)
    ensures StatusOfCode(StatusCode(s)) == Some(s)
    ensures 0 <= c < 6 ==> StatusCode(StatusOfCode(c).value) == c
  {
  }

  /** The error numbers the registry sets with `TRI_set_errno`. Errors that
      come from file or collection routines outside this model are carried
      through unchanged as `External`. */
  datatype ErrorCode =
    | NoError
    | Internal
    | IllegalName
    | DuplicateName
    | DuplicateIdentifier
    | CollectionNotFound
    | CorruptedCollection
    | UnknownCollectionType
    | WrongVocBasePath
    | DatabaseLocked
    | External(code: int)

  /** `TRI_col_type_e`: document and edge collections, and any other value read
      from a parameter file. */
  datatype ColType = DocumentType | EdgeType | OtherType(code: int)

  /** `TRI_IS_DOCUMENT_COLLECTION`: both document and edge collections are
      stored as document collections. */
  predicate IsDocumentCollection(t: ColType) { t.DocumentType? || t.EdgeType? }

  /** The persisted parameter file of a collection (`TRI_col_info_t`), reduced
      to the fields the registry reads. */
  datatype ParameterInfo = ParameterInfo(cid: nat, name: string, ctype: ColType, deleted: bool)

  /** Result of `TRI_LoadParameterInfoCollection`: an error code, and the
      parameters it read, which only count when the code is `NoError`. */
  datatype ReadParameters = ReadParameters(error: ErrorCode, info: ParameterInfo) {
    predicate Ok() { error == NoError }
  }

  /** The deferred callbacks the registry attaches to a live collection's
      barrier list. */
  datatype BarrierKind = UnloadBarrier | DropBarrier

  /** What the proxy's `_collection` points to while it is non-NULL: the
      collection's directory, its stored type, the pending barriers and the
      in-memory `_deleted` flag that is written out with its parameters. */
  datatype LiveCollection = LiveCollection(directory: string, ctype: ColType, barriers: set<BarrierKind>, deleted: bool)

  /** Result of `TRI_CreateDocumentCollection`. */
  datatype CreateOutcome = CreateFailed(error: ErrorCode) | Created(directory: string)

  /** Result of `TRI_OpenDocumentCollection`. */
  datatype OpenOutcome = OpenFailed | Opened(directory: string, ctype: ColType)

  /** A change the registry made on disk: a parameter file written, a file
      removed, a directory renamed or a directory removed. */
  datatype FsOp =
    | SaveParameters(directory: string, info: ParameterInfo)
    | RemoveFile(file: string)
    | RenameDirectory(from: string, to: string)
    | RemoveDirectory(path: string)
}
