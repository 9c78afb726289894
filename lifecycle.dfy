/** The status machine of a collection proxy (arangod/VocBase/vocbase.c),
    stated on values: what each status-locked operation returns and what it
    leaves in the proxy. The registry's methods are proved against these
    functions. */
module Lifecycle {
  import opened Chars
  import opened VocBaseTypes
  import opened CollectionNames

  /** The part of a proxy its status lock guards: `_status`, `_collection`
      (the live collection, if any) and `_path`. */
  datatype ProxyState = ProxyState(status: Status, live: Option<LiveCollection>, path: Option<string>)

  /** What the registry maintains for every proxy: a loaded or unloading
      collection is open and lives in the proxy's directory, a new born or
      unloaded one is not open, and every collection that has reached the
      disk has a directory. */
  predicate ProxyInvariant(s: ProxyState) {
    ((s.status == Loaded || s.status == Unloading) ==> s.live.Some? && s.path == Some(s.live.value.directory))
    && ((s.status == NewBorn || s.status == Unloaded) ==> s.live.None?)
    && (s.status == Unloaded ==> s.path.Some?)
  }

  /** The state a successful create or open leaves: loaded, open in
      `directory`, no barriers yet, not marked deleted, and the path set to
      that directory. The deleted flag an open reads from the parameter file
      is taken to be false, which holds for every collection the startup
      scan registers but not after FailedDropMarksLaterRename. */
  function LoadedIn(directory: string, ctype: ColType): (s: ProxyState)
    ensures s.status == Loaded && ProxyInvariant(s)
    ensures s.live.value.directory == directory && s.live.value.barriers == {} && !s.live.value.deleted
  {
    ProxyState(Loaded, Some(LiveCollection(directory, ctype, {}, false)), Some(directory))
  }

  // ---------------------------------------------------------------------------
  // ManifestCollectionVocBase
  // ---------------------------------------------------------------------------

  /** ManifestCollectionVocBase: a new born document collection is created on
      disk (`create` is the outcome of TRI_CreateDocumentCollection) and
      becomes loaded; a failed create or an unknown type marks it corrupted.
      Collections already on disk are left alone; corrupted and deleted ones
      are refused. */
  function ManifestSpec(s: ProxyState, ctype: ColType, create: CreateOutcome): (r: (ErrorCode, ProxyState))
    ensures ProxyInvariant(s) ==> ProxyInvariant(r.1)
    ensures s.status != NewBorn ==> r.1 == s
    ensures s.status == NewBorn ==> r.1.status == Loaded || r.1.status == Corrupted
    ensures r.1.status == Loaded && s.status == NewBorn ==> r.0 == NoError && create.Created? && IsDocumentCollection(ctype)
    ensures s.status == Corrupted ==> r.0 == CorruptedCollection
    ensures s.status == Deleted ==> r.0 == CollectionNotFound
    ensures s.status == Unloaded || s.status == Loaded || s.status == Unloading ==> r.0 == NoError
    ensures s.status == NewBorn && IsDocumentCollection(ctype) && create.Created? ==>
              r == (NoError, LoadedIn(create.directory, ctype))
    ensures s.status == NewBorn && IsDocumentCollection(ctype) && create.CreateFailed? ==>
              r == (create.error, s.(status := Corrupted))
    ensures s.status == NewBorn && !IsDocumentCollection(ctype) ==>
              r == (UnknownCollectionType, s.(status := Corrupted))
  {
    match s.status
    case Corrupted => (CorruptedCollection, s)
    case Deleted => (CollectionNotFound, s)
    case Unloaded => (NoError, s)
    case Loaded => (NoError, s)
    case Unloading => (NoError, s)
    case NewBorn =>
      if IsDocumentCollection(ctype) then
        match create
        case CreateFailed(e) => (e, s.(status := Corrupted))
        case Created(directory) => (NoError, LoadedIn(directory, ctype))
      else (UnknownCollectionType, s.(status := Corrupted))
  }

  /** Manifesting is idempotent: a second call finds the collection on disk
      (or already marked corrupted) and changes nothing. */
  lemma ManifestIdempotent(s: ProxyState, ctype: ColType, c1: CreateOutcome, c2: CreateOutcome)
    ensures ManifestSpec(ManifestSpec(s, ctype, c1).1, ctype, c2).1 == ManifestSpec(s, ctype, c1).1
  {
  }

  // ---------------------------------------------------------------------------
  // LoadCollectionVocBase (TRI_UseCollectionVocBase)
  // ---------------------------------------------------------------------------

  /** Progress measure of the retries in LoadCollectionVocBase: every retry
      starts from a loaded or corrupted collection, where the next pass ends. */
  function Rank(s: Status): nat {
    if s == NewBorn || s == Unloaded || s == Unloading then 1 else 0
  }

  /** One pass of LoadCollectionVocBase: either it ends with an error code
      and a state, or it changes the state and starts over. */
  datatype Step = Done(error: ErrorCode, state: ProxyState) | Again(state: ProxyState)

  function UseStep(s: ProxyState, ctype: ColType, create: CreateOutcome, open: OpenOutcome): (r: Step)
    requires ProxyInvariant(s)
    ensures ProxyInvariant(r.state)
    ensures r.Again? ==> Rank(r.state.status) < Rank(s.status)
  {
    match s.status
    case Loaded => Done(NoError, s)
    case Deleted => Done(CollectionNotFound, s)
    case Corrupted => Done(CorruptedCollection, s)
    case Unloading =>
      if DropBarrier in s.live.value.barriers then Done(CollectionNotFound, s)
      else Again(s.(status := Loaded))
    case NewBorn =>
      var (e, t) := ManifestSpec(s, ctype, create);
      if e != NoError then Done(e, t) else Again(t)
    case Unloaded =>
      if IsDocumentCollection(ctype) then
        match open
        case OpenFailed => Done(CorruptedCollection, s.(status := Corrupted))
        case Opened(directory, t) => Again(LoadedIn(directory, t))
      else Done(UnknownCollectionType, s)
  }

  /** LoadCollectionVocBase as a whole: passes are repeated until one ends.
      `create` and `open` are the outcomes of creating a new born collection
      and of opening an unloaded one. Success and a loaded collection go
      together: the caller then holds the status read lock. */
  function UseSpec(s: ProxyState, ctype: ColType, create: CreateOutcome, open: OpenOutcome): (r: (ErrorCode, ProxyState))
    requires ProxyInvariant(s)
    ensures ProxyInvariant(r.1)
    ensures r.0 == NoError <==> r.1.status == Loaded
    decreases Rank(s.status)
  {
    match UseStep(s, ctype, create, open)
    case Done(e, t) => (e, t)
    case Again(t) => UseSpec(t, ctype, create, open)
  }

  /** Using a loaded collection changes nothing. */
  lemma UseOfLoaded(s: ProxyState, ctype: ColType, create: CreateOutcome, open: OpenOutcome)
    requires ProxyInvariant(s) && s.status == Loaded
    ensures UseSpec(s, ctype, create, open) == (NoError, s)
  {
  }

  /** Deleted and corrupted collections cannot be used, and stay as they are. */
  lemma UseOfDeletedOrCorrupted(s: ProxyState, ctype: ColType, create: CreateOutcome, open: OpenOutcome)
    requires ProxyInvariant(s) && (s.status == Deleted || s.status == Corrupted)
    ensures UseSpec(s, ctype, create, open).1 == s
    ensures UseSpec(s, ctype, create, open).0 == if s.status == Deleted then CollectionNotFound else CorruptedCollection
  {
  }

  /** Using an unloading collection cancels the unload, unless a drop is
      pending on it, in which case the collection is reported as missing. */
  lemma UseOfUnloading(s: ProxyState, ctype: ColType, create: CreateOutcome, open: OpenOutcome)
    requires ProxyInvariant(s) && s.status == Unloading
    ensures DropBarrier in s.live.value.barriers ==> UseSpec(s, ctype, create, open) == (CollectionNotFound, s)
    ensures DropBarrier !in s.live.value.barriers ==> UseSpec(s, ctype, create, open) == (NoError, s.(status := Loaded))
  {
  }

  /** Using a new born collection manifests it: the result of the create
      decides between a loaded collection and a corrupted one. */
  lemma UseOfNewBorn(s: ProxyState, ctype: ColType, create: CreateOutcome, open: OpenOutcome)
    requires ProxyInvariant(s) && s.status == NewBorn
    ensures IsDocumentCollection(ctype) && create.Created? ==>
              UseSpec(s, ctype, create, open) == (NoError, LoadedIn(create.directory, ctype))
    ensures IsDocumentCollection(ctype) && create.CreateFailed? ==>
              UseSpec(s, ctype, create, open) ==
                (if create.error == NoError then CorruptedCollection else create.error, s.(status := Corrupted))
    ensures !IsDocumentCollection(ctype) ==>
              UseSpec(s, ctype, create, open) == (UnknownCollectionType, s.(status := Corrupted))
  {
    if IsDocumentCollection(ctype) && create.CreateFailed? && create.error == NoError {
      assert UseStep(s, ctype, create, open) == Again(s.(status := Corrupted));
    }
  }

  /** Using an unloaded collection opens it; a failed open marks it corrupted,
      and a collection of unknown type is refused without a change. */
  lemma UseOfUnloaded(s: ProxyState, ctype: ColType, create: CreateOutcome, open: OpenOutcome)
    requires ProxyInvariant(s) && s.status == Unloaded
    ensures IsDocumentCollection(ctype) && open.Opened? ==>
              UseSpec(s, ctype, create, open) == (NoError, LoadedIn(open.directory, open.ctype))
    ensures IsDocumentCollection(ctype) && open.OpenFailed? ==>
              UseSpec(s, ctype, create, open) == (CorruptedCollection, s.(status := Corrupted))
    ensures !IsDocumentCollection(ctype) ==> UseSpec(s, ctype, create, open) == (UnknownCollectionType, s)
  {
    if IsDocumentCollection(ctype) && open.Opened? {
      assert UseStep(s, ctype, create, open) == Again(LoadedIn(open.directory, open.ctype));
    }
  }

  // ---------------------------------------------------------------------------
  // TRI_UnloadCollectionVocBase and UnloadCollectionCallback
  // ---------------------------------------------------------------------------

  /** TRI_UnloadCollectionVocBase: a loaded collection becomes unloading and
      gets an unload barrier; every other status except corrupted is already
      treated as unloaded. */
  function UnloadSpec(s: ProxyState): (r: (ErrorCode, ProxyState))
    requires ProxyInvariant(s)
    ensures ProxyInvariant(r.1)
    ensures r.0 == NoError <==> s.status != Corrupted
    ensures s.status != Loaded ==> r.1 == s
    ensures s.status == Loaded ==>
              (r.1.status == Unloading && r.1.path == s.path
               && r.1.live == Some(s.live.value.(barriers := s.live.value.barriers + {UnloadBarrier})))
  {
    match s.status
    case Corrupted => (CorruptedCollection, s)
    case Unloaded => (NoError, s)
    case Unloading => (NoError, s)
    case NewBorn => (NoError, s)
    case Deleted => (NoError, s)
    case Loaded =>
      var live := s.live.value;
      (NoError, s.(status := Unloading, live := Some(live.(barriers := live.barriers + {UnloadBarrier}))))
  }

  /** UnloadCollectionCallback, run once the unload barrier is reached:
      `closeOk` is the outcome of TRI_CloseDocumentCollection. The boolean
      says whether the barrier is done with; it is false when the unload was
      cancelled in the meantime. */
  function UnloadCallbackSpec(s: ProxyState, closeOk: bool): (r: (bool, ProxyState))
    ensures ProxyInvariant(s) ==> ProxyInvariant(r.1)
    ensures s.status != Unloading ==> r == (false, s)
    ensures r.0 <==> s.status == Unloading && (s.live.None? || IsDocumentCollection(s.live.value.ctype))
    ensures r.1.path == s.path
    ensures s.status == Unloading ==>
              (r.1.status == Unloaded <==> s.live.Some? && IsDocumentCollection(s.live.value.ctype) && closeOk)
    ensures s.status == Unloading && r.1.status == Unloaded ==> r.1.live.None?
    ensures s.status == Unloading && s.live.None? ==> r == (true, s.(status := Corrupted))
    ensures s.status == Unloading && s.live.Some? && !IsDocumentCollection(s.live.value.ctype) ==>
              r == (false, s.(status := Loaded))
    ensures s.status == Unloading && s.live.Some? && IsDocumentCollection(s.live.value.ctype) && !closeOk ==>
              r == (true, s.(status := Corrupted))
  {
    if s.status != Unloading then (false, s)
    else match s.live
      case None => (true, s.(status := Corrupted))
      case Some(live) =>
        if !IsDocumentCollection(live.ctype) then (false, s.(status := Loaded))
        else if !closeOk then (true, s.(status := Corrupted))
        else (true, s.(status := Unloaded, live := None))
  }

  /** Unloading and then using a collection before the callback runs cancels
      the unload: the collection is loaded again, and when the pending
      callback finally runs it finds nothing to do. */
  lemma CancelledUnloadIsHarmless(s: ProxyState, ctype: ColType, create: CreateOutcome, open: OpenOutcome, closeOk: bool)
    requires ProxyInvariant(s) && s.status == Loaded && DropBarrier !in s.live.value.barriers
    ensures var u := UnloadSpec(s).1;
            var (e, t) := UseSpec(u, ctype, create, open);
            e == NoError && t.status == Loaded && t.live.value.directory == s.live.value.directory
            && UnloadCallbackSpec(t, closeOk) == (false, t)
  {
    var u := UnloadSpec(s).1;
    UseOfUnloading(u, ctype, create, open);
  }

  /** A completed unload can be reversed by using the collection again: it is
      reopened from the same directory. */
  lemma UnloadThenReopen(s: ProxyState, ctype: ColType, create: CreateOutcome, t: ColType)
    requires ProxyInvariant(s) && s.status == Loaded && IsDocumentCollection(ctype)
    requires IsDocumentCollection(s.live.value.ctype)
    ensures var u := UnloadCallbackSpec(UnloadSpec(s).1, true).1;
            u.status == Unloaded
            && UseSpec(u, ctype, create, Opened(s.live.value.directory, t))
               == (NoError, LoadedIn(s.live.value.directory, t))
  {
    var u := UnloadCallbackSpec(UnloadSpec(s).1, true).1;
    UseOfUnloaded(u, ctype, create, Opened(s.live.value.directory, t));
  }

  // ---------------------------------------------------------------------------
  // TRI_DropCollectionVocBase (the part under the status lock)
  // ---------------------------------------------------------------------------

  /** The status-locked part of TRI_DropCollectionVocBase. `read` and
      `saveError` are the outcomes of reading and rewriting the parameter
      file of an unloaded collection, `updateError` that of marking a loaded
      one deleted. A loaded or unloading collection keeps its live collection
      and gets a drop barrier; a corrupted one cannot be dropped. A failed
      drop changes nothing, except that a loaded or unloading collection
      whose parameters could not be updated stays marked deleted in memory. */
  function DropSpec(s: ProxyState, read: ReadParameters, saveError: ErrorCode, updateError: ErrorCode): (r: (ErrorCode, ProxyState))
    requires ProxyInvariant(s)
    ensures ProxyInvariant(r.1)
    ensures r.0 == NoError <==> r.1.status == Deleted
    ensures r.0 != NoError && s.status != Loaded && s.status != Unloading ==> r.1 == s
    ensures r.0 != NoError && (s.status == Loaded || s.status == Unloading) ==>
              r.1 == s.(live := Some(s.live.value.(deleted := true)))
    ensures r.1.path == s.path
    ensures s.status == Corrupted ==> r.0 == Internal
    ensures s.status == Deleted ==> r == (NoError, s)
    ensures s.status == NewBorn ==> r == (NoError, s.(status := Deleted))
    ensures s.status == Unloaded ==>
              r.0 == (if !read.Ok() then read.error
                      else if !read.info.deleted && saveError != NoError then saveError
                      else NoError)
    ensures s.status == Loaded || s.status == Unloading ==> r.0 == updateError
    // which drops succeed
    ensures r.0 == NoError <==>
              s.status == Deleted || s.status == NewBorn
              || (s.status == Unloaded && read.Ok() && (read.info.deleted || saveError == NoError))
              || ((s.status == Loaded || s.status == Unloading) && updateError == NoError)
  {
    match s.status
    case Deleted => (NoError, s)
    case NewBorn => (NoError, s.(status := Deleted))
    case Unloaded =>
      if !read.Ok() then (read.error, s)
      else if !read.info.deleted && saveError != NoError then (saveError, s)
      else (NoError, s.(status := Deleted))
    case Loaded => DropLive(s, updateError)
    case Unloading => DropLive(s, updateError)
    case Corrupted => (Internal, s)
  }

  /** The loaded and unloading cases: the open collection is marked deleted
      before its parameters are updated, and the mark is not taken back when
      the update fails. */
  function DropLive(s: ProxyState, updateError: ErrorCode): (r: (ErrorCode, ProxyState))
    requires s.live.Some?
    ensures r.0 == updateError
    ensures r.1.live.Some? && r.1.live.value.deleted && r.1.path == s.path
    ensures r.0 == NoError ==>
              (r.1.status == Deleted
               && r.1.live == Some(s.live.value.(deleted := true, barriers := s.live.value.barriers + {DropBarrier})))
    ensures r.0 != NoError ==> r.1 == s.(live := Some(s.live.value.(deleted := true)))
  {
    var live := s.live.value.(deleted := true);
    if updateError != NoError then (updateError, s.(live := Some(live)))
    else (NoError, s.(status := Deleted, live := Some(live.(barriers := live.barriers + {DropBarrier}))))
  }

  /** Deletion is final: once a drop succeeded, using, unloading, manifesting
      or dropping the collection again leaves it deleted. */
  lemma DeletedIsFinal(s: ProxyState, ctype: ColType, create: CreateOutcome, open: OpenOutcome,
                       read: ReadParameters, saveError: ErrorCode, updateError: ErrorCode)
    requires ProxyInvariant(s) && s.status == Deleted
    ensures UseSpec(s, ctype, create, open) == (CollectionNotFound, s)
    ensures UnloadSpec(s) == (NoError, s)
    ensures ManifestSpec(s, ctype, create) == (CollectionNotFound, s)
    ensures DropSpec(s, read, saveError, updateError) == (NoError, s)
  {
  }

  // ---------------------------------------------------------------------------
  // DropCollectionCallback (the part under the status lock)
  // ---------------------------------------------------------------------------

  /** Whether DropCollectionCallback gets past the status lock and goes on to
      move the proxy to the dead list and rename its directory: the
      collection is still deleted, and it is either not open or was closed. */
  predicate DropCallbackProceeds(s: ProxyState, closeOk: bool) {
    s.status == Deleted && (s.live.None? || (IsDocumentCollection(s.live.value.ctype) && closeOk))
  }

  /** The status-locked part of DropCollectionCallback; `closeOk` is the
      outcome of TRI_CloseDocumentCollection. The boolean says whether the
      barrier is done with: false for a resurrected collection or one of
      unknown type, true otherwise, even when closing failed. */
  function DropCallbackSpec(s: ProxyState, closeOk: bool): (r: (bool, ProxyState))
    ensures ProxyInvariant(s) ==> ProxyInvariant(r.1)
    ensures r.0 <==> s.status == Deleted && (s.live.None? || IsDocumentCollection(s.live.value.ctype))
    ensures DropCallbackProceeds(s, closeOk) ==> r.1.live.None? && r.1.status == Deleted && r.1.path == s.path
    ensures !DropCallbackProceeds(s, closeOk) ==> r.1 == s
  {
    if s.status != Deleted then (false, s)
    else match s.live
      case None => (true, s)
      case Some(live) =>
        if !IsDocumentCollection(live.ctype) then (false, s)
        else if !closeOk then (true, s)
        else (true, s.(live := None))
  }

  /** A collection dropped while unloaded goes straight through the callback:
      nothing is open, so nothing can stop it. */
  lemma DropOfUnloadedProceeds(s: ProxyState, read: ReadParameters, saveError: ErrorCode, updateError: ErrorCode, closeOk: bool)
    requires ProxyInvariant(s) && s.status == Unloaded
    requires DropSpec(s, read, saveError, updateError).0 == NoError
    ensures DropCallbackProceeds(DropSpec(s, read, saveError, updateError).1, closeOk)
    ensures DropCallbackSpec(DropSpec(s, read, saveError, updateError).1, closeOk) == (true, DropSpec(s, read, saveError, updateError).1)
  {
  }

  // ---------------------------------------------------------------------------
  // TRI_RenameCollectionVocBase
  // ---------------------------------------------------------------------------

  /** The rule for the new name takes the system flag from the old one: a
      name starting with `_` belongs to a system collection. */
  predicate IsSystemName(name: string) { |name| > 0 && name[0] == '_' }

  /** The error TRI_RenameCollectionVocBase returns. `taken` says whether
      another collection is registered under the new name; `read` and
      `saveError` are the outcomes of rewriting the parameter file of an
      unloaded collection, `renameError` that of TRI_RenameCollection on an
      open one. */
  function RenameSpec(oldName: string, newName: string, s: Status, taken: bool,
                      read: ReadParameters, saveError: ErrorCode, renameError: ErrorCode): (r: ErrorCode)
    ensures oldName == newName ==> r == NoError
    ensures oldName != newName && !IsAllowedCollectionName(IsSystemName(oldName), newName) ==> r == IllegalName
    ensures oldName != newName && r == NoError ==>
              IsAllowedCollectionName(IsSystemName(oldName), newName) && !taken && s != Corrupted && s != Deleted
    // past the name checks, the status and the name index decide in this order
    ensures oldName != newName && IsAllowedCollectionName(IsSystemName(oldName), newName) ==>
              (s == Corrupted ==> r == CorruptedCollection)
              && (s == Deleted ==> r == CollectionNotFound)
              && (s != Corrupted && s != Deleted && taken ==> r == DuplicateName)
    // a free name: a new born collection has nothing on disk; the others
    // return the error of rewriting their parameters unchanged
    ensures oldName != newName && IsAllowedCollectionName(IsSystemName(oldName), newName)
            && s != Corrupted && s != Deleted && !taken ==>
              (s == NewBorn ==> r == NoError)
              && (s == Unloaded ==> r == (if !read.Ok() then read.error else saveError))
              && (s == Loaded || s == Unloading ==> r == renameError)
  {
    if oldName == newName then NoError
    else if !IsAllowedCollectionName(IsSystemName(oldName), newName) then IllegalName
    else if s == Corrupted then CorruptedCollection
    else if s == Deleted then CollectionNotFound
    else if taken then DuplicateName
    else if s == NewBorn then NoError
    else if s == Unloaded then
      if !read.Ok() then read.error else saveError
    else renameError
  }

  /** The system flag of the name rule follows the old name: an ordinary
      collection cannot take a name starting with `_`, so `users` may not
      become `_people` while `_users` may. */
  lemma RenameKeepsSystemPrefixRule(oldName: string, newName: string, s: Status, taken: bool,
                                    read: ReadParameters, saveError: ErrorCode, renameError: ErrorCode)
    requires oldName != newName && |newName| > 0 && newName[0] == '_' && !IsSystemName(oldName)
    ensures RenameSpec(oldName, newName, s, taken, read, saveError, renameError) == IllegalName
  {
    SystemPrefixOnlyForSystem(newName);
  }
}
