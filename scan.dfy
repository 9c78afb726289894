/** What ScanPath (arangod/VocBase/vocbase.c) does with each entry of the
    database directory, stated on values. The registry's scan loop is proved
    against these functions. */
module DirectoryScan {
  import opened Chars
  import opened VocBaseTypes
  import opened CollectionNames
  import opened Ticks

  /** One entry of the database directory, with what the file system reports
      about it: whether it is a directory, what reading its parameter file
      gives, and whether the rename or removal ScanPath may attempt on it
      succeeds. */
  datatype DirEntry = DirEntry(name: string, isDirectory: bool, parameters: ReadParameters, fsOk: bool)

  /** The decision ScanPath takes for one entry. */
  datatype ScanAction =
    | Ignore                                        // no match, no directory, unreadable or of unknown type
    | Wipe(directory: string)                       // deleted, and the database removes dropped collections
    | RenameDeleted(from: string, to: string)       // deleted, kept as `deleted-<digits>`
    | Register(info: ParameterInfo, directory: string)  // a document collection to register as unloaded

  /** A directory named `collection-<digits>` with a readable parameter file. */
  predicate Readable(e: DirEntry) {
    IsCollectionDirectoryName(e.name) && e.isDirectory && e.parameters.Ok()
  }

  function Action(dbPath: string, removeOnDrop: bool, e: DirEntry): (a: ScanAction)
    ensures !a.Ignore? ==> Readable(e)
    ensures a.Register? ==> a.info == e.parameters.info && !a.info.deleted && IsDocumentCollection(a.info.ctype)
                            && a.directory == JoinPath(dbPath, e.name)
    ensures Readable(e) && e.parameters.info.deleted ==> (a.Wipe? <==> removeOnDrop) && (a.RenameDeleted? <==> !removeOnDrop)
  {
    if !Readable(e) then Ignore
    else
      var info := e.parameters.info;
      var file := JoinPath(dbPath, e.name);
      if info.deleted then
        if removeOnDrop then Wipe(file)
        else RenameDeleted(file, JoinPath(dbPath, DeletedDirectoryName(DirectoryDigits(e.name))))
      else if IsDocumentCollection(info.ctype) then Register(info, file)
      else Ignore
  }

  /** Entries whose name does not match the expression, such as the `lock`
      file, are ignored whatever they are. */
  lemma NonCollectionEntriesIgnored(dbPath: string, removeOnDrop: bool, e: DirEntry)
    requires !IsCollectionDirectoryName(e.name)
    ensures Action(dbPath, removeOnDrop, e) == Ignore
  {
  }

  /** A deleted collection found at startup is renamed exactly as the drop
      callback would have renamed it. */
  lemma ScanRenameAgreesWithDrop(dbPath: string, removeOnDrop: bool, e: DirEntry)
    requires Action(dbPath, removeOnDrop, e).RenameDeleted?
    ensures DroppedPath(Action(dbPath, removeOnDrop, e).from) == Some(Action(dbPath, removeOnDrop, e).to)
  {
    DroppedPathOfCollectionDirectory(dbPath, e.name);
  }

  /** The disk change an action makes when the file system call succeeds. */
  function ActionOps(a: ScanAction, fsOk: bool): (ops: seq<FsOp>)
    ensures |ops| <= 1
    ensures ops != [] <==> fsOk && (a.Wipe? || a.RenameDeleted?)
  {
    match a
    case Wipe(directory) => if fsOk then [RemoveDirectory(directory)] else []
    case RenameDeleted(from, to) => if fsOk then [RenameDirectory(from, to)] else []
    case _ => []
  }

  /** The identifier ScanPath feeds to TRI_UpdateTickVocBase: that of every
      readable parameter file, deleted or not, whatever its type. */
  function ObservedCid(e: DirEntry): (r: Option<nat>)
    ensures r.Some? <==> Readable(e)
  {
    if Readable(e) then Some(e.parameters.info.cid) else None
  }

  /** Identifiers read from disk are `uint64_t` values. */
  predicate CidsInRange(entries: seq<DirEntry>) {
    forall i :: 0 <= i < |entries| && entries[i].parameters.Ok() ==> entries[i].parameters.info.cid < WordRange
  }

  /** The tick counter after one entry has been scanned: raised to the
      counter part of the identifier read, if any. */
  function ObserveEntry(c: nat, e: DirEntry): (r: nat)
    ensures r >= c
    ensures Readable(e) ==> r >= CounterOf(e.parameters.info.cid)
    ensures !Readable(e) ==> r == c
  {
    match ObservedCid(e)
    case None => c
    case Some(cid) => if c < CounterOf(cid) then CounterOf(cid) else c
  }

  /** The tick counter after the entries have been scanned in order. */
  function ScanCounter(start: nat, entries: seq<DirEntry>): (c: nat)
    decreases |entries|
  {
    if entries == [] then start
    else ObserveEntry(ScanCounter(start, entries[..|entries| - 1]), entries[|entries| - 1])
  }

  /** The counter after the scan is at least where it started and at least
      the counter part of every identifier seen, so (by
      `Ticks.NextTickExceedsObserved`) later ticks exceed all of them. */
  lemma {:induction false} ScanCounterBounds(start: nat, entries: seq<DirEntry>)
    ensures ScanCounter(start, entries) >= start
    ensures forall i :: 0 <= i < |entries| && Readable(entries[i]) ==>
              ScanCounter(start, entries) >= CounterOf(entries[i].parameters.info.cid)
  {
    if entries != [] {
      var init := entries[..|entries| - 1];
      ScanCounterBounds(start, init);
      forall i | 0 <= i < |entries| - 1 && Readable(entries[i])
        ensures ScanCounter(start, entries) >= CounterOf(entries[i].parameters.info.cid)
      {
        assert entries[i] == init[i];
      }
    }
  }

  /** The disk changes of a whole scan, in directory order. */
  function ScanOps(dbPath: string, removeOnDrop: bool, entries: seq<DirEntry>): (ops: seq<FsOp>)
    ensures |ops| <= |entries|
    decreases |entries|
  {
    if entries == [] then []
    else
      var last := entries[|entries| - 1];
      ScanOps(dbPath, removeOnDrop, entries[..|entries| - 1]) + ActionOps(Action(dbPath, removeOnDrop, last), last.fsOk)
  }

  /** The collections a whole scan registers, in directory order, with the
      directory each is registered under. */
  function Registrations(dbPath: string, removeOnDrop: bool, entries: seq<DirEntry>): (regs: seq<ScanAction>)
    ensures |regs| <= |entries|
    ensures forall k :: 0 <= k < |regs| ==> regs[k].Register?
    decreases |entries|
  {
    if entries == [] then []
    else
      var a := Action(dbPath, removeOnDrop, entries[|entries| - 1]);
      Registrations(dbPath, removeOnDrop, entries[..|entries| - 1]) + (if a.Register? then [a] else [])
  }

  /** `a` is the action taken for one of `entries`, a live document collection. */
  predicate ComesFrom(dbPath: string, removeOnDrop: bool, entries: seq<DirEntry>, a: ScanAction) {
    exists i :: 0 <= i < |entries| && a == Action(dbPath, removeOnDrop, entries[i])
                && Readable(entries[i]) && !entries[i].parameters.info.deleted
                && IsDocumentCollection(entries[i].parameters.info.ctype)
  }

  /** Every registration comes from a `collection-<digits>` directory of the
      database holding a live document collection, and no such directory is
      skipped. */
  lemma {:induction false} RegistrationsAreLiveDocumentCollections(dbPath: string, removeOnDrop: bool, entries: seq<DirEntry>)
    ensures forall a :: a in Registrations(dbPath, removeOnDrop, entries) ==> ComesFrom(dbPath, removeOnDrop, entries, a)
    ensures forall i :: 0 <= i < |entries| && Action(dbPath, removeOnDrop, entries[i]).Register? ==>
              Action(dbPath, removeOnDrop, entries[i]) in Registrations(dbPath, removeOnDrop, entries)
    decreases |entries|
  {
    if entries != [] {
      var init := entries[..|entries| - 1];
      var lastAction := Action(dbPath, removeOnDrop, entries[|entries| - 1]);
      RegistrationsAreLiveDocumentCollections(dbPath, removeOnDrop, init);
      var regs := Registrations(dbPath, removeOnDrop, entries);
      var regsInit := Registrations(dbPath, removeOnDrop, init);
      assert regs == regsInit + (if lastAction.Register? then [lastAction] else []);
      forall a | a in regs
        ensures ComesFrom(dbPath, removeOnDrop, entries, a)
      {
        if a in regsInit {
          assert ComesFrom(dbPath, removeOnDrop, init, a);
          var i :| 0 <= i < |init| && a == Action(dbPath, removeOnDrop, init[i])
                   && Readable(init[i]) && !init[i].parameters.info.deleted
                   && IsDocumentCollection(init[i].parameters.info.ctype);
          assert init[i] == entries[i];
        } else {
          assert a == lastAction;
        }
      }
      forall i | 0 <= i < |entries| && Action(dbPath, removeOnDrop, entries[i]).Register?
        ensures Action(dbPath, removeOnDrop, entries[i]) in regs
      {
        if i < |init| {
          assert init[i] == entries[i];
          assert Action(dbPath, removeOnDrop, init[i]) in regsInit;
        }
      }
    }
  }

  /** Scanning one more entry extends the registrations, the disk changes
      and the tick counter by what that entry contributes. */
  lemma ScanOneMore(dbPath: string, removeOnDrop: bool, start: nat, entries: seq<DirEntry>, i: nat)
    requires i < |entries|
    ensures var a := Action(dbPath, removeOnDrop, entries[i]);
            Registrations(dbPath, removeOnDrop, entries[..i + 1])
            == Registrations(dbPath, removeOnDrop, entries[..i]) + (if a.Register? then [a] else [])
    ensures ScanOps(dbPath, removeOnDrop, entries[..i + 1])
            == ScanOps(dbPath, removeOnDrop, entries[..i]) + ActionOps(Action(dbPath, removeOnDrop, entries[i]), entries[i].fsOk)
    ensures ScanCounter(start, entries[..i + 1]) == ObserveEntry(ScanCounter(start, entries[..i]), entries[i])
  {
    assert entries[..i + 1][..i] == entries[..i];
  }
}
