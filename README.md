# ArangoDB collection registry and HTTP response, modelled in Dafny

This project models two parts of an early ArangoDB server.

The first part is the **collection registry of a database** (`TRI_vocbase_t`,
arangod/VocBase/vocbase.c and vocbase.h):

- The registry holds the list of collections, the list of dropped ("dead")
  collections, and the two indexes by name and by identifier.
- Each collection is reached through a proxy (`TRI_vocbase_col_t`). A proxy
  moves through the statuses new born, unloaded, loaded, unloading, deleted
  and corrupted.
- The model covers how proxies are registered, borne, created, manifested,
  used (loaded), released, unloaded, dropped (with the deferred drop
  callback) and renamed, and how the database directory is scanned at open.
- It also covers the tick generator, the collection name rule, the
  `collection-<id>` and `deleted-<id>` directory conventions, and the page
  rounding of `TRI_msync`.

The second part is the **`HttpResponse` class** (lib/Rest/HttpResponse.cpp):

- the status-code table (`responseString`, `responseCode`);
- the three constructors and the default headers;
- single-header lookup and assignment;
- parsing of a header text (`setHeaders`);
- writing the header block (`writeHeader`);
- `contentLength`, `bodySize`, `headResponse` and `swap`.

Modules:

- `Chars`: ASCII classes, `tolower`, `atoi`, `itoa`.
- `VocBaseTypes`: statuses, error codes, parameter records and disk operations.
- `CollectionNames`: the name rule and directory names.
- `PageAlign`: `TRI_msync`.
- `Ticks`: the tick generator.
- `Lifecycle`: the status machine of one proxy, as functions.
- `DirectoryScan`: what the startup scan does with each directory entry.
- `Vectors`: removal from a vector.
- `Unregistration`: removal from the indexes.
- `ProxyTable`: the registry invariant.
- `VocBase`: class `Database`, with the operations as methods.
- `HttpCodes`, `HttpHeaders` and `HttpResponses`: class `HttpResponse`.

### How the model is proved

**The registry.** Every `Database` method keeps `Valid()`. `Valid()` says:

- every proxy obeys the status invariant;
- only loaded collections have readers;
- the list has no duplicates;
- the dead list holds deleted proxies only;
- the name and identifier indexes hold exactly the proxies that are not
  deleted, each under its own name and identifier.

Each registry method is proved against a value-level specification of what
the C function does. For example, `DropOutcome` states the result of
`TRI_DropCollectionVocBase`, and `Used` states that of
`LoadCollectionVocBase`. The `Lifecycle` lemmas then prove what those
specifications promise:

- deletion is final;
- a cancelled unload is harmless;
- manifesting is idempotent;
- a use succeeds exactly when it leaves the collection loaded;
- the use loop terminates.

**`HttpResponse`.** Each method is proved against value functions of
`HttpHeaders`:

- `ApplyText` states `setHeaders`;
- `HeaderBlock` states `writeHeader`;
- `Lookup` and `Assign` state `header` and `setHeader`.

Writing and reading the header block is proved to be a round trip
(`HeaderBlockRoundTrip`).

## Model

| member | source | states |
|---|---|---|
| Chars.LowerChar | lib/Rest/HttpResponse.cpp:385 | `::tolower` in the C locale changes exactly the letters A-Z, by 32, and never returns an upper-case letter |
| Chars.Lower | lib/Rest/HttpResponse.cpp:274 | lower-casing keeps the length and maps every character through `tolower` |
| Chars.LowerIdempotent | lib/Rest/HttpResponse.cpp:274 | a string is lower case exactly when lower-casing leaves it unchanged |
| Chars.NatToString | lib/Rest/HttpResponse.cpp:88 | `itoa` of a natural number is a non-empty run of digits |
| Chars.IntToString | lib/Rest/HttpResponse.cpp:88 | `itoa` of an int starts with a digit or a minus sign |
| Chars.DigitsValueOfNatToString | lib/Rest/HttpResponse.cpp:88 | the digits `itoa` writes have the value of the number |
| Chars.Atoi | lib/Rest/HttpResponse.cpp:97 | `atoi` of text without a sign or digit after the white space is 0, and a negative value needs a leading minus |
| Chars.AtoiOfIntToString | lib/Rest/HttpResponse.cpp:97 | `atoi` reads back what `itoa` wrote, whatever non-digit text follows |
| Chars.IntToStringInjective | lib/Rest/HttpResponse.cpp:88 | distinct numbers give distinct decimal texts |
| VocBaseTypes.StatusCode | arangod/VocBase/vocbase.h:413-418 | each status has its enum value, below 6 |
| VocBaseTypes.StatusOfCode | arangod/VocBase/vocbase.h:413-418 | a number names a status exactly when it is 0..5 |
| VocBaseTypes.StatusCodeBijection | arangod/VocBase/vocbase.h:413-418 | statuses and the codes 0..5 correspond one to one |
| CollectionNames.CharsAllowedFrom | arangod/VocBase/vocbase.c:1019-1033 | the character loop accepts exactly when every remaining position passes its test (a letter first for ordinary names; letters, digits, `_` and `-` after) |
| CollectionNames.IsAllowedCollectionName | arangod/VocBase/vocbase.c:1013-1039 | a name is allowed exactly when it has 1 to 64 characters, a letter first (any name character first for a system collection) and name characters after |
| CollectionNames.LoopTestMatchesRule | arangod/VocBase/vocbase.c:1019-1033 | the per-position test of the loop is equivalent to the declarative first-character and rest rule |
| CollectionNames.SystemPrefixOnlyForSystem | arangod/VocBase/vocbase.c:1019-1033 | a name starting with `_` is never allowed for an ordinary collection, and is allowed for a system one exactly when it is short enough and made of name characters |
| CollectionNames.OrdinaryNamesAreSystemNames | arangod/VocBase/vocbase.c:1013-1039 | every ordinary name is also a valid system name |
| CollectionNames.IsCollectionDirectoryName | arangod/VocBase/vocbase.c:564 | a name matching `^collection-([0-9][0-9]*)$` in any letter case is longer than the prefix and holds no `/` |
| CollectionNames.DirectoryDigits | arangod/VocBase/vocbase.c:564 | the digits captured from a `collection-<digits>` name are a non-empty run of digits that completes the name |
| CollectionNames.CollectionDirectoryNameRoundTrip | arangod/VocBase/vocbase.c:564 | the directory name written for an identifier matches the scan's expression, and its digits give the identifier back |
| CollectionNames.LastSlash | arangod/VocBase/vocbase.c:368-372 | the index found holds a `/` with no `/` after it; none is found only when the path has no `/` |
| CollectionNames.DroppedPath | arangod/VocBase/vocbase.c:366-388 | the rename target, when there is one, is the path with `collection-` replaced by the shorter `deleted-` |
| CollectionNames.DroppedPathOfCollectionDirectory | arangod/VocBase/vocbase.c:366-388 | the drop callback renames `<dir>/collection-<digits>` to `<dir>/deleted-<digits>` |
| CollectionNames.LastSlashIsLast | arangod/VocBase/vocbase.c:368-372 | a `/` with none after it is the one the greedy `(.*)/` splits at |
| CollectionNames.DroppedPathMatchesOnlyCollectionDirectories | arangod/VocBase/vocbase.c:366-425 | a rename target exists only for a path whose last component is a collection directory, and the target keeps the parent and the digits |
| CollectionNames.DropDirectoryOps | arangod/VocBase/vocbase.c:358-428 | the callback renames the directory exactly when there is a path, it matches and the rename succeeds; it removes the renamed directory only when the database wipes dropped collections and the removal succeeds |
| PageAlign.RoundDown | arangod/VocBase/vocbase.c:1082 | `(p / g) * g` is a multiple of the page size, at most `p` and within one page of it |
| PageAlign.MsyncRegion | arangod/VocBase/vocbase.c:1077-1093 | the flushed region starts at a page boundary at most one page before `begin` |
| PageAlign.StartIsLastBoundaryBefore | arangod/VocBase/vocbase.c:1082 | no page boundary at or before `begin` lies after the start of the region |
| PageAlign.EndIsFirstBoundaryAfter | arangod/VocBase/vocbase.c:1083 | without wrap-around, the region ends at the first page boundary at or after `end` |
| PageAlign.RegionIsWholePages | arangod/VocBase/vocbase.c:1082-1086 | without wrap-around, the length `e - b` is a whole number of pages and the region covers `[begin, end)` |
| Ticks.PackTick | arangod/VocBase/vocbase.c:1046-1050 | `serverId \| (counter << 16)` on 64 bits stays below 2^64 |
| Ticks.PackUnpack | arangod/VocBase/vocbase.c:1046-1050 | a tick splits back into the counter (modulo 2^48) and the server identifier |
| Ticks.PackInjective | arangod/VocBase/vocbase.c:1046-1050 | distinct (counter mod 2^48, server) pairs give distinct ticks |
| Ticks.PackMonotonic | arangod/VocBase/vocbase.c:1046-1050 | below 2^48 a larger counter gives a larger tick for the same server |
| Ticks.NextTickExceedsObserved | arangod/VocBase/vocbase.c:1061-1071 | once the counter has reached the counter part of an observed tick, the next tick is larger than it (below 2^48) |
| Ticks.TickGenerator.NewTick | arangod/VocBase/vocbase.c:1045-1055 | the counter is pre-incremented modulo 2^64 and the tick carries it and the server identifier |
| Ticks.TickGenerator.UpdateTick | arangod/VocBase/vocbase.c:1061-1071 | the counter is raised to `tick >> 16` when it is below it and never lowered |
| Lifecycle.LoadedIn | arangod/VocBase/vocbase.c:796-799 | a successful create or open leaves the collection loaded in that directory, with no barriers and not marked deleted |
| Lifecycle.ManifestSpec | arangod/VocBase/vocbase.c:735-812 | a corrupted collection gives its error, a deleted one is not found, the other built collections give no error, all unchanged; a new born document collection becomes loaded in the created directory, or corrupted with the create's error; a new born one of unknown type becomes corrupted with that error; the status invariant is kept |
| Lifecycle.ManifestIdempotent | arangod/VocBase/vocbase.c:735-812 | a second manifest changes nothing |
| Lifecycle.UseStep | arangod/VocBase/vocbase.c:857-971 | a pass keeps the status invariant, and a pass that starts over has lowered the rank, so the loop ends |
| Lifecycle.UseSpec | arangod/VocBase/vocbase.c:848-973 | a use succeeds exactly when it leaves the collection loaded, and keeps the invariant |
| Lifecycle.UseOfLoaded | arangod/VocBase/vocbase.c:859-863 | using a loaded collection succeeds and changes nothing |
| Lifecycle.UseOfDeletedOrCorrupted | arangod/VocBase/vocbase.c:865-874 | deleted and corrupted collections are refused with their error and left unchanged |
| Lifecycle.UseOfUnloading | arangod/VocBase/vocbase.c:893-909 | an unloading collection is loaded again unless a drop barrier is pending, then it is not found |
| Lifecycle.UseOfNewBorn | arangod/VocBase/vocbase.c:923-934 | a new born collection is manifested: loaded on a successful create, corrupted otherwise |
| Lifecycle.UseOfUnloaded | arangod/VocBase/vocbase.c:936-966 | an unloaded collection is opened; a failed open marks it corrupted; an unknown type is refused unchanged |
| Lifecycle.UnloadSpec | arangod/VocBase/vocbase.c:1516-1573 | only corrupted collections are refused; a loaded one becomes unloading with an unload barrier; every other one is left as it is |
| Lifecycle.UnloadCallbackSpec | arangod/VocBase/vocbase.c:217-271 | only an unloading collection changes: without a collection it becomes corrupted; a collection of unknown type goes back to loaded and keeps its barrier; a document collection that fails to close becomes corrupted; one that closes becomes unloaded and closed |
| Lifecycle.CancelledUnloadIsHarmless | arangod/VocBase/vocbase.c:893-909 | unload then use before the callback leaves the collection loaded in its directory, and the late callback does nothing |
| Lifecycle.UnloadThenReopen | arangod/VocBase/vocbase.c:936-957 | a completed unload is reversed by a use that reopens the same directory |
| Lifecycle.DropSpec | arangod/VocBase/vocbase.c:1579-1699 | a drop succeeds exactly for a deleted or new born collection, an unloaded one whose parameters are read and already say deleted or are saved, and an open one whose parameters are updated, and then leaves it deleted; an unloaded collection otherwise returns the read or save error, an open one the update error, a corrupted one an internal error; a failed drop changes nothing, except that an open collection stays marked deleted in memory |
| Lifecycle.DropLive | arangod/VocBase/vocbase.c:1660-1697 | the open collection is marked deleted in every case; when its parameters are updated the proxy is deleted with a drop barrier, otherwise the update's error is returned and nothing else changes |
| Lifecycle.DeletedIsFinal | arangod/VocBase/vocbase.c:1589-1598 | a deleted collection stays deleted under use, unload, manifest and drop |
| Lifecycle.DropCallbackSpec | arangod/VocBase/vocbase.c:292-332 | the callback proceeds only for a still-deleted collection that is closed or closes; otherwise it changes nothing |
| Lifecycle.DropOfUnloadedProceeds | arangod/VocBase/vocbase.c:1613-1658 | a collection dropped while unloaded always goes straight through the callback |
| Lifecycle.RenameSpec | arangod/VocBase/vocbase.c:1705-1831 | a rename to the same name is a no-op; then, in order: an invalid new name is refused, a corrupted collection gives its error, a deleted one is not found, a taken name is a duplicate; past those checks a new born collection is renamed, an unloaded one returns the read or save error of its parameter file, an open one the error of renaming it; success needs a valid free name and a collection neither corrupted nor deleted |
| Lifecycle.RenameKeepsSystemPrefixRule | arangod/VocBase/vocbase.c:1712-1718 | an ordinary collection cannot be renamed to a name starting with `_` |
| DirectoryScan.Action | arangod/VocBase/vocbase.c:570-667 | only readable collection directories cause action; a deleted one is wiped or renamed as the database is configured; a live document collection is registered under its directory |
| DirectoryScan.NonCollectionEntriesIgnored | arangod/VocBase/vocbase.c:573-579 | entries whose name does not match, such as `lock`, are ignored |
| DirectoryScan.ScanRenameAgreesWithDrop | arangod/VocBase/vocbase.c:615-631 | a deleted directory found at startup is renamed exactly as the drop callback would rename it |
| DirectoryScan.ActionOps | arangod/VocBase/vocbase.c:603-636 | at most one disk change per entry, made only when the wipe or rename succeeds |
| DirectoryScan.ObserveEntry | arangod/VocBase/vocbase.c:593-597 | the tick counter never decreases and reaches the counter part of every readable identifier |
| DirectoryScan.ScanCounterBounds | arangod/VocBase/vocbase.c:565-597 | after the scan the counter is at least the counter part of every identifier read, so later ticks exceed them all |
| DirectoryScan.Registrations | arangod/VocBase/vocbase.c:640-660 | the scan registers at most one collection per entry |
| DirectoryScan.RegistrationsAreLiveDocumentCollections | arangod/VocBase/vocbase.c:640-660 | every registration comes from a readable, live document collection directory, and no such directory is skipped |
| DirectoryScan.ScanOneMore | arangod/VocBase/vocbase.c:565-675 | one more entry extends the registrations, the disk changes and the counter by that entry's contribution |
| Vectors.RemoveFirst | arangod/VocBase/vocbase.c:340-347 | removing an element from the collection list never makes it longer |
| Vectors.RemoveFirstMultiset | arangod/VocBase/vocbase.c:342-347 | removing the first occurrence takes exactly one copy out of the list |
| Vectors.RemoveFirstAt | arangod/VocBase/vocbase.c:342-347 | removing at the first matching index is removing the first occurrence |
| Vectors.RemoveFirstAbsent | arangod/VocBase/vocbase.c:342-347 | removing a missing element leaves the list unchanged |
| Vectors.RemoveFirstNoDuplicates | arangod/VocBase/vocbase.c:342-347 | removal keeps a list without duplicates without duplicates, and the element is gone |
| Unregistration.RepeatedDropUnregistersSuccessor | arangod/VocBase/vocbase.c:202-211 | removal by key alone, on a name reused after a drop, takes the new collection out of one index and not the other |
| Unregistration.StaleDropUnregistersSuccessor | arangod/VocBase/vocbase.c:202-211 | for any keyed, agreeing indexes, dropping a stale proxy whose name now belongs to another collection takes that collection out of the name index only, so the indexes disagree |
| Unregistration.Unbind | arangod/VocBase/vocbase.c:202-211 | only an entry holding the dropped proxy is removed, and every other entry stays |
| Unregistration.UnbindKeepsIndexesAgreeing | arangod/VocBase/vocbase.c:202-211 | the corrected removal keeps both indexes keyed and in agreement, and removes exactly the dropped proxy |
| ProxyTable.Proxy.WithState | arangod/VocBase/vocbase.h:426-437 | replacing the status-locked part leaves the identity, name, type and readers of the proxy alone |
| ProxyTable.IndexedAreListed | arangod/VocBase/vocbase.h:361-370 | the identifier index holds exactly the listed proxies that are not deleted |
| ProxyTable.UpdateKeepsInvariant | arangod/VocBase/vocbase.h:361-370 | a status-locked change that keeps the name, the identifier and deletedness keeps the registry invariant |
| ProxyTable.AppendKeepsInvariant | arangod/VocBase/vocbase.c:480-547 | appending a new proxy under a free name and identifier keeps the invariant |
| ProxyTable.RetireKeepsInvariant | arangod/VocBase/vocbase.c:1645-1651 | marking a proxy deleted and unbinding it keeps the invariant |
| ProxyTable.BuryKeepsInvariant | arangod/VocBase/vocbase.c:340-352 | moving a deleted proxy from the list to the dead list keeps the invariant |
| ProxyTable.RenameKeepsInvariant | arangod/VocBase/vocbase.c:1817-1823 | refiling a live proxy under a free new name keeps the invariant |
| VocBase.ScannedProxy | arangod/VocBase/vocbase.c:645-658 | a scanned collection is registered unloaded, closed, with its name, identifier, type and directory |
| VocBase.ScanReachedOneMore | arangod/VocBase/vocbase.c:565-675 | one pass of the scan loop extends the state the scan has reached by one entry |
| VocBase.UsePass | arangod/VocBase/vocbase.c:848-973 | a final pass leaves the table a whole use produces; any other pass lowers the rank with the same outcome ahead |
| VocBase.IndexValues | arangod/VocBase/vocbase.c:1339-1359 | the loop collects every proxy of the identifier index, once each |
| VocBase.DropRefused | arangod/VocBase/vocbase.c:1613-1670 | a drop that fails changes only the proxy state as DropSpec says, and on disk at most removes the temporary parameter file |
| VocBase.TmpFileOps | arangod/VocBase/vocbase.c:1624-1632 | the temporary parameter file is removed exactly when an unloaded collection's parameters were read and the file exists |
| VocBase.MarkOps | arangod/VocBase/vocbase.c:1634-1643 | the parameter file is rewritten with the deleted flag set exactly when it did not say deleted already |
| VocBase.UnloadedDropped | arangod/VocBase/vocbase.c:1613-1658 | dropping an unloaded collection removes a dangling temporary parameter file, rewrites its parameters (unless already deleted), unbinds it, moves it to the dead list and renames its directory |
| VocBase.RenameOps | arangod/VocBase/vocbase.c:1768-1805 | at most one parameter file is rewritten; an open collection's is written from memory with the new name and its in-memory deleted mark |
| VocBase.FailedDropMarksLaterRename | arangod/VocBase/vocbase.c:1660-1667 | after a drop whose parameter update fails, the collection is still open under its name, a later rename writes the deleted mark to its parameter file, and a scan at startup then does not register it |
| VocBase.Database.constructor | arangod/VocBase/vocbase.c:1150-1203 | a new database has an empty registry, removes dropped collections and is still opening |
| VocBase.Database.AddCollection | arangod/VocBase/vocbase.c:480-547 | a taken name or identifier changes nothing and gives its error; otherwise a corrupted proxy is appended, listed and indexed |
| VocBase.Database.UnregisterCollection | arangod/VocBase/vocbase.c:202-211 | both index entries of the proxy are removed when they still hold it (the corrected removal) |
| VocBase.Database.MarkDeleted | arangod/VocBase/vocbase.c:1645-1651 | the proxy becomes deleted and leaves both indexes; the invariant holds |
| VocBase.Database.BearCollection | arangod/VocBase/vocbase.c:684-729 | an invalid name is refused and a registered one returned, with nothing changed; a free one is registered new born under a fresh tick |
| VocBase.Database.BearNew | arangod/VocBase/vocbase.c:700-727 | a fresh tick becomes the identifier of a new born proxy without a directory |
| VocBase.Database.AddNewBorn | arangod/VocBase/vocbase.c:713-727 | AddCollection followed by the new born status |
| VocBase.Database.FindCollectionByName | arangod/VocBase/vocbase.c:818-838 | a registered name returns its proxy and changes nothing; a missing one is not found unless asked to bear; bearing refuses an invalid name unchanged and otherwise registers a new born proxy under a fresh tick as BearCollection does |
| VocBase.Database.LookupCollectionByName | arangod/VocBase/vocbase.c:1365-1373 | found exactly when the name is indexed |
| VocBase.Database.LookupCollectionById | arangod/VocBase/vocbase.c:1379-1387 | found exactly when the identifier is indexed |
| VocBase.Database.LookupsFindLiveCollections | arangod/VocBase/vocbase.c:1365-1387 | lookups find a proxy under its name and identifier exactly when it is listed and not deleted |
| VocBase.Database.CollectionsVocBase | arangod/VocBase/vocbase.c:1339-1359 | every listed live collection once, and nothing else |
| VocBase.Database.CreateCollection | arangod/VocBase/vocbase.c:1422-1510 | invalid names, unknown types, taken names and failed creates change nothing and give their errors; a successful create registers a loaded collection |
| VocBase.Database.ManifestCollection | arangod/VocBase/vocbase.c:735-812 | the error and the new proxy state are those of ManifestSpec |
| VocBase.Database.UseCollection | arangod/VocBase/vocbase.c:848-973 | the loop ends with the outcome of UseSpec, and a successful use adds a reader |
| VocBase.Database.LoadPass | arangod/VocBase/vocbase.c:857-971 | one pass of the loop does what UseStep says |
| VocBase.Database.LoadReadLocked | arangod/VocBase/vocbase.c:857-876 | a loaded collection gains a reader; a deleted or corrupted one is refused |
| VocBase.Database.LoadLocked | arangod/VocBase/vocbase.c:882-971 | the write-locked part of a pass does what UseStep says |
| VocBase.Database.UseCollectionByName | arangod/VocBase/vocbase.c:1845-1873 | an unknown name is not found; a known one is used with the outcome of UseSpec |
| VocBase.Database.ReleaseCollection | arangod/VocBase/vocbase.c:1879-1881 | the read lock a use took is given back |
| VocBase.Database.UnloadCollection | arangod/VocBase/vocbase.c:1516-1573 | the error and the new state are those of UnloadSpec |
| VocBase.Database.UnloadCollectionCallback | arangod/VocBase/vocbase.c:217-271 | the result and the new state are those of UnloadCallbackSpec |
| VocBase.Database.DropCollectionCallback | arangod/VocBase/vocbase.c:277-434 | the state changes as DropCallbackSpec says; when it proceeds, the proxy moves to the dead list and the directory operations are recorded; otherwise nothing else changes |
| VocBase.Database.CloseDropped | arangod/VocBase/vocbase.c:292-332 | the status-locked part of the callback, and whether it proceeds |
| VocBase.Database.MoveToDead | arangod/VocBase/vocbase.c:340-352 | the first occurrence leaves the list and the proxy joins the dead list |
| VocBase.Database.RenameDroppedDirectory | arangod/VocBase/vocbase.c:358-428 | the directory changes recorded are those of DropDirectoryOps |
| VocBase.Database.DropCollection | arangod/VocBase/vocbase.c:1579-1699 | the registry and disk change as DropOutcome says, for every status, failures included |
| VocBase.Database.DropRetired | arangod/VocBase/vocbase.c:1589-1611 | deleted and new born collections are marked deleted and unbound, with nothing written |
| VocBase.Database.DropUnloaded | arangod/VocBase/vocbase.c:1613-1658 | the unloaded case of DropOutcome: an unreadable parameter file changes nothing |
| VocBase.Database.DropReadUnloaded | arangod/VocBase/vocbase.c:1624-1654 | once the parameters are read: the temporary file removal is recorded, a failed rewrite changes nothing else, otherwise the collection is dropped at once |
| VocBase.Database.DropMarked | arangod/VocBase/vocbase.c:1634-1651 | the deleted mark is recorded, then the proxy is deleted, unbound, moved to the dead list and its directory renamed |
| VocBase.Database.DropNow | arangod/VocBase/vocbase.c:1645-1656 | the proxy is marked deleted, unbound and moved to the dead list, and its directory is renamed |
| VocBase.Database.DropOpen | arangod/VocBase/vocbase.c:1660-1697 | the open case of DropOutcome: parameters marked deleted and a drop barrier attached, or the collection left marked deleted when the update fails |
| VocBase.Database.KeepDeletedMark | arangod/VocBase/vocbase.c:1661-1667 | a failed parameter update returns its error and leaves only the in-memory deleted mark behind |
| VocBase.Database.RenameCollection | arangod/VocBase/vocbase.c:1705-1831 | the error is RenameSpec's; a real rename refiles the proxy under the new name and rewrites its parameter file as RenameOps says; anything else changes nothing |
| VocBase.Database.Rebind | arangod/VocBase/vocbase.c:1817-1823 | the proxy takes the new name and is filed under it instead of the old one |
| VocBase.Database.ScanEntry | arangod/VocBase/vocbase.c:570-675 | the tick counter observes the entry; a success records the entry's disk change and registration; a failure is a taken name or identifier and changes nothing |
| VocBase.Database.RegisterScanned | arangod/VocBase/vocbase.c:645-660 | succeeds exactly when name and identifier are free, then appends an unloaded proxy; otherwise reports a corrupted collection |
| VocBase.Database.ScanPath | arangod/VocBase/vocbase.c:553-678 | a successful scan reaches the registrations, disk changes and counter of all entries; a failure names the entry whose name or identifier was taken, keeps the registrations and disk changes of the entries before it, and leaves the counter raised by every entry up to and including it |
| VocBase.Database.ScanNext | arangod/VocBase/vocbase.c:565-675 | one turn of the loop extends the scanned prefix by one entry; a taken name or identifier fails with the prefix's registrations and disk changes kept and the entry's identifier already observed |
| VocBase.Database.OpenVocBase | arangod/VocBase/vocbase.c:1112-1259 | a non-directory, a locked database and a failed lock file give their errors with the counter unchanged; a failed scan returns no database, with the counter raised up to the failing entry and the disk changes of the entries before it reported; otherwise the scanned database is returned open |
| VocBase.Database.ScanNewVocBase | arangod/VocBase/vocbase.c:1196-1232 | a new database scans its directory and is activated; a failed scan discards it, leaving the raised counter and the disk changes already made |
| VocBase.Database.Activate | arangod/VocBase/vocbase.c:1232 | the database is marked open |
| VocBase.Database.DestroyVocBase | arangod/VocBase/vocbase.c:1265-1284 | every listed collection is unloaded as UnloadSpec says, the rest is unchanged, and the database ends in state 3 |
| HttpCodes.ReasonPhrase | lib/Rest/HttpResponse.cpp:54-90 | a phrase exists exactly for the 23 known codes, and fits on one line |
| HttpCodes.ResponseString | lib/Rest/HttpResponse.cpp:54-90 | the text starts with the decimal code and a blank and has no newline |
| HttpCodes.ResponseCode | lib/Rest/HttpResponse.cpp:96-129 | the result is a known code: the `atoi` value when known, `NOT_IMPLEMENTED` otherwise |
| HttpCodes.AtoiOfResponseString | lib/Rest/HttpResponse.cpp:54-97 | `atoi` of a status text is its code |
| HttpCodes.ResponseCodeOfResponseString | lib/Rest/HttpResponse.cpp:54-129 | the status text reads back as its code for known codes, `NOT_IMPLEMENTED` for the rest |
| HttpCodes.NonNumericIsNotImplemented | lib/Rest/HttpResponse.cpp:96-129 | text without a leading number reads as `NOT_IMPLEMENTED` |
| HttpHeaders.LineEnd | lib/Rest/HttpResponse.cpp:368-369 | the end of the first line: no newline before it, a newline or the end at it |
| HttpHeaders.LineEndAt | lib/Rest/HttpResponse.cpp:443-445 | any offset with no newline before and a newline or the end at it is the line end |
| HttpHeaders.DropCR | lib/Rest/HttpResponse.cpp:374-376 | at most one trailing carriage return is dropped |
| HttpHeaders.ColonAt | lib/Rest/HttpResponse.cpp:413-415 | the first colon, or the end |
| HttpHeaders.TokenEnd | lib/Rest/HttpResponse.cpp:384-386 | the first blank or colon, with none before it |
| HttpHeaders.StatusLineCode | lib/Rest/HttpResponse.cpp:391-408 | a first line not starting with `http/1.1` (any case) gives `NOT_IMPLEMENTED` |
| HttpHeaders.StatusLineOf | lib/Rest/HttpResponse.cpp:389-410 | a first line of `HTTP/1.1` in any letter case and blanks or colons reads the rest with `atoi`, or `NOT_IMPLEMENTED` when nothing follows |
| HttpHeaders.StatusLineCodeOfNumber | lib/Rest/HttpResponse.cpp:389-410 | such a line followed by a decimal code reads back as that code, whatever non-digit text follows |
| HttpHeaders.HeaderKey | lib/Rest/HttpResponse.cpp:413-418 | the key is lower case |
| HttpHeaders.HeaderValue | lib/Rest/HttpResponse.cpp:420-438 | the value has no blank at either end |
| HttpHeaders.ApplyText | lib/Rest/HttpResponse.cpp:353-449 | `setHeaders` only adds or replaces headers: every key stored before is still stored after |
| HttpHeaders.LineEffect | lib/Rest/HttpResponse.cpp:379-439 | a header line never changes the code; line 0 never changes the headers |
| HttpHeaders.HeaderLinesKeepCode | lib/Rest/HttpResponse.cpp:363 | without line 0 the code is never changed |
| HttpHeaders.FirstLineSetsCode | lib/Rest/HttpResponse.cpp:391-408 | with line 0 the code is decided by the first line alone |
| HttpHeaders.ReadHeadersWellFormed | lib/Rest/HttpResponse.cpp:353-449 | every header `setHeaders` stores has a lower-case key without colon or newline and a trimmed value without newline |
| HttpHeaders.StatusLineReadsBack | lib/Rest/HttpResponse.cpp:478-480 | the Status-Line `writeHeader` writes reads back as its code |
| HttpHeaders.FieldLineReadsBack | lib/Rest/HttpResponse.cpp:506-509 | a written `key: value` line reads back as that header |
| HttpHeaders.FieldLinesReadBack | lib/Rest/HttpResponse.cpp:488-510 | the field lines read back as the stored headers other than the two length headers |
| HttpHeaders.LengthLinesReadBack | lib/Rest/HttpResponse.cpp:512-533 | the length lines read back as the transfer encoding and the real content length |
| HttpHeaders.Transmitted | lib/Rest/HttpResponse.cpp:512-533 | the reader sees the transfer encoding as stored, a content-length exactly when not chunked, and every other key as stored |
| HttpHeaders.HeaderBlock | lib/Rest/HttpResponse.cpp:477-537 | the block `writeHeader` appends starts with the Status-Line and its line end and finishes with the blank line |
| HttpHeaders.HeaderBlockRoundTrip | lib/Rest/HttpResponse.cpp:477-537 | reading the written header block gives the code and the stored headers, with content-length replaced by the real length or dropped for a chunked body |
| HttpHeaders.FieldsCoverAll | lib/Rest/HttpResponse.cpp:488-510 | walking the whole dictionary writes every stored header except the length headers |
| HttpHeaders.Trim | lib/Rest/HttpResponse.cpp:337 | the trimmed key has no blank at either end |
| HttpHeaders.TrimIsSlice | lib/Rest/HttpResponse.cpp:337 | trimming keeps a middle slice of the key |
| HttpHeaders.TrimOfTrimmed | lib/Rest/HttpResponse.cpp:337 | a key without surrounding blanks is left as it is |
| HttpHeaders.Lookup | lib/Rest/HttpResponse.cpp:273-301 | found exactly when the lower-cased key is stored; then its value, else the empty string |
| HttpHeaders.Assign | lib/Rest/HttpResponse.cpp:330-347 | `setHeader` with an empty value removes the lower-cased key and adds none; otherwise the trimmed lower-cased key holds the value and no key is lost |
| HttpHeaders.AssignThenLookup | lib/Rest/HttpResponse.cpp:273-347 | after `setHeader`, `header` returns the value set, or nothing after an empty value |
| HttpHeaders.AssignLeavesOthers | lib/Rest/HttpResponse.cpp:330-347 | `setHeader` leaves every other key alone |
| HttpHeaders.EraseUsesUntrimmedKey | lib/Rest/HttpResponse.cpp:330-347 | erasing with a key that has surrounding blanks misses the trimmed entry stored earlier |
| HttpHeaders.AssignKeepsWellFormed | lib/Rest/HttpResponse.cpp:330-347 | `setHeader` keeps the headers well formed |
| HttpHeaders.PairedLinesOfTerminated | lib/Rest/HttpResponse.cpp:187-207 | cutting a newline-terminated text pairs its pieces alternately as key and value |
| HttpHeaders.DefaultHeaderPairs | lib/Rest/HttpResponse.cpp:182-207 | the constructor's text yields exactly the three default headers |
| HttpHeaders.ApplyCrlf | lib/Rest/HttpResponse.cpp:353-449 | reading text written with `\r\n` applies exactly the lines written |
| HttpHeaders.ReadingStep | lib/Rest/HttpResponse.cpp:368-447 | one pass of the `setHeaders` loop applies the current line and moves past its newline |
| HttpResponses.FindLineEnd | lib/Rest/HttpResponse.cpp:368-369 | the scan stops at the first newline at or after the start, or the end |
| HttpResponses.HttpResponse.constructor | lib/Rest/HttpResponse.cpp:148-155 | `NOT_IMPLEMENTED`, no headers, an empty body, not a head response |
| HttpResponses.HttpResponse.FromHeader | lib/Rest/HttpResponse.cpp:161-169 | the response read from the header text, line 0 included |
| HttpResponses.HttpResponse.WithCode | lib/Rest/HttpResponse.cpp:175-209 | the given code and exactly the three default headers |
| HttpResponses.HttpResponse.Header | lib/Rest/HttpResponse.cpp:273-301 | found exactly when the lower-cased key is stored; then its value, else the empty string |
| HttpResponses.HttpResponse.SetHeader | lib/Rest/HttpResponse.cpp:330-347 | the headers become `Assign` of the old ones; nothing else changes |
| HttpResponses.HttpResponse.SetContentType | lib/Rest/HttpResponse.cpp:265-267 | `setHeader` on content-type |
| HttpResponses.HttpResponse.SetHeaders | lib/Rest/HttpResponse.cpp:353-449 | code and headers become what `ApplyText` reads from the text; nothing else changes |
| HttpResponses.HttpResponse.BodySize | lib/Rest/HttpResponse.cpp:620-627 | the announced size of a head response, the body length otherwise |
| HttpResponses.HttpResponse.ContentLength | lib/Rest/HttpResponse.cpp:246-259 | the announced size of a head response; otherwise the stored content-length read as a number, or 0 |
| HttpResponses.HttpResponse.HeadResponse | lib/Rest/HttpResponse.cpp:641-645 | the body is emptied and the size announced, and both size queries report it |
| HttpResponses.HttpResponse.Swap | lib/Rest/HttpResponse.cpp:455-471 | a fresh response takes over headers, body and head state; this one keeps its code and gets the defaults |
| HttpResponses.HttpResponse.WriteHeader | lib/Rest/HttpResponse.cpp:477-537 | the output gains exactly the header block of the code, headers and body size |
| HttpResponses.InsertPairs | lib/Rest/HttpResponse.cpp:187-207 | the loop stores the pairs `PairedLines` describes |
| HttpResponses.WriteFields | lib/Rest/HttpResponse.cpp:488-510 | the field lines in dictionary order, and the transfer encoding set aside exactly when stored |
| HttpResponses.WriteLengths | lib/Rest/HttpResponse.cpp:512-533 | the length lines of the stored transfer encoding and the body size |

## Left out

- Locks and threads are not modelled: the registry lock, the status read and write locks, the tick spin lock, and the synchroniser, compactor and cleanup threads. Each locked operation is one atomic method. A proxy's `readers` count stands for the status read locks its users hold, and operations that take the status write lock require it to be zero.
- In `LoadCollectionVocBase`, the re-checks after the write lock is taken (the status became loaded, deleted or corrupted in between) cannot happen in an atomic model. They are merged into the first checks.
- `UnloadCollectionCallback`'s branch for an unloading proxy without a collection cannot happen under the registry invariant. `Lifecycle.UnloadCallbackSpec` still states it.
- Proxies are entries of a table owned by the database, referred to by index. They are not separate heap objects, so aliasing between proxies is not captured.
- Freeing memory is not modelled: `FreeCollection`, the dead list being freed in `TRI_DestroyVocBase`, and `_freeables`.
- The lock file, the `lock` file check and the auth information loaded at open are not modelled. Their outcomes are parameters of `VocBase.Database.OpenVocBase`.
- Calls into code outside the model are parameters: reading and writing the parameter file, creating, opening, closing and renaming collections, renaming and removing directories, and the directory listing.
- The disk changes recorded as `FsOp` values are the parameter file writes, the removal of the temporary parameter file, and the directory renames and removals. The directories and files that `TRI_CreateDocumentCollection`, `TRI_OpenDocumentCollection` and `TRI_CloseDocumentCollection` create or change are not recorded.
- `TRI_RenameCollection` is not part of this model. It is taken to rewrite the open collection's parameter file from memory, with the new name and the `_deleted` flag.
- collection.h is not part of this model. `TRI_COL_PARAMETER_FILE` is taken to be `parameter.json`.
- The random server identifier is a constructor argument of `Ticks.TickGenerator`.
- `TRI_IS_DOCUMENT_COLLECTION` is not part of this model. It is taken to accept document and edge collections.
- `TRI_InitialiseVocBase` and `TRI_ShutdownVocBase` (global setup) are not modelled.
- `TRI_FindDocumentCollectionByNameVocBase` and `TRI_FindEdgeCollectionByNameVocBase` are not modelled. They are one-line wrappers of `FindCollectionByName`.
- The Windows path expression is not modelled.
- Names and paths are strings without a NUL character. Truncation to `TRI_COL_PATH_LENGTH` is not modelled.
- Lifecycle.LoadedIn: the deleted flag that opening a collection reads from its parameter file is taken to be false. It can be true for a collection that is still registered, as after VocBase.FailedDropMarksLaterRename; reopening such a collection, with the mark read back, is not captured.
- PageAlign.MsyncRegion: `TRI_FlushMMFile` itself is not modelled, and the end is only proved exact when `end + pageSize - 1` does not wrap.
- Allocation failure is not modelled: allocation always succeeds. `AddCollection` (vocbase.c:489-493, 504-509) and `ScanPath` (vocbase.c:583-587) can fail with `TRI_ERROR_OUT_OF_MEMORY`, which makes `BearCollectionVocBase`, `TRI_CreateCollectionVocBase` and the scan fail too; `VocBase.Database.AddCollection` and `VocBase.Database.RegisterScanned` fail only on a taken name or identifier.
- Chars.Atoi: overflow is not modelled (it is undefined in C); the value is the mathematical one.
- `Dictionary<char const*>` is a map, where a later insert replaces an earlier one. Its iteration order is the `order` parameter of `WriteHeader`.
- `StringBuffer` appends are string concatenation.
- `HttpResponses.HttpResponse.ContentLength`: `StringUtils::uint32` is not part of this model. It is the `toNumber` parameter.
- `StringUtils::trimInPlace` is not part of this model. `HttpHeaders.Trim` strips blanks, tabs, carriage returns and newlines at both ends.
- `body()`, `headers()`, `responseCode()` and the protobuf `write` are left out: the first three are plain accessors, and `write` is a foreign message format.
- The per-character loops that lower-case, skip blanks and find colons in `setHeaders` are functions.
- The loops of `setHeaders` and the `HttpResponse(code)` constructor work on a copy of the headers, which is stored when the loop ends.

## Findings

| source | as written | input that shows it | evidently intended | confidence | as-written member | corrected member |
|---|---|---|---|---|---|---|
| arangod/VocBase/vocbase.c:202-211 | `UnregisterCollection` removes the name and identifier entries by key, whatever proxy they hold | drop collection "a" (id 10); create a new "a" (id 20); drop the stale handle to the first one again. The new "a" leaves the name index but stays in the identifier index | remove an entry only while it still holds the proxy being dropped | medium, not executed | Unregistration.RepeatedDropUnregistersSuccessor | Unregistration.UnbindKeepsIndexesAgreeing |
