/** The collection registry of a database (`TRI_vocbase_t`) and its
    collection proxies (`TRI_vocbase_col_t`), arangod/VocBase/vocbase.c.
    The proxies live in a table owned by the database and are referred to
    by their index in it, so the list of collections and the two hash
    indexes share a proxy exactly as they share the C pointer. Each
    operation that runs under the registry lock or a proxy's status lock is
    one method; a proxy's `readers` count stands for the status read locks
    its users hold, and operations that take the status write lock require
    it to be zero. */
module VocBase {
  import opened Chars
  import opened VocBaseTypes
  import opened CollectionNames
  import opened Lifecycle
  import opened Ticks
  import opened DirectoryScan
  import opened Vectors
  import opened Unregistration
  import opened ProxyTable

  /** The proxy ScanPath registers for a live document collection found on
      disk: unloaded, with the name, identifier and type of its parameter
      file and its directory as path. */
  function ScannedProxy(a: ScanAction): (p: Proxy)
    requires a.Register?
    ensures ProxyInvariant(p.State()) && p.status == Unloaded && p.live.None?
    ensures p.name == a.info.name && p.cid == a.info.cid && p.ctype == a.info.ctype && p.path == Some(a.directory)
  {
    Proxy(a.info.cid, a.info.ctype, a.info.name, Some(a.directory), Unloaded, None, 0)
  }

  /** The proxies a scan appends, one per registration, in order. */
  function ScannedProxies(regs: seq<ScanAction>): (ps: seq<Proxy>)
    requires forall k :: 0 <= k < |regs| ==> regs[k].Register?
    ensures |ps| == |regs|
    decreases |regs|
  {
    if regs == [] then [] else ScannedProxies(regs[..|regs| - 1]) + [ScannedProxy(regs[|regs| - 1])]
  }

  /** Registering one more scanned collection extends the table by its proxy. */
  lemma ScannedProxiesGrow(before: seq<Proxy>, ps: seq<Proxy>, regs: seq<ScanAction>, a: ScanAction)
    requires forall k :: 0 <= k < |regs| ==> regs[k].Register?
    requires a.Register? && ps == before + ScannedProxies(regs)
    ensures forall k :: 0 <= k < |regs + [a]| ==> (regs + [a])[k].Register?
    ensures ps + [ScannedProxy(a)] == before + ScannedProxies(regs + [a])
  {
    ScannedProxiesSnoc(regs, a);
    AppendAssoc(before, ScannedProxies(regs), [ScannedProxy(a)]);
  }

  lemma ScannedProxiesSnoc(regs: seq<ScanAction>, a: ScanAction)
    requires forall k :: 0 <= k < |regs| ==> regs[k].Register?
    requires a.Register?
    ensures forall k :: 0 <= k < |regs + [a]| ==> (regs + [a])[k].Register?
    ensures ScannedProxies(regs + [a]) == ScannedProxies(regs) + [ScannedProxy(a)]
  {
    var longer := regs + [a];
    forall k | 0 <= k < |longer| ensures longer[k].Register? {
      if k < |regs| { assert longer[k] == regs[k]; }
    }
    assert longer[..|regs|] == regs;
  }

  /** The handles `start`, `start + 1`, ..., of `n` newly appended proxies. */
  function HandlesFrom(start: nat, n: nat): (hs: seq<Handle>)
    ensures |hs| == n
  {
    if n == 0 then [] else HandlesFrom(start, n - 1) + [start + n - 1]
  }

  /** Listing one more scanned collection extends the list by its handle. */
  lemma HandlesFromGrow(before: seq<Handle>, cs: seq<Handle>, start: nat, n: nat, h: Handle)
    requires cs == before + HandlesFrom(start, n) && h == start + n
    ensures cs + [h] == before + HandlesFrom(start, n + 1)
  {
  }

  /** The values a scan has reached after the entries `done`, starting from
      tick counter `c`, disk changes `ops`, table `ps` and list `cs`: the
      counter has observed every entry, the disk changes of every entry
      follow `ops`, and the registered collections follow `ps` and `cs`. */
  ghost predicate ScanReached(dbPath: string, removeOnDrop: bool, done: seq<DirEntry>,
                              c: nat, ops: seq<FsOp>, ps: seq<Proxy>, cs: seq<Handle>,
                              tick: nat, fs: seq<FsOp>, proxies: seq<Proxy>, collections: seq<Handle>)
  {
    tick == ScanCounter(c, done)
    && fs == ops + ScanOps(dbPath, removeOnDrop, done)
    && var regs := Registrations(dbPath, removeOnDrop, done);
       proxies == ps + ScannedProxies(regs) && collections == cs + HandlesFrom(|ps|, |regs|)
  }

  /** Where a scan that failed on entry `failed` stops: the disk changes,
      the table and the list are those of the entries before it, while the
      tick counter has also observed the failing entry. */
  ghost predicate ScanStopped(dbPath: string, removeOnDrop: bool, entries: seq<DirEntry>, failed: nat,
                              c: nat, ops: seq<FsOp>, ps: seq<Proxy>, cs: seq<Handle>,
                              tick: nat, fs: seq<FsOp>, proxies: seq<Proxy>, collections: seq<Handle>)
  {
    failed < |entries|
    && ScanReached(dbPath, removeOnDrop, entries[..failed], c, ops, ps, cs, ScanCounter(c, entries[..failed]), fs, proxies, collections)
    && tick == ScanCounter(c, entries[..failed + 1])
  }

  /** A failed open of the database at `dbPath`: the scan stopped at entry
      `failed`, a collection whose name or identifier was taken; the tick
      counter has observed every entry up to and including it, and `ops`
      are the disk changes already made for the entries before it, which
      stay on disk although the database is discarded. */
  ghost predicate ScanFailed(dbPath: string, entries: seq<DirEntry>, failed: nat, c: nat, tick: nat, ops: seq<FsOp>)
  {
    failed < |entries| && Action(dbPath, true, entries[failed]).Register?
    && tick == ScanCounter(c, entries[..failed + 1])
    && ops == ScanOps(dbPath, true, entries[..failed])
  }

  /** Scanning entry `i` as ScanPath does (raising the counter, recording
      the disk change, appending the proxy of a registration) extends what
      the scan has reached by that entry. */
  lemma ScanReachedOneMore(dbPath: string, removeOnDrop: bool, entries: seq<DirEntry>, i: nat,
                           c: nat, ops: seq<FsOp>, ps: seq<Proxy>, cs: seq<Handle>,
                           tick0: nat, fs0: seq<FsOp>, ps0: seq<Proxy>, cs0: seq<Handle>,
                           tick1: nat, fs1: seq<FsOp>, ps1: seq<Proxy>, cs1: seq<Handle>)
    requires i < |entries|
    requires ScanReached(dbPath, removeOnDrop, entries[..i], c, ops, ps, cs, tick0, fs0, ps0, cs0)
    requires tick1 == ObserveEntry(tick0, entries[i])
    requires var a := Action(dbPath, removeOnDrop, entries[i]);
             fs1 == fs0 + ActionOps(a, entries[i].fsOk)
             && (a.Register? ==> ps1 == ps0 + [ScannedProxy(a)] && cs1 == cs0 + [|ps0|])
             && (!a.Register? ==> ps1 == ps0 && cs1 == cs0)
    ensures ScanReached(dbPath, removeOnDrop, entries[..i + 1], c, ops, ps, cs, tick1, fs1, ps1, cs1)
  {
    var a := Action(dbPath, removeOnDrop, entries[i]);
    ScanOneMore(dbPath, removeOnDrop, c, entries, i);
    AppendAssoc(ops, ScanOps(dbPath, removeOnDrop, entries[..i]), ActionOps(a, entries[i].fsOk));
    var regs := Registrations(dbPath, removeOnDrop, entries[..i]);
    if a.Register? {
      TableGrows(ps, cs, regs, a, ps0, cs0);
    } else {
      assert regs + [] == regs;
    }
  }

  /** The table and the list after one more entry that is a registration:
      its proxy and its handle are appended. */
  lemma TableGrows(ps: seq<Proxy>, cs: seq<Handle>, regs: seq<ScanAction>, a: ScanAction, ps0: seq<Proxy>, cs0: seq<Handle>)
    requires forall k :: 0 <= k < |regs| ==> regs[k].Register?
    requires a.Register? && ps0 == ps + ScannedProxies(regs) && cs0 == cs + HandlesFrom(|ps|, |regs|)
    ensures forall k :: 0 <= k < |regs + [a]| ==> (regs + [a])[k].Register?
    ensures ps0 + [ScannedProxy(a)] == ps + ScannedProxies(regs + [a])
    ensures cs0 + [|ps0|] == cs + HandlesFrom(|ps|, |regs + [a]|)
  {
    ScannedProxiesGrow(ps, ps0, regs, a);
    HandlesFromGrow(cs, cs0, |ps|, |regs|, |ps0|);
  }

  /** A deleted proxy with nothing open goes through the drop callback
      unchanged. */
  lemma DeletedPassesCallback(p: Proxy, closeOk: bool)
    requires p.status == Deleted && p.live.None?
    ensures DropCallbackProceeds(p.State(), closeOk) && p.WithState(DropCallbackSpec(p.State(), closeOk).1) == p
  {
  }

  /** One pass of the use loop (UseStep) on proxy `h` takes table `prev` to
      table `next`: the proxy's state becomes the step's, and a pass that
      ends the use successfully adds a reader. */
  ghost predicate UsePassed(prev: seq<Proxy>, next: seq<Proxy>, h: Handle, create: CreateOutcome, open: OpenOutcome,
                            done: bool, err: ErrorCode)
  {
    h < |prev| && ProxyInvariant(prev[h].State())
    && var p := prev[h];
       var step := UseStep(p.State(), p.ctype, create, open);
       (if done then step.Done? && step.error == err else step.Again?)
       && next == prev[h := p.WithState(step.state).(readers := if done && err == NoError then p.readers + 1 else p.readers)]
  }

  /** A pass on a loaded collection ends under the read lock, which the
      caller keeps: the proxy gains a reader. */
  lemma PassOnLoaded(prev: seq<Proxy>, h: Handle, create: CreateOutcome, open: OpenOutcome)
    requires h < |prev| && ProxyOk(prev[h]) && prev[h].status == Loaded
    ensures UsePassed(prev, prev[h := prev[h].(readers := prev[h].readers + 1)], h, create, open, true, NoError)
  {
    var p := prev[h];
    assert p.WithState(p.State()) == p;
  }

  /** A pass on a deleted or corrupted collection is refused under the read
      lock and changes nothing. */
  lemma PassRefused(prev: seq<Proxy>, h: Handle, create: CreateOutcome, open: OpenOutcome)
    requires h < |prev| && ProxyOk(prev[h]) && (prev[h].status == Deleted || prev[h].status == Corrupted)
    ensures UsePassed(prev, prev, h, create, open, true,
                      if prev[h].status == Deleted then CollectionNotFound else CorruptedCollection)
  {
    var p := prev[h];
    assert p.WithState(p.State()) == p;
    assert prev[h := p] == prev;
  }

  /** A whole use of proxy `h` (UseSpec) takes table `ps0` to table `ps`
      with outcome `err`: the proxy's state is the outcome's, and a
      successful use adds a reader. */
  ghost predicate Used(ps0: seq<Proxy>, ps: seq<Proxy>, h: Handle, create: CreateOutcome, open: OpenOutcome, err: ErrorCode)
    requires h < |ps0| && ProxyInvariant(ps0[h].State())
  {
    var p := ps0[h];
    var r := UseSpec(p.State(), p.ctype, create, open);
    err == r.0 && ps == ps0[h := p.WithState(r.1).(readers := if err == NoError then p.readers + 1 else p.readers)]
  }

  /** Table `ps` is reached from table `ps0` by a use of proxy `h` that is
      still under way: only that proxy's state has changed, and the use has
      the same outcome ahead. */
  ghost predicate UseUnderway(ps0: seq<Proxy>, ps: seq<Proxy>, h: Handle, create: CreateOutcome, open: OpenOutcome)
    requires h < |ps0| && ProxyInvariant(ps0[h].State())
  {
    h < |ps| == |ps0| && ProxyInvariant(ps[h].State())
    && ps == ps0[h := ps0[h].WithState(ps[h].State())]
    && UseSpec(ps[h].State(), ps0[h].ctype, create, open) == UseSpec(ps0[h].State(), ps0[h].ctype, create, open)
  }

  /** One pass of the use loop on table `prev`, which differs from the table
      `ps0` the use started from only in the state of proxy `h` and has the
      same outcome ahead: a final pass leaves the table the whole use
      produces, another pass keeps the table in that form with a smaller
      rank. */
  lemma UsePass(ps0: seq<Proxy>, h: Handle, prev: seq<Proxy>, next: seq<Proxy>,
                create: CreateOutcome, open: OpenOutcome, done: bool, err: ErrorCode)
    requires h < |ps0| && ProxyInvariant(ps0[h].State()) && UseUnderway(ps0, prev, h, create, open)
    requires UsePassed(prev, next, h, create, open, done, err)
    ensures done ==> Used(ps0, next, h, create, open, err)
    ensures !done ==> UseUnderway(ps0, next, h, create, open) && Rank(next[h].status) < Rank(prev[h].status)
  {
    var step := UseStep(prev[h].State(), ps0[h].ctype, create, open);
    var q := ps0[h].WithState(step.state);
    assert prev[h].WithState(step.state) == q;
    UpdateTwice(ps0, h, ps0[h].WithState(prev[h].State()), if done then q.(readers := if err == NoError then q.readers + 1 else q.readers) else q);
  }

  /** `TRI_COL_PARAMETER_FILE`, the name of a collection's parameter file
      inside its directory. */
  const ParameterFile := "parameter.json"

  /** The dangling temporary parameter file TRI_DropCollectionVocBase
      removes once it has read an unloaded collection's parameters, whether
      the drop then succeeds or not; `tmpExists` says whether it is there. */
  function TmpFileOps(p: Proxy, read: ReadParameters, tmpExists: bool): (ops: seq<FsOp>)
    requires ProxyInvariant(p.State())
    ensures ops != [] <==> p.status == Unloaded && read.Ok() && tmpExists
    ensures ops != [] ==> ops == [RemoveFile(JoinPath(p.path.value, ParameterFile + ".tmp"))]
  {
    if p.status == Unloaded && read.Ok() && tmpExists then [RemoveFile(JoinPath(p.path.value, ParameterFile + ".tmp"))] else []
  }

  /** The rewrite of an unloaded collection's parameter file (`read`) as
      deleted, unless it already says so. */
  function MarkOps(path: string, read: ReadParameters): (ops: seq<FsOp>)
    ensures ops == [] <==> read.info.deleted
    ensures ops != [] ==> ops == [SaveParameters(path, read.info.(deleted := true))]
  {
    if read.info.deleted then [] else [SaveParameters(path, read.info.(deleted := true))]
  }

  /** The disk changes of a successful TRI_DropCollectionVocBase on proxy
      `p`: an unloaded collection loses its temporary parameter file, its
      parameter file is rewritten as deleted (unless it already was) and its
      directory renamed and possibly removed by the drop callback; an open
      collection's parameter file is rewritten as deleted and the rest waits
      for the callback; nothing is on disk for a new born or deleted one. */
  function DropOps(p: Proxy, read: ReadParameters, tmpExists: bool, removeOnDrop: bool, renameOk: bool, removeOk: bool): seq<FsOp>
    requires ProxyInvariant(p.State())
  {
    match p.status
    case Unloaded =>
      TmpFileOps(p, read, tmpExists) + MarkOps(p.path.value, read)
      + DropDirectoryOps(p.path, removeOnDrop, renameOk, removeOk)
    case Loaded => [SaveParameters(p.live.value.directory, ParameterInfo(p.cid, p.name, p.ctype, true))]
    case Unloading => [SaveParameters(p.live.value.directory, ParameterInfo(p.cid, p.name, p.ctype, true))]
    case _ => []
  }

  /** What TRI_DropCollectionVocBase on proxy `h` does to registry `r0` and
      disk changes `fs0`, with outcome `err`: the proxy's state changes as
      DropSpec says; a failed drop changes nothing else but for the removal
      of a temporary parameter file; a successful one takes the proxy out of
      both indexes and records the disk changes of DropOps, and the callback
      an unloaded collection runs at once moves its proxy from the list to
      the dead list. */
  ghost predicate DropOutcome(r0: Registry, fs0: seq<FsOp>, r: Registry, fs: seq<FsOp>, h: Handle,
                              read: ReadParameters, tmpExists: bool, saveError: ErrorCode, updateError: ErrorCode,
                              removeOnDrop: bool, renameOk: bool, removeOk: bool, err: ErrorCode)
    requires h < |r0.proxies| && ProxyInvariant(r0.proxies[h].State())
  {
    var p := r0.proxies[h];
    var res := DropSpec(p.State(), read, saveError, updateError);
    err == res.0 && r.proxies == r0.proxies[h := p.WithState(res.1)]
    && (err != NoError ==>
          r.byName == r0.byName && r.byId == r0.byId && fs == fs0 + TmpFileOps(p, read, tmpExists)
          && r.collections == r0.collections && r.dead == r0.dead)
    && (err == NoError ==>
          r.byName == Unbind(r0.byName, p.name, h) && r.byId == Unbind(r0.byId, p.cid, h)
          && fs == fs0 + DropOps(p, read, tmpExists, removeOnDrop, renameOk, removeOk)
          && (p.status == Unloaded ==> r.collections == RemoveFirst(r0.collections, h) && r.dead == r0.dead + [h])
          && (p.status != Unloaded ==> r.collections == r0.collections && r.dead == r0.dead))
  }

  /** A drop DropSpec refuses changes only the proxy's state, as DropSpec
      says, and removes at most the temporary parameter file; when DropSpec
      keeps the state, the registry is left as it was. */
  lemma DropRefused(r0: Registry, fs0: seq<FsOp>, r: Registry, fs: seq<FsOp>, h: Handle,
                    read: ReadParameters, tmpExists: bool, saveError: ErrorCode,
                    updateError: ErrorCode, removeOnDrop: bool, renameOk: bool, removeOk: bool)
    requires h < |r0.proxies| && ProxyInvariant(r0.proxies[h].State())
    requires var res := DropSpec(r0.proxies[h].State(), read, saveError, updateError);
             res.0 != NoError
             && (r == r0.(proxies := r0.proxies[h := r0.proxies[h].WithState(res.1)])
                 || (r == r0 && res.1 == r0.proxies[h].State()))
             && fs == fs0 + TmpFileOps(r0.proxies[h], read, tmpExists)
    ensures DropOutcome(r0, fs0, r, fs, h, read, tmpExists, saveError, updateError, removeOnDrop, renameOk, removeOk,
                        DropSpec(r0.proxies[h].State(), read, saveError, updateError).0)
  {
    var p := r0.proxies[h];
    assert p.WithState(p.State()) == p;
    assert r0.proxies[h := p] == r0.proxies;
  }

  /** The loop of TRI_CollectionsVocBase: the values of the identifier
      index, each once. No two identifiers index the same proxy, since each
      indexes a proxy carrying that identifier. */
  method IndexValues(byId: map<nat, Handle>, ps: seq<Proxy>) returns (result: seq<Handle>)
    requires forall c :: c in byId ==> byId[c] < |ps| && ps[byId[c]].cid == c
    ensures NoDuplicates(result)
    ensures forall h :: h in result <==> h in byId.Values
  {
    result := [];
    var pending := byId.Keys;
    while pending != {}
      invariant pending <= byId.Keys
      invariant NoDuplicates(result)
      invariant forall i :: 0 <= i < |result| ==> result[i] < |ps| && ps[result[i]].cid in byId.Keys - pending && byId[ps[result[i]].cid] == result[i]
      invariant forall c :: c in byId.Keys - pending ==> byId[c] in result
      decreases |pending|
    {
      var c :| c in pending;
      result := result + [byId[c]];
      pending := pending - {c};
    }
  }

  /** What AddCollection does on registry `r0`, once the new proxy has been
      given state `s`: a taken name or identifier changes nothing; otherwise
      a proxy with no users is appended, listed and indexed under its name
      and identifier. */
  ghost predicate AddedAs(r0: Registry, r: Registry, ctype: ColType, name: string, cid: nat, s: ProxyState,
                          h: Option<Handle>, err: ErrorCode)
  {
    (name in r0.byName ==> h.None? && err == DuplicateName && r == r0)
    && (name !in r0.byName && cid in r0.byId ==> h.None? && err == DuplicateIdentifier && r == r0)
    && (name !in r0.byName && cid !in r0.byId ==>
          h == Some(|r0.proxies|) && err == NoError
          && r == Registry(r0.proxies + [Proxy(cid, ctype, name, s.path, s.status, s.live, 0)],
                           r0.collections + [h.value], r0.dead,
                           r0.byName[name := h.value], r0.byId[cid := h.value]))
  }

  /** Giving the proxy just added another state. */
  lemma AddedWithState(r0: Registry, r: Registry, ctype: ColType, name: string, cid: nat, s0: ProxyState,
                       s: ProxyState, h: Option<Handle>, err: ErrorCode)
    requires AddedAs(r0, r, ctype, name, cid, s0, h, err) && h.Some?
    ensures h.value < |r.proxies| && r.proxies[h.value] == Proxy(cid, ctype, name, s0.path, s0.status, s0.live, 0)
    ensures AddedAs(r0, r.(proxies := r.proxies[h.value := r.proxies[h.value].WithState(s)]), ctype, name, cid, s, h, err)
  {
    var p := Proxy(cid, ctype, name, s0.path, s0.status, s0.live, 0);
    assert r.proxies[h.value := p.WithState(s)] == r0.proxies + [p.WithState(s)];
  }

  /** What BearCollectionVocBase does for a free name, on registry `r0` and
      tick counter `c0`: the counter advances by one (wrapping at 2^64) and
      the new tick is the identifier; if it is taken nothing changes,
      otherwise a new born proxy without a directory is appended, listed
      and indexed. */
  ghost predicate Born(r0: Registry, r: Registry, c0: nat, c: nat, serverId: nat, name: string, ctype: ColType,
                       h: Option<Handle>, err: ErrorCode)
    requires serverId < ServerRange
  {
    c == (c0 + 1) % WordRange
    && AddedAs(r0, r, ctype, name, PackTick(c, serverId), ProxyState(NewBorn, None, None), h, err)
  }

  /** A drop DropSpec accepts, stated through the new proxy state `s'`. */
  lemma DropSucceeded(r0: Registry, fs0: seq<FsOp>, r: Registry, fs: seq<FsOp>, h: Handle,
                      read: ReadParameters, tmpExists: bool, saveError: ErrorCode, updateError: ErrorCode,
                      removeOnDrop: bool, renameOk: bool, removeOk: bool, s': ProxyState)
    requires h < |r0.proxies| && ProxyInvariant(r0.proxies[h].State())
    requires DropSpec(r0.proxies[h].State(), read, saveError, updateError) == (NoError, s')
    requires var p := r0.proxies[h];
             r.proxies == r0.proxies[h := p.WithState(s')]
             && r.byName == Unbind(r0.byName, p.name, h) && r.byId == Unbind(r0.byId, p.cid, h)
             && fs == fs0 + DropOps(p, read, tmpExists, removeOnDrop, renameOk, removeOk)
             && (p.status == Unloaded ==> r.collections == RemoveFirst(r0.collections, h) && r.dead == r0.dead + [h])
             && (p.status != Unloaded ==> r.collections == r0.collections && r.dead == r0.dead)
    ensures DropOutcome(r0, fs0, r, fs, h, read, tmpExists, saveError, updateError, removeOnDrop, renameOk, removeOk, NoError)
  {
  }

  /** A successful drop of a new born or already deleted collection: the
      proxy is marked deleted and unindexed, nothing is written. */
  lemma RetiredDropped(r0: Registry, fs0: seq<FsOp>, r: Registry, fs: seq<FsOp>, h: Handle,
                       read: ReadParameters, tmpExists: bool, saveError: ErrorCode, updateError: ErrorCode,
                       removeOnDrop: bool, renameOk: bool, removeOk: bool)
    requires h < |r0.proxies| && ProxyInvariant(r0.proxies[h].State())
    requires r0.proxies[h].status == Deleted || r0.proxies[h].status == NewBorn
    requires var p := r0.proxies[h];
             r.proxies == r0.proxies[h := p.(status := Deleted, live := p.live)]
             && r.byName == Unbind(r0.byName, p.name, h) && r.byId == Unbind(r0.byId, p.cid, h)
             && r.collections == r0.collections && r.dead == r0.dead && fs == fs0
    ensures DropOutcome(r0, fs0, r, fs, h, read, tmpExists, saveError, updateError, removeOnDrop, renameOk, removeOk, NoError)
  {
    var p := r0.proxies[h];
    var s' := p.State().(status := Deleted);
    assert DropSpec(p.State(), read, saveError, updateError) == (NoError, s');
    assert p.WithState(s') == p.(status := Deleted, live := p.live);
    assert DropOps(p, read, tmpExists, removeOnDrop, renameOk, removeOk) == [];
    assert fs0 + [] == fs0;
    DropSucceeded(r0, fs0, r, fs, h, read, tmpExists, saveError, updateError, removeOnDrop, renameOk, removeOk, s');
  }

  /** A successful drop of a loaded or unloading collection: the parameter
      file is rewritten as deleted, the proxy is marked deleted with its
      collection marked deleted and a drop barrier attached, and unindexed;
      the callback is deferred. */
  lemma OpenDropped(r0: Registry, fs0: seq<FsOp>, r: Registry, fs: seq<FsOp>, h: Handle,
                    read: ReadParameters, tmpExists: bool, saveError: ErrorCode,
                    removeOnDrop: bool, renameOk: bool, removeOk: bool)
    requires h < |r0.proxies| && ProxyInvariant(r0.proxies[h].State())
    requires r0.proxies[h].status == Loaded || r0.proxies[h].status == Unloading
    requires var p := r0.proxies[h];
             var live := p.live.value.(deleted := true);
             r.proxies == r0.proxies[h := p.(status := Deleted, live := Some(live.(barriers := live.barriers + {DropBarrier})))]
             && r.byName == Unbind(r0.byName, p.name, h) && r.byId == Unbind(r0.byId, p.cid, h)
             && r.collections == r0.collections && r.dead == r0.dead
             && fs == fs0 + [SaveParameters(live.directory, ParameterInfo(p.cid, p.name, p.ctype, true))]
    ensures DropOutcome(r0, fs0, r, fs, h, read, tmpExists, saveError, NoError, removeOnDrop, renameOk, removeOk, NoError)
  {
    var p := r0.proxies[h];
    var live := p.live.value.(deleted := true);
    var s' := p.State().(status := Deleted, live := Some(live.(barriers := live.barriers + {DropBarrier})));
    assert DropSpec(p.State(), read, saveError, NoError) == (NoError, s');
    assert p.WithState(s') == p.(status := Deleted, live := s'.live);
    assert DropOps(p, read, tmpExists, removeOnDrop, renameOk, removeOk)
        == [SaveParameters(live.directory, ParameterInfo(p.cid, p.name, p.ctype, true))];
    DropSucceeded(r0, fs0, r, fs, h, read, tmpExists, saveError, NoError, removeOnDrop, renameOk, removeOk, s');
  }

  /** What DropNow does to registry `r0` and the disk operations `fs0`: the
      proxy `h` is marked deleted, taken out of the indexes and moved to the
      dead list, and the directory operations of the drop callback are
      recorded. */
  ghost predicate DeletedAtOnce(r0: Registry, fs0: seq<FsOp>, r: Registry, fs: seq<FsOp>, h: Handle,
                                removeOnDrop: bool, renameOk: bool, removeOk: bool)
  {
    h < |r0.proxies|
    && var p := r0.proxies[h];
       r.proxies == r0.proxies[h := p.(status := Deleted)]
       && r.byName == Unbind(r0.byName, p.name, h) && r.byId == Unbind(r0.byId, p.cid, h)
       && r.collections == RemoveFirst(r0.collections, h) && r.dead == r0.dead + [h]
       && fs == fs0 + DropDirectoryOps(p.path, removeOnDrop, renameOk, removeOk)
  }

  /** DeletedAtOnce, from the steps of DropNow: the proxy is marked deleted
      and unbound (`r1`), then the drop callback moves it to the dead list. */
  lemma DeletedAtOnceSteps(r0: Registry, fs0: seq<FsOp>, r1: Registry, r: Registry, fs: seq<FsOp>,
                           h: Handle, removeOnDrop: bool, renameOk: bool, removeOk: bool)
    requires h < |r0.proxies| && r0.proxies[h].live.None?
    requires var p := r0.proxies[h];
             r1.proxies == r0.proxies[h := p.(status := Deleted, live := None)]
             && r1.byName == Unbind(r0.byName, p.name, h) && r1.byId == Unbind(r0.byId, p.cid, h)
             && r1.collections == r0.collections && r1.dead == r0.dead
    requires r.proxies == r1.proxies && r.byName == r1.byName && r.byId == r1.byId
             && r.collections == RemoveFirst(r1.collections, h) && r.dead == r1.dead + [h]
             && fs == fs0 + DropDirectoryOps(r1.proxies[h].path, removeOnDrop, renameOk, removeOk)
    ensures DeletedAtOnce(r0, fs0, r, fs, h, removeOnDrop, renameOk, removeOk)
  {
    var p := r0.proxies[h];
    assert p.(status := Deleted, live := None) == p.(status := Deleted);
  }

  /** A successful drop of an unloaded collection: the temporary parameter
      file is removed and the parameter file rewritten as deleted unless it
      already says so (`fs1`), and the callback, which runs at once, moves
      the proxy to the dead list and renames its directory. */
  lemma UnloadedDropped(r0: Registry, fs0: seq<FsOp>, fs1: seq<FsOp>, r: Registry, fs: seq<FsOp>, h: Handle,
                        read: ReadParameters, tmpExists: bool, saveError: ErrorCode, updateError: ErrorCode,
                        removeOnDrop: bool, renameOk: bool, removeOk: bool)
    requires h < |r0.proxies| && ProxyInvariant(r0.proxies[h].State()) && r0.proxies[h].status == Unloaded
    requires read.Ok() && (read.info.deleted || saveError == NoError)
    requires var p := r0.proxies[h];
             fs1 == fs0 + TmpFileOps(p, read, tmpExists) + MarkOps(p.path.value, read)
    requires DeletedAtOnce(r0, fs1, r, fs, h, removeOnDrop, renameOk, removeOk)
    ensures DropOutcome(r0, fs0, r, fs, h, read, tmpExists, saveError, updateError, removeOnDrop, renameOk, removeOk, NoError)
  {
    var p := r0.proxies[h];
    var s' := p.State().(status := Deleted);
    assert DropSpec(p.State(), read, saveError, updateError) == (NoError, s');
    assert p.WithState(s') == p.(status := Deleted);
    var tmp := TmpFileOps(p, read, tmpExists);
    var save := MarkOps(p.path.value, read);
    var dir := DropDirectoryOps(p.path, removeOnDrop, renameOk, removeOk);
    assert DropOps(p, read, tmpExists, removeOnDrop, renameOk, removeOk) == tmp + save + dir;
    AppendAssoc(fs0, tmp, save);
    AppendAssoc(fs0, tmp + save, dir);
    DropSucceeded(r0, fs0, r, fs, h, read, tmpExists, saveError, updateError, removeOnDrop, renameOk, removeOk, s');
  }

  /** What TRI_RenameCollectionVocBase on proxy `h` does to registry `r0`
      and the disk operations `fs0`, given the error `err` it returns: the
      error is RenameSpec's; a real rename gives the proxy the new name and
      files it under that name instead of the old one, and rewrites the
      parameter file as RenameOps says; anything else changes nothing. */
  ghost predicate Renamed(r0: Registry, fs0: seq<FsOp>, r: Registry, fs: seq<FsOp>, h: Handle, newName: string,
                          read: ReadParameters, saveError: ErrorCode, renameError: ErrorCode, err: ErrorCode)
    requires h < |r0.proxies| && ProxyInvariant(r0.proxies[h].State())
  {
    var p := r0.proxies[h];
    var renamed := err == NoError && p.name != newName;
    err == RenameSpec(p.name, newName, p.status, newName in r0.byName, read, saveError, renameError)
    && (renamed ==> r.proxies == r0.proxies[h := p.(name := newName)] && r.byName == (r0.byName - {p.name})[newName := h])
    && (!renamed ==> r.proxies == r0.proxies && r.byName == r0.byName)
    && fs == fs0 + (if renamed then RenameOps(p, newName, read) else [])
  }

  /** The parameter file a rename rewrites: an unloaded collection's is read
      (`read`) and saved with the new name; an open collection's is written
      by TRI_RenameCollection from the collection in memory, `_deleted` flag
      included; a new born collection has none. */
  function RenameOps(p: Proxy, newName: string, read: ReadParameters): (ops: seq<FsOp>)
    requires ProxyInvariant(p.State())
    ensures |ops| <= 1
    ensures (p.status == Loaded || p.status == Unloading) ==>
              ops == [SaveParameters(p.live.value.directory, ParameterInfo(p.cid, newName, p.ctype, p.live.value.deleted))]
  {
    match p.status
    case Unloaded => [SaveParameters(p.path.value, read.info.(name := newName))]
    case Loaded => [SaveParameters(p.live.value.directory, ParameterInfo(p.cid, newName, p.ctype, p.live.value.deleted))]
    case Unloading => [SaveParameters(p.live.value.directory, ParameterInfo(p.cid, newName, p.ctype, p.live.value.deleted))]
    case _ => []
  }

  /** A drop of an open collection whose parameter update fails leaves the
      collection open and usable under its name, but marked deleted in
      memory; a later rename writes that mark into the parameter file, and
      the next ScanPath then does not register the collection. */
  lemma FailedDropMarksLaterRename(p: Proxy, read: ReadParameters, saveError: ErrorCode, updateError: ErrorCode,
                                   newName: string, read2: ReadParameters, dbPath: string, removeOnDrop: bool,
                                   entryName: string, fsOk: bool)
    requires ProxyInvariant(p.State()) && (p.status == Loaded || p.status == Unloading) && updateError != NoError
    ensures var res := DropSpec(p.State(), read, saveError, updateError);
            var q := p.WithState(res.1);
            var info := ParameterInfo(p.cid, newName, p.ctype, true);
            res.0 == updateError && q.status == p.status && q.name == p.name
            && RenameOps(q, newName, read2) == [SaveParameters(p.live.value.directory, info)]
            && !Action(dbPath, removeOnDrop, DirEntry(entryName, true, ReadParameters(NoError, info), fsOk)).Register?
  {
    var res := DropSpec(p.State(), read, saveError, updateError);
    assert res.1 == p.State().(live := Some(p.live.value.(deleted := true)));
  }

  /** A rename that is refused, or that keeps the name, changes nothing. */
  lemma RenameRefused(r0: Registry, fs0: seq<FsOp>, h: Handle, newName: string,
                      read: ReadParameters, saveError: ErrorCode, renameError: ErrorCode, err: ErrorCode)
    requires h < |r0.proxies| && ProxyInvariant(r0.proxies[h].State())
    requires var p := r0.proxies[h];
             err == RenameSpec(p.name, newName, p.status, newName in r0.byName, read, saveError, renameError)
    requires err != NoError || r0.proxies[h].name == newName
    ensures Renamed(r0, fs0, r0, fs0, h, newName, read, saveError, renameError, err)
  {
    assert fs0 + [] == fs0;
  }

  /** A rename RenameSpec accepts: the proxy is renamed and refiled, and the
      parameter file of an unloaded collection is rewritten. */
  lemma RenameDone(r0: Registry, fs0: seq<FsOp>, r: Registry, fs: seq<FsOp>, h: Handle, newName: string,
                   read: ReadParameters, saveError: ErrorCode, renameError: ErrorCode)
    requires h < |r0.proxies| && ProxyInvariant(r0.proxies[h].State())
    requires var p := r0.proxies[h];
             p.name != newName
             && NoError == RenameSpec(p.name, newName, p.status, newName in r0.byName, read, saveError, renameError)
    requires var p := r0.proxies[h];
             r.proxies == r0.proxies[h := p.(name := newName)] && r.byName == (r0.byName - {p.name})[newName := h]
             && fs == fs0 + RenameOps(p, newName, read)
    ensures Renamed(r0, fs0, r, fs, h, newName, read, saveError, renameError, NoError)
  {
  }

  /** A proxy after TRI_UnloadCollectionVocBase. */
  function AfterUnload(p: Proxy): Proxy
    requires ProxyInvariant(p.State())
  {
    p.WithState(UnloadSpec(p.State()).1)
  }

  /** The values `_state` takes: 0 while opening, 1 once open, 2 while the
      background threads stop, 3 once they have. */
  type RunState = s: nat | s <= 3

  // ---------------------------------------------------------------------------
  // Proof helpers: sequence identities the proofs above cite
  // ---------------------------------------------------------------------------

  lemma AppendAssoc<T>(a: seq<T>, b: seq<T>, c: seq<T>)
    ensures a + b + c == a + (b + c)
  {
  }

  lemma UpdateSame<T>(s: seq<T>, i: nat)
    requires i < |s|
    ensures s[i := s[i]] == s
  {
  }

  lemma UpdateTwice<T>(s: seq<T>, i: nat, a: T, b: T)
    requires i < |s|
    ensures s[i := a][i := b] == s[i := b]
  {
  }

  /** `TRI_vocbase_t`, reduced to the collection registry. `fsOps` records
      the changes the registry itself makes on disk. */
  class Database {
    const path: string
    const ticks: TickGenerator
    var removeOnDrop: bool
    var state: RunState
    var proxies: seq<Proxy>
    var collections: seq<Handle>
    var deadCollections: seq<Handle>
    var byName: map<string, Handle>
    var byId: map<nat, Handle>
    var fsOps: seq<FsOp>

    ghost function Contents(): Registry
      reads this`proxies, this`collections, this`deadCollections, this`byName, this`byId
    {
      Registry(proxies, collections, deadCollections, byName, byId)
    }

    /** The tick generator is consistent and the registry invariant holds. */
    ghost predicate Valid()
      reads this`proxies, this`collections, this`deadCollections, this`byName, this`byId
      reads ticks
    {
      ticks.Valid() && RegistryInvariant(Contents())
    }

    /** An empty registry, as TRI_OpenVocBase sets it up before the scan. */
    constructor (path: string, ticks: TickGenerator)
      requires ticks.Valid()
      ensures Valid() && this.path == path && this.ticks == ticks
      ensures removeOnDrop && state == 0 && proxies == []
      ensures collections == [] && deadCollections == [] && byName == map[] && byId == map[] && fsOps == []
    {
      this.path := path;
      this.ticks := ticks;
      removeOnDrop := true;
      state := 0;
      proxies := [];
      collections := [];
      deadCollections := [];
      byName := map[];
      byId := map[];
      fsOps := [];
    }

    /** Writes back proxy `h` after a change under its status lock that keeps
        its name, its identifier and whether it is deleted. */
    method Store(h: Handle, p: Proxy)
      requires Valid() && h < |proxies| && ProxyOk(p)
      requires p.name == proxies[h].name && p.cid == proxies[h].cid
      requires p.status == Deleted <==> proxies[h].status == Deleted
      modifies this`proxies
      ensures Valid() && proxies == old(proxies)[h := p]
    {
      UpdateKeepsInvariant(Contents(), h, p);
      proxies := proxies[h := p];
    }

    // -------------------------------------------------------------------------
    // Registration
    // -------------------------------------------------------------------------

    /** AddCollection: a new proxy, corrupted until the caller sets its status,
        is filed under its name and identifier and appended to the list,
        unless the name or the identifier is taken. */
    method AddCollection(ctype: ColType, name: string, cid: nat, dir: Option<string>) returns (h: Option<Handle>, err: ErrorCode)
      requires Valid()
      modifies this`proxies, this`collections, this`byName, this`byId
      ensures Valid()
      ensures AddedAs(old(Contents()), Contents(), ctype, name, cid, ProxyState(Corrupted, None, dir), h, err)
    {
      if name in byName {
        return None, DuplicateName;
      }
      // the source files the name first and takes it out again when the
      // identifier is taken; under the registry lock nobody sees the entry
      if cid in byId {
        return None, DuplicateIdentifier;
      }
      var handle := Append(Proxy(cid, ctype, name, dir, Corrupted, None, 0));
      return Some(handle), NoError;
    }

    /** Files a new proxy, under a free name and a free identifier, and
        appends it to the list. */
    method Append(p: Proxy) returns (h: Handle)
      requires Valid() && ProxyOk(p) && p.status != Deleted
      requires p.name !in byName && p.cid !in byId
      modifies this`proxies, this`collections, this`byName, this`byId
      ensures Valid() && h == |old(proxies)|
      ensures proxies == old(proxies) + [p] && collections == old(collections) + [h]
      ensures byName == old(byName)[p.name := h] && byId == old(byId)[p.cid := h]
    {
      h := |proxies|;
      AppendKeepsInvariant(Contents(), p);
      proxies, collections := proxies + [p], collections + [h];
      byName, byId := byName[p.name := h], byId[p.cid := h];
    }

    /** UnregisterCollection, corrected: an index entry is removed only when
        it still holds this proxy (see `Unregistration`). */
    method UnregisterCollection(h: Handle)
      requires h < |proxies|
      modifies this`byName, this`byId
      ensures byName == Unbind(old(byName), proxies[h].name, h) && byId == Unbind(old(byId), proxies[h].cid, h)
    {
      var p := proxies[h];
      if p.name in byName && byName[p.name] == h {
        byName := byName - {p.name};
      }
      if p.cid in byId && byId[p.cid] == h {
        byId := byId - {p.cid};
      }
    }

    /** The common end of every successful drop: the proxy is marked deleted,
        with `live` as what its collection pointer then refers to, and taken
        out of the indexes. */
    method MarkDeleted(h: Handle, live: Option<LiveCollection>)
      requires Valid() && h < |proxies| && proxies[h].readers == 0
      modifies this`proxies, this`byName, this`byId
      ensures Valid()
      ensures proxies == old(proxies)[h := old(proxies)[h].(status := Deleted, live := live)]
      ensures byName == Unbind(old(byName), old(proxies)[h].name, h) && byId == Unbind(old(byId), old(proxies)[h].cid, h)
    {
      RetireKeepsInvariant(Contents(), h, live);
      proxies := proxies[h := proxies[h].(status := Deleted, live := live)];
      UnregisterCollection(h);
    }

    /** BearCollectionVocBase: returns the collection registered under `name`,
        or registers a new born one under a fresh tick. Only ordinary
        (non-system) names are accepted. */
    method BearCollection(name: string, ctype: ColType) returns (h: Option<Handle>, err: ErrorCode)
      requires Valid()
      modifies this`proxies, this`collections, this`byName, this`byId, ticks
      ensures Valid()
      ensures !IsAllowedCollectionName(false, name) ==>
                h.None? && err == IllegalName && ticks.current == old(ticks.current)
                && proxies == old(proxies) && collections == old(collections) && byName == old(byName) && byId == old(byId)
      ensures IsAllowedCollectionName(false, name) && name in old(byName) ==>
                h == Some(old(byName)[name]) && err == NoError && ticks.current == old(ticks.current)
                && proxies == old(proxies) && collections == old(collections) && byName == old(byName) && byId == old(byId)
      ensures IsAllowedCollectionName(false, name) && name !in old(byName) ==> Born(old(Contents()), Contents(), old(ticks.current), ticks.current, ticks.serverId, name, ctype, h, err)
    {
      if !IsAllowedCollectionName(false, name) {
        return None, IllegalName;
      }
      if name in byName {
        return Some(byName[name]), NoError;
      }
      h, err := BearNew(name, ctype);
    }

    /** The registering part of BearCollectionVocBase, for a free name: a
        fresh tick becomes the identifier of a new born proxy. */
    method BearNew(name: string, ctype: ColType) returns (h: Option<Handle>, err: ErrorCode)
      requires Valid() && name !in byName
      modifies this`proxies, this`collections, this`byName, this`byId, ticks
      ensures Valid()
      ensures Born(old(Contents()), Contents(), old(ticks.current), ticks.current, ticks.serverId, name, ctype, h, err)
    {
      var cid := ticks.NewTick();
      h, err := AddNewBorn(ctype, name, cid);
    }

    /** AddCollection, then the new proxy is marked new born, as
        BearCollectionVocBase does while it holds the registry lock. */
    method AddNewBorn(ctype: ColType, name: string, cid: nat) returns (h: Option<Handle>, err: ErrorCode)
      requires Valid()
      modifies this`proxies, this`collections, this`byName, this`byId
      ensures Valid()
      ensures AddedAs(old(Contents()), Contents(), ctype, name, cid, ProxyState(NewBorn, None, None), h, err)
    {
      ghost var r0 := Contents();
      h, err := AddCollection(ctype, name, cid, None);
      if h.Some? {
        AddedWithState(r0, Contents(), ctype, name, cid, ProxyState(Corrupted, None, None),
                       ProxyState(NewBorn, None, None), h, err);
        Store(h.value, proxies[h.value].WithState(ProxyState(NewBorn, None, None)));
      }
    }

    /** FindCollectionByNameVocBase: a lookup by name that bears a new
        collection when asked to. */
    method FindCollectionByName(name: string, bear: bool, ctype: ColType) returns (h: Option<Handle>, err: ErrorCode)
      requires Valid()
      modifies this`proxies, this`collections, this`byName, this`byId, ticks
      ensures Valid()
      ensures name in old(byName) ==>
                h == Some(old(byName)[name]) && err == NoError && ticks.current == old(ticks.current)
                && proxies == old(proxies) && collections == old(collections) && byName == old(byName) && byId == old(byId)
      ensures name !in old(byName) && !bear ==>
                h.None? && err == CollectionNotFound && ticks.current == old(ticks.current)
                && proxies == old(proxies) && collections == old(collections) && byName == old(byName) && byId == old(byId)
      ensures name !in old(byName) && bear && !IsAllowedCollectionName(false, name) ==>
                h.None? && err == IllegalName && ticks.current == old(ticks.current)
                && proxies == old(proxies) && collections == old(collections) && byName == old(byName) && byId == old(byId)
      ensures name !in old(byName) && bear && IsAllowedCollectionName(false, name) ==>
                Born(old(Contents()), Contents(), old(ticks.current), ticks.current, ticks.serverId, name, ctype, h, err)
      ensures h.Some? ==> err == NoError && h.value in collections && h.value < |proxies|
                          && proxies[h.value].name == name && proxies[h.value].status != Deleted
    {
      if name in byName {
        return Some(byName[name]), NoError;
      }
      if !bear {
        return None, CollectionNotFound;
      }
      h, err := BearCollection(name, ctype);
    }

    /** TRI_LookupCollectionByNameVocBase. */
    function LookupCollectionByName(name: string): (h: Option<Handle>)
      reads this`byName
      ensures h.Some? <==> name in byName
    {
      if name in byName then Some(byName[name]) else None
    }

    /** TRI_LookupCollectionByIdVocBase. */
    function LookupCollectionById(cid: nat): (h: Option<Handle>)
      reads this`byId
      ensures h.Some? <==> cid in byId
    {
      if cid in byId then Some(byId[cid]) else None
    }

    /** Lookups find exactly the collections that are listed and not deleted,
        under their own name and identifier. */
    lemma LookupsFindLiveCollections(h: Handle)
      requires Valid() && h < |proxies|
      ensures LookupCollectionByName(proxies[h].name) == Some(h) <==> h in collections && proxies[h].status != Deleted
      ensures LookupCollectionById(proxies[h].cid) == Some(h) <==> h in collections && proxies[h].status != Deleted
    {
    }

    /** TRI_CollectionsVocBase: every collection of the identifier index, once,
        in the index's own order; these are exactly the listed collections
        that are not deleted. */
    method CollectionsVocBase() returns (result: seq<Handle>)
      requires Valid()
      ensures NoDuplicates(result)
      ensures forall h :: h in result <==> h in byId.Values
      ensures forall h :: h in result <==> h in collections && h < |proxies| && proxies[h].status != Deleted
    {
      IndexedAreListed(Contents());
      result := IndexValues(byId, proxies);
    }

    // -------------------------------------------------------------------------
    // Creation
    // -------------------------------------------------------------------------

    /** TRI_CreateCollectionVocBase: checks the name and type, creates the
        collection on disk (`create` is the outcome of
        TRI_CreateDocumentCollection, `assignedCid` the identifier it gave
        the collection) and registers it as loaded. */
    method CreateCollection(name: string, isSystem: bool, ctype: ColType, create: CreateOutcome, assignedCid: nat)
      returns (h: Option<Handle>, err: ErrorCode)
      requires Valid()
      modifies this`proxies, this`collections, this`byName, this`byId
      ensures Valid()
      ensures !IsAllowedCollectionName(isSystem, name) ==> h.None? && err == IllegalName && Contents() == old(Contents())
      ensures IsAllowedCollectionName(isSystem, name) && !IsDocumentCollection(ctype) ==>
                h.None? && err == UnknownCollectionType && Contents() == old(Contents())
      ensures IsAllowedCollectionName(isSystem, name) && IsDocumentCollection(ctype) && create.CreateFailed? ==>
                h.None? && Contents() == old(Contents())
                && err == if name in old(byName) then DuplicateName else create.error
      ensures IsAllowedCollectionName(isSystem, name) && IsDocumentCollection(ctype) && create.Created? ==>
                AddedAs(old(Contents()), Contents(), ctype, name, assignedCid, LoadedIn(create.directory, ctype), h, err)
    {
      if !IsAllowedCollectionName(isSystem, name) {
        return None, IllegalName;
      }
      if !IsDocumentCollection(ctype) {
        return None, UnknownCollectionType;
      }
      if name in byName {
        return None, DuplicateName;
      }
      if create.CreateFailed? {
        return None, create.error;
      }
      var directory := create.directory;
      h, err := AddCollection(ctype, name, assignedCid, Some(directory));
      if h.Some? {
        ghost var added := Contents();
        Store(h.value, proxies[h.value].WithState(LoadedIn(directory, ctype)));
        AddedWithState(old(Contents()), added, ctype, name, assignedCid, ProxyState(Corrupted, None, Some(directory)),
                       LoadedIn(directory, ctype), h, err);
      }
    }

    // -------------------------------------------------------------------------
    // Use and release
    // -------------------------------------------------------------------------

    /** ManifestCollectionVocBase. */
    method ManifestCollection(h: Handle, create: CreateOutcome) returns (err: ErrorCode)
      requires Valid() && h < |proxies| && proxies[h].readers == 0
      modifies this`proxies
      ensures Valid()
      ensures var r := ManifestSpec(old(proxies)[h].State(), old(proxies)[h].ctype, create);
              err == r.0 && proxies == old(proxies)[h := old(proxies)[h].WithState(r.1)]
    {
      var p := proxies[h];
      match p.status {
        case Corrupted => return CorruptedCollection;
        case Deleted => return CollectionNotFound;
        case Unloaded => return NoError;
        case Loaded => return NoError;
        case Unloading => return NoError;
        case NewBorn =>
          if !IsDocumentCollection(p.ctype) {
            Store(h, p.(status := Corrupted));
            return UnknownCollectionType;
          }
          match create {
            case CreateFailed(e) =>
              Store(h, p.(status := Corrupted));
              return e;
            case Created(directory) =>
              Store(h, p.(status := Loaded, live := Some(LiveCollection(directory, p.ctype, {}, false)), path := Some(directory)));
              return NoError;
          }
      }
    }

    /** LoadCollectionVocBase (TRI_UseCollectionVocBase): loads or manifests
        the collection as needed and, on success, leaves the caller holding a
        status read lock. `create` and `open` are the outcomes of creating a
        new born collection and of opening an unloaded one. */
    method UseCollection(h: Handle, create: CreateOutcome, open: OpenOutcome) returns (err: ErrorCode)
      requires Valid() && h < |proxies|
      modifies this`proxies
      ensures Valid() && ProxyInvariant(old(proxies)[h].State())
      ensures Used(old(proxies), proxies, h, create, open, err)
    {
      while true
        invariant Valid() && UseUnderway(old(proxies), proxies, h, create, open)
        decreases Rank(proxies[h].status)
      {
        ghost var prev := proxies;
        var done;
        done, err := LoadPass(h, create, open);
        UsePass(old(proxies), h, prev, proxies, create, open, done, err);
        if done {
          return;
        }
      }
    }

    /** One pass of the loop of LoadCollectionVocBase: a loaded collection
        is read locked, a deleted or corrupted one refused; otherwise the
        status write lock is taken, the collection is loaded, manifested or
        marked corrupted, and the loop starts over unless that failed. */
    method LoadPass(h: Handle, create: CreateOutcome, open: OpenOutcome) returns (done: bool, err: ErrorCode)
      requires Valid() && h < |proxies|
      modifies this`proxies
      ensures Valid()
      ensures UsePassed(old(proxies), proxies, h, create, open, done, err)
    {
      var status := proxies[h].status;
      if status == Loaded || status == Deleted || status == Corrupted {
        done, err := LoadReadLocked(h, create, open);
      } else {
        done, err := LoadLocked(h, create, open);
      }
    }

    /** The read-locked part of a pass of LoadCollectionVocBase: a loaded
        collection gains a reader, a deleted or corrupted one is refused. */
    method LoadReadLocked(h: Handle, create: CreateOutcome, open: OpenOutcome) returns (done: bool, err: ErrorCode)
      requires Valid() && h < |proxies|
      requires proxies[h].status == Loaded || proxies[h].status == Deleted || proxies[h].status == Corrupted
      modifies this`proxies
      ensures Valid()
      ensures UsePassed(old(proxies), proxies, h, create, open, done, err)
    {
      var p := proxies[h];
      assert ProxyOk(p);
      if p.status == Loaded {
        PassOnLoaded(proxies, h, create, open);
        Store(h, p.(readers := p.readers + 1));
        return true, NoError;
      }
      PassRefused(proxies, h, create, open);
      return true, if p.status == Deleted then CollectionNotFound else CorruptedCollection;
    }

    /** The write-locked part of a pass of LoadCollectionVocBase, for a
        collection that is neither loaded, deleted nor corrupted; nobody
        holds a read lock on a collection that is not loaded. */
    method LoadLocked(h: Handle, create: CreateOutcome, open: OpenOutcome) returns (done: bool, err: ErrorCode)
      requires Valid() && h < |proxies|
      requires proxies[h].status == Unloading || proxies[h].status == NewBorn || proxies[h].status == Unloaded
      modifies this`proxies
      ensures Valid()
      ensures UsePassed(old(proxies), proxies, h, create, open, done, err)
    {
      var p := proxies[h];
      if p.status == Unloading {
        if DropBarrier in p.live.value.barriers {
          return true, CollectionNotFound;
        }
        Store(h, p.(status := Loaded));
        return false, NoError;
      }
      if p.status == NewBorn {
        err := ManifestCollection(h, create);
        return err != NoError, err;
      }
      if !IsDocumentCollection(p.ctype) {
        return true, UnknownCollectionType;
      }
      if open.OpenFailed? {
        Store(h, p.(status := Corrupted));
        return true, CorruptedCollection;
      }
      var directory := open.directory;
      Store(h, p.(live := Some(LiveCollection(directory, open.ctype, {}, false)), status := Loaded, path := Some(directory)));
      return false, NoError;
    }

    /** TRI_UseCollectionByNameVocBase: a lookup by name followed by a use. */
    method UseCollectionByName(name: string, create: CreateOutcome, open: OpenOutcome) returns (h: Option<Handle>, err: ErrorCode)
      requires Valid()
      modifies this`proxies
      ensures Valid()
      ensures name !in byName ==> h.None? && err == CollectionNotFound && proxies == old(proxies)
      ensures name in byName ==>
                var g := byName[name];
                g < |old(proxies)| && ProxyInvariant(old(proxies)[g].State())
                && Used(old(proxies), proxies, g, create, open, err)
                && (h == if err == NoError then Some(g) else None)
    {
      if name !in byName {
        return None, CollectionNotFound;
      }
      var g := byName[name];
      err := UseCollection(g, create, open);
      h := if err == NoError then Some(g) else None;
    }

    /** TRI_ReleaseCollectionVocBase: gives back the read lock a successful
        use took. */
    method ReleaseCollection(h: Handle)
      requires Valid() && h < |proxies| && proxies[h].readers > 0
      modifies this`proxies
      ensures Valid()
      ensures proxies == old(proxies)[h := old(proxies)[h].(readers := old(proxies)[h].readers - 1)]
    {
      var p := proxies[h];
      Store(h, p.(readers := p.readers - 1));
    }

    // -------------------------------------------------------------------------
    // Unloading
    // -------------------------------------------------------------------------

    /** TRI_UnloadCollectionVocBase. */
    method UnloadCollection(h: Handle) returns (err: ErrorCode)
      requires Valid() && h < |proxies| && proxies[h].readers == 0
      modifies this`proxies
      ensures Valid()
      ensures var r := UnloadSpec(old(proxies)[h].State());
              err == r.0 && proxies == old(proxies)[h := old(proxies)[h].WithState(r.1)]
    {
      var p := proxies[h];
      match p.status {
        case Corrupted => return CorruptedCollection;
        case Unloaded => return NoError;
        case Unloading => return NoError;
        case NewBorn => return NoError;
        case Deleted => return NoError;
        case Loaded =>
          var live := p.live.value;
          Store(h, p.(status := Unloading, live := Some(live.(barriers := live.barriers + {UnloadBarrier}))));
          return NoError;
      }
    }

    /** UnloadCollectionCallback, run by the cleanup thread once the unload
        barrier is reached; `closeOk` is the outcome of closing the
        collection. */
    method UnloadCollectionCallback(h: Handle, closeOk: bool) returns (done: bool)
      requires Valid() && h < |proxies| && proxies[h].readers == 0
      modifies this`proxies
      ensures Valid()
      ensures var r := UnloadCallbackSpec(old(proxies)[h].State(), closeOk);
              done == r.0 && proxies == old(proxies)[h := old(proxies)[h].WithState(r.1)]
    {
      var p := proxies[h];
      if p.status != Unloading {
        return false;
      }
      if !IsDocumentCollection(p.live.value.ctype) {
        Store(h, p.(status := Loaded));
        return false;
      }
      if !closeOk {
        Store(h, p.(status := Corrupted));
        return true;
      }
      Store(h, p.(status := Unloaded, live := None));
      return true;
    }

    // -------------------------------------------------------------------------
    // Dropping
    // -------------------------------------------------------------------------

    /** DropCollectionCallback: closes the collection if it is open, moves
        the proxy from the list to the dead list and renames (and possibly
        removes) its directory, each under its own lock. `closeOk`,
        `renameOk` and `removeOk` are the outcomes of the close, rename and
        removal. */
    method DropCollectionCallback(h: Handle, closeOk: bool, renameOk: bool, removeOk: bool) returns (done: bool)
      requires Valid() && h < |proxies| && proxies[h].readers == 0
      modifies this`proxies, this`collections, this`deadCollections, this`fsOps
      ensures Valid()
      ensures var r := DropCallbackSpec(old(proxies)[h].State(), closeOk);
              done == r.0 && proxies == old(proxies)[h := old(proxies)[h].WithState(r.1)]
      ensures DropCallbackProceeds(old(proxies)[h].State(), closeOk) ==>
                collections == RemoveFirst(old(collections), h)
                && deadCollections == old(deadCollections) + [h]
                && fsOps == old(fsOps) + DropDirectoryOps(old(proxies)[h].path, removeOnDrop, renameOk, removeOk)
      ensures !DropCallbackProceeds(old(proxies)[h].State(), closeOk) ==>
                collections == old(collections) && deadCollections == old(deadCollections) && fsOps == old(fsOps)
    {
      var proceed;
      done, proceed := CloseDropped(h, closeOk);
      if !proceed {
        return;
      }
      MoveToDead(h);
      RenameDroppedDirectory(proxies[h].path, renameOk, removeOk);
    }

    /** The status-locked part of DropCollectionCallback: a collection that
        is no longer deleted is left alone; an open one is closed. `proceed`
        says whether the proxy is then moved to the dead list. */
    method CloseDropped(h: Handle, closeOk: bool) returns (done: bool, proceed: bool)
      requires Valid() && h < |proxies| && proxies[h].readers == 0
      modifies this`proxies
      ensures Valid()
      ensures var r := DropCallbackSpec(old(proxies)[h].State(), closeOk);
              done == r.0 && proxies == old(proxies)[h := old(proxies)[h].WithState(r.1)]
      ensures proceed == DropCallbackProceeds(old(proxies)[h].State(), closeOk)
    {
      var p := proxies[h];
      if p.status != Deleted {
        return false, false;
      }
      if p.live.Some? {
        if !IsDocumentCollection(p.live.value.ctype) {
          return false, false;
        }
        if !closeOk {
          return true, false;
        }
        Store(h, p.(live := None));
      }
      return true, true;
    }

    /** The registry-locked part of DropCollectionCallback: the first
        occurrence of the proxy leaves the list and the proxy joins the dead
        list. */
    method MoveToDead(h: Handle)
      requires Valid() && h < |proxies| && proxies[h].status == Deleted
      modifies this`collections, this`deadCollections
      ensures Valid()
      ensures collections == RemoveFirst(old(collections), h) && deadCollections == old(deadCollections) + [h]
    {
      BuryKeepsInvariant(Contents(), h);
      var i := 0;
      while i < |collections| && collections[i] != h
        invariant 0 <= i <= |collections|
        invariant h !in collections[..i]
      {
        i := i + 1;
      }
      if i < |collections| {
        RemoveFirstAt(collections, h, i);
        collections := collections[..i] + collections[i + 1..];
      } else {
        assert collections[..i] == collections;
        RemoveFirstAbsent(collections, h);
      }
      deadCollections := deadCollections + [h];
    }

    /** The directory part of DropCollectionCallback: a collection directory
        `<dir>/collection-<digits>` is renamed to `<dir>/deleted-<digits>`,
        and the renamed directory is removed when the database wipes dropped
        collections. `renameOk` and `removeOk` are the outcomes of the two
        file system calls. */
    method RenameDroppedDirectory(dir: Option<string>, renameOk: bool, removeOk: bool)
      modifies this`fsOps
      ensures fsOps == old(fsOps) + DropDirectoryOps(dir, removeOnDrop, renameOk, removeOk)
    {
      if dir.None? {
        return;
      }
      var target := DroppedPath(dir.value);
      if target.None? || !renameOk {
        return;
      }
      fsOps := fsOps + [RenameDirectory(dir.value, target.value)];
      if removeOnDrop && removeOk {
        fsOps := fsOps + [RemoveDirectory(target.value)];
      }
    }

    /** TRI_DropCollectionVocBase. `read`, `tmpExists` and `saveError` are
        the outcomes of reading an unloaded collection's parameter file,
        looking for its temporary parameter file and rewriting the parameter
        file, `updateError` that of marking an open one deleted; the
        remaining arguments go to the drop callback an unloaded collection
        runs at once. An open collection gets a drop barrier instead, and
        its callback runs later. */
    method DropCollection(h: Handle, read: ReadParameters, tmpExists: bool, saveError: ErrorCode, updateError: ErrorCode,
                          closeOk: bool, renameOk: bool, removeOk: bool) returns (err: ErrorCode)
      requires Valid() && h < |proxies| && proxies[h].readers == 0
      modifies this`proxies, this`collections, this`deadCollections, this`byName, this`byId, this`fsOps
      ensures Valid() && ProxyInvariant(old(proxies)[h].State())
      ensures DropOutcome(old(Contents()), old(fsOps), Contents(), fsOps, h, read, tmpExists, saveError, updateError,
                          removeOnDrop, renameOk, removeOk, err)
    {
      var p := proxies[h];
      if p.status == Deleted || p.status == NewBorn {
        err := DropRetired(h, read, tmpExists, saveError, updateError, renameOk, removeOk);
      } else if p.status == Unloaded {
        err := DropUnloaded(h, read, tmpExists, saveError, updateError, closeOk, renameOk, removeOk);
      } else if p.status == Loaded || p.status == Unloading {
        err := DropOpen(h, read, tmpExists, saveError, updateError, renameOk, removeOk);
      } else {
        assert fsOps + [] == fsOps;
        DropRefused(Contents(), fsOps, Contents(), fsOps, h, read, tmpExists, saveError, updateError,
                    removeOnDrop, renameOk, removeOk);
        return Internal;
      }
    }

    /** The deleted and new born cases of TRI_DropCollectionVocBase: nothing
        is on disk, the proxy is marked deleted and taken out of the
        indexes. */
    method DropRetired(h: Handle, read: ReadParameters, tmpExists: bool, saveError: ErrorCode, updateError: ErrorCode,
                       renameOk: bool, removeOk: bool) returns (err: ErrorCode)
      requires Valid() && h < |proxies| && proxies[h].readers == 0
      requires proxies[h].status == Deleted || proxies[h].status == NewBorn
      modifies this`proxies, this`byName, this`byId
      ensures Valid() && ProxyInvariant(old(proxies)[h].State())
      ensures DropOutcome(old(Contents()), old(fsOps), Contents(), fsOps, h, read, tmpExists, saveError, updateError,
                          removeOnDrop, renameOk, removeOk, err)
    {
      MarkDeleted(h, proxies[h].live);
      RetiredDropped(old(Contents()), old(fsOps), Contents(), fsOps, h, read, tmpExists, saveError, updateError,
                     removeOnDrop, renameOk, removeOk);
      return NoError;
    }

    /** The unloaded case of TRI_DropCollectionVocBase: the parameter file
        is read, a dangling temporary parameter file is removed, and the
        parameter file is rewritten as deleted unless it already says so;
        the proxy is marked deleted and the drop callback runs at once. */
    method DropUnloaded(h: Handle, read: ReadParameters, tmpExists: bool, saveError: ErrorCode, updateError: ErrorCode,
                        closeOk: bool, renameOk: bool, removeOk: bool) returns (err: ErrorCode)
      requires Valid() && h < |proxies| && proxies[h].readers == 0 && proxies[h].status == Unloaded
      modifies this`proxies, this`collections, this`deadCollections, this`byName, this`byId, this`fsOps
      ensures Valid() && ProxyInvariant(old(proxies)[h].State())
      ensures DropOutcome(old(Contents()), old(fsOps), Contents(), fsOps, h, read, tmpExists, saveError, updateError,
                          removeOnDrop, renameOk, removeOk, err)
    {
      ghost var r0, fs0 := Contents(), fsOps;
      assert ProxyOk(proxies[h]);
      if !read.Ok() {
        assert fs0 + [] == fs0;
        DropRefused(r0, fs0, r0, fs0, h, read, tmpExists, saveError, updateError, removeOnDrop, renameOk, removeOk);
        return read.error;
      }
      err := DropReadUnloaded(h, read, tmpExists, saveError, updateError, closeOk, renameOk, removeOk);
    }

    /** The unloaded case once the parameters are read: a dangling temporary
        parameter file is removed, then the parameter file is marked
        deleted and the proxy dropped at once, unless the rewrite fails. */
    method DropReadUnloaded(h: Handle, read: ReadParameters, tmpExists: bool, saveError: ErrorCode, updateError: ErrorCode,
                            closeOk: bool, renameOk: bool, removeOk: bool) returns (err: ErrorCode)
      requires Valid() && h < |proxies| && proxies[h].readers == 0 && proxies[h].status == Unloaded && read.Ok()
      modifies this`proxies, this`collections, this`deadCollections, this`byName, this`byId, this`fsOps
      ensures Valid() && ProxyInvariant(old(proxies)[h].State())
      ensures DropOutcome(old(Contents()), old(fsOps), Contents(), fsOps, h, read, tmpExists, saveError, updateError,
                          removeOnDrop, renameOk, removeOk, err)
    {
      ghost var r0, fs0 := Contents(), fsOps;
      assert ProxyOk(proxies[h]);
      Record(TmpFileOps(proxies[h], read, tmpExists));
      if !read.info.deleted && saveError != NoError {
        DropRefused(r0, fs0, r0, fsOps, h, read, tmpExists, saveError, updateError, removeOnDrop, renameOk, removeOk);
        return saveError;
      }
      ghost var fs1 := fsOps + MarkOps(proxies[h].path.value, read);
      DropMarked(h, read, closeOk, renameOk, removeOk);
      UnloadedDropped(r0, fs0, fs1, Contents(), fsOps, h, read, tmpExists, saveError, updateError,
                      removeOnDrop, renameOk, removeOk);
      return NoError;
    }

    /** The unloaded case once the parameters are read: the parameter file
        is marked deleted, then the proxy is dropped at once. */
    method DropMarked(h: Handle, read: ReadParameters, closeOk: bool, renameOk: bool, removeOk: bool)
      requires Valid() && h < |proxies| && proxies[h].readers == 0 && proxies[h].status == Unloaded
      modifies this`proxies, this`collections, this`deadCollections, this`byName, this`byId, this`fsOps
      ensures Valid() && old(proxies)[h].path.Some?
      ensures DeletedAtOnce(old(Contents()), old(fsOps) + MarkOps(old(proxies)[h].path.value, read),
                            Contents(), fsOps, h, removeOnDrop, renameOk, removeOk)
    {
      assert ProxyOk(proxies[h]);
      Record(MarkOps(proxies[h].path.value, read));
      DropNow(h, closeOk, renameOk, removeOk);
    }

    /** The end of the unloaded case of TRI_DropCollectionVocBase, once the
        parameter file says deleted: the proxy is marked deleted and taken
        out of the indexes, and the drop callback runs at once; an unloaded
        collection has nothing to close, so the callback always proceeds. */
    method DropNow(h: Handle, closeOk: bool, renameOk: bool, removeOk: bool)
      requires Valid() && h < |proxies| && proxies[h].readers == 0 && proxies[h].status == Unloaded
      modifies this`proxies, this`collections, this`deadCollections, this`byName, this`byId, this`fsOps
      ensures Valid()
      ensures DeletedAtOnce(old(Contents()), old(fsOps), Contents(), fsOps, h, removeOnDrop, renameOk, removeOk)
    {
      ghost var r0, fs0 := Contents(), fsOps;
      assert ProxyOk(proxies[h]);
      MarkDeleted(h, None);
      ghost var r1 := Contents();
      DeletedPassesCallback(proxies[h], closeOk);
      UpdateSame(proxies, h);
      var done := DropCollectionCallback(h, closeOk, renameOk, removeOk);
      DeletedAtOnceSteps(r0, fs0, r1, Contents(), fsOps, h, removeOnDrop, renameOk, removeOk);
    }

    /** Records changes made on disk. */
    method Record(ops: seq<FsOp>)
      modifies this`fsOps
      ensures fsOps == old(fsOps) + ops
    {
      fsOps := fsOps + ops;
    }

    /** The loaded and unloading cases of TRI_DropCollectionVocBase: the
        open collection is marked deleted and its parameter file updated;
        if that succeeds, the proxy is marked deleted and a drop barrier
        defers the callback, otherwise the mark stays on the collection. */
    method DropOpen(h: Handle, read: ReadParameters, tmpExists: bool, saveError: ErrorCode, updateError: ErrorCode,
                    renameOk: bool, removeOk: bool) returns (err: ErrorCode)
      requires Valid() && h < |proxies| && proxies[h].readers == 0
      requires proxies[h].status == Loaded || proxies[h].status == Unloading
      modifies this`proxies, this`byName, this`byId, this`fsOps
      ensures Valid() && ProxyInvariant(old(proxies)[h].State())
      ensures DropOutcome(old(Contents()), old(fsOps), Contents(), fsOps, h, read, tmpExists, saveError, updateError,
                          removeOnDrop, renameOk, removeOk, err)
    {
      if updateError != NoError {
        KeepDeletedMark(h, read, tmpExists, saveError, updateError, renameOk, removeOk);
        return updateError;
      }
      var p := proxies[h];
      assert ProxyOk(p);
      var live := p.live.value.(deleted := true);
      Record([SaveParameters(live.directory, ParameterInfo(p.cid, p.name, p.ctype, true))]);
      // the barrier is attached after the status lock is given back; nothing
      // else sees the proxy in between
      MarkDeleted(h, Some(live.(barriers := live.barriers + {DropBarrier})));
      OpenDropped(old(Contents()), old(fsOps), Contents(), fsOps, h, read, tmpExists, saveError,
                  removeOnDrop, renameOk, removeOk);
      return NoError;
    }

    /** An open collection whose parameters could not be updated: the
        drop fails, and the collection stays marked deleted. */
    method KeepDeletedMark(h: Handle, read: ReadParameters, tmpExists: bool, saveError: ErrorCode, updateError: ErrorCode,
                           renameOk: bool, removeOk: bool)
      requires Valid() && h < |proxies| && proxies[h].readers == 0
      requires (proxies[h].status == Loaded || proxies[h].status == Unloading) && updateError != NoError
      modifies this`proxies
      ensures Valid() && ProxyInvariant(old(proxies)[h].State())
      ensures DropOutcome(old(Contents()), old(fsOps), Contents(), fsOps, h, read, tmpExists, saveError, updateError,
                          removeOnDrop, renameOk, removeOk, updateError)
    {
      var p := proxies[h];
      assert ProxyOk(p);
      var q := p.(live := Some(p.live.value.(deleted := true)));
      assert q == p.WithState(DropSpec(p.State(), read, saveError, updateError).1);
      Store(h, q);
      assert fsOps + [] == fsOps;
      DropRefused(old(Contents()), old(fsOps), Contents(), fsOps, h, read, tmpExists, saveError, updateError,
                  removeOnDrop, renameOk, removeOk);
    }

    // -------------------------------------------------------------------------
    // Renaming
    // -------------------------------------------------------------------------

    /** TRI_RenameCollectionVocBase. `read` and `saveError` are the outcomes
        of rewriting the parameter file of an unloaded collection,
        `renameError` that of TRI_RenameCollection on an open one, which
        rewrites the open collection's parameter file. */
    method RenameCollection(h: Handle, newName: string, read: ReadParameters, saveError: ErrorCode, renameError: ErrorCode)
      returns (err: ErrorCode)
      requires Valid() && h < |proxies| && proxies[h].readers == 0
      modifies this`proxies, this`byName, this`fsOps
      ensures Valid() && ProxyInvariant(old(proxies)[h].State())
      ensures Renamed(old(Contents()), old(fsOps), Contents(), fsOps, h, newName, read, saveError, renameError, err)
    {
      ghost var r0, fs0 := Contents(), fsOps;
      var p := proxies[h];
      // the checks of TRI_RenameCollectionVocBase, in its order, are those of RenameSpec
      err := RenameSpec(p.name, newName, p.status, newName in byName, read, saveError, renameError);
      if err == NoError && p.name != newName {
        Record(RenameOps(p, newName, read));
        Rebind(h, newName);
        RenameDone(r0, fs0, Contents(), fsOps, h, newName, read, saveError, renameError);
        return;
      }
      RenameRefused(r0, fs0, h, newName, read, saveError, renameError, err);
    }

    /** The commit of a rename: the proxy takes the new name and is filed
        under it instead of the old one. */
    method Rebind(h: Handle, newName: string)
      requires Valid() && h < |proxies| && proxies[h].status != Deleted && newName !in byName
      modifies this`proxies, this`byName
      ensures Valid()
      ensures proxies == old(proxies)[h := old(proxies)[h].(name := newName)]
      ensures byName == (old(byName) - {old(proxies)[h].name})[newName := h]
    {
      RenameKeepsInvariant(Contents(), h, newName);
      var p := proxies[h];
      byName := (byName - {p.name})[newName := h];
      proxies := proxies[h := p.(name := newName)];
    }

    // -------------------------------------------------------------------------
    // Opening and closing the database
    // -------------------------------------------------------------------------

    /** One pass of ScanPath's loop, over the directory entry `e`: the
        identifier of a readable parameter file is observed by the tick
        generator, a deleted collection's directory is wiped or renamed, and
        a live document collection is registered as unloaded. A name or
        identifier that is already taken fails the pass. */
    method ScanEntry(e: DirEntry) returns (err: ErrorCode)
      requires Valid() && (e.parameters.Ok() ==> e.parameters.info.cid < WordRange)
      modifies this`proxies, this`collections, this`byName, this`byId, this`fsOps, ticks
      ensures Valid()
      ensures ticks.current == ObserveEntry(old(ticks.current), e)
      ensures var a := Action(path, removeOnDrop, e);
              err == NoError ==>
                fsOps == old(fsOps) + ActionOps(a, e.fsOk)
                && (a.Register? ==> proxies == old(proxies) + [ScannedProxy(a)]
                                    && collections == old(collections) + [|old(proxies)|])
                && (!a.Register? ==> proxies == old(proxies) && collections == old(collections))
      ensures var a := Action(path, removeOnDrop, e);
              err != NoError ==>
                err == CorruptedCollection && a.Register?
                && (a.info.name in old(byName) || a.info.cid in old(byId))
                && proxies == old(proxies) && collections == old(collections) && fsOps == old(fsOps)
                && byName == old(byName) && byId == old(byId)
    {
      if !IsCollectionDirectoryName(e.name) || !e.isDirectory || !e.parameters.Ok() {
        // not a collection directory, or no valid parameter file: ignored
        return NoError;
      }
      var info := e.parameters.info;
      var file := JoinPath(path, e.name);
      ticks.UpdateTick(info.cid);
      if info.deleted {
        if removeOnDrop {
          if e.fsOk {
            fsOps := fsOps + [RemoveDirectory(file)];
          }
        } else {
          var newFile := JoinPath(path, DeletedDirectoryName(DirectoryDigits(e.name)));
          if e.fsOk {
            fsOps := fsOps + [RenameDirectory(file, newFile)];
          }
        }
        return NoError;
      }
      if !IsDocumentCollection(info.ctype) {
        return NoError;
      }
      err := RegisterScanned(info, file);
    }

    /** The registration step of ScanPath: the collection is added and
        marked unloaded; a name or identifier that is taken is reported as a
        corrupted collection. */
    method RegisterScanned(info: ParameterInfo, file: string) returns (err: ErrorCode)
      requires Valid()
      modifies this`proxies, this`collections, this`byName, this`byId
      ensures Valid()
      ensures err == NoError <==> info.name !in old(byName) && info.cid !in old(byId)
      ensures err == NoError ==>
                proxies == old(proxies) + [Proxy(info.cid, info.ctype, info.name, Some(file), Unloaded, None, 0)]
                && collections == old(collections) + [|old(proxies)|]
      ensures err != NoError ==>
                err == CorruptedCollection && proxies == old(proxies) && collections == old(collections)
                && byName == old(byName) && byId == old(byId)
    {
      var h, addErr := AddCollection(info.ctype, info.name, info.cid, Some(file));
      if h.None? {
        return CorruptedCollection;
      }
      ghost var added := Contents();
      Store(h.value, proxies[h.value].WithState(ProxyState(Unloaded, None, Some(file))));
      AddedWithState(old(Contents()), added, info.ctype, info.name, info.cid, ProxyState(Corrupted, None, Some(file)),
                     ProxyState(Unloaded, None, Some(file)), h, addErr);
      return NoError;
    }

    /** ScanPath: scans the entries of the database directory in order,
        registering every live document collection as unloaded, observing
        every identifier read, and wiping or renaming the directories of
        deleted collections. A collection whose name or identifier is taken
        aborts the scan; `failed` is then the entry that did. */
    method ScanPath(entries: seq<DirEntry>) returns (err: ErrorCode, ghost failed: nat)
      requires Valid() && CidsInRange(entries)
      modifies this`proxies, this`collections, this`byName, this`byId, this`fsOps, ticks
      ensures Valid()
      ensures err == NoError || err == CorruptedCollection
      ensures err == NoError ==>
                ScanReached(path, removeOnDrop, entries, old(ticks.current), old(fsOps), old(proxies), old(collections),
                            ticks.current, fsOps, proxies, collections)
      ensures err == CorruptedCollection ==>
                failed < |entries| && Action(path, removeOnDrop, entries[failed]).Register?
                && (entries[failed].parameters.info.name in byName || entries[failed].parameters.info.cid in byId)
                && ScanStopped(path, removeOnDrop, entries, failed, old(ticks.current), old(fsOps), old(proxies), old(collections),
                               ticks.current, fsOps, proxies, collections)
    {
      var i := 0;
      failed := 0;
      while i < |entries|
        invariant 0 <= i <= |entries|
        invariant Valid()
        invariant ScannedUpTo(entries, i, old(ticks.current), old(fsOps), old(proxies), old(collections))
      {
        err := ScanNext(entries, i, old(ticks.current), old(fsOps), old(proxies), old(collections));
        if err != NoError {
          return err, i;
        }
        i := i + 1;
      }
      assert entries[..i] == entries;
      err := NoError;
    }

    /** The state after the first `i` entries have been scanned without
        error, starting from tick counter `c`, disk changes `ops`, table
        `ps` and list `cs`. */
    ghost predicate ScannedUpTo(entries: seq<DirEntry>, i: nat, c: nat, ops: seq<FsOp>, ps: seq<Proxy>, cs: seq<Handle>)
      requires i <= |entries|
      reads this`fsOps, this`proxies, this`collections, this`removeOnDrop, ticks
    {
      ScanReached(path, removeOnDrop, entries[..i], c, ops, ps, cs, ticks.current, fsOps, proxies, collections)
    }

    /** One turn of ScanPath's loop, on entry `i`. */
    method ScanNext(entries: seq<DirEntry>, i: nat, ghost c: nat, ghost ops: seq<FsOp>, ghost ps: seq<Proxy>, ghost cs: seq<Handle>)
      returns (err: ErrorCode)
      requires Valid() && CidsInRange(entries) && i < |entries|
      requires ScannedUpTo(entries, i, c, ops, ps, cs)
      modifies this`proxies, this`collections, this`byName, this`byId, this`fsOps, ticks
      ensures Valid()
      ensures err == NoError ==> ScannedUpTo(entries, i + 1, c, ops, ps, cs)
      ensures err != NoError ==>
                err == CorruptedCollection && Action(path, removeOnDrop, entries[i]).Register?
                && (entries[i].parameters.info.name in byName || entries[i].parameters.info.cid in byId)
                && ScanStopped(path, removeOnDrop, entries, i, c, ops, ps, cs, ticks.current, fsOps, proxies, collections)
    {
      ghost var tick0, fs0, ps0, cs0 := ticks.current, fsOps, proxies, collections;
      err := ScanEntry(entries[i]);
      if err == NoError {
        ScanReachedOneMore(path, removeOnDrop, entries, i, c, ops, ps, cs, tick0, fs0, ps0, cs0,
                           ticks.current, fsOps, proxies, collections);
      } else {
        ScanOneMore(path, removeOnDrop, c, entries, i);
      }
    }

    /** TRI_OpenVocBase: checks the database directory and its lock file,
        scans the directory and activates the database. `lockedByOther` is
        whether the lock file is held by a live process, `lockError` the
        outcome of creating the lock file. */
    static method OpenVocBase(path: string, pathIsDirectory: bool, lockedByOther: bool, lockError: ErrorCode,
                              ticks: TickGenerator, entries: seq<DirEntry>)
      returns (db: Database?, err: ErrorCode, ghost failed: nat, ghost lostOps: seq<FsOp>)
      requires ticks.Valid() && CidsInRange(entries)
      modifies ticks
      ensures !pathIsDirectory ==> db == null && err == WrongVocBasePath
      ensures pathIsDirectory && lockedByOther ==> db == null && err == DatabaseLocked
      ensures pathIsDirectory && !lockedByOther && lockError != NoError ==> db == null && err == lockError
      ensures !pathIsDirectory || lockedByOther || lockError != NoError ==> ticks.current == old(ticks.current)
      ensures db == null && pathIsDirectory && !lockedByOther && lockError == NoError ==>
                err == CorruptedCollection && ScanFailed(path, entries, failed, old(ticks.current), ticks.current, lostOps)
      ensures db != null ==>
                fresh(db) && db.Valid() && err == NoError && db.state == 1 && db.removeOnDrop
                && db.path == path && db.ticks == ticks && db.deadCollections == []
                && ScanReached(path, true, entries, old(ticks.current), [], [], [], ticks.current, db.fsOps, db.proxies, db.collections)
    {
      failed, lostOps := 0, [];
      if !pathIsDirectory {
        return null, WrongVocBasePath, failed, lostOps;
      }
      if lockedByOther {
        return null, DatabaseLocked, failed, lostOps;
      }
      if lockError != NoError {
        return null, lockError, failed, lostOps;
      }
      db, err, failed, lostOps := ScanNewVocBase(path, ticks, entries);
    }

    /** The part of TRI_OpenVocBase after the lock file is taken: a new
        database (which removes dropped collections) scans its directory
        and, unless the scan failed, is activated. */
    static method ScanNewVocBase(path: string, ticks: TickGenerator, entries: seq<DirEntry>)
      returns (db: Database?, err: ErrorCode, ghost failed: nat, ghost lostOps: seq<FsOp>)
      requires ticks.Valid() && CidsInRange(entries)
      modifies ticks
      ensures db == null ==> err == CorruptedCollection && ScanFailed(path, entries, failed, old(ticks.current), ticks.current, lostOps)
      ensures db != null ==>
                fresh(db) && db.Valid() && err == NoError && db.state == 1 && db.removeOnDrop
                && db.path == path && db.ticks == ticks && db.deadCollections == []
                && ScanReached(path, true, entries, old(ticks.current), [], [], [], ticks.current, db.fsOps, db.proxies, db.collections)
    {
      var d := new Database(path, ticks);
      var res;
      res, failed := d.ScanPath(entries);
      lostOps := d.fsOps;
      if res != NoError {
        return null, res, failed, lostOps;
      }
      d.Activate();
      return d, NoError, failed, lostOps;
    }

    /** The end of TRI_OpenVocBase: the database is marked open. */
    method Activate()
      modifies this`state
      ensures state == 1
    {
      state := 1;
    }

    /** TRI_DestroyVocBase: starts the unloading of every listed collection,
        then moves the database through its two shutdown states. Freeing the
        proxies is not modelled. */
    method DestroyVocBase()
      requires Valid() && forall i :: 0 <= i < |collections| ==> proxies[collections[i]].readers == 0
      modifies this`proxies, this`state
      ensures Valid() && state == 3 && |proxies| == |old(proxies)|
      ensures forall h :: 0 <= h < |proxies| ==>
                proxies[h] == if h in collections then AfterUnload(old(proxies)[h]) else old(proxies)[h]
    {
      var i := 0;
      while i < |collections|
        invariant 0 <= i <= |collections|
        invariant Valid() && state == old(state) && |proxies| == |old(proxies)|
        invariant forall h :: 0 <= h < |proxies| ==>
                    proxies[h] == if h in collections[..i] then AfterUnload(old(proxies)[h]) else old(proxies)[h]
      {
        var h := collections[i];
        assert h !in collections[..i];
        var unloadErr := UnloadCollection(h);
        assert collections[..i + 1] == collections[..i] + [h];
        i := i + 1;
      }
      assert collections[..i] == collections;
      // the synchroniser and compactor do their last pass
      state := 2;
      // then the cleanup thread does its last pass
      state := 3;
    }
  }
}
