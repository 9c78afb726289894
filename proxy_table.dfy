/** The collection proxies of a database (`TRI_vocbase_col_t`,
    arangod/VocBase/vocbase.h) and the invariant that ties the proxy table to
    the list of collections, the dead list and the two indexes, with one
    lemma for each kind of change the registry makes. */
module ProxyTable {
  import opened Chars
  import opened VocBaseTypes
  import opened Lifecycle
  import opened Vectors
  import opened Unregistration

  /** A pointer to a `TRI_vocbase_col_t`: its index in the proxy table. */
  type Handle = nat

  /** `TRI_vocbase_col_t`: the record through which a collection is found,
      loaded, unloaded, renamed and dropped. `readers` is the number of
      status read locks its users hold. */
  datatype Proxy = Proxy(cid: nat, ctype: ColType, name: string, path: Option<string>,
                         status: Status, live: Option<LiveCollection>, readers: nat)
  {
    /** The part of the proxy its status lock guards. */
    function State(): ProxyState { ProxyState(status, live, path) }

    /** The proxy with the part its status lock guards replaced. */
    function WithState(s: ProxyState): (p: Proxy)
      ensures p.State() == s && p.cid == cid && p.ctype == ctype && p.name == name && p.readers == readers
    {
      this.(status := s.status, live := s.live, path := s.path)
    }
  }

  /** The registry as a value: the proxy table, the list of collections
      (`_collections`), the dead list (`_deadCollections`) and the two
      indexes (`_collectionsByName`, `_collectionsById`). */
  datatype Registry = Registry(proxies: seq<Proxy>, collections: seq<Handle>, dead: seq<Handle>,
                               byName: map<string, Handle>, byId: map<nat, Handle>)

  /** A proxy keeps the status invariant, and only a loaded collection has
      users: the write lock that changes the status waits for them. */
  predicate ProxyOk(p: Proxy) {
    ProxyInvariant(p.State()) && (p.readers > 0 ==> p.status == Loaded)
  }

  /** The registry invariant: every proxy keeps the status invariant; the
      list has no duplicates; dead proxies are deleted; the indexes hold
      exactly the proxies that are not deleted, each under its own name and
      identifier, and those are all listed. */
  ghost predicate RegistryInvariant(r: Registry) {
    Listed(r.proxies, r.collections) && DeadAreDeleted(r.proxies, r.dead) && AllOk(r.proxies)
    && NamesIndexed(r.proxies, r.byName) && IdsIndexed(r.proxies, r.byId)
    && LiveAreIndexed(r.proxies, r.collections, r.byName, r.byId)
  }

  /** The list has no duplicates and holds handles of the table. */
  ghost predicate Listed(ps: seq<Proxy>, collections: seq<Handle>) {
    NoDuplicates(collections) && forall i :: 0 <= i < |collections| ==> collections[i] < |ps|
  }

  ghost predicate DeadAreDeleted(ps: seq<Proxy>, dead: seq<Handle>) {
    forall i :: 0 <= i < |dead| ==> dead[i] < |ps| && ps[dead[i]].status == Deleted
  }

  ghost predicate AllOk(ps: seq<Proxy>) {
    forall h :: 0 <= h < |ps| ==> ProxyOk(ps[h])
  }

  /** Every name indexes a proxy of that name that is not deleted. */
  ghost predicate NamesIndexed(ps: seq<Proxy>, byName: map<string, Handle>) {
    forall n :: n in byName ==> byName[n] < |ps| && ps[byName[n]].name == n && ps[byName[n]].status != Deleted
  }

  /** Every identifier indexes a proxy with that identifier that is not
      deleted. */
  ghost predicate IdsIndexed(ps: seq<Proxy>, byId: map<nat, Handle>) {
    forall c :: c in byId ==> byId[c] < |ps| && ps[byId[c]].cid == c && ps[byId[c]].status != Deleted
  }

  /** Every proxy that is not deleted is listed and indexed under its name
      and its identifier. */
  ghost predicate LiveAreIndexed(ps: seq<Proxy>, collections: seq<Handle>, byName: map<string, Handle>,
                                 byId: map<nat, Handle>) {
    forall h :: 0 <= h < |ps| && ps[h].status != Deleted ==>
      h in collections
      && ps[h].name in byName && byName[ps[h].name] == h
      && ps[h].cid in byId && byId[ps[h].cid] == h
  }

  /** The identifier index holds exactly the listed proxies that are not
      deleted. */
  lemma IndexedAreListed(r: Registry)
    requires RegistryInvariant(r)
    ensures forall h :: h in r.byId.Values <==> h in r.collections && h < |r.proxies| && r.proxies[h].status != Deleted
  {
    forall h | h in r.collections && h < |r.proxies| && r.proxies[h].status != Deleted
      ensures h in r.byId.Values
    {
      assert r.byId[r.proxies[h].cid] == h;
    }
  }

  // The lemmas below carry the invariant across the kinds of change the
  // operations make.

  /** Changing a proxy without renaming it and without moving it into or out
      of the deleted status keeps the invariant. */
  lemma UpdateKeepsInvariant(r: Registry, h: Handle, p: Proxy)
    requires RegistryInvariant(r) && h < |r.proxies| && ProxyOk(p)
    requires p.name == r.proxies[h].name && p.cid == r.proxies[h].cid
    requires p.status == Deleted <==> r.proxies[h].status == Deleted
    ensures RegistryInvariant(r.(proxies := r.proxies[h := p]))
  {
  }

  /** Appending a proxy that is not deleted, under a free name and a free
      identifier, keeps the invariant. */
  lemma AppendKeepsInvariant(r: Registry, p: Proxy)
    requires RegistryInvariant(r) && ProxyOk(p) && p.status != Deleted
    requires p.name !in r.byName && p.cid !in r.byId
    ensures var h := |r.proxies|;
            RegistryInvariant(Registry(r.proxies + [p], r.collections + [h], r.dead,
                                       r.byName[p.name := h], r.byId[p.cid := h]))
  {
    assert |r.proxies| !in r.collections;
  }

  /** Marking a proxy deleted and taking it out of the indexes keeps the
      invariant. */
  lemma RetireKeepsInvariant(r: Registry, h: Handle, live: Option<LiveCollection>)
    requires RegistryInvariant(r) && h < |r.proxies| && r.proxies[h].readers == 0
    ensures var p := r.proxies[h];
            RegistryInvariant(r.(proxies := r.proxies[h := p.(status := Deleted, live := live)],
                                 byName := Unbind(r.byName, p.name, h), byId := Unbind(r.byId, p.cid, h)))
  {
    RetireKeepsProxiesOk(r.proxies, h, live);
    RetireKeepsNames(r.proxies, r.byName, h, live);
    RetireKeepsIds(r.proxies, r.byId, h, live);
    RetireKeepsLiveIndexed(r.proxies, r.collections, r.byName, r.byId, h, live);
  }

  lemma RetireKeepsProxiesOk(ps: seq<Proxy>, h: Handle, live: Option<LiveCollection>)
    requires AllOk(ps) && h < |ps| && ps[h].readers == 0
    ensures AllOk(ps[h := ps[h].(status := Deleted, live := live)])
  {
    var ps' := ps[h := ps[h].(status := Deleted, live := live)];
    forall g | 0 <= g < |ps'|
      ensures ProxyOk(ps'[g])
    {
      if g != h {
        assert ps'[g] == ps[g];
      }
    }
  }

  lemma RetireKeepsNames(ps: seq<Proxy>, byName: map<string, Handle>, h: Handle, live: Option<LiveCollection>)
    requires NamesIndexed(ps, byName) && h < |ps|
    ensures NamesIndexed(ps[h := ps[h].(status := Deleted, live := live)], Unbind(byName, ps[h].name, h))
  {
    var ps' := ps[h := ps[h].(status := Deleted, live := live)];
    var byName' := Unbind(byName, ps[h].name, h);
    forall n | n in byName'
      ensures byName'[n] < |ps'| && ps'[byName'[n]].name == n && ps'[byName'[n]].status != Deleted
    {
      assert n in byName && byName'[n] == byName[n] != h;
    }
  }

  lemma RetireKeepsIds(ps: seq<Proxy>, byId: map<nat, Handle>, h: Handle, live: Option<LiveCollection>)
    requires IdsIndexed(ps, byId) && h < |ps|
    ensures IdsIndexed(ps[h := ps[h].(status := Deleted, live := live)], Unbind(byId, ps[h].cid, h))
  {
    var ps' := ps[h := ps[h].(status := Deleted, live := live)];
    var byId' := Unbind(byId, ps[h].cid, h);
    forall c | c in byId'
      ensures byId'[c] < |ps'| && ps'[byId'[c]].cid == c && ps'[byId'[c]].status != Deleted
    {
      assert c in byId && byId'[c] == byId[c] != h;
    }
  }

  lemma RetireKeepsLiveIndexed(ps: seq<Proxy>, collections: seq<Handle>, byName: map<string, Handle>,
                               byId: map<nat, Handle>, h: Handle, live: Option<LiveCollection>)
    requires LiveAreIndexed(ps, collections, byName, byId) && h < |ps|
    requires NamesIndexed(ps, byName) && IdsIndexed(ps, byId)
    ensures var ps' := ps[h := ps[h].(status := Deleted, live := live)];
            LiveAreIndexed(ps', collections, Unbind(byName, ps[h].name, h), Unbind(byId, ps[h].cid, h))
  {
    var ps' := ps[h := ps[h].(status := Deleted, live := live)];
    var byName' := Unbind(byName, ps[h].name, h);
    var byId' := Unbind(byId, ps[h].cid, h);
    forall g | 0 <= g < |ps'| && ps'[g].status != Deleted
      ensures g in collections && ps'[g].name in byName' && byName'[ps'[g].name] == g
              && ps'[g].cid in byId' && byId'[ps'[g].cid] == g
    {
      assert g != h && ps'[g] == ps[g];
    }
  }

  /** Moving a deleted proxy from the list to the dead list keeps the
      invariant. */
  lemma BuryKeepsInvariant(r: Registry, h: Handle)
    requires RegistryInvariant(r) && h < |r.proxies| && r.proxies[h].status == Deleted
    ensures RegistryInvariant(r.(collections := RemoveFirst(r.collections, h), dead := r.dead + [h]))
  {
    var rest := RemoveFirst(r.collections, h);
    RemoveFirstNoDuplicates(r.collections, h);
    forall i | 0 <= i < |rest|
      ensures rest[i] < |r.proxies|
    {
      assert rest[i] in r.collections;
    }
  }

  /** Filing a proxy that is not deleted under a free new name keeps the
      invariant. */
  lemma RenameKeepsInvariant(r: Registry, h: Handle, newName: string)
    requires RegistryInvariant(r) && h < |r.proxies| && r.proxies[h].status != Deleted && newName !in r.byName
    ensures var p := r.proxies[h];
            RegistryInvariant(r.(proxies := r.proxies[h := p.(name := newName)],
                                 byName := (r.byName - {p.name})[newName := h]))
  {
  }
}
