/** UnregisterCollection (arangod/VocBase/vocbase.c): taking a dropped
    collection out of the name and identifier indexes. The code removes both
    entries by key; when the name or identifier has meanwhile been given to
    another collection, that collection's entry goes instead. `Unbind` is the
    corrected removal the registry uses. */
module Unregistration {

  /** Every entry of an index is filed under the key its value carries. */
  predicate Keyed<K, V>(m: map<K, V>, key: V -> K) {
    forall k :: k in m ==> key(m[k]) == k
  }

  /** The two indexes hold the same collections. */
  ghost predicate IndexesAgree<V>(byName: map<string, V>, byId: map<nat, V>) {
    byName.Values == byId.Values
  }

  /** The code as written: both entries are removed by key, whatever they hold. */
  function UnregisterByKey<V>(byName: map<string, V>, byId: map<nat, V>, name: string, cid: nat): (map<string, V>, map<nat, V>)
  {
    (byName - {name}, byId - {cid})
  }

  /** Collection 2 is registered as "a" with identifier 20; collection 1 is
      a stale handle to an earlier collection "a" with identifier 10. */
  function SampleNameOf(v: int): string { "a" }
  function SampleIdOf(v: int): nat { if v == 1 then 10 else 20 }
  function SampleByName(): map<string, int> { map["a" := 2] }
  function SampleById(): map<nat, int> { map[20 := 2] }

  /** Dropping a collection a second time after its name was reused: stale
      collection 1 is dropped again once collection 2 has been created under
      the same name. The removal by key takes collection 2 out of the name
      index but leaves it in the identifier index, so the indexes no longer
      agree. */
  lemma RepeatedDropUnregistersSuccessor()
    ensures Keyed(SampleByName(), SampleNameOf) && Keyed(SampleById(), SampleIdOf)
            && IndexesAgree(SampleByName(), SampleById())
    ensures var (n, i) := UnregisterByKey(SampleByName(), SampleById(), SampleNameOf(1), SampleIdOf(1));
            "a" !in n && 20 in i && i[20] == 2 && !IndexesAgree(n, i)
  {
    var (n, i) := UnregisterByKey(SampleByName(), SampleById(), SampleNameOf(1), SampleIdOf(1));
    assert SampleByName().Values == {2} by { assert SampleByName()["a"] == 2; }
    assert SampleById().Values == {2} by { assert SampleById()[20] == 2; }
    assert i[20] == 2;
    assert 2 in i.Values;
    assert n == map[];
  }

  /** Dropping any stale collection `v` whose name has meanwhile been given
      to another collection `w`, with an identifier of its own: the removal by
      key takes `w` out of the name index but leaves it in the identifier
      index, so the indexes no longer agree. */
  lemma StaleDropUnregistersSuccessor<V>(byName: map<string, V>, byId: map<nat, V>,
                                         nameOf: V -> string, idOf: V -> nat, v: V)
    requires Keyed(byName, nameOf) && Keyed(byId, idOf) && IndexesAgree(byName, byId)
    requires nameOf(v) in byName && byName[nameOf(v)] != v
    requires idOf(byName[nameOf(v)]) != idOf(v)
    ensures var (n, i) := UnregisterByKey(byName, byId, nameOf(v), idOf(v));
            var w := byName[nameOf(v)];
            w !in n.Values && w in i.Values && i[idOf(w)] == w && !IndexesAgree(n, i)
  {
    var (n, i) := UnregisterByKey(byName, byId, nameOf(v), idOf(v));
    var w := byName[nameOf(v)];
    assert w in byId.Values;
    var k :| k in byId && byId[k] == w;
    assert idOf(w) == k;
    assert k in i;
  }

  /** Removes the entry under `k` only when it holds `v`. */
  function Unbind<K, V(==)>(m: map<K, V>, k: K, v: V): (r: map<K, V>)
    ensures forall j :: j in r ==> j in m && r[j] == m[j]
    ensures forall j :: j in m && m[j] != v ==> j in r
    ensures k !in r || r[k] != v
  {
    if k in m && m[k] == v then m - {k} else m
  }

  /** The corrected removal keeps both indexes keyed and in agreement, and
      takes out exactly the dropped collection, whether or not it was still
      registered. */
  lemma UnbindKeepsIndexesAgreeing<V>(byName: map<string, V>, byId: map<nat, V>,
                                          nameOf: V -> string, idOf: V -> nat, v: V)
    requires Keyed(byName, nameOf) && Keyed(byId, idOf) && IndexesAgree(byName, byId)
    ensures var n := Unbind(byName, nameOf(v), v);
            var i := Unbind(byId, idOf(v), v);
            Keyed(n, nameOf) && Keyed(i, idOf) && IndexesAgree(n, i)
            && n.Values == byName.Values - {v}
  {
    var n := Unbind(byName, nameOf(v), v);
    var i := Unbind(byId, idOf(v), v);
    forall w ensures w in n.Values <==> w in byName.Values && w != v {
      if w in byName.Values && w != v {
        var k :| k in byName && byName[k] == w;
        assert k in n;
      }
      if w in n.Values {
        var k :| k in n && n[k] == w;
        assert nameOf(w) == k;
      }
    }
    forall w ensures w in i.Values <==> w in byId.Values && w != v {
      if w in byId.Values && w != v {
        var k :| k in byId && byId[k] == w;
        assert k in i;
      }
      if w in i.Values {
        var k :| k in i && i[k] == w;
        assert idOf(w) == k;
      }
    }
  }
}
