/**
 Replacing the values of an input map or result map by their UUIDs, and the
 view of a proxy-keyed store as a map keyed by erased values.
 */
module ProxyMaps {
  import opened Fields
  import opened SerializedStore
  import opened UuidTable

  ghost predicate Covered(t: Table, pm: ProxyMap) {
    forall n :: n in pm ==> pm[n] in t
  }

  /** The values that a proxy map stands for. */
  ghost function Decode(t: Table, pm: ProxyMap): (m: AnyMap)
    requires Covered(t, pm)
    ensures m.Keys == pm.Keys
  {
    map n | n in pm :: t[pm[n]]
  }

  ghost predicate IsProxyOf(t: Table, pm: ProxyMap, m: AnyMap) {
    Covered(t, pm) && Decode(t, pm) == m
  }

  /** Proxying is injective: in a one-to-one table two input maps have the same
      proxy map exactly when they have the same names with equal values. */
  lemma ProxyIsInjective(t: Table, pm1: ProxyMap, pm2: ProxyMap, m1: AnyMap, m2: AnyMap)
    requires OneToOne(t) && IsProxyOf(t, pm1, m1) && IsProxyOf(t, pm2, m2)
    ensures pm1 == pm2 <==> m1 == m2
  {
    if m1 == m2 {
      forall n | n in pm1
        ensures n in pm2 && pm1[n] == pm2[n]
      {
        assert n in m1 && m1[n] == t[pm1[n]];
        assert n in m2 && m2[n] == t[pm2[n]];
      }
      assert pm1.Keys == m1.Keys == m2.Keys == pm2.Keys;
    }
  }

  /** Proxying is stable: growth of the table by any cache keeps every proxy. */
  lemma ProxyIsStable(t: Table, t': Table, pm: ProxyMap)
    requires Grows(t, t') && Covered(t, pm)
    ensures Covered(t', pm) && Decode(t', pm) == Decode(t, pm)
  {
  }

  // -------------------------------------------------------- views of a store

  ghost predicate InjectiveOn<A(!new), B(!new)>(f: A -> B, keys: set<A>) {
    forall x, y :: x in keys && y in keys && f(x) == f(y) ==> x == y
  }

  /** `m` with every key `x` replaced by `f(x)`. */
  ghost function Rekey<A(!new), B(!new), V>(m: map<A, V>, f: A -> B): (r: map<B, V>)
    requires InjectiveOn(f, m.Keys)
    ensures forall x :: x in m ==> f(x) in r && r[f(x)] == m[x]
    ensures forall k :: k in r ==> exists x :: x in m && f(x) == k
  {
    map x | x in m :: f(x) := m[x]
  }

  lemma RekeyUpdate<A(!new), B(!new), V>(m: map<A, V>, f: A -> B, x: A, v: V)
    requires InjectiveOn(f, m.Keys + {x})
    ensures Rekey(m[x := v], f) == Rekey(m, f)[f(x) := v]
  {
    var a, b := Rekey(m[x := v], f), Rekey(m, f)[f(x) := v];
    assert x in m[x := v];
    forall k | k in a
      ensures k in b && a[k] == b[k]
    {
      var y :| y in m[x := v] && f(y) == k;
    }
    forall k | k in b
      ensures k in a
    {
      if k != f(x) {
        var y :| y in m && f(y) == k;
        assert y in m[x := v];
      }
    }
    assert a.Keys == b.Keys;
  }

  lemma RekeySame<A(!new), B(!new), V>(m: map<A, V>, f: A -> B, g: A -> B)
    requires InjectiveOn(f, m.Keys) && forall x :: x in m ==> f(x) == g(x)
    ensures InjectiveOn(g, m.Keys) && Rekey(m, f) == Rekey(m, g)
  {
    var a, b := Rekey(m, f), Rekey(m, g);
    forall k | k in a
      ensures k in b && a[k] == b[k]
    {
      var y :| y in m && f(y) == k;
    }
    forall k | k in b
      ensures k in a
    {
      var y :| y in m && g(y) == k;
    }
    assert a.Keys == b.Keys;
  }

  ghost predicate AllCovered<V>(t: Table, store: map<ProxyMap, V>) {
    forall pm :: pm in store ==> Covered(t, pm)
  }

  ghost function Decoder(t: Table): ProxyMap -> AnyMap {
    pm => if Covered(t, pm) then Decode(t, pm) else map[]
  }

  /** The map from erased values that a proxy-keyed store represents. */
  ghost function ViewOf<V>(t: Table, store: map<ProxyMap, V>): map<AnyMap, V>
    requires OneToOne(t) && AllCovered(t, store)
  {
    DecoderInjective(t, store.Keys);
    Rekey(store, Decoder(t))
  }

  lemma DecoderInjective(t: Table, keys: set<ProxyMap>)
    requires OneToOne(t) && forall pm :: pm in keys ==> Covered(t, pm)
    ensures InjectiveOn(Decoder(t), keys)
  {
    forall p, q | p in keys && q in keys && Decoder(t)(p) == Decoder(t)(q)
      ensures p == q
    {
      ProxyIsInjective(t, p, q, Decode(t, p), Decode(t, q));
    }
  }

  /** Looking a map up by its proxy map is looking it up in the view. */
  lemma {:induction false} ViewAt<V>(t: Table, store: map<ProxyMap, V>, pm: ProxyMap, m: AnyMap)
    requires OneToOne(t) && AllCovered(t, store) && IsProxyOf(t, pm, m)
    ensures m in ViewOf(t, store) <==> pm in store
    ensures pm in store ==> ViewOf(t, store)[m] == store[pm]
  {
    var view := ViewOf(t, store);
    assert Decoder(t)(pm) == m;
    if m in view {
      var q :| q in store && Decoder(t)(q) == m;
      ProxyIsInjective(t, pm, q, m, m);
    }
  }

  lemma ViewUpdate<V>(t: Table, store: map<ProxyMap, V>, pm: ProxyMap, m: AnyMap, v: V)
    requires OneToOne(t) && AllCovered(t, store) && IsProxyOf(t, pm, m)
    ensures AllCovered(t, store[pm := v])
    ensures ViewOf(t, store[pm := v]) == ViewOf(t, store)[m := v]
  {
    DecoderInjective(t, store.Keys + {pm});
    RekeyUpdate(store, Decoder(t), pm, v);
  }

  lemma ViewEmpty<V>(t: Table)
    requires OneToOne(t)
    ensures var none: map<ProxyMap, V> := map[];
            AllCovered(t, none) && ViewOf(t, none) == map[]
  {
    var none: map<ProxyMap, V> := map[];
    assert forall k :: k !in ViewOf(t, none);
  }

  lemma ViewRemove<V>(t: Table, store: map<ProxyMap, V>, pm: ProxyMap, m: AnyMap)
    requires OneToOne(t) && AllCovered(t, store) && IsProxyOf(t, pm, m)
    ensures AllCovered(t, store - {pm})
    ensures ViewOf(t, store - {pm}) == ViewOf(t, store) - {m}
  {
    var a, b := ViewOf(t, store - {pm}), ViewOf(t, store) - {m};
    DecoderInjective(t, store.Keys + {pm});
    assert Decoder(t)(pm) == m;
    forall k | k in a || k in b
      ensures k in a && k in b && a[k] == b[k]
    {
      var q :| q in store && Decoder(t)(q) == k;
      assert q != pm;
      assert q in store - {pm};
    }
    assert a.Keys == b.Keys;
  }

  /** Growth of the shared table is invisible in every view. */
  lemma ViewIsStable<V>(t: Table, t': Table, store: map<ProxyMap, V>)
    requires Grows(t, t') && OneToOne(t) && OneToOne(t') && AllCovered(t, store)
    ensures AllCovered(t', store)
    ensures ViewOf(t', store) == ViewOf(t, store)
  {
    forall pm | pm in store
      ensures Covered(t', pm) && Decoder(t')(pm) == Decoder(t)(pm)
    {
      ProxyIsStable(t, t', pm);
    }
    DecoderInjective(t, store.Keys);
    RekeySame(store, Decoder(t), Decoder(t'));
  }

  // ---------------------------------------------------------- ProxyMapMaker

  /** Each remembered map is decoded by the proxy map it is remembered under. */
  ghost predicate Remembers(t: Table, buffer: map<ProxyMap, map<Name, Field>>) {
    forall pm :: pm in buffer ==> IsProxyOf(t, pm, Erase(buffer[pm]))
  }

  lemma RemembersIsStable(t: Table, t': Table, buffer: map<ProxyMap, map<Name, Field>>)
    requires Grows(t, t') && Remembers(t, buffer)
    ensures Remembers(t', buffer)
  {
    forall pm | pm in buffer
      ensures IsProxyOf(t', pm, Erase(buffer[pm]))
    {
      ProxyIsStable(t, t', pm);
    }
  }

  ghost predicate HasUuid(t: Table, a: Any) {
    exists u :: Assigned(t, a, u)
  }

  lemma HasUuidIsStable(t: Table, t': Table, a: Any)
    requires Grows(t, t') && HasUuid(t, a)
    ensures HasUuid(t', a)
  {
    var u :| Assigned(t, a, u);
    assert Assigned(t', a, u);
  }

  /** A map has a proxy map exactly when all its values have UUIDs. */
  lemma ProxyExists(t: Table, m: AnyMap)
    ensures (exists pm :: IsProxyOf(t, pm, m)) <==> (forall n :: n in m ==> HasUuid(t, m[n]))
  {
    if forall n :: n in m ==> HasUuid(t, m[n]) {
      var pm := map n | n in m :: (var u :| Assigned(t, m[n], u); u);
      assert Decode(t, pm) == m;
      assert IsProxyOf(t, pm, m);
    }
    if pm :| IsProxyOf(t, pm, m) {
      forall n | n in m
        ensures HasUuid(t, m[n])
      {
        assert Assigned(t, m[n], pm[n]);
      }
    }
  }

  ghost function ErasedOf(buffer: map<ProxyMap, map<Name, Field>>): set<AnyMap> {
    set pm | pm in buffer :: Erase(buffer[pm])
  }

  /** The values with UUIDs are those of before and those of the map. */
  lemma KnownAfter(t: Table, t': Table, key: map<Name, Field>)
    requires Grows(t, t') && forall n :: n in key ==> HasUuid(t', key[n].value)
    requires forall u :: u in t' && u !in t ==> t'[u] in Erase(key).Values
    ensures t'.Values == t.Values + Erase(key).Values
  {
    var m := Erase(key);
    forall a | a in t.Values
      ensures a in t'.Values
    {
      var u :| u in t && t[u] == a;
      assert t'[u] == a;
    }
    forall a | a in m.Values
      ensures a in t'.Values
    {
      var n :| n in m && m[n] == a;
      var u :| Assigned(t', key[n].value, u);
      assert t'[u] == a;
    }
    forall a | a in t'.Values
      ensures a in t.Values + m.Values
    {
      var u :| u in t' && t'[u] == a;
      assert u in t ==> t[u] in t.Values;
    }
  }

  lemma InsertedMore(was: map<ProxyMap, map<Name, Field>>, buffer: map<ProxyMap, map<Name, Field>>,
                     pm: ProxyMap, key: map<Name, Field>)
    requires pm in buffer && Erase(buffer[pm]) == Erase(key)
    requires buffer == if pm in was then was else was[pm := key]
    ensures ErasedOf(buffer) == ErasedOf(was) + {Erase(key)}
  {
    hide Erase;
    forall m
      ensures m in ErasedOf(buffer) <==> m in ErasedOf(was) + {Erase(key)}
    {
      if x :| x in buffer && Erase(buffer[x]) == m {
        assert x in was ==> was[x] == buffer[x];
      }
      if x :| x in was && Erase(was[x]) == m {
        assert x in buffer && buffer[x] == was[x];
      }
    }
  }

  /** A proxy map can be turned back exactly when a map with its values is
      remembered. */
  lemma RememberedIff(t: Table, buffer: map<ProxyMap, map<Name, Field>>, pm: ProxyMap, m: AnyMap)
    requires OneToOne(t) && Remembers(t, buffer) && IsProxyOf(t, pm, m)
    ensures pm in buffer <==> m in ErasedOf(buffer)
  {
    if k :| k in buffer && Erase(buffer[k]) == m {
      ProxyIsInjective(t, k, pm, m, m);
    }
  }

  lemma InsertedHasProxy(t: Table, buffer: map<ProxyMap, map<Name, Field>>, m: AnyMap)
    requires Remembers(t, buffer)
    ensures m in ErasedOf(buffer) ==> exists pm :: IsProxyOf(t, pm, m)
  {
  }

  class ProxyMapMaker {
    var buffer: map<ProxyMap, map<Name, Field>>
    const db: UuidMapper
    ghost const shared: Transposer

    constructor (db: UuidMapper)
      ensures this.db == db && shared == db.db.db && buffer == map[]
    {
      this.db := db;
      shared := db.db.db;
      buffer := map[];
    }

    ghost function Table(): Table
      reads shared.db
    {
      shared.Table()
    }

    ghost predicate Valid()
      reads this, shared, shared.db, shared.db.Disk()
    {
      shared == db.db.db && db.Valid() && Remembers(Table(), buffer)
    }

    /** The maps that have been inserted, up to equal values. */
    ghost function Inserted(): set<AnyMap>
      reads `buffer
    {
      ErasedOf(buffer)
    }

    method Count(key: map<Name, Field>) returns (found: bool)
      requires Valid()
      ensures found <==> exists pm :: IsProxyOf(Table(), pm, Erase(key))
    {
      var pm := At(key);
      found := pm.Some?;
      if pm.Some? {
        assert IsProxyOf(Table(), pm.value, Erase(key));
      }
    }

    /** None when some value has no UUID, where `at` throws. */
    method At(key: map<Name, Field>) returns (r: Option<ProxyMap>)
      requires Valid()
      ensures r.Some? ==> IsProxyOf(Table(), r.value, Erase(key))
      ensures r.None? ==> forall pm :: !IsProxyOf(Table(), pm, Erase(key))
    {
      var rv: ProxyMap := map[];
      var todo := key.Keys;
      while todo != {}
        invariant todo <= key.Keys && rv.Keys == key.Keys - todo
        invariant forall n :: n in rv ==> Assigned(Table(), key[n].value, rv[n])
        decreases todo
      {
        var n :| n in todo;
        var u := db.At(key[n]);
        if u.None? {
          forall pm
            ensures !IsProxyOf(Table(), pm, Erase(key))
          {
            assert n in pm ==> !Assigned(Table(), key[n].value, pm[n]);
          }
          return None;
        }
        rv := rv[n := u.value];
        todo := todo - {n};
      }
      assert Decode(Table(), rv) == Erase(key);
      return Some(rv);
    }

    /** The loop of `insert`: every value of `key` gets a UUID. */
    method AssignAll(key: map<Name, Field>)
      requires db.Valid() && shared == db.db.db
      modifies shared, shared.db
      ensures db.Valid() && Grows(old(Table()), Table())
      ensures forall n :: n in key ==> HasUuid(Table(), key[n].value)
      ensures forall u :: u in Table() && u !in old(Table()) ==> Table()[u] in Erase(key).Values
      ensures Table().Values == old(Table()).Values + Erase(key).Values
    {
      var todo := key.Keys;
      while todo != {}
        invariant todo <= key.Keys && db.Valid() && Grows(old(Table()), Table())
        invariant forall n :: n in key && n !in todo ==> HasUuid(Table(), key[n].value)
        invariant forall u :: u in Table() && u !in old(Table()) ==> Table()[u] in Erase(key).Values
        decreases todo
      {
        var n :| n in todo;
        ghost var before := Table();
        db.Insert(key[n]);
        assert n in Erase(key) && Erase(key)[n] == key[n].value;
        forall m | m in key && m !in todo
          ensures HasUuid(Table(), key[m].value)
        {
          HasUuidIsStable(before, Table(), key[m].value);
        }
        todo := todo - {n};
      }
      KnownAfter(old(Table()), Table(), key);
    }

    /** Gives every value of `key` a UUID and remembers which map the resulting
        proxy map came from, unless an earlier equal one is remembered. */
    method Insert(key: map<Name, Field>) returns (ghost pm: ProxyMap)
      requires Valid()
      modifies this, shared, shared.db
      ensures Valid() && Grows(old(Table()), Table())
      ensures IsProxyOf(Table(), pm, Erase(key))
      ensures forall u :: u in Table() && u !in old(Table()) ==> Table()[u] in Erase(key).Values
      ensures Table().Values == old(Table()).Values + Erase(key).Values
      ensures buffer == if pm in old(buffer) then old(buffer) else old(buffer)[pm := key]
      ensures Inserted() == old(Inserted()) + {Erase(key)}
    {
      ghost var was := buffer;
      AssignAll(key);
      RemembersIsStable(old(Table()), Table(), buffer);
      ProxyExists(Table(), Erase(key));
      ghost var w :| IsProxyOf(Table(), w, Erase(key));
      var proxies := At(key);
      assert IsProxyOf(Table(), w, Erase(key));
      pm := proxies.value;
      if proxies.value !in buffer {
        buffer := buffer[proxies.value := key];
      }
      InsertedMore(was, buffer, pm, key);
    }

    /** None where the lookup in the buffer throws. */
    method UnProxy(value: ProxyMap) returns (r: Option<map<Name, Field>>)
      requires Valid()
      ensures r == if value in buffer then Some(buffer[value]) else None
      ensures r.Some? ==> IsProxyOf(Table(), value, Erase(r.value))
    {
      r := if value in buffer then Some(buffer[value]) else None;
    }

    method Backup()
      requires Valid()
      modifies shared.db.Disk()
      ensures Valid()
      ensures shared.db.backup != null ==>
                shared.db.backup.Contents() == Over(old(shared.db.backup.Contents()), Table())
    {
      hide Serialized.Contents, Serialized.Valid;
      db.db.db.Backup();
    }
  }

  /** `un_proxy(at(m))` gives `m` back, up to equal values, exactly when this
      maker has been given such a map; UUIDs that another maker gave its values
      are not enough. */
  method AtThenUnProxy(maker: ProxyMapMaker, key: map<Name, Field>) returns (r: Option<map<Name, Field>>)
    requires maker.Valid()
    ensures r.Some? <==> Erase(key) in maker.Inserted()
    ensures r.Some? ==> Erase(r.value) == Erase(key)
  {
    hide Decode, Covered, Erase;
    var proxies := maker.At(key);
    if proxies.None? {
      InsertedHasProxy(maker.Table(), maker.buffer, Erase(key));
      return None;
    }
    r := maker.UnProxy(proxies.value);
    RememberedIff(maker.Table(), maker.buffer, proxies.value, Erase(key));
  }
}
