/**
 One module's cache: keys are proxied (KeyProxyMapper) into an in-memory store
 (Native), which is flushed to a store shared by all modules (ValueProxyMapper
 over KeyInjector over Serialized).
 */
module ModuleCaches {
  import opened Fields
  import opened SerializedStore
  import opened UuidTable
  import opened ProxyMaps

  const RESERVED: Name := "__CACHE__ MODULE NAME __CACHE__"

  // ------------------------------------------------------------ KeyInjector

  /** `emplace` on a case-insensitive map: nothing happens if the name, in any
      case, is there already. */
  function Inject(m: ProxyMap, name: Name, value: Uuid): (r: ProxyMap) {
    if HasName(m, name) then m else m[name := value]
  }

  ghost predicate Reserved(m: ProxyMap) {
    HasName(m, RESERVED)
  }

  /** Keys without the reserved name are separated by module and, within one
      module, kept apart. */
  lemma InjectSeparates(m1: ProxyMap, m2: ProxyMap, v1: Uuid, v2: Uuid)
    requires !Reserved(m1) && !Reserved(m2)
    ensures Inject(m1, RESERVED, v1) == Inject(m2, RESERVED, v2) <==> m1 == m2 && v1 == v2
  {
    assert RESERVED !in m1 && RESERVED !in m2;
    var a, b := Inject(m1, RESERVED, v1), Inject(m2, RESERVED, v2);
    assert a - {RESERVED} == m1 && b - {RESERVED} == m2;
    assert a[RESERVED] == v1 && b[RESERVED] == v2;
  }

  /** A key that carries the reserved name, in any case, is the same entry for
      every module. */
  lemma ReservedNameIsShared(m: ProxyMap, v1: Uuid, v2: Uuid)
    ensures Reserved(m) <==> Inject(m, RESERVED, v1) == Inject(m, RESERVED, v2) == m
  {
    if !Reserved(m) {
      assert RESERVED !in m;
      assert RESERVED in Inject(m, RESERVED, v1);
    }
  }

  class KeyInjector {
    const name: Name
    const value: Uuid
    const db: Serialized<ProxyMap, ProxyMap>

    constructor (name: Name, value: Uuid, db: Serialized<ProxyMap, ProxyMap>)
      ensures this.name == name && this.value == value && this.db == db
    {
      this.name, this.value, this.db := name, value, db;
    }

    /** What this module finds under `key` in the shared store. */
    ghost function Lookup(key: ProxyMap): Option<ProxyMap>
      requires db.Valid()
      reads db.db
    {
      SerializedStore.Lookup(db.Contents(), Inject(key, name, value))
    }

    method Count(key: ProxyMap) returns (found: bool)
      requires db.Valid()
      ensures found <==> Lookup(key).Some?
    {
      found := db.Count(Inject(key, name, value));
    }

    method Insert(key: ProxyMap, v: ProxyMap)
      requires db.Valid()
      modifies db.db
      ensures db.Valid()
      ensures AgreeOff(db.Contents(), old(db.Contents()), {Inject(key, name, value)})
      ensures db.Recorded() == Recording(old(db.Recorded()), Inject(key, name, value), db.Pieces(v))
      ensures SamePieces(old(db.Recorded()), Inject(key, name, value), db.Pieces(v)) ==>
                db.Contents() == old(db.Contents())[Inject(key, name, value) := v]
    {
      db.Insert(Inject(key, name, value), v);
    }

    method Free(key: ProxyMap)
      requires db.Valid()
      modifies db.db
      ensures db.Valid()
      ensures AgreeOff(db.Contents(), old(db.Contents()), {Inject(key, name, value)})
      ensures Lookup(key).None? <==> !old(db.Leftover(Inject(key, name, value)))
    {
      db.Free(Inject(key, name, value));
    }

    method At(key: ProxyMap) returns (v: Option<ProxyMap>)
      requires db.Valid()
      ensures v == Lookup(key)
    {
      v := db.At(Inject(key, name, value));
    }
  }

  /** Two modules that share the store cannot see each other's insertions. */
  method InsertIsIsolated(mine: KeyInjector, theirs: KeyInjector, key: ProxyMap, v: ProxyMap, k: ProxyMap)
    returns (before: Option<ProxyMap>, after: Option<ProxyMap>)
    requires mine.db == theirs.db && mine.db.Valid()
    requires mine.name == theirs.name == RESERVED && mine.value != theirs.value
    requires !Reserved(key) && !Reserved(k)
    modifies mine.db.db
    ensures mine.db.Valid()
    ensures after == before == old(theirs.Lookup(k)) == theirs.Lookup(k)
  {
    hide Serialized.Contents, Serialized.Valid, Serialized.Recorded, Inject;
    InjectSeparates(key, k, mine.value, theirs.value);
    before := theirs.At(k);
    mine.Insert(key, v);
    after := theirs.At(k);
  }

  /** Nor what the other one frees. */
  method FreeIsIsolated(mine: KeyInjector, theirs: KeyInjector, key: ProxyMap, k: ProxyMap)
    returns (before: Option<ProxyMap>, after: Option<ProxyMap>)
    requires mine.db == theirs.db && mine.db.Valid()
    requires mine.name == theirs.name == RESERVED && mine.value != theirs.value
    requires !Reserved(key) && !Reserved(k)
    modifies mine.db.db
    ensures mine.db.Valid()
    ensures after == before == old(theirs.Lookup(k)) == theirs.Lookup(k)
  {
    hide Serialized.Contents, Serialized.Valid, Serialized.Recorded, Inject;
    InjectSeparates(key, k, mine.value, theirs.value);
    before := theirs.At(k);
    mine.Free(key);
    after := theirs.At(k);
  }

  // ------------------------------------------------------- ValueProxyMapper

  /** What a flush can change: the table, the shared store and the numbers of
      pieces it remembers, and which proxy maps this mapper can decode. */
  datatype LongTermState = LongTermState(
    table: Table,
    store: imap<ProxyMap, ProxyMap>,
    recorded: imap<ProxyMap, nat>,
    decodable: set<ProxyMap>)

  class ValueProxyMapper {
    const proxyMapper: ProxyMapMaker
    const subDb: KeyInjector

    constructor (proxyMapper: ProxyMapMaker, subDb: KeyInjector)
      ensures this.proxyMapper == proxyMapper && this.subDb == subDb
    {
      this.proxyMapper, this.subDb := proxyMapper, subDb;
    }

    ghost predicate Valid()
      reads proxyMapper, proxyMapper.shared, proxyMapper.shared.db, proxyMapper.shared.db.Disk(), subDb.db.db
    {
      && proxyMapper.Valid() && subDb.db.Valid() && subDb.name == RESERVED
      && subDb.db.db !in proxyMapper.shared.db.Disk()
    }

    /** The store that all modules share. */
    ghost function LongTerm(): imap<ProxyMap, ProxyMap>
      requires Valid()
      reads proxyMapper, proxyMapper.shared, proxyMapper.shared.db, proxyMapper.shared.db.Disk(), subDb.db.db
    {
      subDb.db.Contents()
    }

    ghost function Snapshot(): LongTermState
      requires Valid()
      reads proxyMapper, proxyMapper.shared, proxyMapper.shared.db, proxyMapper.shared.db.Disk(), subDb.db.db
    {
      LongTermState(proxyMapper.Table(), LongTerm(), subDb.db.Recorded(), proxyMapper.buffer.Keys)
    }

    method Count(key: ProxyMap) returns (found: bool)
      requires Valid()
      ensures found <==> subDb.Lookup(key).Some?
    {
      found := subDb.Count(key);
    }

    /** The result map goes to the long-term store as the map of its UUIDs. */
    method Insert(key: ProxyMap, value: ResultMap) returns (ghost stored: ProxyMap)
      requires Valid()
      modifies proxyMapper, proxyMapper.shared, proxyMapper.shared.db, subDb.db.db
      ensures Valid() && Grows(old(proxyMapper.Table()), proxyMapper.Table())
      ensures IsProxyOf(proxyMapper.Table(), stored, Erase(value))
      ensures old(proxyMapper.buffer).Keys + {stored} == proxyMapper.buffer.Keys
      ensures proxyMapper.Inserted() == old(proxyMapper.Inserted()) + {Erase(value)}
      ensures proxyMapper.Table().Values == old(proxyMapper.Table()).Values + Erase(value).Values
      ensures AgreeOff(LongTerm(), old(LongTerm()), {Inject(key, RESERVED, subDb.value)})
      ensures subDb.db.Recorded()
              == Recording(old(subDb.db.Recorded()), Inject(key, RESERVED, subDb.value), subDb.db.Pieces(stored))
      ensures SamePieces(old(subDb.db.Recorded()), Inject(key, RESERVED, subDb.value), subDb.db.Pieces(stored)) ==>
                LongTerm() == old(LongTerm())[Inject(key, RESERVED, subDb.value) := stored]
    {
      hide Serialized.Valid, Serialized.Contents, Serialized.Recorded, Serialized.Pieces, Decode, Covered, Inject;
      stored := proxyMapper.Insert(value);
      var proxies := proxyMapper.At(value);
      assert IsProxyOf(proxyMapper.Table(), stored, Erase(value));
      ProxyIsInjective(proxyMapper.Table(), stored, proxies.value, Erase(value), Erase(value));
      subDb.Insert(key, proxies.value);
    }

    /** Missing key, or a proxy map this mapper did not write: `at` throws. */
    method At(key: ProxyMap) returns (value: Option<ResultMap>)
      requires Valid()
      ensures var found := Lookup(LongTerm(), Inject(key, RESERVED, subDb.value));
              && (value.Some? <==> found.Some? && found.value in proxyMapper.buffer)
              && (value.Some? ==> IsProxyOf(proxyMapper.Table(), found.value, Erase(value.value)))
    {
      var proxies := subDb.At(key);
      match proxies
      case None => value := None;
      case Some(pm) => value := proxyMapper.UnProxy(pm);
    }
  }

  // ----------------------------------------- Native<proxy_map, result_map>

  /** A module's in-memory results. */
  class ResultNative {
    var entries: map<ProxyMap, ResultMap>
    const backup: ValueProxyMapper?

    constructor (backup: ValueProxyMapper?)
      ensures entries == map[] && this.backup == backup
    {
      entries := map[];
      this.backup := backup;
    }

    method Count(key: ProxyMap) returns (found: bool)
      ensures found <==> key in entries
    {
      found := key in entries;
    }

    method Insert(key: ProxyMap, value: ResultMap)
      modifies `entries
      ensures entries == old(entries)[key := value]
    {
      entries := entries[key := value];
    }

    method Free(key: ProxyMap)
      modifies `entries
      ensures entries == old(entries) - {key}
    {
      entries := entries - {key};
    }

    method At(key: ProxyMap) returns (value: Option<ResultMap>)
      ensures value == if key in entries then Some(entries[key]) else None
    {
      value := if key in entries then Some(entries[key]) else None;
    }

    /** The objects that flushing writes to. */
    ghost function Targets(): set<object> {
      if backup == null then {}
      else {backup.proxyMapper, backup.proxyMapper.shared, backup.proxyMapper.shared.db, backup.subDb.db.db}
    }

    /** `backup_` then `clear`. */
    method Dump() returns (ghost stored: map<ProxyMap, ProxyMap>)
      requires backup != null ==> backup.Valid()
      modifies this, Targets()
      ensures entries == map[]
      ensures backup != null ==>
                && backup.Valid() && stored.Keys == old(entries).Keys
                && Flushed(old(backup.Snapshot()), backup.Snapshot(), backup.subDb, old(entries), stored)
                && backup.proxyMapper.Inserted() <= old(backup.proxyMapper.Inserted()) + ErasedOf(old(entries))
                && backup.proxyMapper.Table().Values
                   == old(backup.proxyMapper.Table()).Values + ResultValues(old(entries), old(entries).Keys)
    {
      hide Flushed, Serialized.Valid, Serialized.Contents, Serialized.Recorded, Remembers, OneToOne;
      hide ErasedOf, ResultValues, UuidNative.PlainBackup;
      stored := Backup();
      entries := map[];
    }

    /** Pushes every entry into the long-term store; `stored` is what was
        written under each key. */
    method Backup() returns (ghost stored: map<ProxyMap, ProxyMap>)
      requires backup != null ==> backup.Valid()
      modifies Targets()
      ensures backup != null ==>
                && backup.Valid() && stored.Keys == entries.Keys
                && Flushed(old(backup.Snapshot()), backup.Snapshot(), backup.subDb, entries, stored)
                && backup.proxyMapper.Inserted() <= old(backup.proxyMapper.Inserted()) + ErasedOf(entries)
                && backup.proxyMapper.Table().Values
                   == old(backup.proxyMapper.Table()).Values + ResultValues(entries, entries.Keys)
    {
      hide Decode, Covered, Grows, IsProxyOf, StandsFor, AgreeOff, Injected, Arrived;
      hide Serialized.Valid, Serialized.Contents, Serialized.Recorded, Recording, SamePieces, Inject;
      hide ResultValues, Erase, ErasedOf, Remembers, OneToOne, UuidNative.PlainBackup, Flushed, Learned;
      stored := map[];
      if backup == null { return; }
      ghost var before, was := backup.Snapshot(), backup.proxyMapper.Inserted();
      FlushStart(before, backup.subDb, entries);
      NothingLearned(was, before.table, entries);
      var todo := entries.Keys;
      while todo != {}
        invariant todo <= entries.Keys && stored.Keys == entries.Keys - todo
        invariant backup.Valid()
        invariant Flushed(before, backup.Snapshot(), backup.subDb, entries, stored)
        invariant Learned(was, backup.proxyMapper.Inserted(), before.table, backup.proxyMapper.Table(), entries,
                          entries.Keys - todo)
        decreases todo
      {
        var k :| k in todo;
        ghost var now, inserted := backup.Snapshot(), backup.proxyMapper.Inserted();
        ghost var p := backup.Insert(k, entries[k]);
        FlushStep(before, now, backup.Snapshot(), backup.subDb, entries, stored, k, p);
        LearnOne(was, inserted, backup.proxyMapper.Inserted(), before.table, now.table, backup.proxyMapper.Table(),
                 entries, todo, k);
        stored := stored[k := p];
        todo := todo - {k};
      }
      AllLearned(was, backup.proxyMapper.Inserted(), before.table, backup.proxyMapper.Table(), entries,
                 entries.Keys - todo);
    }
  }

  /** What flushing the results under `keys` adds to what a mapper can decode and to
      the values with UUIDs. */
  ghost predicate Learned(was: set<AnyMap>, inserted: set<AnyMap>, t: Table, t': Table,
                          entries: map<ProxyMap, ResultMap>, keys: set<ProxyMap>) {
    inserted <= was + ErasedOf(entries) && t'.Values == t.Values + ResultValues(entries, keys)
  }

  lemma NothingLearned(was: set<AnyMap>, t: Table, entries: map<ProxyMap, ResultMap>)
    ensures Learned(was, was, t, t, entries, entries.Keys - entries.Keys)
  {
    assert ResultValues(entries, entries.Keys - entries.Keys) == {};
  }

  lemma LearnOne(was: set<AnyMap>, before: set<AnyMap>, after: set<AnyMap>, t: Table, t1: Table, t2: Table,
                 entries: map<ProxyMap, ResultMap>, todo: set<ProxyMap>, k: ProxyMap)
    requires Learned(was, before, t, t1, entries, entries.Keys - todo) && k in todo && k in entries
    requires after == before + {Erase(entries[k])} && t2.Values == t1.Values + Erase(entries[k]).Values
    ensures Learned(was, after, t, t2, entries, entries.Keys - (todo - {k}))
  {
    OneMoreResult(entries, entries.Keys - todo, k);
    assert entries.Keys - (todo - {k}) == entries.Keys - todo + {k};
    hide Erase, ResultValues;
  }

  lemma AllLearned(was: set<AnyMap>, inserted: set<AnyMap>, t: Table, t': Table,
                   entries: map<ProxyMap, ResultMap>, keys: set<ProxyMap>)
    requires Learned(was, inserted, t, t', entries, keys) && keys == entries.Keys
    ensures inserted <= was + ErasedOf(entries) && t'.Values == t.Values + ResultValues(entries, entries.Keys)
  {
  }

  /** The values of the results under some keys. */
  ghost function ResultValues(entries: map<ProxyMap, ResultMap>, keys: set<ProxyMap>): set<Any> {
    set k, n | k in keys && k in entries && n in entries[k] :: entries[k][n].value
  }

  lemma OneMoreResult(entries: map<ProxyMap, ResultMap>, keys: set<ProxyMap>, k: ProxyMap)
    requires k in entries
    ensures ResultValues(entries, keys + {k}) == ResultValues(entries, keys) + Erase(entries[k]).Values
  {
    var e := Erase(entries[k]);
    forall a
      ensures a in e.Values <==> exists n :: n in entries[k] && entries[k][n].value == a
    {
      if a in e.Values {
        var n :| n in e && e[n] == a;
      }
      forall n | n in entries[k] && entries[k][n].value == a
        ensures a in e.Values
      {
        assert n in e && e[n] == a;
      }
    }
  }

  lemma FlushStart(before: LongTermState, target: KeyInjector, entries: map<ProxyMap, ResultMap>)
    ensures Flushed(before, before, target, entries, map[])
  {
  }

  lemma FlushStep(before: LongTermState, now: LongTermState, next: LongTermState, target: KeyInjector,
                  entries: map<ProxyMap, ResultMap>, stored: map<ProxyMap, ProxyMap>, k: ProxyMap, p: ProxyMap)
    requires Flushed(before, now, target, entries, stored) && k in entries && k !in stored
    requires Grows(now.table, next.table) && IsProxyOf(next.table, p, Erase(entries[k]))
    requires next.decodable == now.decodable + {p}
    requires var q := Inject(k, RESERVED, target.value);
             && AgreeOff(next.store, now.store, {q})
             && next.recorded == Recording(now.recorded, q, target.db.Pieces(p))
             && (SamePieces(now.recorded, q, target.db.Pieces(p)) ==> next.store == now.store[q := p])
    ensures Flushed(before, next, target, entries, stored[k := p])
  {
    hide Arrived, Recording, SamePieces, Inject, Injected, AgreeOff, IsProxyOf, Reserved;
    FlushStepTable(now.table, next.table, entries, stored, k, p);
    var q := Inject(k, RESERVED, target.value);
    RecordingAgrees(now.recorded, q, target.db.Pieces(p));
    assert stored[k := p].Keys == stored.Keys + {k};
    AgreeMore(before.store, now.store, next.store, stored.Keys, k, target.value);
    AgreeMore(before.recorded, now.recorded, next.recorded, stored.Keys, k, target.value);
    if NoneReserved(entries.Keys) {
      FlushStepArrived(before, now, next, target, entries, stored, k, p);
    }
  }

  lemma FlushStepArrived(before: LongTermState, now: LongTermState, next: LongTermState, target: KeyInjector,
                         entries: map<ProxyMap, ResultMap>, stored: map<ProxyMap, ProxyMap>, k: ProxyMap, p: ProxyMap)
    requires NoneReserved(entries.Keys) && stored.Keys + {k} <= entries.Keys && k !in stored
    requires AllArrived(before, now, target, stored)
    requires AgreeOff(now.recorded, before.recorded, Injected(stored.Keys, target.value))
    requires var q := Inject(k, RESERVED, target.value);
             && AgreeOff(next.store, now.store, {q})
             && next.recorded == Recording(now.recorded, q, target.db.Pieces(p))
             && (SamePieces(now.recorded, q, target.db.Pieces(p)) ==> next.store == now.store[q := p])
    ensures AllArrived(before, next, target, stored[k := p])
  {
    hide Arrived, Recording, SamePieces, Inject, Injected, AgreeOff, Reserved;
    RecordingAgrees(now.recorded, Inject(k, RESERVED, target.value), target.db.Pieces(p));
    var more := stored[k := p];
    forall x | x in more.Keys
      ensures Arrived(before, next, target, x, more[x])
    {
      if x == k {
        ArrivesNow(before, now, next, target, stored.Keys, k, p);
      } else {
        StaysArrived(before, now, next, target, x, stored[x], k);
      }
    }
  }

  lemma FlushStepTable(t: Table, t': Table, entries: map<ProxyMap, ResultMap>, stored: map<ProxyMap, ProxyMap>,
                       k: ProxyMap, p: ProxyMap)
    requires Grows(t, t') && StandsFor(t, stored, entries) && k in entries && IsProxyOf(t', p, Erase(entries[k]))
    ensures StandsFor(t', stored[k := p], entries)
  {
    forall x | x in stored && x != k
      ensures IsProxyOf(t', stored[x], Erase(entries[x]))
    {
      ProxyIsStable(t, t', stored[x]);
    }
  }

  lemma RecordingAgrees<K(!new)>(rec: imap<K, nat>, k: K, n: nat)
    ensures AgreeOff(Recording(rec, k, n), rec, {k})
    ensures SamePieces(rec, k, n) ==> SamePieces(Recording(rec, k, n), k, n)
  {
  }

  lemma AgreeMore<V>(before: imap<ProxyMap, V>, now: imap<ProxyMap, V>, next: imap<ProxyMap, V>,
                     keys: set<ProxyMap>, k: ProxyMap, uuid: Uuid)
    requires AgreeOff(now, before, Injected(keys, uuid)) && AgreeOff(next, now, {Inject(k, RESERVED, uuid)})
    ensures AgreeOff(next, before, Injected(keys + {k}, uuid))
  {
    hide Inject;
    forall q | q !in Injected(keys + {k}, uuid)
      ensures Lookup(next, q) == Lookup(before, q)
    {
      assert k in keys + {k};
      assert forall x :: x in keys ==> x in keys + {k};
      assert q !in Injected(keys, uuid) && q != Inject(k, RESERVED, uuid);
    }
  }

  lemma ArrivesNow(before: LongTermState, now: LongTermState, next: LongTermState, target: KeyInjector,
                   keys: set<ProxyMap>, k: ProxyMap, p: ProxyMap)
    requires NoneReserved(keys + {k}) && k !in keys
    requires AgreeOff(now.recorded, before.recorded, Injected(keys, target.value))
    requires var q := Inject(k, RESERVED, target.value);
             && next.recorded == Recording(now.recorded, q, target.db.Pieces(p))
             && (SamePieces(now.recorded, q, target.db.Pieces(p)) ==> next.store == now.store[q := p])
    ensures Arrived(before, next, target, k, p)
  {
    var q := Inject(k, RESERVED, target.value);
    assert q !in Injected(keys, target.value) by {
      forall x | x in keys
        ensures Inject(x, RESERVED, target.value) != q
      {
        assert x in keys + {k} && k in keys + {k};
        InjectSeparates(x, k, target.value, target.value);
      }
    }
    hide Inject, Injected;
    assert Lookup(now.recorded, q) == Lookup(before.recorded, q);
    RecordingAgrees(now.recorded, q, target.db.Pieces(p));
  }

  lemma StaysArrived(before: LongTermState, now: LongTermState, next: LongTermState, target: KeyInjector,
                     x: ProxyMap, p: ProxyMap, k: ProxyMap)
    requires Arrived(before, now, target, x, p) && x != k && !Reserved(x) && !Reserved(k)
    requires AgreeOff(next.store, now.store, {Inject(k, RESERVED, target.value)})
    requires AgreeOff(next.recorded, now.recorded, {Inject(k, RESERVED, target.value)})
    ensures Arrived(before, next, target, x, p)
  {
    InjectSeparates(x, k, target.value, target.value);
    hide Inject;
    var q := Inject(x, RESERVED, target.value);
    assert Lookup(next.store, q) == Lookup(now.store, q);
    assert Lookup(next.recorded, q) == Lookup(now.recorded, q);
  }

  /** The proxies of the results in `stored` have been pushed under this module's
      keys; other modules' entries are as before. */
  ghost predicate Flushed(before: LongTermState, after: LongTermState, target: KeyInjector,
                          entries: map<ProxyMap, ResultMap>, stored: map<ProxyMap, ProxyMap>) {
    && Grows(before.table, after.table)
    && before.decodable <= after.decodable && stored.Values <= after.decodable
    && StandsFor(after.table, stored, entries)
    && AgreeOff(after.store, before.store, Injected(stored.Keys, target.value))
    && AgreeOff(after.recorded, before.recorded, Injected(stored.Keys, target.value))
    && (NoneReserved(entries.Keys) ==> AllArrived(before, after, target, stored))
  }

  ghost predicate AllArrived(before: LongTermState, after: LongTermState, target: KeyInjector,
                             stored: map<ProxyMap, ProxyMap>) {
    forall k :: k in stored ==> Arrived(before, after, target, k, stored[k])
  }

  lemma FlushedGrows(before: LongTermState, after: LongTermState, target: KeyInjector,
                     entries: map<ProxyMap, ResultMap>, stored: map<ProxyMap, ProxyMap>)
    requires Flushed(before, after, target, entries, stored)
    ensures Grows(before.table, after.table)
  {
  }

  /** A proxy map arrives unless the store remembers another number of pieces for
      its key; then it would arrive again.  Nothing is remembered for a key that
      has not been flushed in this session. */
  ghost predicate Arrived(before: LongTermState, after: LongTermState, target: KeyInjector, k: ProxyMap, p: ProxyMap) {
    var q := Inject(k, RESERVED, target.value);
    SamePieces(before.recorded, q, target.db.Pieces(p)) ==>
      Lookup(after.store, q) == Some(p) && SamePieces(after.recorded, q, target.db.Pieces(p))
  }

  /** `stored[k]` is the proxy map of `entries[k]`. */
  ghost predicate StandsFor(t: Table, stored: map<ProxyMap, ProxyMap>, entries: map<ProxyMap, ResultMap>) {
    forall k :: k in stored ==> k in entries && IsProxyOf(t, stored[k], Erase(entries[k]))
  }

  ghost predicate NoneReserved(keys: set<ProxyMap>) {
    forall k :: k in keys ==> !Reserved(k)
  }

  ghost function Injected(keys: set<ProxyMap>, uuid: Uuid): set<ProxyMap> {
    set k | k in keys :: Inject(k, RESERVED, uuid)
  }

  /** Independent databases touch each other's footprint in the shared objects
      only. */
  lemma FootprintsMeet(c: KeyProxyMapper, d: KeyProxyMapper)
    requires Independent(c, d)
    ensures c.Private() !! d.Footprint()
    ensures BackendObjects(c.Shared(), c.LongTerm()) !! BackendObjects(d.Shared(), d.LongTerm()) ==>
              BackendObjects(c.Shared(), c.LongTerm()) !! d.Footprint()
  {
  }

  // ---------------------------------------------- reading the long-term store

  ghost predicate ReadsAt(s: LongTermState, uuid: Uuid, pm: ProxyMap, value: AnyMap) {
    var found := Lookup(s.store, Inject(pm, RESERVED, uuid));
    found.Some? && found.value in s.decodable && IsProxyOf(s.table, found.value, value)
  }

  /** The module `uuid` finds a result with the values `value` under `key`. */
  ghost predicate Reads(s: LongTermState, uuid: Uuid, key: AnyMap, value: AnyMap) {
    exists pm :: !Reserved(pm) && IsProxyOf(s.table, pm, key) && ReadsAt(s, uuid, pm, value)
  }

  lemma ProxyStays(t: Table, t': Table, pm: ProxyMap, m: AnyMap)
    requires Grows(t, t') && IsProxyOf(t, pm, m)
    ensures IsProxyOf(t', pm, m)
  {
    ProxyIsStable(t, t', pm);
  }

  /** A result can be read as long as the table and the mapper's memory grow and
      its entry stays. */
  lemma StaysReadable(s: LongTermState, s': LongTermState, uuid: Uuid, key: AnyMap, value: AnyMap)
    requires Grows(s.table, s'.table) && s.decodable <= s'.decodable && Reads(s, uuid, key, value)
    requires forall pm :: !Reserved(pm) && IsProxyOf(s.table, pm, key) ==>
               Lookup(s'.store, Inject(pm, RESERVED, uuid)) == Lookup(s.store, Inject(pm, RESERVED, uuid))
    ensures Reads(s', uuid, key, value)
  {
    hide IsProxyOf, Reserved, Grows, Inject;
    var pm :| !Reserved(pm) && IsProxyOf(s.table, pm, key) && ReadsAt(s, uuid, pm, value);
    ProxyStays(s.table, s'.table, pm, key);
    ProxyStays(s.table, s'.table, Lookup(s.store, Inject(pm, RESERVED, uuid)).value, value);
    assert ReadsAt(s', uuid, pm, value);
  }

  /** After a flush, what arrived can be read. */
  lemma FlushedIsReadable(before: LongTermState, after: LongTermState, target: KeyInjector,
                          entries: map<ProxyMap, ResultMap>, stored: map<ProxyMap, ProxyMap>, k: ProxyMap, key: AnyMap)
    requires Flushed(before, after, target, entries, stored) && NoneReserved(entries.Keys) && k in stored
    requires SamePieces(before.recorded, Inject(k, RESERVED, target.value), target.db.Pieces(stored[k]))
    requires IsProxyOf(before.table, k, key)
    ensures Reads(after, target.value, key, Erase(entries[k]))
  {
    hide IsProxyOf, Reserved, Grows, Inject, SamePieces;
    FlushedGrows(before, after, target, entries, stored);
    assert Arrived(before, after, target, k, stored[k]);
    ProxyStays(before.table, after.table, k, key);
    assert k in entries && stored[k] in stored.Values;
    assert ReadsAt(after, target.value, k, Erase(entries[k]));
  }

  /** A flush leaves readable whatever it does not write again, for any mapper that
      uses this table and store; `known` is what that mapper can decode. */
  lemma FlushKeepsReadable(before: LongTermState, after: LongTermState, target: KeyInjector,
                           entries: map<ProxyMap, ResultMap>, stored: map<ProxyMap, ProxyMap>,
                           known: set<ProxyMap>, known': set<ProxyMap>, uuid: Uuid, key: AnyMap, value: AnyMap)
    requires Flushed(before, after, target, entries, stored) && NoneReserved(entries.Keys)
    requires Reads(before.(decodable := known), uuid, key, value) && known <= known'
    requires uuid != target.value || forall pm :: IsProxyOf(before.table, pm, key) ==> pm !in entries
    ensures Reads(after.(decodable := known'), uuid, key, value)
  {
    hide IsProxyOf, Reserved, Inject;
    forall pm | !Reserved(pm) && IsProxyOf(before.table, pm, key)
      ensures Lookup(after.store, Inject(pm, RESERVED, uuid)) == Lookup(before.store, Inject(pm, RESERVED, uuid))
    {
      forall x | x in stored.Keys
        ensures Inject(x, RESERVED, target.value) != Inject(pm, RESERVED, uuid)
      {
        assert x in entries;
        InjectSeparates(x, pm, target.value, uuid);
      }
    }
    FlushedGrows(before, after, target, entries, stored);
    StaysReadable(before.(decodable := known), after.(decodable := known'), uuid, key, value);
  }

  // ------------------------------------------------- decoding from the disk

  /** The UUIDs on disk are enough to turn the stored map `p` into `m`. */
  ghost predicate Decodes(disk: imap<Uuid, Any>, p: ProxyMap, m: AnyMap) {
    p.Keys == m.Keys && forall n :: n in p ==> p[n] in disk && disk[p[n]] == m[n]
  }

  ghost predicate AllHaveUuids(t: Table, m: AnyMap) {
    forall n :: n in m ==> HasUuid(t, m[n])
  }

  /** The UUIDs issued between two tables are not on disk. */
  ghost predicate NewOnDisk(old_: Table, new_: Table, disk: imap<Uuid, Any>) {
    forall u :: u in new_ && u !in old_ ==> u !in disk
  }

  /** The UUID table reaches the disk before the results are given their UUIDs.
      So a flushed result can be decoded from the disk alone exactly when all of
      its values had a UUID before the flush: a value that appears for the first
      time as a result is stored under a UUID that the disk does not know. */
  lemma DecodableFromDisk(old_: Table, new_: Table, disk: imap<Uuid, Any>, stored: ProxyMap, result: AnyMap)
    requires Grows(old_, new_) && OneToOne(new_) && IsProxyOf(new_, stored, result) && NewOnDisk(old_, new_, disk)
    ensures Decodes(Over(disk, old_), stored, result) <==> AllHaveUuids(old_, result)
  {
    forall n | n in stored
      ensures stored[n] in Over(disk, old_) && Over(disk, old_)[stored[n]] == result[n] <==> HasUuid(old_, result[n])
    {
      assert Assigned(new_, result[n], stored[n]);
      if HasUuid(old_, result[n]) {
        OldUuidIsKept(old_, new_, result[n], stored[n]);
      }
      if stored[n] in old_ {
        assert Assigned(old_, result[n], stored[n]);
      }
    }
  }

  lemma OldUuidIsKept(old_: Table, new_: Table, a: Any, u: Uuid)
    requires Grows(old_, new_) && OneToOne(new_) && HasUuid(old_, a) && Assigned(new_, a, u)
    ensures u in old_
  {
    var w :| Assigned(old_, a, w);
    ScanIsStable(old_, new_, a, w, u);
  }

  /** What a flush leaves decodable. */
  ghost predicate DecodableIffKnown(old_: Table, disk: imap<Uuid, Any>, entries: map<ProxyMap, ResultMap>,
                                    stored: map<ProxyMap, ProxyMap>) {
    forall k :: k in stored && k in entries ==>
      (Decodes(disk, stored[k], Erase(entries[k])) <==> AllHaveUuids(old_, Erase(entries[k])))
  }

  lemma FlushDecodes(before: LongTermState, after: LongTermState, target: KeyInjector,
                     entries: map<ProxyMap, ResultMap>, stored: map<ProxyMap, ProxyMap>, disk: imap<Uuid, Any>)
    requires Flushed(before, after, target, entries, stored)
    requires OneToOne(after.table) && NewOnDisk(before.table, after.table, disk)
    ensures DecodableIffKnown(before.table, Over(disk, before.table), entries, stored)
  {
    FlushedGrows(before, after, target, entries, stored);
    forall k | k in stored && k in entries
      ensures Decodes(Over(disk, before.table), stored[k], Erase(entries[k]))
              <==> AllHaveUuids(before.table, Erase(entries[k]))
    {
      DecodableFromDisk(before.table, after.table, disk, stored[k], Erase(entries[k]));
    }
  }

  // --------------------------------------------------------- KeyProxyMapper

  /** The objects of the two pieces that caches share. */
  ghost function BackendObjects(table: Transposer, longTerm: Serialized?<ProxyMap, ProxyMap>): set<object> {
    {table, table.db} + table.db.Disk() + if longTerm == null then {} else {longTerm.db}
  }

  /** Two databases come from the same backend or share no backend object. */
  ghost predicate SameOrApart(t1: Transposer, s1: Serialized?<ProxyMap, ProxyMap>,
                              t2: Transposer, s2: Serialized?<ProxyMap, ProxyMap>) {
    (t1 == t2 && s1 == s2) || BackendObjects(t1, s1) !! BackendObjects(t2, s2)
  }

  ghost predicate Independent(c: KeyProxyMapper, d: KeyProxyMapper) {
    c.Private() !! d.Private() && SameOrApart(c.Shared(), c.LongTerm(), d.Shared(), d.LongTerm())
  }

  /** What a cache finds under proxied keys, and which result values it can read
      under which values. */
  datatype DiskView = DiskView(found: imap<ProxyMap, ProxyMap>, readable: iset<(AnyMap, AnyMap)>)

  ghost function DiskOf(s: LongTermState, uuid: Uuid): DiskView {
    DiskView(imap pm | !Reserved(pm) && Lookup(s.store, Inject(pm, RESERVED, uuid)).Some? ::
               Lookup(s.store, Inject(pm, RESERVED, uuid)).value,
             iset key, value | Reads(s, uuid, key, value) :: (key, value))
  }

  lemma KeepsItself(d: DiskView)
    ensures Keeps(d, d)
  {
  }

  lemma FoundIsKept(s: LongTermState, s': LongTermState, uuid: Uuid)
    requires Grows(s.table, s'.table) && s.decodable <= s'.decodable
    requires forall pm :: !Reserved(pm) ==>
               Lookup(s'.store, Inject(pm, RESERVED, uuid)) == Lookup(s.store, Inject(pm, RESERVED, uuid))
    ensures Keeps(DiskOf(s, uuid), DiskOf(s', uuid))
  {
    hide Reads, Reserved, Inject, IsProxyOf;
    forall key, value | Reads(s, uuid, key, value)
      ensures Reads(s', uuid, key, value)
    {
      StaysReadable(s, s', uuid, key, value);
    }
  }

  /** Nothing that was found has changed, nothing that could be read is lost. */
  ghost predicate Keeps(d: DiskView, d': DiskView) {
    d'.found == d.found && d.readable <= d'.readable
  }

  /** What can be read under a key that `held` does not have stays readable. */
  ghost predicate KeepsBut(d: DiskView, d': DiskView, held: map<AnyMap, ResultMap>) {
    forall key, value :: (key, value) in d.readable && key !in held ==> (key, value) in d'.readable
  }

  lemma AllKept(d: DiskView, held: map<AnyMap, ResultMap>)
    ensures KeepsBut(d, d, held)
  {
  }

  lemma ReadingsStayIn(s: LongTermState, s': LongTermState, target: KeyInjector, entries: map<ProxyMap, ResultMap>,
                       stored: map<ProxyMap, ProxyMap>, known: set<ProxyMap>, known': set<ProxyMap>, uuid: Uuid)
    requires OneToOne(s.table) && AllCovered(s.table, entries) && known <= known'
    requires Flushed(s, s', target, entries, stored) && NoneReserved(entries.Keys)
    ensures KeepsBut(DiskOf(s.(decodable := known), uuid), DiskOf(s'.(decodable := known'), uuid),
                     ViewOf(s.table, entries))
  {
    hide Flushed, NoneReserved, Reads, ViewOf, AllCovered, OneToOne;
    forall key, value | Reads(s.(decodable := known), uuid, key, value) && key !in ViewOf(s.table, entries)
      ensures Reads(s'.(decodable := known'), uuid, key, value)
    {
      NotHeld(s.table, entries, key);
      FlushKeepsReadable(s, s', target, entries, stored, known, known', uuid, key, value);
    }
  }

  lemma NotHeld(t: Table, entries: map<ProxyMap, ResultMap>, key: AnyMap)
    requires OneToOne(t) && AllCovered(t, entries) && key !in ViewOf(t, entries)
    ensures forall pm :: IsProxyOf(t, pm, key) ==> pm !in entries
  {
    hide IsProxyOf, ViewOf;
    forall pm | IsProxyOf(t, pm, key)
      ensures pm !in entries
    {
      ViewAt(t, entries, pm, key);
    }
  }

  class KeyProxyMapper {
    const proxyMapper: ProxyMapMaker
    const subDb: ResultNative

    constructor (proxyMapper: ProxyMapMaker, subDb: ResultNative)
      ensures this.proxyMapper == proxyMapper && this.subDb == subDb
    {
      this.proxyMapper, this.subDb := proxyMapper, subDb;
    }

    /** The objects that no other cache uses. */
    ghost function Private(): set<object> {
      {proxyMapper, subDb} + if subDb.backup == null then {} else {subDb.backup.proxyMapper}
    }

    /** The UUID table, shared by every cache of one factory. */
    ghost function Shared(): Transposer {
      proxyMapper.shared
    }

    ghost function Disks(): set<object> {
      Shared().db.Disk() + if subDb.backup == null then {} else {subDb.backup.subDb.db.db}
    }

    ghost function LongTerm(): Serialized?<ProxyMap, ProxyMap> {
      if subDb.backup == null then null else subDb.backup.subDb.db
    }

    /** The values of the results that this cache has flushed. */
    ghost function Written(): set<AnyMap>
      reads if subDb.backup == null then {} else {subDb.backup.proxyMapper}
    {
      if subDb.backup == null then {} else subDb.backup.proxyMapper.Inserted()
    }

    ghost function Footprint(): set<object> {
      Private() + BackendObjects(Shared(), LongTerm())
    }

    ghost predicate Valid()
      reads Footprint()
    {
      && proxyMapper.Valid()
      && AllCovered(proxyMapper.Table(), subDb.entries)
      && (subDb.backup != null ==>
            && subDb.backup.proxyMapper.shared == proxyMapper.shared
            && subDb.backup.proxyMapper != proxyMapper
            && subDb.backup.Valid())
    }

    /** Everything that a flush writes to belongs to this database. */
    lemma FlushStaysInside()
      requires Valid()
      ensures {subDb} + subDb.Targets() + Disks() <= Footprint()
    {
      hide ProxyMapMaker.Valid, Serialized.Valid, AllCovered;
    }

    ghost function Table(): Table
      reads Shared().db
    {
      proxyMapper.Table()
    }

    /** The cache as a plain map from erased input maps to result maps. */
    ghost function View(): map<AnyMap, ResultMap>
      requires Valid()
      reads Footprint()
    {
      ViewOf(Table(), subDb.entries)
    }

    method Count(key: InputMap) returns (found: bool)
      requires Valid()
      ensures found <==> Erase(key) in View()
    {
      var known := proxyMapper.Count(key);
      if !known {
        UnknownIsAbsent(key);
        return false;
      }
      ghost var t := Table();
      ghost var w :| IsProxyOf(t, w, Erase(key));
      var pm := proxyMapper.At(key);
      assert Table() == t && IsProxyOf(t, w, Erase(key));
      found := subDb.Count(pm.value);
      ViewAt(Table(), subDb.entries, pm.value, Erase(key));
    }

    lemma UnknownIsAbsent(key: InputMap)
      requires Valid() && forall pm :: !IsProxyOf(Table(), pm, Erase(key))
      ensures Erase(key) !in View()
    {
      if Erase(key) in View() {
        var pm :| pm in subDb.entries && Decoder(Table())(pm) == Erase(key);
        assert IsProxyOf(Table(), pm, Erase(key));
      }
    }

    /** What other caches do to the shared objects does not disturb this one:
        the table grows, the long-term store stays valid, and that is all. */
    twostate lemma Undisturbed()
      requires old(Valid()) && unchanged(Private())
      requires Shared().Valid() && Shared().InOrder() && Grows(old(Table()), Table())
      requires subDb.backup != null ==> subDb.backup.subDb.db.Valid()
      ensures Valid() && View() == old(View())
    {
      hide Decode, Covered, Serialized.Valid, Serialized.Contents, Serialized.Recorded, Remembers, Reserved;
      hide UuidNative.PlainBackup, OneToOne;
      RemembersIsStable(old(Table()), Table(), proxyMapper.buffer);
      if subDb.backup != null {
        RemembersIsStable(old(Table()), Table(), subDb.backup.proxyMapper.buffer);
      }
      ViewIsStable(old(Table()), Table(), subDb.entries);
    }

    /** An operation on an independent `c` leaves this database valid with the
        same view, even when both grow the same UUID table. */
    twostate lemma UndisturbedBy(c: KeyProxyMapper)
      requires old(c.Valid()) && old(Valid()) && Independent(c, this)
      requires c.Valid() && Grows(old(c.Table()), c.Table())
      requires unchanged(Private())
      requires BackendObjects(c.Shared(), c.LongTerm()) !! BackendObjects(Shared(), LongTerm()) ==>
                 unchanged(BackendObjects(Shared(), LongTerm()))
      ensures Valid() && View() == old(View()) && Grows(old(Table()), Table())
    {
      hide Serialized.Valid, Serialized.Contents, Remembers, View;
      Undisturbed();
    }

    method Insert(key: InputMap, value: ResultMap)
      requires Valid()
      modifies proxyMapper, Shared(), Shared().db, subDb
      ensures Valid() && Grows(old(Table()), Table())
      ensures forall u :: u in Table() && u !in old(Table()) ==> Table()[u] in Erase(key).Values
      ensures Table().Values == old(Table()).Values + Erase(key).Values
      ensures View() == old(View())[Erase(key) := value]
    {
      hide Decode, Covered, Serialized.Valid, Serialized.Contents, Remembers, ViewOf;
      ghost var entries := subDb.entries;
      ghost var w := proxyMapper.Insert(key);
      if subDb.backup != null {
        RemembersIsStable(old(Table()), Table(), subDb.backup.proxyMapper.buffer);
      }
      ViewIsStable(old(Table()), Table(), entries);
      var pm := proxyMapper.At(key);
      assert IsProxyOf(Table(), w, Erase(key));
      ViewUpdate(Table(), entries, pm.value, Erase(key), value);
      subDb.Insert(pm.value, value);
    }

    /** `at(key)` throws first when a value of `key` has no UUID. */
    method Free(key: InputMap) returns (thrown: bool)
      requires Valid()
      modifies subDb
      ensures Valid() && View() == old(View()) - {Erase(key)}
      ensures thrown <==> forall pm :: !IsProxyOf(Table(), pm, Erase(key))
    {
      hide Decode, Covered, Serialized.Valid, Serialized.Contents, Remembers, ViewOf;
      var pm := proxyMapper.At(key);
      if pm.None? {
        UnknownIsAbsent(key);
        return true;
      }
      ViewRemove(Table(), subDb.entries, pm.value, Erase(key));
      assert IsProxyOf(Table(), pm.value, Erase(key));
      subDb.Free(pm.value);
      return false;
    }

    method At(key: InputMap) returns (value: Option<ResultMap>)
      requires Valid()
      ensures value == if Erase(key) in View() then Some(View()[Erase(key)]) else None
    {
      hide Serialized.Valid, Serialized.Contents, Remembers, ViewOf, OneToOne, Decode, Covered;
      var found := Count(key);
      if !found { return None; }
      var pm := proxyMapper.At(key);
      if pm.None? {
        UnknownIsAbsent(key);
        return None;
      }
      ViewAt(Table(), subDb.entries, pm.value, Erase(key));
      value := subDb.At(pm.value);
    }

    /** What the long-term store holds under a proxied key of this module. */
    ghost function Found(pm: ProxyMap): Option<ProxyMap>
      requires Valid()
      reads Footprint()
    {
      if subDb.backup == null then None
      else Lookup(subDb.backup.LongTerm(), Inject(pm, RESERVED, subDb.backup.subDb.value))
    }

    /** Under `key` the long-term chain has a result with these values. */
    ghost predicate Readable(key: AnyMap, value: AnyMap)
      requires Valid()
      reads Footprint()
    {
      subDb.backup != null && Reads(subDb.backup.Snapshot(), subDb.backup.subDb.value, key, value)
    }

    /** What this cache finds on disk, and what it can read there. */
    ghost function OnDisk(): DiskView
      requires Valid()
      reads Footprint()
    {
      if subDb.backup == null then DiskView(imap[], iset{})
      else DiskOf(subDb.backup.Snapshot(), subDb.backup.subDb.value)
    }

    /** Whatever lies on disk, only what this cache has flushed can be read. */
    lemma ReadableIsWritten(key: AnyMap, value: AnyMap)
      requires Valid() && (key, value) in OnDisk().readable
      ensures value in Written()
    {
      hide Serialized.Valid, Serialized.Contents, Serialized.Recorded, AllCovered, Inject;
      var s, uuid := subDb.backup.Snapshot(), subDb.backup.subDb.value;
      assert Reads(s, uuid, key, value);
      var pm :| !Reserved(pm) && IsProxyOf(s.table, pm, key) && ReadsAt(s, uuid, pm, value);
      var found := Lookup(s.store, Inject(pm, RESERVED, uuid)).value;
      assert found in subDb.backup.proxyMapper.buffer;
    }

    twostate lemma KeptIfFound()
      requires old(Valid()) && Valid() && Grows(old(Table()), Table())
      requires subDb.backup != null ==>
                 old(subDb.backup.proxyMapper.buffer).Keys <= subDb.backup.proxyMapper.buffer.Keys
      requires forall pm :: !Reserved(pm) ==> Found(pm) == old(Found(pm))
      ensures Keeps(old(OnDisk()), OnDisk())
    {
      hide Reserved, Serialized.Contents, Serialized.Recorded, Inject, DiskOf, Keeps;
      if subDb.backup != null {
        ghost var uuid, s, s' := subDb.backup.subDb.value, old(subDb.backup.Snapshot()), subDb.backup.Snapshot();
        forall pm | !Reserved(pm)
          ensures Lookup(s'.store, Inject(pm, RESERVED, uuid)) == Lookup(s.store, Inject(pm, RESERVED, uuid))
        {
          assert Found(pm) == old(Found(pm));
        }
        FoundIsKept(s, s', uuid);
      } else {
        assert Keeps(OnDisk(), OnDisk()) by { KeepsItself(OnDisk()); }
      }
    }

    /** A flush of an independent `c` takes nothing that this module finds. */
    twostate lemma FoundIsPrivate(c: KeyProxyMapper, new stored: map<ProxyMap, ProxyMap>)
      requires old(c.Valid()) && old(Valid()) && c.Valid() && Valid() && Independent(c, this)
      requires c.subDb.backup != null && subDb.backup != null ==>
                 c.subDb.backup.subDb.value != subDb.backup.subDb.value
      requires BackendObjects(c.Shared(), c.LongTerm()) !! BackendObjects(Shared(), LongTerm()) ==>
                 unchanged(BackendObjects(Shared(), LongTerm()))
      requires NoneReserved(old(c.subDb.entries).Keys)
      requires c.subDb.backup != null ==>
                 Flushed(old(c.subDb.backup.Snapshot()), c.subDb.backup.Snapshot(), c.subDb.backup.subDb,
                         old(c.subDb.entries), stored)
      ensures forall pm :: !Reserved(pm) ==> Found(pm) == old(Found(pm))
    {
      hide ProxyMapMaker.Valid, Serialized.Valid, AllCovered, Reserved, Serialized.Contents, Serialized.Recorded;
      hide Inject, Flushed, NoneReserved;
      if subDb.backup != null {
        forall pm | !Reserved(pm)
          ensures Found(pm) == old(Found(pm))
        {
          if c.LongTerm() == LongTerm() {
            FlushIsIsolated(old(c.subDb.backup.Snapshot()), c.subDb.backup.Snapshot(), c.subDb.backup.subDb,
                            old(c.subDb.entries), stored, subDb.backup.subDb.value, pm);
          }
        }
      }
    }

    /** `c` flushes, and this database, on the same table and store, reads. */
    twostate lemma ReadingsStay(c: KeyProxyMapper, new stored: map<ProxyMap, ProxyMap>)
      requires old(c.Valid()) && c.Valid() && old(Valid()) && Valid() && NoneReserved(old(c.subDb.entries).Keys)
      requires c.Shared() == Shared() && c.LongTerm() == LongTerm()
      requires c != this && subDb.backup != null ==> unchanged(subDb.backup.proxyMapper)
      requires c.subDb.backup != null ==>
                 Flushed(old(c.subDb.backup.Snapshot()), c.subDb.backup.Snapshot(), c.subDb.backup.subDb,
                         old(c.subDb.entries), stored)
      ensures KeepsBut(old(OnDisk()), OnDisk(), old(c.View()))
    {
      hide NoneReserved, Reads, IsProxyOf, ViewOf, DiskOf, Remembers, Serialized.Valid, AllCovered, KeepsBut;
      hide Serialized.Contents, Serialized.Recorded, AgreeOff, AllArrived, StandsFor;
      if subDb.backup == null {
        AllKept(OnDisk(), old(c.View()));
      } else {
        assert old(subDb.backup.proxyMapper.buffer).Keys <= subDb.backup.proxyMapper.buffer.Keys;
        ReadingsStayIn(old(c.subDb.backup.Snapshot()), c.subDb.backup.Snapshot(), c.subDb.backup.subDb,
                       old(c.subDb.entries), stored, old(subDb.backup.proxyMapper.buffer).Keys,
                       subDb.backup.proxyMapper.buffer.Keys, subDb.backup.subDb.value);
      }
    }

    /** Growth of the table by anyone takes nothing from the disk. */
    twostate lemma KeptByGrowth()
      requires old(Valid()) && Valid() && Grows(old(Table()), Table())
      requires subDb.backup != null ==> unchanged(subDb.backup.proxyMapper) && unchanged(subDb.backup.subDb.db.db)
      ensures Keeps(old(OnDisk()), OnDisk())
    {
      hide Reads, Reserved, Valid, OnDisk, Inject;
      KeptIfFound();
    }

    /** The UUID table is backed up first, the results are flushed second. */
    method Dump() returns (ghost stored: map<ProxyMap, ProxyMap>)
      requires Valid()
      modifies subDb, subDb.Targets(), Disks()
      ensures Valid() && View() == map[] && Grows(old(Table()), Table())
      ensures Shared().db.backup != null ==>
                Shared().db.backup.Contents() == Over(old(Shared().db.backup.Contents()), old(Table()))
      ensures subDb.backup != null ==>
                && stored.Keys == old(subDb.entries).Keys
                && Flushed(old(subDb.backup.Snapshot()), subDb.backup.Snapshot(), subDb.backup.subDb,
                           old(subDb.entries), stored)
      ensures Written() <= old(Written()) + ErasedOf(old(subDb.entries))
      ensures Table().Values == old(Table()).Values
                                + if subDb.backup == null then {}
                                  else ResultValues(old(subDb.entries), old(subDb.entries).Keys)
      ensures subDb.backup != null && Shared().db.backup != null
              && NewOnDisk(old(Table()), Table(), old(Shared().db.backup.Contents())) ==>
                DecodableIffKnown(old(Table()), Shared().db.backup.Contents(), old(subDb.entries), stored)
    {
      hide Decode, Covered, Serialized.Valid, Serialized.Contents;
      hide Serialized.Recorded, Remembers, ViewOf, Flushed, Over;
      hide NewOnDisk, DecodableIffKnown;
      ghost var disk := if Shared().db.backup == null then imap[] else Shared().db.backup.Contents();
      proxyMapper.Backup();
      ghost var t, entries := Table(), subDb.entries;
      ghost var before :=
        if subDb.backup == null then LongTermState(t, imap[], imap[], {}) else subDb.backup.Snapshot();
      stored := subDb.Dump();
      if subDb.backup != null {
        FlushedGrows(before, subDb.backup.Snapshot(), subDb.backup.subDb, entries, stored);
        RemembersIsStable(t, Table(), proxyMapper.buffer);
        if NewOnDisk(t, Table(), disk) {
          FlushDecodes(before, subDb.backup.Snapshot(), subDb.backup.subDb, entries, stored, disk);
        }
      }
      ViewEmpty<ResultMap>(Table());
    }
  }

  // ------------------------------------------------ the disk after a flush

  lemma SameNames<V, W>(a: map<Name, V>, b: map<Name, W>, n: Name)
    requires a.Keys == b.Keys
    ensures HasName(a, n) <==> HasName(b, n)
  {
    assert forall k :: k in a <==> k in b;
  }

  /** Reading the long-term chain under a key. */
  method ReadBack(c: KeyProxyMapper, key: InputMap) returns (r: Option<ResultMap>)
    requires c.Valid() && c.subDb.backup != null && !HasName(key, RESERVED)
    ensures forall value :: c.Readable(Erase(key), value) <==> r.Some? && Erase(r.value) == value
  {
    hide Serialized.Valid, Serialized.Contents, Serialized.Recorded, Remembers, Inject, HasName, Decode, Covered;
    var pm := c.proxyMapper.At(key);
    ghost var s, uuid := c.subDb.backup.Snapshot(), c.subDb.backup.subDb.value;
    if pm.None? {
      assert s.table == c.Table();
      NoProxyNoReading(s, uuid, Erase(key));
      return None;
    }
    SameNames(pm.value, key, RESERVED);
    r := c.subDb.backup.At(pm.value);
    forall value
      ensures Reads(s, uuid, Erase(key), value) <==> r.Some? && Erase(r.value) == value
    {
      OneReading(s, uuid, pm.value, Erase(key), value);
    }
  }

  lemma NoProxyNoReading(s: LongTermState, uuid: Uuid, key: AnyMap)
    requires forall pm :: !IsProxyOf(s.table, pm, key)
    ensures forall value :: !Reads(s, uuid, key, value)
  {
  }

  /** There is one proxy map to look under, and one map of values that the
      stored one stands for. */
  lemma OneReading(s: LongTermState, uuid: Uuid, pm: ProxyMap, key: AnyMap, value: AnyMap)
    requires OneToOne(s.table) && IsProxyOf(s.table, pm, key) && !Reserved(pm)
    ensures Reads(s, uuid, key, value) <==> ReadsAt(s, uuid, pm, value)
  {
    if x :| !Reserved(x) && IsProxyOf(s.table, x, key) && ReadsAt(s, uuid, x, value) {
      ProxyIsInjective(s.table, x, pm, key, key);
    }
  }

  /** After clearing, the long-term chain gives back every result that arrived,
      with equal values.  A key arrives in its first flush of a session, and again
      as long as its results are cut into equally many pieces. */
  method ClearThenRead(c: KeyProxyMapper, key: InputMap)
    returns (ghost stored: map<ProxyMap, ProxyMap>, ghost pm: ProxyMap, r: Option<ResultMap>)
    requires c.Valid() && c.subDb.backup != null && Erase(key) in c.View() && NoneReserved(c.subDb.entries.Keys)
    modifies c.subDb, c.subDb.Targets(), c.Disks()
    ensures c.Valid() && c.View() == map[]
    ensures pm in stored && IsProxyOf(old(c.Table()), pm, Erase(key))
    ensures SamePieces(old(c.subDb.backup.subDb.db.Recorded()), Inject(pm, RESERVED, c.subDb.backup.subDb.value),
                       c.subDb.backup.subDb.db.Pieces(stored[pm]))
            ==> r.Some? && Erase(r.value) == Erase(old(c.View())[Erase(key)])
  {
    hide Serialized.Valid, Serialized.Contents, Serialized.Recorded, Remembers, ViewOf, Flushed, NoneReserved;
    hide Decode, Covered, Inject, SamePieces, HasName;
    ghost var t, entries := c.Table(), c.subDb.entries;
    var proxies := c.proxyMapper.At(key);
    if proxies.None? {
      c.UnknownIsAbsent(key);
    }
    pm := proxies.value;
    ViewAt(t, entries, pm, Erase(key));
    NotReserved(entries, pm, key);
    ghost var value := Erase(c.View()[Erase(key)]);
    stored := DumpReadably(c, pm, Erase(key));
    r := ReadBack(c, key);
    assert c.Readable(Erase(key), value) ==> r.Some? && Erase(r.value) == value;
  }

  method DumpReadably(c: KeyProxyMapper, ghost pm: ProxyMap, ghost key: AnyMap)
    returns (ghost stored: map<ProxyMap, ProxyMap>)
    requires c.Valid() && c.subDb.backup != null && NoneReserved(c.subDb.entries.Keys)
    requires pm in c.subDb.entries && IsProxyOf(c.Table(), pm, key)
    modifies c.subDb, c.subDb.Targets(), c.Disks()
    ensures c.Valid() && c.View() == map[] && pm in stored
    ensures SamePieces(old(c.subDb.backup.subDb.db.Recorded()), Inject(pm, RESERVED, c.subDb.backup.subDb.value),
                       c.subDb.backup.subDb.db.Pieces(stored[pm]))
            ==> c.Readable(key, Erase(old(c.subDb.entries)[pm]))
  {
    hide Serialized.Valid, Serialized.Contents, Serialized.Recorded, Remembers, ViewOf, Flushed, NoneReserved;
    hide Decode, Covered, Inject, SamePieces, HasName, Reads, IsProxyOf;
    ghost var entries, before, target := c.subDb.entries, c.subDb.backup.Snapshot(), c.subDb.backup.subDb;
    stored := c.Dump();
    if SamePieces(before.recorded, Inject(pm, RESERVED, target.value), target.db.Pieces(stored[pm])) {
      FlushedIsReadable(before, c.subDb.backup.Snapshot(), target, entries, stored, pm, key);
    }
  }

  lemma NotReserved(entries: map<ProxyMap, ResultMap>, pm: ProxyMap, key: InputMap)
    requires NoneReserved(entries.Keys) && pm in entries && pm.Keys == key.Keys
    ensures !HasName(key, RESERVED)
  {
    SameNames(pm, key, RESERVED);
  }

  /** What was flushed is decoded from the disk alone once the table has been backed
      up again. */
  lemma BackedUpDecodes(t: Table, t': Table, disk: imap<Uuid, Any>, stored: map<ProxyMap, ProxyMap>,
                        entries: map<ProxyMap, ResultMap>, k: ProxyMap)
    requires Grows(t, t') && StandsFor(t, stored, entries) && k in stored
    ensures k in entries && Decodes(Over(disk, t'), stored[k], Erase(entries[k]))
  {
    ProxyIsStable(t, t', stored[k]);
    assert Decode(t', stored[k]) == Erase(entries[k]);
  }

  /** After the next clear, of any cache with this table, the disk alone decodes
      everything that has been flushed before. */
  method ClearLater(d: KeyProxyMapper, ghost t: Table, ghost entries: map<ProxyMap, ResultMap>,
                    ghost stored: map<ProxyMap, ProxyMap>)
    requires d.Valid() && d.Shared().db.backup != null && Grows(t, d.Table()) && StandsFor(t, stored, entries)
    modifies d.subDb, d.subDb.Targets(), d.Disks()
    ensures d.Valid()
    ensures forall k :: k in stored ==>
              k in entries && Decodes(d.Shared().db.backup.Contents(), stored[k], Erase(entries[k]))
  {
    hide Serialized.Valid, Serialized.Contents, KeyProxyMapper.View, Over, Decodes, StandsFor, Erase;
    hide Flushed, DecodableIffKnown, Grows, AllCovered, Remembers, OneToOne;
    ghost var disk, now := d.Shared().db.backup.Contents(), d.Table();
    ghost var again := d.Dump();
    forall k | k in stored
      ensures k in entries && Decodes(Over(disk, now), stored[k], Erase(entries[k]))
    {
      BackedUpDecodes(t, now, disk, stored, entries, k);
    }
  }

  /** After a second clear, the disk alone decodes everything that the first one
      flushed. */
  method ClearTwice(c: KeyProxyMapper) returns (ghost stored: map<ProxyMap, ProxyMap>)
    requires c.Valid() && c.subDb.backup != null && c.Shared().db.backup != null
    modifies c.subDb, c.subDb.Targets(), c.Disks()
    ensures c.Valid() && stored.Keys == old(c.subDb.entries).Keys
    ensures forall k :: k in stored ==>
              Decodes(c.Shared().db.backup.Contents(), stored[k], Erase(old(c.subDb.entries)[k]))
  {
    hide Serialized.Valid, Serialized.Contents, KeyProxyMapper.View, Over, Decodes, StandsFor, Erase;
    hide DecodableIffKnown, AllArrived, AgreeOff, AllCovered, Remembers, OneToOne;
    ghost var entries := c.subDb.entries;
    stored := c.Dump();
    ClearLater(c, c.Table(), entries, stored);
  }

  /** Flushing one module's results leaves every other module's entries alone. */
  lemma FlushIsIsolated(before: LongTermState, after: LongTermState, target: KeyInjector,
                        entries: map<ProxyMap, ResultMap>, stored: map<ProxyMap, ProxyMap>, other: Uuid, k: ProxyMap)
    requires Flushed(before, after, target, entries, stored)
    requires NoneReserved(entries.Keys) && !Reserved(k) && other != target.value
    ensures Lookup(after.store, Inject(k, RESERVED, other)) == Lookup(before.store, Inject(k, RESERVED, other))
  {
    forall x | x in stored.Keys
      ensures Inject(x, RESERVED, target.value) != Inject(k, RESERVED, other)
    {
      assert x in entries.Keys;
      InjectSeparates(x, k, target.value, other);
    }
  }

  // ------------------------------------------------------------ ModuleCache

  class ModuleCache {
    const db: KeyProxyMapper?

    constructor (db: KeyProxyMapper?)
      ensures this.db == db
    {
      this.db := db;
    }

    method Count(key: InputMap) returns (found: bool)
      requires db != null ==> db.Valid()
      ensures found <==> db != null && Erase(key) in db.View()
    {
      if db == null { return false; }
      found := db.Count(key);
    }

    /** Throws on a cache without a backend. */
    method Cache(key: InputMap, value: ResultMap) returns (thrown: bool)
      requires db != null ==> db.Valid()
      modifies if db == null then {} else {db.proxyMapper, db.Shared(), db.Shared().db, db.subDb}
      ensures thrown == (db == null)
      ensures db != null ==> db.Valid() && Grows(old(db.Table()), db.Table())
      ensures db != null ==> db.View() == old(db.View())[Erase(key) := value]
      ensures db != null ==> db.Table().Values == old(db.Table()).Values + Erase(key).Values
    {
      if db == null { return true; }
      db.Insert(key, value);
      return false;
    }

    /** None where `uncache` throws. */
    method Uncache(key: InputMap) returns (value: Option<ResultMap>)
      requires db != null ==> db.Valid()
      ensures value == if db != null && Erase(key) in db.View() then Some(db.View()[Erase(key)]) else None
    {
      hide Serialized.Valid, Serialized.Contents, Remembers, Covered, Decode, ViewOf, OneToOne;
      var found := Count(key);
      if !found { return None; }
      value := db.At(key);
    }

    method Clear() returns (ghost stored: map<ProxyMap, ProxyMap>)
      requires db != null ==> db.Valid()
      modifies if db == null then {} else {db.subDb} + db.subDb.Targets() + db.Disks()
      ensures db != null ==> db.Valid() && Grows(old(db.Table()), db.Table()) && db.View() == map[]
      ensures db != null && db.subDb.backup != null ==>
                && stored.Keys == old(db.subDb.entries).Keys
                && Flushed(old(db.subDb.backup.Snapshot()), db.subDb.backup.Snapshot(), db.subDb.backup.subDb,
                           old(db.subDb.entries), stored)
      ensures db != null ==> db.Written() <= old(db.Written()) + ErasedOf(old(db.subDb.entries))
      ensures db != null ==>
                db.Table().Values == old(db.Table()).Values
                                     + if db.subDb.backup == null then {}
                                       else ResultValues(old(db.subDb.entries), old(db.subDb.entries).Keys)
      ensures db != null && db.Shared().db.backup != null ==>
                db.Shared().db.backup.Contents() == Over(old(db.Shared().db.backup.Contents()), old(db.Table()))
    {
      stored := map[];
      if db == null { return; }
      hide Serialized.Valid, Serialized.Contents, KeyProxyMapper.View, Over, Flushed, Remembers, OneToOne;
      stored := db.Dump();
    }
  }

  // -------------------------------------------------------------- UserCache

  /** A map from single objects to single objects, kept in a module cache under
      the empty name. */
  class UserCache {
    const cache: ModuleCache

    constructor (cache: ModuleCache)
      ensures this.cache == cache
    {
      this.cache := cache;
    }

    function Wrap(f: Field): map<Name, Field> {
      map["" := f]
    }

    method Count(key: Field) returns (found: bool)
      requires cache.db != null && cache.db.Valid()
      ensures found <==> map["" := key.value] in cache.db.View()
    {
      assert Erase(Wrap(key)) == map["" := key.value];
      found := cache.Count(Wrap(key));
    }

    method Cache(key: Field, value: Field)
      requires cache.db != null && cache.db.Valid()
      modifies cache.db.proxyMapper, cache.db.Shared(), cache.db.Shared().db, cache.db.subDb
      ensures cache.db.Valid() && Grows(old(cache.db.Table()), cache.db.Table())
      ensures cache.db.View() == old(cache.db.View())[map["" := key.value] := map["" := value]]
    {
      assert Erase(Wrap(key)) == map["" := key.value];
      var thrown := cache.Cache(Wrap(key), Wrap(value));
    }

    /** None where nothing is cached, or where the object that is cached is not of
        the type asked for. */
    method Uncache(key: Field, hasType: Any -> bool) returns (value: Option<Field>)
      requires cache.db != null && cache.db.Valid()
      ensures var k: AnyMap := map["" := key.value];
              value == if k in cache.db.View() && "" in cache.db.View()[k] && hasType(cache.db.View()[k][""].value)
                       then Some(cache.db.View()[k][""]) else None
    {
      assert Erase(Wrap(key)) == map["" := key.value];
      var wrapped := cache.Uncache(Wrap(key));
      if wrapped.None? || "" !in wrapped.value { return None; }
      if !hasType(wrapped.value[""].value) { return None; }
      value := Some(wrapped.value[""]);
    }
  }
}
