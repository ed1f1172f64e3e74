/**
 The factory that wires the layers together, and "the Cache" that hands out
 module and user caches and keeps them apart, in memory and on disk.
 */
module CacheManager {
  import opened Fields
  import opened RocksStore
  import opened SerializedStore
  import opened UuidTable
  import opened ProxyMaps
  import opened ModuleCaches

  /** The archives that the long-term stores use. */
  datatype Archives = Archives(proxies: Codec<ProxyMap>, uuids: Codec<Uuid>, values: Codec<Any>)

  ghost predicate FaithfulArchives(a: Archives) {
    Faithful(a.proxies) && Faithful(a.uuids) && Faithful(a.values)
  }

  /** What is found on disk at some path: any entries RocksDB can hold. */
  type DiskImage = m: map<Bytes, Bytes> | forall k :: k in m ==> |m[k]| <= MAX_VALUE_SIZE witness map[]

  // -------------------------------------------------------- DatabaseFactory

  /** The two shared pieces that a factory injects into every database. */
  ghost predicate BackendValid(table: Transposer, longTerm: Serialized?<ProxyMap, ProxyMap>)
    reads table, table.db, table.db.Disk(), if longTerm == null then {} else {longTerm.db}
  {
    && table.Valid() && table.InOrder()
    && (longTerm != null ==> longTerm.Valid() && longTerm.db !in table.db.Disk())
  }

  /** A store that has just opened what is on `disk`. */
  ghost predicate Opened<K(!new), V(!new)>(s: Serialized<K, V>, disk: DiskImage, keys: Codec<K>, values: Codec<V>)
    reads s.db
  {
    s.db.State() == Disk(disk, map[]) && OnLocation(s, keys, values)
  }

  /** A store as a factory makes it. */
  ghost predicate OnLocation<K(!new), V(!new)>(s: Serialized<K, V>, keys: Codec<K>, values: Codec<V>) {
    s.keys == keys && s.values == values && s.db.maxValueSize == MAX_VALUE_SIZE && s.db.userKey == EncodedKeys(keys)
  }

  lemma NothingToRemember(t: Table)
    ensures Remembers(t, map[])
  {
  }

  class DatabaseFactory {
    var serialPm: Serialized?<ProxyMap, ProxyMap>
    var any2uuid: Transposer
    const archives: Archives

    constructor (archives: Archives)
      requires FaithfulArchives(archives)
      ensures this.archives == archives && serialPm == null && Valid()
      ensures fresh(BackendObjects(any2uuid, serialPm))
    {
      this.archives := archives;
      serialPm := null;
      var uuid2any := new UuidNative(null);
      any2uuid := new Transposer(uuid2any);
    }

    ghost predicate Valid()
      reads this, BackendObjects(any2uuid, serialPm)
    {
      FaithfulArchives(archives) && BackendValid(any2uuid, serialPm)
    }

    method SetSerializedPmToPm(disk: DiskImage)
      requires Valid()
      modifies `serialPm
      ensures serialPm != null && fresh(serialPm) && fresh(serialPm.db) && Valid()
      ensures Opened(serialPm, disk, archives.proxies, archives.proxies)
    {
      EncodedKeysApart(archives.proxies);
      var rocks := new RocksDb(disk, MAX_VALUE_SIZE, EncodedKeys(archives.proxies));
      serialPm := new Serialized(rocks, archives.proxies, archives.proxies);
    }

    method SetTypeEraserBackend(disk: DiskImage)
      requires Valid()
      modifies `any2uuid
      ensures fresh({any2uuid, any2uuid.db} + any2uuid.db.Disk()) && Valid()
      ensures any2uuid.Table() == map[] && any2uuid.db.backup != null
      ensures Opened(any2uuid.db.backup, disk, archives.uuids, archives.values)
      ensures disk == map[] ==> any2uuid.db.backup.Contents() == imap[]
    {
      EncodedKeysApart(archives.uuids);
      var rocks := new RocksDb(disk, MAX_VALUE_SIZE, EncodedKeys(archives.uuids));
      var serial := new Serialized(rocks, archives.uuids, archives.values);
      var uuid2any := new UuidNative(serial);
      any2uuid := new Transposer(uuid2any);
    }

    method DefaultModuleDb(moduleUuid: Uuid) returns (db: KeyProxyMapper)
      requires Valid()
      ensures fresh(db) && fresh(db.Private()) && db.Valid() && db.View() == map[] && db.Written() == {}
      ensures db.Shared() == any2uuid && db.LongTerm() == serialPm
      ensures db.subDb.backup != null ==> db.subDb.backup.subDb.value == moduleUuid
    {
      hide Serialized.Valid, Serialized.Recorded, Serialized.Pieces, OneToOne, Remembers;
      var pi2pm := MapMaker();
      var pm2result := Pm2ResultDb(moduleUuid);
      NothingToRemember(any2uuid.Table());
      db := new KeyProxyMapper(pi2pm, pm2result);
      ViewEmpty<ResultMap>(db.Table());
    }

    /** A ProxyMapMaker over UUIDMapper over TypeEraser over the shared table. */
    method MapMaker() returns (pm: ProxyMapMaker)
      requires Valid()
      ensures fresh(pm) && pm.shared == any2uuid == pm.db.db.db && pm.buffer == map[] && pm.Valid()
    {
      hide Serialized.Valid;
      var toAny := new TypeEraser(any2uuid);
      var toUuid := new UuidMapper(toAny);
      pm := new ProxyMapMaker(toUuid);
    }

    method Pm2ResultDb(moduleUuid: Uuid) returns (db: ResultNative)
      requires Valid()
      ensures fresh(db) && db.entries == map[]
      ensures (db.backup == null) == (serialPm == null)
      ensures db.backup != null ==>
                && fresh(db.backup) && fresh(db.backup.proxyMapper)
                && db.backup.subDb.db == serialPm && db.backup.subDb.value == moduleUuid
                && db.backup.proxyMapper.shared == any2uuid && db.backup.proxyMapper.buffer == map[]
                && db.backup.Valid()
    {
      hide Serialized.Valid, UuidNative.PlainBackup, OneToOne;
      if serialPm != null {
        var injector := new KeyInjector(RESERVED, moduleUuid, serialPm);
        var pr2pm := MapMaker();
        var ppm2r := new ValueProxyMapper(pr2pm, injector);
        db := new ResultNative(ppm2r);
      } else {
        db := new ResultNative(null);
      }
    }
  }

  /** A module's database on a new disk location. */
  method OpenOnNewDisk(archives: Archives, moduleUuid: Uuid) returns (db: KeyProxyMapper)
    requires FaithfulArchives(archives)
    ensures db.Valid() && db.View() == map[] && db.Table() == map[] && db.subDb.backup != null && fresh(db.Footprint())
    ensures db.Shared().db.backup != null && db.Shared().db.backup.Contents() == imap[]
  {
    hide Serialized.Valid, Serialized.Contents, KeyProxyMapper.Valid, KeyProxyMapper.View, BackendValid, Opened;
    var factory := new DatabaseFactory(archives);
    factory.SetSerializedPmToPm(map[]);
    factory.SetTypeEraserBackend(map[]);
    db := factory.DefaultModuleDb(moduleUuid);
  }

  /** Freeing a key that a new database does not know throws, unless the key is
      empty. */
  method FreeingUnknownThrows(archives: Archives, key: InputMap) returns (thrown: bool)
    requires FaithfulArchives(archives)
    ensures thrown <==> key != map[]
  {
    hide Serialized.Valid, Serialized.Contents, KeyProxyMapper.Valid, KeyProxyMapper.View;
    var db := OpenOnNewDisk(archives, "module");
    thrown := db.Free(key);
    EmptyTableKnowsNothing(db.Table(), Erase(key));
    assert key == map[] <==> Erase(key) == map[];
  }

  lemma EmptyTableKnowsNothing(t: Table, m: AnyMap)
    requires t == map[]
    ensures (exists pm :: IsProxyOf(t, pm, m)) <==> m == map[]
  {
    if m == map[] {
      var none: ProxyMap := map[];
      assert IsProxyOf(t, none, m);
    } else {
      forall pm
        ensures !IsProxyOf(t, pm, m)
      {
        if pm.Keys == m.Keys {
          var n :| n in m;
          assert n in pm;
        }
      }
    }
  }

  /** On a new disk location, the first result of a call without inputs cannot be
      decoded from the disk after the flush. */
  method FirstFlushIsNotDecodable(archives: Archives, a: Field)
    returns (db: KeyProxyMapper, ghost stored: map<ProxyMap, ProxyMap>)
    requires FaithfulArchives(archives)
    ensures db.Valid() && db.Shared().db.backup != null && map[] in stored
    ensures !Decodes(db.Shared().db.backup.Contents(), stored[map[]], map["r" := a.value])
  {
    hide KeyProxyMapper.Valid, KeyProxyMapper.View, Serialized.Contents, Decodes, AllHaveUuids;
    db := OpenOnNewDisk(archives, "module");
    var results: ResultMap := map["r" := a];
    OneResult(a);
    stored := FlushFirst(db, results);
  }

  lemma OneResult(a: Field)
    ensures var results: ResultMap := map["r" := a];
            Erase(results) == map["r" := a.value] && !AllHaveUuids(map[], map["r" := a.value])
  {
    assert "r" in map["r" := a.value];
  }

  method FlushFirst(db: KeyProxyMapper, results: ResultMap) returns (ghost stored: map<ProxyMap, ProxyMap>)
    requires db.Valid() && db.View() == map[] && db.Table() == map[] && db.subDb.backup != null
    requires db.Shared().db.backup != null && db.Shared().db.backup.Contents() == imap[]
    modifies db.Footprint()
    ensures db.Valid() && map[] in stored
    ensures Decodes(db.Shared().db.backup.Contents(), stored[map[]], Erase(results))
            <==> AllHaveUuids(map[], Erase(results))
  {
    hide Serialized.Valid, Serialized.Contents, Serialized.Recorded, Flushed, UuidNative.PlainBackup, OneToOne, Over;
    hide ViewOf, Decodes, AllHaveUuids, Remembers, Erase;
    var none: InputMap := map[];
    db.FlushStaysInside();
    NothingErased();
    db.Insert(none, results);
    ghost var entries := db.subDb.entries;
    EmptyKey(db.Table(), entries, results);
    assert db.Table() == map[];
    stored := db.Dump();
  }

  lemma NothingErased()
    ensures var none: InputMap := map[];
            Erase(none) == map[] && Erase(none).Values == {}
  {
  }

  lemma EmptyKey(t: Table, entries: map<ProxyMap, ResultMap>, results: ResultMap)
    requires OneToOne(t) && AllCovered(t, entries)
    requires var none: AnyMap := map[]; ViewOf(t, entries) == map[none := results]
    ensures map[] in entries && entries[map[]] == results
  {
    hide ViewOf, OneToOne, AllCovered;
    var none: ProxyMap := map[];
    var empty: AnyMap := map[];
    assert IsProxyOf(t, none, empty);
    ViewAt(t, entries, none, empty);
    assert empty in ViewOf(t, entries) && ViewOf(t, entries)[empty] == results;
  }

  // ------------------------------------------------------ ModuleManagerCache

  function Mangle(key: string): string {
    "__PP__ " + key + "-USER __PP__"
  }

  /** User caches of different modules have different keys. */
  lemma MangleInjective(k1: string, k2: string)
    requires Mangle(k1) == Mangle(k2)
    ensures k1 == k2
  {
    var m := Mangle(k1);
    assert m == "__PP__ " + (k1 + "-USER __PP__") == "__PP__ " + (k2 + "-USER __PP__");
    assert m[7..] == k1 + "-USER __PP__" == k2 + "-USER __PP__";
    assert |k1| == |k2|;
    assert m[7..][..|k1|] == k1;
    assert m[7..][..|k2|] == k2;
  }

  /** A cache that the manager has handed out. */
  datatype Ref = ModuleRef(key: string) | UserRef(key: string)

  /** The UUID under which a cache keeps its entries in the shared store. */
  function CacheKey(r: Ref): string {
    match r
    case ModuleRef(k) => k
    case UserRef(k) => Mangle(k)
  }

  /** Two caches have one key exactly when one belongs to a module whose key has the
      mangled form of the other's. */
  lemma CacheKeysClash(r: Ref, q: Ref)
    requires r != q
    ensures CacheKey(r) == CacheKey(q) <==>
              ((r.ModuleRef? && q.UserRef? && r.key == Mangle(q.key))
               || (r.UserRef? && q.ModuleRef? && q.key == Mangle(r.key)))
  {
    hide Mangle;
    if r.UserRef? && q.UserRef? && Mangle(r.key) == Mangle(q.key) {
      MangleInjective(r.key, q.key);
    }
  }

  class ModuleManagerCache {
    const factory: DatabaseFactory
    var moduleCaches: map<string, ModuleCache>
    var userCaches: map<string, UserCache>
    ghost var dbs: map<Ref, KeyProxyMapper>
    ghost var repr: set<object>

    constructor (archives: Archives)
      requires FaithfulArchives(archives)
      ensures Valid() && fresh(repr) && fresh(factory) && factory.archives == archives && Views() == map[]
    {
      factory := new DatabaseFactory(archives);
      moduleCaches, userCaches, dbs := map[], map[], map[];
      new;
      repr := BackendObjects(factory.any2uuid, factory.serialPm);
    }

    /** The two tables hold the registered databases. */
    ghost predicate Registered()
      reads `moduleCaches, `userCaches, `dbs
    {
      && (forall k :: k in moduleCaches <==> ModuleRef(k) in dbs)
      && (forall k :: k in moduleCaches ==> moduleCaches[k].db == dbs[ModuleRef(k)])
      && (forall k :: Mangle(k) in userCaches <==> UserRef(k) in dbs)
      && (forall k :: Mangle(k) in userCaches ==> userCaches[Mangle(k)].cache.db == dbs[UserRef(k)])
    }

    ghost predicate Member(r: Ref)
      requires r in dbs
      reads `dbs, `repr, factory, repr
    {
      && dbs[r].Footprint() <= repr
      && dbs[r].Valid()
      && SameOrApart(dbs[r].Shared(), dbs[r].LongTerm(), factory.any2uuid, factory.serialPm)
      && (dbs[r].subDb.backup != null ==> dbs[r].subDb.backup.subDb.value == CacheKey(r))
    }

    /** All databases are valid and pairwise independent. */
    ghost predicate Consistent()
      reads `dbs, `repr, factory, repr
    {
      && BackendObjects(factory.any2uuid, factory.serialPm) <= repr
      && this !in repr && factory !in repr
      && factory.Valid()
      && AllMembers()
    }

    ghost predicate AllMembers()
      reads `dbs, `repr, factory, repr
    {
      && (forall r :: r in dbs ==> Member(r))
      && (forall r1, r2 :: r1 in dbs && r2 in dbs && r1 != r2 ==> Independent(dbs[r1], dbs[r2]))
    }

    ghost predicate Valid()
      reads this, factory, repr
    {
      Consistent() && Registered()
    }

    /** Every cache as a plain map. */
    ghost function Views(): map<Ref, map<AnyMap, ResultMap>>
      requires Consistent()
      reads `dbs, `repr, factory, repr
    {
      map r | r in dbs :: dbs[r].View()
    }

    /** A new, empty cache on the current backend, registered under `r`. */
    method MakeModuleCache(key: string, ghost r: Ref) returns (cache: ModuleCache)
      requires Consistent() && r !in dbs && CacheKey(r) == key
      modifies `dbs, `repr
      ensures Consistent() && fresh(repr - old(repr)) && fresh(cache)
      ensures cache.db != null && dbs == old(dbs)[r := cache.db] && cache.db.Written() == {}
      ensures cache.db.Shared() == factory.any2uuid && cache.db.LongTerm() == factory.serialPm
      ensures Views() == old(Views())[r := map[]]
    {
      hide KeyProxyMapper.Valid, KeyProxyMapper.View, KeyProxyMapper.Private, BackendObjects, BackendValid;
      hide AllMembers, Independent;
      var db := factory.DefaultModuleDb(key);
      Register(r, db);
      cache := new ModuleCache(db);
    }

    lemma NewIsIndependent(db: KeyProxyMapper)
      requires Consistent() && db.Private() !! repr
      requires db.Shared() == factory.any2uuid && db.LongTerm() == factory.serialPm
      ensures forall q :: q in dbs ==> Independent(dbs[q], db) && Independent(db, dbs[q])
    {
      hide KeyProxyMapper.Valid, KeyProxyMapper.View, KeyProxyMapper.Private, BackendObjects, BackendValid, CacheKey;
      forall q | q in dbs
        ensures Independent(dbs[q], db) && Independent(db, dbs[q])
      {
        assert Member(q);
      }
    }

    ghost method Register(r: Ref, db: KeyProxyMapper)
      requires Consistent() && r !in dbs
      requires db.Private() !! repr && this !in db.Private() && factory !in db.Private()
      requires db.Valid() && db.View() == map[]
      requires db.Shared() == factory.any2uuid && db.LongTerm() == factory.serialPm
      requires db.subDb.backup != null ==> db.subDb.backup.subDb.value == CacheKey(r)
      modifies `dbs, `repr
      ensures Consistent() && dbs == old(dbs)[r := db] && repr == old(repr) + db.Private()
      ensures Views() == old(Views())[r := map[]]
    {
      hide KeyProxyMapper.Valid, KeyProxyMapper.View, KeyProxyMapper.Private, BackendObjects, BackendValid, CacheKey;
      hide Independent;
      NewIsIndependent(db);
      dbs := dbs[r := db];
      repr := repr + db.Private();
    }

    method GetOrMakeModuleCache(key: string) returns (cache: ModuleCache)
      requires Valid()
      modifies `moduleCaches, `dbs, `repr
      ensures Valid() && fresh(repr - old(repr))
      ensures key in moduleCaches && cache == moduleCaches[key]
      ensures dbs.Keys == old(dbs).Keys + {ModuleRef(key)} && cache.db == dbs[ModuleRef(key)]
      ensures key in old(moduleCaches) ==> moduleCaches == old(moduleCaches) && dbs == old(dbs)
      ensures key !in old(moduleCaches) ==> moduleCaches == old(moduleCaches)[key := cache] && fresh(cache)
      ensures forall q :: q in old(dbs) ==> q in dbs && dbs[q] == old(dbs)[q]
      ensures key !in old(moduleCaches) ==>
                && cache.db.Shared() == factory.any2uuid && cache.db.LongTerm() == factory.serialPm
                && cache.db.Written() == {}
      ensures Views() == if ModuleRef(key) in old(dbs) then old(Views()) else old(Views())[ModuleRef(key) := map[]]
    {
      hide KeyProxyMapper.Valid, KeyProxyMapper.View, KeyProxyMapper.Footprint, BackendObjects, BackendValid;
      hide Independent, SameOrApart, Member, AllMembers;
      if key !in moduleCaches {
        var p := MakeModuleCache(key, ModuleRef(key));
        moduleCaches := moduleCaches[key := p];
      }
      return moduleCaches[key];
    }

    method GetOrMakeUserCache(key: string) returns (cache: UserCache)
      requires Valid()
      modifies `userCaches, `dbs, `repr
      ensures Valid() && fresh(repr - old(repr))
      ensures Mangle(key) in userCaches && cache == userCaches[Mangle(key)]
      ensures dbs.Keys == old(dbs).Keys + {UserRef(key)} && cache.cache.db == dbs[UserRef(key)]
      ensures Mangle(key) in old(userCaches) ==> userCaches == old(userCaches) && dbs == old(dbs)
      ensures Mangle(key) !in old(userCaches) ==> userCaches == old(userCaches)[Mangle(key) := cache] && fresh(cache)
      ensures forall q :: q in old(dbs) ==> q in dbs && dbs[q] == old(dbs)[q]
      ensures Mangle(key) !in old(userCaches) ==>
                && cache.cache.db.Shared() == factory.any2uuid && cache.cache.db.LongTerm() == factory.serialPm
                && cache.cache.db.Written() == {}
      ensures Views() == if UserRef(key) in old(dbs) then old(Views()) else old(Views())[UserRef(key) := map[]]
    {
      hide KeyProxyMapper.Valid, KeyProxyMapper.View, KeyProxyMapper.Footprint, BackendObjects, BackendValid;
      hide Independent, SameOrApart, Member, AllMembers, Mangle;
      var mangled := Mangle(key);
      if mangled !in userCaches {
        var mcache := MakeModuleCache(mangled, UserRef(key));
        var p := new UserCache(mcache);
        userCaches := userCaches[mangled := p];
        forall k | Mangle(k) == mangled
          ensures k == key
        {
          MangleInjective(k, key);
        }
      }
      return userCaches[mangled];
    }

    /** Caches with one key on one long-term store share their entries there. */
    lemma SharedEntries(r: Ref, q: Ref, pm: ProxyMap)
      requires Valid() && r in dbs && q in dbs && dbs[r].LongTerm() != null && dbs[r].LongTerm() == dbs[q].LongTerm()
      ensures Member(r) && Member(q) && (CacheKey(r) == CacheKey(q) ==> dbs[r].Found(pm) == dbs[q].Found(pm))
      ensures !Reserved(pm) ==>
                (CacheKey(r) == CacheKey(q) <==>
                   Inject(pm, RESERVED, dbs[r].subDb.backup.subDb.value)
                   == Inject(pm, RESERVED, dbs[q].subDb.backup.subDb.value))
    {
      hide Reserved, Inject, Serialized.Contents, Serialized.Valid, BackendValid, Registered, CacheKey, SameOrApart;
      assert Member(r) && Member(q);
      if !Reserved(pm) {
        InjectSeparates(pm, pm, CacheKey(r), CacheKey(q));
      }
    }

    /** Later caches use new tables and new disk locations; every cache made
        before stays the same object with the same view. */
    method ChangeSaveLocation(cacheDisk: DiskImage, uuidDisk: DiskImage)
      requires Valid()
      modifies `repr, factory
      ensures Valid() && fresh(repr - old(repr))
      ensures dbs == old(dbs) && Views() == old(Views())
      ensures fresh(factory.any2uuid) && factory.serialPm != null && fresh(factory.serialPm)
      ensures Opened(factory.serialPm, cacheDisk, factory.archives.proxies, factory.archives.proxies)
      ensures factory.any2uuid.db.backup != null
      ensures Opened(factory.any2uuid.db.backup, uuidDisk, factory.archives.uuids, factory.archives.values)
    {
      hide KeyProxyMapper.Valid, KeyProxyMapper.View, BackendValid, Independent, Registered, Member;
      hide Serialized.Contents, Serialized.Valid, CacheKey, Mangle;
      factory.SetSerializedPmToPm(cacheDisk);
      factory.SetTypeEraserBackend(uuidDisk);
      repr := repr + BackendObjects(factory.any2uuid, factory.serialPm);
      BackendIsNew();
    }

    /** Moving to a new backend leaves the registered databases alone. */
    twostate lemma BackendIsNew()
      requires old(Valid()) && dbs == old(dbs) && old(repr) <= repr
      requires unchanged(old(repr))
      requires forall o :: o in BackendObjects(factory.any2uuid, factory.serialPm) ==> fresh(o)
      ensures forall r :: r in dbs ==> Member(r) && dbs[r].View() == old(dbs[r].View())
    {
      hide KeyProxyMapper.Valid, KeyProxyMapper.View, BackendValid, Registered, Independent, BackendObjects;
      forall r | r in dbs
        ensures Member(r) && dbs[r].View() == old(dbs[r].View())
      {
        assert old(Member(r));
        Kept(dbs[r]);
      }
    }

    /** What one cache does is private: a valid step of `dbs[r]` that grows its
        table and changes nothing outside its footprint leaves every other view
        as it was. */
    twostate lemma StepIsPrivate(r: Ref)
      requires old(Valid()) && r in dbs
      requires dbs == old(dbs) && repr == old(repr)
      requires moduleCaches == old(moduleCaches) && userCaches == old(userCaches)
      requires factory.any2uuid == old(factory.any2uuid) && factory.serialPm == old(factory.serialPm)
      requires dbs[r].Valid() && Grows(old(dbs[r].Table()), dbs[r].Table())
      requires unchanged(repr - dbs[r].Footprint())
      ensures Valid()
      ensures Views() == old(Views())[r := dbs[r].View()]
      ensures forall q :: q in dbs ==> Grows(old(dbs[q].Table()), dbs[q].Table())
    {
      hide KeyProxyMapper.Valid, KeyProxyMapper.View, BackendValid, Registered, CacheKey, SameOrApart, BackendObjects;
      assert old(Member(r));
      StepKeepsFactory(r);
      var todo := dbs.Keys - {r};
      while todo != {}
        invariant todo <= dbs.Keys
        invariant forall q :: q in dbs && q != r && q !in todo ==>
                    Member(q) && dbs[q].View() == old(dbs[q].View()) && Grows(old(dbs[q].Table()), dbs[q].Table())
        decreases todo
      {
        var q :| q in todo;
        StepKeeps(r, q);
        todo := todo - {q};
      }
    }

    /** Nothing that was registered has been touched. */
    twostate lemma Unmoved()
      requires old(Valid()) && unchanged(old(repr))
      ensures forall q :: q in old(dbs) ==>
                && old(dbs)[q].Valid() && old(dbs)[q].OnDisk() == old(dbs[q].OnDisk())
                && old(dbs)[q].Written() == old(dbs[q].Written())
    {
      hide KeyProxyMapper.Valid, KeyProxyMapper.View, KeyProxyMapper.OnDisk;
      hide BackendValid, Registered, CacheKey, SameOrApart, KeyProxyMapper.Private;
      forall q | q in old(dbs)
        ensures old(dbs)[q].Valid() && old(dbs)[q].OnDisk() == old(dbs[q].OnDisk())
        ensures old(dbs)[q].Written() == old(dbs[q].Written())
      {
        assert old(Member(q));
        Kept(old(dbs)[q]);
        KeptWritten(old(dbs)[q]);
      }
    }

    /** Caching takes nothing from the disk. */
    twostate lemma CachingKeepsDisk(new r: Ref, new q: Ref)
      requires old(Valid()) && Valid() && dbs == old(dbs) && repr == old(repr)
      requires r in dbs && q in dbs && Grows(old(dbs[q].Table()), dbs[q].Table())
      requires unchanged(repr - {dbs[r].proxyMapper, dbs[r].Shared(), dbs[r].Shared().db, dbs[r].subDb})
      ensures Keeps(old(dbs[q].OnDisk()), dbs[q].OnDisk())
    {
      hide KeyProxyMapper.View, KeyProxyMapper.OnDisk, Keeps, BackendValid, CacheKey, SameOrApart, Registered;
      hide ProxyMapMaker.Valid, ValueProxyMapper.Valid;
      assert old(Member(q)) && old(Member(r)) && Member(q);
      assert q != r ==> Independent(dbs[q], dbs[r]);
      dbs[q].KeptByGrowth();
    }

    /** Clearing one cache takes nothing from the disk that another one finds
        there, unless both keep their entries under one key. */
    twostate lemma ClearKeepsDisk(new r: Ref, new q: Ref, new stored: map<ProxyMap, ProxyMap>)
      requires old(Valid()) && Valid() && dbs == old(dbs) && repr == old(repr)
      requires r in dbs && q in dbs && r != q && CacheKey(r) != CacheKey(q)
      requires Grows(old(dbs[r].Table()), dbs[r].Table()) && unchanged(repr - dbs[r].Footprint())
      requires NoneReserved(old(dbs[r].subDb.entries).Keys)
      requires dbs[r].subDb.backup != null ==>
                 Flushed(old(dbs[r].subDb.backup.Snapshot()), dbs[r].subDb.backup.Snapshot(), dbs[r].subDb.backup.subDb,
                         old(dbs[r].subDb.entries), stored)
      ensures Member(q) && Keeps(old(dbs[q].OnDisk()), dbs[q].OnDisk())
    {
      hide KeyProxyMapper.Valid, KeyProxyMapper.View, KeyProxyMapper.OnDisk, KeyProxyMapper.Found, BackendValid;
      hide Registered, CacheKey, SameOrApart, BackendObjects, NoneReserved, Flushed;
      assert old(Member(r)) && old(Member(q)) && Member(r) && Member(q);
      assert Independent(dbs[r], dbs[q]) && Independent(dbs[q], dbs[r]);
      FootprintsMeet(dbs[q], dbs[r]);
      hide Independent;
      dbs[q].FoundIsPrivate(dbs[r], stored);
      dbs[q].UndisturbedBy(dbs[r]);
      dbs[q].KeptIfFound();
    }

    twostate lemma StepKeepsFactory(new r: Ref)
      requires old(Consistent()) && r in dbs && dbs[r].Valid()
      requires dbs == old(dbs) && repr == old(repr)
      requires factory.any2uuid == old(factory.any2uuid) && factory.serialPm == old(factory.serialPm)
      requires unchanged(repr - dbs[r].Footprint())
      ensures factory.Valid()
    {
      hide KeyProxyMapper.View, Serialized.Valid, Serialized.Contents, Registered, Independent;
      assert old(Member(r));
    }

    twostate lemma StepKeeps(new r: Ref, new q: Ref)
      requires old(Consistent()) && r in dbs && q in dbs && r != q
      requires dbs == old(dbs) && repr == old(repr)
      requires factory.any2uuid == old(factory.any2uuid) && factory.serialPm == old(factory.serialPm)
      requires dbs[r].Valid() && Grows(old(dbs[r].Table()), dbs[r].Table())
      requires unchanged(repr - dbs[r].Footprint())
      ensures Member(q) && dbs[q].View() == old(dbs[q].View()) && Grows(old(dbs[q].Table()), dbs[q].Table())
    {
      hide KeyProxyMapper.Valid, KeyProxyMapper.View, BackendValid, Registered;
      hide BackendObjects, CacheKey, SameOrApart;
      assert old(Member(r)) && old(Member(q));
      assert Independent(dbs[r], dbs[q]);
      assert Independent(dbs[q], dbs[r]);
      FootprintsMeet(dbs[q], dbs[r]);
      hide Independent, KeyProxyMapper.Private;
      dbs[q].UndisturbedBy(dbs[r]);
    }
  }

  // -------------------------------------------------- from session to session

  /** A cache on a save location, with its two long-term stores. */
  ghost predicate OnDisks(c: KeyProxyMapper)
    reads c.Footprint()
  {
    && c.Valid() && c.subDb.backup != null && c.Shared().db.backup != null
    && c.LongTerm().Valid() && c.Shared().db.backup.Valid()
  }

  /** `d` finds on disk what `c` finds there, entry by entry, except for entries that
      `c` has split, of which it finds what lies whole under the pieces; the UUIDs
      that were backed up are there in the same way. */
  ghost predicate FindsWhatWasLeft(d: KeyProxyMapper, c: KeyProxyMapper)
    requires OnDisks(c) && OnDisks(d)
    reads c.Footprint(), d.Footprint()
  {
    && (forall pm :: FindsEntry(d, c, pm, Inject(pm, RESERVED, c.subDb.backup.subDb.value)))
    && (forall u :: u !in c.Shared().db.backup.Recorded() ==>
          Lookup(d.Shared().db.backup.Contents(), u) == Lookup(c.Shared().db.backup.Contents(), u))
  }

  ghost predicate FindsEntry(d: KeyProxyMapper, c: KeyProxyMapper, pm: ProxyMap, q: ProxyMap)
    requires OnDisks(c) && OnDisks(d)
    reads c.Footprint(), d.Footprint()
  {
    if q in c.LongTerm().Recorded() then d.Found(pm).Some? <==> c.LongTerm().Leftover(q)
    else d.Found(pm) == c.Found(pm)
  }

  /** A new session on a save location, with one cache. */
  method OpenSession(archives: Archives, cacheDisk: DiskImage, uuidDisk: DiskImage, key: string)
    returns (mm: ModuleManagerCache, d: KeyProxyMapper)
    requires FaithfulArchives(archives)
    ensures mm.Valid() && mm.dbs == map[ModuleRef(key) := d] && fresh(mm) && fresh(mm.repr)
    ensures OnDisks(d) && d.View() == map[] && d.subDb.backup.subDb.value == key
    ensures Opened(d.LongTerm(), cacheDisk, archives.proxies, archives.proxies)
    ensures Opened(d.Shared().db.backup, uuidDisk, archives.uuids, archives.values)
  {
    hide KeyProxyMapper.Valid, KeyProxyMapper.View, BackendValid, Serialized.Valid, Opened;
    hide ModuleManagerCache.Consistent, ModuleManagerCache.Registered, KeyProxyMapper.Written, OnDisks;
    hide ModuleManagerCache.Views;
    mm := NewOnDisks(archives, cacheDisk, uuidDisk);
    var cache := mm.GetOrMakeModuleCache(key);
    d := cache.db;
    OnlyMember(mm, key);
    ViewOfMember(mm, ModuleRef(key));
  }

  method NewOnDisks(archives: Archives, cacheDisk: DiskImage, uuidDisk: DiskImage) returns (mm: ModuleManagerCache)
    requires FaithfulArchives(archives)
    ensures mm.Valid() && mm.dbs == map[] && fresh(mm) && fresh(mm.repr) && fresh(mm.factory)
    ensures mm.factory.serialPm != null && mm.factory.any2uuid.db.backup != null
    ensures Opened(mm.factory.serialPm, cacheDisk, archives.proxies, archives.proxies)
    ensures Opened(mm.factory.any2uuid.db.backup, uuidDisk, archives.uuids, archives.values)
  {
    hide KeyProxyMapper.Valid, KeyProxyMapper.View, BackendValid, Serialized.Valid, Opened;
    hide ModuleManagerCache.Registered, ModuleManagerCache.AllMembers;
    mm := new ModuleManagerCache(archives);
    assert mm.Views().Keys == mm.dbs.Keys;
    mm.ChangeSaveLocation(cacheDisk, uuidDisk);
  }

  lemma OnlyMember(mm: ModuleManagerCache, key: string)
    requires mm.Valid() && mm.dbs.Keys == {ModuleRef(key)} && mm.factory.serialPm != null
    requires mm.factory.any2uuid.db.backup != null
    requires var d := mm.dbs[ModuleRef(key)];
             d.Shared() == mm.factory.any2uuid && d.LongTerm() == mm.factory.serialPm
    ensures var d := mm.dbs[ModuleRef(key)];
            OnDisks(d) && d.subDb.backup.subDb.value == key
  {
    hide ModuleManagerCache.Registered, Independent, UuidNative.PlainBackup, OneToOne, Remembers, AllCovered;
    assert mm.Member(ModuleRef(key));
  }

  lemma ViewOfMember(mm: ModuleManagerCache, r: Ref)
    requires mm.Valid() && r in mm.dbs
    ensures mm.dbs[r].Valid() && mm.Views()[r] == mm.dbs[r].View()
  {
    hide ModuleManagerCache.Registered, Independent, KeyProxyMapper.Valid, KeyProxyMapper.View, BackendValid;
    assert mm.Member(r);
  }

  /** A new session on the location that the cache `c` has written to: a new cache
      with the same key is empty and finds there what `c` has left. */
  method NextSession(c: KeyProxyMapper, archives: Archives) returns (mm: ModuleManagerCache, d: KeyProxyMapper)
    requires FaithfulArchives(archives) && OnDisks(c)
    requires OnLocation(c.LongTerm(), archives.proxies, archives.proxies)
    requires OnLocation(c.Shared().db.backup, archives.uuids, archives.values)
    ensures mm.Valid() && mm.dbs == map[ModuleRef(c.subDb.backup.subDb.value) := d]
    ensures OnDisks(c) && OnDisks(d) && d.View() == map[] && FindsWhatWasLeft(d, c)
  {
    hide FindsWhatWasLeft, OnLocation, ModuleManagerCache.Valid, KeyProxyMapper.View, KeyProxyMapper.Valid;
    hide Serialized.Valid;
    var cacheDisk, uuidDisk := DisksOf(c, archives);
    hide OnDisks, KeyProxyMapper.Footprint;
    mm, d := OpenSession(archives, cacheDisk, uuidDisk, c.subDb.backup.subDb.value);
    StillOnDisks(c);
    NextFinds(c, d, archives);
  }

  lemma DisksAreValid(c: KeyProxyMapper)
    requires c.Valid() && c.subDb.backup != null && c.Shared().db.backup != null
    ensures OnDisks(c)
  {
    hide Remembers, OneToOne, AllCovered, UuidNative.PlainBackup, Serialized.Valid;
  }

  lemma LeftIsFound(c: KeyProxyMapper, d: KeyProxyMapper, before: LongTermState, entries: map<ProxyMap, ResultMap>,
                    stored: map<ProxyMap, ProxyMap>, k: ProxyMap)
    requires OnDisks(c) && OnDisks(d) && FindsWhatWasLeft(d, c)
    requires Flushed(before, c.subDb.backup.Snapshot(), c.subDb.backup.subDb, entries, stored)
    requires NoneReserved(entries.Keys) && k in stored && c.LongTerm().Pieces(stored[k]) == 0
    requires Inject(k, RESERVED, c.subDb.backup.subDb.value) !in before.recorded
    ensures d.Found(k) == Some(stored[k])
  {
    hide ProxyMapMaker.Valid, AllCovered, Serialized.Contents, Serialized.Recorded, Serialized.Pieces, Inject;
    hide Serialized.Valid, Grows, StandsFor, AgreeOff, Serialized.Leftover, NoneReserved;
    var q := Inject(k, RESERVED, c.subDb.backup.subDb.value);
    assert Arrived(before, c.subDb.backup.Snapshot(), c.subDb.backup.subDb, k, stored[k]);
    RecordedIsSplit(c.LongTerm(), q);
    assert FindsEntry(d, c, k, q);
  }

  lemma RecordedIsSplit(s: Serialized<ProxyMap, ProxyMap>, k: ProxyMap)
    requires s.Valid()
    ensures k in s.Recorded() ==> s.Recorded()[k] >= 2
  {
    if s.keys.encode(k) in s.db.splitValues {
      assert ValidSplit(s.db.State(), s.keys.encode(k), s.db.maxValueSize, s.db.userKey);
    }
  }

  /** What a clear leaves on disk is what the next session finds: every result that
      was stored whole under a key that never held a split one. */
  method ClearThenNextSession(c: KeyProxyMapper, archives: Archives)
    returns (mm: ModuleManagerCache, d: KeyProxyMapper, ghost stored: map<ProxyMap, ProxyMap>)
    requires FaithfulArchives(archives) && OnDisks(c) && NoneReserved(c.subDb.entries.Keys)
    requires OnLocation(c.LongTerm(), archives.proxies, archives.proxies)
    requires OnLocation(c.Shared().db.backup, archives.uuids, archives.values)
    modifies c.subDb, c.subDb.Targets(), c.Disks()
    ensures mm.Valid() && mm.dbs == map[ModuleRef(c.subDb.backup.subDb.value) := d]
    ensures OnDisks(c) && OnDisks(d) && d.View() == map[] && stored.Keys == old(c.subDb.entries).Keys
    ensures forall k :: k in stored && Inject(k, RESERVED, c.subDb.backup.subDb.value) !in old(c.LongTerm().Recorded())
                        && c.LongTerm().Pieces(stored[k]) == 0 ==>
              d.Found(k) == Some(stored[k])
  {
    hide KeyProxyMapper.View, Serialized.Contents, Serialized.Recorded, Serialized.Pieces, Over, Inject;
    hide Flushed, DecodableIffKnown, OnLocation, NoneReserved, FindsWhatWasLeft, KeyProxyMapper.Found, OneToOne;
    hide ProxyMapMaker.Valid, ValueProxyMapper.Valid, ModuleManagerCache.Valid;
    ghost var before, entries, target := c.subDb.backup.Snapshot(), c.subDb.entries, c.subDb.backup.subDb;
    stored := c.Dump();
    DisksAreValid(c);
    mm, d := NextSession(c, archives);
    forall k | k in stored && Inject(k, RESERVED, target.value) !in before.recorded && target.db.Pieces(stored[k]) == 0
      ensures d.Found(k) == Some(stored[k])
    {
      LeftIsFound(c, d, before, entries, stored, k);
    }
  }

  twostate lemma StillOnDisks(c: KeyProxyMapper)
    requires old(OnDisks(c)) && unchanged(c.Footprint())
    ensures OnDisks(c)
  {
  }

  method DisksOf(c: KeyProxyMapper, archives: Archives) returns (cacheDisk: DiskImage, uuidDisk: DiskImage)
    requires OnDisks(c)
    requires OnLocation(c.LongTerm(), archives.proxies, archives.proxies)
    requires OnLocation(c.Shared().db.backup, archives.uuids, archives.values)
    ensures cacheDisk == c.LongTerm().db.db && uuidDisk == c.Shared().db.backup.db.db
  {
    StoresAreThere(c, archives);
    cacheDisk := c.subDb.backup.subDb.db.db.db;
    uuidDisk := c.proxyMapper.db.db.db.db.backup.db.db;
  }

  lemma StoresAreThere(c: KeyProxyMapper, archives: Archives)
    requires OnDisks(c)
    requires OnLocation(c.LongTerm(), archives.proxies, archives.proxies)
    requires OnLocation(c.Shared().db.backup, archives.uuids, archives.values)
    ensures c.Shared() == c.proxyMapper.db.db.db
    ensures forall k :: k in c.LongTerm().db.db ==> |c.LongTerm().db.db[k]| <= MAX_VALUE_SIZE
    ensures forall k :: k in c.Shared().db.backup.db.db ==> |c.Shared().db.backup.db.db[k]| <= MAX_VALUE_SIZE
  {
    hide Remembers, OneToOne, AllCovered, UuidNative.PlainBackup, Faithful, ValidSplit, Apart;
  }

  lemma NextFinds(c: KeyProxyMapper, d: KeyProxyMapper, archives: Archives)
    requires OnDisks(c) && OnDisks(d) && c.subDb.backup.subDb.value == d.subDb.backup.subDb.value
    requires OnLocation(c.LongTerm(), archives.proxies, archives.proxies)
    requires OnLocation(c.Shared().db.backup, archives.uuids, archives.values)
    requires d.LongTerm().db.State() == Disk(c.LongTerm().db.db, map[])
    requires OnLocation(d.LongTerm(), archives.proxies, archives.proxies)
    requires d.Shared().db.backup.db.State() == Disk(c.Shared().db.backup.db.db, map[])
    requires OnLocation(d.Shared().db.backup, archives.uuids, archives.values)
    ensures FindsWhatWasLeft(d, c)
  {
    hide KeyProxyMapper.Valid, Serialized.Valid, Inject;
    hide Serialized.Contents, Serialized.Recorded, Serialized.Leftover;
    var uuid := c.subDb.backup.subDb.value;
    forall pm
      ensures FindsEntry(d, c, pm, Inject(pm, RESERVED, uuid))
    {
      d.LongTerm().OpensWhatWasLeft(c.LongTerm(), Inject(pm, RESERVED, uuid));
    }
    forall u
      ensures u !in c.Shared().db.backup.Recorded() ==>
                Lookup(d.Shared().db.backup.Contents(), u) == Lookup(c.Shared().db.backup.Contents(), u)
    {
      d.Shared().db.backup.OpensWhatWasLeft(c.Shared().db.backup, u);
    }
  }

  twostate lemma KeptWritten(d: KeyProxyMapper)
    requires unchanged(d.Private())
    ensures d.Written() == old(d.Written())
  {
  }

  twostate lemma Kept(d: KeyProxyMapper)
    requires old(d.Valid()) && unchanged(d.Footprint())
    ensures d.Valid() && d.View() == old(d.View()) && d.OnDisk() == old(d.OnDisk())
  {
  }
}
