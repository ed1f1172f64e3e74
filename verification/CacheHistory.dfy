/**
 The main theorem about the cache stack: whatever sequence of operations runs
 on the real objects, what the caller observes is what independent plain maps
 would show.  Nothing on disk, and nothing another cache does, is observable.
 */
module CacheHistory {
  import opened Fields
  import opened SerializedStore
  import opened UuidTable
  import opened ProxyMaps
  import opened ModuleCaches
  import opened CacheManager

  datatype Op =
    | GetOrMake(r: Ref)
    | Count(r: Ref, key: InputMap)
    | Cache(r: Ref, key: InputMap, value: ResultMap)
    | Uncache(r: Ref, key: InputMap)
    | Clear(r: Ref)
    | ChangeSaveLocation(cacheDisk: DiskImage, uuidDisk: DiskImage)

  datatype Observation = Done | Found(found: bool) | Fetched(value: Option<ResultMap>)

  // ---------------------------------------------- the plain-map specification

  type Plain = map<AnyMap, ResultMap>

  ghost function PlainOf(views: map<Ref, Plain>, r: Ref): Plain {
    if r in views then views[r] else map[]
  }

  /** Only the map of the cache that is named changes; a location change is not
      observable at all. */
  ghost function SpecStep(views: map<Ref, Plain>, op: Op): map<Ref, Plain> {
    match op
    case Cache(r, k, v) => views[r := PlainOf(views, r)[Erase(k) := v]]
    case Clear(r) => views[r := map[]]
    case ChangeSaveLocation(_, _) => views
    case _ => views[op.r := PlainOf(views, op.r)]
  }

  ghost function SpecObserve(views: map<Ref, Plain>, op: Op): Observation {
    match op
    case Count(r, k) => Found(Erase(k) in PlainOf(views, r))
    case Uncache(r, k) =>
      var m := PlainOf(views, r);
      Fetched(if Erase(k) in m then Some(m[Erase(k)]) else None)
    case _ => Done
  }

  ghost function SpecRun(views: map<Ref, Plain>, ops: seq<Op>): (obs: seq<Observation>)
    ensures |obs| == |ops|
    decreases |ops|
  {
    if ops == [] then [] else [SpecObserve(views, ops[0])] + SpecRun(SpecStep(views, ops[0]), ops[1..])
  }

  ghost function SpecState(views: map<Ref, Plain>, ops: seq<Op>): map<Ref, Plain>
    decreases |ops|
  {
    if ops == [] then views else SpecState(SpecStep(views, ops[0]), ops[1..])
  }

  lemma {:induction false} SpecAppend(views: map<Ref, Plain>, ops: seq<Op>, op: Op)
    ensures SpecRun(views, ops + [op]) == SpecRun(views, ops) + [SpecObserve(SpecState(views, ops), op)]
    ensures SpecState(views, ops + [op]) == SpecStep(SpecState(views, ops), op)
    decreases |ops|
  {
    if ops == [] {
      assert ops + [op] == [op];
      assert [op][1..] == [];
    } else {
      assert (ops + [op])[1..] == ops[1..] + [op];
      SpecAppend(SpecStep(views, ops[0]), ops[1..], op);
    }
  }

  /** The operations that name another cache. */
  ghost predicate Elsewhere(op: Op, r: Ref) {
    op.ChangeSaveLocation? || op.r != r
  }

  /** No interference: what a cache holds depends on its own operations only. */
  lemma {:induction false} OnlyOwnOperationsMatter(views: map<Ref, Plain>, ops: seq<Op>, r: Ref, own: seq<Op>)
    requires own == Own(ops, r)
    ensures PlainOf(SpecState(views, ops), r) == PlainOf(SpecState(views, own), r)
    decreases |ops|
  {
    OwnState(views, views, ops, r);
  }

  ghost function Own(ops: seq<Op>, r: Ref): seq<Op>
    decreases |ops|
  {
    if ops == [] then []
    else if Elsewhere(ops[0], r) then Own(ops[1..], r)
    else [ops[0]] + Own(ops[1..], r)
  }

  lemma {:induction false} OwnState(v1: map<Ref, Plain>, v2: map<Ref, Plain>, ops: seq<Op>, r: Ref)
    requires PlainOf(v1, r) == PlainOf(v2, r)
    ensures PlainOf(SpecState(v1, ops), r) == PlainOf(SpecState(v2, Own(ops, r)), r)
    decreases |ops|
  {
    if ops != [] {
      if Elsewhere(ops[0], r) {
        OwnState(SpecStep(v1, ops[0]), v2, ops[1..], r);
      } else {
        var own := Own(ops, r);
        assert own[0] == ops[0] && own[1..] == Own(ops[1..], r);
        OwnState(SpecStep(v1, ops[0]), SpecStep(v2, ops[0]), ops[1..], r);
      }
    }
  }

  ghost predicate SameButDisks(a: Op, b: Op) {
    a == b || (a.ChangeSaveLocation? && b.ChangeSaveLocation?)
  }

  /** What lies at a location, and which location it is, shows in no observation. */
  lemma {:induction false} DisksAreNotObserved(views: map<Ref, Plain>, ops1: seq<Op>, ops2: seq<Op>)
    requires |ops1| == |ops2| && forall i :: 0 <= i < |ops1| ==> SameButDisks(ops1[i], ops2[i])
    ensures SpecRun(views, ops1) == SpecRun(views, ops2)
    decreases |ops1|
  {
    if ops1 != [] {
      assert SameButDisks(ops1[0], ops2[0]);
      DisksAreNotObserved(SpecStep(views, ops1[0]), ops1[1..], ops2[1..]);
    }
  }

  // --------------------------------------------------- running the real thing

  method Get(mm: ModuleManagerCache, r: Ref) returns (cache: ModuleCache)
    requires mm.Valid()
    modifies mm
    ensures mm.Valid() && fresh(mm.repr - old(mm.repr))
    ensures r in mm.dbs && cache.db == mm.dbs[r]
    ensures mm.Views() == old(mm.Views())[r := PlainOf(old(mm.Views()), r)]
    ensures forall q :: q in old(mm.dbs) ==>
              && q in mm.dbs && mm.dbs[q] == old(mm.dbs[q]) && mm.dbs[q].OnDisk() == old(mm.dbs[q].OnDisk())
              && mm.dbs[q].Written() == old(mm.dbs[q].Written())
    ensures forall q :: q in mm.dbs && q !in old(mm.dbs) ==> mm.dbs[q].Written() == {}
  {
    hide KeyProxyMapper.Valid, KeyProxyMapper.View, KeyProxyMapper.Private;
    hide BackendObjects, BackendValid, Independent, SameOrApart;
    hide ModuleManagerCache.AllMembers, ModuleManagerCache.Registered;
    hide Mangle, KeyProxyMapper.OnDisk;
    match r {
      case ModuleRef(k) =>
        cache := mm.GetOrMakeModuleCache(k);
      case UserRef(k) =>
        var user := mm.GetOrMakeUserCache(k);
        cache := user.cache;
    }
    mm.Unmoved();
  }

  method Look(mm: ModuleManagerCache, r: Ref, cache: ModuleCache, key: InputMap) returns (found: bool)
    requires mm.Valid() && r in mm.dbs && cache.db == mm.dbs[r]
    ensures found <==> Erase(key) in mm.Views()[r]
  {
    assert mm.Member(r);
    found := cache.Count(key);
  }

  method Fetch(mm: ModuleManagerCache, r: Ref, cache: ModuleCache, key: InputMap) returns (value: Option<ResultMap>)
    requires mm.Valid() && r in mm.dbs && cache.db == mm.dbs[r]
    ensures value == if Erase(key) in mm.Views()[r] then Some(mm.Views()[r][Erase(key)]) else None
  {
    assert mm.Member(r);
    value := cache.Uncache(key);
  }

  twostate lemma CachingWritesNothing(mm: ModuleManagerCache, new r: Ref, new q: Ref)
    requires old(mm.Valid()) && mm.Valid() && mm.dbs == old(mm.dbs) && mm.repr == old(mm.repr)
    requires r in mm.dbs && q in mm.dbs
    requires unchanged(mm.repr - {mm.dbs[r].proxyMapper, mm.dbs[r].Shared(), mm.dbs[r].Shared().db, mm.dbs[r].subDb})
    ensures mm.dbs[q].Written() == old(mm.dbs[q].Written())
  {
    hide BackendValid, CacheKey, SameOrApart, ModuleManagerCache.Registered, Serialized.Valid, ProxyMapMaker.Valid;
    assert mm.Member(q) && mm.Member(r) && (q != r ==> Independent(mm.dbs[q], mm.dbs[r]));
  }

  method Store(mm: ModuleManagerCache, r: Ref, cache: ModuleCache, key: InputMap, value: ResultMap)
    requires mm.Valid() && r in mm.dbs && cache.db == mm.dbs[r]
    modifies mm.repr
    ensures mm.Valid()
    ensures mm.Views() == old(mm.Views())[r := old(mm.Views())[r][Erase(key) := value]]
    ensures forall q :: q in mm.dbs ==>
              Keeps(old(mm.dbs[q].OnDisk()), mm.dbs[q].OnDisk()) && mm.dbs[q].Written() == old(mm.dbs[q].Written())
  {
    hide KeyProxyMapper.View, KeyProxyMapper.OnDisk, Keeps, BackendValid, CacheKey, SameOrApart;
    hide ProxyMapMaker.Valid, ValueProxyMapper.Valid, Independent, ModuleManagerCache.Registered;
    assert mm.Member(r);
    var thrown := cache.Cache(key, value);
    mm.StepIsPrivate(r);
    forall q | q in mm.dbs
      ensures Keeps(old(mm.dbs[q].OnDisk()), mm.dbs[q].OnDisk())
      ensures mm.dbs[q].Written() == old(mm.dbs[q].Written())
    {
      mm.CachingKeepsDisk(r, q);
      CachingWritesNothing(mm, r, q);
    }
  }

  // ------------------------------------------------------------------ on disk

  /** No input is called like the reserved name of the shared store. */
  ghost predicate Unreserved(m: Plain) {
    forall k :: k in m ==> !HasName(k, RESERVED)
  }

  ghost predicate AllUnreserved(views: map<Ref, Plain>) {
    forall r :: r in views ==> Unreserved(views[r])
  }

  lemma UnreservedEntries(c: KeyProxyMapper)
    requires c.Valid() && Unreserved(c.View())
    ensures NoneReserved(c.subDb.entries.Keys)
  {
    hide HasName;
    forall pm | pm in c.subDb.entries.Keys
      ensures !Reserved(pm)
    {
      var am := Decoder(c.Table())(pm);
      assert am in c.View() && am.Keys == pm.Keys;
      SameNames(am, pm, RESERVED);
    }
  }

  ghost function ErasedResults(p: Plain): set<AnyMap> {
    set k | k in p :: Erase(p[k])
  }

  /** Clearing a cache takes nothing from the disk that another cache finds or
      reads, unless both keep their entries under one key, and then nothing that it
      does not hold in memory.  It writes what it holds. */
  method Empty(mm: ModuleManagerCache, r: Ref, cache: ModuleCache)
    requires mm.Valid() && r in mm.dbs && cache.db == mm.dbs[r]
    modifies mm.repr
    ensures mm.Valid()
    ensures mm.Views() == old(mm.Views())[r := map[]]
    ensures Unreserved(old(mm.Views())[r]) ==> forall q :: q in mm.dbs ==>
              && KeepsBut(old(mm.dbs[q].OnDisk()), mm.dbs[q].OnDisk(), old(mm.Views())[r])
              && (CacheKey(q) != CacheKey(r) ==> Keeps(old(mm.dbs[q].OnDisk()), mm.dbs[q].OnDisk()))
    ensures forall q :: q in mm.dbs ==>
              mm.dbs[q].Written() <= old(mm.dbs[q].Written()) + if q == r then ErasedResults(old(mm.Views())[r]) else {}
  {
    hide KeyProxyMapper.Valid, KeyProxyMapper.View, Flushed, Over, Serialized.Contents, Serialized.Valid;
    hide KeyProxyMapper.Private, KeyProxyMapper.Disks, ResultNative.Targets, BackendObjects, Independent, BackendValid;
    hide KeyProxyMapper.OnDisk, Keeps, KeepsBut, Unreserved, NoneReserved, CacheKey, SameOrApart;
    hide ErasedResults, ErasedOf;
    assert mm.Member(r);
    mm.dbs[r].FlushStaysInside();
    FlushesWhatItHolds(mm.dbs[r]);
    if Unreserved(mm.Views()[r]) {
      UnreservedEntries(mm.dbs[r]);
    }
    ghost var stored := cache.Clear();
    mm.StepIsPrivate(r);
    forall q | q in mm.dbs && q != r
      ensures mm.dbs[q].Written() == old(mm.dbs[q].Written())
    {
      OthersWriteNothing(mm, r, q);
    }
    if Unreserved(old(mm.Views())[r]) {
      forall q | q in mm.dbs
        ensures KeepsBut(old(mm.dbs[q].OnDisk()), mm.dbs[q].OnDisk(), old(mm.Views())[r])
        ensures CacheKey(q) != CacheKey(r) ==> Keeps(old(mm.dbs[q].OnDisk()), mm.dbs[q].OnDisk())
      {
        ClearKeepsReadings(mm, r, q, stored);
        if CacheKey(q) != CacheKey(r) {
          mm.ClearKeepsDisk(r, q, stored);
        }
      }
    }
  }

  lemma FlushesWhatItHolds(c: KeyProxyMapper)
    requires c.Valid()
    ensures ErasedOf(c.subDb.entries) <= ErasedResults(c.View())
  {
    hide Serialized.Valid, Serialized.Contents, Remembers, ViewOf, Erase, Covered;
    var t, entries := c.Table(), c.subDb.entries;
    forall pm | pm in entries
      ensures Erase(entries[pm]) in ErasedResults(c.View())
    {
      ViewAt(t, entries, pm, Decode(t, pm));
    }
  }

  twostate lemma OthersWriteNothing(mm: ModuleManagerCache, new r: Ref, new q: Ref)
    requires old(mm.Valid()) && mm.Valid() && mm.dbs == old(mm.dbs) && r in mm.dbs && q in mm.dbs && r != q
    requires mm.repr == old(mm.repr) && unchanged(mm.repr - mm.dbs[r].Footprint())
    ensures mm.dbs[q].Written() == old(mm.dbs[q].Written())
  {
    hide KeyProxyMapper.Valid, BackendValid, ModuleManagerCache.Registered, CacheKey, SameOrApart, BackendObjects;
    assert mm.Member(q) && Independent(mm.dbs[q], mm.dbs[r]);
    FootprintsMeet(mm.dbs[q], mm.dbs[r]);
  }

  twostate lemma ClearKeepsReadings(mm: ModuleManagerCache, new r: Ref, new q: Ref, new stored: map<ProxyMap, ProxyMap>)
    requires old(mm.Valid()) && mm.Valid() && mm.dbs == old(mm.dbs) && r in mm.dbs && q in mm.dbs
    requires mm.repr == old(mm.repr) && unchanged(mm.repr - mm.dbs[r].Footprint())
    requires NoneReserved(old(mm.dbs[r].subDb.entries).Keys)
    requires mm.dbs[r].subDb.backup != null ==>
               Flushed(old(mm.dbs[r].subDb.backup.Snapshot()), mm.dbs[r].subDb.backup.Snapshot(),
                       mm.dbs[r].subDb.backup.subDb, old(mm.dbs[r].subDb.entries), stored)
    ensures mm.Member(q)
    ensures KeepsBut(old(mm.dbs[q].OnDisk()), mm.dbs[q].OnDisk(), old(mm.Views())[r])
  {
    hide KeyProxyMapper.Valid, KeyProxyMapper.View, KeyProxyMapper.OnDisk, BackendValid, ModuleManagerCache.Registered;
    hide CacheKey, BackendObjects, NoneReserved, Flushed, KeepsBut, Serialized.Contents, Serialized.Valid;
    assert old(mm.Member(r)) && old(mm.Member(q)) && mm.Member(r) && mm.Member(q);
    if q == r {
      mm.dbs[r].ReadingsStay(mm.dbs[r], stored);
    } else {
      assert Independent(mm.dbs[q], mm.dbs[r]);
      FootprintsMeet(mm.dbs[q], mm.dbs[r]);
      if mm.dbs[q].Shared() == mm.dbs[r].Shared() && mm.dbs[q].LongTerm() == mm.dbs[r].LongTerm() {
        mm.dbs[q].ReadingsStay(mm.dbs[r], stored);
      } else {
        Kept(mm.dbs[q]);
        AllKept(mm.dbs[q].OnDisk(), old(mm.Views())[r]);
      }
    }
  }

  /** What an operation empties. */
  ghost function Emptied(views: map<Ref, Plain>, op: Op): Plain {
    if op.Clear? then PlainOf(views, op.r) else map[]
  }

  /** A clear writes under its own key what its cache holds. */
  ghost predicate WritesUnder(op: Op, q: Ref) {
    op.Clear? && CacheKey(op.r) == CacheKey(q)
  }

  ghost predicate DiskStep(d: DiskView, d': DiskView, emptied: Plain, written: bool) {
    Unreserved(emptied) ==> KeepsBut(d, d', emptied) && (written || Keeps(d, d'))
  }

  /** What one operation does to what each cache finds and reads on disk. */
  twostate predicate DisksKept(mm: ModuleManagerCache, views: map<Ref, Plain>, op: Op)
    requires old(mm.Valid()) && mm.Valid()
    requires forall q :: q in old(mm.dbs) ==> q in mm.dbs && mm.dbs[q] == old(mm.dbs)[q]
    reads mm, mm.factory, mm.repr
  {
    forall q :: q in old(mm.dbs) ==>
      assert old(mm.Member(q)) && mm.Member(q);
      DiskStep(old(mm.dbs[q].OnDisk()), mm.dbs[q].OnDisk(), Emptied(views, op), WritesUnder(op, q))
  }

  ghost function Flushes(views: map<Ref, Plain>, op: Op, q: Ref): set<AnyMap> {
    if op.Clear? && op.r == q then ErasedResults(PlainOf(views, q)) else {}
  }

  /** A cache has flushed what it had before and what this operation flushes. */
  twostate predicate WritesOwn(mm: ModuleManagerCache, views: map<Ref, Plain>, op: Op)
    requires mm.Valid()
    requires forall q :: q in old(mm.dbs) ==> q in mm.dbs && mm.dbs[q] == old(mm.dbs)[q]
    reads mm, mm.factory, mm.repr
  {
    forall q :: q in mm.dbs ==>
      assert mm.Member(q);
      mm.dbs[q].Written() <= (if q in old(mm.dbs) then old(mm.dbs[q].Written()) else {}) + Flushes(views, op, q)
  }

  lemma EachIsMember(mm: ModuleManagerCache)
    requires mm.Valid()
    ensures forall q :: q in mm.dbs ==> mm.Member(q)
  {
  }

  lemma EachKeepsItself(mm: ModuleManagerCache, op: Op)
    requires mm.Valid() && !op.Clear?
    ensures forall q :: q in mm.dbs ==>
              mm.Member(q) && DiskStep(mm.dbs[q].OnDisk(), mm.dbs[q].OnDisk(), map[], false)
  {
    EachIsMember(mm);
    hide KeyProxyMapper.Valid, KeyProxyMapper.View, KeyProxyMapper.OnDisk, DiskStep;
    hide BackendObjects, BackendValid, Independent, ModuleManagerCache.AllMembers;
    forall q | q in mm.dbs
      ensures DiskStep(mm.dbs[q].OnDisk(), mm.dbs[q].OnDisk(), map[], false)
    {
      KeepsItself(mm.dbs[q].OnDisk());
      KeptIsStep(mm.dbs[q].OnDisk(), mm.dbs[q].OnDisk());
    }
  }

  /** Nothing is emptied, so what is kept is kept under all keys. */
  lemma KeptIsStep(d: DiskView, d': DiskView)
    requires Keeps(d, d')
    ensures DiskStep(d, d', map[], false)
  {
  }

  /** Making a cache first changes nothing in what an operation does. */
  lemma AfterGet(views: map<Ref, Plain>, op: Op)
    requires !op.ChangeSaveLocation?
    ensures var made := views[op.r := PlainOf(views, op.r)];
            && SpecStep(made, op) == SpecStep(views, op) && SpecObserve(made, op) == SpecObserve(views, op)
            && Emptied(made, op) == Emptied(views, op) && forall q :: Flushes(made, op, q) == Flushes(views, op, q)
  {
  }

  method Move(mm: ModuleManagerCache, op: Op)
    requires mm.Valid() && op.ChangeSaveLocation?
    modifies mm, mm.factory, mm.repr
    ensures mm.Valid() && fresh(mm.repr - old(mm.repr))
    ensures mm.dbs == old(mm.dbs) && mm.Views() == old(mm.Views())
    ensures DisksKept(mm, old(mm.Views()), op) && WritesOwn(mm, old(mm.Views()), op)
  {
    hide KeyProxyMapper.Valid, KeyProxyMapper.View, KeyProxyMapper.OnDisk, BackendObjects, BackendValid;
    hide ModuleManagerCache.AllMembers, ModuleManagerCache.Registered, DiskStep;
    mm.ChangeSaveLocation(op.cacheDisk, op.uuidDisk);
    mm.Unmoved();
    EachKeepsItself(mm, op);
  }

  /** One operation on a cache that is there. */
  method Apply(mm: ModuleManagerCache, op: Op, cache: ModuleCache) returns (obs: Observation)
    requires mm.Valid() && !op.ChangeSaveLocation? && op.r in mm.dbs && cache.db == mm.dbs[op.r]
    modifies mm.repr
    ensures mm.Valid() && mm.dbs == old(mm.dbs) && mm.repr == old(mm.repr)
    ensures obs == SpecObserve(old(mm.Views()), op)
    ensures mm.Views() == SpecStep(old(mm.Views()), op)
    ensures DisksKept(mm, old(mm.Views()), op) && WritesOwn(mm, old(mm.Views()), op)
  {
    hide KeyProxyMapper.Valid, KeyProxyMapper.View, KeyProxyMapper.OnDisk;
    hide BackendObjects, BackendValid, Keeps, KeepsBut, Independent, ErasedResults, KeyProxyMapper.Written;
    hide ModuleManagerCache.AllMembers, ModuleManagerCache.Registered, Erase, CacheKey, Unreserved;
    EachIsMember(mm);
    obs := Done;
    match op
    case Cache(r, k, v) =>
      EachIsMember(mm);
      Store(mm, r, cache, k, v);
      EachIsMember(mm);
      forall q | q in mm.dbs
        ensures DiskStep(old(mm.dbs[q].OnDisk()), mm.dbs[q].OnDisk(), map[], false)
      {
        KeptIsStep(old(mm.dbs[q].OnDisk()), mm.dbs[q].OnDisk());
      }
    case Clear(r) =>
      Empty(mm, r, cache);
    case Count(_, k) =>
      var found := Look(mm, op.r, cache, k);
      obs := Found(found);
      EachKeepsItself(mm, op);
    case Uncache(_, k) =>
      var value := Fetch(mm, op.r, cache, k);
      obs := Fetched(value);
      EachKeepsItself(mm, op);
    case GetOrMake(_) =>
      EachKeepsItself(mm, op);
  }

  method Execute(mm: ModuleManagerCache, op: Op) returns (obs: Observation)
    requires mm.Valid()
    modifies mm, mm.factory, mm.repr
    ensures mm.Valid() && fresh(mm.repr - old(mm.repr))
    ensures obs == SpecObserve(old(mm.Views()), op)
    ensures mm.Views() == SpecStep(old(mm.Views()), op)
    ensures forall q :: q in old(mm.dbs) ==> q in mm.dbs && mm.dbs[q] == old(mm.dbs)[q]
    ensures DisksKept(mm, old(mm.Views()), op) && WritesOwn(mm, old(mm.Views()), op)
  {
    hide KeyProxyMapper.Valid, KeyProxyMapper.View, KeyProxyMapper.OnDisk, KeyProxyMapper.Written, DiskStep;
    hide BackendObjects, BackendValid, Independent, ErasedResults;
    hide ModuleManagerCache.AllMembers, ModuleManagerCache.Registered, Erase;
    if op.ChangeSaveLocation? {
      Move(mm, op);
      return Done;
    }
    AfterGet(mm.Views(), op);
    var cache := Get(mm, op.r);
    hide SpecStep, SpecObserve, Emptied, Flushes, WritesUnder;
    obs := Apply(mm, op, cache);
  }

  /** Over every history, each cache is its own private plain map. */
  method RunHistory(archives: Archives, ops: seq<Op>) returns (obs: seq<Observation>)
    requires FaithfulArchives(archives)
    ensures obs == SpecRun(map[], ops)
  {
    hide KeyProxyMapper.Valid, KeyProxyMapper.View, KeyProxyMapper.Private;
    hide BackendObjects, BackendValid, Independent, SameOrApart;
    hide ModuleManagerCache.Consistent, ModuleManagerCache.Registered, ModuleManagerCache.Views;
    var mm := new ModuleManagerCache(archives);
    obs := [];
    var i := 0;
    while i < |ops|
      invariant 0 <= i <= |ops|
      invariant mm.Valid() && fresh(mm) && fresh(mm.factory) && fresh(mm.repr)
      invariant mm.Views() == SpecState(map[], ops[..i])
      invariant obs == SpecRun(map[], ops[..i])
    {
      SpecAppend(map[], ops[..i], ops[i]);
      assert ops[..i + 1] == ops[..i] + [ops[i]];
      var o := Execute(mm, ops[i]);
      obs := obs + [o];
      i := i + 1;
    }
    assert ops[..i] == ops;
  }

  // -------------------------------------------------------- histories on disk

  ghost predicate KeysUnreserved(op: Op) {
    op.Cache? ==> !HasName(op.key, RESERVED)
  }

  lemma StepUnreserved(views: map<Ref, Plain>, op: Op)
    requires AllUnreserved(views) && KeysUnreserved(op)
    ensures AllUnreserved(SpecStep(views, op))
  {
    if op.Cache? {
      SameNames(Erase(op.key), op.key, RESERVED);
    }
  }

  /** Over every history in which no input has the reserved name: what a cache
      finds on disk does not change, and what it can read there stays readable,
      until a cache that keeps its entries under the same key is cleared. */
  method RunOnDisk(mm: ModuleManagerCache, ops: seq<Op>, ghost q: Ref)
    requires mm.Valid() && q in mm.dbs && AllUnreserved(mm.Views())
    requires forall i :: 0 <= i < |ops| ==> KeysUnreserved(ops[i]) && !WritesUnder(ops[i], q)
    modifies mm, mm.factory, mm.repr
    ensures mm.Valid() && q in mm.dbs && mm.dbs[q] == old(mm.dbs[q])
    ensures Keeps(old(mm.dbs[q].OnDisk()), mm.dbs[q].OnDisk())
  {
    hide KeyProxyMapper.Valid, KeyProxyMapper.View, KeyProxyMapper.OnDisk, BackendObjects, BackendValid, Independent;
    hide ModuleManagerCache.AllMembers, ModuleManagerCache.Registered, CacheKey;
    hide AllUnreserved, SpecStep, KeysUnreserved, KeepsBut, WritesUnder, Unreserved;
    EachIsMember(mm);
    KeepsItself(mm.dbs[q].OnDisk());
    var i := 0;
    while i < |ops|
      invariant 0 <= i <= |ops| && mm.Valid() && fresh(mm.repr - old(mm.repr))
      invariant AllUnreserved(mm.Views()) && q in mm.dbs && mm.dbs[q] == old(mm.dbs[q]) && mm.Member(q)
      invariant Keeps(old(mm.dbs[q].OnDisk()), mm.dbs[q].OnDisk())
    {
      StepUnreserved(mm.Views(), ops[i]);
      EmptiedUnreserved(mm.Views(), ops[i]);
      var o := Execute(mm, ops[i]);
      EachIsMember(mm);
      i := i + 1;
    }
  }

  lemma EmptiedUnreserved(views: map<Ref, Plain>, op: Op)
    requires AllUnreserved(views)
    ensures Unreserved(Emptied(views, op))
  {
  }

  /** No cache that keeps its entries under the key of `q` holds anything for
      `key`. */
  ghost predicate HeldNowhere(views: map<Ref, Plain>, q: Ref, key: AnyMap) {
    forall r :: r in views && CacheKey(r) == CacheKey(q) ==> key !in views[r]
  }

  ghost predicate CachesAgain(op: Op, q: Ref, key: AnyMap) {
    op.Cache? && CacheKey(op.r) == CacheKey(q) && Erase(op.key) == key
  }

  lemma StepHeldNowhere(views: map<Ref, Plain>, op: Op, q: Ref, key: AnyMap)
    requires HeldNowhere(views, q, key) && !CachesAgain(op, q, key)
    ensures HeldNowhere(SpecStep(views, op), q, key)
    ensures WritesUnder(op, q) ==> key !in Emptied(views, op)
  {
  }

  /** One reading, over every history, clears of its own cache included: a result
      that can be read under `key` stays readable until a cache with the same key
      in the shared store caches something under `key` again. */
  method RunReading(mm: ModuleManagerCache, ops: seq<Op>, ghost q: Ref, ghost key: AnyMap, ghost value: AnyMap)
    requires mm.Valid() && q in mm.dbs && AllUnreserved(mm.Views()) && HeldNowhere(mm.Views(), q, key)
    requires forall i :: 0 <= i < |ops| ==> KeysUnreserved(ops[i]) && !CachesAgain(ops[i], q, key)
    requires (key, value) in mm.dbs[q].OnDisk().readable
    modifies mm, mm.factory, mm.repr
    ensures mm.Valid() && q in mm.dbs && mm.dbs[q] == old(mm.dbs[q])
    ensures (key, value) in mm.dbs[q].OnDisk().readable
  {
    hide KeyProxyMapper.Valid, KeyProxyMapper.View, KeyProxyMapper.OnDisk, BackendObjects, BackendValid, Independent;
    hide ModuleManagerCache.AllMembers, ModuleManagerCache.Registered, CacheKey, HeldNowhere, CachesAgain;
    hide AllUnreserved, SpecStep, KeysUnreserved, WritesUnder, Unreserved, Emptied;
    EachIsMember(mm);
    var i := 0;
    while i < |ops|
      invariant 0 <= i <= |ops| && mm.Valid() && fresh(mm.repr - old(mm.repr))
      invariant AllUnreserved(mm.Views()) && q in mm.dbs && mm.dbs[q] == old(mm.dbs[q]) && mm.Member(q)
      invariant HeldNowhere(mm.Views(), q, key) && (key, value) in mm.dbs[q].OnDisk().readable
    {
      StepUnreserved(mm.Views(), ops[i]);
      EmptiedUnreserved(mm.Views(), ops[i]);
      StepHeldNowhere(mm.Views(), ops[i], q, key);
      var o := Execute(mm, ops[i]);
      EachIsMember(mm);
      i := i + 1;
    }
  }

  // --------------------------------------------- what an earlier session left

  /** `q` has cached a result with these values in the first `n` operations. */
  ghost predicate CachedBy(ops: seq<Op>, n: nat, q: Ref, m: AnyMap) {
    exists i :: 0 <= i < n && i < |ops| && ops[i].Cache? && ops[i].r == q && Erase(ops[i].value) == m
  }

  ghost predicate AllCachedBy(ops: seq<Op>, n: nat, q: Ref, values: set<AnyMap>) {
    forall m :: m in values ==> CachedBy(ops, n, q, m)
  }

  lemma StepCachedBy(ops: seq<Op>, n: nat, views: map<Ref, Plain>, q: Ref)
    requires n < |ops| && AllCachedBy(ops, n, q, ErasedResults(PlainOf(views, q)))
    ensures AllCachedBy(ops, n + 1, q, ErasedResults(PlainOf(SpecStep(views, ops[n]), q)))
    ensures AllCachedBy(ops, n + 1, q, Flushes(views, ops[n], q))
  {
    var after := PlainOf(SpecStep(views, ops[n]), q);
    forall k | k in after
      ensures CachedBy(ops, n + 1, q, Erase(after[k]))
    {
      if k in PlainOf(views, q) && after[k] == PlainOf(views, q)[k] {
        assert CachedBy(ops, n, q, Erase(after[k]));
      }
    }
    forall m | m in Flushes(views, ops[n], q)
      ensures CachedBy(ops, n + 1, q, m)
    {
      assert CachedBy(ops, n, q, m);
    }
  }

  lemma NothingCachedBy(ops: seq<Op>)
    ensures forall q :: AllCachedBy(ops, 0, q, ErasedResults(PlainOf(map[], q)))
  {
  }

  lemma MoreCachedBy(ops: seq<Op>, n: nat, q: Ref, values: set<AnyMap>)
    requires n < |ops| && AllCachedBy(ops, n, q, values)
    ensures AllCachedBy(ops, n + 1, q, values)
  {
    forall m | m in values
      ensures CachedBy(ops, n + 1, q, m)
    {
      assert CachedBy(ops, n, q, m);
    }
  }

  /** A location that exists is not reused: over every history of a new manager,
      whatever is on the disks, a cache can read there only what it has cached in
      this session. */
  method RunOnOldDisks(mm: ModuleManagerCache, ops: seq<Op>)
    requires mm.Valid() && mm.Views() == map[]
    modifies mm, mm.factory, mm.repr
    ensures mm.Valid()
    ensures forall q, key, value :: q in mm.dbs && (key, value) in mm.dbs[q].OnDisk().readable ==>
              CachedBy(ops, |ops|, q, value)
  {
    hide KeyProxyMapper.Valid, KeyProxyMapper.View, KeyProxyMapper.OnDisk, BackendObjects, BackendValid, Independent;
    hide ModuleManagerCache.AllMembers, ModuleManagerCache.Registered, SpecStep, ErasedResults, Flushes, CachedBy;
    hide DisksKept, KeyProxyMapper.Written;
    NothingCachedBy(ops);
    assert mm.Views().Keys == mm.dbs.Keys;
    var i := 0;
    while i < |ops|
      invariant 0 <= i <= |ops| && mm.Valid() && fresh(mm.repr - old(mm.repr))
      invariant forall q :: AllCachedBy(ops, i, q, ErasedResults(PlainOf(mm.Views(), q)))
      invariant forall q :: q in mm.dbs ==> AllCachedBy(ops, i, q, mm.dbs[q].Written())
    {
      forall q
        ensures AllCachedBy(ops, i + 1, q, ErasedResults(PlainOf(SpecStep(mm.Views(), ops[i]), q)))
        ensures AllCachedBy(ops, i + 1, q, Flushes(mm.Views(), ops[i], q))
      {
        StepCachedBy(ops, i, mm.Views(), q);
      }
      label before:
      var o := Execute(mm, ops[i]);
      forall q | q in mm.dbs
        ensures AllCachedBy(ops, i + 1, q, mm.dbs[q].Written())
      {
        MoreCachedBy(ops, i, q, if q in old@before(mm.dbs) then old@before(mm.dbs[q].Written()) else {});
      }
      i := i + 1;
    }
    EachIsMember(mm);
    forall q, key, value | q in mm.dbs && (key, value) in mm.dbs[q].OnDisk().readable
      ensures CachedBy(ops, |ops|, q, value)
    {
      mm.dbs[q].ReadableIsWritten(key, value);
    }
  }
}
