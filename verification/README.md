# PluginPlay, verified in Dafny

PluginPlay runs scientific modules that call each other through property types and
remembers their results.  This project models four parts of it and proves what its
documentation and its design promise; where the code does something else, the code is
modelled and the exact condition is proved.  `dafny verify dfyconfig.toml` checks
everything.

**The cache stack** (`Fields`, `RocksStore`, `SerializedStore`, `UuidTable`,
`ProxyMaps`, `ModuleCaches`, `CacheManager`, `CacheHistory`).  Every layer is a class
with the fields of the source's class.  A module cache turns an input map into a map of
UUIDs, using a value-to-UUID table that all caches of a manager share, and keeps results
under it in memory; a backup goes through two more layers that share one binary store.
`CacheHistory.RunHistory` is the main theorem: over every history of making caches,
counting, caching, reading, clearing and changing the save location, the observations
are those of independent plain maps from erased input maps to result maps.
`CacheHistory.RunOnDisk` and `CacheHistory.RunReading` say over every history what stays
on disk, for all entries of a cache and for one of them.

**The module graph** (`ModuleGraph`, `Memoization`, `KeyStrength`, `MemoHistories`,
`RunLaws`, `Modules`).  Readiness, locking and memoized runs are functions on an acyclic graph of
modules; `Modules` has the objects that share submodules by pointer, and each of its
methods is proved to compute those functions and to be a step of the protocol.
`Memoization.RunKeepsGood` is the one induction over nested memoized runs: a run returns
what the algorithms return without caches, or it ends the program at a call that it
names.  `MemoHistories` puts the lock and the memoization together: a module that has
been run cannot change, so only calls within one wiring can find each other's results.
`MemoHistories.MemoizationIsRightIff` is the exact condition over all histories.
`RunLaws` says what a run and a key mean without the functions that compute them: a run
is a transcript of submodule calls, each with the outcome of the module set there on the
inputs passed down, and the UUIDs in a key are those at the ends of the submodule paths.

**The printers** (`Mermaid`, `MermaidReader`, `DrawnObjects`, `TextLines`, `RestPrinter`,
`RestReader`, `ModuleDocs`).  The Mermaid
printer draws the depth-first unfolding of the submodule names, and `DrawnObjects` says
when that is the unfolding of the module objects; the section printer's headings are read
back by the rule of the "Sections" part of the reStructuredText Markup Specification.
`MermaidReader` and `RestReader` read the printed text line by line and give back the
drawing and the sections.

**Property types** (`PropertyTypes`).  Field tuples, positional wrapping and unwrapping,
and property types declared in Python.

## What is assumed

Fields hold opaque objects compared by value.  The serializer is lossless and its
encodings are non-empty and self-delimiting (a prefix code); a database is a map of
binary strings; a generated UUID has not been issued before.  Algorithms are
deterministic and make boundedly many submodule calls.  The inputs passed to a run have
values.  Input maps are ordered by the character codes of the folded names; the
case-insensitive map belongs to a library that is not part of this model.

## Where the code and its documentation differ

- The binary store is documented to hide the splitting of large values.  An empty value
  is not found again, a short value written over a split one is ignored, a split value
  written over one with another number of chunks is read back wrong, and freeing a key
  that holds both kinds brings the short one back (`RocksStore.PlainMapFails`).
  `RocksStore.InsertIsPlain` and `RocksStore.FreeIsPlain` give the exact conditions.
  Which values are split is remembered in memory only, so split values are lost when the
  database is opened again (`RocksStore.ReopeningKeepsIff`).
- Freeing an unknown key is documented as a no-op; `KeyProxyMapper` throws exactly when a
  value of the key has no UUID, so on a new database for every key but the empty one
  (`CacheManager.FreeingUnknownThrows`).
- A disk location that exists is documented to be reused, and later caches to be loaded
  from it (`module_manager_cache.hpp:85-121`).  Neither ever happens: what lies there shows
  in no observation (`CacheHistory.DisksAreNotObserved`, `CacheHistory.RunHistory`), and a
  cache can read there only what it has cached in the same session
  (`CacheHistory.RunOnOldDisks`).  The entries themselves are there: a new session's cache
  with the same key finds each one that was not split (`CacheManager.NextSession`,
  `CacheManager.ClearThenNextSession`), but as UUIDs that it cannot decode.
- `dump` of a module's database backs the UUID table up before the results get their
  UUIDs, so a value that first appears in a result is on disk under a UUID that the disk
  does not know (`ModuleCaches.DecodableFromDisk`, `CacheManager.FirstFlushIsNotDecodable`);
  after the next clear of any cache with the same table it knows it
  (`ModuleCaches.ClearLater`).
- `lock` is documented with the strong guarantee; a throwing lock leaves submodules
  locked (`ModuleGraph.FailedLockLeavesTraces`, `ModuleGraph.ThrowingLockLocks`).
- Transparent inputs are documented as not influencing memoization; the code puts them
  into the key (`KeyStrength.TransparentInputIsInTheKey`), so the promise holds exactly for
  modules without any (`KeyStrength.TransparencyHonouredIff`).
- The key has the UUIDs of the submodules but not the inputs bound to them, so a copy,
  which shares the cache, can return a stale result (`MemoHistories.CopiesGoStale`).  It
  does not have the UUID of the module itself either, so a module that is added under the
  key of an erased one can return the erased one's results
  (`MemoHistories.ReplacedModuleGoesStale`).
- A memoized module with an unset optional input cannot store a result: its first run on a
  new manager runs its algorithm and, if that returns, ends the program instead of
  returning.  If the algorithm throws, the exception comes through until all values that
  come before the unset input in name order have UUIDs; from then on the lookup ends the
  program (`KeyStrength.ThrowerThrowsIff`, `KeyStrength.CompleteIffNoUnsetOptional`,
  `MemoHistories.MemoizationIsRightIff`).
- The Mermaid drawing follows names, and copies keep the name of their original: a
  submodule that is a copy is drawn with the submodules of the manager's module of that
  name (`DrawnObjects.DrawnAsUnfoldingIff`), and where a module has a copy of itself as its
  submodule the names have a cycle (`DrawnObjects.CopyMakesNamesCyclic`).
- Input maps ignore case when they are looked up, but the UUID maps made from them are
  compared with case; the reserved name of the shared store ignores case again
  (`ModuleCaches.ReservedNameIsShared`).

## Model

| member | source | states |
|---|---|---|
| RocksStore.ChunksRejoin | cxx/src/pluginplay/cache/database/rocksdb/detail_/rocksdb_pimpl.ipp:105-123 | the chunks of any value, in order, give it back; each fits in one entry and none is empty |
| RocksStore.InsertIsPlain | cxx/src/pluginplay/cache/database/rocksdb/detail_/rocksdb_pimpl.ipp:45-55 | an insertion is an ordinary map update if and only if the value is not empty and, if the key holds a split value, the new value splits into as many chunks; it never touches another key |
| RocksStore.InsertKeepsValid | cxx/src/pluginplay/cache/database/rocksdb/detail_/rocksdb_pimpl.ipp:125-139 | chunks stay under numbered subkeys, within the size limit and complete |
| RocksStore.FreeIsPlain | cxx/src/pluginplay/cache/database/rocksdb/detail_/rocksdb_pimpl.ipp:57-66 | freeing removes the key if and only if no whole value lies under its split one; it never touches another key |
| RocksStore.FreeKeepsValid | cxx/src/pluginplay/cache/database/rocksdb/detail_/rocksdb_pimpl.ipp:57-66 | the disk invariant survives every freeing |
| RocksStore.FreeRemovesPieces | cxx/src/pluginplay/cache/database/rocksdb/detail_/rocksdb_pimpl.ipp:152-156 | freeing a split value removes every piece and its record, and nothing else |
| RocksStore.WriteOnceIsPlain | cxx/src/pluginplay/cache/database/rocksdb/detail_/rocksdb_pimpl.hpp:29-33 | over every history that writes non-empty values under unused keys, the store is a plain map for values of any length |
| RocksStore.PlainMapFails | cxx/src/pluginplay/cache/database/rocksdb/detail_/rocksdb_pimpl.hpp:29-33 | four concrete inputs on which the store is not a plain map |
| RocksStore.ReopeningKeepsIff | cxx/src/pluginplay/cache/database/rocksdb/detail_/rocksdb_pimpl.ipp:26-28 | a database that is opened again shows the same map if and only if no value was split |
| RocksStore.ReopenedAt | cxx/src/pluginplay/cache/database/rocksdb/detail_/rocksdb_pimpl.ipp:26-28 | key by key: what was not split is found again as it was, under a split key only a whole value that lies under the pieces |
| RocksStore.RocksDb.Count | cxx/src/pluginplay/cache/database/rocksdb/detail_/rocksdb_pimpl.ipp:30-43 | true exactly on the keys of the map that the user of the store sees |
| RocksStore.RocksDb.SplitValue | cxx/src/pluginplay/cache/database/rocksdb/detail_/rocksdb_pimpl.ipp:105-123 | the loop's ranges are the chunks of the value |
| RocksStore.RocksDb.Insert | cxx/src/pluginplay/cache/database/rocksdb/detail_/rocksdb_pimpl.ipp:45-55 | the new tables are those of the specification, whichever branch is taken |
| RocksStore.RocksDb.LargeValueInsert | cxx/src/pluginplay/cache/database/rocksdb/detail_/rocksdb_pimpl.ipp:125-139 | stores every chunk under its subkey; subkeys already on record stay |
| RocksStore.RocksDb.Free | cxx/src/pluginplay/cache/database/rocksdb/detail_/rocksdb_pimpl.ipp:57-66 | the new tables are those of the specification |
| RocksStore.RocksDb.At | cxx/src/pluginplay/cache/database/rocksdb/detail_/rocksdb_pimpl.ipp:68-81 | the value in the user's map, or the empty reference |
| RocksStore.RocksDb.LargeValueAt | cxx/src/pluginplay/cache/database/rocksdb/detail_/rocksdb_pimpl.ipp:141-150 | the recorded chunks in order |
| SerializedStore.EncodedKeysApart | cxx/src/pluginplay/cache/database/serialized.ipp:59-67 | subkeys of encoded keys never collide with encoded keys or with each other |
| SerializedStore.Serialized.Count | cxx/src/pluginplay/cache/database/serialized.ipp:31-36 | true exactly on the keys of the object map |
| SerializedStore.Serialized.Insert | cxx/src/pluginplay/cache/database/serialized.ipp:38-43 | a map update unless another number of pieces is on record for the key; other keys never change |
| SerializedStore.Serialized.Free | cxx/src/pluginplay/cache/database/serialized.ipp:45-48 | the key goes, unless a whole value lies under its split one; other keys never change |
| SerializedStore.Serialized.PlainIffSamePieces | cxx/src/pluginplay/cache/database/serialized.ipp:38-43 | the binary store's guard in terms of objects: no pieces on record, or as many |
| SerializedStore.Serialized.At | cxx/src/pluginplay/cache/database/serialized.ipp:50-57 | decoding what was stored gives the object back |
| SerializedStore.Serialized.OpensWhatWasLeft | cxx/src/pluginplay/cache/database/rocksdb/detail_/rocksdb_pimpl.ipp:26-28 | a store on the location of an earlier one finds every object that was not split as it was, and under a split key something exactly when a whole value lies there |
| UuidTable.GuardKeepsOneToOne | cxx/src/pluginplay/cache/uuid_mapper.ipp:34-38 | a fresh UUID keeps the table one-to-one if and only if the value had no UUID yet |
| UuidTable.ScanIsStable | cxx/src/pluginplay/cache/database/transposer.ipp:59-65 | in a one-to-one table the scan has one answer, and growth of the table does not change it |
| Fields.ErasesOnlyMetadata | cxx/src/pluginplay/cache/database/type_eraser.ipp:57-60 | two maps are erased to the same if and only if they have the same names with equal values |
| Fields.FoldIgnoresCase | cxx/include/pluginplay/types.hpp:66-73 | names are one key if and only if they differ at most in the case of letters |
| UuidTable.UuidNative.Backup | cxx/src/pluginplay/cache/database/native.ipp:58-62 | the backup holds the whole table over what it held before, for values of any length |
| UuidTable.Transposer.Count | cxx/src/pluginplay/cache/database/transposer.ipp:36-41 | true exactly when some stored UUID has the value |
| UuidTable.Transposer.At | cxx/src/pluginplay/cache/database/transposer.ipp:59-65 | a UUID that the value has, or the exception when it has none |
| UuidTable.Transposer.Scan | cxx/src/pluginplay/cache/database/transposer.ipp:38-39 | the loop over the stored UUIDs finds one exactly when there is one |
| UuidTable.Transposer.Insert | cxx/src/pluginplay/cache/database/transposer.ipp:43-47 | stores the pair backwards, over whatever the UUID held |
| UuidTable.TypeEraser.At | cxx/src/pluginplay/cache/database/type_eraser.ipp:51-60 | metadata is dropped before the shared table is asked |
| UuidTable.UuidMapper.Insert | cxx/src/pluginplay/cache/uuid_mapper.ipp:34-38 | a known value keeps its UUID; the shared table stays one-to-one, only grows, and stays fit for its backup |
| UuidTable.UuidMapper.At | cxx/src/pluginplay/cache/uuid_mapper.ipp:43-47 | the one UUID of the value |
| ProxyMaps.ProxyIsInjective | cxx/src/pluginplay/cache/proxy_map_maker.ipp:55-61 | two input maps have one proxy map if and only if they have the same names with equal erased values |
| ProxyMaps.ProxyIsStable | cxx/src/pluginplay/cache/proxy_map_maker.ipp:44-48 | proxies stay what they are while other caches insert |
| ProxyMaps.ProxyExists | cxx/src/pluginplay/cache/proxy_map_maker.ipp:37-42 | a map has a proxy map if and only if all its values have UUIDs |
| ProxyMaps.ViewAt | cxx/src/pluginplay/cache/database/key_proxy_mapper.ipp:55-59 | looking up by proxy map is looking up by erased values |
| ProxyMaps.ViewUpdate | cxx/src/pluginplay/cache/database/key_proxy_mapper.ipp:44-48 | storing under a proxy map updates the view at exactly the erased map |
| ProxyMaps.ViewRemove | cxx/src/pluginplay/cache/database/key_proxy_mapper.ipp:50-53 | removing a proxy map removes exactly the erased map from the view |
| ProxyMaps.ViewIsStable | cxx/src/pluginplay/cache/database/database_factory.cpp:48-62 | growth of the shared table is invisible in every cache's view |
| ProxyMaps.ProxyMapMaker.Count | cxx/src/pluginplay/cache/proxy_map_maker.ipp:37-42 | true exactly when a proxy map exists |
| ProxyMaps.ProxyMapMaker.At | cxx/src/pluginplay/cache/proxy_map_maker.ipp:55-61 | the proxy map of the argument, or the exception when a value is unknown |
| ProxyMaps.ProxyMapMaker.Insert | cxx/src/pluginplay/cache/proxy_map_maker.ipp:44-48 | afterwards the proxy map exists and can be decoded; exactly its values are new in the table, and nothing known changes |
| ProxyMaps.ProxyMapMaker.UnProxy | cxx/src/pluginplay/cache/proxy_map_maker.ipp:63-67 | gives back a map with the values that the proxy map stands for |
| ProxyMaps.AtThenUnProxy | cxx/src/pluginplay/cache/proxy_map_maker.ipp:55-67 | turning a map into proxies and back succeeds, with equal values, if and only if this maker was given such a map |
| ModuleCaches.InjectSeparates | cxx/src/pluginplay/cache/database/key_injector.ipp:67-71 | without the reserved name, keys of different modules never meet, and a module's own keys stay apart |
| ModuleCaches.ReservedNameIsShared | cxx/src/pluginplay/cache/database/key_injector.ipp:67-71 | a key that has the reserved name, in any case, is one entry for all modules |
| ModuleCaches.KeyInjector.Insert | cxx/src/pluginplay/cache/database/key_injector.ipp:53-56 | one entry of the shared store changes, and it arrives unless another number of pieces is on record |
| ModuleCaches.KeyInjector.Free | cxx/src/pluginplay/cache/database/key_injector.ipp:58-59 | one entry of the shared store goes, and no other changes |
| ModuleCaches.InsertIsIsolated | cxx/src/pluginplay/cache/database/key_injector.hpp:25-43 | an insertion of one module leaves what another one sees unchanged |
| ModuleCaches.FreeIsIsolated | cxx/src/pluginplay/cache/database/key_injector.hpp:25-43 | so does freeing |
| ModuleCaches.ValueProxyMapper.Insert | cxx/src/pluginplay/cache/database/value_proxy_mapper.ipp:37-41 | a result map is stored as the map of its UUIDs, which stands for its values, unless another number of pieces is on record |
| ModuleCaches.ValueProxyMapper.At | cxx/src/pluginplay/cache/database/value_proxy_mapper.ipp:48-53 | decodes to a map with equal values, or throws on what it did not write |
| ModuleCaches.ResultNative.Backup | cxx/src/pluginplay/cache/database/native.ipp:58-62 | every entry reaches the long-term store, key by key, whenever the pieces on record agree; other modules' entries do not change |
| ModuleCaches.ResultNative.Dump | cxx/src/pluginplay/cache/database/native.ipp:64-68 | backs up and then empties the memory |
| ModuleCaches.KeyProxyMapper.Count | cxx/src/pluginplay/cache/database/key_proxy_mapper.ipp:36-42 | true exactly on the erased maps of the view |
| ModuleCaches.KeyProxyMapper.Insert | cxx/src/pluginplay/cache/database/key_proxy_mapper.ipp:44-48 | updates the view at the erased key and nothing else; exactly the values of the key get UUIDs |
| ModuleCaches.KeyProxyMapper.Free | cxx/src/pluginplay/cache/database/key_proxy_mapper.ipp:50-53 | removes the key from the view; throws exactly when a value has no UUID |
| ModuleCaches.KeyProxyMapper.At | cxx/src/pluginplay/cache/database/key_proxy_mapper.ipp:55-59 | the result in the view |
| ModuleCaches.KeyProxyMapper.Dump | cxx/src/pluginplay/cache/database/key_proxy_mapper.ipp:67-73 | the view is empty, the results are in the long-term store, the UUID backup has the table of before, exactly the values of the flushed results get UUIDs, and exactly the results whose values were known then can be decoded from disk alone |
| ModuleCaches.KeyProxyMapper.Undisturbed | cxx/src/pluginplay/cache/database/database_factory.cpp:48-62 | what other caches do to the shared objects leaves this cache valid with the same view |
| ModuleCaches.ClearThenRead | cxx/src/pluginplay/cache/database/native.hpp:106-125 | after clearing, the long-term chain gives back every result that arrived, with equal values, of any length |
| ModuleCaches.ReadBack | cxx/src/pluginplay/cache/database/value_proxy_mapper.ipp:48-53 | reading the long-term chain finds a result if and only if the disk and this mapper's memory have it |
| ModuleCaches.KeyProxyMapper.ReadableIsWritten | cxx/src/pluginplay/cache/proxy_map_maker.ipp:63-67 | whatever lies on disk, a cache can read only results that it has flushed itself |
| ModuleCaches.FlushKeepsReadable | cxx/src/pluginplay/cache/database/database_factory.cpp:64-90 | a flush leaves readable, for every cache on the same table and store, what it does not write again |
| ModuleCaches.FlushedIsReadable | cxx/src/pluginplay/cache/database/database_factory.cpp:64-90 | after a flush every entry whose pieces agree with the record can be read under this module's key |
| ModuleCaches.FlushIsIsolated | cxx/src/pluginplay/cache/database/database_factory.cpp:70-74 | a flush leaves every other module's long-term entries alone |
| ModuleCaches.DecodableFromDisk | cxx/src/pluginplay/cache/database/key_proxy_mapper.ipp:67-73 | a flushed result can be decoded, to the right values, from disk alone if and only if all its values had UUIDs before the flush |
| CacheManager.FirstFlushIsNotDecodable | cxx/src/pluginplay/cache/database/key_proxy_mapper.ipp:67-73 | on a new location the first result of a call without inputs cannot be decoded from disk after the flush |
| CacheManager.FreeingUnknownThrows | cxx/src/pluginplay/cache/database/key_proxy_mapper.ipp:50-53 | on a new database freeing throws for every key but the empty one |
| ModuleCaches.ClearLater | cxx/src/pluginplay/cache/database/key_proxy_mapper.ipp:67-73 | after the next clear of any cache with the same table the disk alone decodes, to the right values, everything flushed before |
| ModuleCaches.ClearTwice | cxx/src/pluginplay/cache/database/key_proxy_mapper.ipp:67-73 | so it does after a second clear of the cache itself |
| ModuleCaches.ModuleCache.Count | cxx/src/pluginplay/cache/module_cache.cpp:31-34 | membership in the view |
| ModuleCaches.ModuleCache.Cache | cxx/src/pluginplay/cache/module_cache.cpp:36-38 | updates the view at the erased key; exactly the values of the key get UUIDs |
| ModuleCaches.ModuleCache.Uncache | cxx/src/pluginplay/cache/module_cache.cpp:40-44 | the cached result, or the exception |
| ModuleCaches.ModuleCache.Clear | cxx/src/pluginplay/cache/module_cache.cpp:46-49 | empties the view and flushes it to the long-term store; exactly the values of the flushed results get UUIDs, and none without a save location |
| ModuleCaches.UserCache.Cache | cxx/include/pluginplay/cache/user_cache.ipp:27-32 | one object is cached under one object's erased value |
| ModuleCaches.UserCache.Uncache | cxx/include/pluginplay/cache/user_cache.ipp:34-39 | gives the object back, or throws when there is none or it has another type |
| CacheManager.DatabaseFactory.DefaultModuleDb | cxx/src/pluginplay/cache/database/database_factory.cpp:48-62 | a new chain with private layers on the factory's shared table and store, with an empty view |
| CacheManager.DatabaseFactory.Pm2ResultDb | cxx/src/pluginplay/cache/database/database_factory.cpp:64-93 | a results store, with a long-term chain exactly when there is a disk location |
| CacheManager.DatabaseFactory.SetSerializedPmToPm | cxx/src/pluginplay/cache/database/database_factory.cpp:95-101 | the new store of proxied results is opened on exactly what lies at the given location; every earlier chain keeps its own |
| CacheManager.DatabaseFactory.SetTypeEraserBackend | cxx/src/pluginplay/cache/database/database_factory.cpp:111-123 | the new UUID table is empty and its backup is opened on exactly what lies at the given location |
| CacheManager.MangleInjective | cxx/src/pluginplay/cache/module_manager_cache.cpp:82-91 | user caches of different modules have different keys |
| CacheManager.CacheKeysClash | cxx/src/pluginplay/cache/module_manager_cache.cpp:82-98 | two caches have one key if and only if a module's key has the mangled form of a user cache's |
| CacheManager.ModuleManagerCache.SharedEntries | cxx/src/pluginplay/cache/database/key_injector.ipp:67-71 | caches with one key on one long-term store find the same entries there; with different keys they use different ones |
| CacheManager.ModuleManagerCache.ClearKeepsDisk | cxx/src/pluginplay/cache/database/database_factory.cpp:70-74 | clearing a cache takes nothing from disk that a cache with another key finds or reads |
| CacheManager.ModuleManagerCache.GetOrMakeModuleCache | cxx/src/pluginplay/cache/module_manager_cache.cpp:73-80 | an old key gives the same object, a new one an empty cache on the current table and store; no other view changes |
| CacheManager.ModuleManagerCache.GetOrMakeUserCache | cxx/src/pluginplay/cache/module_manager_cache.cpp:82-91 | the same for user caches under mangled keys |
| CacheManager.ModuleManagerCache.ChangeSaveLocation | cxx/src/pluginplay/cache/module_manager_cache.cpp:57-71 | the results store is opened on what lies at the location for results, the backup of the new UUID table on what lies at the one for UUIDs; every earlier cache is the same object with the same view |
| CacheManager.NextSession | cxx/src/pluginplay/cache/module_manager_cache.cpp:57-71 | a new manager that is pointed at the location of a cache, and asked for a cache with its key, has an empty cache whose long-term store holds, entry by entry, what the earlier one left there, split values excepted; so does the backup of the UUID table |
| CacheManager.ClearThenNextSession | cxx/src/pluginplay/cache/module_manager_cache.cpp:57-71 | in particular every result that the earlier cache flushed on its last clear, if it was not split, is found under its proxied key |
| CacheManager.ModuleManagerCache.StepIsPrivate | cxx/include/pluginplay/cache/module_manager_cache.hpp:111-121 | a step of one cache changes no other cache's view |
| CacheHistory.OnlyOwnOperationsMatter | cxx/src/pluginplay/cache/module_manager_cache.cpp:73-98 | what a cache holds depends on its own operations only |
| CacheHistory.DisksAreNotObserved | cxx/include/pluginplay/cache/module_manager_cache.hpp:85-121 | histories that differ only in what lies at the save locations have the same observations |
| CacheHistory.Empty | cxx/src/pluginplay/cache/module_cache.cpp:46-49 | clearing empties one view; on disk it leaves other keys alone, and under its own key what it does not hold in memory; it flushes only what it held |
| CacheHistory.Execute | cxx/src/pluginplay/cache/module_cache.cpp:31-49 | one operation on the real objects observes and does what the plain maps do, and every cache that it spares keeps its disk |
| CacheHistory.RunHistory | cxx/src/pluginplay/cache/module_manager_cache.cpp:57-98 | over every history each cache behaves as its own private plain map |
| CacheHistory.RunOnDisk | cxx/src/pluginplay/cache/module_manager_cache.cpp:57-98 | over every history, what a cache finds on disk stays and what it can read stays readable until a cache with its key is cleared |
| CacheHistory.RunReading | cxx/src/pluginplay/cache/module_manager_cache.cpp:57-98 | over every history, its own clears included, one result stays readable under its key until a cache with the same key on disk caches something under it again |
| CacheHistory.RunOnOldDisks | cxx/include/pluginplay/cache/module_manager_cache.hpp:85-121 | over every history of a new manager, whatever is on the disks, a cache can read there only what it has cached in this session |
| ModuleGraph.ReadyIffNothingBlocks | cxx/src/pluginplay/module/detail_/module_pimpl.ipp:35-56 | ready if and only if no path of submodules leads to a request without a module or to a required input that is neither bound nor supplied |
| ModuleGraph.ReadyIsMonotone | cxx/src/pluginplay/module/detail_/module_pimpl.ipp:42-45 | supplying more inputs never makes a module unready |
| ModuleGraph.LockSucceeds | cxx/src/pluginplay/module/detail_/module_pimpl.ipp:252-255 | locking succeeds if and only if every direct submodule request is ready |
| ModuleGraph.LockKeepsClosed | cxx/src/pluginplay/module/detail_/module_pimpl.ipp:252-255 | submodules of locked modules are locked, also after a lock that throws |
| ModuleGraph.LockedAllTheWay | cxx/src/pluginplay/module/detail_/module_pimpl.hpp:282-293 | everything reachable from a locked module is locked |
| ModuleGraph.LockedIsFixed | cxx/src/pluginplay/module/detail_/module_pimpl.ipp:252-255 | locking a locked module changes nothing |
| ModuleGraph.LockStaysBelow | cxx/src/pluginplay/module/detail_/module_pimpl.ipp:252-255 | only modules reachable from the locked one get locked |
| ModuleGraph.FailedLockLeavesTraces | cxx/src/pluginplay/module/detail_/module_pimpl.hpp:290-291 | a throwing lock changes nothing if and only if all submodules before the unready one were locked already |
| ModuleGraph.ThrowingLockLocks | cxx/src/pluginplay/module/detail_/module_pimpl.hpp:290-291 | a concrete wiring in which a throwing lock leaves a submodule locked |
| ModuleGraph.StepKeepsLocks | cxx/include/pluginplay/module/module_class.hpp:783-808 | every operation keeps the closure and freezes what is locked |
| ModuleGraph.StepKeepsTypes | cxx/src/pluginplay/module/module.cpp:80-91 | no operation sets a submodule that does not satisfy the type asked for |
| ModuleGraph.FittingSubmodIsSet | cxx/src/pluginplay/module/module.cpp:80-91 | on an open module, one that satisfies it is always set, and nothing else changes |
| ModuleGraph.RunLocks | cxx/src/pluginplay/module/detail_/module_pimpl.ipp:163-200 | a module that was ready and has been run is locked, with everything reachable from it |
| ModuleGraph.FrozenForever | cxx/include/pluginplay/module/module_class.hpp:848-850 | over every history, what is reachable from a locked module stays locked with its inputs and wiring |
| Memoization.RunKeepsGood | cxx/src/pluginplay/module/detail_/module_pimpl.ipp:163-200 | the induction behind all of these: for any notion of good results that calls find and store, a run from good caches leaves good caches and is right, or ends the program at the named call |
| Memoization.RunIsSound | cxx/src/pluginplay/module/detail_/module_pimpl.ipp:163-200 | over any wirings that follow each other, locked or not: if equal keys give equal results, a run returns what the algorithms return without caches, nested runs included, or ends the program at a call with a valueless input, which is named together with the calls that lead to it |
| Memoization.StoreTouchesOneEntry | cxx/src/pluginplay/module/detail_/module_pimpl.ipp:196-199 | storing a result changes one entry of one cache, and gives UUIDs to the values of the key in the table that this cache uses and in no other |
| Memoization.ClearForgets | cxx/src/pluginplay/cache/database/native.ipp:64-68 | a cleared cache holds nothing, the others hold what they held, and only values of flushed results get UUIDs |
| RunLaws.EvalIffTranscript | cxx/src/pluginplay/module/detail_/module_pimpl.ipp:188-189 | a run has an outcome if and only if there is a transcript that ends in it: each call it makes has the outcome of a run of the module set under the key with exactly the inputs passed down, or throws if none is set |
| RunLaws.PassedDownIsRead | cxx/include/pluginplay/module/module_class.hpp:821-825 | a concrete wiring, for any value, in which a module returns what its submodule makes of the input passed down |
| RunLaws.SupplyingIsBinding | cxx/src/pluginplay/module/detail_/module_pimpl.ipp:237-250 | supplying an input to a run is binding it first: same readiness, same merged inputs, same outcome |
| RunLaws.SuppliedWins | cxx/src/pluginplay/module/detail_/module_pimpl.ipp:237-250 | what is bound to an input that the caller supplies does not matter |
| RunLaws.MemoizableIff | cxx/src/pluginplay/module/detail_/module_pimpl.ipp:113-121 | memoizable if and only if every module on every path of submodules has a UUID and memoization switched on |
| RunLaws.UuidsAreThePaths | cxx/src/pluginplay/module/detail_/module_pimpl.ipp:224-235 | with plain distinct keys at each level, the UUIDs in the key are, for every non-empty path of set submodules, the UUID at its end under its keys joined by colons, and nothing else |
| MemoHistories.RunKeepsSourced | cxx/src/pluginplay/module/detail_/module_pimpl.ipp:163-200 | if keys decide within the wiring, a run of a locked module, nested runs included, stores only what locked modules compute, and it is right unless it ends at a call with a valueless input |
| MemoHistories.MoveKeepsSourced | cxx/src/pluginplay/module/detail_/module_pimpl.ipp:163-200 | so does every operation: a run, a reconfiguration that the lock lets through, a copy, a new module, a cache reset, a value stored elsewhere |
| MemoHistories.IllKeyedGoesWrong | cxx/src/pluginplay/module/detail_/module_pimpl.ipp:183-199 | a history that reaches a state that is not well keyed can be continued to a wrong run |
| MemoHistories.FatalIsReached | cxx/src/pluginplay/module/detail_/module_pimpl.ipp:183-199 | where some run would end the program, however deeply nested, a history reaches a state that is not well keyed |
| MemoHistories.MemoizationIsRightIff | cxx/src/pluginplay/module/detail_/module_pimpl.ipp:163-200 | memoization is right in every history that the lock allows if and only if, in each reachable state, keys decide results and no call stores a key with a valueless input or looks one up whose earlier values all have UUIDs |
| MemoHistories.RightWithAnythingOutsideIff | cxx/include/pluginplay/cache/user_cache.ipp:27-32 | if other users of the tables may store anything, that is if and only if keys decide results and no call that can reach a cache has a valueless input |
| MemoHistories.PrivateCachesAreRight | cxx/src/pluginplay/module/detail_/module_pimpl.ipp:163-200 | if no two modules, erased ones included, share a cache and none is copied or added so that they do, algorithms read values only and no optional input is unset, every history is right, whatever the keys |
| MemoHistories.CopiesGoStale | cxx/include/pluginplay/module/module_class.hpp:783-787 | a concrete history from such a wiring in which a copy shares the cache and returns a stale result |
| MemoHistories.ReplacedModuleGoesStale | cxx/src/pluginplay/module_manager/detail_/module_manager_pimpl.ipp:31-60 | a concrete history in which a module added under the key of an erased one gets its cache and returns its result |
| KeyStrength.CompleteIffNoUnsetOptional | cxx/src/pluginplay/module/detail_/module_pimpl.ipp:237-250 | a runnable module never meets a valueless input if and only if no optional input is unset |
| KeyStrength.ThrowerThrowsIff | cxx/src/pluginplay/cache/proxy_map_maker.ipp:37-42 | with an unset optional input and an algorithm that throws, a run throws too if and only if one of the values before the gap has no UUID |
| KeyStrength.AlikeCompute | cxx/src/pluginplay/module/detail_/module_pimpl.ipp:188-189 | modules with the same code, inputs and alike submodules compute the same |
| KeyStrength.UuidIsRecorded | cxx/src/pluginplay/module/detail_/module_pimpl.ipp:224-235 | with plain distinct keys the key of a call records each submodule's UUID |
| KeyStrength.KeyDecidesWhenPinned | cxx/src/pluginplay/module/detail_/module_pimpl.ipp:224-250 | the key decides the result if submodules with one UUID are always set up alike |
| KeyStrength.SubmoduleInputsAreNotInTheKey | cxx/src/pluginplay/module/detail_/module_pimpl.ipp:242-248 | a concrete wiring in which the second of two modules returns the first one's result |
| KeyStrength.TransparentInputIsInTheKey | cxx/include/pluginplay/fields/module_input.hpp:163-176 | two calls that differ in a transparent input only have different keys |
| KeyStrength.TransparencyHonouredIff | cxx/include/pluginplay/fields/module_input.hpp:163-176 | calls that agree on all inputs that are not transparent have one key if and only if no input is transparent |
| Modules.Module.CopyOf | cxx/src/pluginplay/module/module.cpp:29-30 | a copy keeps the lock and shares the submodules; a step of the protocol |
| Modules.Module.UnlockedCopy | cxx/include/pluginplay/module/module_class.hpp:783-787 | the copy is open with the same settings; a step of the protocol |
| Modules.Module.AddModule | cxx/src/pluginplay/module_manager/detail_/module_manager_pimpl.ipp:31-60 | a new open module with the given cache and nothing set; a step of the protocol |
| Modules.Module.ChangeInput | cxx/include/pluginplay/module/module_class.hpp:796-808 | binds the value on an open module that has the input, otherwise changes nothing; a step of the protocol |
| Modules.Module.ChangeSubmod | cxx/src/pluginplay/module/module.cpp:80-91 | sets the submodule on an open module if it satisfies the requested type; a step of the protocol |
| Modules.Module.AddPropertyType | cxx/include/pluginplay/module/module_class.hpp:814-818 | only on an open module; a step of the protocol |
| Modules.Module.SetMemoization | cxx/src/pluginplay/module/detail_/module_pimpl.ipp:138-146 | changes one flag, locked or not; a step of the protocol |
| Modules.Module.Ready | cxx/src/pluginplay/module/detail_/module_pimpl.ipp:35-56 | the recursion over shared submodules decides readiness of the graph |
| Modules.Module.Lock | cxx/src/pluginplay/module/detail_/module_pimpl.ipp:252-255 | locks the modules that locking the graph locks; changes nothing else |
| Modules.Module.IsMemoizable | cxx/src/pluginplay/module/detail_/module_pimpl.ipp:113-121 | throws exactly when it meets a request without a module; otherwise memoizable down to every submodule |
| Modules.Module.GetSubmodUuids | cxx/src/pluginplay/module/detail_/module_pimpl.ipp:224-235 | throws exactly when some request below has no module; otherwise the UUIDs of all submodules, at every depth, under scoped keys (`RunLaws.UuidsAreThePaths`) |
| Modules.Module.MergeInputs | cxx/src/pluginplay/module/detail_/module_pimpl.ipp:237-250 | the caller's inputs, then the bound ones, then the UUIDs (`RunLaws.SupplyingIsBinding`, `RunLaws.SuppliedWins`); throws when they cannot be had |
| Modules.Module.Run | cxx/src/pluginplay/module/detail_/module_pimpl.ipp:163-200 | result, caches and locks are those of the run on the graph, nested runs included |
| Modules.Module.RunLocked | cxx/src/pluginplay/module/detail_/module_pimpl.ipp:181-199 | memoized or not, once the module is locked |
| Modules.Module.RunMemoized | cxx/src/pluginplay/module/detail_/module_pimpl.ipp:183-199 | the lookup in name order, the computation and the storing, and where they end the program |
| Modules.MemoCache.Count | cxx/src/pluginplay/cache/proxy_map_maker.ipp:37-42 | the scan finds a result exactly under complete keys of known values; it ends the program exactly when all values before an unset input have UUIDs |
| Modules.MemoCache.Cache | cxx/src/pluginplay/cache/database/key_proxy_mapper.ipp:44-48 | one entry, and UUIDs for its key's values in all caches that share the table |
| Modules.MemoCache.Clear | cxx/src/pluginplay/cache/database/native.ipp:64-68 | empties the cache; a flush gives its results' values UUIDs |
| Modules.Module.RunBase | cxx/src/pluginplay/module/detail_/module_pimpl.ipp:188-189 | the developer's code with its submodule calls, each run with the inputs passed down (`RunLaws.EvalIffTranscript`); locks nothing new |
| Modules.Module.ResetCache | cxx/src/pluginplay/module/detail_/module_pimpl.ipp:129-131 | clears the cache, if there is one |
| Mermaid.NextAddsOne | cxx/src/pluginplay/printing/mermaid.cpp:23-33 | the next code is one more modulo 26 to its length, for any length |
| Mermaid.ValueOfCode | cxx/src/pluginplay/printing/mermaid.cpp:23-33 | the code of k has value k modulo 26 to its length |
| Mermaid.AddLetter | cxx/src/pluginplay/printing/mermaid.cpp:23-33 | the in-place odometer computes the next code |
| Mermaid.NodesArePaths | cxx/src/pluginplay/printing/mermaid.cpp:35-55 | the nodes drawn for a module are exactly the paths of its unfolding |
| Mermaid.NodesAreSorted | cxx/src/pluginplay/printing/mermaid.cpp:43-54 | they are drawn once each, in depth-first order |
| Mermaid.EdgeStartsAtParent | cxx/src/pluginplay/printing/mermaid.cpp:40-45 | every arrow starts at the label its parent was printed with |
| Mermaid.ArrowSaysRequest | cxx/src/pluginplay/printing/mermaid.cpp:43-53 | every arrow has the key of a request of the module at its tail, and its head the name of the module that is set there, or the text that none is |
| Mermaid.PrintSubmods | cxx/src/pluginplay/printing/mermaid.cpp:35-55 | terminates on acyclic names, prints the arrows of the unfolding in order and advances the code by their number; fails exactly when a name is missing |
| Mermaid.CreateMermaidGraph | cxx/src/pluginplay/printing/mermaid.cpp:57-75 | the text is one flowchart per module with node numbers running on; fails exactly when some module cannot be drawn |
| Mermaid.PrintableIffClosed | cxx/src/pluginplay/module_manager/detail_/module_manager_pimpl.ipp:71-78 | all modules can be drawn if and only if every submodule that is set has the name of a managed module |
| Mermaid.KthNodeIsNumberK | cxx/src/pluginplay/printing/mermaid.cpp:60-72 | counting across all modules, the k-th printed node has number k |
| Mermaid.LabelsDistinct | cxx/src/pluginplay/printing/mermaid.cpp:60-72 | labels are pairwise distinct if and only if at most 17576 nodes are printed |
| MermaidReader.LinkLineIsRead | cxx/src/pluginplay/printing/mermaid.cpp:44-51 | a reader of a printed arrow finds its two codes, its key and its label if and only if the key has no bar |
| MermaidReader.ArrowsAreRead | cxx/src/pluginplay/printing/mermaid.cpp:43-54 | between any other lines, the printed arrows are read back in order |
| MermaidReader.ChartsAreRead | cxx/src/pluginplay/printing/mermaid.cpp:57-75 | from the whole text a reader gets every node and every arrow of the unfolding, with codes, keys and labels, in order |
| DrawnObjects.DrawnAsUnfoldingIff | cxx/src/pluginplay/printing/mermaid.cpp:35-55 | a module is drawn as the unfolding of its pointers, nodes, keys and labels, if and only if each submodule has, all the way down, the submodules of the manager's module of its name |
| DrawnObjects.LikeIsAsDeep | cxx/src/pluginplay/printing/mermaid.cpp:38-39 | objects that agree with the manager's module of one name have unfoldings of one depth |
| DrawnObjects.NamesFormNoCycle | cxx/src/pluginplay/printing/mermaid.cpp:35-55 | if all modules of the manager are like that, names form no cycle and every name is found |
| DrawnObjects.CopyMakesNamesCyclic | cxx/src/pluginplay/module/module.cpp:29-30 | a concrete acyclic graph of objects, a module with a copy of itself as its submodule, whose names are cyclic |
| RestPrinter.Printer.StartSection | cxx/src/pluginplay/printing/detail_/rest_printer.cpp:30-43 | prints a heading in the style of the depth, and says what that does to the text before and after it; fails, changing nothing, exactly when a kind of adornment is used up |
| RestPrinter.Printer.FinishSection | cxx/src/pluginplay/printing/detail_/rest_printer.cpp:45-48 | leaves one section; fails exactly outside every section |
| RestPrinter.ForestRuns | cxx/src/pluginplay/printing/detail_/rest_printer.hpp:49-51 | a forest can be printed at a depth if and only if it is not too high for the styles left |
| RestPrinter.BuildFlatten | cxx/src/pluginplay/printing/detail_/rest_printer.hpp:24-31 | levels and titles in document order determine the forest |
| RestPrinter.ReadAsItStands | cxx/src/pluginplay/printing/detail_/rest_printer.cpp:39-41 | a title is read as it stands, under any style, if and only if it is one line without blanks at its ends and not of one adornment character |
| RestPrinter.ReadsBackIff | cxx/src/pluginplay/printing/detail_/rest_printer.cpp:36-41 | reading recovers levels and titles if and only if the styles in use are legible and different and the titles plain |
| RestPrinter.ForestIsRebuiltIff | cxx/src/pluginplay/printing/detail_/rest_printer.hpp:24-31 | the same for the forest itself |
| RestPrinter.RunIsRead | cxx/src/pluginplay/printing/detail_/rest_printer.hpp:74-79 | every run that closes its sections prints one forest, which a reader rebuilds exactly under those conditions |
| RestReader.HeadingIsScanned | cxx/src/pluginplay/printing/detail_/rest_printer.cpp:36-41 | a reader of lines, which wants a title followed by a line of one adornment character at least as long, finds a printed heading with its style and title |
| RestReader.TextShowsHeadings | cxx/src/pluginplay/printing/detail_/rest_printer.cpp:30-43 | from the text of a whole document it reads exactly the headings that were printed |
| RestReader.DocumentIsReadIff | cxx/src/pluginplay/printing/detail_/rest_printer.hpp:24-31 | a forest is rebuilt from the text of its document if and only if the styles in use are different and the titles plain |
| RestReader.RunIsReadFromText | cxx/src/pluginplay/printing/detail_/rest_printer.hpp:74-79 | the same for every run that closes its sections, with quiet text in between |
| ModuleDocs.PrintInputs | cxx/src/pluginplay/printing/detail_/print_inputs.cpp:105-142 | prints its three levels of sections for any number of inputs, and quiet text stays quiet; gets stuck exactly when they are too deep |
| ModuleDocs.InputFullList | cxx/src/pluginplay/printing/detail_/print_inputs.cpp:76-103 | one section per input, in order, with its details |
| ModuleDocs.PrintTable | cxx/src/pluginplay/printing/detail_/print_results.cpp:61-82 | one section with exactly its table, or the remark that there is nothing |
| ModuleDocs.DocumentModule | cxx/src/pluginplay/printing/document_module.cpp:28-81 | never runs out of adornments, stays within depth 4, ends at depth 0, prints the headings of the page, and its text is read back as the page's sections if and only if the module's and inputs' names are plain lines |
| ModuleDocs.PageHeight | cxx/src/pluginplay/printing/document_module.cpp:46-79 | the page has depth 4, or 3 without inputs |
| ModuleDocs.PageIsReadBack | cxx/src/pluginplay/printing/document_module.cpp:28-81 | a reader finds exactly the sections of the page if and only if the module's and inputs' names are plain lines |
| ModuleDocs.PageTextIsReadBack | cxx/src/pluginplay/printing/document_module.cpp:28-81 | the same for the text of the page, whatever quiet text lies between the headings |
| ModuleDocs.PageOutline | cxx/src/pluginplay/printing/document_module.cpp:28-81 | the outline of the page, level by level and title by title |
| PropertyTypes.Count | cxx/include/pluginplay/property_type/field_tuple.hpp:421-427 | 1 exactly when a field has the key |
| PropertyTypes.Position | cxx/include/pluginplay/property_type/field_tuple.hpp:449-454 | the one index of the key, or the exception |
| PropertyTypes.AddField | cxx/include/pluginplay/property_type/field_tuple.hpp:388-447 | the fields so far and then the new one, or the exception on a used key |
| PropertyTypes.UnionGuts | cxx/include/pluginplay/property_type/field_tuple.hpp:330-346 | concatenation, or the exception exactly when a key occurs twice |
| PropertyTypes.Inputs | cxx/include/pluginplay/property_type/property_type_impl.hpp:24-32 | along any chain, field j of the i-th type comes at position j after all fields of the types before it; an exception exactly when a key occurs twice |
| PropertyTypes.ConcatInOrder | cxx/include/pluginplay/property_type/property_type_impl.hpp:24-32 | the specification puts the fields at these positions, and there are no others |
| PropertyTypes.WrapGuts | cxx/include/pluginplay/property_type/property_type_impl.hpp:87-106 | binds the arguments in place up to the first that does not fit |
| PropertyTypes.Wrap | cxx/include/pluginplay/property_type/property_type_impl.hpp:78-85 | k arguments change exactly the slots of the first k fields; throws exactly when one does not fit |
| PropertyTypes.WrapOwnFirst | cxx/include/pluginplay/property_type/property_type_impl.hpp:78-106 | along a chain, arguments bind the derived type's own fields first, as if it had no base |
| PropertyTypes.ArgumentOfField | cxx/include/pluginplay/property_type/property_type_impl.hpp:87-106 | if names differ ignoring case, each field of each type of the chain gets the argument after those of all the types before |
| PropertyTypes.UnwrapGuts | cxx/include/pluginplay/property_type/property_type_impl.hpp:124-138 | the values of all fields in order, or the exception when one is missing, unset or of another type |
| PropertyTypes.UnwrapAfterWrap | cxx/include/pluginplay/property_type/property_type_impl.hpp:87-138 | unwrapping after a full wrap gives, for each field, the last argument whose key equals its own ignoring case |
| PropertyTypes.RoundTripIff | cxx/include/pluginplay/types.hpp:66-73 | the round trip is the identity, for all arguments that fit, if and only if keys differ ignoring case or two that do not have different types |
| PropertyTypes.UnlessOneTypeNothingFits | cxx/include/pluginplay/property_type/property_type_impl.hpp:98-102 | fields that share a slot with different types can never both be bound |
| PropertyTypes.PythonOnlyPropertyType.Declare | cxx/src/pluginplay/property_type/python_only_property_type.cpp:21-26 | a new position each time, a new slot only for a new key |
| PropertyTypes.PythonOnlyPropertyType.WrapInputs | cxx/include/pluginplay/property_type/python_only_property_type.hpp:117-126 | binds all arguments by position; throws exactly on a wrong number of them or on one that does not fit |
| PropertyTypes.PythonOnlyPropertyType.UnwrapInputs | cxx/src/pluginplay/property_type/python_only_property_type.cpp:35-42 | the values in declaration order, or the exception |
| PropertyTypes.PythonRoundTripIff | cxx/include/pluginplay/property_type/python_only_property_type.hpp:89-107 | the round trip is the identity if and only if no key is declared twice ignoring case |

## Left out

- Memoization.Run: the inputs passed to a run have values; passing an optional input
  without a value, which then hides a bound one, is not modelled.
- MemoHistories.MemoizationIsRightIff: other users of a table give values UUIDs between
  runs; algorithms that store into their own cache while they run are not modelled.
- Modules.Module.AddModule: the manager keeps one implementation per C++ type and hands it
  out again; here the implementation is given.
- Modules.Module.ChangeInput: bounds and type checks of the new value are one flag.
- Modules.Module.Run: timers, the printed list of what is not ready, modules without an
  implementation and Python-only property types of modules; `MemoCache` is the plain map
  that a module cache is proved to be.
- Mermaid.PrintSubmods: looking a module up may fill in default submodules; the wiring is
  taken as fixed while printing.
- Mermaid.AddLetter: only codes of capital letters, the only ones there are.
- RestPrinter.Printer.StartSection: depths beyond the range of the 16-bit counter.
- ModuleDocs.DocumentModule: the wording of the text between headings, its wrapping and
  the tables, which come in as strings; `ModuleDocs.QuietText` asks that no line of them is
  of one adornment character and that they end with whole lines.  The reader takes a line
  that would begin a list or another construct for a title, and never a line of one
  adornment character.
- RestReader.RunIsReadFromText: the styles in use are legible ones; for others
  `RestPrinter.RunIsRead` has the exact condition at the level of headings.
- ModuleCaches.ClearThenRead: no input has the reserved name of the shared store;
  `ModuleCaches.ReservedNameIsShared` says what happens to one that does.
- PropertyTypes.Wrap: conversion of arguments to the field's type and arguments that are
  type-erased already.
- PropertyTypes.PythonOnlyPropertyType.WrapInputs: inputs and results have the same
  code; it is modelled once.
- ModuleCaches.ResultNative: the two instantiations of the in-memory store are two
  classes, `UuidTable.UuidNative` and `ModuleCaches.ResultNative`.
- RocksStore.RocksDb.At: errors of the database library, file paths and the stub used
  when the library is absent.
- Listing the keys of a database, and freeing or dumping the UUID table: caches never
  reach them.
- Copy and move assignment of modules, which ignore the lock.
- Python bindings, run-time type comparison, licences, logging and configuration.
