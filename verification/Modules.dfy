/**
 Module objects that share submodules by pointer.  Each method is proved against
 the functions on module graphs: what a module sees of the heap is the graph of
 all the modules `all` it can reach, and `rank` shows that it has no cycle.
 */
module Modules {
  import opened Fields
  import opened ModuleGraph
  import opened Memoization

  /** The values that have UUIDs; caches share it. */
  class Table {
    var known: set<Any>

    constructor ()
      ensures known == {}
    {
      known := {};
    }
  }

  /** A module cache as it looks from outside: a plain map. */
  class MemoCache {
    const table: Table
    const onDisk: bool
    var entries: Plain

    constructor (table: Table, onDisk: bool)
      ensures this.table == table && this.onDisk == onDisk && entries == map[]
    {
      this.table, this.onDisk, entries := table, onDisk, map[];
    }

    /** The scan over the key's values in name order.  It ends at the first value
        without a UUID; an input without a value, met before, ends the program. */
    method Count(merged: Merged) returns (found: bool, failed: bool)
      ensures failed <==> LookupFails(merged, table.known)
      ensures found <==> Complete(merged) && KeyOf(merged).Values <= table.known && KeyOf(merged) in entries
    {
      var left := merged.Keys;
      while left != {}
        invariant left <= merged.Keys
        invariant forall k :: k in merged && k !in left ==> merged[k].Some? && merged[k].value.value in table.known
        decreases left
      {
        ghost var first := FirstName(left);
        var n :| n in left && forall k :: k in left ==> !Before(k, n);
        if merged[n].None? {
          assert KnownBefore(merged, table.known, n);
          return false, true;
        }
        if merged[n].value.value !in table.known {
          UnknownFirst(merged, table.known, left, n);
          return false, false;
        }
        left := left - {n};
      }
      return KeyOf(merged) in entries, false;
    }

    /** Values are stored that may not have UUIDs yet. */
    method GiveUuids(values: set<Any>, ghost caches: set<MemoCache>)
      requires this in caches
      modifies table
      ensures Contents(caches) == WithUuids(old(Contents(caches)), this, values)
    {
      ghost var was := Contents(caches);
      table.known := table.known + values;
      LearnAs(was, Contents(caches), this, values);
    }

    method Cache(key: AnyMap, results: ResultMap, ghost caches: set<MemoCache>)
      requires this in caches
      modifies `entries, table
      ensures Contents(caches) == Stored(old(Contents(caches)), this, key, results)
    {
      hide WithUuids;
      GiveUuids(key.Values, caches);
      entries := entries[key := results];
    }

    method Clear(ghost caches: set<MemoCache>)
      requires this in caches
      modifies `entries, table
      ensures Contents(caches) == Cleared(old(Contents(caches)), this)
    {
      hide WithUuids;
      if onDisk {
        GiveUuids(set key, n | key in entries && n in entries[key] :: entries[key][n].value, caches);
      }
      entries := map[];
    }
  }

  /** What one table learns is known to all the caches that use it. */
  lemma LearnAs(was: Memo<MemoCache>, now: Memo<MemoCache>, c: MemoCache, values: set<Any>)
    requires (c, c) in was.together && forall p :: p in was.together ==> p.1 in was.known
    requires now == was.(known := now.known) && now.known.Keys == was.known.Keys
    requires forall d :: d in was.known ==>
               now.known[d] == if (c, d) in was.together then was.known[d] + values else was.known[d]
    ensures now == WithUuids(was, c, values)
  {
    var users := TableUsers(was, c);
    forall d
      ensures d in users <==> (c, d) in was.together
    {
      if (c, d) in was.together {
        assert (c, d).0 == c && (c, d).1 == d;
      }
    }
    assert now.known == WithUuids(was, c, values).known;
  }

  /** Where the scan ends at a value without a UUID, no gap lies before it. */
  lemma UnknownFirst(merged: Merged, known: set<Any>, left: set<Name>, n: Name)
    requires n in left && left <= merged.Keys && merged[n].Some? && merged[n].value.value !in known
    requires forall k :: k in left ==> !Before(k, n)
    requires forall k :: k in merged && k !in left ==> merged[k].Some? && merged[k].value.value in known
    ensures !LookupFails(merged, known) && (Complete(merged) ==> !(KeyOf(merged).Values <= known))
  {
    forall gap | gap in merged && merged[gap].None?
      ensures !KnownBefore(merged, known, gap)
    {
      BeforeIsTotal(n, gap);
      assert Before(n, gap);
    }
    if Complete(merged) {
      assert KeyOf(merged)[n] in KeyOf(merged).Values;
    }
  }

  class Module {
    const base: Base
    const cache: Option<MemoCache>
    var locked: bool
    var memoizable: bool
    var inputs: map<Name, Input>
    var submods: Submods<Module>
    var propertyTypes: set<PropertyType>

    constructor (base: Base, cache: Option<MemoCache>, inputs: map<Name, Input>, submods: Submods<Module>,
                 propertyTypes: set<PropertyType>)
      ensures !locked && Config() == ModuleGraph.Config(true, base, cache, inputs, submods, propertyTypes)
    {
      this.base, this.cache := base, cache;
      this.inputs, this.submods, this.propertyTypes := inputs, submods, propertyTypes;
      locked, memoizable := false, true;
    }

    constructor Copy(rhs: Module)
      ensures locked == rhs.locked && Config() == rhs.Config()
    {
      base, cache := rhs.base, rhs.cache;
      inputs, submods, propertyTypes := rhs.inputs, rhs.submods, rhs.propertyTypes;
      locked, memoizable := rhs.locked, rhs.memoizable;
    }

    /** Copy construction keeps the lock; the submodules stay shared. */
    method CopyOf(ghost all: set<Module>, ghost rank: map<Module, nat>, ghost rank': map<Module, nat>)
      returns (copy: Module)
      requires this in all
      ensures fresh(copy) && copy.locked == locked && copy.Config() == Config()
      ensures Stepped(Op.Copy(this, copy), all, rank, all + {copy}, rank')
    {
      copy := new Module.Copy(this);
    }

    method UnlockedCopy(ghost all: set<Module>, ghost rank: map<Module, nat>, ghost rank': map<Module, nat>)
      returns (copy: Module)
      requires this in all
      ensures fresh(copy) && !copy.locked && copy.Config() == Config()
      ensures Stepped(Op.UnlockedCopy(this, copy), all, rank, all + {copy}, rank')
    {
      copy := new Module.Copy(this);
      copy.locked := false;
    }

    ghost function Config(): Config<Module, MemoCache>
      reads `memoizable, `inputs, `submods, `propertyTypes
    {
      ModuleGraph.Config(memoizable, base, cache, inputs, submods, propertyTypes)
    }

    /** `add_module`: the developer's inputs and requests, with the cache that the
        manager has for the key. */
    static method AddModule(base: Base, cache: Option<MemoCache>, inputs: map<Name, Input>,
                            requests: seq<(Name, Option<PropertyType>, set<Name>)>,
                            propertyTypes: set<PropertyType>, ghost all: set<Module>,
                            ghost rank: map<Module, nat>, ghost rank': map<Module, nat>)
      returns (m: Module)
      ensures fresh(m) && !m.locked && m.memoizable && m.base == base && m.cache == cache && m.inputs == inputs
      ensures Stepped(Op.AddModule(m, m.Config()), all, rank, all + {m}, rank')
    {
      var submods: Submods<Module> := seq(|requests|, i requires 0 <= i < |requests| =>
        (requests[i].0, Request(requests[i].1, requests[i].2, None)));
      m := new Module(base, cache, inputs, submods, propertyTypes);
    }

    // ------------------------------------------------------- reconfiguration

    method ChangeInput(key: Name, value: Field, valid: bool, ghost all: set<Module>, ghost rank: map<Module, nat>)
      returns (ok: bool)
      requires this in all
      modifies `inputs
      ensures ok == (!locked && key in old(inputs) && valid)
      ensures Config() == if ok then WithInput(old(Config()), key, value) else old(Config())
      ensures Stepped(Op.ChangeInput(this, key, value, valid), all, rank, all, rank)
    {
      if locked {
        return false;
      }
      if key !in inputs {
        return false;
      }
      if !valid {
        return false;
      }
      inputs := inputs[key := inputs[key].(field := Some(value))];
      ok := true;
    }

    /** The new graph may need another ranking. */
    method ChangeSubmod(key: Name, newModule: Module, ghost all: set<Module>,
                        ghost rank: map<Module, nat>, ghost rank': map<Module, nat>)
      returns (ok: bool)
      requires this in all && newModule in all
      modifies `submods
      ensures ok == (!locked && CanChangeSubmod(old(Config()), key, newModule.propertyTypes))
      ensures Config() == if ok then WithTarget(old(Config()), IndexOf(old(submods), key), newModule) else old(Config())
      ensures Stepped(Op.ChangeSubmod(this, key, newModule), all, rank, all, rank')
    {
      if locked {
        return false;
      }
      var i := IndexOf(submods, key);
      if i == |submods| {
        return false;
      }
      var q := submods[i].1;
      if q.propertyType.None? || q.propertyType.value !in newModule.propertyTypes {
        return false;
      }
      submods := submods[i := (submods[i].0, q.(target := Some(newModule)))];
      ok := true;
    }

    method AddPropertyType(t: PropertyType, ghost all: set<Module>, ghost rank: map<Module, nat>) returns (ok: bool)
      requires this in all
      modifies `propertyTypes
      ensures ok == !locked
      ensures propertyTypes == if ok then old(propertyTypes) + {t} else old(propertyTypes)
      ensures Stepped(Op.AddPropertyType(this, t), all, rank, all, rank)
    {
      if locked {
        return false;
      }
      propertyTypes := propertyTypes + {t};
      ok := true;
    }

    method SetMemoization(on: bool, ghost all: set<Module>, ghost rank: map<Module, nat>)
      requires this in all
      modifies `memoizable
      ensures memoizable == on
      ensures Stepped(Op.SetMemoization(this, on), all, rank, all, rank)
    {
      memoizable := on;
    }

    // ---------------------------------------------------------------- ready

    method Ready(supplied: set<Name>, ghost all: set<Module>, ghost rank: map<Module, nat>) returns (r: bool)
      requires this in all && Acyclic(Graph(all, rank))
      ensures r == ModuleGraph.Ready(Graph(all, rank), this, supplied)
      decreases rank[this]
    {
      ghost var w := Graph(all, rank);
      var inputProblems := set n | n in inputs && !inputs[n].Ready();
      inputProblems := inputProblems - supplied;
      var submodProblems: set<Name> := {};
      var i := 0;
      while i < |submods|
        invariant 0 <= i <= |submods|
        invariant submodProblems == {} <==> forall j :: 0 <= j < i ==> RequestReady(w, this, j)
      {
        assert HasRequest(w, this, i);
        var q := submods[i].1;
        var ready := q.propertyType.Some? && q.target.Some?;
        if ready {
          ready := q.target.value.Ready(q.provided, all, rank);
        }
        assert ready == RequestReady(w, this, i);
        if !ready {
          submodProblems := submodProblems + {submods[i].0};
          assert submods[i].0 in submodProblems;
        }
        i := i + 1;
      }
      assert forall n :: n in inputProblems <==> n in inputs && n !in supplied && !inputs[n].Ready();
      assert inputProblems == {} <==> InputsReady(w.g[this], supplied);
      assert submodProblems == {} <==> AllReadyFrom(w, this, 0);
      r := inputProblems == {} && submodProblems == {};
    }

    // ----------------------------------------------------------------- lock

    /** Locks the submodules in order, and then this module; throws at the first
        one that is not ready, which leaves the ones before it locked. */
    method Lock(ghost all: set<Module>, ghost rank: map<Module, nat>) returns (ok: bool)
      requires this in all && Acyclic(Graph(all, rank))
      modifies all`locked
      ensures Graph(all, rank) == old(Graph(all, rank))
      ensures (Locks(all), ok) == ModuleGraph.Lock(Graph(all, rank), old(Locks(all)), this)
      ensures Stepped(LockModule(this), all, rank, all, rank)
      decreases rank[this]
    {
      ghost var w := Graph(all, rank);
      ghost var locks := Locks(all);
      var i := 0;
      while i < |submods|
        invariant 0 <= i <= |submods| && Graph(all, rank) == w
        invariant LockFrom(w, locks, this, 0) == LockFrom(w, Locks(all), this, i)
      {
        assert HasRequest(w, this, i);
        var q := submods[i].1;
        ok := q.propertyType.Some? && q.target.Some?;
        if ok {
          ok := q.target.value.Ready(q.provided, all, rank);
        }
        if !ok {
          return;
        }
        ok := q.target.value.Lock(all, rank);
        if !ok {
          return;
        }
        i := i + 1;
      }
      assert LockFrom(w, locks, this, 0) == (Locks(all), true);
      label before:
      locked := true;
      assert Locks(all) == old@before(Locks(all)) + {this};
      ok := true;
    }

    // ---------------------------------------------------------- memoization

    method ResetCache(ghost caches: set<MemoCache>)
      requires cache.Some? ==> cache.value in caches
      modifies if cache.Some? then {cache.value, cache.value.table} else {}
      ensures Contents(caches) ==
              if cache.Some? then Cleared(old(Contents(caches)), cache.value) else old(Contents(caches))
    {
      if cache.Some? {
        cache.value.Clear(caches);
      }
    }

    /** Throws where it asks for the module of a request that has none. */
    method IsMemoizable(ghost all: set<Module>, ghost rank: map<Module, nat>) returns (ok: bool, r: bool)
      requires this in all && Acyclic(Graph(all, rank))
      ensures ok <==> CanAsk(Graph(all, rank), this)
      ensures ok ==> r == Memoizable(Graph(all, rank), this)
      decreases rank[this]
    {
      ghost var w := Graph(all, rank);
      if base.uuid == "" {
        return true, false;
      }
      r := memoizable;
      var i := 0;
      while i < |submods|
        invariant 0 <= i <= |submods|
        invariant forall j :: 0 <= j < i ==> Req(w, this, j).target.Some? && CanAsk(w, Req(w, this, j).target.value)
        invariant r <==> memoizable && forall j :: 0 <= j < i ==> Memoizable(w, Req(w, this, j).target.value)
      {
        assert HasRequest(w, this, i);
        if submods[i].1.target.None? {
          return false, false;
        }
        var asked, sub := submods[i].1.target.value.IsMemoizable(all, rank);
        if !asked {
          return false, false;
        }
        r := sub && r;
        i := i + 1;
      }
      ok := true;
    }

    method GetSubmodUuids(ghost all: set<Module>, ghost rank: map<Module, nat>)
      returns (ok: bool, rv: map<string, Uuid>)
      requires this in all && Acyclic(Graph(all, rank))
      ensures ok <==> AllSet(Graph(all, rank), this)
      ensures ok ==> rv == SubmodUuidsOf(Graph(all, rank), this)
      decreases rank[this]
    {
      hide Prefixed, Emplaced;
      ghost var w := Graph(all, rank);
      rv := map[];
      var i := 0;
      while i < |submods|
        invariant 0 <= i <= |submods|
        invariant forall j :: 0 <= j < i ==> Req(w, this, j).target.Some? && AllSet(w, Req(w, this, j).target.value)
        invariant SubmodUuidsFrom(w, this, 0, map[]) == SubmodUuidsFrom(w, this, i, rv)
      {
        assert HasRequest(w, this, i);
        var (k, q) := submods[i];
        if q.target.None? {
          return false, map[];
        }
        var got, sub := q.target.value.GetSubmodUuids(all, rank);
        if !got {
          return false, map[];
        }
        rv := Emplaced(rv, Prefixed(k, sub));
        rv := Emplaced(rv, map[k := q.target.value.base.uuid]);
        i := i + 1;
      }
      ok := true;
    }

    method MergeInputs(ps: InputMap, ghost all: set<Module>, ghost rank: map<Module, nat>)
      returns (ok: bool, merged: Merged)
      requires this in all && Acyclic(Graph(all, rank))
      ensures ok <==> AllSet(Graph(all, rank), this)
      ensures ok ==> merged == Merge(Graph(all, rank), this, ps)
    {
      merged := map n | n in ps.Keys + inputs.Keys :: if n in ps then Some(ps[n]) else inputs[n].field;
      var uuids: map<string, Uuid>;
      ok, uuids := GetSubmodUuids(all, rank);
      if SUBMOD_KEY !in merged {
        merged := merged[SUBMOD_KEY := Some(Field(SubmodUuids(uuids), DefaultMetadata))];
      }
    }

    // ------------------------------------------------------------------ run

    /** Checks, locks, merges, looks the result up and, if it is not there,
        computes and stores it. */
    method Run(ps: InputMap, ghost all: set<Module>, ghost rank: map<Module, nat>, ghost caches: set<MemoCache>)
      returns (o: Outcome)
      requires this in all && Runnable(all, rank, caches)
      modifies all`locked, caches, Tables(caches)
      ensures Graph(all, rank) == old(Graph(all, rank)) && Runnable(all, rank, caches)
      ensures Locks(all) == if ModuleGraph.Ready(Graph(all, rank), this, ps.Keys)
                            then ModuleGraph.Lock(Graph(all, rank), old(Locks(all)), this).0 else old(Locks(all))
      ensures (o, Contents(caches)) == Memoization.Run(Graph(all, rank), this, ps, old(Contents(caches)))
      ensures Stepped(RunModule(this, ps.Keys), all, rank, all, rank)
      decreases rank[this], 1, 0
    {
      hide ModuleGraph.Ready, ModuleGraph.Lock, LockFrom, LockClosed, AllReadyFrom, Memoization.Run, Contents;
      ghost var w := Graph(all, rank);
      ghost var locks := Locks(all);
      RunUnready(w, this, ps, Contents(caches));
      var ready := Ready(ps.Keys, all, rank);
      if !ready {
        return Threw;
      }
      ReadyMeansAllReady(w, this, ps.Keys);
      LockSucceeds(w, locks, this);
      LockKeepsClosed(w, locks, this);
      var ok := Lock(all, rank);
      assert this in Locks(all);
      o := RunLocked(ps, all, rank, caches);
    }

    /** The rest of `run`, once the module is ready and locked. */
    method RunLocked(ps: InputMap, ghost all: set<Module>, ghost rank: map<Module, nat>, ghost caches: set<MemoCache>)
      returns (o: Outcome)
      requires this in all && Runnable(all, rank, caches) && locked
      requires ModuleGraph.Ready(Graph(all, rank), this, ps.Keys)
      modifies all`locked, caches, Tables(caches)
      ensures Graph(all, rank) == old(Graph(all, rank)) && Runnable(all, rank, caches)
      ensures Locks(all) == old(Locks(all))
      ensures (o, Contents(caches)) == Memoization.Run(Graph(all, rank), this, ps, old(Contents(caches)))
      decreases rank[this], 0, 2
    {
      hide ModuleGraph.Ready, AllReadyFrom, Merge, Memoizable, RunAlgorithm, Acyclic, Runnable, Memoization.Run, KeyOf;
      hide Graph, Locks, Contents;
      ghost var w := Graph(all, rank);
      RunnableMeans(all, rank, caches);
      RunReady(w, this, ps, Contents(caches));
      ReadyMeansAllReady(w, this, ps.Keys);
      ReadyIsAllSet(w, this, ps.Keys);
      var _, merged := MergeInputs(ps, all, rank);
      var _, memoizes := IsMemoizable(all, rank);
      if !memoizes || cache.None? {
        o := RunBase(merged, all, rank, caches);
        return;
      }
      o := RunMemoized(ps, merged, all, rank, caches);
    }

    /** Looks the result up, and if it is not there computes and stores it. */
    method RunMemoized(ghost ps: InputMap, merged: Merged, ghost all: set<Module>, ghost rank: map<Module, nat>,
                       ghost caches: set<MemoCache>)
      returns (o: Outcome)
      requires this in all && Runnable(all, rank, caches) && locked
      requires ModuleGraph.Ready(Graph(all, rank), this, ps.Keys) && merged == Merge(Graph(all, rank), this, ps)
      requires cache.Some? && cache.value in caches && Memoizable(Graph(all, rank), this)
      modifies all`locked, caches, Tables(caches)
      ensures Graph(all, rank) == old(Graph(all, rank)) && Runnable(all, rank, caches)
      ensures Locks(all) == old(Locks(all))
      ensures (o, Contents(caches)) == Memoization.Run(Graph(all, rank), this, ps, old(Contents(caches)))
      decreases rank[this], 0, 1
    {
      hide ModuleGraph.Ready, AllReadyFrom, Merge, Memoizable, RunAlgorithm, Acyclic, Runnable, Memoization.Run, KeyOf;
      hide Graph, Locks, Contents, LookupFails, Stored;
      RunnableMeans(all, rank, caches);
      RunReady(Graph(all, rank), this, ps, Contents(caches));
      ContentsOf(caches, cache.value);
      var found, failed := cache.value.Count(merged);
      if failed {
        return Aborted;
      }
      if found {
        return Returned(cache.value.entries[KeyOf(merged)]);
      }
      o := RunBase(merged, all, rank, caches);
      if o.Returned? {
        if !Complete(merged) {
          return Aborted;
        }
        cache.value.Cache(KeyOf(merged), o.results, caches);
      }
    }

    /** The developer's code, which calls submodules one after another. */
    method RunBase(merged: Merged, ghost all: set<Module>, ghost rank: map<Module, nat>, ghost caches: set<MemoCache>)
      returns (o: Outcome)
      requires this in all && Runnable(all, rank, caches) && locked
      modifies all`locked, caches, Tables(caches)
      ensures Graph(all, rank) == old(Graph(all, rank)) && Runnable(all, rank, caches)
      ensures Locks(all) == old(Locks(all))
      ensures (o, Contents(caches)) == RunAlgorithm(Graph(all, rank), this, merged, [], old(Contents(caches)))
      decreases rank[this], 0, 0
    {
      ghost var w := Graph(all, rank);
      ghost var locks := Locks(all);
      ghost var was := Contents(caches);
      var calls: seq<Outcome> := [];
      while true
        invariant Graph(all, rank) == w && Locks(all) == locks && Runnable(all, rank, caches)
        invariant RunAlgorithm(w, this, merged, [], was) == RunAlgorithm(w, this, merged, calls, Contents(caches))
        decreases base.algorithm.fuel(merged, calls)
      {
        match base.algorithm.next(merged, calls)
        case Return(r) => return Returned(r);
        case Throw => return Threw;
        case Call(k, q) =>
          var i := IndexOf(submods, k);
          var out := Threw;
          if i < |submods| && submods[i].1.target.Some? {
            assert HasRequest(w, this, i);
            var target := submods[i].1.target.value;
            LockedIsFixed(w, locks, target);
            out := target.Run(q, all, rank, caches);
            if out.Aborted? {
              return Aborted;
            }
          }
          calls := calls + [out];
      }
    }
  }

  lemma RunnableMeans(all: set<Module>, rank: map<Module, nat>, caches: set<MemoCache>)
    requires Runnable(all, rank, caches)
    ensures Acyclic(Graph(all, rank)) && Graph(all, rank).g.Keys == all
    ensures forall m :: m in all ==> Graph(all, rank).g[m] == m.Config()
    ensures forall m :: m in all && m.cache.Some? ==> m.cache.value in caches
  {
  }

  lemma RunUnready(w: Wiring<Module, MemoCache>, m: Module, ps: InputMap, memo: Memo<MemoCache>)
    requires Acyclic(w) && m in w.g
    ensures !ModuleGraph.Ready(w, m, ps.Keys) ==> Memoization.Run(w, m, ps, memo) == (Threw, memo)
  {
  }

  /** The cases of a run of a ready module. */
  lemma RunReady(w: Wiring<Module, MemoCache>, m: Module, ps: InputMap, memo: Memo<MemoCache>)
    requires Acyclic(w) && m in w.g && ModuleGraph.Ready(w, m, ps.Keys)
    ensures var r, merged := Memoization.Run(w, m, ps, memo), Merge(w, m, ps);
            var plain := RunAlgorithm(w, m, merged, [], memo);
            if !Memoizes(w, m) then r == plain
            else
              var c := w.g[m].cache.value;
              if LookupFails(merged, KnownTo(memo, c)) then r == (Aborted, memo)
              else if Holds(memo, c, merged) then r == (Returned(CacheOf(memo, c)[KeyOf(merged)]), memo)
              else if !plain.0.Returned? then r == plain
              else if !Complete(merged) then r == (Aborted, plain.1)
              else r == (plain.0, Stored(plain.1, c, KeyOf(merged), plain.0.results))
  {
    hide Acyclic, ModuleGraph.Ready, Merge, RunAlgorithm, Memoizable, KeyOf, LookupFails, Holds, Stored;
  }

  lemma ContentsOf(caches: set<MemoCache>, c: MemoCache)
    requires c in caches
    ensures CacheOf(Contents(caches), c) == c.entries && KnownTo(Contents(caches), c) == c.table.known
  {
  }

  /** A change of the heap is a step of the protocol on module graphs, unless it
      closes a cycle. */
  twostate predicate Stepped(new op: Op<Module, MemoCache>, all: set<Module>, rank: map<Module, nat>,
                             new after: set<Module>, new rank': map<Module, nat>)
    reads after
  {
    old(Acyclic(Graph(all, rank))) && Acyclic(Graph(after, rank')) ==>
      Step(World(old(Graph(all, rank)), old(Locks(all))), op, World(Graph(after, rank'), Locks(after)))
  }

  ghost function Tables(caches: set<MemoCache>): set<Table> {
    set c | c in caches :: c.table
  }

  /** What the caches hold, for the functions on module graphs. */
  ghost function Contents(caches: set<MemoCache>): Memo<MemoCache>
    reads caches, Tables(caches)
  {
    Memo(map c | c in caches :: c.entries,
         map c | c in caches :: c.table.known,
         set c, d | c in caches && d in caches && c.table == d.table :: (c, d),
         set c | c in caches && c.onDisk)
  }

  /** The graph is acyclic, its caches are known, and what is locked is locked all
      the way down. */
  ghost predicate Runnable(all: set<Module>, rank: map<Module, nat>, caches: set<MemoCache>)
    reads all`memoizable, all`inputs, all`submods, all`propertyTypes, all`locked
  {
    && Acyclic(Graph(all, rank)) && LockClosed(Graph(all, rank), Locks(all))
    && forall m :: m in all && m.cache.Some? ==> m.cache.value in caches
  }

  ghost function Graph(all: set<Module>, rank: map<Module, nat>): Wiring<Module, MemoCache>
    reads all`memoizable, all`inputs, all`submods, all`propertyTypes
  {
    Wiring(map m | m in all :: m.Config(), rank)
  }

  ghost function Locks(all: set<Module>): set<Module>
    reads all`locked
  {
    set m | m in all && m.locked
  }
}
