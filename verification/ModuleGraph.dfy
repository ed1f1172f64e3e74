/**
 The graph of modules that share submodules by pointer: when a module is ready,
 and what locking one does to all the others.

 `M` identifies a module object and `C` a cache object.  Names are compared
 ignoring case by the source, so a name here stands for its folded form.
 */
module ModuleGraph {
  import opened Fields

  type PropertyType(==,0,!new)

  datatype Input = Input(field: Option<Field>, optional: bool, transparent: bool) {
    predicate Ready() {
      optional || field.Some?
    }
  }

  /** `provided` are the input names of the requested property type. */
  datatype Request<M> = Request(propertyType: Option<PropertyType>, provided: set<Name>, target: Option<M>) {
    predicate Fulfilled() {
      propertyType.Some? && target.Some?
    }
  }

  type Submods<M> = seq<(Name, Request<M>)>

  /** A module's settings; whether it is locked is kept in a set beside them. */
  datatype Config<M, C> = Config(
    memoizable: bool,
    base: Base,
    cache: Option<C>,
    inputs: map<Name, Input>,
    submods: Submods<M>,
    propertyTypes: set<PropertyType>)

  // --------------------------------------------------------------- algorithms

  type Merged = map<Name, Option<Field>>

  datatype Outcome = Returned(results: ResultMap) | Threw | Aborted

  /** What an algorithm does next, given its inputs and the outcomes of the
      submodule calls it has made. */
  datatype Action = Call(key: Name, inputs: InputMap) | Return(results: ResultMap) | Throw

  /** The developer's code: deterministic, and `fuel` bounds how many more
      submodule calls it makes. */
  datatype AnyAlgorithm = Algorithm(next: (Merged, seq<Outcome>) -> Action, fuel: (Merged, seq<Outcome>) -> nat)

  ghost predicate Terminating(a: AnyAlgorithm) {
    forall ps, h, o :: a.next(ps, h).Call? ==> a.fuel(ps, h + [o]) < a.fuel(ps, h)
  }

  type Algorithm = a: AnyAlgorithm | Terminating(a)
    ghost witness Algorithm((ps, h) => Throw, (ps, h) => 0)

  /** A ModuleBase; the empty UUID stands for "never added to a manager". */
  datatype Base = Base(uuid: Uuid, algorithm: Algorithm)

  // ------------------------------------------------------------------- wiring

  /** A graph together with a ranking that shows it has no cycle. */
  datatype Wiring<M, C> = Wiring(g: map<M, Config<M, C>>, rank: map<M, nat>)

  ghost predicate HasRequest<M, C>(w: Wiring<M, C>, m: M, i: int) {
    m in w.g && 0 <= i < |w.g[m].submods|
  }

  /** The `i`-th submodule request of `m`, in key order. */
  ghost function Req<M, C>(w: Wiring<M, C>, m: M, i: int): Request<M>
    requires HasRequest(w, m, i)
  {
    w.g[m].submods[i].1
  }

  ghost predicate Acyclic<M, C>(w: Wiring<M, C>) {
    && w.rank.Keys == w.g.Keys
    && forall m, i :: m in w.g && HasRequest(w, m, i) && Req(w, m, i).target.Some? ==>
         Req(w, m, i).target.value in w.g && w.rank[Req(w, m, i).target.value] < w.rank[m]
  }

  // ---------------------------------------------------------------- readiness

  /** `not_set_guts_` on the inputs, minus those the caller supplies. */
  ghost predicate InputsReady<M, C>(c: Config<M, C>, supplied: set<Name>) {
    forall n :: n in c.inputs && n !in supplied ==> c.inputs[n].Ready()
  }

  ghost predicate Ready<M, C>(w: Wiring<M, C>, m: M, supplied: set<Name>)
    requires Acyclic(w) && m in w.g
    decreases w.rank[m]
  {
    && InputsReady(w.g[m], supplied)
    && forall i :: HasRequest(w, m, i) ==>
         Req(w, m, i).Fulfilled() && Ready(w, Req(w, m, i).target.value, Req(w, m, i).provided)
  }

  /** `SubmoduleRequest::ready` */
  ghost predicate RequestReady<M, C>(w: Wiring<M, C>, m: M, i: int)
    requires Acyclic(w) && HasRequest(w, m, i)
  {
    Req(w, m, i).Fulfilled() && Ready(w, Req(w, m, i).target.value, Req(w, m, i).provided)
  }

  /** A required input that has no value and that nobody supplies. */
  ghost predicate Missing<M, C>(c: Config<M, C>, supplied: set<Name>) {
    exists n :: n in c.inputs && n !in supplied && !c.inputs[n].optional && c.inputs[n].field == None
  }

  /** Following the submodules of `path` from `m` ends at something that keeps
      the module from running: a request without a type or a module, or a required
      input that nobody sets. */
  ghost predicate Blocked<M, C>(w: Wiring<M, C>, m: M, supplied: set<Name>, path: seq<int>)
    requires Acyclic(w) && m in w.g
    decreases |path|
  {
    if path == [] then
      Missing(w.g[m], supplied)
    else
      HasRequest(w, m, path[0])
      && var q := Req(w, m, path[0]);
         if q.propertyType == None || q.target == None then |path| == 1
         else Blocked(w, q.target.value, q.provided, path[1..])
  }

  lemma {:induction false} ReadyHasNoBlock<M, C>(w: Wiring<M, C>, m: M, supplied: set<Name>, path: seq<int>)
    requires Acyclic(w) && m in w.g && Ready(w, m, supplied)
    ensures !Blocked(w, m, supplied, path)
    decreases |path|
  {
    if path != [] && HasRequest(w, m, path[0]) {
      var q := Req(w, m, path[0]);
      ReadyHasNoBlock(w, q.target.value, q.provided, path[1..]);
    }
  }

  lemma {:induction false} UnreadyHasBlock<M, C>(w: Wiring<M, C>, m: M, supplied: set<Name>) returns (path: seq<int>)
    requires Acyclic(w) && m in w.g && !Ready(w, m, supplied)
    ensures Blocked(w, m, supplied, path)
    decreases w.rank[m]
  {
    if !InputsReady(w.g[m], supplied) { return []; }
    var i :| HasRequest(w, m, i)
             && !(Req(w, m, i).Fulfilled() && Ready(w, Req(w, m, i).target.value, Req(w, m, i).provided));
    var q := Req(w, m, i);
    if !q.Fulfilled() { return [i]; }
    var rest := UnreadyHasBlock(w, q.target.value, q.provided);
    path := [i] + rest;
    assert path[1..] == rest;
  }

  /** A module is ready exactly when no path leads to a problem. */
  lemma ReadyIffNothingBlocks<M, C>(w: Wiring<M, C>, m: M, supplied: set<Name>)
    requires Acyclic(w) && m in w.g
    ensures Ready(w, m, supplied) <==> forall path :: !Blocked(w, m, supplied, path)
  {
    if Ready(w, m, supplied) {
      forall path
        ensures !Blocked(w, m, supplied, path)
      {
        ReadyHasNoBlock(w, m, supplied, path);
      }
    } else {
      var bad := UnreadyHasBlock(w, m, supplied);
      assert exists path :: Blocked(w, m, supplied, path);
    }
  }

  /** Supplying more inputs never makes a module unready. */
  lemma ReadyIsMonotone<M, C>(w: Wiring<M, C>, m: M, supplied: set<Name>, more: set<Name>)
    requires Acyclic(w) && m in w.g && supplied <= more && Ready(w, m, supplied)
    ensures Ready(w, m, more)
  {
  }

  // ------------------------------------------------------------------ locking

  /** Locking: submodules first, in key order, each checked for readiness; an
      unready one throws and leaves what was locked so far locked. */
  ghost function Lock<M, C>(w: Wiring<M, C>, locks: set<M>, m: M): (r: (set<M>, bool))
    requires Acyclic(w) && m in w.g
    ensures locks <= r.0
    decreases w.rank[m], 1, 0
  {
    var (after, ok) := LockFrom(w, locks, m, 0);
    if ok then (after + {m}, true) else (after, false)
  }

  ghost function LockFrom<M, C>(w: Wiring<M, C>, locks: set<M>, m: M, i: nat): (r: (set<M>, bool))
    requires Acyclic(w) && m in w.g && i <= |w.g[m].submods|
    ensures locks <= r.0
    decreases w.rank[m], 0, |w.g[m].submods| - i
  {
    if i == |w.g[m].submods| then (locks, true)
    else if !RequestReady(w, m, i) then (locks, false)
    else
      var (after, ok) := Lock(w, locks, Req(w, m, i).target.value);
      if ok then LockFrom(w, after, m, i + 1) else (after, false)
  }

  /** All requests of `m` from the `i`-th on are ready. */
  ghost predicate AllReadyFrom<M, C>(w: Wiring<M, C>, m: M, i: nat)
    requires Acyclic(w) && m in w.g
  {
    forall j :: i <= j && HasRequest(w, m, j) ==> RequestReady(w, m, j)
  }

  lemma ReadyMeansAllReady<M, C>(w: Wiring<M, C>, m: M, supplied: set<Name>)
    requires Acyclic(w) && m in w.g && Ready(w, m, supplied)
    ensures AllReadyFrom(w, m, 0)
  {
    forall j | HasRequest(w, m, j)
      ensures RequestReady(w, m, j)
    {
    }
  }

  lemma {:induction false} LockFromSucceeds<M, C>(w: Wiring<M, C>, locks: set<M>, m: M, i: nat)
    requires Acyclic(w) && m in w.g && i <= |w.g[m].submods|
    ensures LockFrom(w, locks, m, i).1 <==> AllReadyFrom(w, m, i)
    decreases w.rank[m], 0, |w.g[m].submods| - i
  {
    if i < |w.g[m].submods| {
      assert HasRequest(w, m, i);
      if RequestReady(w, m, i) {
        var q := Req(w, m, i);
        LockSucceeds(w, locks, q.target.value);
        ReadyMeansAllReady(w, q.target.value, q.provided);
        LockFromSucceeds(w, Lock(w, locks, q.target.value).0, m, i + 1);
      }
    }
  }

  /** Locking succeeds exactly when every direct submodule request is ready. */
  lemma {:induction false} LockSucceeds<M, C>(w: Wiring<M, C>, locks: set<M>, m: M)
    requires Acyclic(w) && m in w.g
    ensures Lock(w, locks, m).1 <==> AllReadyFrom(w, m, 0)
    decreases w.rank[m], 1, 0
  {
    LockFromSucceeds(w, locks, m, 0);
  }

  // ------------------------------------------------------------------ closure

  ghost predicate TargetLocked<M, C>(w: Wiring<M, C>, locks: set<M>, m: M, i: int)
    requires HasRequest(w, m, i)
  {
    Req(w, m, i).target.Some? && Req(w, m, i).target.value in locks
  }

  /** Every submodule of a locked module is set and locked. */
  ghost predicate LockClosed<M, C>(w: Wiring<M, C>, locks: set<M>) {
    && locks <= w.g.Keys
    && forall m, i :: m in locks && HasRequest(w, m, i) ==> TargetLocked(w, locks, m, i)
  }

  /** The module at the end of a path of submodules, if the path exists. */
  ghost function Walk<M, C>(w: Wiring<M, C>, m: M, path: seq<int>): (r: Option<M>)
    requires Acyclic(w) && m in w.g
    ensures r.Some? ==> r.value in w.g
    decreases |path|
  {
    if path == [] then Some(m)
    else if !HasRequest(w, m, path[0]) || Req(w, m, path[0]).target.None? then None
    else Walk(w, Req(w, m, path[0]).target.value, path[1..])
  }

  /** Everything reachable from a locked module is locked. */
  lemma {:induction false} LockedAllTheWay<M, C>(w: Wiring<M, C>, locks: set<M>, m: M, path: seq<int>)
    requires Acyclic(w) && LockClosed(w, locks) && m in locks
    ensures Walk(w, m, path).Some? ==> Walk(w, m, path).value in locks
    decreases |path|
  {
    if path != [] && HasRequest(w, m, path[0]) {
      assert TargetLocked(w, locks, m, path[0]);
      LockedAllTheWay(w, locks, Req(w, m, path[0]).target.value, path[1..]);
    }
  }

  lemma {:induction false} LockFromKeepsClosed<M, C>(w: Wiring<M, C>, locks: set<M>, m: M, i: nat)
    requires Acyclic(w) && LockClosed(w, locks) && m in w.g && i <= |w.g[m].submods|
    ensures LockClosed(w, LockFrom(w, locks, m, i).0)
    ensures LockFrom(w, locks, m, i).1 ==>
              forall j :: i <= j && HasRequest(w, m, j) ==> TargetLocked(w, LockFrom(w, locks, m, i).0, m, j)
    decreases w.rank[m], 0, |w.g[m].submods| - i
  {
    if i < |w.g[m].submods| && RequestReady(w, m, i) {
      var t := Req(w, m, i).target.value;
      LockKeepsClosed(w, locks, t);
      var (after, ok) := Lock(w, locks, t);
      if ok {
        LockFromKeepsClosed(w, after, m, i + 1);
      }
    }
  }

  /** Locking keeps the closure, whether it succeeds or throws half way. */
  lemma {:induction false} LockKeepsClosed<M, C>(w: Wiring<M, C>, locks: set<M>, m: M)
    requires Acyclic(w) && LockClosed(w, locks) && m in w.g
    ensures LockClosed(w, Lock(w, locks, m).0)
    ensures Lock(w, locks, m).1 ==> m in Lock(w, locks, m).0
    decreases w.rank[m], 1, 0
  {
    LockFromKeepsClosed(w, locks, m, 0);
  }

  /** Locking a locked module changes nothing. */
  lemma {:induction false} LockedIsFixed<M, C>(w: Wiring<M, C>, locks: set<M>, m: M)
    requires Acyclic(w) && LockClosed(w, locks) && m in locks
    ensures Lock(w, locks, m).0 == locks
    decreases w.rank[m], 1, 0
  {
    LockedFromIsFixed(w, locks, m, 0);
  }

  lemma {:induction false} LockedFromIsFixed<M, C>(w: Wiring<M, C>, locks: set<M>, m: M, i: nat)
    requires Acyclic(w) && LockClosed(w, locks) && m in locks && i <= |w.g[m].submods|
    ensures LockFrom(w, locks, m, i).0 == locks
    decreases w.rank[m], 0, |w.g[m].submods| - i
  {
    if i < |w.g[m].submods| {
      assert HasRequest(w, m, i) && TargetLocked(w, locks, m, i);
      LockedIsFixed(w, locks, Req(w, m, i).target.value);
      LockedFromIsFixed(w, locks, m, i + 1);
    }
  }

  /** Only modules reachable from `m` get locked. */
  lemma {:induction false} LockStaysBelow<M, C>(w: Wiring<M, C>, locks: set<M>, m: M, x: M) returns (path: seq<int>)
    requires Acyclic(w) && m in w.g && x in Lock(w, locks, m).0 && x !in locks
    ensures Walk(w, m, path) == Some(x)
    decreases w.rank[m], 1, 0
  {
    if x == m { return []; }
    path := LockFromStaysBelow(w, locks, m, 0, x);
  }

  lemma {:induction false} LockFromStaysBelow<M, C>(w: Wiring<M, C>, locks: set<M>, m: M, i: nat, x: M)
    returns (path: seq<int>)
    requires Acyclic(w) && m in w.g && i <= |w.g[m].submods|
    requires x in LockFrom(w, locks, m, i).0 && x !in locks
    ensures Walk(w, m, path) == Some(x)
    decreases w.rank[m], 0, |w.g[m].submods| - i
  {
    assert HasRequest(w, m, i);
    var t := Req(w, m, i).target.value;
    var after := Lock(w, locks, t).0;
    if x in after {
      var rest := LockStaysBelow(w, locks, t, x);
      path := [i] + rest;
      assert path[1..] == rest;
    } else {
      path := LockFromStaysBelow(w, after, m, i + 1, x);
    }
  }

  // ---------------------------------------------------- a lock that throws

  /** The documentation promises that a throwing lock changes nothing.  It does
      change something, exactly when a request before the first unready one
      has a submodule that was not locked yet. */
  lemma FailedLockLeavesTraces<M, C>(w: Wiring<M, C>, locks: set<M>, m: M, bad: nat)
    requires Acyclic(w) && LockClosed(w, locks) && HasRequest(w, m, bad)
    requires !RequestReady(w, m, bad) && forall j :: 0 <= j < bad && HasRequest(w, m, j) ==> RequestReady(w, m, j)
    ensures !Lock(w, locks, m).1
    ensures Lock(w, locks, m).0 == locks <==>
              forall j :: 0 <= j < bad && HasRequest(w, m, j) ==> TargetLocked(w, locks, m, j)
  {
    FailedFromLeavesTraces(w, locks, m, bad, 0);
  }

  lemma {:induction false} FailedFromLeavesTraces<M, C>(w: Wiring<M, C>, locks: set<M>, m: M, bad: nat, i: nat)
    requires Acyclic(w) && LockClosed(w, locks) && HasRequest(w, m, bad) && i <= bad
    requires !RequestReady(w, m, bad) && forall j :: i <= j < bad && HasRequest(w, m, j) ==> RequestReady(w, m, j)
    ensures !LockFrom(w, locks, m, i).1
    ensures LockFrom(w, locks, m, i).0 == locks <==>
              forall j :: i <= j < bad && HasRequest(w, m, j) ==> TargetLocked(w, locks, m, j)
    decreases bad - i
  {
    if i < bad {
      assert HasRequest(w, m, i) && RequestReady(w, m, i);
      var q := Req(w, m, i);
      ReadyMeansAllReady(w, q.target.value, q.provided);
      LockSucceeds(w, locks, q.target.value);
      LockKeepsClosed(w, locks, q.target.value);
      var after := Lock(w, locks, q.target.value).0;
      FailedFromLeavesTraces(w, after, m, bad, i + 1);
      if TargetLocked(w, locks, m, i) {
        LockedIsFixed(w, locks, q.target.value);
      }
    }
  }

  /** Module 1 has a submodule 0 and one that is not set. */
  ghost function HalfWired(base: Base, pt: PropertyType): Wiring<nat, nat> {
    var requests := [("a", Request(Some(pt), {}, Some(0))), ("b", Request(Some(pt), {}, None))];
    Wiring(map[0 := Config(true, base, None, map[], [], {pt}), 1 := Config(true, base, None, map[], requests, {})],
           map[0 := 0, 1 := 1])
  }

  /** Locking module 1 throws and leaves module 0 locked. */
  lemma ThrowingLockLocks(base: Base, pt: PropertyType)
    ensures Acyclic(HalfWired(base, pt)) && Lock(HalfWired(base, pt), {}, 1) == ({0}, false)
  {
    var w := HalfWired(base, pt);
    assert !HasRequest(w, 0, 0);
    assert HasRequest(w, 1, 0) && Req(w, 1, 0) == Request(Some(pt), {}, Some(0));
    assert HasRequest(w, 1, 1) && !RequestReady(w, 1, 1);
    assert forall i :: !HasRequest(w, 0, i);
    assert Ready(w, 0, {}) && RequestReady(w, 1, 0);
    var none: set<nat> := {};
    assert LockFrom(w, none, 0, 0) == (none, true);
    assert none + {0} == {0};
    assert Lock(w, none, 0) == ({0}, true);
    assert LockFrom(w, {0}, 1, 1) == ({0}, false);
    assert LockFrom(w, {}, 1, 0) == ({0}, false);
  }

  // ---------------------------------------------------------------- histories

  datatype Op<M, C> =
    | LockModule(m: M)
    | RunModule(m: M, supplied: set<Name>)
    | ChangeInput(m: M, key: Name, value: Field, valid: bool)
    | ChangeSubmod(m: M, key: Name, module_: M)
    | AddPropertyType(m: M, propertyType: PropertyType)
    | SetMemoization(m: M, on: bool)
    | Copy(m: M, copy: M)
    | UnlockedCopy(m: M, copy: M)
    | AddModule(m: M, config: Config<M, C>)

  /** The position of a submodule key, or the length if there is none. */
  function IndexOf<M>(subs: Submods<M>, key: Name): (i: nat)
    ensures i <= |subs| && (i < |subs| ==> subs[i].0 == key)
    ensures forall j :: 0 <= j < i ==> subs[j].0 != key
  {
    if subs == [] || subs[0].0 == key then 0 else 1 + IndexOf(subs[1..], key)
  }

  function WithInput<M, C>(c: Config<M, C>, key: Name, value: Field): Config<M, C>
    requires key in c.inputs
  {
    c.(inputs := c.inputs[key := c.inputs[key].(field := Some(value))])
  }

  function WithTarget<M, C>(c: Config<M, C>, i: nat, t: M): Config<M, C>
    requires i < |c.submods|
  {
    c.(submods := c.submods[i := (c.submods[i].0, c.submods[i].1.(target := Some(t)))])
  }

  /** `change_submod` goes through on an open module: it has the key, and the
      new submodule satisfies the requested property type. */
  predicate CanChangeSubmod<M, C>(c: Config<M, C>, key: Name, types: set<PropertyType>) {
    && IndexOf(c.submods, key) < |c.submods|
    && var q := c.submods[IndexOf(c.submods, key)].1;
       q.propertyType.Some? && q.propertyType.value in types
  }

  /** The modules and which of them are locked. */
  datatype World<M, C> = World(w: Wiring<M, C>, locks: set<M>)

  /** A new module is open, and nothing is set in its requests. */
  predicate Unset<M, C>(c: Config<M, C>) {
    c.memoizable && forall i :: 0 <= i < |c.submods| ==> c.submods[i].1.target.None?
  }

  /** What one operation does; one that throws leaves everything alone, except
      for a lock that throws half way.  A change of wiring may come with a new
      ranking, since the source only needs each graph to be acyclic.  A module
      that is erased from its manager stays in the graph. */
  ghost predicate Step<M, C>(s: World<M, C>, op: Op<M, C>, s': World<M, C>)
    requires Acyclic(s.w)
  {
    && Acyclic(s'.w)
    && if op.AddModule? then
         op.m !in s.w.g && Unset(op.config) && s'.w.g == s.w.g[op.m := op.config] && s'.locks == s.locks
       else
         op.m in s.w.g && Changes(s, op, s')
  }

  ghost predicate Changes<M, C>(s: World<M, C>, op: Op<M, C>, s': World<M, C>)
    requires Acyclic(s.w) && !op.AddModule? && op.m in s.w.g
  {
    var c := s.w.g[op.m];
    var open := op.m !in s.locks;
    match op
    case LockModule(m) => s' == s.(locks := Lock(s.w, s.locks, m).0)
    case RunModule(m, supplied) =>
      s' == if Ready(s.w, m, supplied) then s.(locks := Lock(s.w, s.locks, m).0) else s
    case ChangeInput(m, key, value, valid) =>
      s'.locks == s.locks
      && s'.w.g == if open && key in c.inputs && valid then s.w.g[m := WithInput(c, key, value)] else s.w.g
    case ChangeSubmod(m, key, t) =>
      t in s.w.g && s'.locks == s.locks
      && s'.w.g == if open && CanChangeSubmod(c, key, s.w.g[t].propertyTypes)
                   then s.w.g[m := WithTarget(c, IndexOf(c.submods, key), t)] else s.w.g
    case AddPropertyType(m, t) =>
      s'.locks == s.locks
      && s'.w.g == if open then s.w.g[m := c.(propertyTypes := c.propertyTypes + {t})] else s.w.g
    case SetMemoization(m, on) => s'.locks == s.locks && s'.w.g == s.w.g[m := c.(memoizable := on)]
    case Copy(m, n) =>
      n !in s.w.g && s'.w.g == s.w.g[n := c] && s'.locks == if open then s.locks else s.locks + {n}
    case UnlockedCopy(m, n) => n !in s.w.g && s'.w.g == s.w.g[n := c] && s'.locks == s.locks
  }

  // ---------------------------------------------------------- what fits where

  /** Every submodule that is set satisfies the property type that is asked for. */
  ghost predicate WellTyped<M, C>(w: Wiring<M, C>) {
    forall m, i :: m in w.g && HasRequest(w, m, i) && Req(w, m, i).target.Some? ==> TypeFits(w, m, i)
  }

  ghost predicate TypeFits<M, C>(w: Wiring<M, C>, m: M, i: int)
    requires HasRequest(w, m, i) && Req(w, m, i).target.Some?
  {
    var q := Req(w, m, i);
    q.target.value in w.g && q.propertyType.Some? && q.propertyType.value in w.g[q.target.value].propertyTypes
  }

  /** No operation sets a submodule of the wrong type or takes a type away. */
  lemma StepKeepsTypes<M, C>(s: World<M, C>, op: Op<M, C>, s': World<M, C>)
    requires Acyclic(s.w) && WellTyped(s.w) && Step(s, op, s')
    ensures WellTyped(s'.w)
  {
    hide Lock, Ready, Acyclic;
    forall m | m in s.w.g
      ensures m in s'.w.g && s.w.g[m].propertyTypes <= s'.w.g[m].propertyTypes
    {
    }
    forall m, i | m in s'.w.g && HasRequest(s'.w, m, i) && Req(s'.w, m, i).target.Some?
      ensures TypeFits(s'.w, m, i)
    {
      var before := if m in s.w.g then m else op.m;
      if op.AddModule? && m == op.m {
        assert false;
      } else if op.ChangeSubmod? && m == op.m && Req(s'.w, m, i) != Req(s.w, m, i) {
        assert i == IndexOf(s.w.g[m].submods, op.key);
      } else {
        assert HasRequest(s.w, before, i) && Req(s.w, before, i) == Req(s'.w, m, i);
        assert TypeFits(s.w, before, i);
      }
    }
  }

  /** A submodule that satisfies the type asked for can be set, whatever was set
      before, as long as the module is open. */
  lemma FittingSubmodIsSet<M, C>(s: World<M, C>, m: M, i: nat, t: M, s': World<M, C>)
    requires Acyclic(s.w) && HasRequest(s.w, m, i) && m !in s.locks && t in s.w.g
    requires forall j :: 0 <= j < |s.w.g[m].submods| && s.w.g[m].submods[j].0 == s.w.g[m].submods[i].0 ==> j == i
    requires Req(s.w, m, i).propertyType.Some? && Req(s.w, m, i).propertyType.value in s.w.g[t].propertyTypes
    requires Step(s, ChangeSubmod(m, s.w.g[m].submods[i].0, t), s')
    ensures HasRequest(s'.w, m, i) && Req(s'.w, m, i).target == Some(t)
    ensures forall j :: j != i && HasRequest(s.w, m, j) ==> HasRequest(s'.w, m, j) && Req(s'.w, m, j) == Req(s.w, m, j)
    ensures forall x :: x in s.w.g && x != m ==> x in s'.w.g && s'.w.g[x] == s.w.g[x]
  {
    assert IndexOf(s.w.g[m].submods, s.w.g[m].submods[i].0) == i;
  }

  // ---------------------------------------------------------- what is frozen

  /** A module that has been run is locked, and so is everything below it. */
  lemma RunLocks<M, C>(s: World<M, C>, m: M, supplied: set<Name>, s': World<M, C>, path: seq<int>)
    requires Acyclic(s.w) && LockClosed(s.w, s.locks) && Step(s, RunModule(m, supplied), s')
    requires Ready(s.w, m, supplied) && Walk(s.w, m, path).Some?
    ensures Walk(s.w, m, path).value in s'.locks && s'.w == s.w
  {
    ReadyMeansAllReady(s.w, m, supplied);
    LockSucceeds(s.w, s.locks, m);
    LockKeepsClosed(s.w, s.locks, m);
    LockedAllTheWay(s.w, Lock(s.w, s.locks, m).0, m, path);
  }

  /** `x` stays locked and keeps its inputs, wiring and property types. */
  ghost predicate Frozen<M, C>(s: World<M, C>, s': World<M, C>, x: M) {
    && x in s.w.g && x in s'.w.g && x in s'.locks
    && s'.w.g[x] == s.w.g[x].(memoizable := s'.w.g[x].memoizable)
  }

  /** Every operation keeps the closure and freezes whatever is locked. */
  lemma StepKeepsLocks<M, C>(s: World<M, C>, op: Op<M, C>, s': World<M, C>)
    requires Acyclic(s.w) && LockClosed(s.w, s.locks) && Step(s, op, s')
    ensures LockClosed(s'.w, s'.locks)
    ensures forall x :: x in s.locks ==> Frozen(s, s', x)
  {
    if op.LockModule? || op.RunModule? {
      LockKeepsClosed(s.w, s.locks, op.m);
    } else {
      forall m, i | m in s'.locks && HasRequest(s'.w, m, i)
        ensures TargetLocked(s'.w, s'.locks, m, i)
      {
        var before := if m in s.w.g then m else op.m;
        assert before in s.w.g;
        assert HasRequest(s.w, before, i) && Req(s.w, before, i) == Req(s'.w, m, i);
        assert TargetLocked(s.w, s.locks, before, i);
      }
    }
  }

  ghost predicate History<M, C>(states: seq<World<M, C>>, ops: seq<Op<M, C>>) {
    && |states| == |ops| + 1
    && (forall k :: 0 <= k < |states| ==> Acyclic(states[k].w))
    && (forall k :: 0 <= k < |ops| ==> Step(states[k], ops[k], states[k + 1]))
  }

  /** Over every history: once a module is locked, it and everything reachable
      from it stay locked with the same inputs and wiring. */
  lemma {:induction false} FrozenForever<M, C>(states: seq<World<M, C>>, ops: seq<Op<M, C>>, m: M, path: seq<int>,
                                               k: nat)
    requires History(states, ops) && LockClosed(states[0].w, states[0].locks) && k < |states|
    requires m in states[0].locks && Walk(states[0].w, m, path).Some?
    ensures LockClosed(states[k].w, states[k].locks)
    ensures Frozen(states[0], states[k], Walk(states[0].w, m, path).value)
    decreases k
  {
    LockedAllTheWay(states[0].w, states[0].locks, m, path);
    if k > 0 {
      FrozenForever(states, ops, m, path, k - 1);
      StepKeepsLocks(states[k - 1], ops[k - 1], states[k]);
    }
  }
}
