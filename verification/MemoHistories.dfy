/**
 Memoization over the histories that the lock allows: modules are added,
 reconfigured, locked, copied, run and their caches cleared, and a module that has
 been run can no longer change.  Other users of the tables, such as the caches that
 developers and users store into, give UUIDs to values from a set `outside`.

 Every history is right exactly when, in each state that can be reached, keys decide
 results and no call would look up or store a key with a valueless input.  Modules
 that do not share their cache meet the first by themselves; copies, which do share
 it, do not.
 */
module MemoHistories {
  import opened Fields
  import opened ModuleGraph
  import opened Memoization
  import opened KeyStrength

  datatype State<M, !C> = State(world: World<M, C>, memo: Memo<C>)

  datatype Event<M, C> =
    | Reconfigure(op: Op<M, C>)
    | RunEvent(m: M, ps: InputMap)
    | ResetCache(m: M)
    | GiveUuids(m: M, values: set<Any>)

  // ---------------------------------------------------------------- histories

  ghost predicate Moves<M, C>(outside: iset<Any>, s: State<M, C>, e: Event<M, C>, s': State<M, C>)
    requires Acyclic(s.world.w)
  {
    match e
    case Reconfigure(op) => !op.RunModule? && Step(s.world, op, s'.world) && s'.memo == s.memo
    case RunEvent(m, ps) =>
      m in s.world.w.g && Step(s.world, RunModule(m, ps.Keys), s'.world)
      && s'.memo == Run(s.world.w, m, ps, s.memo).1
    case ResetCache(m) =>
      m in s.world.w.g && s'.world == s.world
      && var c := s.world.w.g[m].cache;
         s'.memo == if c.Some? then Cleared(s.memo, c.value) else s.memo
    case GiveUuids(m, values) =>
      m in s.world.w.g && s.world.w.g[m].cache.Some? && (forall v :: v in values ==> v in outside)
      && s' == s.(memo := WithUuids(s.memo, s.world.w.g[m].cache.value, values))
  }

  ghost predicate Protocol<M, C>(outside: iset<Any>, states: seq<State<M, C>>, events: seq<Event<M, C>>) {
    && |states| == |events| + 1
    && (forall k :: 0 <= k < |states| ==> Acyclic(states[k].world.w))
    && (forall k :: 0 <= k < |events| ==> Moves(outside, states[k], events[k], states[k + 1]))
  }

  /** A state in which nothing is cached yet. */
  ghost predicate Starts<M, C>(s0: State<M, C>) {
    Acyclic(s0.world.w) && LockClosed(s0.world.w, s0.world.locks) && s0.memo.caches == map[]
  }

  /** A history that starts at `s0`. */
  ghost predicate From<M, C>(outside: iset<Any>, s0: State<M, C>, states: seq<State<M, C>>, events: seq<Event<M, C>>) {
    Protocol(outside, states, events) && states[0] == s0
  }

  /** A run returns what the algorithms return without any cache. */
  ghost predicate Right<M, C>(s: State<M, C>, e: Event<M, C>)
    requires Acyclic(s.world.w)
  {
    e.RunEvent? && e.m in s.world.w.g ==>
      Run(s.world.w, e.m, e.ps, s.memo).0 == Eval(s.world.w, e.m, e.ps)
  }

  ghost predicate AllRight<M, C>(states: seq<State<M, C>>, events: seq<Event<M, C>>)
    requires |states| == |events| + 1 && forall k :: 0 <= k < |states| ==> Acyclic(states[k].world.w)
  {
    forall k :: 0 <= k < |events| ==> Right(states[k], events[k])
  }

  // ---------------------------------------------- keys within a single wiring

  /** Memoization can be switched on for `m` and everything below it. */
  ghost predicate Switchable<M, C>(w: Wiring<M, C>, m: M)
    requires Acyclic(w) && m in w.g
    decreases w.rank[m]
  {
    && w.g[m].base.uuid != ""
    && forall i :: HasRequest(w, m, i) && Req(w, m, i).target.Some? ==> Switchable(w, Req(w, m, i).target.value)
  }

  /** The call `ps` of `m` consults a cache once memoization is switched on. */
  ghost predicate CanConsult<M, C>(w: Wiring<M, C>, m: M, ps: InputMap)
    requires Acyclic(w)
  {
    m in w.g && Switchable(w, m) && w.g[m].cache.Some? && Ready(w, m, ps.Keys)
  }

  /** Two calls find each other's result. */
  ghost predicate SameSlot<M, C>(w: Wiring<M, C>, m1: M, ps1: InputMap, m2: M, ps2: InputMap)
    requires Acyclic(w) && CanConsult(w, m1, ps1) && CanConsult(w, m2, ps2)
  {
    && w.g[m1].cache == w.g[m2].cache
    && Complete(Merge(w, m1, ps1)) && Complete(Merge(w, m2, ps2))
    && KeyOf(Merge(w, m1, ps1)) == KeyOf(Merge(w, m2, ps2))
  }

  ghost predicate KeysDecide<M, C>(w: Wiring<M, C>)
    requires Acyclic(w)
  {
    forall m1, ps1, m2, ps2 ::
      (&& m1 in w.g && m2 in w.g && CanConsult(w, m1, ps1) && CanConsult(w, m2, ps2)
       && SameSlot(w, m1, ps1, m2, ps2) && Eval(w, m1, ps1).Returned?)
      ==> Eval(w, m2, ps2) == Eval(w, m1, ps1)
  }

  /** Once memoization is switched on, the call would look up or store a key in
      which an input has no value. */
  ghost predicate CanBeFatal<M, C>(w: Wiring<M, C>, memo: Memo<C>, m: M, ps: InputMap)
    requires Acyclic(w)
  {
    && CanConsult(w, m, ps) && !Complete(Merge(w, m, ps))
    && (Eval(w, m, ps).Returned? || LookupFails(Merge(w, m, ps), KnownTo(memo, w.g[m].cache.value)))
  }

  ghost predicate NeverFatal<M, C>(s: State<M, C>)
    requires Acyclic(s.world.w)
  {
    forall m, ps :: m in s.world.w.g ==> !CanBeFatal(s.world.w, s.memo, m, ps)
  }

  ghost predicate WellKeyed<M, C>(s: State<M, C>)
    requires Acyclic(s.world.w)
  {
    KeysDecide(s.world.w) && NeverFatal(s)
  }

  ghost predicate NeverValueless<M, C>(w: Wiring<M, C>)
    requires Acyclic(w)
  {
    forall m, ps :: m in w.g && CanConsult(w, m, ps) ==> Complete(Merge(w, m, ps))
  }

  lemma {:induction false} MemoizableIsSwitchable<M, C>(w: Wiring<M, C>, m: M)
    requires Acyclic(w) && m in w.g && Memoizable(w, m)
    ensures Switchable(w, m)
    decreases w.rank[m]
  {
    forall i | HasRequest(w, m, i) && Req(w, m, i).target.Some?
      ensures Switchable(w, Req(w, m, i).target.value)
    {
      MemoizableIsSwitchable(w, Req(w, m, i).target.value);
    }
  }

  // ------------------------------------------------- what the caches stand for

  /** `r` is what a locked module computes for a call with this key. */
  ghost predicate Source<M, C>(w: Wiring<M, C>, m: M, ps: InputMap, c: C, key: AnyMap, r: ResultMap)
    requires Acyclic(w)
  {
    && CanConsult(w, m, ps) && w.g[m].cache == Some(c)
    && Complete(Merge(w, m, ps)) && KeyOf(Merge(w, m, ps)) == key && Eval(w, m, ps) == Returned(r)
  }

  ghost predicate HasSource<M, C>(w: Wiring<M, C>, locks: set<M>, c: C, key: AnyMap, r: ResultMap)
    requires Acyclic(w)
  {
    exists m, ps :: m in locks && Source(w, m, ps, c, key, r)
  }

  ghost predicate Sourced<M, C>(w: Wiring<M, C>, locks: set<M>, caches: Caches<C>)
    requires Acyclic(w)
  {
    forall c, key :: c in caches && key in caches[c] ==> HasSource(w, locks, c, key, caches[c][key])
  }

  /** A run of a locked module stores what has a source, and it is right unless
      it ends at a fatal call. */
  lemma RunKeepsSourced<M, C>(w: Wiring<M, C>, locks: set<M>, m: M, ps: InputMap, memo: Memo<C>)
    returns (trace: seq<(M, InputMap)>, bad: (M, InputMap))
    requires Acyclic(w) && LockClosed(w, locks) && m in locks && KeysDecide(w) && Sourced(w, locks, memo.caches)
    ensures var (o, after) := Run(w, m, ps, memo);
            && Sourced(w, locks, after.caches)
            && (o == Eval(w, m, ps) || (o.Aborted? && FatalAfter(w, locks, memo, trace, bad)))
  {
    var good := (c, key, r) => HasSource(w, locks, c, key, r);
    assert Closed(w, locks) by {
      assert forall x, i :: x in locks && HasRequest(w, x, i) ==> TargetLocked(w, locks, x, i);
    }
    forall x, qs | x in locks
      ensures Fits(w, x, qs, good)
    {
      SourcedFits(w, locks, x, qs, good);
    }
    hide Fits, Run, Eval, FatalAfter, HasSource, KeysDecide, LockClosed;
    trace, bad := RunKeepsGood(w, locks, good, m, ps, memo);
  }

  lemma SourcedFits<M, C>(w: Wiring<M, C>, locks: set<M>, m: M, ps: InputMap, good: (C, AnyMap, ResultMap) -> bool)
    requires Acyclic(w) && m in locks && locks <= w.g.Keys && KeysDecide(w)
    requires forall c, key, r :: good(c, key, r) <==> HasSource(w, locks, c, key, r)
    ensures Fits(w, m, ps, good)
  {
    if Memoizes(w, m) && Ready(w, m, ps.Keys) && Complete(Merge(w, m, ps)) {
      MemoizableIsSwitchable(w, m);
      assert CanConsult(w, m, ps);
      hide Ready, Memoizable, Switchable, Merge, Eval, KeyOf, KeysDecide;
      var c, key := w.g[m].cache.value, KeyOf(Merge(w, m, ps));
      forall r | good(c, key, r)
        ensures Eval(w, m, ps) == Returned(r)
      {
        FoundIsRight(w, locks, m, ps, r);
      }
      if Eval(w, m, ps).Returned? {
        assert Source(w, m, ps, c, key, Eval(w, m, ps).results);
      }
    }
  }

  lemma FoundIsRight<M, C>(w: Wiring<M, C>, locks: set<M>, m: M, ps: InputMap, r: ResultMap)
    requires Acyclic(w) && m in locks && locks <= w.g.Keys && KeysDecide(w)
    requires CanConsult(w, m, ps) && Complete(Merge(w, m, ps))
    requires HasSource(w, locks, w.g[m].cache.value, KeyOf(Merge(w, m, ps)), r)
    ensures Eval(w, m, ps) == Returned(r)
  {
    var m1, ps1 :| m1 in locks && Source(w, m1, ps1, w.g[m].cache.value, KeyOf(Merge(w, m, ps)), r);
    assert SameSlot(w, m1, ps1, m, ps);
  }

  // ------------------------------------------------ what steps leave as it was

  /** `m` belongs to a part of the graph that goes on below and that is the same
      in `w'`, up to the memoization flags. */
  ghost predicate SamePart<M, C>(w: Wiring<M, C>, w': Wiring<M, C>, part: set<M>) {
    && Closed(w, part) && part <= w'.g.Keys
    && forall m :: m in part ==> w'.g[m] == w.g[m].(memoizable := w'.g[m].memoizable)
  }

  lemma {:induction false} PartIsAlike<M, C>(w: Wiring<M, C>, w': Wiring<M, C>, part: set<M>, m: M)
    requires Acyclic(w) && Acyclic(w') && SamePart(w, w', part) && m in part
    ensures SetAlike(w, m, w', m) && (Switchable(w, m) <==> Switchable(w', m))
    decreases w.rank[m]
  {
    forall i | HasRequest(w, m, i)
      ensures HasRequest(w', m, i) && Req(w', m, i) == Req(w, m, i)
      ensures Req(w, m, i).target.Some? ==>
                var t := Req(w, m, i).target.value;
                SetAlike(w, t, w', t) && (Switchable(w, t) <==> Switchable(w', t))
    {
      if Req(w, m, i).target.Some? {
        PartIsAlike(w, w', part, Req(w, m, i).target.value);
      }
    }
    assert forall i :: HasRequest(w', m, i) ==> HasRequest(w, m, i);
  }

  /** In such a part calls mean the same. */
  lemma PartCalls<M, C>(w: Wiring<M, C>, w': Wiring<M, C>, part: set<M>, m: M, ps: InputMap)
    requires Acyclic(w) && Acyclic(w') && SamePart(w, w', part) && m in part
    ensures CanConsult(w, m, ps) <==> CanConsult(w', m, ps)
    ensures Merge(w, m, ps) == Merge(w', m, ps) && Eval(w, m, ps) == Eval(w', m, ps)
    ensures w'.g[m].cache == w.g[m].cache
  {
    PartIsAlike(w, w', part, m);
    AlikeReady(w, m, w', m, ps.Keys);
    AlikeUuids(w, m, w', m);
    AlikeCompute(w, m, w', m, ps);
  }

  lemma StaysSourced<M, C>(w: Wiring<M, C>, locks: set<M>, caches: Caches<C>, w': Wiring<M, C>, locks': set<M>)
    requires Acyclic(w) && Acyclic(w') && SamePart(w, w', locks) && locks <= locks' && Sourced(w, locks, caches)
    ensures Sourced(w', locks', caches)
  {
    forall c, key | c in caches && key in caches[c]
      ensures HasSource(w', locks', c, key, caches[c][key])
    {
      assert HasSource(w, locks, c, key, caches[c][key]);
      var m, ps :| m in locks && Source(w, m, ps, c, key, caches[c][key]);
      hide Eval, Merge, CanConsult, SamePart;
      PartCalls(w, w', locks, m, ps);
      assert Source(w', m, ps, c, key, caches[c][key]);
    }
  }

  /** Every move keeps the closure of the lock and the sources of the caches. */
  lemma MoveKeepsSourced<M, C>(outside: iset<Any>, s: State<M, C>, e: Event<M, C>, s': State<M, C>)
    returns (trace: seq<(M, InputMap)>, bad: (M, InputMap))
    requires Acyclic(s.world.w) && Acyclic(s'.world.w) && LockClosed(s.world.w, s.world.locks)
    requires KeysDecide(s.world.w) && Sourced(s.world.w, s.world.locks, s.memo.caches) && Moves(outside, s, e, s')
    ensures LockClosed(s'.world.w, s'.world.locks) && Sourced(s'.world.w, s'.world.locks, s'.memo.caches)
    ensures || Right(s, e)
            || (e.RunEvent? && FatalAfter(s.world.w, Lock(s.world.w, s.world.locks, e.m).0, s.memo, trace, bad))
  {
    var w, locks, w', locks' := s.world.w, s.world.locks, s'.world.w, s'.world.locks;
    hide Sourced, KeysDecide, Run, Eval, FatalAfter;
    trace := [];
    match e
    case Reconfigure(op) =>
      bad := (op.m, map[]);
      StepKeepsLocks(s.world, op, s'.world);
      LockedPart(s.world, op, s'.world);
      StaysSourced(w, locks, s.memo.caches, w', locks');
    case RunEvent(m, ps) =>
      StepKeepsLocks(s.world, RunModule(m, ps.Keys), s'.world);
      trace, bad := RunMoves(s, m, ps, s');
    case ResetCache(m) =>
      bad := (m, map[]);
      ResetSourced(w, locks, s.memo.caches, s'.memo.caches, m);
    case GiveUuids(m, values) =>
      bad := (m, map[]);
  }

  lemma LockedPart<M, C>(s: World<M, C>, op: Op<M, C>, s': World<M, C>)
    requires Acyclic(s.w) && Acyclic(s'.w) && LockClosed(s.w, s.locks) && Step(s, op, s')
    ensures SamePart(s.w, s'.w, s.locks) && s.locks <= s'.locks
  {
    StepKeepsLocks(s, op, s');
    hide Step;
    assert forall m :: m in s.locks ==> Frozen(s, s', m);
    forall m, i | m in s.locks && HasRequest(s.w, m, i) && Req(s.w, m, i).target.Some?
      ensures Req(s.w, m, i).target.value in s.locks
    {
      assert TargetLocked(s.w, s.locks, m, i);
    }
  }

  lemma RunMoves<M, C>(s: State<M, C>, m: M, ps: InputMap, s': State<M, C>)
    returns (trace: seq<(M, InputMap)>, bad: (M, InputMap))
    requires Acyclic(s.world.w) && LockClosed(s.world.w, s.world.locks) && m in s.world.w.g
    requires KeysDecide(s.world.w) && Sourced(s.world.w, s.world.locks, s.memo.caches)
    requires s'.world == if Ready(s.world.w, m, ps.Keys)
                         then s.world.(locks := Lock(s.world.w, s.world.locks, m).0) else s.world
    requires s'.memo == Run(s.world.w, m, ps, s.memo).1
    ensures || Run(s.world.w, m, ps, s.memo).0 == Eval(s.world.w, m, ps)
            || FatalAfter(s.world.w, Lock(s.world.w, s.world.locks, m).0, s.memo, trace, bad)
    ensures Sourced(s'.world.w, s'.world.locks, s'.memo.caches)
  {
    var w, locks := s.world.w, s.world.locks;
    trace, bad := [], (m, ps);
    if Ready(w, m, ps.Keys) {
      var more := Lock(w, locks, m).0;
      LockKeepsClosed(w, locks, m);
      ReadyMeansAllReady(w, m, ps.Keys);
      LockSucceeds(w, locks, m);
      MoreSourced(w, locks, more, s.memo.caches);
      hide KeysDecide, Sourced, Ready, Lock, FatalAfter;
      trace, bad := RunKeepsSourced(w, more, m, ps, s.memo);
    }
  }

  lemma MoreSourced<M, C>(w: Wiring<M, C>, locks: set<M>, more: set<M>, caches: Caches<C>)
    requires Acyclic(w) && locks <= more && Sourced(w, locks, caches)
    ensures Sourced(w, more, caches)
  {
    forall c, key | c in caches && key in caches[c]
      ensures HasSource(w, more, c, key, caches[c][key])
    {
      assert HasSource(w, locks, c, key, caches[c][key]);
    }
  }

  lemma ResetSourced<M, C>(w: Wiring<M, C>, locks: set<M>, caches: Caches<C>, after: Caches<C>, m: M)
    requires Acyclic(w) && m in w.g && Sourced(w, locks, caches)
    requires after == if w.g[m].cache.Some? then caches[w.g[m].cache.value := map[]] else caches
    ensures Sourced(w, locks, after)
  {
    hide HasSource;
    forall c, key | c in after && key in after[c]
      ensures HasSource(w, locks, c, key, after[c][key])
    {
      assert c in caches && key in caches[c];
    }
  }

  /** Along a history in which keys decide and no fatal call is near, every run is
      right. */
  lemma {:induction false} RightAlong<M, C>(outside: iset<Any>, s0: State<M, C>, states: seq<State<M, C>>,
                                            events: seq<Event<M, C>>, k: nat)
    requires Starts(s0) && From(outside, s0, states, events) && k <= |events|
    requires forall j :: 0 <= j < |states| ==> KeysDecide(states[j].world.w)
    requires forall j, m, trace, bad :: 0 <= j < |states| && m in states[j].world.w.g ==>
               !FatalAfter(states[j].world.w, Lock(states[j].world.w, states[j].world.locks, m).0, states[j].memo,
                           trace, bad)
    ensures LockClosed(states[k].world.w, states[k].world.locks)
    ensures Sourced(states[k].world.w, states[k].world.locks, states[k].memo.caches)
    ensures forall j :: 0 <= j < k ==> Right(states[j], events[j])
    decreases k
  {
    if k > 0 {
      hide KeysDecide, LockClosed, Sourced, Right, FatalAfter, Lock;
      RightAlong(outside, s0, states, events, k - 1);
      KnownModule(outside, states[k - 1], events[k - 1], states[k]);
      hide Moves;
      var trace, bad := MoveKeepsSourced(outside, states[k - 1], events[k - 1], states[k]);
    }
  }

  lemma KnownModule<M, C>(outside: iset<Any>, s: State<M, C>, e: Event<M, C>, s': State<M, C>)
    requires Acyclic(s.world.w) && Moves(outside, s, e, s')
    ensures e.RunEvent? ==> e.m in s.world.w.g
  {
  }

  // --------------------------------------------- states that are not well keyed

  lemma Append<M, C>(outside: iset<Any>, s0: State<M, C>, states: seq<State<M, C>>, events: seq<Event<M, C>>,
                     e: Event<M, C>, s': State<M, C>)
    requires From(outside, s0, states, events)
    requires Acyclic(s'.world.w) && Moves(outside, states[|events|], e, s')
    ensures From(outside, s0, states + [s'], events + [e])
    ensures AllRight(states + [s'], events + [e]) <==> AllRight(states, events) && Right(states[|events|], e)
  {
    hide Moves, Right;
    var more, all := states + [s'], events + [e];
    assert forall k :: 0 <= k < |states| ==> more[k] == states[k];
    assert forall k :: 0 <= k < |events| ==> all[k] == events[k];
    assert all[|events|] == e && more[|events| + 1] == s';
    if AllRight(more, all) {
      forall k | 0 <= k < |events|
        ensures Right(states[k], events[k])
      {
        assert Right(more[k], all[k]);
      }
      assert Right(more[|events|], all[|events|]);
    }
  }

  /** Memoization is switched on for the modules of `todo`, which no lock forbids. */
  lemma {:induction false} SwitchOn<M, C>(outside: iset<Any>, s0: State<M, C>, states: seq<State<M, C>>,
                                          events: seq<Event<M, C>>, todo: set<M>)
    returns (states': seq<State<M, C>>, events': seq<Event<M, C>>)
    requires From(outside, s0, states, events)
    requires var w := states[|events|].world.w;
             todo <= w.g.Keys && forall m :: m in w.g && m !in todo ==> w.g[m].memoizable
    ensures From(outside, s0, states', events') && states'[|events'|].memo == states[|events|].memo
    ensures var w, w' := states[|events|].world.w, states'[|events'|].world.w;
            w'.g.Keys == w.g.Keys && SamePart(w, w', w.g.Keys) && forall m :: m in w'.g ==> w'.g[m].memoizable
    decreases todo
  {
    var s := states[|events|];
    if todo == {} {
      return states, events;
    }
    var m :| m in todo;
    var w' := s.world.w.(g := s.world.w.g[m := s.world.w.g[m].(memoizable := true)]);
    var s' := State(World(w', s.world.locks), s.memo);
    assert Acyclic(w') by {
      assert forall x, i :: HasRequest(w', x, i) ==>
                              HasRequest(s.world.w, x, i) && Req(w', x, i) == Req(s.world.w, x, i);
    }
    var e: Event<M, C> := Reconfigure(SetMemoization(m, true));
    Append(outside, s0, states, events, e, s');
    states', events' := SwitchOn(outside, s0, states + [s'], events + [e], todo - {m});
    PartTrans(s.world.w, w', states'[|events'|].world.w);
  }

  lemma PartTrans<M, C>(w: Wiring<M, C>, w': Wiring<M, C>, w'': Wiring<M, C>)
    requires Acyclic(w) && SamePart(w', w'', w'.g.Keys) && w'.g.Keys == w.g.Keys
    requires forall m :: m in w.g ==> w'.g[m] == w.g[m].(memoizable := w'.g[m].memoizable)
    ensures SamePart(w, w'', w.g.Keys)
  {
  }

  lemma {:induction false} SwitchedOnIsMemoizable<M, C>(w: Wiring<M, C>, m: M)
    requires Acyclic(w) && m in w.g && Switchable(w, m) && forall x :: x in w.g ==> w.g[x].memoizable
    ensures Memoizable(w, m)
    decreases w.rank[m]
  {
    forall i | HasRequest(w, m, i) && Req(w, m, i).target.Some?
      ensures Memoizable(w, Req(w, m, i).target.value)
    {
      SwitchedOnIsMemoizable(w, Req(w, m, i).target.value);
    }
  }

  ghost function AfterRun<M, C>(s: State<M, C>, m: M, ps: InputMap): State<M, C>
    requires Acyclic(s.world.w) && m in s.world.w.g
  {
    State(if Ready(s.world.w, m, ps.Keys) then s.world.(locks := Lock(s.world.w, s.world.locks, m).0) else s.world,
          Run(s.world.w, m, ps, s.memo).1)
  }

  lemma RunIsMove<M, C>(outside: iset<Any>, s: State<M, C>, m: M, ps: InputMap)
    requires Acyclic(s.world.w) && m in s.world.w.g
    ensures Moves(outside, s, RunEvent(m, ps), AfterRun(s, m, ps))
    ensures AfterRun(s, m, ps).world.w == s.world.w && AfterRun(s, m, ps).memo == Run(s.world.w, m, ps, s.memo).1
  {
    hide Run, Lock, Ready;
  }

  /** A right run that returns something leaves it in the cache. */
  lemma RightRunStores<M, C>(w: Wiring<M, C>, m: M, ps: InputMap, memo: Memo<C>, r: ResultMap)
    requires Acyclic(w) && m in w.g && Memoizes(w, m) && Ready(w, m, ps.Keys) && Complete(Merge(w, m, ps))
    requires Run(w, m, ps, memo).0 == Returned(r)
    ensures var after, c, merged := Run(w, m, ps, memo).1, w.g[m].cache.value, Merge(w, m, ps);
            Holds(after, c, merged) && CacheOf(after, c)[KeyOf(merged)] == r
  {
    hide RunAlgorithm, Merge, Memoizable, Ready, Acyclic, Holds, Stored, KeyOf, LookupFails;
    var c, merged := w.g[m].cache.value, Merge(w, m, ps);
    StoredIsHeld(RunAlgorithm(w, m, merged, [], memo).1, c, merged, r);
  }

  /** A run that finds something returns it. */
  lemma RunFinds<M, C>(w: Wiring<M, C>, m: M, ps: InputMap, memo: Memo<C>)
    requires Acyclic(w) && m in w.g && Memoizes(w, m) && Ready(w, m, ps.Keys)
    requires Holds(memo, w.g[m].cache.value, Merge(w, m, ps))
    ensures Run(w, m, ps, memo).0 == Returned(CacheOf(memo, w.g[m].cache.value)[KeyOf(Merge(w, m, ps))])
  {
    CompleteLookup(Merge(w, m, ps), KnownTo(memo, w.g[m].cache.value));
    hide RunAlgorithm, Merge, Memoizable, Ready, Acyclic, LookupFails;
  }

  lemma FatalRunsAreWrong<M, C>(w: Wiring<M, C>, m: M, ps: InputMap, memo: Memo<C>)
    requires Acyclic(w) && Fatal(w, memo, m, ps)
    ensures Run(w, m, ps, memo).0 != Eval(w, m, ps)
  {
    PlainRunsDoNotAbort(w, m, ps);
    hide RunAlgorithm, Merge, Memoizable, Ready, Acyclic, Eval, LookupFails, Stored;
  }

  /** Where a fatal call is near, the next run is wrong. */
  lemma FatalRun<M, C>(outside: iset<Any>, s0: State<M, C>, states: seq<State<M, C>>, events: seq<Event<M, C>>,
                       m: M, ps: InputMap)
    returns (states': seq<State<M, C>>, events': seq<Event<M, C>>)
    requires From(outside, s0, states, events) && Fatal(states[|events|].world.w, states[|events|].memo, m, ps)
    ensures From(outside, s0, states', events') && !AllRight(states', events')
  {
    var s := states[|events|];
    FatalRunsAreWrong(s.world.w, m, ps, s.memo);
    var e: Event<M, C> := RunEvent(m, ps);
    RunIsMove(outside, s, m, ps);
    hide Run, Eval, Fatal, AllRight, AfterRun, Moves;
    Append(outside, s0, states, events, e, AfterRun(s, m, ps));
    assert !Right(s, e);
    states', events' := states + [AfterRun(s, m, ps)], events + [e];
  }

  /** Where two calls with one key differ, one of the next two runs is wrong. */
  lemma ClashingRuns<M, C>(outside: iset<Any>, s0: State<M, C>, states: seq<State<M, C>>, events: seq<Event<M, C>>,
                           m1: M, ps1: InputMap, m2: M, ps2: InputMap)
    returns (states': seq<State<M, C>>, events': seq<Event<M, C>>)
    requires From(outside, s0, states, events)
    requires var w := states[|events|].world.w;
             && CanConsult(w, m1, ps1) && CanConsult(w, m2, ps2) && Memoizes(w, m1) && Memoizes(w, m2)
             && SameSlot(w, m1, ps1, m2, ps2) && Eval(w, m1, ps1).Returned? && Eval(w, m2, ps2) != Eval(w, m1, ps1)
    ensures From(outside, s0, states', events') && !AllRight(states', events')
  {
    var s := states[|events|];
    var w := s.world.w;
    var e1: Event<M, C>, s1 := RunEvent(m1, ps1), AfterRun(s, m1, ps1);
    RunIsMove(outside, s, m1, ps1);
    RunIsMove(outside, s1, m2, ps2);
    hide Moves, AfterRun, Run, Eval, Merge, Memoizable, Switchable, Ready, KeyOf;
    Append(outside, s0, states, events, e1, s1);
    hide From, AllRight;
    if Run(w, m1, ps1, s.memo).0 == Eval(w, m1, ps1) {
      RightRunStores(w, m1, ps1, s.memo, Eval(w, m1, ps1).results);
      RunFinds(w, m2, ps2, s1.memo);
      var e2: Event<M, C>, s2 := RunEvent(m2, ps2), AfterRun(s1, m2, ps2);
      Append(outside, s0, states + [s1], events + [e1], e2, s2);
      states', events' := states + [s1] + [s2], events + [e1] + [e2];
    } else {
      states', events' := states + [s1], events + [e1];
    }
  }

  /** A history that reaches a state that is not well keyed can be continued to
      a wrong one. */
  lemma IllKeyedGoesWrong<M, C>(outside: iset<Any>, s0: State<M, C>, states: seq<State<M, C>>,
                                events: seq<Event<M, C>>)
    returns (states': seq<State<M, C>>, events': seq<Event<M, C>>)
    requires From(outside, s0, states, events) && !WellKeyed(states[|events|])
    ensures From(outside, s0, states', events') && !AllRight(states', events')
  {
    var s := states[|events|];
    var w := s.world.w;
    states', events' := SwitchOn(outside, s0, states, events, w.g.Keys);
    var w' := states'[|events'|].world.w;
    hide From, AllRight, SamePart, Ready, Merge, Eval, LookupFails;
    if !NeverFatal(s) {
      var m, ps :| m in w.g && CanBeFatal(w, s.memo, m, ps);
      PartCalls(w, w', w.g.Keys, m, ps);
      SwitchedOnIsMemoizable(w', m);
      states', events' := FatalRun(outside, s0, states', events', m, ps);
    } else {
      var m1, ps1, m2, ps2 :|
        && m1 in w.g && m2 in w.g && CanConsult(w, m1, ps1) && CanConsult(w, m2, ps2)
        && SameSlot(w, m1, ps1, m2, ps2) && Eval(w, m1, ps1).Returned? && Eval(w, m2, ps2) != Eval(w, m1, ps1);
      PartCalls(w, w', w.g.Keys, m1, ps1);
      PartCalls(w, w', w.g.Keys, m2, ps2);
      SwitchedOnIsMemoizable(w', m1);
      SwitchedOnIsMemoizable(w', m2);
      states', events' := ClashingRuns(outside, s0, states', events', m1, ps1, m2, ps2);
    }
  }

  // ------------------------------------------------ where a run ends is reached

  /** The calls before a fatal one, run on their own, reach the same caches. */
  lemma {:induction false} ReplayIsHistory<M, C>(outside: iset<Any>, s0: State<M, C>, states: seq<State<M, C>>,
                                                 events: seq<Event<M, C>>, trace: seq<(M, InputMap)>)
    returns (states': seq<State<M, C>>, events': seq<Event<M, C>>)
    requires From(outside, s0, states, events)
    requires var s := states[|events|];
             LockClosed(s.world.w, s.world.locks) && forall x :: x in trace ==> x.0 in s.world.locks
    ensures From(outside, s0, states', events')
    ensures var s, s' := states[|events|], states'[|events'|];
            s' == s.(memo := Replay(s.world.w, trace, s.memo))
    decreases |trace|
  {
    if trace == [] {
      return states, events;
    }
    var s := states[|events|];
    var (m, ps) := trace[0];
    assert trace[0] in trace;
    var s1 := AfterRun(s, m, ps);
    RunIsMove(outside, s, m, ps);
    assert s1 == s.(memo := Run(s.world.w, m, ps, s.memo).1) by {
      LockedIsFixed(s.world.w, s.world.locks, m);
      hide Ready, Lock, Run;
    }
    var e: Event<M, C> := RunEvent(m, ps);
    hide Moves, Run, Lock, Ready, LockClosed, AfterRun, AllRight, Right;
    Append(outside, s0, states, events, e, s1);
    states', events' := ReplayIsHistory(outside, s0, states + [s1], events + [e], trace[1..]);
  }

  /** Where a run would end at a fatal call, a state that is not well keyed can be
      reached. */
  lemma FatalIsReached<M, C>(outside: iset<Any>, s0: State<M, C>, states: seq<State<M, C>>, events: seq<Event<M, C>>,
                             m: M, trace: seq<(M, InputMap)>, bad: (M, InputMap))
    returns (states': seq<State<M, C>>, events': seq<Event<M, C>>)
    requires From(outside, s0, states, events)
    requires var s := states[|events|];
             && m in s.world.w.g && LockClosed(s.world.w, s.world.locks)
             && FatalAfter(s.world.w, Lock(s.world.w, s.world.locks, m).0, s.memo, trace, bad)
    ensures From(outside, s0, states', events') && !NeverFatal(states'[|events'|])
  {
    var s := states[|events|];
    LockKeepsClosed(s.world.w, s.world.locks, m);
    var s1 := s.(world := s.world.(locks := Lock(s.world.w, s.world.locks, m).0));
    var e: Event<M, C> := Reconfigure(LockModule(m));
    hide Lock, LockClosed, Fatal, AllRight, Right;
    assert Moves(outside, s, e, s1);
    hide Moves;
    Append(outside, s0, states, events, e, s1);
    states', events' := ReplayIsHistory(outside, s0, states + [s1], events + [e], trace);
    FatalCanBe(states'[|events'|], bad.0, bad.1);
  }

  lemma FatalCanBe<M, C>(s: State<M, C>, m: M, ps: InputMap)
    requires Acyclic(s.world.w) && Fatal(s.world.w, s.memo, m, ps)
    ensures !NeverFatal(s)
  {
    MemoizableIsSwitchable(s.world.w, m);
    hide Memoizable, Switchable, Ready, Merge, Eval, LookupFails;
    assert CanBeFatal(s.world.w, s.memo, m, ps);
  }

  lemma ReachedAre<M, C>(outside: iset<Any>, s0: State<M, C>, states: seq<State<M, C>>, events: seq<Event<M, C>>)
    requires From(outside, s0, states, events)
    ensures |states| == |events| + 1 && Protocol(outside, states, events)
    ensures forall j :: 0 <= j < |states| ==> Acyclic(states[j].world.w)
  {
  }

  lemma Prefix<M, C>(outside: iset<Any>, s0: State<M, C>, states: seq<State<M, C>>, events: seq<Event<M, C>>, j: nat)
    requires From(outside, s0, states, events) && j < |states|
    ensures From(outside, s0, states[..j + 1], events[..j])
  {
    hide Moves;
    var some, few := states[..j + 1], events[..j];
    assert forall k :: 0 <= k < |some| ==> some[k] == states[k];
    assert forall k :: 0 <= k < |few| ==> few[k] == events[k];
  }

  lemma {:induction false} ClosedAlong<M, C>(outside: iset<Any>, s0: State<M, C>, states: seq<State<M, C>>,
                                             events: seq<Event<M, C>>, k: nat)
    requires Starts(s0) && From(outside, s0, states, events) && k < |states|
    ensures LockClosed(states[k].world.w, states[k].world.locks)
    decreases k
  {
    if k > 0 {
      ClosedAlong(outside, s0, states, events, k - 1);
      var s, e, s' := states[k - 1], events[k - 1], states[k];
      assert Moves(outside, s, e, s');
      hide Run, LockClosed, Step;
      if e.Reconfigure? {
        StepKeepsLocks(s.world, e.op, s'.world);
      } else if e.RunEvent? {
        StepKeepsLocks(s.world, RunModule(e.m, e.ps.Keys), s'.world);
      }
    }
  }

  // ---------------------------------------------------------- the main results

  /** Memoization is right in every history from `s0` exactly when every state
      that can be reached from it is well keyed. */
  lemma MemoizationIsRightIff<M, C>(outside: iset<Any>, s0: State<M, C>)
    requires Starts(s0)
    ensures (forall states: seq<State<M, C>>, events :: From(outside, s0, states, events) ==> AllRight(states, events))
            <==> (forall states: seq<State<M, C>>, events :: From(outside, s0, states, events) ==>
                    WellKeyed(states[|events|]))
  {
    hide Moves, AllRight, WellKeyed, Starts, Right;
    forall states: seq<State<M, C>>, events | From(outside, s0, states, events) && !WellKeyed(states[|events|])
      ensures exists states': seq<State<M, C>>, events' ::
                From(outside, s0, states', events') && !AllRight(states', events')
    {
      var states', events' := IllKeyedGoesWrong(outside, s0, states, events);
    }
    if forall states: seq<State<M, C>>, events :: From(outside, s0, states, events) ==> WellKeyed(states[|events|]) {
      forall states: seq<State<M, C>>, events | From(outside, s0, states, events)
        ensures AllRight(states, events)
      {
        WellKeyedIsRight(outside, s0, states, events);
      }
    }
  }

  lemma WellKeyedIsRight<M, C>(outside: iset<Any>, s0: State<M, C>, states: seq<State<M, C>>, events: seq<Event<M, C>>)
    requires Starts(s0) && From(outside, s0, states, events)
    requires forall states': seq<State<M, C>>, events' :: From(outside, s0, states', events') ==>
               WellKeyed(states'[|events'|])
    ensures AllRight(states, events)
  {
    hide Moves, Starts, Right, KeysDecide, NeverFatal, FatalAfter, Lock, LockClosed;
    forall j | 0 <= j < |states|
      ensures KeysDecide(states[j].world.w)
    {
      Prefix(outside, s0, states, events, j);
      assert states[..j + 1][j] == states[j] && |events[..j]| == j;
    }
    forall j, m, trace, bad | 0 <= j < |states| && m in states[j].world.w.g
      ensures !FatalAfter(states[j].world.w, Lock(states[j].world.w, states[j].world.locks, m).0, states[j].memo,
                          trace, bad)
    {
      var s := states[j];
      if FatalAfter(s.world.w, Lock(s.world.w, s.world.locks, m).0, s.memo, trace, bad) {
        Prefix(outside, s0, states, events, j);
        assert states[..j + 1][j] == states[j] && |events[..j]| == j;
        ClosedAlong(outside, s0, states, events, j);
        var states', events' := FatalIsReached(outside, s0, states[..j + 1], events[..j], m, trace, bad);
        assert false;
      }
    }
    RightAlong(outside, s0, states, events, |events|);
  }

  /** The values of a call, as another user of the table may store them. */
  function ValuesOf(merged: Merged): set<Any> {
    set k | k in merged && merged[k].Some? :: merged[k].value.value
  }

  /** Once all its values have UUIDs, an incomplete key is looked up to the end. */
  lemma AllKnownFails(merged: Merged, known: set<Any>)
    requires !Complete(merged) && ValuesOf(merged) <= known
    ensures LookupFails(merged, known)
  {
    var gaps := set n | n in merged && merged[n].None?;
    assert exists n :: n in merged && n in gaps;
    var n := FirstName(gaps);
    forall k | k in merged && Before(k, n)
      ensures merged[k].Some? && merged[k].value.value in known
    {
    }
    assert KnownBefore(merged, known, n);
  }

  lemma ValuelessGoesWrong<M, C>(outside: iset<Any>, s0: State<M, C>, states: seq<State<M, C>>,
                                 events: seq<Event<M, C>>)
    returns (states': seq<State<M, C>>, events': seq<Event<M, C>>)
    requires From(outside, s0, states, events) && !NeverValueless(states[|events|].world.w)
    requires forall v: Any :: v in outside
    ensures From(outside, s0, states', events') && !WellKeyed(states'[|events'|])
  {
    var s := states[|events|];
    var w := s.world.w;
    var m, ps :| m in w.g && CanConsult(w, m, ps) && !Complete(Merge(w, m, ps));
    var values := ValuesOf(Merge(w, m, ps));
    var s' := s.(memo := WithUuids(s.memo, w.g[m].cache.value, values));
    var e: Event<M, C> := GiveUuids(m, values);
    assert Moves(outside, s, e, s');
    AllKnownFails(Merge(w, m, ps), KnownTo(s'.memo, w.g[m].cache.value));
    assert CanBeFatal(w, s'.memo, m, ps);
    hide Moves, AllRight, Right, CanBeFatal, WithUuids;
    Append(outside, s0, states, events, e, s');
    states', events' := states + [s'], events + [e];
  }

  /** If anything may be stored elsewhere, the second part of the condition is that
      no call that can consult a cache has an input without a value. */
  lemma RightWithAnythingOutsideIff<M, C>(outside: iset<Any>, s0: State<M, C>)
    requires Starts(s0) && forall v: Any :: v in outside
    ensures (forall states: seq<State<M, C>>, events ::
               From(outside, s0, states, events) ==> AllRight(states, events))
            <==> (forall states: seq<State<M, C>>, events :: From(outside, s0, states, events) ==>
                    KeysDecide(states[|events|].world.w) && NeverValueless(states[|events|].world.w))
  {
    hide Moves, AllRight, KeysDecide, Starts, LookupFails;
    MemoizationIsRightIff(outside, s0);
    forall states: seq<State<M, C>>, events | From(outside, s0, states, events)
      ensures KeysDecide(states[|events|].world.w) && NeverValueless(states[|events|].world.w) ==>
                WellKeyed(states[|events|])
      ensures NeverValueless(states[|events|].world.w)
              || exists states': seq<State<M, C>>, events' ::
                   From(outside, s0, states', events') && !WellKeyed(states'[|events'|])
    {
      ReachedAre(outside, s0, states, events);
      if !NeverValueless(states[|events|].world.w) {
        var states', events' := ValuelessGoesWrong(outside, s0, states, events);
      }
    }
  }

  // -------------------------------------------------- a guard that is enough

  /** No two modules share a cache. */
  ghost predicate PrivateCaches<M, C>(w: Wiring<M, C>) {
    forall m1, m2 :: m1 in w.g && m2 in w.g && w.g[m1].cache.Some? && w.g[m1].cache == w.g[m2].cache ==> m1 == m2
  }

  ghost predicate ValuesOnly<M, C>(w: Wiring<M, C>) {
    forall m :: m in w.g ==> ReadsValuesOnly(w.g[m].base.algorithm)
  }

  ghost predicate NoUnsetOptional<M, C>(c: Config<M, C>) {
    c.cache.Some? ==> forall n :: n in c.inputs && c.inputs[n].optional ==> c.inputs[n].field.Some?
  }

  ghost predicate AllOptionalSet<M, C>(w: Wiring<M, C>) {
    forall m :: m in w.g ==> NoUnsetOptional(w.g[m])
  }

  ghost predicate Guarded<M, C>(w: Wiring<M, C>) {
    PrivateCaches(w) && ValuesOnly(w) && AllOptionalSet(w)
  }

  /** Equal keys give one module the same steps. */
  lemma {:induction false} SameSteps<M, C>(w: Wiring<M, C>, m: M, p1: Merged, p2: Merged, calls: seq<Outcome>)
    requires Acyclic(w) && m in w.g && ReadsValuesOnly(w.g[m].base.algorithm)
    requires Complete(p1) && Complete(p2) && KeyOf(p1) == KeyOf(p2)
    ensures EvalAlgorithm(w, m, p1, calls) == EvalAlgorithm(w, m, p2, calls)
    decreases w.g[m].base.algorithm.fuel(p1, calls)
  {
    var a := w.g[m].base.algorithm;
    assert a.next(p1, calls) == a.next(p2, calls);
    match a.next(p1, calls)
    case Return(_) =>
    case Throw =>
    case Call(k, q) =>
      var i := IndexOf(w.g[m].submods, k);
      var o := if HasRequest(w, m, i) && Req(w, m, i).target.Some?
               then Eval(w, Req(w, m, i).target.value, q) else Threw;
      SameSteps(w, m, p1, p2, calls + [o]);
  }

  lemma GuardedDecides<M, C>(w: Wiring<M, C>)
    requires Acyclic(w) && Guarded(w)
    ensures KeysDecide(w) && NeverValueless(w)
  {
    forall m1, ps1, m2, ps2 | m1 in w.g && m2 in w.g && CanConsult(w, m1, ps1) && CanConsult(w, m2, ps2)
                              && SameSlot(w, m1, ps1, m2, ps2) && Eval(w, m1, ps1).Returned?
      ensures Eval(w, m2, ps2) == Eval(w, m1, ps1)
    {
      assert m1 == m2;
      SameSteps(w, m1, Merge(w, m1, ps1), Merge(w, m1, ps2), []);
    }
    forall m, ps | m in w.g && CanConsult(w, m, ps)
      ensures Complete(Merge(w, m, ps))
    {
      assert NoUnsetOptional(w.g[m]) && InputsReady(w.g[m], ps.Keys);
    }
  }

  lemma NeverValuelessNeverFatal<M, C>(w: Wiring<M, C>, part: set<M>, memo: Memo<C>, trace: seq<(M, InputMap)>,
                                       bad: (M, InputMap))
    requires Acyclic(w) && NeverValueless(w)
    ensures !FatalAfter(w, part, memo, trace, bad)
  {
    hide Replay, LookupFails, Merge, Eval, Ready;
    if FatalAfter(w, part, memo, trace, bad) {
      MemoizableIsSwitchable(w, bad.0);
      assert false;
    }
  }

  /** `e` gives no module the cache of another one: it does not copy a module that
      has a cache, and a new module has a new one. */
  ghost predicate SharesNothing<M, C>(w: Wiring<M, C>, e: Event<M, C>) {
    e.Reconfigure? ==>
      match e.op
      case Copy(m, _) => m in w.g ==> w.g[m].cache.None?
      case UnlockedCopy(m, _) => m in w.g ==> w.g[m].cache.None?
      case AddModule(_, c) =>
        && (c.cache.Some? ==> forall m :: m in w.g ==> w.g[m].cache != c.cache)
        && ReadsValuesOnly(c.base.algorithm) && NoUnsetOptional(c)
      case _ => true
  }

  lemma MoveKeepsGuard<M, C>(outside: iset<Any>, s: State<M, C>, e: Event<M, C>, s': State<M, C>)
    requires Acyclic(s.world.w) && Moves(outside, s, e, s') && Guarded(s.world.w) && SharesNothing(s.world.w, e)
    ensures Guarded(s'.world.w)
  {
    if e.Reconfigure? {
      StepKeepsGuard(s.world, e.op, s'.world);
    }
  }

  lemma StepKeepsGuard<M, C>(s: World<M, C>, op: Op<M, C>, s': World<M, C>)
    requires Acyclic(s.w) && Step(s, op, s') && Guarded(s.w) && SharesNothing(s.w, Reconfigure(op))
    ensures Guarded(s'.w)
  {
    hide ReadsValuesOnly, Lock, Ready, Acyclic;
    forall x | x in s'.w.g
      ensures ReadsValuesOnly(s'.w.g[x].base.algorithm) && NoUnsetOptional(s'.w.g[x])
      ensures s'.w.g[x].cache.Some? ==>
                if x in s.w.g then s'.w.g[x].cache == s.w.g[x].cache
                else op.AddModule? && x == op.m && s'.w.g[x] == op.config
    {
      if !op.AddModule? {
        var before := if x in s.w.g then x else op.m;
        assert ReadsValuesOnly(s.w.g[before].base.algorithm) && NoUnsetOptional(s.w.g[before]);
      }
    }
  }

  /** If no two modules, erased ones included, share a cache to begin with and none
      is copied or added so that they do, if the algorithms read values only and no
      module with a cache has an optional input that is unset, then every run of
      every history is right, whatever the keys are. */
  lemma PrivateCachesAreRight<M, C>(outside: iset<Any>, s0: State<M, C>, states: seq<State<M, C>>,
                                    events: seq<Event<M, C>>)
    requires Starts(s0) && From(outside, s0, states, events) && Guarded(s0.world.w)
    requires forall k :: 0 <= k < |events| ==> SharesNothing(states[k].world.w, events[k])
    ensures AllRight(states, events)
  {
    hide Guarded, SharesNothing, KeysDecide, NeverValueless, Moves, Right, FatalAfter, Starts;
    forall j | 0 <= j < |states|
      ensures KeysDecide(states[j].world.w) && NeverValueless(states[j].world.w)
    {
      GuardedAlong(outside, s0, states, events, j);
      GuardedDecides(states[j].world.w);
    }
    forall j, m, trace, bad | 0 <= j < |states| && m in states[j].world.w.g
      ensures !FatalAfter(states[j].world.w, Lock(states[j].world.w, states[j].world.locks, m).0, states[j].memo,
                          trace, bad)
    {
      NeverValuelessNeverFatal(states[j].world.w, Lock(states[j].world.w, states[j].world.locks, m).0, states[j].memo,
                               trace, bad);
    }
    RightAlong(outside, s0, states, events, |events|);
  }

  lemma {:induction false} GuardedAlong<M, C>(outside: iset<Any>, s0: State<M, C>, states: seq<State<M, C>>,
                                              events: seq<Event<M, C>>, j: nat)
    requires From(outside, s0, states, events) && Guarded(s0.world.w) && j < |states|
    requires forall k :: 0 <= k < |events| ==> SharesNothing(states[k].world.w, events[k])
    ensures Guarded(states[j].world.w)
    decreases j
  {
    hide Guarded, SharesNothing, Moves;
    if j > 0 {
      GuardedAlong(outside, s0, states, events, j - 1);
      MoveKeepsGuard(outside, states[j - 1], events[j - 1], states[j]);
    }
  }

  // ------------------------------------------------- copies that go stale

  /** A forwarder on a reader, and another reader: nothing is shared yet. */
  ghost function OneForwarder(pt: PropertyType, x: Field, y: Field): Wiring<nat, nat> {
    Wiring(map[0 := ReaderModule(pt, x), 1 := ReaderModule(pt, y), 2 := ForwarderModule(pt, 0)],
           map[0 := 0, 1 := 0, 2 := 1])
  }

  ghost function Copied(pt: PropertyType, x: Field, y: Field): Wiring<nat, nat> {
    Wiring(OneForwarder(pt, x, y).g[3 := ForwarderModule(pt, 0)], map[0 := 0, 1 := 0, 2 := 1, 3 := 1])
  }

  lemma CopiedAcyclic(pt: PropertyType, x: Field, y: Field)
    ensures Acyclic(OneForwarder(pt, x, y)) && Acyclic(Copied(pt, x, y))
  {
    var w, w' := OneForwarder(pt, x, y), Copied(pt, x, y);
    assert forall m, i :: m in w.g && HasRequest(w, m, i) ==> m >= 2 && i == 0;
    assert forall m, i :: m in w'.g && HasRequest(w', m, i) ==> m >= 2 && i == 0;
  }

  lemma ExamplesReadValuesOnly()
    ensures ReadsValuesOnly(Reader()) && ReadsValuesOnly(Forwarder())
  {
    var a := Reader();
    forall p: Merged, q: Merged, calls | Complete(p) && Complete(q) && KeyOf(p) == KeyOf(q)
      ensures a.next(p, calls) == a.next(q, calls)
    {
      assert "x" in p <==> "x" in KeyOf(p);
      assert "x" in q <==> "x" in KeyOf(q);
      if "x" in p {
        assert KeyOf(p)["x"] == p["x"].value.value && KeyOf(q)["x"] == q["x"].value.value;
      }
    }
  }

  lemma OneForwarderGuarded(pt: PropertyType, x: Field, y: Field)
    ensures Guarded(OneForwarder(pt, x, y))
  {
    ExamplesReadValuesOnly();
    hide ReadsValuesOnly, Reader, Forwarder;
  }

  /** The forwarder is copied and the copy is given the other reader. */
  lemma CopyAndRewire(pt: PropertyType, x: Field, y: Field)
    ensures Acyclic(OneForwarder(pt, x, y)) && Acyclic(Copied(pt, x, y)) && Acyclic(TwoCopies(pt, x, y))
    ensures Step(World(OneForwarder(pt, x, y), {}), Op.UnlockedCopy(2, 3), World(Copied(pt, x, y), {}))
    ensures Step(World(Copied(pt, x, y), {}), ChangeSubmod(3, "s", 1), World(TwoCopies(pt, x, y), {}))
  {
    CopiedAcyclic(pt, x, y);
    TwoCopiesAcyclic(pt, x, y);
    hide Acyclic, Reader, Forwarder;
    var w := Copied(pt, x, y);
    var c := w.g[3];
    assert IndexOf(c.submods, "s") == 0;
    assert CanChangeSubmod(c, "s", w.g[1].propertyTypes);
    assert c.submods[0 := ("s", Request(Some(pt), {}, Some(1)))] == ForwarderModule(pt, 1).submods;
    assert WithTarget(c, 0, 1) == ForwarderModule(pt, 1);
    assert w.g[3 := WithTarget(c, 0, 1)] == TwoCopies(pt, x, y).g;
  }

  /** Sharing is what the guard is about: from a guarded wiring, copying the
      forwarder, giving the copy another submodule and running both returns the
      first one's result for the second. */
  lemma CopiesGoStale(pt: PropertyType, x: Field, y: Field, memo: Memo<nat>)
    returns (states: seq<State<nat, nat>>, events: seq<Event<nat, nat>>)
    requires x.value != y.value && memo.caches == map[]
    ensures Acyclic(OneForwarder(pt, x, y)) && Guarded(OneForwarder(pt, x, y))
    ensures events == [Reconfigure(UnlockedCopy(2, 3)), Reconfigure(ChangeSubmod(3, "s", 1)),
                       RunEvent(2, map[]), RunEvent(3, map[])]
    ensures From(iset{}, State(World(OneForwarder(pt, x, y), {}), memo), states, events) && !AllRight(states, events)
  {
    OneForwarderGuarded(pt, x, y);
    CopyAndRewire(pt, x, y);
    SubmoduleInputsAreNotInTheKey(pt, x, y, memo);
    assert map["r" := ValueOf(x)]["r"] != map["r" := ValueOf(y)]["r"];
    hide OneForwarder, Acyclic, Guarded, Run, Eval, From, AllRight;
    assert {2, 3} <= TwoCopies(pt, x, y).g.Keys;
    hide TwoCopies, ValueOf;
    states, events := CopiedHistory(pt, x, y, memo);
    states, events := RunBoth(State(World(OneForwarder(pt, x, y), {}), memo), states, events, 2, 3);
  }

  lemma CopiedHistory(pt: PropertyType, x: Field, y: Field, memo: Memo<nat>)
    returns (states: seq<State<nat, nat>>, events: seq<Event<nat, nat>>)
    ensures Acyclic(OneForwarder(pt, x, y))
    ensures From(iset{}, State(World(OneForwarder(pt, x, y), {}), memo), states, events)
    ensures events == [Reconfigure(UnlockedCopy(2, 3)), Reconfigure(ChangeSubmod(3, "s", 1))]
    ensures states[|events|] == State(World(TwoCopies(pt, x, y), {}), memo)
  {
    CopyAndRewire(pt, x, y);
    hide OneForwarder, Copied, TwoCopies, Acyclic, Step, AllRight, Right;
    var s0, s1 := State(World(OneForwarder(pt, x, y), {}), memo), State(World(Copied(pt, x, y), {}), memo);
    var s2 := State(World(TwoCopies(pt, x, y), {}), memo);
    var e1, e2 := Reconfigure(UnlockedCopy(2, 3)), Reconfigure(ChangeSubmod(3, "s", 1));
    assert From(iset{}, s0, [s0], []);
    Append(iset{}, s0, [s0], [], e1, s1);
    Append(iset{}, s0, [s0] + [s1], [] + [e1], e2, s2);
    states, events := [s0] + [s1] + [s2], [] + [e1] + [e2];
  }

  lemma RunBoth(start: State<nat, nat>, states: seq<State<nat, nat>>, events: seq<Event<nat, nat>>, m1: nat, m2: nat)
    returns (states': seq<State<nat, nat>>, events': seq<Event<nat, nat>>)
    requires From(iset{}, start, states, events)
    requires var s := states[|events|];
             && m1 in s.world.w.g && m2 in s.world.w.g
             && Run(s.world.w, m2, map[], Run(s.world.w, m1, map[], s.memo).1).0 != Eval(s.world.w, m2, map[])
    ensures From(iset{}, start, states', events') && !AllRight(states', events')
    ensures events' == events + [RunEvent(m1, map[]), RunEvent(m2, map[])]
  {
    var s := states[|events|];
    var s1 := AfterRun(s, m1, map[]);
    var s2 := AfterRun(s1, m2, map[]);
    RunIsMove(iset{}, s, m1, map[]);
    RunIsMove(iset{}, s1, m2, map[]);
    hide Moves, AfterRun, From, AllRight;
    Append(iset{}, start, states, events, RunEvent(m1, map[]), s1);
    Append(iset{}, start, states + [s1], events + [RunEvent(m1, map[])], RunEvent(m2, map[]), s2);
    states', events' := states + [s1] + [s2], events + [RunEvent(m1, map[])] + [RunEvent(m2, map[])];
  }

  // ------------------------------------------------- a module that is replaced

  /** A module without inputs or submodules that always returns `x`. */
  ghost function ConstantModule(uuid: Uuid, x: Field): Config<nat, nat> {
    Config(true, Base(uuid, Algorithm((ps: Merged, calls: seq<Outcome>) => Return(map["r" := x]),
                                      (ps: Merged, calls: seq<Outcome>) => 0)), Some(0), map[], [], {})
  }

  ghost function OneConstant(u: Uuid, x: Field): Wiring<nat, nat> {
    Wiring(map[0 := ConstantModule(u, x)], map[0 := 0])
  }

  ghost function TwoConstants(u: Uuid, x: Field, v: Uuid, y: Field): Wiring<nat, nat> {
    Wiring(map[0 := ConstantModule(u, x), 1 := ConstantModule(v, y)], map[0 := 0, 1 := 0])
  }

  ghost function NoInputs(): Merged {
    map[SUBMOD_KEY := Some(Field(SubmodUuids(map[]), DefaultMetadata))]
  }

  lemma ConstantComputes(w: Wiring<nat, nat>, m: nat, u: Uuid, x: Field)
    requires Acyclic(w) && m in w.g && w.g[m] == ConstantModule(u, x) && u != ""
    ensures Ready(w, m, {}) && Memoizes(w, m) && Merge(w, m, map[]) == NoInputs()
    ensures Eval(w, m, map[]) == Returned(map["r" := x])
    ensures forall memo :: RunAlgorithm(w, m, NoInputs(), [], memo) == (Returned(map["r" := x]), memo)
  {
    assert forall i :: !HasRequest(w, m, i);
    var none: InputMap := map[];
    assert none.Keys == {};
    assert SubmodUuidsOf(w, m) == map[];
    assert Merge(w, m, none) == NoInputs();
  }

  /** The second of two modules with one cache and one key finds what the first
      one stored. */
  lemma SecondFindsFirst(w1: Wiring<nat, nat>, m1: nat, w2: Wiring<nat, nat>, m2: nat, r: ResultMap, memo: Memo<nat>)
    requires Acyclic(w1) && Acyclic(w2) && m1 in w1.g && m2 in w2.g && memo.caches == map[]
    requires Ready(w1, m1, {}) && Ready(w2, m2, {}) && Memoizes(w1, m1) && Memoizes(w2, m2)
    requires w1.g[m1].cache == w2.g[m2].cache && Merge(w1, m1, map[]) == Merge(w2, m2, map[]) == NoInputs()
    requires RunAlgorithm(w1, m1, NoInputs(), [], memo) == (Returned(r), memo)
    ensures Run(w2, m2, map[], Run(w1, m1, map[], memo).1).0 == Returned(r)
  {
    hide Ready, Memoizable, Merge, RunAlgorithm, Acyclic;
    var c := w1.g[m1].cache.value;
    var none: InputMap := map[];
    assert none.Keys == {};
    CompleteLookup(NoInputs(), KnownTo(memo, c));
    StoredIsHeld(memo, c, NoInputs(), r);
    CompleteLookup(NoInputs(), KnownTo(Stored(memo, c, KeyOf(NoInputs()), r), c));
    hide Stored, LookupFails, KeyOf, Complete;
  }

  lemma ConstantsGuarded(u: Uuid, x: Field, v: Uuid, y: Field)
    ensures Acyclic(OneConstant(u, x)) && Guarded(OneConstant(u, x)) && Acyclic(TwoConstants(u, x, v, y))
  {
    assert forall m, i :: !HasRequest(OneConstant(u, x), m, i);
    assert forall m, i :: !HasRequest(TwoConstants(u, x, v, y), m, i);
  }

  /** A module is run, its manager erases it and adds another implementation under
      the same key, which gets the same cache: it returns the old module's result. */
  lemma ReplacedModuleGoesStale(u: Uuid, v: Uuid, x: Field, y: Field, memo: Memo<nat>)
    returns (states: seq<State<nat, nat>>, events: seq<Event<nat, nat>>)
    requires u != "" && v != "" && u != v && x.value != y.value && memo.caches == map[]
    ensures Acyclic(OneConstant(u, x)) && Guarded(OneConstant(u, x))
    ensures events == [RunEvent(0, map[]), Reconfigure(AddModule(1, ConstantModule(v, y))), RunEvent(1, map[])]
    ensures From(iset{}, State(World(OneConstant(u, x), {}), memo), states, events) && !AllRight(states, events)
  {
    var w1, w2 := OneConstant(u, x), TwoConstants(u, x, v, y);
    ConstantsGuarded(u, x, v, y);
    ConstantComputes(w1, 0, u, x);
    ConstantComputes(w2, 1, v, y);
    SecondFindsFirst(w1, 0, w2, 1, map["r" := x], memo);
    assert map["r" := x]["r"] != map["r" := y]["r"];
    assert w2.g == w1.g[1 := ConstantModule(v, y)];
    assert 0 in w1.g && 1 !in w1.g && 1 in w2.g && Unset(ConstantModule(v, y));
    hide Run, Eval, Ready, Lock, Guarded, Acyclic, AllRight, OneConstant, TwoConstants, ConstantModule, From, Unset;
    states, events := RunAddRun(State(World(w1, {}), memo), AddModule(1, ConstantModule(v, y)), w2, 0, 1);
  }

  lemma RunAddRun(s0: State<nat, nat>, op: Op<nat, nat>, w2: Wiring<nat, nat>, m1: nat, m2: nat)
    returns (states: seq<State<nat, nat>>, events: seq<Event<nat, nat>>)
    requires Acyclic(s0.world.w) && Acyclic(w2) && m1 in s0.world.w.g && m2 in w2.g
    requires op.AddModule? && op.m !in s0.world.w.g && Unset(op.config) && w2.g == s0.world.w.g[op.m := op.config]
    requires Run(w2, m2, map[], Run(s0.world.w, m1, map[], s0.memo).1).0 != Eval(w2, m2, map[])
    ensures events == [RunEvent(m1, map[]), Reconfigure(op), RunEvent(m2, map[])]
    ensures From(iset{}, s0, states, events) && !AllRight(states, events)
  {
    hide Run, Eval, Ready, Lock, Unset, Acyclic;
    RunIsMove(iset{}, s0, m1, map[]);
    var s1 := AfterRun(s0, m1, map[]);
    var s2 := s1.(world := s1.world.(w := w2));
    var s3 := AfterRun(s2, m2, map[]);
    var e1: Event<nat, nat>, e2: Event<nat, nat>, e3: Event<nat, nat> :=
      RunEvent(m1, map[]), Reconfigure(op), RunEvent(m2, map[]);
    RunIsMove(iset{}, s2, m2, map[]);
    assert Moves(iset{}, s1, e2, s2);
    assert !Right(s2, e3);
    hide Moves, AfterRun, AllRight, Right;
    assert From(iset{}, s0, [s0], []);
    Append(iset{}, s0, [s0], [], e1, s1);
    Append(iset{}, s0, [s0] + [s1], [] + [e1], e2, s2);
    Append(iset{}, s0, [s0] + [s1] + [s2], [] + [e1] + [e2], e3, s3);
    states, events := [s0] + [s1] + [s2] + [s3], [] + [e1] + [e2] + [e3];
  }
}
