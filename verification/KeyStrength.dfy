/**
 When the memoization key decides the result: what is safe to reconfigure
 between memoized runs, and what is not.
 */
module KeyStrength {
  import opened Fields
  import opened ModuleGraph
  import opened Memoization

  // ------------------------------------------------------- inputs with values

  /** A runnable module never meets a valueless input exactly when it has no
      optional input that is left unset. */
  lemma CompleteIffNoUnsetOptional<M, C>(w: Wiring<M, C>, m: M)
    requires Acyclic(w) && m in w.g && AllReadyFrom(w, m, 0)
    ensures (forall ps: InputMap :: Ready(w, m, ps.Keys) ==> Complete(Merge(w, m, ps)))
            <==> (forall n :: n in w.g[m].inputs && w.g[m].inputs[n].optional ==> w.g[m].inputs[n].field.Some?)
  {
    var inputs := w.g[m].inputs;
    if n :| n in inputs && inputs[n].optional && inputs[n].field.None? {
      var some := Field(SubmodUuids(map[]), DefaultMetadata);
      var ps: InputMap := map x | x in inputs && x != n :: some;
      assert Ready(w, m, ps.Keys) by {
        assert forall i :: HasRequest(w, m, i) ==> RequestReady(w, m, i);
      }
      assert n in Merge(w, m, ps) && Merge(w, m, ps)[n].None?;
    }
  }

  /** A module with a required input and an unset optional one that always throws. */
  ghost function Thrower(u: Uuid): Wiring<nat, nat> {
    var a := Algorithm((ps: Merged, calls: seq<Outcome>) => Throw, (ps: Merged, calls: seq<Outcome>) => 0);
    Wiring(map[0 := Config(true, Base(u, a), Some(0),
                           map["a" := Input(None, false, false), "z" := Input(None, true, false)], [], {})],
           map[0 := 0])
  }

  /** Its exception comes through as long as one of the values before the gap has
      no UUID; once they all have one, the lookup ends the program. */
  lemma ThrowerThrowsIff(u: Uuid, v: Field, memo: Memo<nat>)
    requires u != ""
    ensures var w, ps := Thrower(u), map["a" := v];
            && Acyclic(w) && Eval(w, 0, ps) == Threw
            && Run(w, 0, ps, memo).0 == if {SubmodUuids(map[]), v.value} <= KnownTo(memo, 0) then Aborted else Threw
  {
    var w, ps := Thrower(u), map["a" := v];
    assert forall i :: !HasRequest(w, 0, i);
    assert SubmodUuidsOf(w, 0) == map[];
    SubmodKeyIsEarly();
    var merged := Merge(w, 0, ps);
    var uuids := Field(SubmodUuids(map[]), DefaultMetadata);
    assert ps.Keys == {"a"};
    assert merged == map[SUBMOD_KEY := Some(uuids), "a" := Some(v), "z" := None];
    hide Merge;
    GapIsLast(merged, uuids, v, KnownTo(memo, 0));
    assert merged["z"].None?;
    hide LookupFails, WithUuids;
  }

  /** Names that begin with a letter come after the key of the UUIDs. */
  lemma SubmodKeyIsEarly()
    ensures |SUBMOD_KEY| > 1 && SUBMOD_KEY[0] == '_'
  {
    var text := "__PLUGIN_PLAY__ SUBMOD KEYS __PLUGIN_PLAY__";
    assert text[0] == '_' && |text| > 1;
    assert Fold(text)[0] == FoldChar(text[0]);
  }

  lemma GapIsLast(merged: Merged, uuids: Field, v: Field, known: set<Any>)
    requires merged == map[SUBMOD_KEY := Some(uuids), "a" := Some(v), "z" := None]
    ensures LookupFails(merged, known) <==> {uuids.value, v.value} <= known
  {
    SubmodKeyIsEarly();
    assert Before(SUBMOD_KEY, "z") && Before("a", "z") && !Before("z", "z");
    assert LookupFails(merged, known) <==> KnownBefore(merged, known, "z");
    assert merged[SUBMOD_KEY] == Some(uuids) && merged["a"] == Some(v);
  }

  // --------------------------------------------------------- modules set alike

  /** Two modules run the same code with the same bound inputs on submodules
      that are set up alike. */
  ghost predicate SetAlike<M, C>(w1: Wiring<M, C>, m1: M, w2: Wiring<M, C>, m2: M)
    requires Acyclic(w1) && Acyclic(w2) && m1 in w1.g && m2 in w2.g
    decreases w1.rank[m1]
  {
    var c1, c2 := w1.g[m1], w2.g[m2];
    && c1.base == c2.base && c1.inputs == c2.inputs && |c1.submods| == |c2.submods|
    && forall i :: HasRequest(w1, m1, i) ==>
         && HasRequest(w2, m2, i) && c1.submods[i].0 == c2.submods[i].0
         && AlikeRequests(Req(w1, m1, i), Req(w2, m2, i))
         && (Req(w1, m1, i).target.Some? ==>
               SetAlike(w1, Req(w1, m1, i).target.value, w2, Req(w2, m2, i).target.value))
  }

  ghost predicate AlikeRequests<M>(q1: Request<M>, q2: Request<M>) {
    q1.propertyType == q2.propertyType && q1.provided == q2.provided && (q1.target.Some? <==> q2.target.Some?)
  }

  lemma {:induction false} AlikeReady<M, C>(w1: Wiring<M, C>, m1: M, w2: Wiring<M, C>, m2: M, supplied: set<Name>)
    requires Acyclic(w1) && Acyclic(w2) && m1 in w1.g && m2 in w2.g && SetAlike(w1, m1, w2, m2)
    ensures Ready(w1, m1, supplied) <==> Ready(w2, m2, supplied)
    decreases w1.rank[m1]
  {
    forall i | HasRequest(w1, m1, i) && Req(w1, m1, i).Fulfilled()
      ensures Ready(w1, Req(w1, m1, i).target.value, Req(w1, m1, i).provided)
                == Ready(w2, Req(w2, m2, i).target.value, Req(w2, m2, i).provided)
    {
      AlikeReady(w1, Req(w1, m1, i).target.value, w2, Req(w2, m2, i).target.value, Req(w1, m1, i).provided);
    }
    assert forall i :: HasRequest(w1, m1, i) <==> HasRequest(w2, m2, i);
  }

  lemma {:induction false} AlikeUuids<M, C>(w1: Wiring<M, C>, m1: M, w2: Wiring<M, C>, m2: M)
    requires Acyclic(w1) && Acyclic(w2) && m1 in w1.g && m2 in w2.g && SetAlike(w1, m1, w2, m2)
    ensures SubmodUuidsOf(w1, m1) == SubmodUuidsOf(w2, m2)
    decreases w1.rank[m1], 1, 0
  {
    AlikeUuidsFrom(w1, m1, w2, m2, 0, map[]);
  }

  lemma {:induction false} AlikeUuidsFrom<M, C>(w1: Wiring<M, C>, m1: M, w2: Wiring<M, C>, m2: M,
                                                i: nat, rv: map<string, Uuid>)
    requires Acyclic(w1) && Acyclic(w2) && m1 in w1.g && m2 in w2.g && SetAlike(w1, m1, w2, m2)
    requires i <= |w1.g[m1].submods|
    ensures SubmodUuidsFrom(w1, m1, i, rv) == SubmodUuidsFrom(w2, m2, i, rv)
    decreases w1.rank[m1], 0, |w1.g[m1].submods| - i
  {
    if i < |w1.g[m1].submods| {
      assert HasRequest(w1, m1, i) && HasRequest(w2, m2, i);
      if Req(w1, m1, i).target.Some? {
        AlikeUuids(w1, Req(w1, m1, i).target.value, w2, Req(w2, m2, i).target.value);
      }
      AlikeUuidsFrom(w1, m1, w2, m2, i + 1, WithSubmod(w1, m1, i, rv));
    }
  }

  /** Modules that are set up alike compute the same. */
  lemma {:induction false} AlikeCompute<M, C>(w1: Wiring<M, C>, m1: M, w2: Wiring<M, C>, m2: M, ps: InputMap)
    requires Acyclic(w1) && Acyclic(w2) && m1 in w1.g && m2 in w2.g && SetAlike(w1, m1, w2, m2)
    ensures Eval(w1, m1, ps) == Eval(w2, m2, ps)
    decreases w1.rank[m1], 1, 0
  {
    AlikeReady(w1, m1, w2, m2, ps.Keys);
    AlikeUuids(w1, m1, w2, m2);
    assert Merge(w1, m1, ps) == Merge(w2, m2, ps);
    AlikeSteps(w1, m1, w2, m2, Merge(w1, m1, ps), []);
  }

  lemma {:induction false} AlikeSteps<M, C>(w1: Wiring<M, C>, m1: M, w2: Wiring<M, C>, m2: M,
                                            merged: Merged, calls: seq<Outcome>)
    requires Acyclic(w1) && Acyclic(w2) && m1 in w1.g && m2 in w2.g && SetAlike(w1, m1, w2, m2)
    ensures EvalAlgorithm(w1, m1, merged, calls) == EvalAlgorithm(w2, m2, merged, calls)
    decreases w1.rank[m1], 0, w1.g[m1].base.algorithm.fuel(merged, calls)
  {
    match w1.g[m1].base.algorithm.next(merged, calls)
    case Return(_) =>
    case Throw =>
    case Call(k, q) =>
      SameIndex(w1.g[m1].submods, w2.g[m2].submods, k);
      var i := IndexOf(w1.g[m1].submods, k);
      var o := Threw;
      if HasRequest(w1, m1, i) && Req(w1, m1, i).target.Some? {
        var t1, t2 := Req(w1, m1, i).target.value, Req(w2, m2, i).target.value;
        AlikeCompute(w1, t1, w2, t2, q);
        o := Eval(w1, t1, q);
      }
      AlikeSteps(w1, m1, w2, m2, merged, calls + [o]);
  }

  lemma {:induction false} SameIndex<M>(a: Submods<M>, b: Submods<M>, key: Name)
    requires |a| == |b| && forall i :: 0 <= i < |a| ==> a[i].0 == b[i].0
    ensures IndexOf(a, key) == IndexOf(b, key)
  {
    var i, j := IndexOf(a, key), IndexOf(b, key);
    assert i < |a| ==> a[i].0 == key && b[i].0 == key;
    assert j < |b| ==> b[j].0 == key && a[j].0 == key;
  }

  // ------------------------------------------------ what the UUIDs pin down

  /** Submodule keys are distinct and cannot be taken for scoped ones. */
  ghost predicate PlainKeys<M, C>(c: Config<M, C>) {
    && (forall i :: 0 <= i < |c.submods| ==> ':' !in c.submods[i].0)
    && (forall i, j :: 0 <= i < j < |c.submods| ==> c.submods[i].0 != c.submods[j].0)
  }

  /** Then the map of UUIDs records, under each key, the UUID of its module. */
  lemma {:induction false} UuidIsRecorded<M, C>(w: Wiring<M, C>, m: M, i: nat, rv: map<string, Uuid>, p: nat)
    requires Acyclic(w) && m in w.g && PlainKeys(w.g[m]) && i <= |w.g[m].submods|
    requires HasRequest(w, m, p) && Req(w, m, p).target.Some?
    requires var k := w.g[m].submods[p].0;
             if p < i then k in rv && rv[k] == w.g[Req(w, m, p).target.value].base.uuid else k !in rv
    ensures var k, all := w.g[m].submods[p].0, SubmodUuidsFrom(w, m, i, rv);
            k in all && all[k] == w.g[Req(w, m, p).target.value].base.uuid
    decreases |w.g[m].submods| - i
  {
    if i < |w.g[m].submods| {
      assert HasRequest(w, m, i);
      RecordOne(w, m, i, rv, p);
      hide WithSubmod;
      UuidIsRecorded(w, m, i + 1, WithSubmod(w, m, i, rv), p);
    }
  }

  lemma RecordOne<M, C>(w: Wiring<M, C>, m: M, i: nat, rv: map<string, Uuid>, p: nat)
    requires Acyclic(w) && m in w.g && PlainKeys(w.g[m]) && HasRequest(w, m, i)
    requires HasRequest(w, m, p) && Req(w, m, p).target.Some?
    ensures var k, next := w.g[m].submods[p].0, WithSubmod(w, m, i, rv);
            if k in rv then k in next && next[k] == rv[k]
            else if i == p then k in next && next[k] == w.g[Req(w, m, p).target.value].base.uuid
            else k !in next
  {
    if Req(w, m, i).target.Some? {
      var k, t := w.g[m].submods[i].0, Req(w, m, i).target.value;
      ScopedHasColon(k, SubmodUuidsOf(w, t), w.g[m].submods[p].0);
      EmplacedAt(rv, Prefixed(k, SubmodUuidsOf(w, t)), k, w.g[t].base.uuid, w.g[m].submods[p].0);
    }
  }

  lemma EmplacedAt(rv: map<string, Uuid>, scoped: map<string, Uuid>, k: string, u: Uuid, x: string)
    requires x !in scoped
    ensures var next := Emplaced(Emplaced(rv, scoped), map[k := u]);
            if x in rv then x in next && next[x] == rv[x]
            else if x == k then x in next && next[x] == u
            else x !in next
  {
  }

  lemma ScopedHasColon(k: string, sub: map<string, Uuid>, plain: string)
    requires ':' !in plain
    ensures plain !in Prefixed(k, sub)
  {
    forall a | a in sub
      ensures k + ":" + a != plain
    {
      assert (k + ":" + a)[|k|] == ':';
    }
  }

  /** The algorithm reads the values of its inputs and not their metadata. */
  ghost predicate ReadsValuesOnly(a: AnyAlgorithm) {
    forall p: Merged, q: Merged, calls ::
      Complete(p) && Complete(q) && KeyOf(p) == KeyOf(q) ==> a.next(p, calls) == a.next(q, calls)
  }

  /** Two modules that may share a cache: the same code with the same submodule
      keys, and nothing of theirs is named like the map of UUIDs. */
  ghost predicate SameCode<M, C>(c1: Config<M, C>, c2: Config<M, C>) {
    && c1.base == c2.base && ReadsValuesOnly(c1.base.algorithm)
    && |c1.submods| == |c2.submods| && PlainKeys(c1) && PlainKeys(c2)
    && (forall i :: 0 <= i < |c1.submods| ==> c1.submods[i].0 == c2.submods[i].0)
    && SUBMOD_KEY !in c1.inputs && SUBMOD_KEY !in c2.inputs
  }

  /** Submodules with one UUID are set up alike. */
  ghost predicate UuidsPinSetup<M, C>(w1: Wiring<M, C>, m1: M, w2: Wiring<M, C>, m2: M)
    requires Acyclic(w1) && Acyclic(w2) && m1 in w1.g && m2 in w2.g
  {
    forall i :: HasRequest(w1, m1, i) && HasRequest(w2, m2, i)
      && Req(w1, m1, i).target.Some? && Req(w2, m2, i).target.Some?
      && w1.g[Req(w1, m1, i).target.value].base.uuid == w2.g[Req(w2, m2, i).target.value].base.uuid
      ==> SetAlike(w1, Req(w1, m1, i).target.value, w2, Req(w2, m2, i).target.value)
  }

  /** The key decides the result if submodules of one implementation are always
      bound to the same inputs and wired alike. */
  lemma {:induction false} KeyDecidesWhenPinned<M, C>(ws: Wirings<M, C>, j1: int, m1: M, ps1: InputMap,
                                                      j2: int, m2: M, ps2: InputMap)
    requires AllAcyclic(ws) && Consults(ws, j1, m1, ps1) && Consults(ws, j2, m2, ps2)
    requires Slot(ws, j1, m1, ps1) == Slot(ws, j2, m2, ps2)
    requires SUBMOD_KEY !in ps1 && SUBMOD_KEY !in ps2
    requires SameCode(ws[j1].g[m1], ws[j2].g[m2]) && UuidsPinSetup(ws[j1], m1, ws[j2], m2)
    ensures Eval(ws[j1], m1, ps1) == Eval(ws[j2], m2, ps2)
  {
    var w1, w2 := ws[j1], ws[j2];
    var p1, p2 := Merge(w1, m1, ps1), Merge(w2, m2, ps2);
    assert KeyOf(p1)[SUBMOD_KEY] == KeyOf(p2)[SUBMOD_KEY];
    assert SubmodUuidsOf(w1, m1) == SubmodUuidsOf(w2, m2);
    forall i | HasRequest(w1, m1, i)
      ensures HasRequest(w2, m2, i) && Req(w1, m1, i).target.Some? && Req(w2, m2, i).target.Some?
      ensures SetAlike(w1, Req(w1, m1, i).target.value, w2, Req(w2, m2, i).target.value)
    {
      assert HasRequest(w2, m2, i);
      UuidIsRecorded(w1, m1, 0, map[], i);
      UuidIsRecorded(w2, m2, 0, map[], i);
    }
    StepsAgree(w1, m1, p1, w2, m2, p2, []);
  }

  lemma {:induction false} StepsAgree<M, C>(w1: Wiring<M, C>, m1: M, p1: Merged, w2: Wiring<M, C>, m2: M, p2: Merged,
                                            calls: seq<Outcome>)
    requires Acyclic(w1) && Acyclic(w2) && m1 in w1.g && m2 in w2.g && SameCode(w1.g[m1], w2.g[m2])
    requires Complete(p1) && Complete(p2) && KeyOf(p1) == KeyOf(p2)
    requires forall i :: HasRequest(w1, m1, i) ==>
               && HasRequest(w2, m2, i) && Req(w1, m1, i).target.Some? && Req(w2, m2, i).target.Some?
               && SetAlike(w1, Req(w1, m1, i).target.value, w2, Req(w2, m2, i).target.value)
    ensures EvalAlgorithm(w1, m1, p1, calls) == EvalAlgorithm(w2, m2, p2, calls)
    decreases w1.g[m1].base.algorithm.fuel(p1, calls)
  {
    var a := w1.g[m1].base.algorithm;
    assert a.next(p1, calls) == a.next(p2, calls);
    match a.next(p1, calls)
    case Return(_) =>
    case Throw =>
    case Call(k, q) =>
      SameIndex(w1.g[m1].submods, w2.g[m2].submods, k);
      var i := IndexOf(w1.g[m1].submods, k);
      var o := Threw;
      if HasRequest(w1, m1, i) {
        AlikeCompute(w1, Req(w1, m1, i).target.value, w2, Req(w2, m2, i).target.value, q);
        o := Eval(w1, Req(w1, m1, i).target.value, q);
      }
      StepsAgree(w1, m1, p1, w2, m2, p2, calls + [o]);
  }

  // ------------------------------------------------------ transparent inputs

  /** A memoized module whose one input is declared not to influence
      memoization. */
  ghost function DebugModule(base: Base): Wiring<nat, nat> {
    Wiring(map[0 := Config(true, base, Some(0), map["debug" := Input(None, false, true)], [], {})], map[0 := 0])
  }

  /** Two calls that differ in a transparent input only have different keys. */
  lemma TransparentInputIsInTheKey(base: Base, x: Field, y: Field)
    requires base.uuid != "" && x.value != y.value
    ensures var w, px, py := DebugModule(base), map["debug" := x], map["debug" := y];
            && Acyclic(w) && w.g[0].inputs["debug"].transparent
            && Consults([w], 0, 0, px) && Consults([w], 0, 0, py)
            && Slot([w], 0, 0, px).1 != Slot([w], 0, 0, py).1
  {
    var w, px, py := DebugModule(base), map["debug" := x], map["debug" := y];
    assert forall i :: !HasRequest(w, 0, i);
    assert |SUBMOD_KEY| == |"__PLUGIN_PLAY__ SUBMOD KEYS __PLUGIN_PLAY__"|;
    assert "debug" != SUBMOD_KEY;
    assert px.Keys == {"debug"} && py.Keys == {"debug"};
    var kx, ky := KeyOf(Merge(w, 0, px)), KeyOf(Merge(w, 0, py));
    assert kx["debug"] == x.value && ky["debug"] == y.value;
  }

  ghost function Transparent<M, C>(c: Config<M, C>): set<Name> {
    set n | n in c.inputs && c.inputs[n].transparent
  }

  /** Transparent inputs do not influence memoization exactly when there are
      none: calls that agree on all other inputs have one key only then. */
  lemma TransparencyHonouredIff<M, C>(w: Wiring<M, C>, m: M)
    requires Acyclic(w) && m in w.g && AllReadyFrom(w, m, 0)
    ensures (forall ps1: InputMap, ps2: InputMap ::
               (&& Ready(w, m, ps1.Keys) && Complete(Merge(w, m, ps1))
                && Ready(w, m, ps2.Keys) && Complete(Merge(w, m, ps2))
                && ps1 - Transparent(w.g[m]) == ps2 - Transparent(w.g[m]))
               ==> KeyOf(Merge(w, m, ps1)) == KeyOf(Merge(w, m, ps2)))
            <==> Transparent(w.g[m]) == {}
  {
    var c := w.g[m];
    if Transparent(c) == {} {
      forall ps1: InputMap, ps2: InputMap | ps1 - Transparent(c) == ps2 - Transparent(c)
        ensures ps1 == ps2
      {
        assert ps1 - {} == ps1 && ps2 - {} == ps2;
      }
    } else {
      var n :| n in Transparent(c);
      var a, b := Field(SubmodUuids(map[]), DefaultMetadata), Field(SubmodUuids(map["" := ""]), DefaultMetadata);
      assert map["" := ""][""] == "";
      var ps1: InputMap := map x | x in c.inputs :: a;
      var ps2 := ps1[n := b];
      assert Ready(w, m, c.inputs.Keys) by {
        assert forall i :: HasRequest(w, m, i) ==> RequestReady(w, m, i);
      }
      assert ps1.Keys == c.inputs.Keys && ps2.Keys == c.inputs.Keys;
      assert ps1 - Transparent(c) == ps2 - Transparent(c);
      assert KeyOf(Merge(w, m, ps1))[n] == a.value && KeyOf(Merge(w, m, ps2))[n] == b.value;
    }
  }

  // ------------------------------------------------- what they do not pin down

  /** A result with the value of `x`. */
  ghost function ValueOf(x: Field): Field {
    Field(x.value, DefaultMetadata)
  }

  /** Returns the value of its input "x" as its result "r". */
  ghost function Reader(): AnyAlgorithm {
    Algorithm(
      (ps: Merged, calls: seq<Outcome>) =>
        if "x" in ps && ps["x"].Some? then Return(map["r" := ValueOf(ps["x"].value)]) else Throw,
      (ps: Merged, calls: seq<Outcome>) => 0)
  }

  /** Calls its submodule "s" once and returns what that returns. */
  ghost function Forwarder(): AnyAlgorithm {
    Algorithm(
      (ps: Merged, calls: seq<Outcome>) =>
        if calls == [] then Call("s", map[])
        else if calls[0].Returned? then Return(calls[0].results) else Throw,
      (ps: Merged, calls: seq<Outcome>) => if calls == [] then 1 else 0)
  }

  ghost function ReaderModule(pt: PropertyType, x: Field): Config<nat, nat> {
    Config(true, Base("reader", Reader()), None, map["x" := Input(Some(x), false, false)], [], {pt})
  }

  ghost function ForwarderModule(pt: PropertyType, target: nat): Config<nat, nat> {
    Config(true, Base("forwarder", Forwarder()), Some(0), map[], [("s", Request(Some(pt), {}, Some(target)))], {})
  }

  /** Modules 2 and 3 share a cache and forward to 0 and 1, two copies of one
      reader that are bound to different inputs. */
  ghost function TwoCopies(pt: PropertyType, x: Field, y: Field): Wiring<nat, nat> {
    Wiring(map[0 := ReaderModule(pt, x), 1 := ReaderModule(pt, y),
               2 := ForwarderModule(pt, 0), 3 := ForwarderModule(pt, 1)],
           map[0 := 0, 1 := 0, 2 := 1, 3 := 1])
  }

  lemma ReaderComputes(w: Wiring<nat, nat>, t: nat, pt: PropertyType, x: Field)
    requires Acyclic(w) && t in w.g && w.g[t] == ReaderModule(pt, x)
    ensures Ready(w, t, {}) && Memoizable(w, t) && SubmodUuidsOf(w, t) == map[]
    ensures Eval(w, t, map[]) == Returned(map["r" := ValueOf(x)])
    ensures forall memo :: Run(w, t, map[], memo) == (Returned(map["r" := ValueOf(x)]), memo)
  {
    assert forall i :: !HasRequest(w, t, i);
    assert |SUBMOD_KEY| == |"__PLUGIN_PLAY__ SUBMOD KEYS __PLUGIN_PLAY__"|;
    assert "x" != SUBMOD_KEY;
    var none: InputMap := map[];
    assert none.Keys == {};
    var inner := Merge(w, t, none);
    assert "x" in inner && inner["x"] == Some(x);
    assert Eval(w, t, none) == EvalAlgorithm(w, t, inner, []);
  }

  lemma ForwarderUuids(w: Wiring<nat, nat>, m: nat, t: nat, pt: PropertyType)
    requires Acyclic(w) && m in w.g && t in w.g && w.g[m] == ForwarderModule(pt, t)
    requires SubmodUuidsOf(w, t) == map[] && w.g[t].base.uuid == "reader"
    ensures SubmodUuidsOf(w, m) == map["s" := "reader"]
  {
    assert HasRequest(w, m, 0) && Req(w, m, 0).target == Some(t) && w.g[m].submods[0].0 == "s";
    hide ForwarderModule, Acyclic, Prefixed, Emplaced;
    OneSubmodUuid(w, m, t, "s");
  }

  lemma OneSubmodUuid(w: Wiring<nat, nat>, m: nat, t: nat, k: string)
    requires Acyclic(w) && m in w.g && t in w.g && |w.g[m].submods| == 1 && HasRequest(w, m, 0)
    requires w.g[m].submods[0].0 == k && Req(w, m, 0).target == Some(t) && SubmodUuidsOf(w, t) == map[]
    ensures SubmodUuidsOf(w, m) == map[k := w.g[t].base.uuid]
  {
    var none: map<string, Uuid> := map[];
    var one: map<string, Uuid> := map[k := w.g[t].base.uuid];
    assert WithSubmod(w, m, 0, none) == one by {
      OnlyEntry(k, w.g[t].base.uuid);
    }
    hide WithSubmod;
    assert SubmodUuidsFrom(w, m, 1, one) == one;
    assert SubmodUuidsFrom(w, m, 0, none) == SubmodUuidsFrom(w, m, 1, one);
  }

  lemma OnlyEntry(k: string, u: Uuid)
    ensures Emplaced(Emplaced(map[], Prefixed(k, map[])), map[k := u]) == map[k := u]
  {
    assert Prefixed(k, map[]) == map[];
  }

  lemma ForwarderComputes(w: Wiring<nat, nat>, m: nat, t: nat, pt: PropertyType, x: Field)
    requires Acyclic(w) && m in w.g && t in w.g
    requires w.g[m] == ForwarderModule(pt, t) && w.g[t] == ReaderModule(pt, x)
    ensures Ready(w, m, {}) && Memoizes(w, m) && Complete(Merge(w, m, map[]))
    ensures Eval(w, m, map[]) == Returned(map["r" := ValueOf(x)])
    ensures forall memo ::
              RunAlgorithm(w, m, Merge(w, m, map[]), [], memo) == (Returned(map["r" := ValueOf(x)]), memo)
    ensures KeyOf(Merge(w, m, map[])) == map[SUBMOD_KEY := SubmodUuids(map["s" := "reader"])]
  {
    ReaderComputes(w, t, pt, x);
    ForwarderUuids(w, m, t, pt);
    assert HasRequest(w, m, 0) && Req(w, m, 0) == Request(Some(pt), {}, Some(t));
    assert forall i :: HasRequest(w, m, i) ==> i == 0;
    hide SubmodUuidsOf;
    var none: InputMap := map[];
    assert none.Keys == {};
    var outer := Merge(w, m, none);
    assert outer == map[SUBMOD_KEY := Some(Field(SubmodUuids(map["s" := "reader"]), DefaultMetadata))];
    assert Ready(w, m, {});
    ForwarderSteps(w, m, t, outer, map["r" := ValueOf(x)]);
  }

  lemma ForwarderSteps(w: Wiring<nat, nat>, m: nat, t: nat, outer: Merged, r: ResultMap)
    requires Acyclic(w) && m in w.g && t in w.g && w.g[m].base.algorithm == Forwarder()
    requires |w.g[m].submods| == 1 && w.g[m].submods[0].0 == "s" && w.g[m].submods[0].1.target == Some(t)
    requires Eval(w, t, map[]) == Returned(r)
    requires forall memo :: Run(w, t, map[], memo) == (Returned(r), memo)
    ensures EvalAlgorithm(w, m, outer, []) == Returned(r)
    ensures forall memo :: RunAlgorithm(w, m, outer, [], memo) == (Returned(r), memo)
  {
    assert IndexOf(w.g[m].submods, "s") == 0 && HasRequest(w, m, 0);
    var calls: seq<Outcome> := [] + [Returned(r)];
    assert calls[0] == Returned(r);
    assert EvalAlgorithm(w, m, outer, calls) == Returned(r);
    forall memo
      ensures RunAlgorithm(w, m, outer, [], memo) == (Returned(r), memo)
    {
      assert RunAlgorithm(w, m, outer, calls, memo) == (Returned(r), memo);
    }
  }

  /** The inputs bound to a submodule are not part of the key: after the first
      module has run, the second one returns the first one's result. */
  lemma SubmoduleInputsAreNotInTheKey(pt: PropertyType, x: Field, y: Field, memo: Memo<nat>)
    requires x.value != y.value && memo.caches == map[]
    ensures Acyclic(TwoCopies(pt, x, y)) && !KeysDetermine([TwoCopies(pt, x, y)])
    ensures var w := TwoCopies(pt, x, y);
            var (o, after) := Run(w, 2, map[], memo);
            && o == Returned(map["r" := ValueOf(x)])
            && Eval(w, 3, map[]) == Returned(map["r" := ValueOf(y)])
            && Run(w, 3, map[], after).0 == Returned(map["r" := ValueOf(x)])
  {
    var w := TwoCopies(pt, x, y);
    TwoCopiesAcyclic(pt, x, y);
    ForwarderComputes(w, 2, 0, pt, x);
    ForwarderComputes(w, 3, 1, pt, y);
    hide Ready, Memoizable, Eval, Merge, RunAlgorithm, Acyclic;
    var none: InputMap := map[];
    assert none.Keys == {};
    var merged, r := Merge(w, 2, none), map["r" := ValueOf(x)];
    CompleteLookup(merged, KnownTo(memo, 0));
    StoredIsHeld(memo, 0, merged, r);
    CompleteLookup(merged, KnownTo(Stored(memo, 0, KeyOf(merged), r), 0));
    hide Stored, LookupFails;
    var ws := [w];
    assert AllAcyclic(ws);
    assert Consults(ws, 0, 2, none) && Consults(ws, 0, 3, none);
    assert Slot(ws, 0, 2, none) == Slot(ws, 0, 3, none);
    assert map["r" := ValueOf(x)]["r"] != map["r" := ValueOf(y)]["r"];
  }

  lemma TwoCopiesAcyclic(pt: PropertyType, x: Field, y: Field)
    ensures Acyclic(TwoCopies(pt, x, y))
  {
    var w := TwoCopies(pt, x, y);
    assert forall m, i :: m in w.g && HasRequest(w, m, i) ==> m >= 2 && i == 0;
  }
}
