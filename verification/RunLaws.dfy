/**
 What a run without caches and a memoization key mean, said without the functions
 that compute them: a result is the end of a transcript of calls, a bound input is
 as good as a supplied one, and the key has one UUID for every path of submodules.
 */
module RunLaws {
  import opened Fields
  import opened ModuleGraph
  import opened Memoization
  import opened KeyStrength

  // -------------------------------------------------------------- transcripts

  /** `t` is the module set under the submodule key `k`, the first such key. */
  ghost predicate SetUnder<M, C>(w: Wiring<M, C>, m: M, k: Name, t: M) {
    exists i :: IsFirst(w, m, k, i) && Req(w, m, i).target == Some(t)
  }

  ghost predicate IsFirst<M, C>(w: Wiring<M, C>, m: M, k: Name, i: int) {
    HasRequest(w, m, i) && w.g[m].submods[i].0 == k && forall j :: 0 <= j < i ==> w.g[m].submods[j].0 != k
  }

  /** The outcome `o` of calling the submodule `k` with the inputs `q`: that of a
      run of the module set there with these inputs, and an exception if none is. */
  ghost predicate CallGives<M, C>(w: Wiring<M, C>, m: M, k: Name, q: InputMap, o: Outcome)
    requires Acyclic(w) && m in w.g
  {
    && (forall t :: t in w.g && SetUnder(w, m, k, t) ==> o == Eval(w, t, q))
    && ((forall t :: t in w.g ==> !SetUnder(w, m, k, t)) ==> o == Threw)
  }

  /** The outcomes `calls` are those of the calls that the algorithm makes. */
  ghost predicate Transcript<M, C>(w: Wiring<M, C>, m: M, merged: Merged, calls: seq<Outcome>)
    requires Acyclic(w) && m in w.g
  {
    forall j :: 0 <= j < |calls| ==> Continues(w, m, merged, calls, j)
  }

  ghost predicate Continues<M, C>(w: Wiring<M, C>, m: M, merged: Merged, calls: seq<Outcome>, j: int)
    requires Acyclic(w) && m in w.g && 0 <= j < |calls|
  {
    var a := w.g[m].base.algorithm.next(merged, calls[..j]);
    a.Call? && CallGives(w, m, a.key, a.inputs, calls[j])
  }

  ghost predicate EndsIn<M, C>(w: Wiring<M, C>, m: M, merged: Merged, calls: seq<Outcome>, o: Outcome)
    requires Acyclic(w) && m in w.g
  {
    match w.g[m].base.algorithm.next(merged, calls)
    case Return(r) => o == Returned(r)
    case Throw => o == Threw
    case Call(_, _) => false
  }

  lemma FirstIs<M, C>(w: Wiring<M, C>, m: M, k: Name, i: int)
    requires m in w.g && IsFirst(w, m, k, i)
    ensures i == IndexOf(w.g[m].submods, k)
  {
  }

  /** The outcome that a run takes from a call is the one that the call gives. */
  lemma CallOutcome<M, C>(w: Wiring<M, C>, m: M, k: Name, q: InputMap, o: Outcome)
    requires Acyclic(w) && m in w.g
    ensures CallGives(w, m, k, q, o) <==>
              var i := IndexOf(w.g[m].submods, k);
              o == if HasRequest(w, m, i) && Req(w, m, i).target.Some? then Eval(w, Req(w, m, i).target.value, q)
                   else Threw
  {
    var i := IndexOf(w.g[m].submods, k);
    if HasRequest(w, m, i) {
      assert IsFirst(w, m, k, i);
    }
    forall t | t in w.g && SetUnder(w, m, k, t)
      ensures HasRequest(w, m, i) && Req(w, m, i).target == Some(t)
    {
      var j :| IsFirst(w, m, k, j) && Req(w, m, j).target == Some(t);
      FirstIs(w, m, k, j);
    }
    if HasRequest(w, m, i) && Req(w, m, i).target.Some? {
      assert SetUnder(w, m, k, Req(w, m, i).target.value);
    }
  }

  lemma {:induction false} EvalEndsTranscript<M, C>(w: Wiring<M, C>, m: M, merged: Merged, calls: seq<Outcome>)
    returns (all: seq<Outcome>)
    requires Acyclic(w) && m in w.g && Transcript(w, m, merged, calls)
    ensures calls <= all && Transcript(w, m, merged, all)
    ensures EndsIn(w, m, merged, all, EvalAlgorithm(w, m, merged, calls))
    decreases w.g[m].base.algorithm.fuel(merged, calls)
  {
    match w.g[m].base.algorithm.next(merged, calls)
    case Return(_) => all := calls;
    case Throw => all := calls;
    case Call(k, q) =>
      var i := IndexOf(w.g[m].submods, k);
      var o := if HasRequest(w, m, i) && Req(w, m, i).target.Some?
               then Eval(w, Req(w, m, i).target.value, q) else Threw;
      CallOutcome(w, m, k, q, o);
      ExtendTranscript(w, m, merged, calls, o);
      all := EvalEndsTranscript(w, m, merged, calls + [o]);
      assert calls <= calls + [o];
  }

  lemma ExtendTranscript<M, C>(w: Wiring<M, C>, m: M, merged: Merged, calls: seq<Outcome>, o: Outcome)
    requires Acyclic(w) && m in w.g && Transcript(w, m, merged, calls)
    requires var a := w.g[m].base.algorithm.next(merged, calls);
             a.Call? && CallGives(w, m, a.key, a.inputs, o)
    ensures Transcript(w, m, merged, calls + [o])
  {
    hide CallGives;
    var all := calls + [o];
    forall j | 0 <= j < |all|
      ensures Continues(w, m, merged, all, j)
    {
      assert all[..j] == calls[..j];
      if j < |calls| {
        assert Continues(w, m, merged, calls, j);
      } else {
        assert all[..j] == calls;
      }
    }
  }

  lemma {:induction false} TranscriptEnds<M, C>(w: Wiring<M, C>, m: M, merged: Merged, all: seq<Outcome>, n: nat,
                                                o: Outcome)
    requires Acyclic(w) && m in w.g && n <= |all| && Transcript(w, m, merged, all) && EndsIn(w, m, merged, all, o)
    ensures EvalAlgorithm(w, m, merged, all[..n]) == o
    decreases |all| - n
  {
    if n == |all| {
      assert all[..n] == all;
    } else {
      assert Continues(w, m, merged, all, n);
      var a := w.g[m].base.algorithm.next(merged, all[..n]);
      CallOutcome(w, m, a.key, a.inputs, all[n]);
      assert all[..n + 1] == all[..n] + [all[n]];
      TranscriptEnds(w, m, merged, all, n + 1, o);
    }
  }

  /** A module that is ready computes `o` exactly when some transcript of its
      algorithm's calls ends in `o`; one that is not throws. */
  lemma EvalIffTranscript<M, C>(w: Wiring<M, C>, m: M, ps: InputMap, o: Outcome)
    requires Acyclic(w) && m in w.g
    ensures Eval(w, m, ps) == o <==>
              if Ready(w, m, ps.Keys)
              then exists calls :: Transcript(w, m, Merge(w, m, ps), calls) && EndsIn(w, m, Merge(w, m, ps), calls, o)
              else o == Threw
  {
    hide Ready, Merge, Transcript, EndsIn;
    var merged := Merge(w, m, ps);
    if Eval(w, m, ps) == o && Ready(w, m, ps.Keys) {
      NoCallsYet(w, m, merged);
      var all := EvalEndsTranscript(w, m, merged, []);
    }
    forall calls | Transcript(w, m, merged, calls) && EndsIn(w, m, merged, calls, o)
      ensures EvalAlgorithm(w, m, merged, []) == o
    {
      TranscriptEnds(w, m, merged, calls, 0, o);
      assert calls[..0] == [];
    }
  }

  lemma NoCallsYet<M, C>(w: Wiring<M, C>, m: M, merged: Merged)
    requires Acyclic(w) && m in w.g
    ensures Transcript(w, m, merged, [])
  {
  }

  // ------------------------------------------------- inputs that are passed down

  /** Calls its submodule "s" with `v` as the input "x". */
  ghost function Passer(v: Field): AnyAlgorithm {
    Algorithm(
      (ps: Merged, calls: seq<Outcome>) =>
        if calls == [] then Call("s", map["x" := v])
        else if calls[0].Returned? then Return(calls[0].results) else Throw,
      (ps: Merged, calls: seq<Outcome>) => if calls == [] then 1 else 0)
  }

  /** A reader whose input is not set but provided by the request. */
  ghost function PassingDown(pt: PropertyType, v: Field): Wiring<nat, nat> {
    Wiring(map[0 := Config(true, Base("reader", Reader()), None, map["x" := Input(None, false, false)], [], {pt}),
               1 := Config(true, Base("passer", Passer(v)), None, map[],
                           [("s", Request(Some(pt), {"x"}, Some(0)))], {})],
           map[0 := 0, 1 := 1])
  }

  /** The result depends on the inputs that are passed down. */
  lemma PassedDownIsRead(pt: PropertyType, v: Field)
    ensures var w := PassingDown(pt, v);
            Acyclic(w) && Ready(w, 1, {}) && Eval(w, 1, map[]) == Returned(map["r" := ValueOf(v)])
  {
    var w := PassingDown(pt, v);
    assert forall i :: !HasRequest(w, 0, i);
    assert forall i :: HasRequest(w, 1, i) ==> i == 0;
    assert HasRequest(w, 1, 0) && Req(w, 1, 0) == Request(Some(pt), {"x"}, Some(0));
    var q: InputMap := map["x" := v];
    assert q.Keys == {"x"};
    assert Ready(w, 0, {"x"});
    var inner := Merge(w, 0, q);
    assert inner["x"] == Some(v);
    assert Eval(w, 0, q) == Returned(map["r" := ValueOf(v)]);
    var none: InputMap := map[];
    assert none.Keys == {};
    assert IndexOf(w.g[1].submods, "s") == 0;
    var calls: seq<Outcome> := [] + [Returned(map["r" := ValueOf(v)])];
    assert calls[0] == Returned(map["r" := ValueOf(v)]);
    assert EvalAlgorithm(w, 1, Merge(w, 1, none), calls) == Returned(map["r" := ValueOf(v)]);
  }

  // ------------------------------------------------------- binding and supplying

  /** `w` with the value `v` bound to the input `n` of `m`. */
  ghost function WithBound<M, C>(w: Wiring<M, C>, m: M, n: Name, v: Field): Wiring<M, C>
    requires Acyclic(w) && m in w.g && n in w.g[m].inputs
  {
    w.(g := w.g[m := WithInput(w.g[m], n, v)])
  }

  lemma BoundIsAcyclic<M, C>(w: Wiring<M, C>, m: M, n: Name, v: Field)
    requires Acyclic(w) && m in w.g && n in w.g[m].inputs
    ensures Acyclic(WithBound(w, m, n, v))
    ensures forall x, i :: HasRequest(WithBound(w, m, n, v), x, i) <==> HasRequest(w, x, i)
    ensures forall x, i :: HasRequest(w, x, i) ==> Req(WithBound(w, m, n, v), x, i) == Req(w, x, i)
  {
    var w' := WithBound(w, m, n, v);
    assert forall x, i :: HasRequest(w', x, i) <==> HasRequest(w, x, i);
  }

  /** Nothing changes below `m`. */
  lemma {:induction false} BelowIsAlike<M, C>(w: Wiring<M, C>, m: M, n: Name, v: Field, x: M)
    requires Acyclic(w) && m in w.g && n in w.g[m].inputs && x in w.g && w.rank[x] < w.rank[m]
    ensures Acyclic(WithBound(w, m, n, v)) && SetAlike(w, x, WithBound(w, m, n, v), x)
    decreases w.rank[x]
  {
    BoundIsAcyclic(w, m, n, v);
    var w' := WithBound(w, m, n, v);
    forall i | HasRequest(w, x, i) && Req(w, x, i).target.Some?
      ensures SetAlike(w, Req(w, x, i).target.value, w', Req(w, x, i).target.value)
    {
      BelowIsAlike(w, m, n, v, Req(w, x, i).target.value);
    }
  }

  lemma {:induction false} BoundUuids<M, C>(w: Wiring<M, C>, m: M, n: Name, v: Field, i: nat, rv: map<string, Uuid>)
    requires Acyclic(w) && m in w.g && n in w.g[m].inputs && i <= |w.g[m].submods|
    ensures Acyclic(WithBound(w, m, n, v))
    ensures SubmodUuidsFrom(w, m, i, rv) == SubmodUuidsFrom(WithBound(w, m, n, v), m, i, rv)
    decreases |w.g[m].submods| - i
  {
    BoundIsAcyclic(w, m, n, v);
    var w' := WithBound(w, m, n, v);
    if i < |w.g[m].submods| {
      assert HasRequest(w, m, i) && HasRequest(w', m, i);
      if Req(w, m, i).target.Some? {
        BelowIsAlike(w, m, n, v, Req(w, m, i).target.value);
        AlikeUuids(w, Req(w, m, i).target.value, w', Req(w, m, i).target.value);
      }
      BoundUuids(w, m, n, v, i + 1, WithSubmod(w, m, i, rv));
    }
  }

  lemma {:induction false} BoundSteps<M, C>(w: Wiring<M, C>, m: M, n: Name, v: Field, merged: Merged,
                                            calls: seq<Outcome>)
    requires Acyclic(w) && m in w.g && n in w.g[m].inputs
    ensures Acyclic(WithBound(w, m, n, v))
    ensures EvalAlgorithm(w, m, merged, calls) == EvalAlgorithm(WithBound(w, m, n, v), m, merged, calls)
    decreases w.g[m].base.algorithm.fuel(merged, calls)
  {
    BoundIsAcyclic(w, m, n, v);
    var w' := WithBound(w, m, n, v);
    match w.g[m].base.algorithm.next(merged, calls)
    case Return(_) =>
    case Throw =>
    case Call(k, q) =>
      var i := IndexOf(w.g[m].submods, k);
      var o := Threw;
      if HasRequest(w, m, i) && Req(w, m, i).target.Some? {
        var t := Req(w, m, i).target.value;
        BelowIsAlike(w, m, n, v, t);
        AlikeCompute(w, t, w', t, q);
        o := Eval(w, t, q);
      }
      BoundSteps(w, m, n, v, merged, calls + [o]);
  }

  /** Supplying an input to a call is binding it first, whatever was bound before:
      same readiness, same merged inputs, same outcome. */
  lemma SupplyingIsBinding<M, C>(w: Wiring<M, C>, m: M, n: Name, v: Field, ps: InputMap)
    requires Acyclic(w) && m in w.g && n in w.g[m].inputs && n !in ps
    ensures Acyclic(WithBound(w, m, n, v))
    ensures Ready(w, m, ps[n := v].Keys) <==> Ready(WithBound(w, m, n, v), m, ps.Keys)
    ensures Merge(w, m, ps[n := v]) == Merge(WithBound(w, m, n, v), m, ps)
    ensures Eval(w, m, ps[n := v]) == Eval(WithBound(w, m, n, v), m, ps)
  {
    BoundIsAcyclic(w, m, n, v);
    var w' := WithBound(w, m, n, v);
    BoundReady(w, m, n, v, ps);
    BoundUuids(w, m, n, v, 0, map[]);
    assert SubmodUuidsOf(w, m) == SubmodUuidsOf(w', m);
    hide SubmodUuidsOf, Ready, EvalAlgorithm;
    assert Merge(w, m, ps[n := v]) == Merge(w', m, ps);
    BoundSteps(w, m, n, v, Merge(w, m, ps[n := v]), []);
  }

  lemma BoundReady<M, C>(w: Wiring<M, C>, m: M, n: Name, v: Field, ps: InputMap)
    requires Acyclic(w) && m in w.g && n in w.g[m].inputs && n !in ps
    ensures Acyclic(WithBound(w, m, n, v))
    ensures Ready(w, m, ps[n := v].Keys) <==> Ready(WithBound(w, m, n, v), m, ps.Keys)
  {
    BoundIsAcyclic(w, m, n, v);
    var w' := WithBound(w, m, n, v);
    assert ps[n := v].Keys == ps.Keys + {n};
    forall i | HasRequest(w, m, i) && Req(w, m, i).Fulfilled()
      ensures var t, supplied := Req(w, m, i).target.value, Req(w, m, i).provided;
              Ready(w, t, supplied) <==> Ready(w', t, supplied)
    {
      BelowIsAlike(w, m, n, v, Req(w, m, i).target.value);
      AlikeReady(w, Req(w, m, i).target.value, w', Req(w, m, i).target.value, Req(w, m, i).provided);
    }
    assert InputsReady(w.g[m], ps[n := v].Keys) <==> InputsReady(w'.g[m], ps.Keys);
  }

  /** What is bound to an input that the caller supplies does not matter. */
  lemma SuppliedWins<M, C>(w: Wiring<M, C>, m: M, n: Name, old_: Field, ps: InputMap)
    requires Acyclic(w) && m in w.g && n in w.g[m].inputs && n in ps
    ensures Acyclic(WithBound(w, m, n, old_)) && Merge(WithBound(w, m, n, old_), m, ps) == Merge(w, m, ps)
  {
    BoundIsAcyclic(w, m, n, old_);
    BoundUuids(w, m, n, old_, 0, map[]);
  }

  // ------------------------------------------------------------- what is memoized

  lemma {:induction false} MemoizableAlong<M, C>(w: Wiring<M, C>, m: M, path: seq<int>)
    requires Acyclic(w) && m in w.g && Memoizable(w, m) && Walk(w, m, path).Some?
    ensures Memoizing(w.g[Walk(w, m, path).value])
    decreases |path|
  {
    if path != [] {
      MemoizableAlong(w, Req(w, m, path[0]).target.value, path[1..]);
    }
  }

  lemma {:induction false} NotMemoizableAlong<M, C>(w: Wiring<M, C>, m: M) returns (path: seq<int>)
    requires Acyclic(w) && m in w.g && !Memoizable(w, m)
    ensures Walk(w, m, path).Some? && !Memoizing(w.g[Walk(w, m, path).value])
    decreases w.rank[m]
  {
    if !Memoizing(w.g[m]) {
      return [];
    }
    var i :| HasRequest(w, m, i) && Req(w, m, i).target.Some? && !Memoizable(w, Req(w, m, i).target.value);
    var rest := NotMemoizableAlong(w, Req(w, m, i).target.value);
    path := [i] + rest;
    assert path[1..] == rest;
  }

  /** A module is memoizable exactly when every module at the end of a path of its
      submodules, itself included, has a UUID and memoization switched on. */
  lemma MemoizableIff<M, C>(w: Wiring<M, C>, m: M)
    requires Acyclic(w) && m in w.g
    ensures Memoizable(w, m) <==>
              forall path :: Walk(w, m, path).Some? ==> Memoizing(w.g[Walk(w, m, path).value])
  {
    if Memoizable(w, m) {
      forall path | Walk(w, m, path).Some?
        ensures Memoizing(w.g[Walk(w, m, path).value])
      {
        MemoizableAlong(w, m, path);
      }
    } else {
      var path := NotMemoizableAlong(w, m);
    }
  }

  ghost predicate Memoizing<M, C>(c: Config<M, C>) {
    c.base.uuid != "" && c.memoizable
  }

  // ------------------------------------------------ the UUIDs of the submodules

  /** Submodule keys are plain and distinct, all the way down. */
  ghost predicate PlainAllTheWay<M, C>(w: Wiring<M, C>, m: M)
    requires Acyclic(w) && m in w.g
    decreases w.rank[m]
  {
    && PlainKeys(w.g[m])
    && forall i :: HasRequest(w, m, i) && Req(w, m, i).target.Some? ==> PlainAllTheWay(w, Req(w, m, i).target.value)
  }

  /** The keys along a path of set submodules, joined by colons. */
  ghost function KeysAlong<M, C>(w: Wiring<M, C>, m: M, path: seq<int>): string
    requires Acyclic(w) && m in w.g && path != [] && Walk(w, m, path).Some?
    decreases |path|
  {
    var k := w.g[m].submods[path[0]].0;
    if |path| == 1 then k else k + ":" + KeysAlong(w, Req(w, m, path[0]).target.value, path[1..])
  }

  /** `path` leads to a module with the UUID `u` by the keys `s`. */
  ghost predicate LeadsTo<M, C>(w: Wiring<M, C>, m: M, path: seq<int>, s: string, u: Uuid)
    requires Acyclic(w) && m in w.g
  {
    && path != [] && Walk(w, m, path).Some?
    && KeysAlong(w, m, path) == s && w.g[Walk(w, m, path).value].base.uuid == u
  }

  ghost predicate In(uuids: map<string, Uuid>, s: string, u: Uuid) {
    s in uuids && uuids[s] == u
  }

  /** The entries are the paths whose first submodule is before the `i`-th. */
  ghost predicate HasPathsBefore<M, C>(w: Wiring<M, C>, m: M, i: nat, rv: map<string, Uuid>)
    requires Acyclic(w) && m in w.g
  {
    forall s, u :: In(rv, s, u) <==> ReachedBefore(w, m, i, s, u)
  }

  ghost predicate ReachedBefore<M, C>(w: Wiring<M, C>, m: M, i: nat, s: string, u: Uuid)
    requires Acyclic(w) && m in w.g
  {
    exists path :: LeadsTo(w, m, path, s, u) && path[0] < i
  }

  ghost predicate ReachedBy<M, C>(w: Wiring<M, C>, m: M, i: nat, s: string, u: Uuid)
    requires Acyclic(w) && m in w.g
  {
    exists path :: LeadsTo(w, m, path, s, u) && path[0] == i
  }

  /** The part of `s` before its first colon. */
  ghost function Head(s: string): string {
    if s == "" || s[0] == ':' then "" else [s[0]] + Head(s[1..])
  }

  lemma {:induction false} HeadOf(k: string, rest: string)
    requires ':' !in k
    ensures Head(k) == k && Head(k + ":" + rest) == k
  {
    if k != "" {
      assert k == [k[0]] + k[1..] && (k + ":" + rest)[1..] == k[1..] + ":" + rest;
      HeadOf(k[1..], rest);
    } else {
      assert k + ":" + rest == ":" + rest;
    }
  }

  /** The first key of a path can be read off. */
  lemma HeadIsFirstKey<M, C>(w: Wiring<M, C>, m: M, path: seq<int>)
    requires Acyclic(w) && m in w.g && PlainKeys(w.g[m]) && path != [] && Walk(w, m, path).Some?
    ensures Head(KeysAlong(w, m, path)) == w.g[m].submods[path[0]].0
  {
    var k := w.g[m].submods[path[0]].0;
    HeadOf(k, if |path| == 1 then "" else KeysAlong(w, Req(w, m, path[0]).target.value, path[1..]));
  }

  /** What `WithSubmod` adds, if no entry so far begins with the key. */
  lemma AddedBy(rv: map<string, Uuid>, k: string, sub: map<string, Uuid>, uuid: Uuid, s: string, u: Uuid)
    requires ':' !in k && forall x :: x in rv ==> Head(x) != k
    ensures In(Emplaced(Emplaced(rv, Prefixed(k, sub)), map[k := uuid]), s, u) <==>
              || In(rv, s, u) || (s == k && u == uuid)
              || exists rest :: s == k + ":" + rest && In(sub, rest, u)
  {
    HeadOf(k, "");
    ScopedHasColon(k, sub, k);
    forall rest | s == k + ":" + rest
      ensures Head(s) == k && s != k
    {
      HeadOf(k, rest);
      assert s[|k|] == ':';
    }
    forall a, b | k + ":" + a == k + ":" + b
      ensures a == b
    {
      PrefixInjective(k, a, b);
    }
  }

  /** The paths through the `i`-th submodule. */
  lemma PathsThrough<M, C>(w: Wiring<M, C>, m: M, i: nat, s: string, u: Uuid)
    requires Acyclic(w) && m in w.g && HasRequest(w, m, i)
    ensures ReachedBy(w, m, i, s, u) <==>
              && Req(w, m, i).target.Some?
              && var k, t := w.g[m].submods[i].0, Req(w, m, i).target.value;
                 || (s == k && u == w.g[t].base.uuid)
                 || exists rest, path :: s == k + ":" + rest && LeadsTo(w, t, path, rest, u)
  {
    var k := w.g[m].submods[i].0;
    forall path | LeadsTo(w, m, path, s, u) && path[0] == i
      ensures Req(w, m, i).target.Some?
      ensures var t := Req(w, m, i).target.value;
              || (s == k && u == w.g[t].base.uuid)
              || exists rest, p :: s == k + ":" + rest && LeadsTo(w, t, p, rest, u)
    {
      var t := Req(w, m, i).target.value;
      if |path| == 1 {
        assert path[1..] == [];
      } else {
        assert LeadsTo(w, t, path[1..], KeysAlong(w, t, path[1..]), u);
      }
    }
    if Req(w, m, i).target.Some? {
      var t := Req(w, m, i).target.value;
      if s == k && u == w.g[t].base.uuid {
        assert [i as int][1..] == [];
        assert LeadsTo(w, m, [i as int], s, u);
      }
      forall rest, p | s == k + ":" + rest && LeadsTo(w, t, p, rest, u)
        ensures LeadsTo(w, m, [i as int] + p, s, u)
      {
        assert ([i as int] + p)[1..] == p;
      }
    }
  }

  lemma OneMoreSubmod<M, C>(w: Wiring<M, C>, m: M, i: nat, rv: map<string, Uuid>)
    requires Acyclic(w) && m in w.g && PlainKeys(w.g[m]) && HasRequest(w, m, i) && HasPathsBefore(w, m, i, rv)
    requires Req(w, m, i).target.Some? ==>
               var t := Req(w, m, i).target.value;
               forall s, u :: In(SubmodUuidsOf(w, t), s, u) <==> exists path :: LeadsTo(w, t, path, s, u)
    ensures HasPathsBefore(w, m, i + 1, WithSubmod(w, m, i, rv))
  {
    hide LeadsTo, In, SubmodUuidsOf, Prefixed, Emplaced, ReachedBefore, ReachedBy;
    var next, k := WithSubmod(w, m, i, rv), w.g[m].submods[i].0;
    forall s, u
      ensures In(next, s, u) <==> ReachedBefore(w, m, i + 1, s, u)
    {
      PathsThrough(w, m, i, s, u);
      if Req(w, m, i).target.Some? {
        NoneBeginsWith(w, m, i, rv);
        AddedBy(rv, k, SubmodUuidsOf(w, Req(w, m, i).target.value), w.g[Req(w, m, i).target.value].base.uuid, s, u);
      }
      UpToNext(w, m, i, s, u);
    }
  }

  lemma UpToNext<M, C>(w: Wiring<M, C>, m: M, i: nat, s: string, u: Uuid)
    requires Acyclic(w) && m in w.g
    ensures ReachedBefore(w, m, i + 1, s, u) <==> ReachedBefore(w, m, i, s, u) || ReachedBy(w, m, i, s, u)
  {
  }

  /** No entry for an earlier submodule begins with the key of this one. */
  lemma NoneBeginsWith<M, C>(w: Wiring<M, C>, m: M, i: nat, rv: map<string, Uuid>)
    requires Acyclic(w) && m in w.g && PlainKeys(w.g[m]) && HasRequest(w, m, i) && HasPathsBefore(w, m, i, rv)
    ensures forall x :: x in rv ==> Head(x) != w.g[m].submods[i].0
  {
    forall x | x in rv
      ensures Head(x) != w.g[m].submods[i].0
    {
      assert In(rv, x, rv[x]);
      var path :| LeadsTo(w, m, path, x, rv[x]) && path[0] < i;
      HeadIsFirstKey(w, m, path);
      assert HasRequest(w, m, path[0]);
    }
  }

  lemma {:induction false} UuidsFromArePaths<M, C>(w: Wiring<M, C>, m: M, i: nat, rv: map<string, Uuid>)
    requires Acyclic(w) && m in w.g && PlainAllTheWay(w, m) && i <= |w.g[m].submods| && HasPathsBefore(w, m, i, rv)
    ensures HasPathsBefore(w, m, |w.g[m].submods|, SubmodUuidsFrom(w, m, i, rv))
    decreases w.rank[m], 0, |w.g[m].submods| - i
  {
    if i < |w.g[m].submods| {
      assert HasRequest(w, m, i);
      if Req(w, m, i).target.Some? {
        var t := Req(w, m, i).target.value;
        forall s, u
          ensures In(SubmodUuidsOf(w, t), s, u) <==> exists path :: LeadsTo(w, t, path, s, u)
        {
          UuidsAreThePaths(w, t, s, u);
        }
      }
      OneMoreSubmod(w, m, i, rv);
      hide HasPathsBefore, WithSubmod, In, LeadsTo;
      UuidsFromArePaths(w, m, i + 1, WithSubmod(w, m, i, rv));
    }
  }

  /** With plain distinct keys at each level, the map of UUIDs has, for every path of
      set submodules, the UUID of the module at its end under the keys of the path
      joined by colons, and it has nothing else. */
  lemma {:induction false} UuidsAreThePaths<M, C>(w: Wiring<M, C>, m: M, s: string, u: Uuid)
    requires Acyclic(w) && m in w.g && PlainAllTheWay(w, m)
    ensures In(SubmodUuidsOf(w, m), s, u) <==> exists path :: LeadsTo(w, m, path, s, u)
    decreases w.rank[m], 1, 0
  {
    assert HasPathsBefore(w, m, 0, map[]) by {
      forall path, x, y | LeadsTo(w, m, path, x, y)
        ensures path[0] >= 0
      {
        assert HasRequest(w, m, path[0]);
      }
    }
    UuidsFromArePaths(w, m, 0, map[]);
    forall path | LeadsTo(w, m, path, s, u)
      ensures path[0] < |w.g[m].submods|
    {
      assert HasRequest(w, m, path[0]);
    }
  }
}
