/**
 Running a module with memoization, and the same run without any cache.

 The memoization key holds the values of the merged inputs, transparent ones
 included, and the UUIDs of the submodules; it does not hold the inputs that are
 bound to the submodules.  A memoized run is right unless the key does not decide
 the result or a call with a valueless input cannot be looked up or stored.
 */
module Memoization {
  import opened Fields
  import opened ModuleGraph

  // ------------------------------------------------------------------- caches

  type Plain = map<AnyMap, ResultMap>

  type Caches<!C> = map<C, Plain>

  /** The caches, and for each the values that have a UUID in the table it uses.
      Caches that use one table are `together`; those that flush their results to
      a long-term store are `onDisk`. */
  datatype Memo<!C> = Memo(caches: Caches<C>, known: map<C, set<Any>>, together: set<(C, C)>, onDisk: set<C>)

  ghost function CacheOf<C>(memo: Memo<C>, c: C): Plain {
    if c in memo.caches then memo.caches[c] else map[]
  }

  ghost function KnownTo<C>(memo: Memo<C>, c: C): set<Any> {
    if c in memo.known then memo.known[c] else {}
  }

  ghost function TableUsers<C>(memo: Memo<C>, c: C): set<C> {
    {c} + set p | p in memo.together && p.0 == c :: p.1
  }

  /** The table of `c` gives UUIDs to `values`. */
  ghost function WithUuids<C>(memo: Memo<C>, c: C, values: set<Any>): (after: Memo<C>)
    ensures after.caches == memo.caches && values <= KnownTo(after, c) && KnownTo(memo, c) <= KnownTo(after, c)
  {
    var users := TableUsers(memo, c);
    memo.(known := map d | d in memo.known.Keys + users ::
                     if d in users then KnownTo(memo, d) + values else memo.known[d])
  }

  /** `cache`: the values of the key get their UUIDs. */
  ghost function Stored<C>(memo: Memo<C>, c: C, key: AnyMap, r: ResultMap): Memo<C> {
    WithUuids(memo, c, key.Values).(caches := memo.caches[c := CacheOf(memo, c)[key := r]])
  }

  /** `clear`: what is flushed is stored by the UUIDs of its values. */
  ghost function Cleared<C>(memo: Memo<C>, c: C): Memo<C> {
    var results := CacheOf(memo, c);
    var values := set key, n | key in results && n in results[key] :: results[key][n].value;
    var flushed := if c in memo.onDisk then WithUuids(memo, c, values) else memo;
    flushed.(caches := memo.caches[c := map[]])
  }

  // ----------------------------------------------------------- memoization key

  const SUBMOD_KEY: Name := Fold("__PLUGIN_PLAY__ SUBMOD KEYS __PLUGIN_PLAY__")

  lemma PrefixInjective(k: string, a: string, b: string)
    requires k + ":" + a == k + ":" + b
    ensures a == b
  {
    assert (k + ":" + a)[|k| + 1..] == a;
    assert (k + ":" + b)[|k| + 1..] == b;
  }

  /** Scopes a submodule's map under its key. */
  function Prefixed(k: string, sub: map<string, Uuid>): map<string, Uuid> {
    assert forall a, b :: k + ":" + a == k + ":" + b ==> a == b by {
      forall a, b | k + ":" + a == k + ":" + b
        ensures a == b
      {
        PrefixInjective(k, a, b);
      }
    }
    map a | a in sub :: k + ":" + a := sub[a]
  }

  /** `emplace` of every entry of `more`: what is there stays. */
  function Emplaced(m: map<string, Uuid>, more: map<string, Uuid>): map<string, Uuid> {
    more + m
  }

  ghost function SubmodUuidsOf<M, C>(w: Wiring<M, C>, m: M): map<string, Uuid>
    requires Acyclic(w) && m in w.g
    decreases w.rank[m], 1, 0
  {
    SubmodUuidsFrom(w, m, 0, map[])
  }

  /** The loop of `submod_uuids`; at a request without a module it throws, which
      `AllSet` excludes. */
  ghost function SubmodUuidsFrom<M, C>(w: Wiring<M, C>, m: M, i: nat, rv: map<string, Uuid>): map<string, Uuid>
    requires Acyclic(w) && m in w.g && i <= |w.g[m].submods|
    decreases w.rank[m], 0, |w.g[m].submods| - i
  {
    if i == |w.g[m].submods| then rv
    else
      assert HasRequest(w, m, i);
      SubmodUuidsFrom(w, m, i + 1, WithSubmod(w, m, i, rv))
  }

  ghost function WithSubmod<M, C>(w: Wiring<M, C>, m: M, i: nat, rv: map<string, Uuid>): map<string, Uuid>
    requires Acyclic(w) && m in w.g && HasRequest(w, m, i)
    decreases w.rank[m], 0, 0
  {
    if Req(w, m, i).target.None? then rv
    else
      var k, t := w.g[m].submods[i].0, Req(w, m, i).target.value;
      Emplaced(Emplaced(rv, Prefixed(k, SubmodUuidsOf(w, t))), map[k := w.g[t].base.uuid])
  }

  /** `merge_inputs_`: the caller's inputs, the bound ones where the caller has
      none, and the UUIDs unless that name is taken. */
  ghost function Merge<M, C>(w: Wiring<M, C>, m: M, ps: InputMap): Merged
    requires Acyclic(w) && m in w.g
  {
    var c := w.g[m];
    var merged := map n | n in ps.Keys + c.inputs.Keys :: if n in ps then Some(ps[n]) else c.inputs[n].field;
    if SUBMOD_KEY in merged then merged
    else merged[SUBMOD_KEY := Some(Field(SubmodUuids(SubmodUuidsOf(w, m)), DefaultMetadata))]
  }

  /** Every merged input has a value, as type erasure of the key needs. */
  predicate Complete(merged: Merged) {
    forall n :: n in merged ==> merged[n].Some?
  }

  function KeyOf(merged: Merged): AnyMap
    requires Complete(merged)
  {
    map n | n in merged :: merged[n].value.value
  }

  // ------------------------------------------------------------------- lookup

  /** The order of input maps: by character code of the folded names. */
  predicate Before(a: Name, b: Name) {
    b != "" && (a == "" || a[0] < b[0] || (a[0] == b[0] && Before(a[1..], b[1..])))
  }

  lemma {:induction false} BeforeIsTotal(a: Name, b: Name)
    ensures !Before(a, a) && (a != b ==> Before(a, b) || Before(b, a)) && !(Before(a, b) && Before(b, a))
    decreases |a| + |b|
  {
    if a != "" {
      BeforeIsTotal(a[1..], if b == "" then "" else b[1..]);
      assert a == [a[0]] + a[1..];
    }
    if b != "" {
      assert b == [b[0]] + b[1..];
    }
  }

  lemma {:induction false} BeforeIsTransitive(a: Name, b: Name, c: Name)
    requires Before(a, b) && Before(b, c)
    ensures Before(a, c)
  {
    if a != "" && a[0] == b[0] == c[0] {
      BeforeIsTransitive(a[1..], b[1..], c[1..]);
    }
  }

  /** Every set of names has a first one. */
  lemma {:induction false} FirstName(names: set<Name>) returns (n: Name)
    requires names != {}
    ensures n in names && forall k :: k in names ==> !Before(k, n)
    decreases names
  {
    n :| n in names;
    var earlier := set k | k in names && Before(k, n);
    if earlier != {} {
      BeforeIsTotal(n, n);
      assert n !in earlier;
      var first := FirstName(earlier);
      forall k | k in names
        ensures !Before(k, first)
      {
        if Before(k, first) {
          BeforeIsTransitive(k, first, n);
        }
      }
      n := first;
    } else {
      assert forall k :: k in names && Before(k, n) ==> k in earlier;
    }
  }

  /** A lookup asks for the UUIDs of the values in name order and ends at the
      first value that has none; if it meets an input without a value first, the
      program ends. */
  ghost predicate LookupFails(merged: Merged, known: set<Any>) {
    exists n :: n in merged && merged[n].None? && KnownBefore(merged, known, n)
  }

  ghost predicate KnownBefore(merged: Merged, known: set<Any>, n: Name) {
    forall k :: k in merged && Before(k, n) ==> merged[k].Some? && merged[k].value.value in known
  }

  ghost predicate Holds<C>(memo: Memo<C>, c: C, merged: Merged) {
    && Complete(merged) && KeyOf(merged).Values <= KnownTo(memo, c)
    && KeyOf(merged) in CacheOf(memo, c)
  }

  /** Only a missing value makes a lookup fail. */
  lemma CompleteLookup(merged: Merged, known: set<Any>)
    ensures LookupFails(merged, known) ==> !Complete(merged)
  {
  }

  // --------------------------------------------------------- what is memoized

  /** `is_memoizable` */
  ghost predicate Memoizable<M, C>(w: Wiring<M, C>, m: M)
    requires Acyclic(w) && m in w.g
    decreases w.rank[m]
  {
    && w.g[m].base.uuid != "" && w.g[m].memoizable
    && forall i :: HasRequest(w, m, i) && Req(w, m, i).target.Some? ==> Memoizable(w, Req(w, m, i).target.value)
  }

  /** `is_memoizable` meets no request without a module. */
  ghost predicate CanAsk<M, C>(w: Wiring<M, C>, m: M)
    requires Acyclic(w) && m in w.g
    decreases w.rank[m]
  {
    w.g[m].base.uuid != "" ==>
      forall i :: HasRequest(w, m, i) ==> Req(w, m, i).target.Some? && CanAsk(w, Req(w, m, i).target.value)
  }

  /** Every request is set, all the way down. */
  ghost predicate AllSet<M, C>(w: Wiring<M, C>, m: M)
    requires Acyclic(w) && m in w.g
    decreases w.rank[m]
  {
    forall i :: HasRequest(w, m, i) ==> Req(w, m, i).target.Some? && AllSet(w, Req(w, m, i).target.value)
  }

  lemma {:induction false} ReadyIsAllSet<M, C>(w: Wiring<M, C>, m: M, supplied: set<Name>)
    requires Acyclic(w) && m in w.g && Ready(w, m, supplied)
    ensures AllSet(w, m) && CanAsk(w, m)
    decreases w.rank[m]
  {
    forall i | HasRequest(w, m, i)
      ensures AllSet(w, Req(w, m, i).target.value) && CanAsk(w, Req(w, m, i).target.value)
    {
      ReadyIsAllSet(w, Req(w, m, i).target.value, Req(w, m, i).provided);
    }
  }

  ghost predicate Memoizes<M, C>(w: Wiring<M, C>, m: M)
    requires Acyclic(w) && m in w.g
  {
    Memoizable(w, m) && w.g[m].cache.Some?
  }

  // ------------------------------------------------------- runs without caches

  ghost function Eval<M, C>(w: Wiring<M, C>, m: M, ps: InputMap): Outcome
    requires Acyclic(w) && m in w.g
    decreases w.rank[m], 1, 0
  {
    if Ready(w, m, ps.Keys) then EvalAlgorithm(w, m, Merge(w, m, ps), []) else Threw
  }

  ghost function EvalAlgorithm<M, C>(w: Wiring<M, C>, m: M, merged: Merged, calls: seq<Outcome>): Outcome
    requires Acyclic(w) && m in w.g
    decreases w.rank[m], 0, w.g[m].base.algorithm.fuel(merged, calls)
  {
    var a := w.g[m].base.algorithm;
    match a.next(merged, calls)
    case Return(r) => Returned(r)
    case Throw => Threw
    case Call(k, q) =>
      var i := IndexOf(w.g[m].submods, k);
      var o := if HasRequest(w, m, i) && Req(w, m, i).target.Some?
               then Eval(w, Req(w, m, i).target.value, q) else Threw;
      EvalAlgorithm(w, m, merged, calls + [o])
  }

  // ---------------------------------------------------------- runs with caches

  /** `ModulePIMPL::run` once the module and its submodules are locked. */
  ghost function Run<M, C>(w: Wiring<M, C>, m: M, ps: InputMap, memo: Memo<C>): (Outcome, Memo<C>)
    requires Acyclic(w) && m in w.g
    decreases w.rank[m], 1, 0
  {
    if !Ready(w, m, ps.Keys) then (Threw, memo)
    else
      var merged := Merge(w, m, ps);
      if !Memoizes(w, m) then RunAlgorithm(w, m, merged, [], memo)
      else
        var c := w.g[m].cache.value;
        if LookupFails(merged, KnownTo(memo, c)) then (Aborted, memo)
        else if Holds(memo, c, merged) then (Returned(CacheOf(memo, c)[KeyOf(merged)]), memo)
        else
          var (o, after) := RunAlgorithm(w, m, merged, [], memo);
          if !o.Returned? then (o, after)
          else if !Complete(merged) then (Aborted, after)
          else (o, Stored(after, c, KeyOf(merged), o.results))
  }

  ghost function RunAlgorithm<M, C>(w: Wiring<M, C>, m: M, merged: Merged, calls: seq<Outcome>, memo: Memo<C>)
    : (Outcome, Memo<C>)
    requires Acyclic(w) && m in w.g
    decreases w.rank[m], 0, w.g[m].base.algorithm.fuel(merged, calls)
  {
    var a := w.g[m].base.algorithm;
    match a.next(merged, calls)
    case Return(r) => (Returned(r), memo)
    case Throw => (Threw, memo)
    case Call(k, q) =>
      var i := IndexOf(w.g[m].submods, k);
      if HasRequest(w, m, i) && Req(w, m, i).target.Some? then
        var (o, after) := Run(w, Req(w, m, i).target.value, q, memo);
        if o.Aborted? then (Aborted, after)
        else RunAlgorithm(w, m, merged, calls + [o], after)
      else
        RunAlgorithm(w, m, merged, calls + [Threw], memo)
  }

  /** What runs one after another leave. */
  ghost function Replay<M, C>(w: Wiring<M, C>, calls: seq<(M, InputMap)>, memo: Memo<C>): Memo<C>
    requires Acyclic(w) && forall x :: x in calls ==> x.0 in w.g
  {
    if calls == [] then memo else Replay(w, calls[1..], Run(w, calls[0].0, calls[0].1, memo).1)
  }

  // ---------------------------------------------------------------- soundness

  /** The call looks up or stores a key in which an input has no value. */
  ghost predicate Fatal<M, C>(w: Wiring<M, C>, memo: Memo<C>, m: M, ps: InputMap)
    requires Acyclic(w)
  {
    && m in w.g && Memoizes(w, m) && Ready(w, m, ps.Keys) && !Complete(Merge(w, m, ps))
    && (Eval(w, m, ps).Returned? || LookupFails(Merge(w, m, ps), KnownTo(memo, w.g[m].cache.value)))
  }

  /** Submodules of modules in `part` are in `part`. */
  ghost predicate Closed<M, C>(w: Wiring<M, C>, part: set<M>) {
    && part <= w.g.Keys
    && forall m, i :: m in part && HasRequest(w, m, i) && Req(w, m, i).target.Some? ==>
         Req(w, m, i).target.value in part
  }

  /** Results that may be in the caches: what a call can find is what it
      computes, and what it can store is such a result again. */
  ghost predicate Fits<M, C>(w: Wiring<M, C>, m: M, ps: InputMap, good: (C, AnyMap, ResultMap) -> bool)
    requires Acyclic(w) && m in w.g
  {
    Memoizes(w, m) && Ready(w, m, ps.Keys) && Complete(Merge(w, m, ps)) ==>
      var c, key := w.g[m].cache.value, KeyOf(Merge(w, m, ps));
      && (forall r :: good(c, key, r) ==> Eval(w, m, ps) == Returned(r))
      && (Eval(w, m, ps).Returned? ==> good(c, key, Eval(w, m, ps).results))
  }

  ghost predicate AllFit<M, C>(w: Wiring<M, C>, part: set<M>, good: (C, AnyMap, ResultMap) -> bool)
    requires Acyclic(w) && part <= w.g.Keys
  {
    forall m, ps :: m in part ==> Fits(w, m, ps, good)
  }

  ghost predicate AllGood<C>(caches: Caches<C>, good: (C, AnyMap, ResultMap) -> bool) {
    forall c, key :: c in caches && key in caches[c] ==> good(c, key, caches[c][key])
  }

  lemma {:induction false} EvalDoesNotAbort<M, C>(w: Wiring<M, C>, m: M, merged: Merged, calls: seq<Outcome>)
    requires Acyclic(w) && m in w.g
    ensures !EvalAlgorithm(w, m, merged, calls).Aborted?
    decreases w.g[m].base.algorithm.fuel(merged, calls)
  {
    match w.g[m].base.algorithm.next(merged, calls)
    case Return(_) =>
    case Throw =>
    case Call(k, q) =>
      var i := IndexOf(w.g[m].submods, k);
      var o := if HasRequest(w, m, i) && Req(w, m, i).target.Some?
               then Eval(w, Req(w, m, i).target.value, q) else Threw;
      EvalDoesNotAbort(w, m, merged, calls + [o]);
  }

  lemma PlainRunsDoNotAbort<M, C>(w: Wiring<M, C>, m: M, ps: InputMap)
    requires Acyclic(w) && m in w.g
    ensures !Eval(w, m, ps).Aborted?
  {
    EvalDoesNotAbort(w, m, Merge(w, m, ps), []);
  }

  /** A run from good results leaves good results, and it returns what the
      algorithms return without any cache; or else it ends the program at the
      fatal call `bad`, which it reaches by the calls `trace`. */
  ghost predicate RightOrFatal<M, C>(w: Wiring<M, C>, part: set<M>, memo: Memo<C>, run: (Outcome, Memo<C>),
                                     plain: Outcome, good: (C, AnyMap, ResultMap) -> bool,
                                     trace: seq<(M, InputMap)>, bad: (M, InputMap))
    requires Acyclic(w)
  {
    && AllGood(run.1.caches, good)
    && (|| run.0 == plain
        || (run.0.Aborted? && FatalAfter(w, part, memo, trace, bad)))
  }

  ghost predicate FatalAfter<M, C>(w: Wiring<M, C>, part: set<M>, memo: Memo<C>,
                                   trace: seq<(M, InputMap)>, bad: (M, InputMap))
    requires Acyclic(w)
  {
    && part <= w.g.Keys && (forall x :: x in trace ==> x.0 in part) && bad.0 in part
    && Fatal(w, Replay(w, trace, memo), bad.0, bad.1)
  }

  lemma {:induction false} RunKeepsGood<M, C>(w: Wiring<M, C>, part: set<M>, good: (C, AnyMap, ResultMap) -> bool,
                                            m: M, ps: InputMap, memo: Memo<C>)
    returns (trace: seq<(M, InputMap)>, bad: (M, InputMap))
    requires Acyclic(w) && Closed(w, part) && AllFit(w, part, good) && m in part && AllGood(memo.caches, good)
    ensures RightOrFatal(w, part, memo, Run(w, m, ps, memo), Eval(w, m, ps), good, trace, bad)
    decreases w.rank[m], 1, 0
  {
    trace, bad := [], (m, ps);
    if Ready(w, m, ps.Keys) {
      trace, bad := AlgorithmKeepsGood(w, part, good, m, Merge(w, m, ps), [], memo);
      if Memoizes(w, m) {
        assert Fits(w, m, ps, good);
        trace, bad := MemoizedKeepsGood(w, part, good, m, ps, memo, trace, bad);
      }
    }
  }

  /** The memoized part of a run: what comes before the algorithm and after it. */
  lemma MemoizedKeepsGood<M, C>(w: Wiring<M, C>, part: set<M>, good: (C, AnyMap, ResultMap) -> bool, m: M, ps: InputMap,
                                memo: Memo<C>, trace: seq<(M, InputMap)>, bad: (M, InputMap))
    returns (trace': seq<(M, InputMap)>, bad': (M, InputMap))
    requires Acyclic(w) && part <= w.g.Keys && m in part && AllGood(memo.caches, good)
    requires Ready(w, m, ps.Keys) && Memoizes(w, m) && Fits(w, m, ps, good)
    requires RightOrFatal(w, part, memo, RunAlgorithm(w, m, Merge(w, m, ps), [], memo), Eval(w, m, ps), good,
                          trace, bad)
    ensures RightOrFatal(w, part, memo, Run(w, m, ps, memo), Eval(w, m, ps), good, trace', bad')
  {
    hide Ready, Memoizable, Merge, RunAlgorithm, Eval, Acyclic, WithUuids, KeyOf, FatalAfter;
    var merged, c := Merge(w, m, ps), w.g[m].cache.value;
    var (o, after) := RunAlgorithm(w, m, merged, [], memo);
    if LookupFails(merged, KnownTo(memo, c)) || (!Complete(merged) && o.Returned?) {
      trace', bad' := [], (m, ps);
      FatalNow(w, part, memo, m, ps);
    } else {
      trace', bad' := trace, bad;
    }
  }

  lemma FatalNow<M, C>(w: Wiring<M, C>, part: set<M>, memo: Memo<C>, m: M, ps: InputMap)
    requires Acyclic(w) && part <= w.g.Keys && m in part && Ready(w, m, ps.Keys) && Memoizes(w, m)
    requires || LookupFails(Merge(w, m, ps), KnownTo(memo, w.g[m].cache.value))
             || (!Complete(Merge(w, m, ps)) && Eval(w, m, ps).Returned?)
    ensures FatalAfter(w, part, memo, [], (m, ps))
  {
    hide Ready, Memoizable, Merge, Eval, Acyclic, KnownTo;
    assert Replay(w, [], memo) == memo;
  }

  lemma {:induction false} AlgorithmKeepsGood<M, C>(w: Wiring<M, C>, part: set<M>,
                                                  good: (C, AnyMap, ResultMap) -> bool,
                                                  m: M, merged: Merged, calls: seq<Outcome>, memo: Memo<C>)
    returns (trace: seq<(M, InputMap)>, bad: (M, InputMap))
    requires Acyclic(w) && Closed(w, part) && AllFit(w, part, good) && m in part && AllGood(memo.caches, good)
    ensures RightOrFatal(w, part, memo, RunAlgorithm(w, m, merged, calls, memo),
                         EvalAlgorithm(w, m, merged, calls), good, trace, bad)
    decreases w.rank[m], 0, w.g[m].base.algorithm.fuel(merged, calls)
  {
    trace, bad := [], (m, map[]);
    match w.g[m].base.algorithm.next(merged, calls)
    case Return(_) =>
    case Throw =>
    case Call(k, q) =>
      var i := IndexOf(w.g[m].submods, k);
      if HasRequest(w, m, i) && Req(w, m, i).target.Some? {
        var t := Req(w, m, i).target.value;
        trace, bad := RunKeepsGood(w, part, good, t, q, memo);
        PlainRunsDoNotAbort(w, t, q);
        var (o, after) := Run(w, t, q, memo);
        if !o.Aborted? {
          var rest, end := AlgorithmKeepsGood(w, part, good, m, merged, calls + [o], after);
          trace, bad := [(t, q)] + rest, end;
          assert trace[1..] == rest;
        }
      } else {
        trace, bad := AlgorithmKeepsGood(w, part, good, m, merged, calls + [Threw], memo);
      }
  }

  /** What has been stored under a key is held under it. */
  lemma StoredIsHeld<C>(memo: Memo<C>, c: C, merged: Merged, r: ResultMap)
    requires Complete(merged)
    ensures var after := Stored(memo, c, KeyOf(merged), r);
            Holds(after, c, merged) && CacheOf(after, c)[KeyOf(merged)] == r
  {
  }

  /** Storing touches one entry of one cache, and gives UUIDs to the values of the key
      in the table that this cache uses and in no other. */
  lemma StoreTouchesOneEntry<C>(memo: Memo<C>, c: C, key: AnyMap, r: ResultMap, d: C, k: AnyMap)
    ensures var after := Stored(memo, c, key, r);
            && (d != c || k != key ==>
                  (k in CacheOf(after, d) <==> k in CacheOf(memo, d))
                  && (k in CacheOf(memo, d) ==> CacheOf(after, d)[k] == CacheOf(memo, d)[k]))
            && KnownTo(after, d) == KnownTo(memo, d) + if d in TableUsers(memo, c) then key.Values else {}
  {
  }

  /** A cleared cache holds nothing, whatever is looked up; the others hold what they
      held.  Values of flushed results get UUIDs, those of others do not. */
  lemma ClearForgets<C>(memo: Memo<C>, c: C, d: C, merged: Merged)
    ensures var after := Cleared(memo, c);
            && !Holds(after, c, merged) && (d != c ==> CacheOf(after, d) == CacheOf(memo, d))
            && (forall key, n :: c in memo.onDisk && key in CacheOf(memo, c) && n in CacheOf(memo, c)[key] ==>
                  CacheOf(memo, c)[key][n].value in KnownTo(after, c))
            && (c !in memo.onDisk || d !in TableUsers(memo, c) ==> KnownTo(after, d) == KnownTo(memo, d))
  {
  }

  // ------------------------------------------- wirings that follow each other

  /** All the wirings that occur in a history of runs and reconfigurations. */
  type Wirings<M, C> = seq<Wiring<M, C>>

  ghost predicate AllAcyclic<M, C>(ws: Wirings<M, C>) {
    forall j :: 0 <= j < |ws| ==> Acyclic(ws[j])
  }

  /** The call `ps` of `m` in the `j`-th wiring consults a cache. */
  ghost predicate Consults<M, C>(ws: Wirings<M, C>, j: int, m: M, ps: InputMap)
    requires AllAcyclic(ws)
  {
    && 0 <= j < |ws| && m in ws[j].g && Memoizes(ws[j], m)
    && Ready(ws[j], m, ps.Keys) && Complete(Merge(ws[j], m, ps))
  }

  ghost function Slot<M, C>(ws: Wirings<M, C>, j: int, m: M, ps: InputMap): (C, AnyMap)
    requires AllAcyclic(ws) && Consults(ws, j, m, ps)
  {
    (ws[j].g[m].cache.value, KeyOf(Merge(ws[j], m, ps)))
  }

  /** The key decides the result: of two calls with the same cache and key, if
      one computes a result the other computes the same. */
  ghost predicate KeysDetermine<M, C>(ws: Wirings<M, C>)
    requires AllAcyclic(ws)
  {
    forall j1, m1, ps1, j2, m2, ps2 ::
      (&& 0 <= j1 < |ws| && m1 in ws[j1].g && 0 <= j2 < |ws| && m2 in ws[j2].g
       && Consults(ws, j1, m1, ps1) && Consults(ws, j2, m2, ps2)
       && Slot(ws, j1, m1, ps1) == Slot(ws, j2, m2, ps2)
       && Eval(ws[j1], m1, ps1).Returned?)
      ==> Eval(ws[j2], m2, ps2) == Eval(ws[j1], m1, ps1)
  }

  /** What is cached is what each call that would find it computes. */
  ghost predicate Coherent<M, C>(ws: Wirings<M, C>, caches: Caches<C>)
    requires AllAcyclic(ws)
  {
    forall c, key :: c in caches && key in caches[c] ==> IsComputed(ws, c, key, caches[c][key])
  }

  ghost predicate IsComputed<M, C>(ws: Wirings<M, C>, c: C, key: AnyMap, r: ResultMap)
    requires AllAcyclic(ws)
  {
    forall j, m, ps :: 0 <= j < |ws| && m in ws[j].g && Consults(ws, j, m, ps) && Slot(ws, j, m, ps) == (c, key)
      ==> Eval(ws[j], m, ps) == Returned(r)
  }

  /** If keys decide results, a run from coherent caches returns what the
      algorithms return without any cache, unless it ends at a fatal call, and
      the caches it leaves are coherent again. */
  lemma RunIsSound<M, C>(ws: Wirings<M, C>, j: int, m: M, ps: InputMap, memo: Memo<C>)
    returns (trace: seq<(M, InputMap)>, bad: (M, InputMap))
    requires AllAcyclic(ws) && KeysDetermine(ws) && Coherent(ws, memo.caches) && 0 <= j < |ws| && m in ws[j].g
    ensures var (o, after) := Run(ws[j], m, ps, memo);
            && Coherent(ws, after.caches)
            && (o == Eval(ws[j], m, ps) || (o.Aborted? && FatalAfter(ws[j], ws[j].g.Keys, memo, trace, bad)))
  {
    var w, good := ws[j], (c, key, r) => IsComputed(ws, c, key, r);
    forall x, qs | x in w.g
      ensures Fits(w, x, qs, good)
    {
      CoherentFits(ws, j, x, qs, good);
    }
    hide Fits, Run, Eval, FatalAfter, IsComputed, KeysDetermine, Consults;
    trace, bad := RunKeepsGood(w, w.g.Keys, good, m, ps, memo);
  }

  lemma CoherentFits<M, C>(ws: Wirings<M, C>, j: int, m: M, ps: InputMap, good: (C, AnyMap, ResultMap) -> bool)
    requires AllAcyclic(ws) && KeysDetermine(ws) && 0 <= j < |ws| && m in ws[j].g
    requires forall c, key, r :: good(c, key, r) <==> IsComputed(ws, c, key, r)
    ensures Fits(ws[j], m, ps, good)
  {
    hide Ready, Memoizable, Merge, Eval, KeyOf;
    if Memoizes(ws[j], m) && Ready(ws[j], m, ps.Keys) && Complete(Merge(ws[j], m, ps)) {
      assert Consults(ws, j, m, ps);
    }
  }
}
