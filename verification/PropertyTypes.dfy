/**
 Property types: the fields of an API, and the positional binding of arguments to
 a module's inputs and back.

 A field tuple compares keys exactly, but the map it is wrapped into ignores case,
 so two fields of one tuple may share a slot.
 */
module PropertyTypes {
  import opened Fields

  type Type(==,0,!new)

  datatype Value = Value(type_: Type, object_: Object)

  /** A ModuleInput or ModuleResult: its type, its bounds checks, its value. */
  datatype Slot = Slot(type_: Type, check: Object -> bool, value: Option<Value>) {
    /** `change` takes `v`. */
    predicate Accepts(v: Value) {
      v.type_ == type_ && check(v.object_)
    }
  }

  /** A map that ignores case, keyed by folded names. */
  type Slots = map<Name, Slot>

  // -------------------------------------------------------------- field tuples

  datatype FieldDecl = FieldDecl(key: string, type_: Type, default_: Option<Object>)

  type FieldTuple = seq<FieldDecl>

  ghost predicate Distinct(fields: FieldTuple) {
    forall i, j :: 0 <= i < j < |fields| ==> fields[i].key != fields[j].key
  }

  method Count(fields: FieldTuple, key: string) returns (n: nat)
    ensures n == if exists i :: 0 <= i < |fields| && fields[i].key == key then 1 else 0
  {
    var i := 0;
    while i < |fields|
      invariant 0 <= i <= |fields|
      invariant forall j :: 0 <= j < i ==> fields[j].key != key
    {
      if fields[i].key == key {
        return 1;
      }
      i := i + 1;
    }
    n := 0;
  }

  /** `position_`: the index of a key, or None for the exception. */
  method Position(fields: FieldTuple, key: string) returns (p: Option<nat>)
    ensures p.Some? ==> p.value < |fields| && fields[p.value].key == key
    ensures p.None? ==> forall i :: 0 <= i < |fields| ==> fields[i].key != key
    ensures p.Some? && Distinct(fields) ==> forall i :: 0 <= i < |fields| && fields[i].key == key ==> i == p.value
  {
    var i := 0;
    while i < |fields|
      invariant 0 <= i <= |fields|
      invariant forall j :: 0 <= j < i ==> fields[j].key != key
    {
      if fields[i].key == key {
        return Some(i);
      }
      i := i + 1;
    }
    p := None;
  }

  /** `add_field`: one more field at the end, or None for the exception. */
  method AddField(fields: FieldTuple, key: string, t: Type, default_: Option<Object>) returns (r: Option<FieldTuple>)
    ensures r == Added(fields, FieldDecl(key, t, default_))
  {
    var n := Count(fields, key);
    if n == 1 {
      return None;
    }
    var elem := FieldDecl(key, t, None);
    var temp := new FieldDecl[|fields| + 1](_ => elem);
    var i := 0;
    while i < |fields|
      invariant 0 <= i <= |fields| && temp[|fields|] == elem
      invariant temp[..i] == fields[..i]
    {
      temp[i] := fields[i];
      i := i + 1;
    }
    temp[|fields|] := elem;
    if default_.Some? {
      temp[|fields|] := temp[|fields|].(default_ := default_);
    }
    assert temp[..|fields|] == fields;
    assert temp[..] == fields + [FieldDecl(key, t, default_)];
    r := Some(temp[..]);
  }

  ghost function Added(fields: FieldTuple, f: FieldDecl): Option<FieldTuple> {
    if exists i :: 0 <= i < |fields| && fields[i].key == f.key then None else Some(fields + [f])
  }

  /** `union_guts`: adds the fields of `rhs` from the `depth`-th on. */
  method UnionGuts(lhs: FieldTuple, rhs: FieldTuple, depth: nat) returns (r: Option<FieldTuple>)
    requires depth <= |rhs|
    ensures Distinct(lhs) ==>
              r == if Distinct(lhs + rhs[depth..]) then Some(lhs + rhs[depth..]) else None
    decreases |rhs| - depth
  {
    if |rhs| == depth {
      assert lhs + rhs[depth..] == lhs;
      return Some(lhs);
    }
    var rv := AddField(lhs, rhs[depth].key, rhs[depth].type_, rhs[depth].default_);
    assert lhs + rhs[depth..] == lhs + [rhs[depth]] + rhs[depth + 1..];
    ClashStays(lhs, rhs[depth], rhs[depth + 1..]);
    if rv.None? {
      return None;
    }
    r := UnionGuts(rv.value, rhs, depth + 1);
  }

  lemma ClashStays(lhs: FieldTuple, f: FieldDecl, rest: FieldTuple)
    ensures Added(lhs, f).None? ==> !Distinct(lhs + [f] + rest)
    ensures Added(lhs, f).Some? && Distinct(lhs) ==> Distinct(lhs + [f])
  {
    var all := lhs + [f] + rest;
    if Added(lhs, f).None? {
      var i :| 0 <= i < |lhs| && lhs[i].key == f.key;
      assert all[i] == lhs[i] && all[|lhs|] == f;
    }
  }

  /** The own fields of a property type and of each type it derives from. */
  function Concat(chain: seq<FieldTuple>): FieldTuple {
    if chain == [] then [] else chain[0] + Concat(chain[1..])
  }

  lemma {:induction false} PartsDistinct(a: FieldTuple, b: FieldTuple)
    requires Distinct(a + b)
    ensures Distinct(a) && Distinct(b)
  {
    forall i, j | 0 <= i < j < |b|
      ensures b[i].key != b[j].key
    {
      assert (a + b)[|a| + i] == b[i] && (a + b)[|a| + j] == b[j];
    }
    forall i, j | 0 <= i < j < |a|
      ensures a[i].key != a[j].key
    {
      assert (a + b)[i] == a[i] && (a + b)[j] == a[j];
    }
  }

  /** How many fields the first `i` types of a chain have. */
  function Offset(chain: seq<FieldTuple>, i: nat): nat
    requires i <= |chain|
  {
    if i == 0 then 0 else Offset(chain, i - 1) + |chain[i - 1]|
  }

  /** `all` has the fields of the chain in order: the `j`-th field of the `i`-th
      type comes after all fields of the types before it. */
  ghost predicate InOrder(chain: seq<FieldTuple>, all: FieldTuple) {
    && |all| == Offset(chain, |chain|)
    && forall i, j :: 0 <= i < |chain| && 0 <= j < |chain[i]| ==> FieldAt(chain, all, i, j)
  }

  ghost predicate FieldAt(chain: seq<FieldTuple>, all: FieldTuple, i: nat, j: nat)
    requires i < |chain| && j < |chain[i]|
  {
    Offset(chain, i) + j < |all| && all[Offset(chain, i) + j] == chain[i][j]
  }

  lemma {:induction false} OffsetOfRest(chain: seq<FieldTuple>, i: nat)
    requires 0 < i <= |chain|
    ensures Offset(chain, i) == |chain[0]| + Offset(chain[1..], i - 1)
  {
    if i > 1 {
      OffsetOfRest(chain, i - 1);
    }
  }

  lemma {:induction false} ConcatLength(chain: seq<FieldTuple>)
    ensures |Concat(chain)| == Offset(chain, |chain|)
  {
    if chain != [] {
      ConcatLength(chain[1..]);
      OffsetOfRest(chain, |chain|);
    }
  }

  lemma {:induction false} ConcatAt(chain: seq<FieldTuple>, i: nat, j: nat)
    requires i < |chain| && j < |chain[i]|
    ensures FieldAt(chain, Concat(chain), i, j)
    decreases |chain|
  {
    if i > 0 {
      ConcatAt(chain[1..], i - 1, j);
      OffsetOfRest(chain, i);
    }
  }

  lemma ConcatInOrder(chain: seq<FieldTuple>)
    ensures InOrder(chain, Concat(chain))
  {
    ConcatLength(chain);
    forall i, j | 0 <= i < |chain| && 0 <= j < |chain[i]|
      ensures FieldAt(chain, Concat(chain), i, j)
    {
      ConcatAt(chain, i, j);
    }
  }

  /** `inputs()` of a derived type: its own fields, then those of its base and so
      on; an exception exactly when some key occurs twice in the chain. */
  method Inputs(chain: seq<FieldTuple>) returns (r: Option<FieldTuple>)
    requires chain != [] && forall i :: 0 <= i < |chain| ==> Distinct(chain[i])
    ensures r == if Distinct(Concat(chain)) then Some(Concat(chain)) else None
    ensures r.Some? ==> InOrder(chain, r.value)
    decreases |chain|
  {
    ConcatInOrder(chain);
    hide InOrder;
    if |chain| == 1 {
      assert Concat(chain) == chain[0] + Concat(chain[1..]) && chain[1..] == [];
      assert chain[0] + [] == chain[0];
      return Some(chain[0]);
    }
    var base := Inputs(chain[1..]);
    if Distinct(Concat(chain)) {
      PartsDistinct(chain[0], Concat(chain[1..]));
    }
    if base.None? {
      return None;
    }
    assert base.value[0..] == base.value;
    r := UnionGuts(chain[0], base.value, 0);
  }

  // ----------------------------------------------------------------- wrapping

  datatype Status = Done | WrongCount | NoSuchKey | BadValue

  ghost predicate Fits(rv: Slots, fields: FieldTuple, args: seq<Object>, i: int)
    requires 0 <= i < |args| <= |fields|
  {
    && Fold(fields[i].key) in rv
    && rv[Fold(fields[i].key)].Accepts(Value(fields[i].type_, args[i]))
  }

  /** The last of the first `n` fields that goes by the folded name `k`. */
  function LastNamed(fields: FieldTuple, k: Name, n: nat): (i: Option<nat>)
    requires n <= |fields|
    ensures i.Some? ==> i.value < n && Fold(fields[i.value].key) == k
    ensures forall j :: (if i.Some? then i.value < j < n else 0 <= j < n) ==> Fold(fields[j].key) != k
  {
    if n == 0 then None
    else if Fold(fields[n - 1].key) == k then Some(n - 1)
    else LastNamed(fields, k, n - 1)
  }

  /** `rv` with the first `n` arguments bound: a slot that several of them go to
      has the last one, and all other slots are as before. */
  ghost function Bound(rv: Slots, fields: FieldTuple, args: seq<Object>, n: nat): (out: Slots)
    requires n <= |args| <= |fields|
    ensures out.Keys == rv.Keys
  {
    map k | k in rv ::
      var i := LastNamed(fields, k, n);
      if i.None? then rv[k] else rv[k].(value := Some(Value(fields[i.value].type_, args[i.value])))
  }

  /** How many arguments are bound before one does not fit. */
  ghost function Stop(rv: Slots, fields: FieldTuple, args: seq<Object>, i: nat): (n: nat)
    requires i <= |args| <= |fields|
    ensures i <= n <= |args|
    ensures forall j :: i <= j < n ==> Fits(rv, fields, args, j)
    ensures n < |args| ==> !Fits(rv, fields, args, n)
    decreases |args| - i
  {
    if i < |args| && Fits(rv, fields, args, i) then Stop(rv, fields, args, i + 1) else i
  }

  /** The fields that arguments go to are the first ones, whatever follows. */
  lemma BoundToFirst(rv: Slots, own: FieldTuple, rest: FieldTuple, args: seq<Object>)
    requires |args| <= |own|
    ensures Bound(rv, own + rest, args, |args|) == Bound(rv, own, args, |args|)
  {
    hide Fold;
    forall k | k in rv
      ensures LastNamed(own + rest, k, |args|) == LastNamed(own, k, |args|)
    {
      SameNamed(own, own + rest, k, |args|);
    }
  }

  lemma {:induction false} SameNamed(a: FieldTuple, b: FieldTuple, k: Name, n: nat)
    requires n <= |a| && n <= |b| && a[..n] == b[..n]
    ensures LastNamed(a, k, n) == LastNamed(b, k, n)
  {
    if n > 0 {
      assert a[n - 1] == a[..n][n - 1] == b[..n][n - 1] == b[n - 1];
      assert a[..n - 1] == a[..n][..n - 1] && b[..n - 1] == b[..n][..n - 1];
      SameNamed(a, b, k, n - 1);
    }
  }

  /** Arguments wrapped along a chain go to the derived type's own fields first, as
      if it had no base. */
  lemma WrapOwnFirst(rv: Slots, chain: seq<FieldTuple>, all: FieldTuple, args: seq<Object>)
    requires chain != [] && InOrder(chain, all) && |args| <= |chain[0]|
    ensures |args| <= |all| && Bound(rv, all, args, |args|) == Bound(rv, chain[0], args, |args|)
  {
    var own := chain[0];
    OffsetGrows(chain, 1);
    assert Offset(chain, 0) == 0 && Offset(chain, 1) == |own|;
    forall j | 0 <= j < |own|
      ensures all[j] == own[j]
    {
      assert FieldAt(chain, all, 0, j);
    }
    assert all == own + all[|own|..] by {
      assert all[..|own|] == own;
    }
    BoundToFirst(rv, own, all[|own|..], args);
  }

  lemma {:induction false} OffsetGrows(chain: seq<FieldTuple>, i: nat)
    requires i <= |chain|
    ensures Offset(chain, i) <= Offset(chain, |chain|)
    decreases |chain| - i
  {
    if i < |chain| {
      OffsetGrows(chain, i + 1);
    }
  }

  /** Any argument that fits goes to the field of its position: the `j`-th field of
      the `i`-th type gets the argument after those of all the types before, if
      names differ ignoring case. */
  lemma ArgumentOfField(rv: Slots, chain: seq<FieldTuple>, all: FieldTuple, args: seq<Object>, i: nat, j: nat)
    requires InOrder(chain, all) && |args| <= |all| && DistinctNames(all)
    requires i < |chain| && j < |chain[i]| && Offset(chain, i) + j < |args| && Fold(chain[i][j].key) in rv
    ensures Bound(rv, all, args, |args|)[Fold(chain[i][j].key)].value
            == Some(Value(chain[i][j].type_, args[Offset(chain, i) + j]))
  {
    var p := Offset(chain, i) + j;
    assert FieldAt(chain, all, i, j);
    var last := LastNamed(all, Fold(all[p].key), |args|);
    assert last == Some(p);
  }

  class SlotMap {
    var slots: Slots

    constructor (slots: Slots)
      ensures this.slots == slots
    {
      this.slots := slots;
    }
  }

  lemma BindOne(rv: Slots, fields: FieldTuple, args: seq<Object>, i: nat)
    requires i < |args| <= |fields|
    ensures Fits(Bound(rv, fields, args, i), fields, args, i) <==> Fits(rv, fields, args, i)
    ensures Fits(rv, fields, args, i) ==>
              var k, b := Fold(fields[i].key), Bound(rv, fields, args, i);
              Bound(rv, fields, args, i + 1) == b[k := b[k].(value := Some(Value(fields[i].type_, args[i])))]
  {
  }

  /** `wrap_guts_`: binds the arguments from the `i`-th on, in place. */
  method WrapGuts(rv: SlotMap, fields: FieldTuple, args: seq<Object>, i: nat, ghost was: Slots) returns (s: Status)
    requires i <= |args| <= |fields| && rv.slots == Bound(was, fields, args, i)
    modifies rv
    ensures rv.slots == Bound(was, fields, args, Stop(was, fields, args, i))
    ensures s == Done <==> Stop(was, fields, args, i) == |args|
    ensures s != Done ==> s == if Fold(fields[Stop(was, fields, args, i)].key) in was then BadValue else NoSuchKey
    decreases |args| - i
  {
    hide Bound;
    if i == |args| {
      return Done;
    }
    BindOne(was, fields, args, i);
    var key := Fold(fields[i].key);
    if key !in rv.slots {
      return NoSuchKey;
    }
    var v := Value(fields[i].type_, args[i]);
    if !rv.slots[key].Accepts(v) {
      return BadValue;
    }
    rv.slots := rv.slots[key := rv.slots[key].(value := Some(v))];
    s := WrapGuts(rv, fields, args, i + 1, was);
  }

  /** `wrap_`: the first arguments that fit are bound, in place, up to the first
      one that does not; it throws exactly then. */
  method Wrap(rv: SlotMap, fields: FieldTuple, args: seq<Object>) returns (s: Status)
    requires |args| <= |fields|
    modifies rv
    ensures rv.slots == Bound(old(rv.slots), fields, args, Stop(old(rv.slots), fields, args, 0))
    ensures s == Done <==> forall i :: 0 <= i < |args| ==> Fits(old(rv.slots), fields, args, i)
    ensures s == NoSuchKey ==> exists i :: 0 <= i < |args| && Fold(fields[i].key) !in old(rv.slots)
  {
    ghost var was := rv.slots;
    assert Bound(was, fields, args, 0) == was;
    if |args| > 0 {
      s := WrapGuts(rv, fields, args, 0, was);
    } else {
      s := Done;
    }
  }

  // --------------------------------------------------------------- unwrapping

  ghost predicate Holds(rv: Slots, f: FieldDecl) {
    var k := Fold(f.key);
    k in rv && rv[k].value.Some? && rv[k].value.value.type_ == f.type_
  }

  /** `unwrap_guts_`: the values of the fields from the `i`-th on, in order; None
      when one is missing, unset or of another type. */
  function UnwrapGuts(fields: FieldTuple, rv: Slots, i: nat): (xs: Option<seq<Object>>)
    requires i <= |fields|
    ensures xs.Some? <==> forall j :: i <= j < |fields| ==> Holds(rv, fields[j])
    ensures xs.Some? ==>
              && |xs.value| == |fields| - i
              && forall j :: i <= j < |fields| ==> xs.value[j - i] == rv[Fold(fields[j].key)].value.value.object_
    decreases |fields| - i
  {
    if i == |fields| then Some([])
    else
      var key := Fold(fields[i].key);
      if key !in rv || rv[key].value.None? || rv[key].value.value.type_ != fields[i].type_ then None
      else
        var rest := UnwrapGuts(fields, rv, i + 1);
        if rest.None? then None else Some([rv[key].value.value.object_] + rest.value)
  }

  // ---------------------------------------------------------------- round trip

  ghost predicate AllFit(rv: Slots, fields: FieldTuple, args: seq<Object>)
    requires |args| <= |fields|
  {
    forall i :: 0 <= i < |args| ==> Fits(rv, fields, args, i)
  }

  /** After all arguments are bound, unwrapping gives for each field the last
      argument whose key differs from its own at most in case. */
  lemma UnwrapAfterWrap(rv: Slots, fields: FieldTuple, args: seq<Object>)
    requires |args| == |fields| && AllFit(rv, fields, args)
    ensures var xs := UnwrapGuts(fields, Bound(rv, fields, args, |args|), 0);
            && xs.Some? && |xs.value| == |args|
            && forall i :: 0 <= i < |args| ==>
                 var last := LastNamed(fields, Fold(fields[i].key), |fields|);
                 last.Some? && xs.value[i] == args[last.value]
  {
    var out := Bound(rv, fields, args, |args|);
    forall i | 0 <= i < |fields|
      ensures Holds(out, fields[i])
      ensures var last := LastNamed(fields, Fold(fields[i].key), |fields|);
              last.Some? && out[Fold(fields[i].key)].value.value.object_ == args[last.value]
    {
      var last := LastNamed(fields, Fold(fields[i].key), |fields|);
      assert Fits(rv, fields, args, i) && Fits(rv, fields, args, last.value);
    }
  }

  ghost predicate DistinctNames(fields: FieldTuple) {
    forall i, j :: 0 <= i < j < |fields| ==> Fold(fields[i].key) != Fold(fields[j].key)
  }

  /** Fields that share a slot have one type; otherwise no arguments ever fit. */
  ghost predicate OneTypePerName(fields: FieldTuple) {
    forall i, j :: 0 <= i < j < |fields| && Fold(fields[i].key) == Fold(fields[j].key) ==>
      fields[i].type_ == fields[j].type_
  }

  lemma UnlessOneTypeNothingFits(rv: Slots, fields: FieldTuple, args: seq<Object>)
    requires |args| == |fields| && !OneTypePerName(fields)
    ensures !AllFit(rv, fields, args)
  {
    var i, j :| 0 <= i < j < |fields| && Fold(fields[i].key) == Fold(fields[j].key)
                && fields[i].type_ != fields[j].type_;
    assert !(Fits(rv, fields, args, i) && Fits(rv, fields, args, j));
  }

  ghost predicate RoundTrip(rv: Slots, fields: FieldTuple, args: seq<Object>)
    requires |args| == |fields|
  {
    UnwrapGuts(fields, Bound(rv, fields, args, |args|), 0) == Some(args)
  }

  /** Wrapping and unwrapping is the identity, for all arguments that fit,
      exactly when no two keys are equal ignoring case, or when two that are have
      different types, so that no arguments ever fit. */
  lemma RoundTripIff(fields: FieldTuple, a: Object, b: Object)
    requires a != b
    ensures (forall rv, args | |args| == |fields| && AllFit(rv, fields, args) :: RoundTrip(rv, fields, args))
            <==> DistinctNames(fields) || !OneTypePerName(fields)
  {
    if DistinctNames(fields) || !OneTypePerName(fields) {
      forall rv, args | |args| == |fields| && AllFit(rv, fields, args)
        ensures RoundTrip(rv, fields, args)
      {
        if !OneTypePerName(fields) {
          UnlessOneTypeNothingFits(rv, fields, args);
        } else {
          DistinctRoundTrip(rv, fields, args);
        }
      }
    } else {
      var i, j :| 0 <= i < j < |fields| && Fold(fields[i].key) == Fold(fields[j].key);
      var rv, args := ClashingArguments(fields, i, j, a, b);
      assert !RoundTrip(rv, fields, args);
    }
  }

  lemma DistinctRoundTrip(rv: Slots, fields: FieldTuple, args: seq<Object>)
    requires |args| == |fields| && AllFit(rv, fields, args) && DistinctNames(fields)
    ensures RoundTrip(rv, fields, args)
  {
    hide Bound, AllFit, Fold;
    UnwrapAfterWrap(rv, fields, args);
    var xs := UnwrapGuts(fields, Bound(rv, fields, args, |args|), 0).value;
    forall i | 0 <= i < |args|
      ensures xs[i] == args[i]
    {
      var last := LastNamed(fields, Fold(fields[i].key), |fields|);
      assert last == Some(i);
    }
    assert xs == args;
  }

  /** Different arguments for two fields with one slot: both read back alike. */
  lemma ClashingArguments(fields: FieldTuple, i: nat, j: nat, a: Object, b: Object)
    returns (rv: Slots, args: seq<Object>)
    requires i < j < |fields| && Fold(fields[i].key) == Fold(fields[j].key) && OneTypePerName(fields) && a != b
    ensures |args| == |fields| && AllFit(rv, fields, args) && !RoundTrip(rv, fields, args)
  {
    args := seq(|fields|, n => if n == j then b else a);
    rv := OpenSlots(fields);
    OpenSlotsFit(fields, args);
    UnwrapAfterWrap(rv, fields, args);
    var xs := UnwrapGuts(fields, Bound(rv, fields, args, |args|), 0).value;
    assert xs[i] == xs[j] && args[i] == a && args[j] == b;
  }

  ghost function NameSet(fields: FieldTuple): set<Name> {
    set i | 0 <= i < |fields| :: Fold(fields[i].key)
  }

  ghost function OpenSlot(fields: FieldTuple, k: Name): Slot
    requires |fields| > 0
  {
    var i := LastNamed(fields, k, |fields|);
    Slot(fields[if i.None? then 0 else i.value].type_, _ => true, None)
  }

  /** A slot for each field, without bounds checks: anything fits. */
  ghost function OpenSlots(fields: FieldTuple): Slots
    requires |fields| > 0
  {
    map k | k in NameSet(fields) :: OpenSlot(fields, k)
  }

  lemma OpenSlotsFit(fields: FieldTuple, args: seq<Object>)
    requires 0 < |fields| == |args| && OneTypePerName(fields)
    ensures AllFit(OpenSlots(fields), fields, args)
  {
    forall i | 0 <= i < |args|
      ensures Fits(OpenSlots(fields), fields, args, i)
    {
      var k := Fold(fields[i].key);
      assert k in NameSet(fields);
      var last := LastNamed(fields, k, |fields|);
      assert fields[last.value].type_ == fields[i].type_;
    }
  }

  // -------------------------------------------------- Python-only property types

  const PYTHON_WRAPPER: Type

  /** Keys declared one after the other, all of the one Python type. */
  function PythonFields(order: seq<string>): (fields: FieldTuple)
    ensures |fields| == |order|
    ensures forall i :: 0 <= i < |order| ==> fields[i] == FieldDecl(order[i], PYTHON_WRAPPER, None)
  {
    seq(|order|, i requires 0 <= i < |order| => FieldDecl(order[i], PYTHON_WRAPPER, None))
  }

  /** A property type declared at run time.  Its inputs and its results are two
      lists of fields with the same operations; this is one of them. */
  class PythonOnlyPropertyType {
    var fields: Slots
    var order: seq<string>

    ghost predicate Valid()
      reads this
    {
      && (forall i :: 0 <= i < |order| ==> Fold(order[i]) in fields)
      && (forall k :: k in fields ==>
            fields[k].type_ == PYTHON_WRAPPER && LastNamed(PythonFields(order), k, |order|).Some?)
    }

    constructor ()
      ensures Valid() && fields == map[] && order == []
    {
      fields, order := map[], [];
    }

    /** A key declared again, in whatever case, keeps its slot and its value but
        gets another position. */
    method Declare(key: string)
      requires Valid()
      modifies this
      ensures Valid() && order == old(order) + [key]
      ensures fields.Keys == old(fields).Keys + {Fold(key)}
      ensures forall k :: k in old(fields) ==> fields[k] == old(fields)[k]
      ensures Fold(key) !in old(fields) ==>
                var slot := fields[Fold(key)];
                slot.value.None? && forall o :: slot.Accepts(Value(PYTHON_WRAPPER, o))
    {
      hide LastNamed, PythonFields, Fold;
      var k := Fold(key);
      if k !in fields {
        fields := fields[k := Slot(PYTHON_WRAPPER, _ => true, None)];
      }
      fields := fields[k := fields[k].(type_ := PYTHON_WRAPPER)];
      ghost var was := order;
      order := order + [key];
      forall x | x in fields
        ensures LastNamed(PythonFields(order), x, |order|).Some?
      {
        NamedStays(was, key, x);
      }
    }

    /** `rv` is a copy, so nothing changes when this throws. */
    method WrapInputs(rv: Slots, args: seq<Object>) returns (s: Status, out: Slots)
      requires Valid()
      ensures s == WrongCount <==> |args| != |order|
      ensures s == Done <==> |args| == |order| && AllFit(rv, PythonFields(order), args)
      ensures s == Done ==> out == Bound(rv, PythonFields(order), args, |args|)
    {
      hide Bound, Fits, AllFit;
      ghost var decls := PythonFields(order);
      out := rv;
      if |args| != |order| {
        return WrongCount, out;
      }
      NothingBound(rv, decls, args);
      var i := 0;
      while i < |order|
        invariant 0 <= i <= |order| && out == Bound(rv, decls, args, i)
        invariant forall j :: 0 <= j < i ==> Fits(rv, decls, args, j)
      {
        BindOne(rv, decls, args, i);
        FitsMeans(out, decls, args, i);
        var key := Fold(order[i]);
        if key !in out {
          FitsAll(rv, decls, args);
          return NoSuchKey, out;
        }
        var v := Value(PYTHON_WRAPPER, args[i]);
        if !out[key].Accepts(v) {
          FitsAll(rv, decls, args);
          return BadValue, out;
        }
        out := out[key := out[key].(value := Some(v))];
        i := i + 1;
      }
      FitsAll(rv, decls, args);
      s := Done;
    }

    method UnwrapInputs(im: Slots) returns (rv: Option<seq<Object>>)
      requires Valid()
      ensures rv == UnwrapGuts(PythonFields(order), im, 0)
    {
      ghost var decls := PythonFields(order);
      var xs: seq<Object> := [];
      var i := 0;
      while i < |order|
        invariant 0 <= i <= |order| && |xs| == i
        invariant forall j :: 0 <= j < i ==>
                    Holds(im, decls[j]) && xs[j] == im[Fold(order[j])].value.value.object_
      {
        var key := Fold(order[i]);
        if key !in im || im[key].value.None? || im[key].value.value.type_ != PYTHON_WRAPPER {
          assert !Holds(im, decls[i]);
          return None;
        }
        xs := xs + [im[key].value.value.object_];
        i := i + 1;
      }
      rv := Some(xs);
      assert xs == UnwrapGuts(decls, im, 0).value;
    }
  }

  lemma NamedStays(order: seq<string>, key: string, x: Name)
    requires x == Fold(key) || LastNamed(PythonFields(order), x, |order|).Some?
    ensures LastNamed(PythonFields(order + [key]), x, |order| + 1).Some?
  {
    var fields := PythonFields(order + [key]);
    if x == Fold(key) {
      assert Fold(fields[|order|].key) == x;
    } else {
      var i := LastNamed(PythonFields(order), x, |order|).value;
      assert Fold(fields[i].key) == x;
    }
  }

  lemma NothingBound(rv: Slots, fields: FieldTuple, args: seq<Object>)
    requires |args| <= |fields|
    ensures Bound(rv, fields, args, 0) == rv
  {
  }

  lemma FitsMeans(rv: Slots, fields: FieldTuple, args: seq<Object>, i: nat)
    requires i < |args| <= |fields|
    ensures Fits(rv, fields, args, i) <==>
              Fold(fields[i].key) in rv && rv[Fold(fields[i].key)].Accepts(Value(fields[i].type_, args[i]))
  {
  }

  lemma FitsAll(rv: Slots, fields: FieldTuple, args: seq<Object>)
    requires |args| <= |fields|
    ensures AllFit(rv, fields, args) <==> forall i :: 0 <= i < |args| ==> Fits(rv, fields, args, i)
  {
  }

  /** The round trip of a Python-only property type is the identity exactly when no
      key is declared twice, ignoring case. */
  lemma PythonRoundTripIff(order: seq<string>, a: Object, b: Object)
    requires a != b
    ensures (forall rv, args | |args| == |order| && AllFit(rv, PythonFields(order), args) ::
               RoundTrip(rv, PythonFields(order), args))
            <==> (forall i, j :: 0 <= i < j < |order| ==> Fold(order[i]) != Fold(order[j]))
  {
    hide Bound, AllFit, RoundTrip;
    RoundTripIff(PythonFields(order), a, b);
  }
}
