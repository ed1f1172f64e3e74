/**
 The values that the cache stack moves around: type-erased values, module
 inputs and results (a value plus metadata), the maps that hold them and the
 proxy maps in which every value has been replaced by a UUID.
 */
module Fields {

  datatype Option<+T> = None | Some(value: T)

  /** A C++ object of some type; only value equality is used. */
  type Object(==,0,!new)

  /** Descriptions, types, bounds checks, optional and transparent flags. */
  datatype Metadata = DefaultMetadata | Metadata(details: Object)

  type Name = string
  type Uuid = string

  /** An AnyField: a user's object, or the submodule-key-to-UUID map that
      `merge_inputs_` adds to the inputs of a memoized call. */
  datatype Any = Wrapped(object_: Object) | SubmodUuids(uuids: map<string, Uuid>)

  /** A ModuleInput or a ModuleResult that has been given a value. */
  datatype Field = Field(value: Any, metadata: Metadata)

  type InputMap = map<Name, Field>
  type ResultMap = map<Name, Field>
  type AnyMap = map<Name, Any>
  type ProxyMap = map<Name, Uuid>

  /** What MakeAny keeps of each field: the value, not the metadata. */
  function Erase(m: map<Name, Field>): (e: AnyMap)
    ensures e.Keys == m.Keys
  {
    map n | n in m :: m[n].value
  }

  /** Type erasure forgets the metadata and nothing else. */
  lemma ErasesOnlyMetadata(a: map<Name, Field>, b: map<Name, Field>)
    ensures Erase(a) == Erase(b) <==> a.Keys == b.Keys && forall n :: n in a ==> a[n].value == b[n].value
  {
    if Erase(a) == Erase(b) {
      forall n | n in a
        ensures a[n].value == b[n].value
      {
        assert Erase(a)[n] == Erase(b)[n];
      }
    }
  }

  /** ASCII lower case, the comparison key of the case-insensitive maps. */
  function FoldChar(c: char): char {
    if 'A' <= c <= 'Z' then (c as int + 32) as char else c
  }

  function Fold(n: Name): (f: Name)
    ensures |f| == |n|
  {
    seq(|n|, i requires 0 <= i < |n| => FoldChar(n[i]))
  }

  /** `a` and `b` are one letter in different cases. */
  predicate OtherCase(a: char, b: char) {
    ('A' <= a <= 'Z' && b as int == a as int + 32) || ('A' <= b <= 'Z' && a as int == b as int + 32)
  }

  /** Folded names are equal exactly when the names differ at most in the case of
      letters. */
  lemma FoldIgnoresCase(a: Name, b: Name)
    ensures Fold(a) == Fold(b) <==>
              |a| == |b| && forall i :: 0 <= i < |a| ==> a[i] == b[i] || OtherCase(a[i], b[i])
  {
    if Fold(a) == Fold(b) {
      forall i | 0 <= i < |a|
        ensures a[i] == b[i] || OtherCase(a[i], b[i])
      {
        assert Fold(a)[i] == Fold(b)[i];
      }
    }
  }

  /** `m.count(n)` on a map whose comparator ignores case. */
  predicate HasName<V>(m: map<Name, V>, n: Name) {
    exists k :: k in m && Fold(k) == Fold(n)
  }
}
