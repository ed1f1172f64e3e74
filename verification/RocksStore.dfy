/**
 The RocksDB layer: values longer than the size limit are cut into chunks that
 are stored under subkeys, and a separate table remembers the subkeys of each
 cut value.

 The header promises a plain map for values of any size.  The code keeps that
 promise except in three situations, and the lemmas below say exactly when.
 */
module RocksStore {
  import opened Fields

  type Bytes = string

  /** The two tables of a RocksDBPIMPL. */
  datatype Disk = Disk(db: map<Bytes, Bytes>, split: map<Bytes, seq<Bytes>>)

  // ---------------------------------------------------------------- subkeys

  function Digits(i: nat): (s: string)
    ensures |s| > 0
  {
    if i < 10 then [('0' as int + i) as char]
    else Digits(i / 10) + [('0' as int + i % 10) as char]
  }

  function SubKey(k: Bytes, i: nat): Bytes {
    k + Digits(i)
  }

  lemma {:induction false} DigitsInjective(i: nat, j: nat)
    requires Digits(i) == Digits(j)
    ensures i == j
  {
    var s, t := Digits(i), Digits(j);
    assert s[|s| - 1] == ('0' as int + i % 10) as char;
    assert t[|t| - 1] == ('0' as int + j % 10) as char;
    assert i % 10 == j % 10;
    if i >= 10 && j >= 10 {
      assert s[..|s| - 1] == Digits(i / 10);
      assert t[..|t| - 1] == Digits(j / 10);
      DigitsInjective(i / 10, j / 10);
    }
  }

  /** No subkey of a user key is itself a user key or the subkey of another. */
  ghost predicate Apart(userKey: Bytes -> bool) {
    && (forall k, i: nat {:trigger SubKey(k, i)} :: userKey(k) ==> !userKey(SubKey(k, i)))
    && (forall k1, k2, i: nat, j: nat {:trigger SubKey(k1, i), SubKey(k2, j)} ::
          userKey(k1) && userKey(k2) && SubKey(k1, i) == SubKey(k2, j) ==> k1 == k2)
  }

  function SubKeys(k: Bytes, n: nat): (s: seq<Bytes>)
    ensures |s| == n
    ensures forall i :: 0 <= i < n ==> s[i] == SubKey(k, i)
  {
    seq(n, i requires 0 <= i < n => SubKey(k, i))
  }

  // ----------------------------------------------------------------- chunks

  function Chunks(v: Bytes, max: nat): (c: seq<Bytes>)
    requires max > 0
    ensures |c| > 0
    decreases |v|
  {
    if |v| <= max then [v] else [v[..max]] + Chunks(v[max..], max)
  }

  function Concat(c: seq<Bytes>): Bytes {
    if c == [] then [] else c[0] + Concat(c[1..])
  }

  /** The chunks in order give the value back, and each fits in one entry. */
  lemma {:induction false} ChunksRejoin(v: Bytes, max: nat)
    requires max > 0
    ensures Concat(Chunks(v, max)) == v
    ensures forall c :: c in Chunks(v, max) ==> |c| <= max && (v != [] ==> c != [])
    ensures |v| > max ==> |Chunks(v, max)| >= 2 && |Chunks(v, max)[0]| == max
    decreases |v|
  {
    if |v| > max {
      ChunksRejoin(v[max..], max);
      assert v == v[..max] + v[max..];
    }
  }

  lemma {:induction false} ConcatAppend(a: seq<Bytes>, b: seq<Bytes>)
    ensures Concat(a + b) == Concat(a) + Concat(b)
  {
    if a == [] {
      assert a + b == b;
    } else {
      assert (a + b)[1..] == a[1..] + b;
      ConcatAppend(a[1..], b);
    }
  }

  lemma {:induction false} ConcatNonEmpty(c: seq<Bytes>)
    requires c != []
    requires forall x :: x in c ==> x != []
    ensures Concat(c) != []
  {
    assert c[0] in c;
    assert c[0] + Concat(c[1..]) != [];
  }

  // ------------------------------------------------- what the entries mean

  function Entries(db: map<Bytes, Bytes>, keys: seq<Bytes>): (s: seq<Bytes>)
    requires forall k :: k in keys ==> k in db
    ensures |s| == |keys|
    ensures forall i :: 0 <= i < |keys| ==> s[i] == db[keys[i]]
  {
    seq(|keys|, i requires 0 <= i < |keys| => db[keys[i]])
  }

  /** Every reachable state: chunks are stored under the numbered subkeys, are
      not empty, the first is full, and no entry exceeds the limit. */
  ghost predicate ValidDisk(d: Disk, max: nat, userKey: Bytes -> bool) {
    && max > 0
    && Apart(userKey)
    && (forall k :: k in d.db ==> |d.db[k]| <= max)
    && (forall k :: k in d.split ==> ValidSplit(d, k, max, userKey))
  }

  ghost predicate ValidSplit(d: Disk, k: Bytes, max: nat, userKey: Bytes -> bool)
    requires k in d.split
  {
    && userKey(k)
    && |d.split[k]| >= 2
    && d.split[k] == SubKeys(k, |d.split[k]|)
    && (forall s :: s in d.split[k] ==> s in d.db && d.db[s] != [] && s !in d.split)
    && |d.db[d.split[k][0]]| == max
  }

  ghost predicate Counted(d: Disk, k: Bytes) {
    k in d.split || (k in d.db && d.db[k] != [])
  }

  ghost function ValueAt(d: Disk, k: Bytes): Bytes
    requires Counted(d, k)
    requires k in d.split ==> forall s :: s in d.split[k] ==> s in d.db
  {
    if k in d.split then Concat(Entries(d.db, d.split[k])) else d.db[k]
  }

  /** The map a user of the store sees. */
  ghost function View(d: Disk, max: nat, userKey: Bytes -> bool): (m: map<Bytes, Bytes>)
    requires ValidDisk(d, max, userKey)
  {
    map k | k in d.db.Keys + d.split.Keys && userKey(k) && Counted(d, k) :: ValueAt(d, k)
  }

  // -------------------------------------------------------------- insertion

  ghost function PutAll(db: map<Bytes, Bytes>, keys: seq<Bytes>, values: seq<Bytes>): map<Bytes, Bytes>
    requires |keys| == |values|
  {
    if keys == [] then db
    else PutAll(db, keys[..|keys| - 1], values[..|keys| - 1])[keys[|keys| - 1] := values[|keys| - 1]]
  }

  ghost function Inserted(d: Disk, k: Bytes, v: Bytes, max: nat): Disk
    requires max > 0
  {
    if |v| > max then
      var c := Chunks(v, max);
      Disk(PutAll(d.db, SubKeys(k, |c|), c),
           if k in d.split then d.split else d.split[k := SubKeys(k, |c|)])
    else
      Disk(d.db[k := v], d.split)
  }

  ghost predicate IsSubKey(k: Bytes, n: nat, x: Bytes) {
    exists i: nat :: i < n && x == SubKey(k, i)
  }

  /** `after` is `db` with chunk `c[i]` stored under the `i`-th subkey of `k`. */
  ghost predicate Overlays(db: map<Bytes, Bytes>, after: map<Bytes, Bytes>, k: Bytes, c: seq<Bytes>) {
    && (forall i: nat {:trigger SubKey(k, i)} :: i < |c| ==>
          SubKey(k, i) in after && after[SubKey(k, i)] == c[i])
    && (forall x {:trigger x in after} {:trigger after[x]} :: !IsSubKey(k, |c|, x) ==>
          (x in after <==> x in db) && (x in db ==> after[x] == db[x]))
  }

  lemma {:induction false} PutAllOverlays(db: map<Bytes, Bytes>, k: Bytes, c: seq<Bytes>)
    ensures Overlays(db, PutAll(db, SubKeys(k, |c|), c), k, c)
  {
    if c != [] {
      var n := |c| - 1;
      PutAllOverlays(db, k, c[..n]);
      assert SubKeys(k, |c|)[..n] == SubKeys(k, n);
      var before := PutAll(db, SubKeys(k, n), c[..n]);
      var after := PutAll(db, SubKeys(k, |c|), c);
      assert after == before[SubKey(k, n) := c[n]];
      forall i: nat | i < |c|
        ensures SubKey(k, i) in after && after[SubKey(k, i)] == c[i]
      {
        if SubKey(k, i) == SubKey(k, n) {
          SubKeyIndex(k, i, n);
        } else {
          assert c[..n][i] == c[i];
        }
      }
      forall x | !IsSubKey(k, |c|, x)
        ensures (x in after <==> x in db) && (x in db ==> after[x] == db[x])
      {
        assert x != SubKey(k, n);
        assert !IsSubKey(k, n, x);
      }
    }
  }

  lemma SubKeyIndex(k: Bytes, i: nat, j: nat)
    requires SubKey(k, i) == SubKey(k, j)
    ensures i == j
  {
    assert SubKey(k, i)[|k|..] == Digits(i);
    assert SubKey(k, j)[|k|..] == Digits(j);
    DigitsInjective(i, j);
  }

  /** The entries of another user key, and of its subkeys, do not change. */
  lemma OtherEntries(d: Disk, k: Bytes, v: Bytes, max: nat, userKey: Bytes -> bool, x: Bytes)
    requires ValidDisk(d, max, userKey) && userKey(k) && userKey(x) && x != k
    ensures var d' := Inserted(d, k, v, max);
            && (x in d'.db <==> x in d.db) && (x in d.db ==> d'.db[x] == d.db[x])
            && (x in d'.split <==> x in d.split)
            && (x in d.split ==>
                  && d'.split[x] == d.split[x]
                  && (forall s :: s in d.split[x] ==> s in d'.db && d'.db[s] == d.db[s] && s !in d'.split)
                  && Entries(d'.db, d.split[x]) == Entries(d.db, d.split[x]))
  {
    var c := Chunks(v, max);
    PutAllOverlays(d.db, k, c);
    assert !IsSubKey(k, |c|, x);
    if x in d.split {
      assert ValidSplit(d, x, max, userKey);
      forall s | s in d.split[x]
        ensures s != k && !IsSubKey(k, |c|, s)
      {
        var i: nat :| i < |d.split[x]| && d.split[x][i] == s;
        assert s == SubKey(x, i);
      }
    }
  }

  /** The entries of the inserted key itself, when the value is cut. */
  lemma LargeEntries(d: Disk, k: Bytes, v: Bytes, max: nat, userKey: Bytes -> bool)
    requires ValidDisk(d, max, userKey) && userKey(k) && |v| > max
    ensures var d' := Inserted(d, k, v, max);
            && (k in d'.db <==> k in d.db) && (k in d.db ==> d'.db[k] == d.db[k])
            && k in d'.split && ValidSplit(d', k, max, userKey)
            && d'.split[k] == (if k in d.split then d.split[k] else SubKeys(k, |Chunks(v, max)|))
            && (forall i: nat {:trigger SubKey(k, i)} :: i < |Chunks(v, max)| ==>
                  SubKey(k, i) in d'.db && d'.db[SubKey(k, i)] == Chunks(v, max)[i])
  {
    var c := Chunks(v, max);
    var d' := Inserted(d, k, v, max);
    PutAllOverlays(d.db, k, c);
    ChunksRejoin(v, max);
    assert !IsSubKey(k, |c|, k);
    if k in d.split {
      assert ValidSplit(d, k, max, userKey);
    }
    forall s | s in d'.split[k]
      ensures s in d'.db && d'.db[s] != [] && s !in d'.split
    {
      var i: nat :| i < |d'.split[k]| && d'.split[k][i] == s;
      assert s == SubKey(k, i);
      assert s != k;
      if IsSubKey(k, |c|, s) {
        var j: nat :| j < |c| && s == SubKey(k, j);
        assert c[j] in c;
      }
      assert s in d.split ==> ValidSplit(d, s, max, userKey);
    }
  }

  /** A value that is not cut leaves the subkeys of its key alone. */
  lemma SmallEntries(d: Disk, k: Bytes, v: Bytes, max: nat, userKey: Bytes -> bool)
    requires ValidDisk(d, max, userKey) && userKey(k) && |v| <= max && k in d.split
    ensures var d' := Inserted(d, k, v, max);
            ValidSplit(d', k, max, userKey) && Entries(d'.db, d.split[k]) == Entries(d.db, d.split[k])
  {
    assert ValidSplit(d, k, max, userKey);
    forall s | s in d.split[k]
      ensures s != k
    {
      var i: nat :| i < |d.split[k]| && d.split[k][i] == s;
      assert s == SubKey(k, i);
    }
  }

  lemma InsertKeepsValid(d: Disk, k: Bytes, v: Bytes, max: nat, userKey: Bytes -> bool)
    requires ValidDisk(d, max, userKey) && userKey(k)
    ensures ValidDisk(Inserted(d, k, v, max), max, userKey)
  {
    var d' := Inserted(d, k, v, max);
    var c := Chunks(v, max);
    forall x | x in d'.db
      ensures |d'.db[x]| <= max
    {
      PutAllOverlays(d.db, k, c);
      ChunksRejoin(v, max);
      if |v| > max && IsSubKey(k, |c|, x) {
        var j: nat :| j < |c| && x == SubKey(k, j);
        assert c[j] in c;
      }
    }
    forall x | x in d'.split
      ensures ValidSplit(d', x, max, userKey)
    {
      if x != k {
        assert ValidSplit(d, x, max, userKey);
        OtherEntries(d, k, v, max, userKey, x);
        assert d'.split[x] == d.split[x];
      } else if |v| > max {
        LargeEntries(d, k, v, max, userKey);
      } else {
        SmallEntries(d, k, v, max, userKey);
      }
    }
  }

  // ------------------------------------ when an insertion is a map update

  /** The guard under which inserting `v` at `k` is an ordinary map update: an
      empty value reads as absent, and a key that already holds a cut value
      keeps its old subkeys. */
  ghost predicate PlainInsert(d: Disk, k: Bytes, v: Bytes, max: nat)
    requires max > 0
  {
    v != [] && (k in d.split ==> |v| > max && |Chunks(v, max)| == |d.split[k]|)
  }

  /** Non-empty chunks with a common start join to the same value exactly when
      there are equally many of them. */
  lemma {:induction false} ShorterJoin(c: seq<Bytes>, e: seq<Bytes>)
    requires |c| < |e|
    requires forall i :: 0 <= i < |c| ==> e[i] == c[i]
    requires forall x :: x in e ==> x != []
    ensures |Concat(c)| < |Concat(e)|
  {
    if c == [] {
      ConcatNonEmpty(e);
    } else {
      assert forall x :: x in e[1..] ==> x in e;
      ShorterJoin(c[1..], e[1..]);
    }
  }

  lemma SameJoin(c: seq<Bytes>, e: seq<Bytes>)
    requires forall i :: 0 <= i < |c| && i < |e| ==> e[i] == c[i]
    requires forall x :: x in c || x in e ==> x != []
    ensures Concat(e) == Concat(c) <==> |c| == |e|
  {
    if |c| < |e| {
      ShorterJoin(c, e);
    } else if |e| < |c| {
      ShorterJoin(e, c);
    } else {
      assert e == c;
    }
  }

  lemma JoinOfChunks(db: map<Bytes, Bytes>, k: Bytes, subs: seq<Bytes>, c: seq<Bytes>)
    requires subs == SubKeys(k, |subs|)
    requires forall s :: s in subs ==> s in db && db[s] != []
    requires forall i: nat {:trigger SubKey(k, i)} :: i < |c| ==>
               SubKey(k, i) in db && db[SubKey(k, i)] == c[i]
    requires forall x :: x in c ==> x != []
    ensures Concat(Entries(db, subs)) == Concat(c) <==> |c| == |subs|
  {
    var e := Entries(db, subs);
    forall i | 0 <= i < |c| && i < |e|
      ensures e[i] == c[i]
    {
      assert subs[i] == SubKey(k, i);
    }
    SameJoin(c, e);
  }

  /** Reading back a cut value: right exactly when the number of chunks is the
      number of subkeys on record. */
  lemma LargeReadBack(d: Disk, k: Bytes, v: Bytes, max: nat, userKey: Bytes -> bool)
    requires ValidDisk(d, max, userKey) && userKey(k) && |v| > max
    ensures var d' := Inserted(d, k, v, max);
            && Counted(d', k) && ValidSplit(d', k, max, userKey)
            && (ValueAt(d', k) == v <==> |Chunks(v, max)| == |d'.split[k]|)
  {
    var c := Chunks(v, max);
    var d' := Inserted(d, k, v, max);
    LargeEntries(d, k, v, max, userKey);
    ChunksRejoin(v, max);
    JoinOfChunks(d'.db, k, d'.split[k], c);
  }

  /** Another user key is seen as before. */
  lemma OtherView(d: Disk, k: Bytes, v: Bytes, max: nat, userKey: Bytes -> bool, x: Bytes)
    requires ValidDisk(d, max, userKey) && userKey(k) && x != k
    requires ValidDisk(Inserted(d, k, v, max), max, userKey)
    ensures var m, m' := View(d, max, userKey), View(Inserted(d, k, v, max), max, userKey);
            (x in m' <==> x in m) && (x in m ==> m'[x] == m[x])
  {
    if userKey(x) {
      OtherEntries(d, k, v, max, userKey, x);
    }
  }

  lemma UpdateOrNot(m: map<Bytes, Bytes>, m': map<Bytes, Bytes>, k: Bytes, v: Bytes)
    requires forall x :: x != k ==> (x in m' <==> x in m) && (x in m ==> m'[x] == m[x])
    ensures m' - {k} == m - {k}
    ensures m' == m[k := v] <==> k in m' && m'[k] == v
  {
    if m' == m[k := v] {
      assert k in m' && m'[k] == v;
    }
  }

  /** An insertion updates the user's map like a plain map exactly under the
      guard, and whatever it does it does to that key alone. */
  lemma InsertIsPlain(d: Disk, k: Bytes, v: Bytes, max: nat, userKey: Bytes -> bool)
    requires ValidDisk(d, max, userKey) && userKey(k)
    ensures ValidDisk(Inserted(d, k, v, max), max, userKey)
    ensures var m, m' := View(d, max, userKey), View(Inserted(d, k, v, max), max, userKey);
            m' - {k} == m - {k} && (m' == m[k := v] <==> PlainInsert(d, k, v, max))
  {
    InsertKeepsValid(d, k, v, max, userKey);
    var m, m' := View(d, max, userKey), View(Inserted(d, k, v, max), max, userKey);
    forall x | x != k
      ensures (x in m' <==> x in m) && (x in m ==> m'[x] == m[x])
    {
      OtherView(d, k, v, max, userKey, x);
    }
    UpdateOrNot(m, m', k, v);
    OwnValue(d, k, v, max, userKey);
  }

  /** A cut value is longer than any value that is stored whole. */
  lemma CutIsLonger(d: Disk, k: Bytes, max: nat, userKey: Bytes -> bool)
    requires ValidDisk(d, max, userKey) && k in d.split
    requires ValidSplit(d, k, max, userKey)
    ensures |ValueAt(d, k)| > max
  {
    var e := Entries(d.db, d.split[k]);
    assert d.split[k][0] in d.split[k];
    assert forall x :: x in e[1..] ==> x != [];
    ConcatNonEmpty(e[1..]);
  }

  lemma OwnValue(d: Disk, k: Bytes, v: Bytes, max: nat, userKey: Bytes -> bool)
    requires ValidDisk(d, max, userKey) && userKey(k)
    requires ValidDisk(Inserted(d, k, v, max), max, userKey)
    ensures var m' := View(Inserted(d, k, v, max), max, userKey);
            (k in m' && m'[k] == v) <==> PlainInsert(d, k, v, max)
  {
    var d' := Inserted(d, k, v, max);
    if |v| > max {
      LargeEntries(d, k, v, max, userKey);
      LargeReadBack(d, k, v, max, userKey);
    } else if k in d.split {
      // The stale cut value is still what `at` returns, and it is too long.
      SmallEntries(d, k, v, max, userKey);
      CutIsLonger(d', k, max, userKey);
    }
  }

  // ------------------------------------------------------------- freeing

  ghost function Freed(d: Disk, k: Bytes): Disk {
    if k in d.split then Disk(d.db - (set s | s in d.split[k]), d.split - {k})
    else Disk(d.db - {k}, d.split)
  }

  lemma FreeKeepsValid(d: Disk, k: Bytes, max: nat, userKey: Bytes -> bool)
    requires ValidDisk(d, max, userKey) && userKey(k)
    ensures ValidDisk(Freed(d, k), max, userKey)
  {
    var d' := Freed(d, k);
    forall x | x in d'.split
      ensures ValidSplit(d', x, max, userKey)
    {
      FreeOther(d, k, max, userKey, x);
    }
  }

  /** Every piece of a cut value goes, together with its record, and nothing else
      does. */
  lemma FreeRemovesPieces(d: Disk, k: Bytes, max: nat, userKey: Bytes -> bool)
    requires ValidDisk(d, max, userKey) && k in d.split
    ensures Freed(d, k).split == d.split - {k}
    ensures forall x :: x in Freed(d, k).db <==> x in d.db && !IsSubKey(k, |d.split[k]|, x)
    ensures forall x :: x in Freed(d, k).db ==> Freed(d, k).db[x] == d.db[x]
  {
    assert ValidSplit(d, k, max, userKey);
    forall x
      ensures x in d.split[k] <==> IsSubKey(k, |d.split[k]|, x)
    {
      if x in d.split[k] {
        var i: nat :| i < |d.split[k]| && d.split[k][i] == x;
        assert x == SubKey(k, i);
      }
      if IsSubKey(k, |d.split[k]|, x) {
        var i: nat :| i < |d.split[k]| && x == SubKey(k, i);
        assert d.split[k][i] == x;
      }
    }
  }

  lemma FreeOther(d: Disk, k: Bytes, max: nat, userKey: Bytes -> bool, x: Bytes)
    requires ValidDisk(d, max, userKey) && userKey(k) && userKey(x) && x != k
    ensures var d' := Freed(d, k);
            && (x in d'.db <==> x in d.db) && (x in d'.split <==> x in d.split)
            && (x in d.split ==>
                  && ValidSplit(d', x, max, userKey)
                  && Entries(d'.db, d.split[x]) == Entries(d.db, d.split[x]))
  {
    if k in d.split {
      assert ValidSplit(d, k, max, userKey);
      forall i: nat | i < |d.split[k]|
        ensures d.split[k][i] == SubKey(k, i) && d.split[k][i] != x
      {
      }
    }
    if x in d.split {
      assert ValidSplit(d, x, max, userKey);
      forall i: nat | i < |d.split[x]|
        ensures d.split[x][i] == SubKey(x, i) && d.split[x][i] in Freed(d, k).db
      {
      }
    }
  }

  /** Freeing removes the key from the user's map exactly when the key does not
      hold a whole value underneath its cut one, and touches no other key. */
  lemma FreeIsPlain(d: Disk, k: Bytes, max: nat, userKey: Bytes -> bool)
    requires ValidDisk(d, max, userKey) && userKey(k)
    ensures ValidDisk(Freed(d, k), max, userKey)
    ensures var m, m' := View(d, max, userKey), View(Freed(d, k), max, userKey);
            && m' - {k} == m - {k}
            && (m' == m - {k} <==> (k in d.split && k in d.db ==> d.db[k] == []))
  {
    FreeKeepsValid(d, k, max, userKey);
    var m, m' := View(d, max, userKey), View(Freed(d, k), max, userKey);
    forall x | x != k
      ensures (x in m' <==> x in m) && (x in m ==> m'[x] == m[x])
    {
      FreeOtherView(d, k, max, userKey, x);
    }
    FreeOwn(d, k, max, userKey);
    RemoveOrNot(m, m', k);
  }

  lemma RemoveOrNot(m: map<Bytes, Bytes>, m': map<Bytes, Bytes>, k: Bytes)
    requires forall x :: x != k ==> (x in m' <==> x in m) && (x in m ==> m'[x] == m[x])
    ensures m' - {k} == m - {k}
    ensures m' == m - {k} <==> k !in m'
  {
  }

  lemma FreeOtherView(d: Disk, k: Bytes, max: nat, userKey: Bytes -> bool, x: Bytes)
    requires ValidDisk(d, max, userKey) && userKey(k) && x != k
    requires ValidDisk(Freed(d, k), max, userKey)
    ensures var m, m' := View(d, max, userKey), View(Freed(d, k), max, userKey);
            (x in m' <==> x in m) && (x in m ==> m'[x] == m[x])
  {
    if userKey(x) {
      FreeOther(d, k, max, userKey, x);
    }
  }

  lemma FreeOwn(d: Disk, k: Bytes, max: nat, userKey: Bytes -> bool)
    requires ValidDisk(d, max, userKey) && userKey(k)
    requires ValidDisk(Freed(d, k), max, userKey)
    ensures k !in View(Freed(d, k), max, userKey) <==> (k in d.split && k in d.db ==> d.db[k] == [])
  {
    if k in d.split {
      assert ValidSplit(d, k, max, userKey);
      forall i: nat | i < |d.split[k]|
        ensures d.split[k][i] == SubKey(k, i) && d.split[k][i] != k
      {
      }
    }
  }

  // ------------------------------------------------------------- histories

  datatype Op = Insert(key: Bytes, value: Bytes) | Free(key: Bytes)

  ghost function DiskStep(d: Disk, op: Op, max: nat): Disk
    requires max > 0
  {
    match op
    case Insert(k, v) => Inserted(d, k, v, max)
    case Free(k) => Freed(d, k)
  }

  ghost function MapStep(m: map<Bytes, Bytes>, op: Op): map<Bytes, Bytes> {
    match op
    case Insert(k, v) => m[k := v]
    case Free(k) => m - {k}
  }

  ghost function DiskRun(d: Disk, ops: seq<Op>, max: nat): Disk
    requires max > 0
    decreases |ops|
  {
    if ops == [] then d else DiskRun(DiskStep(d, ops[0], max), ops[1..], max)
  }

  ghost function MapRun(m: map<Bytes, Bytes>, ops: seq<Op>): map<Bytes, Bytes>
    decreases |ops|
  {
    if ops == [] then m else MapRun(MapStep(m, ops[0]), ops[1..])
  }

  /** Every insertion is of a non-empty value under a key that is not in use. */
  ghost predicate WriteOnce(m: map<Bytes, Bytes>, ops: seq<Op>, userKey: Bytes -> bool)
    decreases |ops|
  {
    ops == [] ||
    (&& userKey(ops[0].key)
     && (ops[0].Insert? ==> ops[0].value != [] && ops[0].key !in m)
     && WriteOnce(MapStep(m, ops[0]), ops[1..], userKey))
  }

  ghost predicate NoLeftovers(d: Disk) {
    forall k :: k in d.split && k in d.db ==> d.db[k] == []
  }

  /** Used that way, the store is a plain map for values of any length: over
      every history its contents are those of an ordinary map. */
  lemma {:induction false} WriteOnceIsPlain(d: Disk, ops: seq<Op>, max: nat, userKey: Bytes -> bool)
    requires ValidDisk(d, max, userKey) && NoLeftovers(d)
    requires WriteOnce(View(d, max, userKey), ops, userKey)
    ensures ValidDisk(DiskRun(d, ops, max), max, userKey)
    ensures View(DiskRun(d, ops, max), max, userKey) == MapRun(View(d, max, userKey), ops)
    decreases |ops|
  {
    if ops != [] {
      var k := ops[0].key;
      match ops[0] {
      case Insert(_, v) =>
        InsertIsPlain(d, k, v, max, userKey);
        AbsentIsUnused(d, k, max, userKey);
        InsertLeavesNothing(d, k, v, max, userKey);
      case Free(_) =>
        FreeIsPlain(d, k, max, userKey);
      }
      WriteOnceIsPlain(DiskStep(d, ops[0], max), ops[1..], max, userKey);
    }
  }

  lemma AbsentIsUnused(d: Disk, k: Bytes, max: nat, userKey: Bytes -> bool)
    requires ValidDisk(d, max, userKey) && userKey(k) && k !in View(d, max, userKey)
    ensures !Counted(d, k)
  {
    assert Counted(d, k) ==> k in d.db.Keys + d.split.Keys;
  }

  lemma InsertLeavesNothing(d: Disk, k: Bytes, v: Bytes, max: nat, userKey: Bytes -> bool)
    requires ValidDisk(d, max, userKey) && NoLeftovers(d) && userKey(k)
    requires !Counted(d, k)
    ensures NoLeftovers(Inserted(d, k, v, max))
  {
    var d' := Inserted(d, k, v, max);
    InsertKeepsValid(d, k, v, max, userKey);
    forall x | x in d'.split && x in d'.db
      ensures d'.db[x] == []
    {
      assert ValidSplit(d', x, max, userKey);
      if x != k {
        OtherEntries(d, k, v, max, userKey, x);
      } else if |v| > max {
        LargeEntries(d, k, v, max, userKey);
      }
    }
  }

  // ------------------------------------------------------------ reopening

  /** The database as it is found when it is opened again: the table of cut
      values was in memory only. */
  ghost function Reopened(d: Disk): Disk {
    Disk(d.db, map[])
  }

  /** Reopening keeps the user's map exactly when no value was cut. */
  lemma ReopeningKeepsIff(d: Disk, max: nat, userKey: Bytes -> bool)
    requires ValidDisk(d, max, userKey)
    ensures ValidDisk(Reopened(d), max, userKey)
    ensures View(Reopened(d), max, userKey) == View(d, max, userKey) <==> d.split == map[]
  {
    var m, m' := View(d, max, userKey), View(Reopened(d), max, userKey);
    if k :| k in d.split {
      assert ValidSplit(d, k, max, userKey);
      CutIsLonger(d, k, max, userKey);
      assert k in m && |m[k]| > max;
      assert k in m' ==> |m'[k]| <= max;
    }
  }

  /** Key by key: what was not split is found again as it was; under a split key
      only a whole value that lies under the pieces is found. */
  lemma ReopenedAt(d: Disk, max: nat, userKey: Bytes -> bool, k: Bytes)
    requires ValidDisk(d, max, userKey) && userKey(k)
    ensures ValidDisk(Reopened(d), max, userKey)
    ensures var m, m' := View(d, max, userKey), View(Reopened(d), max, userKey);
            && (k !in d.split ==> (k in m' <==> k in m) && (k in m ==> m'[k] == m[k]))
            && (k in d.split ==> (k in m' <==> k in d.db && d.db[k] != []) && (k in m' ==> m'[k] == d.db[k]))
  {
  }

  // ------------------------------------------------------ counterexamples

  ghost predicate OnlyK(b: Bytes) {
    b == "k"
  }

  /** With a limit of one byte: "k" was given "x" and then "ab". */
  ghost function Overwritten(): Disk {
    Inserted(Disk(map["k" := "x"], map[]), "k", "ab", 1)
  }

  lemma OverwrittenIsValid()
    ensures var cut := Overwritten();
            && ValidDisk(cut, 1, OnlyK) && "k" in cut.db && cut.db["k"] == "x"
            && "k" in cut.split && |cut.split["k"]| == 2
  {
    var whole := Disk(map["k" := "x"], map[]);
    assert forall k, i: nat {:trigger SubKey(k, i)} :: |SubKey(k, i)| > |k|;
    assert ValidDisk(whole, 1, OnlyK);
    assert |Chunks("ab", 1)| == 2;
    InsertIsPlain(whole, "k", "ab", 1, OnlyK);
    LargeEntries(whole, "k", "ab", 1, OnlyK);
  }

  ghost predicate UpdatesMap(d: Disk, k: Bytes, v: Bytes, max: nat, userKey: Bytes -> bool)
    requires ValidDisk(d, max, userKey) && userKey(k)
  {
    InsertKeepsValid(d, k, v, max, userKey);
    View(Inserted(d, k, v, max), max, userKey) == View(d, max, userKey)[k := v]
  }

  ghost predicate RemovesKey(d: Disk, k: Bytes, max: nat, userKey: Bytes -> bool)
    requires ValidDisk(d, max, userKey) && userKey(k)
  {
    FreeKeepsValid(d, k, max, userKey);
    View(Freed(d, k), max, userKey) == View(d, max, userKey) - {k}
  }

  /** The guard fails on real inputs: an empty value is not found again, a short
      value written over a cut one is ignored, a longer one written over it is cut
      short, and freeing a key that held both brings the short value back. */
  lemma PlainMapFails()
    ensures var empty, cut := Disk(map[], map[]), Overwritten();
            && ValidDisk(empty, 1, OnlyK) && ValidDisk(cut, 1, OnlyK)
            && !UpdatesMap(empty, "k", "", 1, OnlyK)
            && !UpdatesMap(cut, "k", "c", 1, OnlyK)
            && !UpdatesMap(cut, "k", "abc", 1, OnlyK)
            && !RemovesKey(cut, "k", 1, OnlyK)
  {
    var empty, cut := Disk(map[], map[]), Overwritten();
    assert ValidDisk(empty, 1, OnlyK) by {
      assert forall k, i: nat {:trigger SubKey(k, i)} :: |SubKey(k, i)| > |k|;
    }
    OverwrittenIsValid();
    assert |Chunks("abc", 1)| == 3 by {
      assert |Chunks("bc", 1)| == 2;
    }
    hide ValidDisk, View, Inserted, Freed, Overwritten, Chunks;
    InsertIsPlain(empty, "k", "", 1, OnlyK);
    InsertIsPlain(cut, "k", "c", 1, OnlyK);
    InsertIsPlain(cut, "k", "abc", 1, OnlyK);
    FreeIsPlain(cut, "k", 1, OnlyK);
  }

  // ------------------------------------------------------ the cutting loop

  /** Chunks from `begin` on: the next one is full. */
  lemma NextChunk(value: Bytes, begin: nat, n: nat, max: nat)
    requires max > 0 && begin + max < |value| && n < |Chunks(value, max)|
    requires Chunks(value[begin..], max) == Chunks(value, max)[n..]
    ensures Chunks(value, max)[n] == value[begin..begin + max]
    ensures n + 1 < |Chunks(value, max)| && Chunks(value[begin + max..], max) == Chunks(value, max)[n + 1..]
  {
    var rest, all := value[begin..], Chunks(value, max);
    assert rest[max..] == value[begin + max..] && rest[..max] == value[begin..begin + max];
    assert all[n..] == [rest[..max]] + Chunks(rest[max..], max);
    hide Chunks;
    assert all[n] == all[n..][0] && all[n + 1..] == all[n..][1..];
  }

  lemma LastChunk(value: Bytes, begin: nat, n: nat, max: nat)
    requires max > 0 && begin <= |value| <= begin + max && n < |Chunks(value, max)|
    requires Chunks(value[begin..], max) == Chunks(value, max)[n..]
    ensures |Chunks(value, max)| == n + 1 && Chunks(value, max)[n] == value[begin..|value|]
  {
    assert Chunks(value[begin..], max) == [value[begin..]];
    assert Chunks(value, max)[n] == Chunks(value, max)[n..][0];
  }

  // ------------------------------------------------------------- the class

  const MAX_VALUE_SIZE: nat := 3_000_000_000

  class RocksDb {
    const maxValueSize: nat
    ghost const userKey: Bytes -> bool
    var db: map<Bytes, Bytes>
    var splitValues: map<Bytes, seq<Bytes>>

    /** Opens a database that may already hold entries; `splitValues` lives in
        memory only, so it starts empty whatever is on disk. */
    constructor (contents: map<Bytes, Bytes>, maxValueSize: nat, ghost userKey: Bytes -> bool)
      requires ValidDisk(Disk(contents, map[]), maxValueSize, userKey)
      ensures this.maxValueSize == maxValueSize && this.userKey == userKey
      ensures State() == Disk(contents, map[]) && Valid()
    {
      this.maxValueSize := maxValueSize;
      this.userKey := userKey;
      db, splitValues := contents, map[];
    }

    ghost function State(): Disk
      reads this
    {
      Disk(db, splitValues)
    }

    ghost predicate Valid()
      reads this
    {
      ValidDisk(State(), maxValueSize, userKey)
    }

    ghost function Contents(): map<Bytes, Bytes>
      requires Valid()
      reads this
    {
      View(State(), maxValueSize, userKey)
    }

    method Count(key: Bytes) returns (found: bool)
      requires Valid() && userKey(key)
      ensures found <==> key in Contents()
    {
      AbsentOrCounted(key);
      if key in splitValues { return true; }
      var buffer := if key in db then db[key] else "";
      return buffer != "";
    }

    /** The half-open ranges that `value` is cut into. */
    method SplitValue(value: Bytes) returns (ranges: seq<(nat, nat)>)
      requires maxValueSize > 0
      ensures |ranges| == |Chunks(value, maxValueSize)|
      ensures forall i :: 0 <= i < |ranges| ==>
                ranges[i].0 <= ranges[i].1 <= |value|
                && value[ranges[i].0..ranges[i].1] == Chunks(value, maxValueSize)[i]
    {
      hide Chunks, Concat;
      ranges := [];
      var chunkEnd, begin := maxValueSize, 0;
      assert value[0..] == value;
      while chunkEnd < |value|
        invariant begin + maxValueSize == chunkEnd
        invariant begin <= |value| && |ranges| < |Chunks(value, maxValueSize)|
        invariant Chunks(value[begin..], maxValueSize) == Chunks(value, maxValueSize)[|ranges|..]
        invariant forall i :: 0 <= i < |ranges| ==>
                    ranges[i].0 <= ranges[i].1 <= |value|
                    && value[ranges[i].0..ranges[i].1] == Chunks(value, maxValueSize)[i]
        decreases |value| - begin
      {
        NextChunk(value, begin, |ranges|, maxValueSize);
        ranges := ranges + [(begin, chunkEnd)];
        begin, chunkEnd := begin + maxValueSize, chunkEnd + maxValueSize;
      }
      LastChunk(value, begin, |ranges|, maxValueSize);
      ranges := ranges + [(begin, |value|)];
    }

    method Insert(key: Bytes, value: Bytes)
      requires Valid() && userKey(key)
      modifies this
      ensures Valid() && State() == Inserted(old(State()), key, value, maxValueSize)
    {
      InsertKeepsValid(State(), key, value, maxValueSize, userKey);
      if |value| > maxValueSize {
        LargeValueInsert(key, value);
      } else {
        db := db[key := value];
      }
    }

    method LargeValueInsert(key: Bytes, value: Bytes)
      requires maxValueSize > 0 && |value| > maxValueSize
      modifies this
      ensures State() == Inserted(old(State()), key, value, maxValueSize)
    {
      hide SubKey, Chunks, Concat;
      var chunks := SplitValue(value);
      var subKeys: seq<Bytes> := [];
      ghost var pieces := Chunks(value, maxValueSize);
      var i := 0;
      while i < |chunks|
        invariant 0 <= i <= |chunks| == |pieces|
        invariant splitValues == old(splitValues)
        invariant subKeys == SubKeys(key, i)
        invariant db == PutAll(old(db), SubKeys(key, i), pieces[..i])
      {
        var piece := value[chunks[i].0..chunks[i].1];
        subKeys := subKeys + [SubKey(key, i)];
        assert SubKeys(key, i + 1)[..i] == SubKeys(key, i);
        assert pieces[..i + 1][..i] == pieces[..i];
        // A chunk is never over the limit, so `insert` stores it whole.
        db := db[subKeys[i] := piece];
        i := i + 1;
      }
      assert pieces[..i] == pieces;
      if key !in splitValues {
        splitValues := splitValues[key := subKeys];
      }
    }

    method Free(key: Bytes)
      requires Valid() && userKey(key)
      modifies this
      ensures Valid() && State() == Freed(old(State()), key)
    {
      FreeKeepsValid(State(), key, maxValueSize, userKey);
      if key in splitValues {
        var subs := splitValues[key];
        assert ValidSplit(State(), key, maxValueSize, userKey);
        var i := 0;
        while i < |subs|
          invariant 0 <= i <= |subs|
          invariant splitValues == old(splitValues)
          invariant db == old(db) - (set s | s in subs[..i])
        {
          // Subkeys are never cut themselves.
          db := db - {subs[i]};
          assert subs[..i + 1] == subs[..i] + [subs[i]];
          i := i + 1;
        }
        assert subs[..i] == subs;
        splitValues := splitValues - {key};
      } else {
        db := db - {key};
      }
    }

    /** None stands for the empty reference that `at` returns on an absent key. */
    method At(key: Bytes) returns (value: Option<Bytes>)
      requires Valid() && userKey(key)
      ensures value == if key in Contents() then Some(Contents()[key]) else None
    {
      var found := Count(key);
      AbsentOrCounted(key);
      if !found { return None; }
      if key in splitValues {
        var v := LargeValueAt(key);
        return Some(v);
      }
      return Some(db[key]);
    }

    lemma AbsentOrCounted(key: Bytes)
      requires Valid() && userKey(key)
      ensures key in Contents() <==> Counted(State(), key)
    {
      if key !in Contents() {
        AbsentIsUnused(State(), key, maxValueSize, userKey);
      }
    }

    method LargeValueAt(key: Bytes) returns (buffer: Bytes)
      requires Valid() && key in splitValues
      ensures ValidSplit(State(), key, maxValueSize, userKey)
      ensures buffer == ValueAt(State(), key)
    {
      assert ValidSplit(State(), key, maxValueSize, userKey);
      var subs := splitValues[key];
      buffer := "";
      ghost var e := Entries(db, subs);
      var i := 0;
      while i < |subs|
        invariant 0 <= i <= |subs|
        invariant buffer == Concat(e[..i])
      {
        assert subs[i] in subs;
        assert e[..i + 1] == e[..i] + [e[i]];
        ConcatAppend(e[..i], [e[i]]);
        assert Concat([e[i]]) == e[i];
        buffer := buffer + db[subs[i]];
        i := i + 1;
      }
      assert e[..i] == e;
    }
  }
}
