/**
 The object-oriented face of a binary store: keys and values are serialised on
 the way in and deserialised on the way out.
 */
module SerializedStore {
  import opened Fields
  import opened RocksStore

  /** A binary archive for one type. */
  datatype Codec<!T> = Codec(encode: T -> Bytes, decode: Bytes -> T)

  /** What is assumed of the archives: reading gives back what was written, and
      an encoding is not empty and says where it ends. */
  ghost predicate Faithful<T(!new)>(c: Codec<T>) {
    && (forall x :: c.decode(c.encode(x)) == x && c.encode(x) != [])
    && (forall x, y :: c.encode(x) <= c.encode(y) ==> x == y)
  }

  ghost function EncodedKeys<T(!new)>(c: Codec<T>): Bytes -> bool {
    b => exists x :: c.encode(x) == b
  }

  /** The subkeys of encoded keys never collide: an encoding followed by digits
      is not an encoding, and determines the encoding it starts with. */
  lemma EncodedKeysApart<T(!new)>(c: Codec<T>)
    requires Faithful(c)
    ensures Apart(EncodedKeys(c))
  {
    var user := EncodedKeys(c);
    forall k, i: nat {:trigger SubKey(k, i)} | user(k)
      ensures !user(SubKey(k, i))
    {
      var x :| c.encode(x) == k;
      assert SubKey(k, i)[..|k|] == k;
      forall y
        ensures c.encode(y) != SubKey(k, i)
      {
        assert c.encode(x) <= c.encode(y) ==> x == y;
      }
    }
    forall k1, k2, i: nat, j: nat {:trigger SubKey(k1, i), SubKey(k2, j)} |
      user(k1) && user(k2) && SubKey(k1, i) == SubKey(k2, j)
      ensures k1 == k2
    {
      var x :| c.encode(x) == k1;
      var y :| c.encode(y) == k2;
      assert SubKey(k1, i)[..|k1|] == k1 && SubKey(k1, i)[..|k2|] == k2;
      assert c.encode(x) <= c.encode(y) || c.encode(y) <= c.encode(x);
    }
  }

  ghost function DecodeStore<K(!new), V(!new)>(m: map<Bytes, Bytes>, keys: Codec<K>, values: Codec<V>): imap<K, V> {
    imap k | keys.encode(k) in m :: values.decode(m[keys.encode(k)])
  }

  lemma DecodeUpdate<K(!new), V(!new)>(m: map<Bytes, Bytes>, keys: Codec<K>, values: Codec<V>, k: K, v: V)
    requires Faithful(keys) && Faithful(values)
    ensures DecodeStore(m[keys.encode(k) := values.encode(v)], keys, values) == DecodeStore(m, keys, values)[k := v]
  {
    var a := DecodeStore(m[keys.encode(k) := values.encode(v)], keys, values);
    var b := DecodeStore(m, keys, values)[k := v];
    forall x
      ensures x in a <==> x in b
      ensures x in a ==> a[x] == b[x]
    {
      assert keys.encode(x) == keys.encode(k) ==> x == k;
    }
  }

  lemma SameOff<K(!new), V(!new)>(m: map<Bytes, Bytes>, m': map<Bytes, Bytes>, keys: Codec<K>, values: Codec<V>, k: K)
    requires Faithful(keys) && m' - {keys.encode(k)} == m - {keys.encode(k)}
    ensures AgreeOff(DecodeStore(m', keys, values), DecodeStore(m, keys, values), {k})
  {
    forall x | x != k
      ensures Lookup(DecodeStore(m', keys, values), x) == Lookup(DecodeStore(m, keys, values), x)
    {
      var b := keys.encode(x);
      assert b != keys.encode(k);
      assert b in m' <==> b in m' - {keys.encode(k)};
      assert b in m <==> b in m - {keys.encode(k)};
      assert b in m ==> (m - {keys.encode(k)})[b] == m[b] && (m' - {keys.encode(k)})[b] == m'[b];
    }
  }

  ghost function RecordOf<K(!new)>(split: map<Bytes, seq<Bytes>>, keys: Codec<K>): imap<K, nat> {
    imap k | keys.encode(k) in split :: |split[keys.encode(k)]|
  }

  lemma RecordAdd<K(!new)>(split: map<Bytes, seq<Bytes>>, keys: Codec<K>, k: K, subs: seq<Bytes>)
    requires Faithful(keys)
    ensures RecordOf(split[keys.encode(k) := subs], keys) == RecordOf(split, keys)[k := |subs|]
  {
    assert forall x :: keys.encode(x) == keys.encode(k) ==> x == k;
  }

  lemma RecordRemove<K(!new)>(split: map<Bytes, seq<Bytes>>, keys: Codec<K>, k: K)
    requires Faithful(keys)
    ensures RecordOf(split - {keys.encode(k)}, keys) == Without(RecordOf(split, keys), k)
  {
    assert forall x :: keys.encode(x) == keys.encode(k) ==> x == k;
  }

  class Serialized<K(!new, ==), V(!new)> {
    const db: RocksDb
    const keys: Codec<K>
    const values: Codec<V>

    constructor (db: RocksDb, keys: Codec<K>, values: Codec<V>)
      requires db.Valid() && db.userKey == EncodedKeys(keys) && Faithful(keys) && Faithful(values)
      ensures this.db == db && this.keys == keys && this.values == values && Valid()
    {
      this.db := db;
      this.keys := keys;
      this.values := values;
    }

    ghost predicate Valid()
      reads db
    {
      && db.Valid() && Faithful(keys) && Faithful(values)
      && forall k :: db.userKey(keys.encode(k))
    }

    /** The store as a map of objects. */
    ghost function Contents(): imap<K, V>
      requires Valid()
      reads db
    {
      DecodeStore(db.Contents(), keys, values)
    }

    /** For the keys that the binary store holds cut values under, how many
        pieces it remembers. */
    ghost function Recorded(): imap<K, nat>
      reads db
    {
      RecordOf(db.splitValues, keys)
    }

    /** How many pieces a value is cut into; none if it is stored whole. */
    ghost function Pieces(v: V): nat {
      if |values.encode(v)| <= db.maxValueSize || db.maxValueSize == 0 then 0
      else |Chunks(values.encode(v), db.maxValueSize)|
    }

    /** A whole value lies under the cut one of `k`. */
    ghost predicate Leftover(k: K)
      reads db
    {
      var b := keys.encode(k);
      b in db.splitValues && b in db.db && db.db[b] != []
    }

    lemma PlainIffSamePieces(k: K, v: V)
      requires Valid()
      ensures PlainInsert(db.State(), keys.encode(k), values.encode(v), db.maxValueSize)
              <==> SamePieces(Recorded(), k, Pieces(v))
    {
      if keys.encode(k) in db.splitValues {
        assert ValidSplit(db.State(), keys.encode(k), db.maxValueSize, db.userKey);
      }
    }

    /** A store that opens the location of `earlier` finds every object that was
        not split as it was, and a split one exactly when a whole value lies under
        its pieces. */
    lemma OpensWhatWasLeft(earlier: Serialized<K, V>, key: K)
      requires Valid() && earlier.Valid() && keys == earlier.keys && values == earlier.values
      requires db.State() == Disk(earlier.db.db, map[])
      requires db.maxValueSize == earlier.db.maxValueSize && db.userKey == earlier.db.userKey
      ensures key !in earlier.Recorded() ==> Lookup(Contents(), key) == Lookup(earlier.Contents(), key)
      ensures key in earlier.Recorded() ==> (key in Contents() <==> earlier.Leftover(key))
    {
      ReopenedAt(earlier.db.State(), db.maxValueSize, db.userKey, keys.encode(key));
      hide ValidDisk, View, Faithful;
    }

    method Count(key: K) returns (found: bool)
      requires Valid()
      ensures found <==> key in Contents()
    {
      found := db.Count(keys.encode(key));
    }

    method Insert(key: K, value: V)
      requires Valid()
      modifies db
      ensures Valid()
      ensures AgreeOff(Contents(), old(Contents()), {key})
      ensures Recorded() == Recording(old(Recorded()), key, Pieces(value))
      ensures SamePieces(old(Recorded()), key, Pieces(value)) ==> Contents() == old(Contents())[key := value]
    {
      hide ValidDisk, View, PutAll, AgreeOff, DecodeStore, PlainInsert;
      var skey, sval := keys.encode(key), values.encode(value);
      InsertIsPlain(db.State(), skey, sval, db.maxValueSize, db.userKey);
      PlainIffSamePieces(key, value);
      RecordAdd(db.splitValues, keys, key, SubKeys(skey, |Chunks(sval, db.maxValueSize)|));
      ghost var before, rec := db.Contents(), Recorded();
      hide RecordOf, Faithful;
      db.Insert(skey, sval);
      SameOff(before, db.Contents(), keys, values, key);
      if SamePieces(rec, key, Pieces(value)) {
        DecodeUpdate(before, keys, values, key, value);
      }
    }

    /** Takes the key away, unless a whole value lies under its cut one. */
    method Free(key: K)
      requires Valid()
      modifies db
      ensures Valid()
      ensures AgreeOff(Contents(), old(Contents()), {key})
      ensures key !in Contents() <==> !old(Leftover(key))
      ensures Recorded() == Without(old(Recorded()), key)
    {
      hide ValidDisk, AgreeOff;
      var skey := keys.encode(key);
      FreeIsPlain(db.State(), skey, db.maxValueSize, db.userKey);
      ghost var before := db.Contents();
      RecordRemove(db.splitValues, keys, key);
      NotSplit(db.splitValues, skey);
      hide RecordOf, Faithful, View;
      db.Free(skey);
      SameOff(before, db.Contents(), keys, values, key);
    }

    method At(key: K) returns (value: Option<V>)
      requires Valid()
      ensures value == Lookup(Contents(), key)
    {
      var raw := db.At(keys.encode(key));
      match raw
      case None => value := None;
      case Some(b) => value := Some(values.decode(b));
    }
  }

  lemma NotSplit(split: map<Bytes, seq<Bytes>>, b: Bytes)
    ensures b !in split ==> split - {b} == split
  {
  }

  ghost function Without<K(!new), V>(m: imap<K, V>, k: K): imap<K, V> {
    imap x | x in m && x != k :: m[x]
  }

  ghost function Lookup<K, V>(m: imap<K, V>, k: K): Option<V> {
    if k in m then Some(m[k]) else None
  }

  /** What is on record after storing a value of `n` pieces: the first count
      stays. */
  ghost function Recording<K(!new)>(rec: imap<K, nat>, k: K, n: nat): imap<K, nat> {
    if n == 0 || k in rec then rec else rec[k := n]
  }

  /** Storing a value of `n` pieces under `k` agrees with what is on record. */
  ghost predicate SamePieces<K(!new)>(rec: imap<K, nat>, k: K, n: nat) {
    k in rec ==> rec[k] == n
  }

  /** The two maps agree on every key outside `keys`. */
  ghost predicate AgreeOff<K(!new), V>(a: imap<K, V>, b: imap<K, V>, keys: set<K>) {
    forall k :: k !in keys ==> Lookup(a, k) == Lookup(b, k)
  }

  /** `base` overridden by `m`. */
  ghost function Over<K(!new), V>(base: imap<K, V>, m: map<K, V>): imap<K, V> {
    imap k | k in base || k in m :: if k in m then m[k] else base[k]
  }

  lemma OverUpdate<K(!new), V>(base: imap<K, V>, m: map<K, V>, k: K, v: V)
    ensures Over(base, m)[k := v] == Over(base, m[k := v])
  {
  }

  lemma OverNothing<K(!new), V>(base: imap<K, V>)
    ensures Over(base, map[]) == base
  {
  }
}
