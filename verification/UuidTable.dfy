/**
 The shared table from type-erased values to UUIDs.  It is stored backwards, as
 an in-memory map from UUIDs to values, and read by scanning.  The scan finds
 the UUID of a value only because UUIDMapper never gives a value a second one.
 */
module UuidTable {
  import opened Fields
  import opened SerializedStore

  /** The stored direction of the relation. */
  type Table = map<Uuid, Any>

  ghost predicate OneToOne(t: Table) {
    forall u1, u2 :: u1 in t && u2 in t && t[u1] == t[u2] ==> u1 == u2
  }

  ghost predicate Grows(t: Table, t': Table) {
    forall u :: u in t ==> u in t' && t'[u] == t[u]
  }

  ghost predicate Assigned(t: Table, a: Any, u: Uuid) {
    u in t && t[u] == a
  }

  /** Storing a value under a fresh UUID keeps the relation one-to-one exactly
      when the value did not have a UUID yet: the guard of UUIDMapper. */
  lemma GuardKeepsOneToOne(t: Table, a: Any, u: Uuid)
    requires OneToOne(t) && u !in t
    ensures OneToOne(t[u := a]) <==> (forall w :: !Assigned(t, a, w))
    ensures Grows(t, t[u := a])
  {
    var t' := t[u := a];
    if OneToOne(t') {
      forall w
        ensures !Assigned(t, a, w)
      {
        assert t'[u] == a && u in t';
        assert w in t ==> w in t' && t'[w] == t[w] && w != u;
      }
    }
    forall u1, u2 | u1 in t' && u2 in t' && t'[u1] == t'[u2] && u1 != u2
      ensures exists w :: Assigned(t, a, w)
    {
      assert Assigned(t, a, if u1 == u then u2 else u1) || (u1 != u && u2 != u);
    }
  }

  /** In a one-to-one table the scan has one possible answer, and growing the
      table does not change it. */
  lemma ScanIsStable(t: Table, t': Table, a: Any, u: Uuid, u': Uuid)
    requires OneToOne(t') && Grows(t, t')
    requires Assigned(t, a, u) && Assigned(t', a, u')
    ensures u == u'
  {
    assert t'[u] == t'[u'];
  }

  // ------------------------------------------------------------ fresh names

  ghost function LongestOf(s: set<Uuid>): (n: nat)
    ensures forall x :: x in s ==> |x| <= n
  {
    if s == {} then 0
    else
      var x :| x in s;
      var n := LongestOf(s - {x});
      if |x| > n then |x| else n
  }

  lemma FreshUuidExists(issued: set<Uuid>)
    ensures exists u :: u !in issued
  {
    var u: Uuid := seq(LongestOf(issued) + 1, _ => 'u');
    assert |u| > LongestOf(issued);
    assert u !in issued;
  }

  /** The random generator, assumed never to repeat an issued UUID. */
  method GenerateUuid(issued: set<Uuid>) returns (u: Uuid)
    ensures u !in issued
  {
    FreshUuidExists(issued);
    u :| u !in issued;
  }

  // ------------------------------------------------------- Native<uuid, any>

  class UuidNative {
    var entries: Table
    const backup: Serialized?<Uuid, Any>

    constructor (backup: Serialized?<Uuid, Any>)
      ensures entries == map[] && this.backup == backup
    {
      entries := map[];
      this.backup := backup;
    }

    ghost function Disk(): set<object> {
      if backup == null then {} else {backup.db}
    }

    ghost predicate Valid()
      reads this, Disk()
    {
      backup != null ==> backup.Valid()
    }

    method Count(key: Uuid) returns (found: bool)
      ensures found <==> key in entries
    {
      found := key in entries;
    }

    method Insert(key: Uuid, value: Any)
      modifies `entries
      ensures entries == old(entries)[key := value]
    {
      entries := entries[key := value];
    }

    method At(key: Uuid) returns (value: Option<Any>)
      ensures value == if key in entries then Some(entries[key]) else None
    {
      value := if key in entries then Some(entries[key]) else None;
    }

    /** The backup remembers a number of pieces only for UUIDs in the table, and
        it is that of their values.  So it holds as long as UUIDs are only added:
        at the start of a session nothing is on record. */
    ghost predicate PlainBackup()
      requires Valid()
      reads this, Disk()
    {
      backup != null ==>
        forall u :: u in backup.Recorded() ==> u in entries && backup.Recorded()[u] == backup.Pieces(entries[u])
    }

    /** Copies every entry to the backup database, if there is one: it then
        holds the table, over what it held before, for values of any length. */
    method Backup()
      requires Valid() && PlainBackup()
      modifies Disk()
      ensures Valid() && PlainBackup()
      ensures backup != null ==> backup.Contents() == Over(old(backup.Contents()), entries)
    {
      hide Serialized.Contents, Serialized.Valid, Serialized.Recorded, Serialized.Pieces, Over;
      if backup == null { return; }
      ghost var start := backup.Contents();
      ghost var done: Table := map[];
      OverNothing(start);
      var todo := entries.Keys;
      while todo != {}
        invariant Valid() && todo <= entries.Keys
        invariant done == map u | u in entries && u !in todo :: entries[u]
        invariant PlainBackup() && backup.Contents() == Over(start, done)
        decreases todo
      {
        var u :| u in todo;
        OverUpdate(start, done, u, entries[u]);
        backup.Insert(u, entries[u]);
        done := done[u := entries[u]];
        todo := todo - {u};
      }
      assert done == entries;
    }
  }

  // ------------------------------------------------------------- Transposer

  class Transposer {
    var keys: set<Uuid>
    const db: UuidNative

    constructor (db: UuidNative)
      requires db.Valid() && db.entries == map[]
      ensures this.db == db && Valid()
    {
      this.db := db;
      keys := {};
    }

    ghost predicate Valid()
      reads this, db, db.Disk()
    {
      db.Valid() && keys == db.entries.Keys
    }

    ghost function Table(): Table
      reads db
    {
      db.entries
    }

    method Count(key: Any) returns (found: bool)
      requires Valid()
      ensures found <==> exists u :: Assigned(Table(), key, u)
    {
      var hit := Scan(key);
      found := hit.Some?;
    }

    method At(key: Any) returns (value: Option<Uuid>)
      requires Valid()
      ensures value.Some? ==> Assigned(Table(), key, value.value)
      ensures value.None? ==> forall u :: !Assigned(Table(), key, u)
    {
      value := Scan(key);
    }

    /** The loop that `count_` and `at_` share: any stored UUID whose value is
        `key`, in the unspecified order of the key set. */
    method Scan(key: Any) returns (hit: Option<Uuid>)
      requires Valid()
      ensures hit.Some? ==> Assigned(Table(), key, hit.value)
      ensures hit.None? ==> forall u :: !Assigned(Table(), key, u)
    {
      var todo := keys;
      while todo != {}
        invariant todo <= keys
        invariant forall u :: u in keys && u !in todo ==> !Assigned(Table(), key, u)
        decreases todo
      {
        var u :| u in todo;
        var value := db.At(u);
        if value == Some(key) { return Some(u); }
        todo := todo - {u};
      }
      return None;
    }

    /** Overwrites whatever was stored under the UUID `value`. */
    method Insert(key: Any, value: Uuid)
      requires Valid()
      modifies this, db
      ensures Valid() && Table() == old(Table())[value := key]
    {
      keys := keys + {value};
      db.Insert(value, key);
    }

    /** The table as its one writer leaves it. */
    ghost predicate InOrder()
      requires Valid()
      reads this, db, db.Disk()
    {
      OneToOne(Table()) && db.PlainBackup()
    }

    method Backup()
      requires Valid() && InOrder()
      modifies db.Disk()
      ensures Valid() && InOrder()
      ensures db.backup != null ==> db.backup.Contents() == Over(old(db.backup.Contents()), Table())
    {
      hide Serialized.Contents, Serialized.Valid, Serialized.Recorded, Serialized.Pieces, Over, OneToOne;
      db.Backup();
    }
  }

  // ------------------------------------------------------------- TypeEraser

  class TypeEraser {
    const db: Transposer

    constructor (db: Transposer)
      ensures this.db == db
    {
      this.db := db;
    }

    function Wrap(f: Field): Any {
      f.value
    }

    method Count(key: Field) returns (found: bool)
      requires db.Valid()
      ensures found <==> exists u :: Assigned(db.Table(), key.value, u)
    {
      found := db.Count(Wrap(key));
    }

    method Insert(key: Field, value: Uuid)
      requires db.Valid()
      modifies db, db.db
      ensures db.Valid() && db.Table() == old(db.Table())[value := key.value]
    {
      db.Insert(Wrap(key), value);
    }

    method At(key: Field) returns (value: Option<Uuid>)
      requires db.Valid()
      ensures value.Some? ==> Assigned(db.Table(), key.value, value.value)
      ensures value.None? ==> forall u :: !Assigned(db.Table(), key.value, u)
    {
      value := db.At(Wrap(key));
    }
  }

  // ------------------------------------------------------------- UUIDMapper

  class UuidMapper {
    const db: TypeEraser

    constructor (db: TypeEraser)
      ensures this.db == db
    {
      this.db := db;
    }

    ghost predicate Valid()
      reads db.db, db.db.db, db.db.db.Disk()
    {
      db.db.Valid() && db.db.InOrder()
    }

    /** A no-op on a value that has a UUID; otherwise the value gets a fresh
        one.  Either way the relation stays one-to-one and only grows. */
    method Insert(key: Field)
      requires Valid()
      modifies db.db, db.db.db
      ensures Valid() && Grows(old(db.db.Table()), db.db.Table())
      ensures exists u :: Assigned(db.db.Table(), key.value, u)
      ensures forall u :: u in db.db.Table() && u !in old(db.db.Table()) ==> db.db.Table()[u] == key.value
    {
      var known := db.Count(key);
      if known { return; }
      var u := GenerateUuid(db.db.keys);
      GuardKeepsOneToOne(db.db.Table(), key.value, u);
      db.Insert(key, u);
      assert Assigned(db.db.Table(), key.value, u);
    }

    method At(key: Field) returns (value: Option<Uuid>)
      requires Valid()
      ensures value.Some? ==> Assigned(db.db.Table(), key.value, value.value)
      ensures value.None? ==> forall u :: !Assigned(db.db.Table(), key.value, u)
    {
      value := db.At(key);
    }
  }
}
