/** Bringing two databases together: the viewed-files marks, and single missing entries. */
module ViewedSync {
  import opened GoBytes
  import opened Database
  import SetSum

  /** The JSON form of a set of file indices; None is a text that is no such set. */
  datatype Codec = Codec(decode: Bytes -> Option<set<int>>, encode: set<int> -> Bytes) {
    /** What is written can be read. */
    ghost predicate Valid() {
      forall s {:trigger encode(s)} :: decode(encode(s)) == Some(s)
    }

    predicate Malformed(d: Option<Bytes>) {
      d.Some? && decode(d.value) == None
    }

    predicate WellFormed(d: Option<Bytes>) {
      !Malformed(d)
    }

    /** Spelled the way encode spells it. */
    predicate Canonical(d: Bytes) {
      decode(d).Some? && encode(decode(d).value) == d
    }

    /** The marks that data stands for; no data stands for none. */
    function Marks(d: Option<Bytes>): set<int> {
      if d == None || decode(d.value) == None then {} else decode(d.value).value
    }
  }

  function Merge(c: Codec, a: Option<Bytes>, b: Option<Bytes>): (m: Option<Bytes>)
    ensures m == None <==> a == None && b == None
  {
    if a == None then b
    else if b == None then a
    else if c.Malformed(a) then b
    else if c.Malformed(b) then a
    else Some(c.encode(c.Marks(a) + c.Marks(b)))
  }

  method MergeViewedDataSimple(c: Codec, a: Option<Bytes>, b: Option<Bytes>) returns (m: Option<Bytes>)
    ensures m == Merge(c, a, b)
  {
    if a == None && b == None {
      return None;
    }
    if a == None {
      return b;
    }
    if b == None {
      return a;
    }
    var indices1 := c.decode(a.value);
    if indices1 == None {
      return b;
    }
    var indices2 := c.decode(b.value);
    if indices2 == None {
      return a;
    }
    var merged: set<int> := {};
    var left := indices1.value;
    while left != {}
      invariant merged + left == indices1.value
      decreases left
    {
      var idx := SetSum.Pick(left);
      merged, left := merged + {idx}, left - {idx};
    }
    assert merged == indices1.value;
    left := indices2.value;
    while left != {}
      invariant merged + left == indices1.value + indices2.value
      decreases left
    {
      var idx := SetSum.Pick(left);
      merged, left := merged + {idx}, left - {idx};
    }
    assert merged == c.Marks(a) + c.Marks(b);
    return Some(c.encode(merged));
  }

  // ---- the laws of merging ---------------------------------------------------------------------------

  /** Merged data stands for the union of the marks. */
  lemma MergeIsUnion(c: Codec, a: Option<Bytes>, b: Option<Bytes>)
    requires c.Valid() && c.WellFormed(a) && c.WellFormed(b)
    ensures c.WellFormed(Merge(c, a, b))
    ensures c.Marks(Merge(c, a, b)) == c.Marks(a) + c.Marks(b)
  {
    if a.Some? && b.Some? {
      var s := c.Marks(a) + c.Marks(b);
      assert c.decode(c.encode(s)) == Some(s);
    }
  }

  /** Data on one side only is taken as it is; of data on both sides a malformed text gives way, the first
      one if both are; and two well-formed texts make a text written anew. */
  lemma MergeTakes(c: Codec, a: Bytes, b: Bytes)
    ensures Merge(c, None, None) == None
    ensures Merge(c, Some(a), None) == Merge(c, None, Some(a)) == Some(a)
    ensures c.decode(a) == None ==> Merge(c, Some(a), Some(b)) == Some(b)
    ensures c.decode(a).Some? && c.decode(b) == None ==> Merge(c, Some(a), Some(b)) == Some(a)
    ensures c.decode(a).Some? && c.decode(b).Some? ==>
              Merge(c, Some(a), Some(b)) == Some(c.encode(c.decode(a).value + c.decode(b).value))
  {
  }

  /** The entries of the viewed files, and no others, are synchronised. */
  lemma VisitsViewed(t: Table, u: Table, k: Key)
    ensures Visited(t, u, k) <==> k.xPath == "Viewed" && (k in t || k in u)
  {
  }

  /** Merging is symmetric to the byte, except that of two different malformed texts the second wins. */
  lemma MergeCommutesIff(c: Codec, a: Option<Bytes>, b: Option<Bytes>)
    ensures Merge(c, a, b) == Merge(c, b, a) <==> !(c.Malformed(a) && c.Malformed(b) && a != b)
  {
    assert c.Marks(a) + c.Marks(b) == c.Marks(b) + c.Marks(a);
  }

  lemma MergeAssociates(c: Codec, x: Option<Bytes>, y: Option<Bytes>, z: Option<Bytes>)
    requires c.Valid() && c.WellFormed(x) && c.WellFormed(y) && c.WellFormed(z)
    ensures Merge(c, Merge(c, x, y), z) == Merge(c, x, Merge(c, y, z))
  {
    MergeIsUnion(c, x, y);
    MergeIsUnion(c, y, z);
    assert c.Marks(x) + c.Marks(y) + c.Marks(z) == c.Marks(x) + (c.Marks(y) + c.Marks(z));
  }

  /** Merging data with itself keeps its marks always, and its bytes exactly when they are spelled
      canonically or cannot be read. */
  lemma MergeIdempotentIff(c: Codec, d: Bytes)
    requires c.Valid()
    ensures c.Marks(Merge(c, Some(d), Some(d))) == c.Marks(Some(d))
    ensures Merge(c, Some(d), Some(d)) == Some(d) <==> c.Malformed(Some(d)) || c.Canonical(d)
  {
    var s := c.Marks(Some(d));
    assert s + s == s;
    assert c.decode(c.encode(s)) == Some(s);
  }

  // ---- synchronising two databases -----------------------------------------------------------------------

  const VIEWED := "Viewed"

  /** The entries that synchronisation visits. */
  predicate Visited(t: Table, u: Table, k: Key) {
    k.xPath == VIEWED && (k in t || k in u)
  }

  function Merged(c: Codec, t: Table, u: Table, k: Key): Option<Bytes> {
    Merge(c, Lookup(t, k), Lookup(u, k))
  }

  /** `t2` is `t` with the merged data stored at the visited entries in `done`. */
  ghost predicate SyncedAt(c: Codec, store: Store, t: Table, u: Table, base: Table, result: Table, done: set<string>) {
    forall k :: Lookup(result, k) ==
                if Visited(t, u, k) && k.name in done then store(Lookup(base, k), Merged(c, t, u, k))
                else Lookup(base, k)
  }

  /** A store that is written to twice. */
  function Twice(store: Store): Store {
    (o: Option<Bytes>, v: Option<Bytes>) => store(store(o, v), v)
  }

  /** What one turn of the synchronisation does to a database: it writes the merged data once, or twice
      when both sides are the same database. */
  function Writes(store: Store, same: bool): Store {
    if same then Twice(store) else store
  }

  lemma PlainTwice(store: Store, same: bool)
    requires Plain(store)
    ensures Plain(Writes(store, same))
  {
  }

  /** Brings two databases together; they may be one and the same. */
  method SyncViewedSimple(c: Codec, bboltDB: DB, jsonDB: DB)
    modifies bboltDB, jsonDB
    ensures var t, u, all := old(bboltDB.table), old(jsonDB.table),
              Names(old(bboltDB.table), VIEWED) + Names(old(jsonDB.table), VIEWED);
            && SyncedAt(c, Writes(bboltDB.store, bboltDB == jsonDB), t, u, t, bboltDB.table, all)
            && SyncedAt(c, Writes(jsonDB.store, bboltDB == jsonDB), t, u, u, jsonDB.table, all)
  {
    ghost var t, u := bboltDB.table, jsonDB.table;
    var bboltHashes := bboltDB.List(VIEWED);
    var jsonHashes := jsonDB.List(VIEWED);
    var left := AllOf(bboltHashes) + AllOf(jsonHashes);
    assert left == Names(t, VIEWED) + Names(u, VIEWED);
    ghost var done: set<string> := {};
    while left != {}
      invariant done !! left && done + left == Names(t, VIEWED) + Names(u, VIEWED)
      invariant SyncedAt(c, Writes(bboltDB.store, bboltDB == jsonDB), t, u, t, bboltDB.table, done)
      invariant SyncedAt(c, Writes(jsonDB.store, bboltDB == jsonDB), t, u, u, jsonDB.table, done)
      decreases left
    {
      var hash := SetSum.Pick(left);
      left := left - {hash};
      SyncOne(c, bboltDB, jsonDB, hash, t, u, done);
      done := done + {hash};
    }
    assert done == Names(t, VIEWED) + Names(u, VIEWED);
  }

  function AllOf(a: array?<string>): set<string>
    reads a
  {
    if a == null then {} else set n | n in a[..]
  }

  /** The loop body: one hash merged into both databases. */
  method SyncOne(
    c: Codec, bboltDB: DB, jsonDB: DB, hash: string, ghost t: Table, ghost u: Table, ghost done: set<string>)
    requires hash !in done && hash in Names(t, VIEWED) + Names(u, VIEWED)
    requires bboltDB == jsonDB ==> t == u
    requires SyncedAt(c, Writes(bboltDB.store, bboltDB == jsonDB), t, u, t, bboltDB.table, done)
    requires SyncedAt(c, Writes(jsonDB.store, bboltDB == jsonDB), t, u, u, jsonDB.table, done)
    modifies bboltDB, jsonDB
    ensures SyncedAt(c, Writes(bboltDB.store, bboltDB == jsonDB), t, u, t, bboltDB.table, done + {hash})
    ensures SyncedAt(c, Writes(jsonDB.store, bboltDB == jsonDB), t, u, u, jsonDB.table, done + {hash})
  {
    var k := Key(VIEWED, hash);
    NameMember(t, k);
    NameMember(u, k);
    var bboltData := bboltDB.Get(k);
    var jsonData := jsonDB.Get(k);
    var merged := MergeViewedDataSimple(c, ToOption(bboltData), ToOption(jsonData));
    assert merged == Merged(c, t, u, k);
    if merged != None {
      var data := FromSeq(merged.value);
      ghost var before, before' := bboltDB.table, jsonDB.table;
      ghost var same := bboltDB == jsonDB;
      bboltDB.Set(k, data);
      jsonDB.Set(k, data);
      WrittenTwice(bboltDB.store, before, k, merged);
      SyncedGrows(c, Writes(bboltDB.store, same), t, u, t, before, done, k);
      SyncedGrows(c, Writes(jsonDB.store, same), t, u, u, before', done, k);
    }
  }

  lemma WrittenTwice(store: Store, t: Table, k: Key, v: Option<Bytes>)
    ensures Written(store, Written(store, t, k, v), k, v) == Written(Twice(store), t, k, v)
  {
    LookupUpdated(t, k, store(Lookup(t, k), v), k);
  }

  function ToOption(a: array?<byte>): (d: Option<Bytes>)
    reads a
    ensures d == Slice(a)
  {
    if a == null then None else Some(a[..])
  }

  lemma SyncedGrows(c: Codec, store: Store, t: Table, u: Table, base: Table, result: Table, done: set<string>, k: Key)
    requires SyncedAt(c, store, t, u, base, result, done) && Visited(t, u, k) && k.name !in done
    ensures SyncedAt(c, store, t, u, base, Written(store, result, k, Merged(c, t, u, k)), done + {k.name})
  {
    var v := store(Lookup(result, k), Merged(c, t, u, k));
    forall j ensures Lookup(Updated(result, k, v), j) ==
                     if Visited(t, u, j) && j.name in done + {k.name} then store(Lookup(base, j), Merged(c, t, u, j))
                     else Lookup(base, j)
    {
      LookupUpdated(result, k, v, j);
      assert Lookup(result, j) == if Visited(t, u, j) && j.name in done then store(Lookup(base, j), Merged(c, t, u, j))
                                  else Lookup(base, j);
      if j.name == k.name && j.xPath == k.xPath {
        assert j == k;
      }
    }
  }

  /** The tables that one synchronisation leaves over plain stores. */
  ghost predicate Synced(c: Codec, t: Table, u: Table, t': Table, u': Table) {
    forall k ::
      && Lookup(t', k) == (if Visited(t, u, k) then Merged(c, t, u, k) else Lookup(t, k))
      && Lookup(u', k) == (if Visited(t, u, k) then Merged(c, t, u, k) else Lookup(u, k))
  }

  /** Over plain stores SyncViewedSimple leaves those tables, be the databases two or one. */
  lemma PlainSyncs(c: Codec, s: Store, r: Store, same: bool, t: Table, u: Table, t': Table, u': Table)
    requires Plain(s) && Plain(r)
    requires SyncedAt(c, Writes(s, same), t, u, t, t', Names(t, VIEWED) + Names(u, VIEWED))
    requires SyncedAt(c, Writes(r, same), t, u, u, u', Names(t, VIEWED) + Names(u, VIEWED))
    ensures Synced(c, t, u, t', u')
  {
    PlainTwice(s, same);
    PlainTwice(r, same);
    var all := Names(t, VIEWED) + Names(u, VIEWED);
    forall k
      ensures Lookup(t', k) == (if Visited(t, u, k) then Merged(c, t, u, k) else Lookup(t, k))
      ensures Lookup(u', k) == (if Visited(t, u, k) then Merged(c, t, u, k) else Lookup(u, k))
    {
      NameMember(t, k);
      NameMember(u, k);
      assert Lookup(t', k) == if Visited(t, u, k) && k.name in all
                              then Writes(s, same)(Lookup(t, k), Merged(c, t, u, k)) else Lookup(t, k);
      assert Lookup(u', k) == if Visited(t, u, k) && k.name in all
                              then Writes(r, same)(Lookup(u, k), Merged(c, t, u, k)) else Lookup(u, k);
    }
  }

  /** After a synchronisation both databases hold the same data for every hash, and for readable data
      the union of the marks the two had. */
  lemma BothHoldTheUnion(c: Codec, t: Table, u: Table, t': Table, u': Table, hash: string)
    requires c.Valid() && Synced(c, t, u, t', u')
    requires c.WellFormed(Lookup(t, Key(VIEWED, hash))) && c.WellFormed(Lookup(u, Key(VIEWED, hash)))
    ensures var k := Key(VIEWED, hash);
            && Lookup(t', k) == Lookup(u', k)
            && c.WellFormed(Lookup(t', k))
            && c.Marks(Lookup(t', k)) == c.Marks(Lookup(t, k)) + c.Marks(Lookup(u, k))
            && (Lookup(t', k) == None <==> Lookup(t, k) == None && Lookup(u, k) == None)
  {
    var k := Key(VIEWED, hash);
    assert Lookup(t', k) == (if Visited(t, u, k) then Merged(c, t, u, k) else Lookup(t, k));
    assert Lookup(u', k) == (if Visited(t, u, k) then Merged(c, t, u, k) else Lookup(u, k));
    MergeIsUnion(c, Lookup(t, k), Lookup(u, k));
  }

  /** Whether the data taken for a pair is already in the form a further merge gives it: both sides
      were read and joined, or the side that is copied over is canonical or unreadable. */
  predicate Settled(c: Codec, a: Option<Bytes>, b: Option<Bytes>) {
    if a == None && b == None then true
    else
      var copied := if a == None || (c.Malformed(a) && b.Some?) then b else a;
      || (a.Some? && b.Some? && !c.Malformed(a) && !c.Malformed(b))
      || c.Malformed(copied) || c.Canonical(copied.value)
  }

  /** A second synchronisation leaves an entry's marks alone always, and its bytes exactly when the
      pair was settled; a third never changes anything. */
  lemma SecondSyncChangesIff(c: Codec, t: Table, u: Table, t1: Table, u1: Table, t2: Table, u2: Table, hash: string)
    requires c.Valid() && Synced(c, t, u, t1, u1) && Synced(c, t1, u1, t2, u2)
    ensures var k := Key(VIEWED, hash);
            && c.Marks(Lookup(t2, k)) == c.Marks(Lookup(t1, k))
            && (Lookup(t2, k) == Lookup(t1, k) && Lookup(u2, k) == Lookup(u1, k)
                <==> Settled(c, Lookup(t, k), Lookup(u, k)))
            && Merge(c, Lookup(t2, k), Lookup(u2, k)) == Lookup(t2, k)
  {
    var k := Key(VIEWED, hash);
    var a, b := Lookup(t, k), Lookup(u, k);
    assert Lookup(t1, k) == (if Visited(t, u, k) then Merged(c, t, u, k) else Lookup(t, k));
    assert Lookup(u1, k) == (if Visited(t, u, k) then Merged(c, t, u, k) else Lookup(u, k));
    assert Lookup(t2, k) == (if Visited(t1, u1, k) then Merged(c, t1, u1, k) else Lookup(t1, k));
    assert Lookup(u2, k) == (if Visited(t1, u1, k) then Merged(c, t1, u1, k) else Lookup(u1, k));
    var m := Merge(c, a, b);
    if m.Some? {
      MergeTwice(c, m.value);
      SettledMeansFixed(c, a, b);
    }
  }

  lemma MergeTwice(c: Codec, d: Bytes)
    requires c.Valid()
    ensures var m := Merge(c, Some(d), Some(d));
            Merge(c, m, m) == m && c.Marks(m) == c.Marks(Some(d))
  {
    MergeIdempotentIff(c, d);
    var s := c.Marks(Some(d));
    assert c.decode(c.encode(s)) == Some(s);
    assert s + s == s;
  }

  lemma SettledMeansFixed(c: Codec, a: Option<Bytes>, b: Option<Bytes>)
    requires c.Valid() && Merge(c, a, b).Some?
    ensures var m := Merge(c, a, b);
            Merge(c, m, m) == m <==> Settled(c, a, b)
  {
    var m := Merge(c, a, b);
    MergeIdempotentIff(c, m.value);
    var s := c.Marks(a) + c.Marks(b);
    assert c.decode(c.encode(s)) == Some(s);
  }

  // ---- a single missing entry ------------------------------------------------------------------------------

  /** Copies an entry to the side that lacks it; an entry that exists is never overwritten. */
  method MigrateMissing(db1: DB, db2: DB, k: Key)
    modifies db1, db2
    ensures db1 == db2 ==> db1.table == old(db1.table)
    ensures db1 != db2 ==>
              var a, b := Lookup(old(db1.table), k), Lookup(old(db2.table), k);
              var b' := if b == None && a.Some? then db2.store(None, a) else b;
              var a' := if a == None && b'.Some? then db1.store(None, b') else a;
              Lookup(db1.table, k) == a' && Lookup(db2.table, k) == b'
    ensures Plain(db1.store) && Plain(db2.store) ==>
              var a, b := Lookup(old(db1.table), k), Lookup(old(db2.table), k);
              && Lookup(db1.table, k) == (if a == None then b else a)
              && Lookup(db2.table, k) == (if b == None then a else b)
    ensures forall j :: j != k ==> Lookup(db1.table, j) == Lookup(old(db1.table), j)
    ensures forall j :: j != k ==> Lookup(db2.table, j) == Lookup(old(db2.table), j)
  {
    var there := db2.Get(k);
    if there == null {
      var data := db1.Get(k);
      if data != null {
        db2.Set(k, data);
      }
    }
    var here := db1.Get(k);
    if here == null {
      var data := db2.Get(k);
      if data != null {
        db1.Set(k, data);
      }
    }
  }
}
