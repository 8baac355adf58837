/** A settings database, seen as a map from (xPath, name) to bytes. */
module Database {
  import opened GoBytes
  import SetSum

  datatype Key = Key(xPath: string, name: string)

  type Table = map<Key, Bytes>

  /** What a database keeps when `value` (None for Go's nil) is written over `old`. A plain store
      keeps the value; others may rewrite it, or reject it and keep what they had. */
  type Store = (Option<Bytes>, Option<Bytes>) -> Option<Bytes>

  /** A store that hands back what it is given. */
  ghost predicate Plain(store: Store) {
    forall o, v {:trigger store(o, v)} :: store(o, v) == v
  }

  function Lookup(t: Table, k: Key): Option<Bytes> {
    if k in t then Some(t[k]) else None
  }

  function Updated(t: Table, k: Key, v: Option<Bytes>): Table {
    if v == None then t - {k} else t[k := v.value]
  }

  function Written(store: Store, t: Table, k: Key, v: Option<Bytes>): Table {
    Updated(t, k, store(Lookup(t, k), v))
  }

  function Cleared(t: Table, xPath: string): Table {
    map k | k in t && k.xPath != xPath :: t[k]
  }

  /** The names stored under an xPath. */
  function Names(t: Table, xPath: string): set<string> {
    set k | k in t && k.xPath == xPath :: k.name
  }

  predicate NoRepeats<T(==)>(items: seq<T>) {
    forall i, j :: 0 <= i < j < |items| ==> items[i] != items[j]
  }

  /** A possible answer of List: every stored name once, in any order; nil when there is none. */
  ghost predicate IsListing(names: Option<seq<string>>, t: Table, xPath: string) {
    var items := if names == None then [] else names.value;
    && (forall n :: n in items <==> n in Names(t, xPath))
    && NoRepeats(items)
  }

  lemma LookupUpdated(t: Table, k: Key, v: Option<Bytes>, other: Key)
    ensures Lookup(Updated(t, k, v), other) == if other == k then v else Lookup(t, other)
  {
  }

  lemma LookupCleared(t: Table, xPath: string, k: Key)
    ensures Lookup(Cleared(t, xPath), k) == if k.xPath == xPath then None else Lookup(t, k)
  {
  }

  lemma NamesUpdated(t: Table, k: Key, v: Option<Bytes>, xPath: string)
    requires xPath != k.xPath
    ensures Names(Updated(t, k, v), xPath) == Names(t, xPath)
  {
    var u := Updated(t, k, v);
    forall n ensures n in Names(u, xPath) <==> n in Names(t, xPath) {
      assert Key(xPath, n) in u <==> Key(xPath, n) in t;
      assert n in Names(u, xPath) <==> Key(xPath, n) in u;
      assert n in Names(t, xPath) <==> Key(xPath, n) in t;
    }
  }

  lemma NamesCleared(t: Table, xPath: string, other: string)
    ensures Names(Cleared(t, xPath), other) == if other == xPath then {} else Names(t, other)
  {
    var u := Cleared(t, xPath);
    if other != xPath {
      forall n ensures n in Names(u, other) <==> n in Names(t, other) {
        assert Key(other, n) in u <==> Key(other, n) in t;
        assert n in Names(u, other) <==> Key(other, n) in u;
        assert n in Names(t, other) <==> Key(other, n) in t;
      }
    }
  }

  lemma NameMember(t: Table, k: Key)
    ensures k in t <==> k.name in Names(t, k.xPath)
  {
    if k.name in Names(t, k.xPath) {
      var j :| j in t && j.xPath == k.xPath && j.name == k.name;
      assert j == k;
    }
  }

  /** The bytes of a Go slice; nil is None. */
  ghost function Slice<T>(a: array?<T>): Option<seq<T>>
    reads a
  {
    if a == null then None else Some(a[..])
  }

  method Clone<T>(a: array?<T>) returns (c: array?<T>)
    ensures c == null <==> a == null
    ensures c != null ==> fresh(c) && c[..] == a[..]
  {
    if a == null {
      return null;
    }
    c := new T[a.Length](i requires 0 <= i < a.Length reads a => a[i]);
    assert c[..] == a[..];
  }

  method FromSeq<T>(s: seq<T>) returns (c: array<T>)
    ensures fresh(c) && c[..] == s
  {
    c := new T[|s|](i requires 0 <= i < |s| => s[i]);
  }

  class DB {
    const store: Store
    var table: Table

    constructor (store: Store)
      ensures this.store == store && table == map[]
    {
      this.store, table := store, map[];
    }

    method Get(k: Key) returns (data: array?<byte>)
      ensures data != null ==> fresh(data)
      ensures Slice(data) == Lookup(table, k)
    {
      if k !in table {
        return null;
      }
      data := FromSeq(table[k]);
    }

    method Set(k: Key, value: array?<byte>)
      modifies this
      ensures table == Written(store, old(table), k, old(Slice(value)))
    {
      var v: Option<Bytes> := if value == null then None else Some(value[..]);
      table := Written(store, table, k, v);
    }

    method List(xPath: string) returns (names: array?<string>)
      ensures names != null ==> fresh(names)
      ensures IsListing(Slice(names), table, xPath)
    {
      var left := Names(table, xPath);
      var items: seq<string> := [];
      while left != {}
        invariant forall n :: n in Names(table, xPath) <==> n in left || n in items
        invariant forall n :: n in items ==> n !in left
        invariant NoRepeats(items)
        decreases left
      {
        var n := SetSum.Pick(left);
        left := left - {n};
        items := items + [n];
      }
      names := FromSeq(items);
    }

    method Rem(k: Key)
      modifies this
      ensures table == Updated(old(table), k, None)
    {
      table := table - {k};
    }

    method Clear(xPath: string)
      modifies this
      ensures table == Cleared(old(table), xPath)
    {
      table := Cleared(table, xPath);
    }
  }
}
