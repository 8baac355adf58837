/** The read-through cache in front of a settings database. */
module ReadCache {
  import opened GoBytes
  import opened Database
  import SetSum

  type DataCache = map<Key, Option<Bytes>>
  type ListCache = map<string, Option<seq<string>>>

  /** The database's table and the two caches. */
  datatype World = World(table: Table, data: DataCache, lists: ListCache)

  /** Every cached entry is what the database would answer. */
  ghost predicate Coherent(w: World) {
    && (forall k :: k in w.data ==> w.data[k] == Lookup(w.table, k))
    && (forall x :: x in w.lists ==> IsListing(w.lists[x], w.table, x))
  }

  // ---- the operations on values --------------------------------------------------------------------

  function GetAnswer(w: World, k: Key): Option<Bytes> {
    if k in w.data then w.data[k] else Lookup(w.table, k)
  }

  function AfterGet(w: World, k: Key): World {
    if k in w.data then w else w.(data := w.data[k := Lookup(w.table, k)])
  }

  function AfterSet(store: Store, w: World, k: Key, v: Option<Bytes>): World {
    World(Written(store, w.table, k, v), w.data[k := v], w.lists - {k.xPath})
  }

  function AfterRem(w: World, k: Key): World {
    World(Updated(w.table, k, None), w.data - {k}, w.lists - {k.xPath})
  }

  function AfterClear(w: World, xPath: string): World {
    World(Cleared(w.table, xPath), map k | k in w.data && k.xPath != xPath :: w.data[k], w.lists - {xPath})
  }

  /** What List may answer: the cached names, or whatever the database lists now. */
  ghost predicate ListAnswer(w: World, xPath: string, names: Option<seq<string>>) {
    if xPath in w.lists then names == w.lists[xPath] else IsListing(names, w.table, xPath)
  }

  function AfterList(w: World, xPath: string, names: Option<seq<string>>): World {
    w.(lists := w.lists[xPath := names])
  }

  // ---- the cache itself ------------------------------------------------------------------------------

  class DBReadCache {
    const db: DB
    var listCache: map<string, array?<string>>
    var dataCache: map<Key, array?<byte>>

    ghost function OwnedData(): set<object>
      reads this
    {
      set k | k in dataCache && dataCache[k] != null :: dataCache[k] as object
    }

    ghost function OwnedLists(): set<object>
      reads this
    {
      set x | x in listCache && listCache[x] != null :: listCache[x] as object
    }

    /** The slices the caches hold; nobody else ever gets hold of one. */
    ghost function Owned(): set<object>
      reads this
    {
      OwnedData() + OwnedLists()
    }

    ghost function DataView(): DataCache
      reads this, OwnedData()
    {
      map k | k in dataCache :: Slice(dataCache[k])
    }

    ghost function ListView(): ListCache
      reads this, OwnedLists()
    {
      map x | x in listCache :: Slice(listCache[x])
    }

    ghost function View(): World
      reads this, db, Owned()
    {
      World(db.table, DataView(), ListView())
    }

    constructor (db: DB)
      ensures this.db == db && Owned() == {} && View() == World(db.table, map[], map[])
    {
      this.db, listCache, dataCache := db, map[], map[];
    }

    /** The critical section that stores a private copy of `value` in the data cache. */
    method FillData(k: Key, value: array?<byte>)
      modifies this
      ensures fresh(Owned() - old(Owned()))
      ensures DataView() == old(DataView())[k := Slice(value)]
      ensures ListView() == old(ListView())
    {
      var kept := Clone(value);
      dataCache := dataCache[k := kept];
    }

    /** The critical section that stores a private copy of `names` in the list cache. */
    method FillList(xPath: string, names: array?<string>)
      modifies this
      ensures fresh(Owned() - old(Owned()))
      ensures ListView() == old(ListView())[xPath := Slice(names)]
      ensures DataView() == old(DataView())
    {
      var kept := Clone(names);
      listCache := listCache[xPath := kept];
    }

    /** The critical section that forgets the names under an xPath. */
    method DropList(xPath: string)
      modifies this
      ensures Owned() <= old(Owned())
      ensures ListView() == old(ListView()) - {xPath}
      ensures DataView() == old(DataView())
    {
      listCache := listCache - {xPath};
    }

    /** The critical section that forgets the value of a key. */
    method DropKey(k: Key)
      modifies this
      ensures Owned() <= old(Owned())
      ensures DataView() == old(DataView()) - {k}
      ensures ListView() == old(ListView())
    {
      dataCache := dataCache - {k};
    }

    /** The critical section that forgets the values of all keys under an xPath. */
    method DropData(xPath: string)
      modifies this
      ensures Owned() <= old(Owned())
      ensures DataView() == map k | k in old(DataView()) && k.xPath != xPath :: old(DataView())[k]
      ensures ListView() == old(ListView())
    {
      var left := dataCache.Keys;
      while left != {}
        invariant left <= old(dataCache).Keys && listCache == old(listCache)
        invariant dataCache == map k | k in old(dataCache) && (k in left || k.xPath != xPath) :: old(dataCache)[k]
        decreases left
      {
        var k := SetSum.Pick(left);
        left := left - {k};
        if k.xPath == xPath {
          dataCache := dataCache - {k};
        }
      }
    }

    /** The answer is a copy of the caller's own: writing to it later cannot reach the cache, and the
        same holds for the slices passed to Set, for the frame of View is the cache's own slices. */
    method Get(k: Key) returns (r: array?<byte>)
      modifies this
      ensures r != null ==> fresh(r) && r !in Owned()
      ensures fresh(Owned() - old(Owned()))
      ensures Slice(r) == GetAnswer(old(View()), k)
      ensures View() == AfterGet(old(View()), k)
    {
      if k in dataCache {
        r := Clone(dataCache[k]);
        return;
      }
      var data := db.Get(k);
      FillData(k, data);
      r := Clone(data);
    }

    method Set(k: Key, value: array?<byte>, readOnly: bool)
      modifies this, db
      ensures fresh(Owned() - old(Owned()))
      ensures View() == if readOnly then old(View()) else AfterSet(db.store, old(View()), k, old(Slice(value)))
    {
      if readOnly {
        return;
      }
      FillData(k, value);
      DropList(k.xPath);
      db.Set(k, value);
    }

    method List(xPath: string) returns (r: array?<string>)
      modifies this
      ensures r != null ==> fresh(r) && r !in Owned()
      ensures fresh(Owned() - old(Owned()))
      ensures ListAnswer(old(View()), xPath, Slice(r))
      ensures View() == AfterList(old(View()), xPath, Slice(r))
    {
      if xPath in listCache {
        r := Clone(listCache[xPath]);
        assert ListView()[xPath := Slice(r)] == ListView();
        return;
      }
      var names := db.List(xPath);
      FillList(xPath, names);
      r := Clone(names);
    }

    method Rem(k: Key, readOnly: bool)
      modifies this, db
      ensures Owned() <= old(Owned())
      ensures View() == if readOnly then old(View()) else AfterRem(old(View()), k)
    {
      if readOnly {
        return;
      }
      DropKey(k);
      DropList(k.xPath);
      db.Rem(k);
    }

    method Clear(xPath: string, readOnly: bool)
      modifies this, db
      ensures Owned() <= old(Owned())
      ensures View() == if readOnly then old(View()) else AfterClear(old(View()), xPath)
    {
      if readOnly {
        return;
      }
      db.Clear(xPath);
      DropList(xPath);
      DropData(xPath);
    }
  }

  /** Writing into a slice that the cache does not hold leaves the cache and the database as they are. */
  method CallerWrites<T>(cache: DBReadCache, slice: array<T>, i: nat, item: T)
    requires slice as object !in cache.Owned() && i < slice.Length
    modifies slice
    ensures cache.View() == old(cache.View()) && cache.Owned() == old(cache.Owned())
  {
    slice[i] := item;
    assert cache.DataView() == old(cache.DataView());
    assert cache.ListView() == old(cache.ListView());
  }

  /** A caller that writes into the answer it got changes nothing beyond what Get does. */
  method GetThenWrite(cache: DBReadCache, k: Key, i: nat, b: byte)
    modifies cache
    ensures cache.View() == AfterGet(old(cache.View()), k)
  {
    var answer := cache.Get(k);
    if answer != null && i < answer.Length {
      CallerWrites(cache, answer, i, b);
    }
  }

  /** Nor does one that writes into a list of names it got. */
  method ListThenWrite(cache: DBReadCache, xPath: string, i: nat, name: string)
    returns (ghost names: Option<seq<string>>)
    modifies cache
    ensures ListAnswer(old(cache.View()), xPath, names)
    ensures cache.View() == AfterList(old(cache.View()), xPath, names)
  {
    var answer := cache.List(xPath);
    names := Slice(answer);
    if answer != null && i < answer.Length {
      CallerWrites(cache, answer, i, name);
    }
  }

  /** A caller that goes on to reuse the slice it passed to Set has still set what the slice held. */
  method SetThenWrite(cache: DBReadCache, k: Key, data: Bytes, i: nat, b: byte)
    modifies cache, cache.db
    ensures cache.View() == AfterSet(cache.db.store, old(cache.View()), k, Some(data))
  {
    var slice := FromSeq(data);
    cache.Set(k, slice, false);
    if i < slice.Length {
      CallerWrites(cache, slice, i, b);
    }
  }

  // ---- the cache never shows -----------------------------------------------------------------------------

  datatype Op =
    | Get(k: Key)
    | Set(k: Key, value: Option<Bytes>, readOnly: bool)
    | List(xPath: string, names: Option<seq<string>>)
    | Rem(k: Key, readOnly: bool)
    | Clear(xPath: string, readOnly: bool)

  function Step(store: Store, w: World, op: Op): World {
    match op
    case Get(k) => AfterGet(w, k)
    case Set(k, v, readOnly) => if readOnly then w else AfterSet(store, w, k, v)
    case List(x, names) => AfterList(w, x, names)
    case Rem(k, readOnly) => if readOnly then w else AfterRem(w, k)
    case Clear(x, readOnly) => if readOnly then w else AfterClear(w, x)
  }

  /** The same operation on a database without a cache. */
  function PlainStep(store: Store, t: Table, op: Op): Table {
    match op
    case Set(k, v, readOnly) => if readOnly then t else Written(store, t, k, v)
    case Rem(k, readOnly) => if readOnly then t else Updated(t, k, None)
    case Clear(x, readOnly) => if readOnly then t else Cleared(t, x)
    case _ => t
  }

  /** In read-only mode no operation writes, neither through the cache nor to a database without one. */
  lemma ReadOnlyKeeps(store: Store, w: World, t: Table, op: Op)
    requires (op.Set? || op.Rem? || op.Clear?) && op.readOnly
    ensures Step(store, w, op) == w && PlainStep(store, t, op) == t
  {
  }

  /** The database hands back what this operation writes, if it writes anything. */
  predicate Faithful(store: Store, w: World, op: Op) {
    op.Set? && !op.readOnly ==> store(Lookup(w.table, op.k), op.value) == op.value
  }

  /** A List operation that reports an answer the cache could have given. */
  ghost predicate Fits(w: World, op: Op) {
    op.List? ==> ListAnswer(w, op.xPath, op.names)
  }

  lemma ListingKept(w: World, u: World, x: string)
    requires Coherent(w) && x in w.lists && x in u.lists && u.lists[x] == w.lists[x]
    requires Names(u.table, x) == Names(w.table, x)
    ensures IsListing(u.lists[x], u.table, x)
  {
    assert IsListing(w.lists[x], w.table, x);
  }

  lemma SetKeepsLists(store: Store, w: World, k: Key, v: Option<Bytes>)
    requires Coherent(w)
    ensures forall x :: x in AfterSet(store, w, k, v).lists ==>
                          IsListing(AfterSet(store, w, k, v).lists[x], AfterSet(store, w, k, v).table, x)
  {
    var u := AfterSet(store, w, k, v);
    forall x | x in u.lists ensures IsListing(u.lists[x], u.table, x) {
      NamesUpdated(w.table, k, store(Lookup(w.table, k), v), x);
      ListingKept(w, u, x);
    }
  }

  /** A write leaves the cache coherent exactly when the database hands back what was written. */
  lemma SetCoherentIff(store: Store, w: World, k: Key, v: Option<Bytes>)
    requires Coherent(w)
    ensures Coherent(AfterSet(store, w, k, v)) <==> store(Lookup(w.table, k), v) == v
  {
    var u := AfterSet(store, w, k, v);
    SetKeepsLists(store, w, k, v);
    assert k in u.data && u.data[k] == v && Lookup(u.table, k) == store(Lookup(w.table, k), v);
    if store(Lookup(w.table, k), v) == v {
      forall j | j in u.data ensures u.data[j] == Lookup(u.table, j) {
        LookupUpdated(w.table, k, v, j);
      }
    }
  }

  lemma RemKeepsCoherence(w: World, k: Key)
    requires Coherent(w)
    ensures Coherent(AfterRem(w, k))
  {
    var u := AfterRem(w, k);
    forall j | j in u.data ensures u.data[j] == Lookup(u.table, j) {
      LookupUpdated(w.table, k, None, j);
    }
    forall x | x in u.lists ensures IsListing(u.lists[x], u.table, x) {
      NamesUpdated(w.table, k, None, x);
      ListingKept(w, u, x);
    }
  }

  lemma ClearKeepsCoherence(w: World, xPath: string)
    requires Coherent(w)
    ensures Coherent(AfterClear(w, xPath))
  {
    var u := AfterClear(w, xPath);
    forall x | x in u.lists ensures IsListing(u.lists[x], u.table, x) {
      NamesCleared(w.table, xPath, x);
      ListingKept(w, u, x);
    }
  }

  lemma StepKeepsCoherence(store: Store, w: World, op: Op)
    requires Coherent(w) && Fits(w, op) && Faithful(store, w, op)
    ensures Coherent(Step(store, w, op))
    ensures Step(store, w, op).table == PlainStep(store, w.table, op)
  {
    match op
    case Set(k, v, _) => SetCoherentIff(store, w, k, v);
    case Rem(k, _) => RemKeepsCoherence(w, k);
    case Clear(x, _) => ClearKeepsCoherence(w, x);
    case _ =>
  }

  function Run(store: Store, w: World, ops: seq<Op>): World {
    if ops == [] then w else Step(store, Run(store, w, ops[..|ops| - 1]), ops[|ops| - 1])
  }

  function PlainRun(store: Store, t: Table, ops: seq<Op>): Table {
    if ops == [] then t else PlainStep(store, PlainRun(store, t, ops[..|ops| - 1]), ops[|ops| - 1])
  }

  /** Each operation fits, and each write is handed back, when its turn comes. */
  ghost predicate Admissible(store: Store, w: World, ops: seq<Op>) {
    forall i {:trigger ops[i]} :: 0 <= i < |ops| ==>
      Fits(Run(store, w, ops[..i]), ops[i]) && Faithful(store, Run(store, w, ops[..i]), ops[i])
  }

  /** Over any sequence of operations, with read-only mode on or off for each, the database is what it
      would be without a cache, and every answer is that database's answer. */
  lemma {:induction false} CacheIsTransparent(store: Store, t: Table, ops: seq<Op>)
    requires Admissible(store, World(t, map[], map[]), ops)
    ensures var w := Run(store, World(t, map[], map[]), ops);
            && Coherent(w)
            && w.table == PlainRun(store, t, ops)
            && (forall k :: GetAnswer(w, k) == Lookup(w.table, k))
            && (forall x, names :: ListAnswer(w, x, names) ==> IsListing(names, w.table, x))
  {
    var start := World(t, map[], map[]);
    if ops != [] {
      var front := ops[..|ops| - 1];
      assert forall i {:trigger front[i]} :: 0 <= i < |front| ==> front[i] == ops[i] && front[..i] == ops[..i];
      CacheIsTransparent(store, t, front);
      StepKeepsCoherence(store, Run(store, start, front), ops[|ops| - 1]);
    }
  }

  /** Each List reports an answer that it could have given when its turn came. */
  ghost predicate AllFit(store: Store, w: World, ops: seq<Op>) {
    forall i {:trigger ops[i]} :: 0 <= i < |ops| ==> Fits(Run(store, w, ops[..i]), ops[i])
  }

  /** Over all tables and all runs the cache stays coherent. */
  ghost predicate AlwaysCoherent(store: Store) {
    forall t, ops {:trigger Run(store, World(t, map[], map[]), ops)} ::
      AllFit(store, World(t, map[], map[]), ops) ==> Coherent(Run(store, World(t, map[], map[]), ops))
  }

  /** The condition on the database, seen over all runs: the cache stays coherent exactly in front of a
      store that hands back whatever it is given. */
  lemma AlwaysCoherentIffPlain(store: Store)
    ensures AlwaysCoherent(store) <==> Plain(store)
  {
    if Plain(store) {
      forall t, ops {:trigger Run(store, World(t, map[], map[]), ops)} | AllFit(store, World(t, map[], map[]), ops)
        ensures Coherent(Run(store, World(t, map[], map[]), ops))
      {
        CacheIsTransparent(store, t, ops);
      }
    }
    if AlwaysCoherent(store) {
      forall o, v {:trigger store(o, v)} ensures store(o, v) == v {
        OneSetIsHandedBack(store, o, v);
      }
    }
  }

  lemma OneSetIsHandedBack(store: Store, o: Option<Bytes>, v: Option<Bytes>)
    requires AlwaysCoherent(store)
    ensures store(o, v) == v
  {
    var k := Key("", "");
    var t: Table := if o == None then map[] else map[k := o.value];
    var w := World(t, map[], map[]);
    var ops := [Op.Set(k, v, false)];
    assert ops[..0] == [] && ops[0] == Op.Set(k, v, false);
    assert Run(store, w, ops) == AfterSet(store, w, k, v);
    SetCoherentIff(store, w, k, v);
  }

  // ---- what the cache is for: it remembers ----------------------------------------------------------------

  /** After a Get, a List or a Set the answer is known, whatever becomes of the database; a Set, Rem or
      Clear forgets nothing but the entries and the list it is about. */
  lemma Remembers(store: Store, w: World, t: Table, k: Key, other: Key, v: Option<Bytes>, names: Option<seq<string>>)
    ensures GetAnswer(AfterGet(w, k).(table := t), k) == GetAnswer(w, k)
    ensures GetAnswer(AfterSet(store, w, k, v).(table := t), k) == v
    ensures ListAnswer(AfterList(w, k.xPath, names).(table := t), k.xPath, names)
    ensures other != k && other in w.data ==>
              GetAnswer(AfterSet(store, w, k, v).(table := t), other) == GetAnswer(w, other)
              == GetAnswer(AfterRem(w, k).(table := t), other)
              == GetAnswer(AfterGet(w, k).(table := t), other)
    ensures other.xPath != k.xPath && other in w.data ==>
              GetAnswer(AfterClear(w, k.xPath).(table := t), other) == GetAnswer(w, other)
    ensures other.xPath != k.xPath && other.xPath in w.lists ==>
              && other.xPath in AfterSet(store, w, k, v).lists && other.xPath in AfterRem(w, k).lists
              && other.xPath in AfterClear(w, k.xPath).lists
  {
  }

  /** And what it is about, it forgets: the names under the xPath, and after a Rem or Clear the values. */
  lemma Forgets(store: Store, w: World, k: Key, other: Key, v: Option<Bytes>)
    ensures k.xPath !in AfterSet(store, w, k, v).lists && k.xPath !in AfterRem(w, k).lists
    ensures k !in AfterRem(w, k).data
    ensures other.xPath == k.xPath ==>
              other !in AfterClear(w, k.xPath).data && k.xPath !in AfterClear(w, k.xPath).lists
  {
  }

  // ---- two callers at once ---------------------------------------------------------------------------------

  /** The second half of a Get that missed: it stores what it has read from the database earlier. */
  function LateFill(w: World, k: Key, read: Option<Bytes>): World {
    w.(data := w.data[k := read])
  }

  /** A Get that read the database before a Set of the same key and fills the cache after it leaves
      the cache coherent only if the Set changed nothing; otherwise later answers are stale. */
  lemma OvertakenGetIsStale(store: Store, w: World, k: Key, v: Option<Bytes>)
    requires Coherent(w) && store(Lookup(w.table, k), v) == v
    ensures var u := LateFill(AfterSet(store, w, k, v), k, Lookup(w.table, k));
            && (Coherent(u) <==> v == Lookup(w.table, k))
            && GetAnswer(u, k) == Lookup(w.table, k)
            && Lookup(u.table, k) == v
  {
    var s := AfterSet(store, w, k, v);
    var u := LateFill(s, k, Lookup(w.table, k));
    SetCoherentIff(store, w, k, v);
    assert k in u.data;
    if v == Lookup(w.table, k) {
      assert u == s;
    }
  }
}
