/** The router that sends each xPath to the database of its longest registered prefix. */
module Router {
  import opened GoBytes
  import opened Database

  predicate LongestFirst(routes: seq<string>) {
    forall i, j :: 0 <= i < j < |routes| ==> |routes[i]| >= |routes[j]|
  }

  /** The longest registered prefix of `s`, found by cutting `s` from its end. */
  function Resolve<T>(table: map<string, T>, s: string): Option<string> {
    if s in table then Some(s)
    else if s == "" then None
    else Resolve(table, s[..|s| - 1])
  }

  method Insert(sorted: seq<string>, route: string) returns (longer: seq<string>)
    requires LongestFirst(sorted)
    ensures multiset(longer) == multiset(sorted) + multiset{route}
    ensures LongestFirst(longer)
  {
    var at := 0;
    while at < |sorted| && |sorted[at]| >= |route|
      invariant 0 <= at <= |sorted|
      invariant forall j :: 0 <= j < at ==> |sorted[j]| >= |route|
    {
      at := at + 1;
    }
    longer := sorted[..at] + [route] + sorted[at..];
    assert sorted == sorted[..at] + sorted[at..];
    InsertAdds(sorted[..at], route, sorted[at..]);
    InsertKeepsOrder(sorted[..at], route, sorted[at..]);
  }

  lemma InsertAdds(before: seq<string>, route: string, after: seq<string>)
    ensures multiset(before + [route] + after) == multiset(before + after) + multiset{route}
  {
  }

  lemma InsertKeepsOrder(before: seq<string>, route: string, after: seq<string>)
    requires LongestFirst(before + after)
    requires forall i :: 0 <= i < |before| ==> |before[i]| >= |route|
    requires after != [] ==> |after[0]| < |route|
    ensures LongestFirst(before + [route] + after)
  {
    var all, s, n := before + after, before + [route] + after, |before|;
    forall i, j | 0 <= i < j < |s| ensures |s[i]| >= |s[j]| {
      if j > n {
        assert s[j] == all[j - 1] && |all[n]| >= |all[j - 1]|;
        if i < n {
          assert s[i] == all[i];
        } else if i > n {
          assert s[i] == all[i - 1];
        }
      } else if j < n {
        assert s[i] == all[i] && s[j] == all[j];
      }
    }
  }

  /** sort.Slice by descending length; routes of one length may end up in any order. */
  method SortByLength(routes: seq<string>) returns (sorted: seq<string>)
    ensures multiset(sorted) == multiset(routes)
    ensures LongestFirst(sorted)
  {
    sorted := [];
    for i := 0 to |routes|
      invariant multiset(sorted) == multiset(routes[..i])
      invariant LongestFirst(sorted)
    {
      assert routes[..i + 1] == routes[..i] + [routes[i]];
      sorted := Insert(sorted, routes[i]);
    }
    assert routes[..|routes|] == routes;
  }

  class XPathDBRouter {
    /** strings.ToLower of strings.TrimSpace; all that matters here is that "" stays "". */
    const normalize: string -> string
    var dbs: seq<DB>
    var routes: seq<string>
    var route2db: map<string, DB>

    ghost predicate Valid()
      reads this
    {
      && normalize("") == ""
      && NoRepeats(routes)
      && LongestFirst(routes)
      && (forall r :: r in routes <==> r in route2db)
      && (forall r :: r in route2db ==> route2db[r] in dbs)
      && NoRepeats(dbs)
      && (dbs == [] <==> routes == [])
      && (dbs != [] ==> "" in routes)
    }

    constructor (normalize: string -> string)
      requires normalize("") == ""
      ensures Valid() && this.normalize == normalize && route2db == map[]
    {
      this.normalize := normalize;
      dbs, routes, route2db := [], [], map[];
    }

    /** The part of RegisterRoute after the default route is settled. */
    method AddRoute(db: DB, route: string)
      requires Valid() && route !in routes && (dbs == [] ==> route == "")
      modifies this
      ensures Valid() && route2db == old(route2db)[route := db]
    {
      if db !in dbs {
        AppendNew(dbs, db);
        dbs := dbs + [db];
      }
      AppendNew(routes, route);
      route2db := route2db[route := db];
      var appended := routes + [route];
      var sorted := SortByLength(appended);
      SamePermutation(appended, sorted);
      assert forall r :: r in appended <==> r in old(routes) || r == route;
      routes := sorted;
    }

    /** Registers a route once; the first database also becomes the default one. */
    method RegisterRoute(db: DB, xPath: string) returns (ok: bool)
      requires Valid()
      modifies this
      ensures Valid()
      ensures ok <==> normalize(xPath) !in old(route2db)
      ensures route2db == if !ok then old(route2db)
                          else if old(dbs) == [] then map["" := db, normalize(xPath) := db]
                          else old(route2db)[normalize(xPath) := db]
    {
      var newRoute := normalize(xPath);
      if newRoute in routes {
        return false;
      }
      if |dbs| == 0 && |newRoute| != 0 {
        AddRoute(db, "");
      }
      AddRoute(db, newRoute);
      return true;
    }

    /** The database of the longest registered prefix. */
    ghost function Chosen(xPath: string): (db: DB)
      requires Valid() && dbs != []
      reads this
      ensures db in dbs
      ensures exists r :: r in route2db && r <= normalize(xPath) && db == route2db[r]
                          && forall p :: p in route2db && p <= normalize(xPath) ==> p <= r
    {
      ResolveIsLongest(route2db, normalize(xPath));
      assert "" in route2db && "" <= normalize(xPath);
      var r := Resolve(route2db, normalize(xPath)).value;
      assert r in route2db && r <= normalize(xPath);
      route2db[r]
    }

    method GetDBForXPath(xPath: string) returns (db: DB?)
      requires Valid()
      ensures dbs == [] ==> db == null
      ensures dbs != [] ==> db == Chosen(xPath)
    {
      if |dbs| == 0 {
        return null;
      }
      var lookupRoute := normalize(xPath);
      SomeRouteMatches(routes, lookupRoute);
      db := null;
      for i := 0 to |routes|
        invariant forall j :: 0 <= j < i ==> !(routes[j] <= lookupRoute)
      {
        if routes[i] <= lookupRoute {
          FirstIsLongest(route2db, routes, lookupRoute, i);
          return route2db[routes[i]];
        }
      }
    }

    method Get(xPath: string, name: string) returns (data: array?<byte>)
      requires Valid()
      ensures Slice(data) == if dbs == [] then None else Lookup(Chosen(xPath).table, Key(xPath, name))
    {
      var db := GetDBForXPath(xPath);
      if db == null {
        return null;
      }
      data := db.Get(Key(xPath, name));
    }

    /** Writes to the database of the route, and to no other. */
    method Set(xPath: string, name: string, value: array?<byte>)
      requires Valid()
      modifies set d | d in dbs
      ensures forall d :: d in dbs ==>
                d.table == if d == Chosen(xPath)
                           then Written(d.store, old(d.table), Key(xPath, name), old(Slice(value)))
                           else old(d.table)
    {
      var db := GetDBForXPath(xPath);
      if db == null {
        return;
      }
      assert db == Chosen(xPath);
      db.Set(Key(xPath, name), value);
    }
  }

  lemma AppendNew<T>(items: seq<T>, item: T)
    requires NoRepeats(items) && item !in items
    ensures NoRepeats(items + [item])
    ensures forall x :: x in items + [item] <==> x in items || x == item
  {
  }

  lemma SomeRouteMatches(routes: seq<string>, s: string)
    requires "" in routes
    ensures exists j :: 0 <= j < |routes| && routes[j] <= s
  {
    var j :| 0 <= j < |routes| && routes[j] == "";
    assert routes[j] <= s;
  }

  /** A rearrangement keeps the members, and repeats nothing that was not repeated. */
  lemma SamePermutation(a: seq<string>, b: seq<string>)
    requires multiset(a) == multiset(b) && NoRepeats(a)
    ensures NoRepeats(b)
    ensures forall r :: r in a <==> r in b
  {
    forall r ensures r in a <==> r in b {
      assert r in multiset(a) <==> r in multiset(b);
    }
    forall i, j | 0 <= i < j < |b| ensures b[i] != b[j] {
      if b[i] == b[j] {
        TwiceCounts(b, i, j);
        OnceCounts(a, b[i]);
      }
    }
  }

  lemma TwiceCounts(s: seq<string>, i: nat, j: nat)
    requires i < j < |s| && s[i] == s[j]
    ensures multiset(s)[s[i]] >= 2
  {
    assert s == s[..j] + [s[j]] + s[j + 1..];
    assert s[i] == s[..j][i];
    assert s[i] in multiset(s[..j]);
  }

  lemma {:induction false} OnceCounts(s: seq<string>, r: string)
    requires NoRepeats(s)
    ensures multiset(s)[r] <= 1
  {
    if s != [] {
      var front, last := s[..|s| - 1], s[|s| - 1];
      assert s == front + [last];
      OnceCounts(front, r);
      if r == last {
        assert r !in front;
        assert r !in multiset(front);
      }
    }
  }

  /** What Resolve finds is a registered prefix, and every registered prefix is no longer than it; so
      it is the one longest registered prefix. */
  lemma {:induction false} ResolveIsLongest<T>(table: map<string, T>, s: string)
    ensures var r := Resolve(table, s);
            && (r.Some? ==> r.value in table && r.value <= s)
            && (forall p :: p in table && p <= s ==> r.Some? && p <= r.value)
  {
    if s !in table && s != "" {
      var cut := s[..|s| - 1];
      ResolveIsLongest(table, cut);
      forall p | p in table && p <= s ensures p <= cut {
        assert p != s;
      }
    }
  }

  /** The first match in the sorted table is the longest registered prefix. */
  lemma FirstIsLongest(table: map<string, DB>, routes: seq<string>, s: string, i: nat)
    requires i < |routes| && routes[i] <= s && LongestFirst(routes)
    requires forall r :: r in routes <==> r in table
    requires forall j :: 0 <= j < i ==> !(routes[j] <= s)
    ensures Resolve(table, s) == Some(routes[i])
  {
    ResolveIsLongest(table, s);
    assert routes[i] in routes;
    assert routes[i] in table && routes[i] <= s;
    var r := Resolve(table, s).value;
    assert r in routes;
    var k :| 0 <= k < |routes| && routes[k] == r;
    assert routes[i] in table && routes[i] <= r;
    assert k >= i;
    assert |routes[i]| >= |r|;
    assert routes[i] == r;
  }

  /** A database registered for a route is found for every xPath that extends it, unless a longer
      route was registered that the xPath extends too. */
  lemma RegisteredIsFound<T>(table: map<string, T>, route: string, s: string)
    requires route in table && route <= s
    ensures var r := Resolve(table, s);
            r.Some? && route <= r.value && (r.value != route <==> exists p :: p in table && p <= s && |p| > |route|)
  {
    ResolveIsLongest(table, s);
    var r := Resolve(table, s).value;
    if r != route {
      assert r in table && r <= s && |r| > |route|;
    }
    if p :| p in table && p <= s && |p| > |route| {
      assert p <= r;
    }
  }
}
