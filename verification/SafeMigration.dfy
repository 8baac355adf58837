/** The migrate-then-clear protocol, and what migration as a whole guarantees. */
module SafeMigration {
  import opened GoBytes
  import opened Database
  import opened Migration

  // ---- each entry is moved on its own -------------------------------------------------------------------

  /** An action and its effect depend only on the entry's own key. */
  lemma SingleIsLocal(parse: Parser, store: Store, src: Table, t: Table, u: Table, k: Key, dryRun: bool)
    requires Lookup(t, k) == Lookup(u, k)
    ensures SingleAction(parse, store, src, t, k, dryRun) == SingleAction(parse, store, src, u, k, dryRun)
    ensures Lookup(SingleTable(parse, store, src, t, k, dryRun), k)
            == Lookup(SingleTable(parse, store, src, u, k, dryRun), k)
  {
    assert (k in t <==> k in u) && (k in t ==> t[k] == u[k]);
    if k in src {
      var v := store(Lookup(t, k), Some(src[k]));
      LookupUpdated(t, k, v, k);
      LookupUpdated(u, k, v, k);
      assert Lookup(Updated(t, k, v), k) == Lookup(Updated(u, k, v), k);
    }
  }

  lemma SingleKeepsOthers(parse: Parser, store: Store, src: Table, t: Table, k: Key, dryRun: bool, other: Key)
    requires other != k
    ensures Lookup(SingleTable(parse, store, src, t, k, dryRun), other) == Lookup(t, other)
  {
  }

  lemma {:induction false} OthersUntouched(
    parse: Parser, store: Store, src: Table, dst: Table, keys: seq<Key>, dryRun: bool, other: Key)
    requires other !in keys
    ensures Lookup(AllTable(parse, store, src, dst, keys, dryRun), other) == Lookup(dst, other)
  {
    if keys != [] {
      var front := keys[..|keys| - 1];
      OthersUntouched(parse, store, src, dst, front, dryRun, other);
      var before := AllTable(parse, store, src, dst, front, dryRun);
      SingleKeepsOthers(parse, store, src, before, keys[|keys| - 1], dryRun, other);
    }
  }

  /** In the whole run every entry fares as if it were the only one. */
  lemma {:induction false} EachAlone(
    parse: Parser, store: Store, src: Table, dst: Table, keys: seq<Key>, dryRun: bool, i: nat)
    requires i < |keys| && NoRepeats(keys)
    ensures AllActions(parse, store, src, dst, keys, dryRun)[i] == SingleAction(parse, store, src, dst, keys[i], dryRun)
    ensures Lookup(AllTable(parse, store, src, dst, keys, dryRun), keys[i])
            == Lookup(SingleTable(parse, store, src, dst, keys[i], dryRun), keys[i])
  {
    var n := |keys| - 1;
    var front, k := keys[..n], keys[i];
    var before := AllTable(parse, store, src, dst, front, dryRun);
    if i < n {
      EachAlone(parse, store, src, dst, front, dryRun, i);
      SingleKeepsOthers(parse, store, src, before, keys[n], dryRun, k);
    } else {
      OthersUntouched(parse, store, src, dst, front, dryRun, k);
      SingleIsLocal(parse, store, src, before, dst, k, dryRun);
    }
  }

  lemma KeysDistinct(xPath: string, names: seq<string>)
    requires NoRepeats(names)
    ensures NoRepeats(Keys(xPath, names))
  {
  }

  lemma ListedKeys(t: Table, xPath: string, names: seq<string>)
    requires IsListing(Some(names), t, xPath)
    ensures NoRepeats(Keys(xPath, names))
    ensures forall k :: k in Keys(xPath, names) <==> k in t && k.xPath == xPath
  {
    KeysDistinct(xPath, names);
    var keys := Keys(xPath, names);
    forall k ensures k in keys <==> k in t && k.xPath == xPath {
      NameMember(t, k);
      if k in t && k.xPath == xPath {
        var i :| 0 <= i < |names| && names[i] == k.name;
        assert keys[i] == k;
      }
    }
  }

  // ---- what the report promises ----------------------------------------------------------------------------

  lemma {:induction false} CountsAddUp(actions: seq<Action>)
    ensures |actions| == CountOf(actions, Migrated) + CountOf(actions, WouldMigrate)
                         + CountOf(actions, Skipped) + CountOf(actions, Failed)
  {
    if actions != [] {
      CountsAddUp(actions[..|actions| - 1]);
    }
  }

  /** The report accounts for every entry once. */
  lemma ReportIsComplete(r: Report, keys: seq<Key>, actions: seq<Action>)
    requires |actions| == |keys| && Reports(r, keys, actions)
    ensures r.total == r.migratedCount + r.skippedCount + r.failedCount == |keys|
  {
    CountsAddUp(actions);
  }

  /** After a run the target holds every entry reported migrated, verified against the source, and
      every skipped one as it was found equal; it holds no verified copy of a failed one; and nothing
      but the listed entries has changed. */
  lemma ReportIsTrue(parse: Parser, store: Store, src: Table, dst: Table, xPath: string, names: seq<string>, i: nat)
    requires IsListing(Some(names), src, xPath) && i < |names|
    ensures var keys := Keys(xPath, names);
            var end := AllTable(parse, store, src, dst, keys, false);
            var k := keys[i];
            && k in src
            && match AllActions(parse, store, src, dst, keys, false)[i]
               case Migrated =>
                 && k in end && |end[k]| == |src[k]|
                 && (end[k] == src[k]
                     || (src[k] != [] && parse(src[k]).Some? && parse(src[k]) == parse(end[k])))
               case Skipped =>
                 && k in end && Lookup(end, k) == Lookup(dst, k)
                 && (end[k] == src[k]
                     || (src[k] != [] && end[k] != [] && parse(src[k]).Some? && parse(src[k]) == parse(end[k])))
               case Failed =>
                 k in end && |end[k]| == |src[k]| ==>
                   end[k] != src[k] && (parse(src[k]) == None || parse(src[k]) != parse(end[k]))
               case WouldMigrate => false
  {
    FaresTruly(parse, store, src, dst, xPath, names, i);
    var k := Keys(xPath, names)[i];
    var end := AllTable(parse, store, src, dst, Keys(xPath, names), false);
    if k in end {
      SameIff(parse, src[k], end[k]);
    }
  }

  /** The same in the terms of the two comparisons. */
  lemma FaresTruly(parse: Parser, store: Store, src: Table, dst: Table, xPath: string, names: seq<string>, i: nat)
    requires IsListing(Some(names), src, xPath) && i < |names|
    ensures var keys := Keys(xPath, names);
            var end := AllTable(parse, store, src, dst, keys, false);
            && keys[i] in src
            && match AllActions(parse, store, src, dst, keys, false)[i]
               case Migrated => Verified(parse, src[keys[i]], end, keys[i])
               case Skipped =>
                 AlreadyThere(parse, src[keys[i]], end, keys[i]) && Lookup(end, keys[i]) == Lookup(dst, keys[i])
               case Failed => !Verified(parse, src[keys[i]], end, keys[i])
               case WouldMigrate => false
  {
    var keys := Keys(xPath, names);
    ListedKeys(src, xPath, names);
    EachAlone(parse, store, src, dst, keys, false, i);
    assert keys[i] in keys;
    var end, one := AllTable(parse, store, src, dst, keys, false), SingleTable(parse, store, src, dst, keys[i], false);
    assert keys[i] in end <==> keys[i] in one;
    assert keys[i] in end ==> end[keys[i]] == one[keys[i]];
  }

  lemma {:induction false} DryRunKeepsTarget(parse: Parser, store: Store, src: Table, dst: Table, keys: seq<Key>)
    ensures AllTable(parse, store, src, dst, keys, true) == dst
  {
    if keys != [] {
      DryRunKeepsTarget(parse, store, src, dst, keys[..|keys| - 1]);
    }
  }

  /** What a dry run reports for an entry that the real run treats as `actual`. */
  function Predicted(actual: Action): Action {
    if actual == Migrated || actual == Failed then WouldMigrate else actual
  }

  /** The entries of a run that fare as `action`. */
  function Faring(
    parse: Parser, store: Store, src: Table, dst: Table, keys: seq<Key>, dryRun: bool, action: Action): set<Key>
  {
    set k | k in keys && SingleAction(parse, store, src, dst, k, dryRun) == action
  }

  /** The report counts entries, in whatever order the database listed them. */
  lemma {:induction false} CountsAreSets(
    parse: Parser, store: Store, src: Table, dst: Table, keys: seq<Key>, dryRun: bool, action: Action)
    requires NoRepeats(keys)
    ensures CountOf(AllActions(parse, store, src, dst, keys, dryRun), action)
            == |Faring(parse, store, src, dst, keys, dryRun, action)|
  {
    if keys != [] {
      var n := |keys| - 1;
      var front, k := keys[..n], keys[n];
      CountsAreSets(parse, store, src, dst, front, dryRun, action);
      EachAlone(parse, store, src, dst, keys, dryRun, n);
      var actions := AllActions(parse, store, src, dst, keys, dryRun);
      assert actions[..n] == AllActions(parse, store, src, dst, front, dryRun);
      assert keys == front + [k];
      FaringGrows(parse, store, src, dst, front, k, dryRun, action);
    }
  }

  lemma FaringGrows(
    parse: Parser, store: Store, src: Table, dst: Table, front: seq<Key>, k: Key, dryRun: bool, action: Action)
    requires k !in front
    ensures |Faring(parse, store, src, dst, front + [k], dryRun, action)|
            == |Faring(parse, store, src, dst, front, dryRun, action)|
               + if SingleAction(parse, store, src, dst, k, dryRun) == action then 1 else 0
  {
    var before := Faring(parse, store, src, dst, front, dryRun, action);
    assert Faring(parse, store, src, dst, front + [k], dryRun, action) ==
           if SingleAction(parse, store, src, dst, k, dryRun) == action then before + {k} else before;
  }

  lemma SingleForesees(parse: Parser, store: Store, src: Table, dst: Table, k: Key)
    ensures SingleAction(parse, store, src, dst, k, true)
            == Predicted(SingleAction(parse, store, src, dst, k, false))
    ensures SingleAction(parse, store, src, dst, k, false) != WouldMigrate
  {
  }

  lemma SameFaring(parse: Parser, store: Store, src: Table, dst: Table, keys: seq<Key>, keys': seq<Key>)
    requires forall k :: k in keys <==> k in keys'
    ensures Faring(parse, store, src, dst, keys, true, WouldMigrate)
            == Faring(parse, store, src, dst, keys', false, Migrated)
               + Faring(parse, store, src, dst, keys', false, Failed)
    ensures Faring(parse, store, src, dst, keys', false, Migrated)
            !! Faring(parse, store, src, dst, keys', false, Failed)
    ensures Faring(parse, store, src, dst, keys, true, Skipped)
            == Faring(parse, store, src, dst, keys', false, Skipped)
    ensures Faring(parse, store, src, dst, keys, true, Failed) == {}
    ensures Faring(parse, store, src, dst, keys, true, Migrated) == {}
    ensures Faring(parse, store, src, dst, keys', false, WouldMigrate) == {}
  {
    forall k | k in keys
      ensures SingleAction(parse, store, src, dst, k, true)
              == Predicted(SingleAction(parse, store, src, dst, k, false))
    {
      SingleForesees(parse, store, src, dst, k);
    }
  }

  /** The dry run writes nothing, and its count of entries to migrate is the number that the real run
      goes on to migrate or to fail; the database may list the names in another order each time. */
  lemma DryRunPredicts(
    parse: Parser, store: Store, src: Table, dst: Table, xPath: string,
    names: seq<string>, names': seq<string>, dry: Report, actual: Report)
    requires IsListing(Some(names), src, xPath) && IsListing(Some(names'), src, xPath)
    requires Reports(dry, Keys(xPath, names), AllActions(parse, store, src, dst, Keys(xPath, names), true))
    requires Reports(actual, Keys(xPath, names'), AllActions(parse, store, src, dst, Keys(xPath, names'), false))
    ensures AllTable(parse, store, src, dst, Keys(xPath, names), true) == dst
    ensures dry.migratedCount == actual.migratedCount + actual.failedCount
    ensures dry.skippedCount == actual.skippedCount && dry.failedCount == 0
  {
    var keys, keys' := Keys(xPath, names), Keys(xPath, names');
    DryRunKeepsTarget(parse, store, src, dst, keys);
    ListedKeys(src, xPath, names);
    ListedKeys(src, xPath, names');
    forall action ensures
        && CountOf(AllActions(parse, store, src, dst, keys, true), action)
           == |Faring(parse, store, src, dst, keys, true, action)|
        && CountOf(AllActions(parse, store, src, dst, keys', false), action)
           == |Faring(parse, store, src, dst, keys', false, action)|
    {
      CountsAreSets(parse, store, src, dst, keys, true, action);
      CountsAreSets(parse, store, src, dst, keys', false, action);
    }
    SameFaring(parse, store, src, dst, keys, keys');
  }

  // ---- running it again ---------------------------------------------------------------------------------------

  lemma VerifiedIsEqual(parse: Parser, data: Bytes, t: Table, k: Key)
    requires Verified(parse, data, t, k)
    ensures AlreadyThere(parse, data, t, k)
  {
    VerificationIsStricter(parse, data, t[k]);
  }

  /** After a run without failures a second run finds every entry in place and writes nothing, in
      whatever order the names are listed then. */
  lemma SecondRunSkipsAll(
    parse: Parser, store: Store, src: Table, dst: Table, xPath: string,
    names: seq<string>, names': seq<string>, i: nat)
    requires IsListing(Some(names), src, xPath) && IsListing(Some(names'), src, xPath) && i < |names'|
    requires Failed !in AllActions(parse, store, src, dst, Keys(xPath, names), false)
    ensures var end := AllTable(parse, store, src, dst, Keys(xPath, names), false);
            AllActions(parse, store, src, end, Keys(xPath, names'), false)[i] == Skipped
  {
    var keys := Keys(xPath, names);
    var end := AllTable(parse, store, src, dst, keys, false);
    var actions := AllActions(parse, store, src, dst, keys, false);
    ListedKeys(src, xPath, names);
    ListedKeys(src, xPath, names');
    var k := Keys(xPath, names')[i];
    assert k in Keys(xPath, names');
    var j: nat :| j < |keys| && keys[j] == k;
    FaresTruly(parse, store, src, dst, xPath, names, j);
    assert actions[j] in actions;
    if actions[j] == Migrated {
      VerifiedIsEqual(parse, src[keys[j]], end, keys[j]);
    }
    EachAlone(parse, store, src, end, Keys(xPath, names'), false, i);
  }

  // ---- migrate, then clear ---------------------------------------------------------------------------------------

  method SafeMigrate(parse: Parser, source: DB, target: DB, k: Key, clearSource: bool) returns (action: Action)
    modifies source, target
    ensures action == SingleAction(parse, target.store, old(source.table), old(target.table), k, false)
    ensures target.table == SingleTable(parse, target.store, old(source.table), old(target.table), k, false)
    ensures source.table == if action == Migrated && clearSource then Updated(old(source.table), k, None)
                            else old(source.table)
  {
    var preCheck := MigrateSingle(parse, source, target, k, true);
    action := MigrateSingle(parse, source, target, k, false);
    if action == Failed {
      return;
    }
    if action == Migrated {
      if clearSource {
        source.Rem(k);
      }
    }
  }

  /** Every entry of the run was migrated, and there was one. */
  predicate AllMigrated(actions: seq<Action>) {
    actions != [] && forall i :: 0 <= i < |actions| ==> actions[i] == Migrated
  }

  lemma {:induction false} FullCount(actions: seq<Action>)
    ensures CountOf(actions, Migrated) <= |actions|
    ensures CountOf(actions, Migrated) == |actions| <==> forall i :: 0 <= i < |actions| ==> actions[i] == Migrated
  {
    if actions != [] {
      FullCount(actions[..|actions| - 1]);
    }
  }

  lemma {:induction false} NoPredictions(parse: Parser, store: Store, src: Table, dst: Table, keys: seq<Key>)
    ensures CountOf(AllActions(parse, store, src, dst, keys, false), WouldMigrate) == 0
  {
    if keys != [] {
      var actions := AllActions(parse, store, src, dst, keys, false);
      NoPredictions(parse, store, src, dst, keys[..|keys| - 1]);
      assert actions[..|actions| - 1] == AllActions(parse, store, src, dst, keys[..|keys| - 1], false);
    }
  }

  lemma ListingLengths(p: seq<string>, q: seq<string>, t: Table, xPath: string)
    requires IsListing(Some(p), t, xPath) && IsListing(Some(q), t, xPath)
    ensures |p| == |q|
  {
    LengthIsSize(p, Names(t, xPath));
    LengthIsSize(q, Names(t, xPath));
  }

  lemma {:induction false} LengthIsSize(items: seq<string>, s: set<string>)
    requires NoRepeats(items) && forall n :: n in items <==> n in s
    ensures |items| == |s|
  {
    if items == [] {
      assert s == {};
    } else {
      var last, front := items[|items| - 1], items[..|items| - 1];
      assert forall n :: n in items <==> n in front || n == last;
      LengthIsSize(front, s - {last});
    }
  }

  /** A database migrated to itself has everything in place already. */
  lemma {:induction false} SelfMigrationSkips(parse: Parser, store: Store, src: Table, keys: seq<Key>)
    ensures AllTable(parse, store, src, src, keys, false) == src
    ensures CountOf(AllActions(parse, store, src, src, keys, false), Migrated) == 0
  {
    if keys != [] {
      var actions := AllActions(parse, store, src, src, keys, false);
      SelfMigrationSkips(parse, store, src, keys[..|keys| - 1]);
      assert actions[..|actions| - 1] == AllActions(parse, store, src, src, keys[..|keys| - 1], false);
    }
  }

  /** The source is cleared exactly when clearing was asked for and every one of its entries was
      migrated in this run; else it is left as it was. */
  method SafeMigrateAll(parse: Parser, source: DB, target: DB, xPath: string, clearSource: bool)
    returns (ghost names: seq<string>)
    modifies source, target
    ensures IsListing(Some(names), old(source.table), xPath)
    ensures var keys, src, dst := Keys(xPath, names), old(source.table), old(target.table);
            var actions := AllActions(parse, target.store, src, dst, keys, false);
            && target.table == AllTable(parse, target.store, src, dst, keys, false)
            && source.table == if clearSource && AllMigrated(actions) then Cleared(src, xPath) else src
  {
    var preReport, preFailure, preNames := MigrateAllWithReport(parse, source, target, xPath, true);
    DryRunKeepsTarget(parse, target.store, old(source.table), old(target.table), Keys(xPath, preNames));
    var postReport, failure, listed := MigrateAllWithReport(parse, source, target, xPath, false);
    names := listed;
    var migrated := postReport.migratedCount;
    ghost var keys := Keys(xPath, names);
    ghost var actions := AllActions(parse, target.store, old(source.table), old(target.table), keys, false);
    FullCount(actions);
    NoPredictions(parse, target.store, old(source.table), old(target.table), Keys(xPath, names));
    SelfMigrationSkips(parse, target.store, old(source.table), Keys(xPath, names));
    if clearSource && migrated > 0 {
      var again := source.List(xPath);
      var sourceCount := if again == null then 0 else again.Length;
      ListingLengths(names, if again == null then [] else again[..], source.table, xPath);
      if migrated >= sourceCount {
        source.Clear(xPath);
      }
    }
  }

  /** Whatever the target does with what it is told to keep, safeMigrateAll loses no entry of the
      source, of any xPath: the source still has it, or the target has the same bytes or, in as many
      bytes, the same structure. */
  lemma NothingIsLost(
    parse: Parser, store: Store, src: Table, dst: Table, xPath: string, names: seq<string>, clearSource: bool, k: Key)
    requires IsListing(Some(names), src, xPath) && k in src
    ensures var keys := Keys(xPath, names);
            var actions := AllActions(parse, store, src, dst, keys, false);
            var source := if clearSource && AllMigrated(actions) then Cleared(src, xPath) else src;
            var end := AllTable(parse, store, src, dst, keys, false);
            || Lookup(source, k) == Some(src[k])
            || (k in end && |end[k]| == |src[k]| && (end[k] == src[k]
                || (src[k] != [] && parse(src[k]).Some? && parse(src[k]) == parse(end[k]))))
  {
    var keys := Keys(xPath, names);
    if k.xPath == xPath {
      ListedKeys(src, xPath, names);
      assert k in keys;
      var i :| 0 <= i < |keys| && keys[i] == k;
      ReportIsTrue(parse, store, src, dst, xPath, names, i);
    }
  }

  /** The same for a single entry moved by safeMigrate. */
  lemma SingleIsNotLost(parse: Parser, store: Store, src: Table, dst: Table, k: Key, clearSource: bool, other: Key)
    requires other in src
    ensures var a := SingleAction(parse, store, src, dst, k, false);
            var source := if a == Migrated && clearSource then Updated(src, k, None) else src;
            var end := SingleTable(parse, store, src, dst, k, false);
            || Lookup(source, other) == Some(src[other])
            || (other in end && |end[other]| == |src[other]| && (end[other] == src[other]
                || (src[other] != [] && parse(src[other]).Some? && parse(src[other]) == parse(end[other]))))
  {
    var end := SingleTable(parse, store, src, dst, k, false);
    if k in src && k in end {
      SameIff(parse, src[k], end[k]);
    }
  }

  // ---- over a plain store ----------------------------------------------------------------------------------------

  /** Over a plain store nothing fails, migrated entries are copied byte for byte, and the source is
      cleared exactly when it has entries and none of them was in the target already. */
  lemma PlainStoreCopies(parse: Parser, store: Store, src: Table, dst: Table, xPath: string, names: seq<string>)
    requires Plain(store) && IsListing(Some(names), src, xPath)
    ensures var keys := Keys(xPath, names);
            var actions := AllActions(parse, store, src, dst, keys, false);
            var end := AllTable(parse, store, src, dst, keys, false);
            && Failed !in actions
            && (forall i :: 0 <= i < |keys| && actions[i] == Migrated ==> Lookup(end, keys[i]) == Lookup(src, keys[i]))
            && (AllMigrated(actions) <==>
                  && (exists k :: k in src && k.xPath == xPath)
                  && (forall k :: k in src && k.xPath == xPath ==> !AlreadyThere(parse, src[k], dst, k)))
  {
    var keys := Keys(xPath, names);
    var actions := AllActions(parse, store, src, dst, keys, false);
    ListedKeys(src, xPath, names);
    forall i | 0 <= i < |keys|
      ensures keys[i] in src
      ensures actions[i] == if AlreadyThere(parse, src[keys[i]], dst, keys[i]) then Skipped else Migrated
      ensures actions[i] == Migrated ==>
                Lookup(AllTable(parse, store, src, dst, keys, false), keys[i]) == Lookup(src, keys[i])
    {
      assert keys[i] in keys;
      EachAlone(parse, store, src, dst, keys, false, i);
      LookupUpdated(dst, keys[i], Some(src[keys[i]]), keys[i]);
    }
    AllMigratedIff(parse, src, dst, keys, actions);
    assert (exists k :: k in src && k.xPath == xPath) <==> keys != [] by {
      if keys != [] {
        assert keys[0] in keys;
      }
    }
  }

  lemma AllMigratedIff(parse: Parser, src: Table, dst: Table, keys: seq<Key>, actions: seq<Action>)
    requires |actions| == |keys|
    requires forall i :: 0 <= i < |keys| ==>
               && keys[i] in src
               && actions[i] == if AlreadyThere(parse, src[keys[i]], dst, keys[i]) then Skipped else Migrated
    ensures AllMigrated(actions) <==>
              keys != [] && forall k :: k in keys ==> k in src && !AlreadyThere(parse, src[k], dst, k)
  {
    if keys != [] && forall k :: k in keys ==> k in src && !AlreadyThere(parse, src[k], dst, k) {
      assert forall i :: 0 <= i < |keys| ==> keys[i] in keys;
    }
  }
}
