/** Moving settings entries from one database to another without losing any. */
module Migration {
  import opened GoBytes
  import opened Database

  // ---- comparing stored bytes -------------------------------------------------------------------------

  /** The JSON library: the structure a text denotes, or None for a malformed text. Two structures are
      deeply equal when their canonical forms are the same. */
  type Parser = Bytes -> Option<Bytes>

  datatype Comparison = Same | Different | Malformed

  function Structural(parse: Parser, first: Bytes, second: Bytes): Comparison {
    if parse(first) == None || parse(second) == None then Malformed
    else if parse(first) == parse(second) then Same
    else Different
  }

  function EqualJSON(parse: Parser, first: Bytes, second: Bytes): Comparison {
    if first == second then Same
    else if first == [] || second == [] then Different
    else Structural(parse, first, second)
  }

  /** What the comparison means: two texts are the same if they are the same bytes, or if both are
      well-formed and denote one structure; it fails for different texts of which one is malformed. */
  lemma SameIff(parse: Parser, first: Bytes, second: Bytes)
    ensures EqualJSON(parse, first, second) == Same <==>
              || first == second
              || (first != [] && second != [] && parse(first).Some? && parse(first) == parse(second))
    ensures EqualJSON(parse, first, second) == Malformed <==>
              && first != second && first != [] && second != []
              && (parse(first) == None || parse(second) == None)
  {
  }

  /** The comparison used to verify a migrated entry. */
  function EqualVerified(parse: Parser, first: Bytes, second: Bytes): Comparison {
    if |first| != |second| then Different else EqualJSON(parse, first, second)
  }

  method SameBytes(first: Bytes, second: Bytes) returns (equal: bool)
    requires |first| == |second|
    ensures equal <==> first == second
  {
    equal := true;
    for i := 0 to |first|
      invariant equal && first[..i] == second[..i]
    {
      if first[i] != second[i] {
        equal := false;
        return;
      }
    }
  }

  method IsByteArraysEqualJSON(parse: Parser, first: Bytes, second: Bytes) returns (c: Comparison)
    ensures c == EqualJSON(parse, first, second)
    ensures c == Same <==>
              || first == second
              || (first != [] && second != [] && parse(first).Some? && parse(first) == parse(second))
  {
    if |first| == 0 && |second| == 0 {
      return Same;
    }
    if |first| == 0 || |second| == 0 {
      return Different;
    }
    if |first| == |second| {
      var equal := SameBytes(first, second);
      if equal {
        return Same;
      }
    }
    var objectA := parse(first);
    if objectA == None {
      return Malformed;
    }
    var objectB := parse(second);
    if objectB == None {
      return Malformed;
    }
    return if objectA == objectB then Same else Different;
  }

  method IsByteArraysEqualJSONOptimized(parse: Parser, first: Bytes, second: Bytes) returns (c: Comparison)
    ensures c == EqualVerified(parse, first, second)
  {
    if |first| != |second| {
      return Different;
    }
    if |first| == 0 {
      return Same;
    }
    var equal := SameBytes(first, second);
    if equal {
      return Same;
    }
    c := IsByteArraysEqualJSON(parse, first, second);
  }

  /** Verification asks for more than the pre-check: equal structure and also equal length. */
  lemma VerificationIsStricter(parse: Parser, first: Bytes, second: Bytes)
    ensures EqualVerified(parse, first, second) == Same <==>
              EqualJSON(parse, first, second) == Same && |first| == |second|
  {
  }

  // ---- one entry ------------------------------------------------------------------------------------------

  datatype Action = Skipped | WouldMigrate | Migrated | Failed

  /** The target holds bytes that the pre-check takes for the source's. */
  predicate AlreadyThere(parse: Parser, data: Bytes, t: Table, k: Key) {
    k in t && EqualJSON(parse, data, t[k]) == Same
  }

  /** The target holds bytes that verification takes for the source's. */
  predicate Verified(parse: Parser, data: Bytes, t: Table, k: Key) {
    k in t && EqualVerified(parse, data, t[k]) == Same
  }

  function SingleTable(parse: Parser, store: Store, src: Table, dst: Table, k: Key, dryRun: bool): Table {
    if k !in src || AlreadyThere(parse, src[k], dst, k) || dryRun then dst
    else Written(store, dst, k, Some(src[k]))
  }

  function SingleAction(parse: Parser, store: Store, src: Table, dst: Table, k: Key, dryRun: bool): Action {
    if k !in src || AlreadyThere(parse, src[k], dst, k) then Skipped
    else if dryRun then WouldMigrate
    else if Verified(parse, src[k], SingleTable(parse, store, src, dst, k, dryRun), k) then Migrated
    else Failed
  }

  /** What each action says of an entry, read off the bytes of both tables: it is skipped if the source
      lacks it or the target has the same bytes or structure; otherwise it is written, and counts as
      migrated if what the target keeps has the same length too. */
  lemma ActionIs(parse: Parser, store: Store, src: Table, dst: Table, k: Key, dryRun: bool)
    ensures var there := k in src && k in dst && (dst[k] == src[k]
                         || (src[k] != [] && dst[k] != [] && parse(src[k]).Some? && parse(src[k]) == parse(dst[k])));
            SingleAction(parse, store, src, dst, k, dryRun) ==
            if k !in src || there then Skipped
            else if dryRun then WouldMigrate
            else
              var kept := store(Lookup(dst, k), Some(src[k]));
              if && kept.Some? && |kept.value| == |src[k]|
                 && (kept.value == src[k]
                     || (src[k] != [] && parse(src[k]).Some? && parse(src[k]) == parse(kept.value)))
              then Migrated else Failed
  {
    if k in src {
      LookupUpdated(dst, k, store(Lookup(dst, k), Some(src[k])), k);
    }
  }

  /** An entry that is not skipped counts as migrated exactly when the target keeps, in place of it,
      bytes of the same length and structure; any other spelling of it is reported as failed. */
  lemma MigratedIff(parse: Parser, store: Store, src: Table, dst: Table, k: Key)
    requires k in src && !AlreadyThere(parse, src[k], dst, k)
    ensures var kept := store(Lookup(dst, k), Some(src[k]));
            SingleAction(parse, store, src, dst, k, false) == Migrated <==>
              kept.Some? && |kept.value| == |src[k]| && EqualJSON(parse, src[k], kept.value) == Same
  {
    LookupUpdated(dst, k, store(Lookup(dst, k), Some(src[k])), k);
  }

  /** A store that drops a blank: the text means the same, and the next pre-check would accept it, yet
      the migration is reported as failed. */
  lemma RespelledFails(k: Key)
    ensures var parse: Parser := (b: Bytes) => Some(if b != [] && b[0] == 0x20 then b[1..] else b);
            var store: Store := (o, v) => if v == Some([0x20, 0x31]) then Some([0x31]) else v;
            var src := map[k := [0x20, 0x31]];
            && SingleAction(parse, store, src, map[], k, false) == Failed
            && AlreadyThere(parse, src[k], SingleTable(parse, store, src, map[], k, false), k)
  {
    var parse: Parser := (b: Bytes) => Some(if b != [] && b[0] == 0x20 then b[1..] else b);
    var store: Store := (o, v) => if v == Some([0x20, 0x31]) then Some([0x31]) else v;
    var src := map[k := [0x20, 0x31]];
    MigratedIff(parse, store, src, map[], k);
  }

  method VerifyMigration(parse: Parser, target: DB, k: Key, original: Bytes) returns (ok: bool)
    ensures ok == Verified(parse, original, target.table, k)
  {
    var migrated := target.Get(k);
    if migrated == null {
      return false;
    }
    var c := IsByteArraysEqualJSONOptimized(parse, original, migrated[..]);
    return c == Same;
  }

  method MigrateSingle(parse: Parser, source: DB, target: DB, k: Key, dryRun: bool) returns (action: Action)
    modifies target
    ensures action == SingleAction(parse, target.store, old(source.table), old(target.table), k, dryRun)
    ensures target.table == SingleTable(parse, target.store, old(source.table), old(target.table), k, dryRun)
    ensures source.table == old(source.table)
  {
    var sourceData := source.Get(k);
    if sourceData == null {
      return Skipped;
    }
    var data := sourceData[..];
    assert k in source.table && data == source.table[k];
    var targetData := target.Get(k);
    if targetData != null {
      var c := IsByteArraysEqualJSON(parse, data, targetData[..]);
      if c == Same {
        return Skipped;
      }
    }
    if dryRun {
      return WouldMigrate;
    }
    target.Set(k, sourceData);
    var ok := VerifyMigration(parse, target, k, data);
    return if ok then Migrated else Failed;
  }

  // ---- all entries under an xPath ----------------------------------------------------------------------------

  datatype Report = Report(
    total: nat, migratedCount: nat, skippedCount: nat, failedCount: nat, entries: seq<(string, Action)>)

  function Keys(xPath: string, names: seq<string>): seq<Key> {
    seq(|names|, i requires 0 <= i < |names| => Key(xPath, names[i]))
  }

  function AllTable(parse: Parser, store: Store, src: Table, dst: Table, keys: seq<Key>, dryRun: bool): Table {
    if keys == [] then dst
    else
      var before := AllTable(parse, store, src, dst, keys[..|keys| - 1], dryRun);
      SingleTable(parse, store, src, before, keys[|keys| - 1], dryRun)
  }

  function AllActions(
    parse: Parser, store: Store, src: Table, dst: Table, keys: seq<Key>, dryRun: bool): (a: seq<Action>)
    ensures |a| == |keys|
  {
    if keys == [] then []
    else
      var front := keys[..|keys| - 1];
      var before := AllTable(parse, store, src, dst, front, dryRun);
      AllActions(parse, store, src, dst, front, dryRun) +
      [SingleAction(parse, store, src, before, keys[|keys| - 1], dryRun)]
  }

  function CountOf(actions: seq<Action>, a: Action): nat {
    if actions == [] then 0
    else CountOf(actions[..|actions| - 1], a) + if actions[|actions| - 1] == a then 1 else 0
  }

  /** The report that goes with a list of actions. */
  ghost predicate Reports(r: Report, keys: seq<Key>, actions: seq<Action>)
    requires |actions| == |keys|
  {
    && r.total == |keys| == |r.entries|
    && (forall i :: 0 <= i < |keys| ==> r.entries[i] == (keys[i].name, actions[i]))
    && r.migratedCount == CountOf(actions, Migrated) + CountOf(actions, WouldMigrate)
    && r.skippedCount == CountOf(actions, Skipped)
    && r.failedCount == CountOf(actions, Failed)
  }

  /** The switch over an entry's action in the reporting loop. */
  method Recorded(report: Report, name: string, action: Action, ghost keys: seq<Key>, ghost actions: seq<Action>)
    returns (r: Report)
    requires keys != [] && keys[|keys| - 1].name == name && |actions| == |keys| - 1
    requires Reports(report.(total := |actions|), keys[..|keys| - 1], actions)
    ensures Reports(r.(total := |keys|), keys, actions + [action])
    ensures r.total == report.total && (r.failedCount > 0 <==> report.failedCount > 0 || action == Failed)
  {
    r := report.(entries := report.entries + [(name, action)]);
    match action {
      case Migrated => r := r.(migratedCount := r.migratedCount + 1);
      case WouldMigrate => r := r.(migratedCount := r.migratedCount + 1);
      case Failed => r := r.(failedCount := r.failedCount + 1);
      case Skipped => r := r.(skippedCount := r.skippedCount + 1);
    }
    assert (actions + [action])[..|actions|] == actions;
  }

  lemma AllStep(parse: Parser, store: Store, src: Table, dst: Table, keys: seq<Key>, i: nat, dryRun: bool)
    requires i < |keys|
    ensures var t := AllTable(parse, store, src, dst, keys[..i], dryRun);
            && AllTable(parse, store, src, dst, keys[..i + 1], dryRun)
               == SingleTable(parse, store, src, t, keys[i], dryRun)
            && AllActions(parse, store, src, dst, keys[..i + 1], dryRun)
               == AllActions(parse, store, src, dst, keys[..i], dryRun)
                  + [SingleAction(parse, store, src, t, keys[i], dryRun)]
  {
    assert keys[..i + 1][..i] == keys[..i];
  }

  /** A report that covers the first `n` keys. */
  ghost predicate ReportsFirst(r: Report, keys: seq<Key>, n: nat, actions: seq<Action>)
    requires n <= |keys| == r.total
  {
    |actions| == n && Reports(r.(total := n), keys[..n], actions)
  }

  /** One turn of the loop over the listed names. */
  method MigrateNext(parse: Parser, source: DB, target: DB, keys: seq<Key>, i: nat, dryRun: bool, report: Report,
                     ghost actions: seq<Action>)
    returns (r: Report, action: Action)
    requires i < |keys| == report.total && ReportsFirst(report, keys, i, actions)
    modifies target
    ensures action == SingleAction(parse, target.store, old(source.table), old(target.table), keys[i], dryRun)
    ensures target.table == SingleTable(parse, target.store, old(source.table), old(target.table), keys[i], dryRun)
    ensures source.table == old(source.table)
    ensures r.total == report.total && ReportsFirst(r, keys, i + 1, actions + [action])
    ensures r.failedCount > 0 <==> report.failedCount > 0 || action == Failed
  {
    action := MigrateSingle(parse, source, target, keys[i], dryRun);
    assert keys[..i + 1][..i] == keys[..i];
    r := Recorded(report, keys[i].name, action, keys[..i + 1], actions);
  }

  /** The loop over the listed names. */
  method MigrateEntries(parse: Parser, source: DB, target: DB, keys: seq<Key>, dryRun: bool)
    returns (report: Report, failure: bool)
    modifies target
    ensures Reports(report, keys, AllActions(parse, target.store, old(source.table), old(target.table), keys, dryRun))
    ensures target.table == AllTable(parse, target.store, old(source.table), old(target.table), keys, dryRun)
    ensures failure <==> report.failedCount > 0
    ensures source.table == old(source.table)
  {
    report := Report(|keys|, 0, 0, 0, []);
    failure := false;
    ghost var src, dst := source.table, target.table;
    ghost var actions: seq<Action> := [];
    for i := 0 to |keys|
      invariant source.table == src && report.total == |keys|
      invariant target.table == AllTable(parse, target.store, src, dst, keys[..i], dryRun)
      invariant actions == AllActions(parse, target.store, src, dst, keys[..i], dryRun)
      invariant ReportsFirst(report, keys, i, actions)
      invariant failure <==> report.failedCount > 0
    {
      AllStep(parse, target.store, src, dst, keys, i, dryRun);
      var action;
      report, action := MigrateNext(parse, source, target, keys, i, dryRun, report, actions);
      actions := actions + [action];
      failure := failure || action == Failed;
    }
    assert keys[..|keys|] == keys;
  }

  method MigrateAllWithReport(parse: Parser, source: DB, target: DB, xPath: string, dryRun: bool)
    returns (report: Report, failure: bool, ghost names: seq<string>)
    modifies target
    ensures IsListing(Some(names), source.table, xPath)
    ensures var keys := Keys(xPath, names);
            && Reports(report, keys,
                       AllActions(parse, target.store, old(source.table), old(target.table), keys, dryRun))
            && target.table == AllTable(parse, target.store, old(source.table), old(target.table), keys, dryRun)
    ensures failure <==> report.failedCount > 0
    ensures source.table == old(source.table)
  {
    var listed := source.List(xPath);
    if listed == null || listed.Length == 0 {
      return Report(0, 0, 0, 0, []), false, [];
    }
    names := listed[..];
    report, failure := MigrateEntries(parse, source, target, Keys(xPath, listed[..]), dryRun);
  }
}
