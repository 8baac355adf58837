/** Cleaning up the tracker tiers of a torrent. */
module Trackers {
  import opened GoBytes

  type Tier = seq<Bytes>

  /** How a tracker's text is trimmed, and what the URL library says of it: whether its scheme is
      served, whether its host is an IPv6 address, and the key by which trackers count as the same. */
  datatype Rules = Rules(
    trim: Bytes -> Bytes, native: Bytes -> bool, ipv6: Bytes -> bool, key: Bytes -> Bytes, enableIPv6: bool)
  {
    /** A tracker that may be kept. */
    predicate Usable(tracker: Bytes) {
      var t := trim(tracker);
      t != [] && native(t) && (enableIPv6 || !ipv6(t))
    }

    predicate Accepts(tracker: Bytes, seen: set<Bytes>) {
      Usable(tracker) && key(trim(tracker)) !in seen
    }

    /** What is trimmed stays as it is. */
    ghost predicate Steady() {
      forall t {:trigger trim(trim(t))} :: trim(trim(t)) == trim(t)
    }
  }

  type Policy = p: Rules | p.Steady()
    witness Rules(t => t, t => true, t => false, t => t, true)

  /** The rules with strings.TrimSpace. */
  function Trimming(native: Bytes -> bool, ipv6: Bytes -> bool, key: Bytes -> Bytes, enableIPv6: bool): (p: Policy)
    ensures forall t :: p.trim(t) == TrimSpace(t)
  {
    Rules(t => TrimSpace(t), native, ipv6, key, enableIPv6)
  }

  function KeysOf(p: Policy, tier: Tier): set<Bytes> {
    set t | t in tier :: p.key(t)
  }

  /** The usable trackers of a tier, trimmed, each key once and none that was seen before. */
  function Clean(p: Policy, tier: Tier, seen: set<Bytes>): Tier {
    if tier == [] then []
    else if p.Accepts(tier[0], seen) then
      var t := p.trim(tier[0]);
      [t] + Clean(p, tier[1..], seen + {p.key(t)})
    else Clean(p, tier[1..], seen)
  }

  function CleanAll(p: Policy, tiers: seq<Tier>, seen: set<Bytes>): seq<Tier> {
    if tiers == [] then []
    else
      var c := Clean(p, tiers[0], seen);
      Prepended(c, CleanAll(p, tiers[1..], seen + KeysOf(p, c)))
  }

  /** An empty tier is not added to a list of tiers. */
  function Prepended(tier: Tier, tiers: seq<Tier>): seq<Tier> {
    if tier == [] then tiers else [tier] + tiers
  }

  function Appended(tiers: seq<Tier>, tier: Tier): seq<Tier> {
    if tier == [] then tiers else tiers + [tier]
  }

  lemma Regrouped(before: seq<Tier>, tier: Tier, more: seq<Tier>)
    ensures before + Prepended(tier, more) == Appended(before, tier) + more
  {
  }

  /** The first `n` trackers, in their tiers. */
  function Cut(tiers: seq<Tier>, n: nat): seq<Tier> {
    if tiers == [] || n == 0 then []
    else if |tiers[0]| >= n then [tiers[0][..n]]
    else [tiers[0]] + Cut(tiers[1..], n - |tiers[0]|)
  }

  /** At most `maxTotal` trackers; no limit unless it is positive. */
  function Normalized(p: Policy, tiers: seq<Tier>, maxTotal: int): seq<Tier> {
    var all := CleanAll(p, tiers, {});
    if maxTotal > 0 then Cut(all, maxTotal) else all
  }

  // ---- the nested loops -------------------------------------------------------------------------------

  predicate Full(maxTotal: int, total: int) {
    maxTotal > 0 && total >= maxTotal
  }

  function Limited(tier: Tier, maxTotal: int, total: nat): Tier {
    if maxTotal <= 0 || |tier| + total <= maxTotal then tier
    else if total >= maxTotal then []
    else tier[..maxTotal - total]
  }

  /** The inner loop over one tier. */
  method CleanTier(p: Policy, tier: Tier, seen: set<Bytes>, maxTotal: int, total: nat)
    returns (clean: Tier, seen': set<Bytes>, total': nat)
    requires !Full(maxTotal, total)
    ensures clean == Limited(Clean(p, tier, seen), maxTotal, total)
    ensures total' == total + |clean|
    ensures !Full(maxTotal, total') ==> seen' == seen + KeysOf(p, clean)
  {
    clean, seen', total' := [], seen, total;
    ghost var all := Clean(p, tier, seen);
    CleanStart(p, tier, seen);
    for i := 0 to |tier|
      invariant all == clean + Clean(p, tier[i..], seen')
      invariant total' == total + |clean| && !Full(maxTotal, total')
      invariant seen' == seen + KeysOf(p, clean)
    {
      CleanStep(p, tier, i, seen', clean);
      KeysGrow(p, clean, p.trim(tier[i]));
      var tracker := p.trim(tier[i]);
      if tracker == [] || !p.native(tracker) || (!p.enableIPv6 && p.ipv6(tracker)) {
        continue;
      }
      var key := p.key(tracker);
      if key in seen' {
        continue;
      }
      seen' := seen' + {key};
      clean := clean + [tracker];
      total' := total' + 1;
      if Full(maxTotal, total') {
        CutShort(clean, Clean(p, tier[i + 1..], seen'), maxTotal, total);
        return;
      }
    }
    assert clean + [] == clean;
  }

  lemma CleanStart(p: Policy, tier: Tier, seen: set<Bytes>)
    ensures Clean(p, tier, seen) == [] + Clean(p, tier[0..], seen)
    ensures seen == seen + KeysOf(p, [])
  {
    assert tier[0..] == tier;
  }

  lemma CutShort(clean: Tier, more: Tier, maxTotal: int, total: nat)
    requires 0 < maxTotal && total < maxTotal && total + |clean| == maxTotal
    ensures clean == Limited(clean + more, maxTotal, total)
  {
    if more == [] {
      assert clean + more == clean;
    }
  }

  lemma LimitedIsAll(tier: Tier, maxTotal: int, total: nat)
    requires !Full(maxTotal, total)
    ensures var l := Limited(tier, maxTotal, total);
            && (Full(maxTotal, total + |l|) <==> Full(maxTotal, total + |tier|))
            && (!Full(maxTotal, total + |l|) ==> l == tier)
  {
  }

  /** One turn of the inner loop, on what is kept and what is still to come. */
  lemma CleanStep(p: Policy, tier: Tier, i: nat, seen: set<Bytes>, kept: Tier)
    requires i < |tier|
    ensures var t := p.trim(tier[i]);
            kept + Clean(p, tier[i..], seen) ==
            if p.Accepts(tier[i], seen) then kept + [t] + Clean(p, tier[i + 1..], seen + {p.key(t)})
            else kept + Clean(p, tier[i + 1..], seen)
  {
    var tail, t := tier[i..], p.trim(tier[i]);
    assert tail[0] == tier[i] && tail[1..] == tier[i + 1..];
    var more := Clean(p, tier[i + 1..], seen + {p.key(t)});
    assert kept + ([t] + more) == kept + [t] + more;
  }

  lemma KeysGrow(p: Policy, tier: Tier, t: Bytes)
    ensures KeysOf(p, tier + [t]) == KeysOf(p, tier) + {p.key(t)}
  {
    forall k ensures k in KeysOf(p, tier + [t]) <==> k in KeysOf(p, tier) + {p.key(t)} {
      assert t in tier + [t];
      if u :| u in tier && k == p.key(u) {
        assert u in tier + [t];
      }
    }
  }

  function Rest(tiers: seq<Tier>, maxTotal: int, total: nat): seq<Tier> {
    if maxTotal <= 0 then tiers else if total >= maxTotal then [] else Cut(tiers, maxTotal - total)
  }

  method NormalizeTrackers(p: Policy, trackers: seq<Tier>, maxTotal: int) returns (normalized: seq<Tier>)
    ensures normalized == Normalized(p, trackers, maxTotal)
  {
    normalized := [];
    WholeLoop(p, trackers, maxTotal);
    ghost var wanted := Normalized(p, trackers, maxTotal);
    if |trackers| == 0 {
      return;
    }
    var seen: set<Bytes> := {};
    var total := 0;
    for i := 0 to |trackers|
      invariant !Full(maxTotal, total)
      invariant Looped(p, trackers, i, seen, maxTotal, total, normalized) == wanted
    {
      LoopTurn(p, trackers, i, seen, maxTotal, total, normalized);
      var clean;
      clean, seen, total := CleanTier(p, trackers[i], seen, maxTotal, total);
      normalized := Appended(normalized, clean);
      if Full(maxTotal, total) {
        return;
      }
    }
  }

  /** What the outer loop ends with if it comes to tier `i` with these values. */
  function Looped(
    p: Policy, tiers: seq<Tier>, i: nat, seen: set<Bytes>, maxTotal: int, total: nat, before: seq<Tier>): seq<Tier>
    requires i <= |tiers|
    decreases |tiers| - i
  {
    if i == |tiers| then before
    else
      var clean := Limited(Clean(p, tiers[i], seen), maxTotal, total);
      var after := Appended(before, clean);
      if Full(maxTotal, total + |clean|) then after
      else Looped(p, tiers, i + 1, seen + KeysOf(p, clean), maxTotal, total + |clean|, after)
  }

  lemma LoopTurn(
    p: Policy, tiers: seq<Tier>, i: nat, seen: set<Bytes>, maxTotal: int, total: nat, before: seq<Tier>)
    requires i < |tiers|
    ensures var clean := Limited(Clean(p, tiers[i], seen), maxTotal, total);
            Looped(p, tiers, i, seen, maxTotal, total, before) ==
            if Full(maxTotal, total + |clean|) then Appended(before, clean)
            else Looped(p, tiers, i + 1, seen + KeysOf(p, clean), maxTotal, total + |clean|, Appended(before, clean))
  {
  }

  lemma {:induction false} LoopedIs(
    p: Policy, tiers: seq<Tier>, i: nat, seen: set<Bytes>, maxTotal: int, total: nat, before: seq<Tier>)
    requires i <= |tiers| && !Full(maxTotal, total)
    ensures Looped(p, tiers, i, seen, maxTotal, total, before)
            == before + Rest(CleanAll(p, tiers[i..], seen), maxTotal, total)
    decreases |tiers| - i
  {
    if i == |tiers| {
      assert before + [] == before;
    } else {
      var clean := Limited(Clean(p, tiers[i], seen), maxTotal, total);
      TailsFollow(tiers, i);
      TierStep(p, tiers[i..], seen, maxTotal, total, before, clean);
      if !Full(maxTotal, total + |clean|) {
        LoopedIs(p, tiers, i + 1, seen + KeysOf(p, clean), maxTotal, total + |clean|, Appended(before, clean));
      }
    }
  }

  lemma WholeLoop(p: Policy, tiers: seq<Tier>, maxTotal: int)
    ensures Looped(p, tiers, 0, {}, maxTotal, 0, []) == Normalized(p, tiers, maxTotal)
  {
    LoopedIs(p, tiers, 0, {}, maxTotal, 0, []);
    assert tiers[0..] == tiers;
    assert [] + Normalized(p, tiers, maxTotal) == Normalized(p, tiers, maxTotal);
  }

  lemma TailsFollow(tiers: seq<Tier>, i: nat)
    requires i < |tiers|
    ensures tiers[i..][0] == tiers[i] && tiers[i..][1..] == tiers[i + 1..]
  {
  }

  /** What one turn of the outer loop adds to the result. */
  lemma TierStep(
    p: Policy, tiers: seq<Tier>, seen: set<Bytes>, maxTotal: int, total: nat, before: seq<Tier>, clean: Tier)
    requires tiers != [] && !Full(maxTotal, total)
    requires clean == Limited(Clean(p, tiers[0], seen), maxTotal, total)
    ensures before + Rest(CleanAll(p, tiers, seen), maxTotal, total) ==
            if Full(maxTotal, total + |clean|) then Appended(before, clean)
            else Appended(before, clean)
                 + Rest(CleanAll(p, tiers[1..], seen + KeysOf(p, clean)), maxTotal, total + |clean|)
  {
    var c := Clean(p, tiers[0], seen);
    JoinedStep(before, c, clean, CleanAll(p, tiers[1..], seen + KeysOf(p, c)), maxTotal, total);
  }

  lemma JoinedStep(before: seq<Tier>, c: Tier, clean: Tier, rest: seq<Tier>, maxTotal: int, total: nat)
    requires !Full(maxTotal, total) && clean == Limited(c, maxTotal, total)
    ensures !Full(maxTotal, total + |clean|) ==> clean == c
    ensures before + Rest(Prepended(c, rest), maxTotal, total) ==
            if Full(maxTotal, total + |clean|) then Appended(before, clean)
            else Appended(before, clean) + Rest(rest, maxTotal, total + |clean|)
  {
    RestStep(c, rest, maxTotal, total);
    LimitedIsAll(c, maxTotal, total);
    if Full(maxTotal, total + |c|) {
      Regrouped(before, clean, []);
      assert Appended(before, clean) + [] == Appended(before, clean);
    } else {
      Regrouped(before, c, Rest(rest, maxTotal, total + |c|));
    }
  }

  lemma RestStep(c: Tier, rest: seq<Tier>, maxTotal: int, total: nat)
    requires !Full(maxTotal, total)
    ensures Rest(Prepended(c, rest), maxTotal, total) ==
            if Full(maxTotal, total + |c|) then Prepended(Limited(c, maxTotal, total), [])
            else Prepended(c, Rest(rest, maxTotal, total + |c|))
  {
    if c != [] {
      assert ([c] + rest)[1..] == rest;
      if maxTotal > 0 && |c| == maxTotal - total {
        assert c[..maxTotal - total] == c;
      }
    }
  }

  // ---- what the result is worth ------------------------------------------------------------------------

  function Flat(tiers: seq<Tier>): Tier {
    if tiers == [] then [] else tiers[0] + Flat(tiers[1..])
  }

  /** Trimmed usable trackers with distinct keys, none of them in `seen`. */
  ghost predicate Tidy(p: Policy, flat: Tier, seen: set<Bytes>) {
    && (forall i :: 0 <= i < |flat| ==> p.Usable(flat[i]) && p.trim(flat[i]) == flat[i] && p.key(flat[i]) !in seen)
    && (forall i, j :: 0 <= i < j < |flat| ==> p.key(flat[i]) != p.key(flat[j]))
  }

  predicate NoEmptyTier(tiers: seq<Tier>) {
    forall i :: 0 <= i < |tiers| ==> tiers[i] != []
  }

  lemma {:induction false} CleanIsTidy(p: Policy, tier: Tier, seen: set<Bytes>)
    ensures Tidy(p, Clean(p, tier, seen), seen)
  {
    if tier != [] {
      if p.Accepts(tier[0], seen) {
        CleanIsTidy(p, tier[1..], seen + {p.key(p.trim(tier[0]))});
      } else {
        CleanIsTidy(p, tier[1..], seen);
      }
    }
  }

  lemma TidyConcat(p: Policy, a: Tier, b: Tier, seen: set<Bytes>)
    ensures Tidy(p, a + b, seen) <==> Tidy(p, a, seen) && Tidy(p, b, seen + KeysOf(p, a))
  {
    var s := a + b;
    if Tidy(p, a, seen) && Tidy(p, b, seen + KeysOf(p, a)) {
      forall i, j | 0 <= i < j < |s| ensures p.key(s[i]) != p.key(s[j]) {
        if i < |a| <= j {
          assert p.key(a[i]) in KeysOf(p, a);
          assert s[j] == b[j - |a|];
        } else if |a| <= i {
          assert s[i] == b[i - |a|] && s[j] == b[j - |a|];
        }
      }
    }
    if Tidy(p, s, seen) {
      assert forall i :: 0 <= i < |a| ==> a[i] == s[i];
      forall j | 0 <= j < |b| ensures p.Usable(b[j]) && p.trim(b[j]) == b[j] && p.key(b[j]) !in seen + KeysOf(p, a) {
        assert b[j] == s[|a| + j];
      }
      forall i, j | 0 <= i < j < |b| ensures p.key(b[i]) != p.key(b[j]) {
        assert b[i] == s[|a| + i] && b[j] == s[|a| + j];
      }
    }
  }

  lemma {:induction false} CleanAllIsTidy(p: Policy, tiers: seq<Tier>, seen: set<Bytes>)
    ensures NoEmptyTier(CleanAll(p, tiers, seen))
    ensures Tidy(p, Flat(CleanAll(p, tiers, seen)), seen)
  {
    if tiers != [] {
      var c := Clean(p, tiers[0], seen);
      var rest := CleanAll(p, tiers[1..], seen + KeysOf(p, c));
      CleanAllIsTidy(p, tiers[1..], seen + KeysOf(p, c));
      CleanIsTidy(p, tiers[0], seen);
      if c != [] {
        assert ([c] + rest)[1..] == rest;
        TidyConcat(p, c, Flat(rest), seen);
      } else {
        assert KeysOf(p, c) == {};
        assert seen + KeysOf(p, c) == seen;
      }
    }
  }

  lemma {:induction false} CutIsPrefix(tiers: seq<Tier>, n: nat)
    requires NoEmptyTier(tiers)
    ensures NoEmptyTier(Cut(tiers, n))
    ensures var flat := Flat(tiers);
            Flat(Cut(tiers, n)) == if |flat| <= n then flat else flat[..n]
    ensures |Flat(tiers)| <= n ==> Cut(tiers, n) == tiers
  {
    if tiers != [] && n > 0 {
      var head, rest := tiers[0], tiers[1..];
      if |head| >= n {
        assert Flat([head[..n]]) == head[..n] by {
          assert [head[..n]][1..] == [];
        }
        EmptyFlat(rest);
        assert tiers == [head] + rest;
        if |head| == n {
          assert head[..n] == head;
        }
      } else {
        CutIsPrefix(rest, n - |head|);
        var cut := Cut(rest, n - |head|);
        assert ([head] + cut)[1..] == cut;
      }
    } else {
      EmptyFlat(tiers);
    }
  }

  lemma EmptyFlat(tiers: seq<Tier>)
    requires NoEmptyTier(tiers)
    ensures Flat(tiers) == [] <==> tiers == []
  {
    if tiers != [] {
      assert |Flat(tiers)| >= |tiers[0]|;
    }
  }

  /** A capped result is the uncapped one cut to its first trackers. */
  lemma CappedIsPrefix(p: Policy, tiers: seq<Tier>, maxTotal: int)
    requires maxTotal > 0
    ensures var flat, capped := Flat(Normalized(p, tiers, 0)), Flat(Normalized(p, tiers, maxTotal));
            capped == if |flat| <= maxTotal then flat else flat[..maxTotal]
  {
    CleanAllIsTidy(p, tiers, {});
    CutIsPrefix(CleanAll(p, tiers, {}), maxTotal);
  }

  /** No empty tier, every tracker trimmed and usable, every key once, and never more than the cap. */
  lemma NormalizedIsTidy(p: Policy, tiers: seq<Tier>, maxTotal: int)
    ensures var r := Normalized(p, tiers, maxTotal);
            NoEmptyTier(r) && Tidy(p, Flat(r), {}) && (maxTotal > 0 ==> |Flat(r)| <= maxTotal)
  {
    CleanAllIsTidy(p, tiers, {});
    if maxTotal > 0 {
      var all := CleanAll(p, tiers, {});
      CutIsPrefix(all, maxTotal);
      if |Flat(all)| > maxTotal {
        TidyPrefix(p, Flat(all), maxTotal);
      }
    }
  }

  lemma TidyPrefix(p: Policy, flat: Tier, n: nat)
    requires n <= |flat| && Tidy(p, flat, {})
    ensures Tidy(p, flat[..n], {})
  {
    assert flat == flat[..n] + flat[n..];
    TidyConcat(p, flat[..n], flat[n..], {});
  }

  lemma {:induction false} TidyStaysClean(p: Policy, tier: Tier, seen: set<Bytes>)
    requires Tidy(p, tier, seen)
    ensures Clean(p, tier, seen) == tier
  {
    if tier != [] {
      assert tier == [tier[0]] + tier[1..];
      TidyConcat(p, [tier[0]], tier[1..], seen);
      assert KeysOf(p, [tier[0]]) == {p.key(tier[0])} by {
        KeysGrow(p, [], tier[0]);
        assert [] + [tier[0]] == [tier[0]];
      }
      TidyStaysClean(p, tier[1..], seen + {p.key(tier[0])});
    }
  }

  lemma {:induction false} TidyTiersStayClean(p: Policy, tiers: seq<Tier>, seen: set<Bytes>)
    requires NoEmptyTier(tiers) && Tidy(p, Flat(tiers), seen)
    ensures CleanAll(p, tiers, seen) == tiers
  {
    if tiers != [] {
      TidyConcat(p, tiers[0], Flat(tiers[1..]), seen);
      TidyStaysClean(p, tiers[0], seen);
      TidyTiersStayClean(p, tiers[1..], seen + KeysOf(p, tiers[0]));
    }
  }

  /** Normalising a normalised list changes nothing. */
  lemma NormalizeIsIdempotent(p: Policy, tiers: seq<Tier>, maxTotal: int)
    ensures Normalized(p, Normalized(p, tiers, maxTotal), maxTotal) == Normalized(p, tiers, maxTotal)
  {
    var r := Normalized(p, tiers, maxTotal);
    NormalizedIsTidy(p, tiers, maxTotal);
    TidyTiersStayClean(p, r, {});
    if maxTotal > 0 {
      CutIsPrefix(r, maxTotal);
    }
  }

  lemma {:induction false} CleanKeepsKeys(p: Policy, tier: Tier, seen: set<Bytes>, i: nat)
    requires i < |tier| && p.Usable(tier[i])
    ensures p.key(p.trim(tier[i])) in seen + KeysOf(p, Clean(p, tier, seen))
  {
    var t := p.trim(tier[0]);
    if p.Accepts(tier[0], seen) {
      assert Clean(p, tier, seen)[0] == t;
      assert p.key(t) in KeysOf(p, Clean(p, tier, seen));
      if i > 0 {
        CleanKeepsKeys(p, tier[1..], seen + {p.key(t)}, i - 1);
        assert forall u :: u in Clean(p, tier[1..], seen + {p.key(t)}) ==> u in Clean(p, tier, seen);
      }
    } else if i > 0 {
      CleanKeepsKeys(p, tier[1..], seen, i - 1);
    }
  }

  /** Without a cap no usable tracker is lost: one with its key is in the result. */
  lemma {:induction false} NothingUsableIsLost(p: Policy, tiers: seq<Tier>, seen: set<Bytes>, n: nat, i: nat)
    requires n < |tiers| && i < |tiers[n]| && p.Usable(tiers[n][i])
    ensures p.key(p.trim(tiers[n][i])) in seen + KeysOf(p, Flat(CleanAll(p, tiers, seen)))
  {
    var k := p.key(p.trim(tiers[n][i]));
    var c := Clean(p, tiers[0], seen);
    var rest := CleanAll(p, tiers[1..], seen + KeysOf(p, c));
    if c != [] {
      assert ([c] + rest)[1..] == rest;
      assert Flat(CleanAll(p, tiers, seen)) == c + Flat(rest);
    } else {
      assert Flat(CleanAll(p, tiers, seen)) == c + Flat(rest);
    }
    assert KeysOf(p, c + Flat(rest)) == KeysOf(p, c) + KeysOf(p, Flat(rest)) by {
      KeysOfConcat(p, c, Flat(rest));
    }
    if n == 0 {
      CleanKeepsKeys(p, tiers[0], seen, i);
    } else {
      NothingUsableIsLost(p, tiers[1..], seen + KeysOf(p, c), n - 1, i);
    }
  }

  lemma KeysOfConcat(p: Policy, a: Tier, b: Tier)
    ensures KeysOf(p, a + b) == KeysOf(p, a) + KeysOf(p, b)
  {
    forall k ensures k in KeysOf(p, a + b) <==> k in KeysOf(p, a) + KeysOf(p, b) {
      if u :| u in a && k == p.key(u) {
        assert u in a + b;
      }
      if u :| u in b && k == p.key(u) {
        assert u in a + b;
      }
    }
  }

  /** The merged tracker list: the cleaned defaults, then the remote ones that add a key. */
  method MergeDefaultAndRemoteTrackers(p: Policy, defaults: Tier, remote: Tier) returns (merged: Tier)
    requires p.enableIPv6
    ensures merged == Clean(p, defaults, {}) + Clean(p, remote, KeysOf(p, Clean(p, defaults, {})))
  {
    var normalized := NormalizeTrackers(p, [defaults, remote], 0);
    merged := [];
    for i := 0 to |normalized|
      invariant merged + Flat(normalized[i..]) == Flat(normalized)
    {
      assert normalized[i..][1..] == normalized[i + 1..];
      merged := merged + normalized[i];
    }
    MergedFlat(p, defaults, remote);
  }

  lemma MergedFlat(p: Policy, defaults: Tier, remote: Tier)
    ensures Flat(CleanAll(p, [defaults, remote], {}))
            == Clean(p, defaults, {}) + Clean(p, remote, KeysOf(p, Clean(p, defaults, {})))
  {
    var c := Clean(p, defaults, {});
    var d := Clean(p, remote, KeysOf(p, c));
    assert [defaults, remote][1..] == [remote] && [remote][1..] == [];
    assert {} + KeysOf(p, c) == KeysOf(p, c);
    assert CleanAll(p, [], KeysOf(p, c) + KeysOf(p, d)) == [];
    assert CleanAll(p, [remote], KeysOf(p, c)) == if d == [] then [] else [d];
    assert Flat([d]) == d by { assert [d][1..] == []; }
    assert ([c] + [d])[1..] == [d] && [c][1..] == [];
  }

  // ---- which trackers exactly, and in which tiers --------------------------------------------------------

  /** A tracker that counts: its trimmed text is not empty, of a served scheme, and no IPv6 address unless
      those are allowed. */
  predicate Counts(p: Policy, tracker: Bytes) {
    var t := p.trim(tracker);
    t != [] && p.native(t) && (p.ipv6(t) ==> p.enableIPv6)
  }

  /** The last tracker of a list counts, and no earlier one that counts has its key. */
  predicate IsFirst(p: Policy, flat: Tier)
    requires flat != []
  {
    var n := |flat| - 1;
    && Counts(p, flat[n])
    && forall j :: 0 <= j < n && Counts(p, flat[j]) ==> p.key(p.trim(flat[j])) != p.key(p.trim(flat[n]))
  }

  /** The first tracker of each key, trimmed, in the order of the list. */
  function Firsts(p: Policy, flat: Tier): Tier {
    if flat == [] then []
    else Firsts(p, flat[..|flat| - 1]) + if IsFirst(p, flat) then [p.trim(flat[|flat| - 1])] else []
  }

  lemma {:induction false} CleanConcat(p: Policy, a: Tier, b: Tier, seen: set<Bytes>)
    ensures Clean(p, a + b, seen) == Clean(p, a, seen) + Clean(p, b, seen + KeysOf(p, Clean(p, a, seen)))
  {
    if a == [] {
      assert a + b == b && seen + KeysOf(p, []) == seen;
    } else {
      assert (a + b)[0] == a[0] && (a + b)[1..] == a[1..] + b;
      if p.Accepts(a[0], seen) {
        var t := p.trim(a[0]);
        CleanConcat(p, a[1..], b, seen + {p.key(t)});
        var c := Clean(p, a[1..], seen + {p.key(t)});
        KeysOfConcat(p, [t], c);
        assert KeysOf(p, [t]) == {p.key(t)};
        assert seen + {p.key(t)} + KeysOf(p, c) == seen + KeysOf(p, [t] + c);
      } else {
        CleanConcat(p, a[1..], b, seen);
      }
    }
  }

  lemma {:induction false} CleanKeysComeFrom(p: Policy, tier: Tier, seen: set<Bytes>, k: Bytes)
    requires k in KeysOf(p, Clean(p, tier, seen))
    ensures exists j :: 0 <= j < |tier| && Counts(p, tier[j]) && p.key(p.trim(tier[j])) == k
  {
    if tier != [] {
      var t := p.trim(tier[0]);
      if !(p.Accepts(tier[0], seen) && p.key(t) == k) {
        var more := if p.Accepts(tier[0], seen) then seen + {p.key(t)} else seen;
        assert k in KeysOf(p, Clean(p, tier[1..], more));
        CleanKeysComeFrom(p, tier[1..], more, k);
        var j :| 0 <= j < |tier| - 1 && Counts(p, tier[1..][j]) && p.key(p.trim(tier[1..][j])) == k;
        assert tier[j + 1] == tier[1..][j];
      }
    }
  }

  lemma {:induction false} CleanIsFirsts(p: Policy, flat: Tier)
    ensures Clean(p, flat, {}) == Firsts(p, flat)
  {
    if flat != [] {
      var n := |flat| - 1;
      var front, last := flat[..n], flat[n];
      CleanIsFirsts(p, front);
      assert flat == front + [last];
      CleanConcat(p, front, [last], {});
      OneMoreIs(p, front, last);
    }
  }

  lemma OneMoreIs(p: Policy, front: Tier, last: Bytes)
    ensures Clean(p, [last], {} + KeysOf(p, Clean(p, front, {})))
            == if IsFirst(p, front + [last]) then [p.trim(last)] else []
  {
    var flat, keys, k := front + [last], {} + KeysOf(p, Clean(p, front, {})), p.key(p.trim(last));
    assert flat[|front|] == last && forall j :: 0 <= j < |front| ==> flat[j] == front[j];
    assert [last][1..] == [];
    if k in keys {
      CleanKeysComeFrom(p, front, {}, k);
    } else {
      forall j | 0 <= j < |front| && Counts(p, front[j]) ensures p.key(p.trim(front[j])) != k {
        CleanKeepsKeys(p, front, {}, j);
      }
    }
  }

  lemma {:induction false} FlatIsClean(p: Policy, tiers: seq<Tier>, seen: set<Bytes>)
    ensures Flat(CleanAll(p, tiers, seen)) == Clean(p, Flat(tiers), seen)
  {
    if tiers != [] {
      var c := Clean(p, tiers[0], seen);
      var more := CleanAll(p, tiers[1..], seen + KeysOf(p, c));
      FlatIsClean(p, tiers[1..], seen + KeysOf(p, c));
      CleanConcat(p, tiers[0], Flat(tiers[1..]), seen);
      if c != [] {
        assert ([c] + more)[1..] == more;
      }
    }
  }

  /** The result without a cap is the first tracker of each key, of those that count, trimmed and in the
      order in which they were given. */
  lemma NormalizedIsFirsts(p: Policy, tiers: seq<Tier>)
    ensures Flat(Normalized(p, tiers, 0)) == Firsts(p, Flat(tiers))
  {
    FlatIsClean(p, tiers, {});
    CleanIsFirsts(p, Flat(tiers));
  }

  /** A cap shortens the tiers from the end: all but the last remaining one are whole. */
  lemma {:induction false} CutKeepsTiers(tiers: seq<Tier>, n: nat, i: nat)
    requires i < |Cut(tiers, n)|
    ensures i < |tiers| && Cut(tiers, n)[i] <= tiers[i]
    ensures i < |Cut(tiers, n)| - 1 ==> Cut(tiers, n)[i] == tiers[i]
  {
    if |tiers[0]| < n && i > 0 {
      CutKeepsTiers(tiers[1..], n - |tiers[0]|, i - 1);
    }
  }
}
