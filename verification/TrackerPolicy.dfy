/** The tracker list a torrent is loaded with. */
module TrackerPolicy {
  import opened GoBytes
  import opened Trackers

  /** What the settings add to a torrent's own tiers, or put in their place; a mode without a meaning
      adds nothing. */
  function Base(mode: int, own: seq<Tier>, defaults: Tier): seq<Tier> {
    match mode
    case 1 => own + [defaults]
    case 2 => []
    case 3 => [defaults]
    case _ => own
  }

  function WithFile(tiers: seq<Tier>, file: Tier): seq<Tier> {
    if file == [] then tiers else tiers + [file]
  }

  function Applied(p: Policy, mode: int, own: seq<Tier>, defaults: Tier, file: Tier, budget: int): seq<Tier> {
    Normalized(p, WithFile(Base(mode, own, defaults), file), budget)
  }

  class Spec {
    var trackers: seq<Tier>

    constructor (trackers: seq<Tier>)
      ensures this.trackers == trackers
    {
      this.trackers := trackers;
    }
  }

  method ApplyTrackerPolicy(p: Policy, spec: Spec?, mode: int, defaults: Tier, file: Tier, budget: int)
    modifies spec
    ensures spec != null ==> spec.trackers == Applied(p, mode, old(spec.trackers), defaults, file, budget)
  {
    if spec == null {
      return;
    }
    match mode {
      case 1 => spec.trackers := spec.trackers + [defaults];
      case 2 => spec.trackers := [];
      case 3 => spec.trackers := [defaults];
      case _ =>
    }
    if |file| > 0 {
      spec.trackers := spec.trackers + [file];
    }
    spec.trackers := NormalizeTrackers(p, spec.trackers, budget);
  }

  /** The tiers that are normalised, mode by mode: mode 1 adds the defaults to the torrent's own, mode 2
      drops the own, mode 3 puts the defaults in their place, and any other keeps the own; trackers from
      the file come last. */
  lemma PolicyByMode(p: Policy, own: seq<Tier>, defaults: Tier, file: Tier, budget: int, mode: int)
    ensures var last: seq<Tier> := if |file| > 0 then [file] else [];
            && Applied(p, 1, own, defaults, file, budget) == Normalized(p, own + [defaults] + last, budget)
            && Applied(p, 2, own, defaults, file, budget) == Normalized(p, last, budget)
            && Applied(p, 3, own, defaults, file, budget) == Normalized(p, [defaults] + last, budget)
            && (mode !in {1, 2, 3} ==>
                  Applied(p, mode, own, defaults, file, budget) == Normalized(p, own + last, budget))
  {
    var last: seq<Tier> := if |file| > 0 then [file] else [];
    assert own + [defaults] + [] == own + [defaults] && own + [] == own;
    assert [defaults] + [] == [defaults] && [] + last == last;
  }

  // ---- applying the policy again -----------------------------------------------------------------------

  lemma {:induction false} CleanAllConcat(p: Policy, a: seq<Tier>, b: seq<Tier>, seen: set<Bytes>)
    ensures CleanAll(p, a + b, seen)
            == CleanAll(p, a, seen) + CleanAll(p, b, seen + KeysOf(p, Flat(CleanAll(p, a, seen))))
  {
    if a == [] {
      assert a + b == b;
      assert seen + KeysOf(p, Flat(CleanAll(p, a, seen))) == seen;
    } else {
      var c := Clean(p, a[0], seen);
      var kept := seen + KeysOf(p, c);
      var more := CleanAll(p, a[1..], kept);
      CleanAllConcat(p, a[1..], b, kept);
      KeysAcross(p, c, more, seen);
      TailConcat(a, b);
      PrependedConcat(c, more, CleanAll(p, b, kept + KeysOf(p, Flat(more))));
    }
  }

  lemma TailConcat(a: seq<Tier>, b: seq<Tier>)
    requires a != []
    ensures (a + b)[0] == a[0] && (a + b)[1..] == a[1..] + b
  {
  }

  lemma KeysAcross(p: Policy, c: Tier, more: seq<Tier>, seen: set<Bytes>)
    ensures seen + KeysOf(p, c) + KeysOf(p, Flat(more)) == seen + KeysOf(p, Flat(Prepended(c, more)))
  {
    KeysOfConcat(p, c, Flat(more));
    PrependedFlat(c, more);
  }

  lemma PrependedConcat(c: Tier, more: seq<Tier>, rest: seq<Tier>)
    ensures Prepended(c, more + rest) == Prepended(c, more) + rest
  {
    if c != [] {
      assert [c] + (more + rest) == [c] + more + rest;
    }
  }

  lemma PrependedFlat(c: Tier, more: seq<Tier>)
    ensures Flat(Prepended(c, more)) == c + Flat(more)
  {
    if c != [] {
      assert ([c] + more)[1..] == more;
    }
  }

  /** Usable trackers whose keys have all been seen leave nothing. */
  lemma {:induction false} NothingNew(p: Policy, tiers: seq<Tier>, seen: set<Bytes>)
    requires forall n, i :: 0 <= n < |tiers| && 0 <= i < |tiers[n]| && p.Usable(tiers[n][i]) ==>
               p.key(p.trim(tiers[n][i])) in seen
    ensures CleanAll(p, tiers, seen) == []
  {
    if tiers != [] {
      NothingNewInTier(p, tiers[0], seen);
      assert seen + KeysOf(p, []) == seen;
      NothingNew(p, tiers[1..], seen);
    }
  }

  lemma {:induction false} NothingNewInTier(p: Policy, tier: Tier, seen: set<Bytes>)
    requires forall i :: 0 <= i < |tier| && p.Usable(tier[i]) ==> p.key(p.trim(tier[i])) in seen
    ensures Clean(p, tier, seen) == []
  {
    if tier != [] {
      NothingNewInTier(p, tier[1..], seen);
    }
  }

  /** A complete tidy list absorbs tiers that were part of what it was made from. */
  lemma AbsorbsComplete(p: Policy, own: seq<Tier>, extra: seq<Tier>)
    ensures var r := CleanAll(p, own + extra, {});
            CleanAll(p, r + extra, {}) == r
  {
    var all := own + extra;
    var r := CleanAll(p, all, {});
    CleanAllIsTidy(p, all, {});
    TidyTiersStayClean(p, r, {});
    CleanAllConcat(p, r, extra, {});
    NothingNewIn(p, own, extra);
    assert r + [] == r;
  }

  lemma NothingNewIn(p: Policy, own: seq<Tier>, extra: seq<Tier>)
    ensures CleanAll(p, extra, {} + KeysOf(p, Flat(CleanAll(p, own + extra, {})))) == []
  {
    var all := own + extra;
    var seen := {} + KeysOf(p, Flat(CleanAll(p, all, {})));
    forall n, i | 0 <= n < |extra| && 0 <= i < |extra[n]| && p.Usable(extra[n][i])
      ensures p.key(p.trim(extra[n][i])) in seen
    {
      assert all[|own| + n] == extra[n];
      NothingUsableIsLost(p, all, {}, |own| + n, i);
    }
    NothingNew(p, extra, seen);
  }

  /** A list that is full absorbs anything. */
  lemma {:induction false} FullCutsTheRest(full: seq<Tier>, more: seq<Tier>, n: nat)
    requires NoEmptyTier(full) && |Flat(full)| == n
    ensures Cut(full + more, n) == full
  {
    if full == [] {
      assert full + more == more;
    } else {
      assert full == [full[0]] + full[1..];
      assert (full + more)[1..] == full[1..] + more;
      assert |Flat(full)| == |full[0]| + |Flat(full[1..])|;
      EmptyFlat(full[1..]);
      if full[1..] == [] {
        assert full[0][..n] == full[0];
      } else {
        FullCutsTheRest(full[1..], more, n - |full[0]|);
      }
    }
  }

  lemma AbsorbsExtra(p: Policy, own: seq<Tier>, extra: seq<Tier>, budget: int)
    ensures var r := Normalized(p, own + extra, budget);
            Normalized(p, r + extra, budget) == r
  {
    var all := CleanAll(p, own + extra, {});
    var r := Normalized(p, own + extra, budget);
    CleanAllIsTidy(p, own + extra, {});
    if budget > 0 {
      CutIsPrefix(all, budget);
    }
    if budget <= 0 || |Flat(all)| <= budget {
      AbsorbsComplete(p, own, extra);
    } else {
      NormalizedIsTidy(p, own + extra, budget);
      TidyTiersStayClean(p, r, {});
      CleanAllConcat(p, r, extra, {});
      FullCutsTheRest(r, CleanAll(p, extra, {} + KeysOf(p, Flat(r))), budget);
    }
  }

  /** What the policy adds at the end of a list, mode by mode. */
  function Extra(mode: int, defaults: Tier, file: Tier): seq<Tier> {
    WithFile(if mode == 1 then [defaults] else [], file)
  }

  lemma AppliedAddsExtra(p: Policy, mode: int, own: seq<Tier>, defaults: Tier, file: Tier, budget: int)
    requires mode != 2 && mode != 3
    ensures Applied(p, mode, own, defaults, file, budget) == Normalized(p, own + Extra(mode, defaults, file), budget)
  {
    var extra := Extra(mode, defaults, file);
    if mode == 1 {
      assert own + ([defaults] + [file]) == own + [defaults] + [file];
    } else if file == [] {
      assert own + extra == own;
    } else {
      assert [] + [file] == [file];
    }
  }

  /** Loading a torrent again under the same settings changes its trackers no further. */
  lemma PolicyIsIdempotent(p: Policy, mode: int, own: seq<Tier>, defaults: Tier, file: Tier, budget: int)
    ensures var once := Applied(p, mode, own, defaults, file, budget);
            Applied(p, mode, once, defaults, file, budget) == once
  {
    if mode != 2 && mode != 3 {
      var once := Applied(p, mode, own, defaults, file, budget);
      AppliedAddsExtra(p, mode, own, defaults, file, budget);
      AppliedAddsExtra(p, mode, once, defaults, file, budget);
      AbsorbsExtra(p, own, Extra(mode, defaults, file), budget);
    }
  }

  /** However the list came about, it is tidy and within the budget. */
  lemma PolicyIsTidy(p: Policy, mode: int, own: seq<Tier>, defaults: Tier, file: Tier, budget: int)
    ensures var r := Applied(p, mode, own, defaults, file, budget);
            NoEmptyTier(r) && Tidy(p, Flat(r), {}) && (budget > 0 ==> |Flat(r)| <= budget)
  {
    NormalizedIsTidy(p, WithFile(Base(mode, own, defaults), file), budget);
  }
}
