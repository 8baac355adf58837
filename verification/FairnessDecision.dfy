/** The decision to delay a write, over a frozen table of groups. */
module FairnessDecision {
  import opened GoBytes
  import opened Fairness
  import SetSum

  /** Groups the code may pick as the weakest: mature, and of another torrent. */
  predicate IsRival(groups: Groups, t: int, current: int, now: int) {
    t in groups && t != current && groups[t].Mature(now)
  }

  /** Groups that ask for startup protection from a torrent that began well before them. */
  predicate IsStarting(groups: Groups, t: int, current: int, now: int) {
    && t in groups && t != current && current in groups
    && groups[t].NeedsStartupProtection(now)
    && groups[t].started - groups[current].started >= STARTUP_MIN_GAP
  }

  /** An order in which a loop over the Go map may visit the groups. */
  ghost predicate IsOrder(groups: Groups, order: seq<int>) {
    && (forall t :: t in order <==> t in groups)
    && (forall i, j :: 0 <= i < j < |order| ==> order[i] != order[j])
  }

  /** The weakest rival in visiting order; a later one replaces it only when strictly slower. */
  function Weakest(groups: Groups, order: seq<int>, current: int, now: int): (w: Option<int>)
    ensures w.Some? ==> IsRival(groups, w.value, current, now)
  {
    if order == [] then None
    else
      var t := order[|order| - 1];
      var w := Weakest(groups, order[..|order| - 1], current, now);
      if !IsRival(groups, t, current, now) then w
      else if w == None || groups[t].Rate(now) < groups[w.value].Rate(now) then Some(t)
      else w
  }

  datatype Delay = Delay(duration: int, startup: bool)

  const NO_DELAY := Delay(0, false)

  /** The part of the decision before the map loops: a fast mature torrent under no pressure. */
  predicate Throttleable(groups: Groups, activeFlows: nat, current: int, now: int) {
    && activeFlows >= 2 && |groups| >= 2 && current != 0 && current in groups
    && groups[current].Mature(now) && groups[current].Rate(now) >= FAST_BPS
    && !groups[current].severeWait && !groups[current].backpressure
  }

  /** What a weakest rival means for a torrent of rate `rate`. */
  function Imbalance(rate: int, rival: Group, now: int): Delay {
    var least := rival.Rate(now);
    if least <= 0 || rival.backpressure then NO_DELAY
    else if rate * 2 <= least * 3 then NO_DELAY
    else if rate > least * 2 then Delay(MAX_DELAY, false)
    else Delay(BASE_DELAY, false)
  }

  /** The delay asked for, before rate limiting. */
  ghost function Decision(groups: Groups, activeFlows: nat, order: seq<int>, current: int, now: int): Delay {
    if !Throttleable(groups, activeFlows, current, now) then NO_DELAY
    else if exists t :: IsStarting(groups, t, current, now) then Delay(STARTUP_DELAY, true)
    else
      var w := Weakest(groups, order, current, now);
      if w == None then NO_DELAY else Imbalance(groups[current].Rate(now), groups[w.value], now)
  }

  method WeakestMature(groups: Groups, order: seq<int>, current: int, now: int) returns (weakest: Option<int>)
    ensures weakest == Weakest(groups, order, current, now)
  {
    weakest := None;
    for i := 0 to |order|
      invariant weakest == Weakest(groups, order[..i], current, now)
    {
      assert order[..i + 1][..i] == order[..i];
      var t := order[i];
      if IsRival(groups, t, current, now) {
        if weakest == None || groups[t].Rate(now) < groups[weakest.value].Rate(now) {
          weakest := Some(t);
        }
      }
    }
    assert order[..|order|] == order;
  }

  /** The most recently started torrent that asks for protection, if any asks. */
  method StartupCandidate(groups: Groups, order: seq<int>, current: int, now: int) returns (candidate: Option<int>)
    requires IsOrder(groups, order)
    ensures candidate == None <==> !exists t :: IsStarting(groups, t, current, now)
    ensures candidate.Some? ==>
              && IsStarting(groups, candidate.value, current, now)
              && forall t :: IsStarting(groups, t, current, now) ==>
                               groups[t].started <= groups[candidate.value].started
  {
    candidate := None;
    for i := 0 to |order|
      invariant candidate == None ==> forall j :: 0 <= j < i ==> !IsStarting(groups, order[j], current, now)
      invariant candidate.Some? ==>
                  && IsStarting(groups, candidate.value, current, now)
                  && forall j :: 0 <= j < i && IsStarting(groups, order[j], current, now) ==>
                                   groups[order[j]].started <= groups[candidate.value].started
    {
      var t := order[i];
      if IsStarting(groups, t, current, now) {
        if candidate == None || groups[t].started > groups[candidate.value].started {
          candidate := Some(t);
        }
      }
    }
    forall t | IsStarting(groups, t, current, now) ensures t in order {
    }
  }

  method FairnessDelay(groups: Groups, activeFlows: nat, order: seq<int>, current: int, now: int)
    returns (d: Delay)
    requires IsOrder(groups, order)
    ensures d == Decision(groups, activeFlows, order, current, now)
  {
    if activeFlows < 2 || current == 0 || current !in groups || |groups| < 2 {
      return NO_DELAY;
    }
    var group := groups[current];
    if !group.Mature(now) || group.Rate(now) < FAST_BPS {
      return NO_DELAY;
    }
    if group.severeWait || group.backpressure {
      return NO_DELAY;
    }
    var starting := StartupCandidate(groups, order, current, now);
    if starting != None {
      return Delay(STARTUP_DELAY, true);
    }
    var weakest := WeakestMature(groups, order, current, now);
    if weakest == None {
      return NO_DELAY;
    }
    return Imbalance(group.Rate(now), groups[weakest.value], now);
  }

  // ---- who can be delayed ---------------------------------------------------------------------------

  lemma {:induction false} WeakestIsSlowest(groups: Groups, order: seq<int>, current: int, now: int)
    ensures var w := Weakest(groups, order, current, now);
            && (w == None ==> forall t :: t in order ==> !IsRival(groups, t, current, now))
            && (w.Some? ==>
                  && w.value in order
                  && forall t :: t in order && IsRival(groups, t, current, now) ==>
                                   groups[w.value].Rate(now) <= groups[t].Rate(now))
  {
    if order != [] {
      WeakestIsSlowest(groups, order[..|order| - 1], current, now);
    }
  }

  /** A torrent that no mature torrent undercuts gets no imbalance delay. */
  lemma SlowestIsSpared(groups: Groups, activeFlows: nat, order: seq<int>, current: int, now: int)
    requires current in groups
    requires forall t :: IsRival(groups, t, current, now) ==> groups[current].Rate(now) <= groups[t].Rate(now)
    ensures var d := Decision(groups, activeFlows, order, current, now);
            d == NO_DELAY || d == Delay(STARTUP_DELAY, true)
  {
  }

  /** An imbalance delay is given only to a torrent faster than 3/2 of some rival that is the
      slowest of all rivals, and the long one only to a torrent faster than twice that rival. */
  lemma DelayedIsFast(groups: Groups, activeFlows: nat, order: seq<int>, current: int, now: int)
    requires IsOrder(groups, order)
    ensures var d := Decision(groups, activeFlows, order, current, now);
            d != NO_DELAY && !d.startup ==>
              exists t :: && IsRival(groups, t, current, now)
                          && (forall u :: IsRival(groups, u, current, now) ==>
                                            groups[t].Rate(now) <= groups[u].Rate(now))
                          && 2 * groups[current].Rate(now) > 3 * groups[t].Rate(now)
                          && (d.duration == MAX_DELAY <==> groups[current].Rate(now) > 2 * groups[t].Rate(now))
  {
    WeakestIsSlowest(groups, order, current, now);
  }

  /** A torrent that qualifies for startup protection is delayed by neither rule. */
  lemma ProtectedIsNeverDelayed(groups: Groups, activeFlows: nat, order: seq<int>, current: int, now: int)
    requires current in groups && groups[current].NeedsStartupProtection(now)
    ensures Decision(groups, activeFlows, order, current, now) == NO_DELAY
  {
  }

  lemma DecisionIsShort(groups: Groups, activeFlows: nat, order: seq<int>, current: int, now: int)
    ensures Decision(groups, activeFlows, order, current, now).duration in {0, 250_000, 500_000, 750_000}
  {
  }

  // ---- when a delay is given, in times, bytes and flags -------------------------------------------------

  /** Only a torrent that is ten seconds old, has 16 MiB behind it at 2 MiB a second or more, and is under
      no pressure of its own, beside another torrent and another flow, is ever delayed. */
  lemma DelayedIsFit(groups: Groups, activeFlows: nat, order: seq<int>, current: int, now: int)
    requires Decision(groups, activeFlows, order, current, now) != Delay(0, false)
    ensures activeFlows >= 2 && |groups| >= 2 && current != 0 && current in groups
    ensures var g := groups[current];
            && now - g.started >= 10_000_000_000 && g.bytes >= 16 * 0x10_0000
            && g.bytes * 1_000_000_000 / (now - g.started) >= 2 * 0x10_0000
            && !g.severeWait && !g.backpressure
  {
  }

  /** Such a torrent gets the startup delay of 500 microseconds exactly if another torrent without a slow
      client is in its first 20 seconds, not mature, without its first byte or waiting for reads, and
      began at least two seconds after it. */
  lemma StartupDelayIff(groups: Groups, activeFlows: nat, order: seq<int>, current: int, now: int)
    requires activeFlows >= 2 && |groups| >= 2 && current != 0 && current in groups
    requires var g := groups[current];
             && now - g.started >= 10_000_000_000 && g.bytes >= 16 * 0x10_0000
             && g.bytes * 1_000_000_000 / (now - g.started) >= 2 * 0x10_0000
             && !g.severeWait && !g.backpressure
    ensures Decision(groups, activeFlows, order, current, now) == Delay(500_000, true) <==>
              exists t :: t in groups && t != current &&
                var h := groups[t];
                && !h.backpressure && 0 <= now - h.started <= 20_000_000_000
                && !(now - h.started >= 10_000_000_000 && h.bytes >= 16 * 0x10_0000)
                && (!h.firstByte || h.recentWait)
                && h.started - groups[current].started >= 2_000_000_000
    ensures Decision(groups, activeFlows, order, current, now).startup <==>
              Decision(groups, activeFlows, order, current, now) == Delay(500_000, true)
  {
    if t :| t in groups && t != current &&
            var h := groups[t];
            && !h.backpressure && 0 <= now - h.started <= 20_000_000_000
            && !(now - h.started >= 10_000_000_000 && h.bytes >= 16 * 0x10_0000)
            && (!h.firstByte || h.recentWait)
            && h.started - groups[current].started >= 2_000_000_000
    {
      assert IsStarting(groups, t, current, now);
    }
  }

  lemma RivalIs(groups: Groups, t: int, current: int, now: int)
    ensures IsRival(groups, t, current, now) <==>
              && t in groups && t != current
              && now - groups[t].started >= 10_000_000_000 && groups[t].bytes >= 16 * 0x10_0000
  {
  }

  /** With no torrent to protect, and `w` the slowest of the other mature torrents, none of the equally
      slow having a slow client, the delay goes by the two rates: nothing up to 3/2 of the slower one, 250
      microseconds up to twice it, 750 beyond. */
  lemma ImbalanceDelayIs(groups: Groups, activeFlows: nat, order: seq<int>, current: int, now: int, w: int)
    requires IsOrder(groups, order)
    requires activeFlows >= 2 && |groups| >= 2 && current != 0 && current in groups
    requires var g := groups[current];
             && now - g.started >= 10_000_000_000 && g.bytes >= 16 * 0x10_0000
             && g.bytes * 1_000_000_000 / (now - g.started) >= 2 * 0x10_0000
             && !g.severeWait && !g.backpressure
    requires !Decision(groups, activeFlows, order, current, now).startup
    requires IsSlowestRival(groups, w, current, now)
    requires forall t :: IsSlowestRival(groups, t, current, now) ==> !groups[t].backpressure
    ensures var rate := groups[current].bytes * 1_000_000_000 / (now - groups[current].started);
            var least := groups[w].bytes * 1_000_000_000 / (now - groups[w].started);
            Decision(groups, activeFlows, order, current, now) ==
            if least <= 0 || 2 * rate <= 3 * least then Delay(0, false)
            else if rate <= 2 * least then Delay(250_000, false)
            else Delay(750_000, false)
  {
    WeakestIsSlowest(groups, order, current, now);
    var v := Weakest(groups, order, current, now);
    assert w in order;
    assert IsSlowestRival(groups, v.value, current, now);
  }

  /** Alone, without another mature torrent and none to protect, nobody is delayed. */
  lemma NoRivalNoDelay(groups: Groups, activeFlows: nat, order: seq<int>, current: int, now: int)
    requires IsOrder(groups, order) && !Decision(groups, activeFlows, order, current, now).startup
    requires forall t :: t in groups && t != current ==>
                           now - groups[t].started < 10_000_000_000 || groups[t].bytes < 16 * 0x10_0000
    ensures Decision(groups, activeFlows, order, current, now) == Delay(0, false)
  {
  }

  // ---- does the visiting order matter? -----------------------------------------------------------------

  ghost predicate IsSlowestRival(groups: Groups, t: int, current: int, now: int) {
    IsRival(groups, t, current, now) &&
    forall u :: IsRival(groups, u, current, now) ==> groups[t].Rate(now) <= groups[u].Rate(now)
  }

  /** Two equally slow rivals of which only one has a client that reads slowly, in a case where the
      imbalance rule is reached and would act. */
  ghost predicate Contested(groups: Groups, activeFlows: nat, current: int, now: int) {
    && Throttleable(groups, activeFlows, current, now)
    && (forall t :: !IsStarting(groups, t, current, now))
    && exists t, u ::
         && IsSlowestRival(groups, t, current, now) && IsSlowestRival(groups, u, current, now)
         && groups[t].backpressure && !groups[u].backpressure
         && groups[t].Rate(now) > 0 && 2 * groups[current].Rate(now) > 3 * groups[t].Rate(now)
  }

  ghost predicate OrderMatters(groups: Groups, activeFlows: nat, current: int, now: int) {
    exists p, q ::
      && IsOrder(groups, p) && IsOrder(groups, q)
      && Decision(groups, activeFlows, p, current, now) != Decision(groups, activeFlows, q, current, now)
  }

  lemma {:induction false} FirstSlowestWins(groups: Groups, order: seq<int>, current: int, now: int)
    requires order != [] && IsSlowestRival(groups, order[0], current, now)
    ensures Weakest(groups, order, current, now) == Some(order[0])
  {
    if |order| == 1 {
      assert Weakest(groups, order[..0], current, now) == None;
    } else {
      FirstSlowestWins(groups, order[..|order| - 1], current, now);
    }
  }

  lemma {:induction false} Listing(s: set<int>) returns (order: seq<int>)
    ensures forall t :: t in order <==> t in s
    ensures forall i, j :: 0 <= i < j < |order| ==> order[i] != order[j]
    decreases |s|
  {
    if s == {} {
      order := [];
    } else {
      var x := SetSum.Element(s);
      var rest := Listing(s - {x});
      order := [x] + rest;
    }
  }

  lemma OrderStartingWith(groups: Groups, t: int) returns (order: seq<int>)
    requires t in groups
    ensures IsOrder(groups, order) && order != [] && order[0] == t
  {
    var rest := Listing(groups.Keys - {t});
    order := [t] + rest;
  }

  lemma ContestedShows(groups: Groups, activeFlows: nat, current: int, now: int)
    requires Contested(groups, activeFlows, current, now)
    ensures OrderMatters(groups, activeFlows, current, now)
  {
    var t, u :|
      && IsSlowestRival(groups, t, current, now) && IsSlowestRival(groups, u, current, now)
      && groups[t].backpressure && !groups[u].backpressure
      && groups[t].Rate(now) > 0 && 2 * groups[current].Rate(now) > 3 * groups[t].Rate(now);
    var p := OrderStartingWith(groups, t);
    var q := OrderStartingWith(groups, u);
    FirstSlowestWins(groups, p, current, now);
    FirstSlowestWins(groups, q, current, now);
    assert Decision(groups, activeFlows, p, current, now) == NO_DELAY;
    assert Decision(groups, activeFlows, q, current, now) != NO_DELAY;
  }

  lemma UncontestedAgrees(groups: Groups, activeFlows: nat, p: seq<int>, q: seq<int>, current: int, now: int)
    requires IsOrder(groups, p) && IsOrder(groups, q) && !Contested(groups, activeFlows, current, now)
    ensures Decision(groups, activeFlows, p, current, now) == Decision(groups, activeFlows, q, current, now)
  {
    WeakestIsSlowest(groups, p, current, now);
    WeakestIsSlowest(groups, q, current, now);
    var v, w := Weakest(groups, p, current, now), Weakest(groups, q, current, now);
    if v.Some? && w.Some? {
      assert IsSlowestRival(groups, v.value, current, now) && IsSlowestRival(groups, w.value, current, now);
    }
  }

  /** The decision depends on the order in which Go happens to walk the map exactly in the contested
      cases; everywhere else it is a function of the groups alone. */
  lemma OrderMattersIffContested(groups: Groups, activeFlows: nat, current: int, now: int)
    ensures OrderMatters(groups, activeFlows, current, now) <==> Contested(groups, activeFlows, current, now)
  {
    if Contested(groups, activeFlows, current, now) {
      ContestedShows(groups, activeFlows, current, now);
    }
    if OrderMatters(groups, activeFlows, current, now) {
      var p, q :|
        && IsOrder(groups, p) && IsOrder(groups, q)
        && Decision(groups, activeFlows, p, current, now) != Decision(groups, activeFlows, q, current, now);
      if !Contested(groups, activeFlows, current, now) {
        UncontestedAgrees(groups, activeFlows, p, q, current, now);
      }
    }
  }

  /** A group that started at time 0 and has seen its first byte. */
  function Steady(bytes: int, backpressure: bool): Group {
    Group(0, bytes, 1, true, false, backpressure, false)
  }

  /** Three torrents after 20 seconds: one of 100 MiB and two of 20 MiB, of which one has a slow client.
      Whether the fast one is delayed is then up to the order of the map. */
  lemma ContestedCase()
    ensures var groups := map[1 := Steady(100 * 0x10_0000, false), 2 := Steady(20 * 0x10_0000, true),
                              3 := Steady(20 * 0x10_0000, false)];
            Contested(groups, 3, 1, 20 * SECOND) && OrderMatters(groups, 3, 1, 20 * SECOND)
  {
    var groups := map[1 := Steady(100 * 0x10_0000, false), 2 := Steady(20 * 0x10_0000, true),
                      3 := Steady(20 * 0x10_0000, false)];
    var now := 20 * SECOND;
    assert groups.Keys == {1, 2, 3};
    assert groups[1].Rate(now) == 5 * 0x10_0000;
    assert groups[2].Rate(now) == groups[3].Rate(now) == 0x10_0000;
    assert IsSlowestRival(groups, 2, 1, now) && IsSlowestRival(groups, 3, 1, now);
    ContestedShows(groups, 3, 1, now);
  }
}
