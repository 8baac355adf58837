/** The write throttle: grouping flows by torrent, and deciding who is slowed down. */
module Fairness {
  import opened GoBytes
  import opened SetSum

  const SECOND := 1_000_000_000
  const MIN_AGE := 10 * SECOND
  const MIN_BYTES := 0x100_0000
  const FAST_BPS := 0x20_0000
  const BASE_DELAY := 250_000
  const MAX_DELAY := 750_000
  const STARTUP_DELAY := 500_000
  const STARTUP_WINDOW := 20 * SECOND
  const STARTUP_MIN_GAP := 2 * SECOND
  const PRESSURE_WINDOW := 10 * SECOND
  const SEVERE_WAIT_MS := 3000

  /** What the fairness code reads of a flow's delivery record. */
  datatype Delivery = Delivery(firstWrite: int, readWaits: int, lastReadWait: int, lastReadWaitMS: int, slowWrites: int)

  datatype Flow = Flow(torrentID: int, started: int, bytes: int, delivery: Option<Delivery>) {
    predicate HasFirstByte() {
      bytes > 0 || (delivery.Some? && delivery.value.firstWrite > 0)
    }

    predicate WaitedRecently(now: int) {
      delivery.Some? && delivery.value.lastReadWait != 0 && now - delivery.value.lastReadWait <= PRESSURE_WINDOW
    }

    predicate HasRecentReadWait(now: int) {
      delivery.Some? && delivery.value.readWaits != 0 && WaitedRecently(now)
    }

    predicate HasSevereReadWait(now: int) {
      delivery.Some? && delivery.value.lastReadWaitMS > SEVERE_WAIT_MS && WaitedRecently(now)
    }

    predicate HasBackpressure() {
      delivery.Some? && delivery.value.slowWrites > 0
    }
  }

  /** The state of one torrent: its flows taken together. */
  datatype Group = Group(
    started: int, bytes: int, streams: int,
    firstByte: bool, recentWait: bool, backpressure: bool, severeWait: bool)
  {
    function Add(f: Flow, now: int): Group {
      Group(if f.started < started then f.started else started, bytes + f.bytes, streams + 1,
            firstByte || f.HasFirstByte(), recentWait || f.HasRecentReadWait(now),
            backpressure || f.HasBackpressure(), severeWait || f.HasSevereReadWait(now))
    }

    predicate Mature(now: int) {
      now - started >= MIN_AGE && bytes >= MIN_BYTES
    }

    function Rate(now: int): int {
      if now - started <= 0 then 0 else bytes * SECOND / (now - started)
    }

    predicate NeedsStartupProtection(now: int) {
      && !backpressure
      && 0 <= now - started <= STARTUP_WINDOW
      && !Mature(now)
      && (!firstByte || recentWait)
    }
  }

  type Flows = map<int, Flow>
  type Groups = map<int, Group>

  // ---- grouping -----------------------------------------------------------------------------------

  /** The flows of torrent `t` among `ids`. */
  ghost function Members(flows: Flows, ids: set<int>, t: int): set<int> {
    set i | i in ids && i in flows && flows[i].torrentID == t
  }

  ghost function BytesOf(flows: Flows): int -> int {
    i => if i in flows then flows[i].bytes else 0
  }

  /** Some member passes the test. */
  ghost predicate Any(flows: Flows, members: set<int>, test: Flow -> bool)
    requires members <= flows.Keys
  {
    exists i :: i in members && test(flows[i])
  }

  function FirstByte(): Flow -> bool {
    (f: Flow) => f.HasFirstByte()
  }

  function RecentWait(now: int): Flow -> bool {
    (f: Flow) => f.HasRecentReadWait(now)
  }

  function Backpressure(): Flow -> bool {
    (f: Flow) => f.HasBackpressure()
  }

  function SevereWait(now: int): Flow -> bool {
    (f: Flow) => f.HasSevereReadWait(now)
  }

  /** The earliest start among the members. */
  ghost predicate Earliest(flows: Flows, members: set<int>, started: int)
    requires members <= flows.Keys
  {
    && (exists i :: i in members && flows[i].started == started)
    && (forall i :: i in members ==> started <= flows[i].started)
  }

  ghost predicate FlagsOf(flows: Flows, members: set<int>, now: int, g: Group)
    requires members <= flows.Keys
  {
    && g.firstByte == Any(flows, members, FirstByte())
    && g.recentWait == Any(flows, members, RecentWait(now))
    && g.backpressure == Any(flows, members, Backpressure())
    && g.severeWait == Any(flows, members, SevereWait(now))
  }

  /** `g` is the group of the members: sum of bytes, number of flows, earliest start, any flag. */
  ghost predicate IsGroup(flows: Flows, members: set<int>, now: int, g: Group)
    requires members <= flows.Keys
  {
    && g.bytes == Sum(members, BytesOf(flows))
    && g.streams == |members|
    && Earliest(flows, members, g.started)
    && FlagsOf(flows, members, now, g)
  }

  /** The entry of torrent `t`: absent without flows, and otherwise their group. */
  ghost predicate IsEntry(flows: Flows, ids: set<int>, now: int, groups: Groups, t: int) {
    && (t in groups <==> t != 0 && Members(flows, ids, t) != {})
    && (t in groups ==> IsGroup(flows, Members(flows, ids, t), now, groups[t]))
  }

  /** The group-by of the flows in `ids` that belong to a torrent. */
  ghost predicate IsGrouping(flows: Flows, ids: set<int>, now: int, groups: Groups) {
    forall t :: IsEntry(flows, ids, now, groups, t)
  }

  lemma AnyGrows(flows: Flows, members: set<int>, i: int, test: Flow -> bool)
    requires members <= flows.Keys && i in flows
    ensures Any(flows, members + {i}, test) == (Any(flows, members, test) || test(flows[i]))
  {
    assert i in members + {i};
    if j :| j in members && test(flows[j]) {
      assert j in members + {i};
    }
  }

  lemma EarliestGrows(flows: Flows, members: set<int>, i: int, started: int)
    requires members <= flows.Keys && i in flows
    requires if members == {} then started == flows[i].started else Earliest(flows, members, started)
    ensures Earliest(flows, members + {i}, if flows[i].started < started then flows[i].started else started)
  {
    assert i in members + {i};
    if members != {} {
      var j :| j in members && flows[j].started == started;
      assert j in members + {i};
    }
  }

  function NewGroup(f: Flow): Group {
    Group(f.started, 0, 0, false, false, false, false)
  }

  lemma FlagsGrow(flows: Flows, members: set<int>, now: int, g: Group, i: int)
    requires members <= flows.Keys && i in flows && FlagsOf(flows, members, now, g)
    ensures FlagsOf(flows, members + {i}, now, g.Add(flows[i], now))
  {
    AnyGrows(flows, members, i, FirstByte());
    AnyGrows(flows, members, i, RecentWait(now));
    AnyGrows(flows, members, i, Backpressure());
    AnyGrows(flows, members, i, SevereWait(now));
  }

  lemma NewGroupFlags(flows: Flows, f: Flow, now: int)
    ensures FlagsOf(flows, {}, now, NewGroup(f))
  {
  }

  lemma GroupGrows(flows: Flows, members: set<int>, now: int, g: Group, i: int)
    requires members <= flows.Keys && i in flows && i !in members
    requires if members == {} then g == NewGroup(flows[i]) else IsGroup(flows, members, now, g)
    ensures IsGroup(flows, members + {i}, now, g.Add(flows[i], now))
  {
    var h := g.Add(flows[i], now);
    assert h.bytes == Sum(members + {i}, BytesOf(flows)) by {
      SumAdd(members, BytesOf(flows), i);
    }
    EarliestGrows(flows, members, i, g.started);
    assert FlagsOf(flows, members + {i}, now, h) by {
      NewGroupFlags(flows, flows[i], now);
      FlagsGrow(flows, members, now, g, i);
    }
  }

  lemma MembersGrow(flows: Flows, ids: set<int>, i: int, t: int)
    requires i in flows && i !in ids
    ensures i !in Members(flows, ids, t)
    ensures Members(flows, ids + {i}, t) ==
            if flows[i].torrentID == t then Members(flows, ids, t) + {i} else Members(flows, ids, t)
  {
  }

  /** What the loop body does to the groups when it meets flow `i`. */
  function Grouped(groups: Groups, f: Flow, now: int): Groups {
    if f.torrentID == 0 then groups
    else
      var g := if f.torrentID in groups then groups[f.torrentID] else NewGroup(f);
      groups[f.torrentID := g.Add(f, now)]
  }

  lemma GroupedKeepsEntry(flows: Flows, ids: set<int>, now: int, groups: Groups, i: int, t: int)
    requires i in flows && i !in ids && IsEntry(flows, ids, now, groups, t)
    ensures IsEntry(flows, ids + {i}, now, Grouped(groups, flows[i], now), t)
  {
    MembersGrow(flows, ids, i, t);
    if flows[i].torrentID == t && t != 0 {
      GroupGrows(flows, Members(flows, ids, t), now, if t in groups then groups[t] else NewGroup(flows[i]), i);
    }
  }

  /** The aggregation loop, visiting the flows in any order. */
  method Aggregate(flows: Flows, now: int) returns (groups: Groups)
    ensures IsGrouping(flows, flows.Keys, now, groups)
  {
    groups := map[];
    var left := flows.Keys;
    ghost var done: set<int> := {};
    while left != {}
      invariant done !! left && done + left == flows.Keys
      invariant IsGrouping(flows, done, now, groups)
      decreases left
    {
      var i := Pick(left);
      left := left - {i};
      var flow := flows[i];
      ghost var before := groups;
      if flow.torrentID != 0 {
        var group := if flow.torrentID in groups then groups[flow.torrentID] else NewGroup(flow);
        groups := groups[flow.torrentID := group.Add(flow, now)];
      }
      assert groups == Grouped(before, flow, now);
      forall t ensures IsEntry(flows, done + {i}, now, groups, t) {
        assert IsEntry(flows, done, now, before, t);
        GroupedKeepsEntry(flows, done, now, before, i, t);
      }
      done := done + {i};
    }
    assert done == flows.Keys;
  }

  lemma GroupUnique(flows: Flows, members: set<int>, now: int, g: Group, h: Group)
    requires members <= flows.Keys && IsGroup(flows, members, now, g) && IsGroup(flows, members, now, h)
    ensures g == h
  {
  }

  /** There is one group-by: no order of the loop can show in the result. */
  lemma GroupingUnique(flows: Flows, now: int, a: Groups, b: Groups)
    requires IsGrouping(flows, flows.Keys, now, a) && IsGrouping(flows, flows.Keys, now, b)
    ensures a == b
  {
    forall t | t in a || t in b ensures t in a && t in b && a[t] == b[t] {
      assert IsEntry(flows, flows.Keys, now, a, t) && IsEntry(flows, flows.Keys, now, b, t);
      GroupUnique(flows, Members(flows, flows.Keys, t), now, a[t], b[t]);
    }
  }

  /** Two flow tables that differ only in how bytes are spread over the flows of each torrent. */
  ghost predicate SameButSpread(flows: Flows, other: Flows) {
    && flows.Keys == other.Keys
    && (forall i :: i in flows ==>
          && other[i].(bytes := flows[i].bytes) == flows[i]
          && other[i].HasFirstByte() == flows[i].HasFirstByte())
    && (forall t {:trigger Members(flows, flows.Keys, t)} ::
          Sum(Members(flows, flows.Keys, t), BytesOf(flows)) == Sum(Members(flows, flows.Keys, t), BytesOf(other)))
  }

  lemma SpreadKeepsGroup(flows: Flows, other: Flows, members: set<int>, now: int, g: Group)
    requires SameButSpread(flows, other) && members <= flows.Keys && IsGroup(flows, members, now, g)
    requires Sum(members, BytesOf(flows)) == Sum(members, BytesOf(other))
    ensures IsGroup(other, members, now, g)
  {
    var i :| i in members && flows[i].started == g.started;
    assert other[i].started == g.started;
    AnySpread(flows, other, members, FirstByte());
    AnySpread(flows, other, members, RecentWait(now));
    AnySpread(flows, other, members, Backpressure());
    AnySpread(flows, other, members, SevereWait(now));
  }

  lemma AnySpread(flows: Flows, other: Flows, members: set<int>, test: Flow -> bool)
    requires members <= flows.Keys == other.Keys
    requires forall i :: i in members ==> test(other[i]) == test(flows[i])
    ensures Any(flows, members, test) == Any(other, members, test)
  {
  }

  /** Shifting bytes between the connections of one torrent changes no group, hence no rate. */
  lemma SpreadDoesNotMatter(flows: Flows, other: Flows, now: int, groups: Groups)
    requires SameButSpread(flows, other) && IsGrouping(flows, flows.Keys, now, groups)
    ensures IsGrouping(other, other.Keys, now, groups)
  {
    forall t ensures IsEntry(other, other.Keys, now, groups, t) {
      var m := Members(flows, flows.Keys, t);
      assert IsEntry(flows, flows.Keys, now, groups, t);
      SameMembers(flows, other, t);
      if t in groups {
        SpreadKeepsGroup(flows, other, m, now, groups[t]);
      }
    }
  }

  lemma SameMembers(flows: Flows, other: Flows, t: int)
    requires SameButSpread(flows, other)
    ensures Members(flows, flows.Keys, t) == Members(other, other.Keys, t)
  {
    forall i ensures i in Members(flows, flows.Keys, t) <==> i in Members(other, other.Keys, t) {
      if i in flows {
        assert other[i].torrentID == flows[i].torrentID;
      }
    }
  }

  /** Moving `d` bytes from one flow to another of the same torrent is such a spread. */
  lemma MovedBytesSpread(flows: Flows, from: int, to: int, d: int, other: Flows)
    requires from in flows && to in flows && from != to && flows[from].torrentID == flows[to].torrentID
    requires other == flows[from := flows[from].(bytes := flows[from].bytes - d)]
                           [to := flows[to].(bytes := flows[to].bytes + d)]
    requires forall i :: i in flows ==> other[i].HasFirstByte() == flows[i].HasFirstByte()
    ensures SameButSpread(flows, other)
  {
    var f, g := BytesOf(flows), BytesOf(other);
    forall t ensures Sum(Members(flows, flows.Keys, t), f) == Sum(Members(flows, flows.Keys, t), g) {
      var m := Members(flows, flows.Keys, t);
      if from in m {
        SumPick(m, f, from);
        SumPick(m, g, from);
        SumPick(m - {from}, f, to);
        SumPick(m - {from}, g, to);
        SumCongruent(m - {from} - {to}, f, g);
      } else {
        SumCongruent(m, f, g);
      }
    }
  }

  ghost function StreamsOf(groups: Groups): int -> int {
    t => if t in groups then groups[t].streams else 0
  }

  /** The stream counts of the groups add up to the flows that belong to a torrent. */
  lemma {:induction false} StreamsAddUp(flows: Flows, ids: set<int>, torrents: set<int>, now: int, groups: Groups)
    requires ids <= flows.Keys && IsGrouping(flows, ids, now, groups) && torrents <= groups.Keys
    ensures Sum(torrents, StreamsOf(groups)) == |set i | i in ids && flows[i].torrentID in torrents|
    decreases |torrents|
  {
    if torrents != {} {
      var t := Element(torrents);
      SumPick(torrents, StreamsOf(groups), t);
      StreamsAddUp(flows, ids, torrents - {t}, now, groups);
      var rest := set i | i in ids && flows[i].torrentID in torrents - {t};
      MembersSplit(flows, ids, torrents, t);
      assert IsEntry(flows, ids, now, groups, t);
      assert StreamsOf(groups)(t) == |Members(flows, ids, t)|;
    }
  }

  /** Over all groups: every flow that belongs to a torrent is counted, and counted once. */
  lemma AllStreamsAddUp(flows: Flows, now: int, groups: Groups)
    requires IsGrouping(flows, flows.Keys, now, groups)
    ensures Sum(groups.Keys, StreamsOf(groups)) == |set i | i in flows && flows[i].torrentID != 0|
  {
    StreamsAddUp(flows, flows.Keys, groups.Keys, now, groups);
    forall i | i in flows ensures flows[i].torrentID in groups <==> flows[i].torrentID != 0 {
      assert IsEntry(flows, flows.Keys, now, groups, flows[i].torrentID);
      assert i in Members(flows, flows.Keys, flows[i].torrentID);
    }
    assert (set i | i in flows.Keys && flows[i].torrentID in groups.Keys)
           == (set i | i in flows && flows[i].torrentID != 0);
  }

  lemma MembersSplit(flows: Flows, ids: set<int>, torrents: set<int>, t: int)
    requires ids <= flows.Keys && t in torrents
    ensures (set i | i in ids && flows[i].torrentID in torrents)
            == Members(flows, ids, t) + (set i | i in ids && flows[i].torrentID in torrents - {t})
    ensures Members(flows, ids, t) !! (set i | i in ids && flows[i].torrentID in torrents - {t})
  {
  }

  // ---- what the code reads of a flow and a group ------------------------------------------------------------

  /** A read wait counts for ten seconds after it ended, a severe one if it took more than three; a flow
      has its first byte once it wrote one itself or its delivery did. */
  lemma FlowSignals(f: Flow, now: int)
    ensures f.HasSevereReadWait(now) <==>
              && f.delivery.Some? && f.delivery.value.lastReadWaitMS > 3000
              && f.delivery.value.lastReadWait != 0 && now <= f.delivery.value.lastReadWait + 10_000_000_000
    ensures f.HasRecentReadWait(now) <==>
              && f.delivery.Some? && f.delivery.value.readWaits != 0
              && f.delivery.value.lastReadWait != 0 && now <= f.delivery.value.lastReadWait + 10_000_000_000
    ensures f.HasBackpressure() <==> f.delivery.Some? && 0 < f.delivery.value.slowWrites
    ensures f.HasFirstByte() <==> 0 < f.bytes || (f.delivery.Some? && 0 < f.delivery.value.firstWrite)
  {
  }

  /** The rate is the whole number of bytes per second, rounded down. */
  lemma RateIsBytesPerSecond(g: Group, now: int)
    ensures now <= g.started ==> g.Rate(now) == 0
    ensures now > g.started ==>
              g.Rate(now) * (now - g.started) <= g.bytes * 1_000_000_000 < (g.Rate(now) + 1) * (now - g.started)
  {
    if now > g.started {
      var n, d := g.bytes * 1_000_000_000, now - g.started;
      assert n == n / d * d + n % d;
    }
  }

  /** A torrent is mature after ten seconds and 16 MiB. It asks for startup protection in its first
      twenty seconds, until it is mature, as long as no client is slow and either its first byte is
      still to come or a read had to wait. */
  lemma StagesAre(g: Group, now: int)
    ensures g.Mature(now) <==> g.started + 10_000_000_000 <= now && g.bytes >= 16 * 0x10_0000
    ensures g.NeedsStartupProtection(now) <==>
              && !g.backpressure && g.started <= now <= g.started + 20_000_000_000
              && (now < g.started + 10_000_000_000 || g.bytes < 16 * 0x10_0000)
              && (g.firstByte ==> g.recentWait)
  {
  }
}
