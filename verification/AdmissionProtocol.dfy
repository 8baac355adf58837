/** Any number of requests going through admission at once, one critical section at a time. */
module AdmissionProtocol {
  import opened Admission

  datatype Request = Request(key: string, torrentID: int, limits: Limits, debug: bool)

  /** Where a request stands in its waiting loop:
      Trying       about to ask for a grant, with its queue slot if it holds one
      Refused      refused before holding a slot, about to ask for one
      Waiting      holding a slot until the next tick, the time-out or a cancellation
      Leaving      granted while holding a slot, about to give the slot back
      Streaming    holding a grant whose release function has not been called
      Finished     rejected, cancelled, timed out or released */
  datatype Phase =
    | Trying(queued: bool, unique: bool)
    | Refused(unique: bool)
    | Waiting(unique: bool)
    | Leaving(unique: bool)
    | Streaming
    | Finished

  datatype Caller = Caller(req: Request, phase: Phase)

  datatype System = System(reg: Registry, callers: seq<Caller>)

  datatype Event =
    | Arrive(req: Request)
    | Proceed(i: nat)  // the critical section the request has come to
    | Tick(i: nat)
    | GiveUp(i: nat)   // cancelled or timed out while waiting
    | CallRelease(i: nat)

  function Move(s: System, i: nat, reg: Registry, phase: Phase): System
    requires i < |s.callers|
  {
    System(reg, s.callers[i := s.callers[i].(phase := phase)])
  }

  function ProceedStep(s: System, i: nat): System
    requires i < |s.callers|
  {
    var req := s.callers[i].req;
    match s.callers[i].phase
    case Trying(queued, unique) =>
      var v := Judge(s.reg, req.limits, req.key);
      if v == Granted then
        Move(s, i, Acquired(s.reg, req.key, req.torrentID), if queued then Leaving(unique) else Streaming)
      else Move(s, i, s.reg, if queued then Waiting(unique) else Refused(v == MaxUnique))
    case Refused(unique) =>
      if SlotFree(s.reg, req.limits.queueSize) then
        Move(s, i, SlotTaken(s.reg, unique, req.debug), Waiting(unique))
      else Move(s, i, s.reg, Finished)
    case Leaving(unique) => Move(s, i, SlotReleased(s.reg, unique, req.debug), Streaming)
    case _ => s
  }

  /** One event. An event that does not fit the request's phase does nothing; so the release
      function works once, and later calls of it are such events. */
  function Next(s: System, e: Event): System {
    match e
    case Arrive(req) => s.(callers := s.callers + [Caller(req, Trying(false, false))])
    case Proceed(i) => if i < |s.callers| then ProceedStep(s, i) else s
    case Tick(i) =>
      if i < |s.callers| && s.callers[i].phase.Waiting? then
        Move(s, i, s.reg, Trying(true, s.callers[i].phase.unique))
      else s
    case GiveUp(i) =>
      if i < |s.callers| && s.callers[i].phase.Waiting? then
        Move(s, i, SlotReleased(s.reg, s.callers[i].phase.unique, s.callers[i].req.debug), Finished)
      else s
    case CallRelease(i) =>
      if i < |s.callers| && s.callers[i].phase.Streaming? then
        Move(s, i, Released(s.reg, s.callers[i].req.key), Finished)
      else s
  }

  /** Where a run of events leads from the empty registry. */
  function After(run: seq<Event>): System {
    if run == [] then System(EMPTY, []) else Next(After(run[..|run| - 1]), run[|run| - 1])
  }

  // ---- counting requests --------------------------------------------------------------------------

  function Count(callers: seq<Caller>, p: Caller -> bool): nat {
    if callers == [] then 0 else (if p(callers[0]) then 1 else 0) + Count(callers[1..], p)
  }

  function Bit(b: bool): nat {
    if b then 1 else 0
  }

  lemma {:induction false} CountUpdate(callers: seq<Caller>, i: nat, c: Caller, p: Caller -> bool)
    requires i < |callers|
    ensures Count(callers[i := c], p) + Bit(p(callers[i])) == Count(callers, p) + Bit(p(c))
  {
    if i == 0 {
      assert callers[i := c][1..] == callers[1..];
    } else {
      CountUpdate(callers[1..], i - 1, c, p);
      assert callers[i := c][1..] == callers[1..][i - 1 := c];
    }
  }

  lemma {:induction false} CountAppend(callers: seq<Caller>, c: Caller, p: Caller -> bool)
    ensures Count(callers + [c], p) == Count(callers, p) + Bit(p(c))
  {
    if callers == [] {
      assert callers + [c] == [c];
    } else {
      CountAppend(callers[1..], c, p);
      assert (callers + [c])[1..] == callers[1..] + [c];
    }
  }

  lemma {:induction false} CountWitness(callers: seq<Caller>, i: nat, p: Caller -> bool)
    requires i < |callers| && p(callers[i])
    ensures Count(callers, p) > 0
  {
    if i > 0 {
      CountWitness(callers[1..], i - 1, p);
    }
  }

  lemma {:induction false} CountNone(callers: seq<Caller>, p: Caller -> bool)
    requires forall i :: 0 <= i < |callers| ==> !p(callers[i])
    ensures Count(callers, p) == 0
  {
    if callers != [] {
      CountNone(callers[1..], p);
    }
  }

  lemma {:induction false} CountSome(callers: seq<Caller>, p: Caller -> bool) returns (i: nat)
    requires Count(callers, p) > 0
    ensures i < |callers| && p(callers[i])
  {
    if p(callers[0]) {
      i := 0;
    } else {
      i := CountSome(callers[1..], p);
      i := i + 1;
    }
  }

  predicate IsLive(c: Caller) {
    c.phase.Leaving? || c.phase.Streaming?
  }

  predicate IsQueued(c: Caller) {
    c.phase.Waiting? || c.phase.Leaving? || (c.phase.Trying? && c.phase.queued)
  }

  /** Queued after being refused by the unique cap, by a request that keeps debug counts. */
  predicate IsQueuedUnique(c: Caller) {
    IsQueued(c) && c.phase.unique && c.req.debug
  }

  function LiveFor(key: string): Caller -> bool {
    (c: Caller) => IsLive(c) && c.req.key == key
  }

  // ---- the registry tells the truth, on every run --------------------------------------------------

  ghost predicate KeyCounted(s: System, key: string) {
    && Entry(s.reg.active, key).readers == Count(s.callers, LiveFor(key))
    && (key in s.reg.active ==> s.reg.active[key].readers > 0)
  }

  ghost predicate Inv(s: System) {
    && s.reg.streams == Count(s.callers, IsLive)
    && s.reg.waiters == Count(s.callers, IsQueued)
    && s.reg.uniqueWaiters == Count(s.callers, IsQueuedUnique)
    && "" !in s.reg.active
    && (forall key {:trigger KeyCounted(s, key)} :: key != "" ==> KeyCounted(s, key))
  }

  lemma MoveCounts(s: System, i: nat, reg: Registry, phase: Phase)
    requires i < |s.callers|
    ensures var c, t := s.callers[i], Move(s, i, reg, phase);
            var d := c.(phase := phase);
            && Count(t.callers, IsLive) + Bit(IsLive(c)) == Count(s.callers, IsLive) + Bit(IsLive(d))
            && Count(t.callers, IsQueued) + Bit(IsQueued(c)) == Count(s.callers, IsQueued) + Bit(IsQueued(d))
            && Count(t.callers, IsQueuedUnique) + Bit(IsQueuedUnique(c))
               == Count(s.callers, IsQueuedUnique) + Bit(IsQueuedUnique(d))
  {
    var d := s.callers[i].(phase := phase);
    CountUpdate(s.callers, i, d, IsLive);
    CountUpdate(s.callers, i, d, IsQueued);
    CountUpdate(s.callers, i, d, IsQueuedUnique);
  }

  lemma KeyMove(s: System, i: nat, reg: Registry, phase: Phase, key: string)
    requires i < |s.callers|
    ensures var c, t := s.callers[i], Move(s, i, reg, phase);
            var d := c.(phase := phase);
            Count(t.callers, LiveFor(key)) + Bit(IsLive(c) && c.req.key == key)
            == Count(s.callers, LiveFor(key)) + Bit(IsLive(d) && d.req.key == key)
  {
    CountUpdate(s.callers, i, s.callers[i].(phase := phase), LiveFor(key));
  }

  /** A step that neither grants nor releases keeps the per-key counts. */
  lemma QuietMoveKeepsKeys(s: System, i: nat, reg: Registry, phase: Phase)
    requires Inv(s) && i < |s.callers| && reg.active == s.reg.active
    requires IsLive(s.callers[i]) == IsLive(s.callers[i].(phase := phase))
    ensures var t := Move(s, i, reg, phase); forall key :: key != "" ==> KeyCounted(t, key)
  {
    var t := Move(s, i, reg, phase);
    forall key: string | key != "" ensures KeyCounted(t, key) {
      assert KeyCounted(s, key);
      KeyMove(s, i, reg, phase, key);
    }
  }

  lemma GrantKeepsInv(s: System, i: nat, phase: Phase)
    requires Inv(s) && i < |s.callers| && !IsLive(s.callers[i])
    requires IsLive(s.callers[i].(phase := phase))
    requires IsQueued(s.callers[i]) == IsQueued(s.callers[i].(phase := phase))
    requires IsQueuedUnique(s.callers[i]) == IsQueuedUnique(s.callers[i].(phase := phase))
    ensures Inv(Move(s, i, Acquired(s.reg, s.callers[i].req.key, s.callers[i].req.torrentID), phase))
  {
    var req := s.callers[i].req;
    var reg := Acquired(s.reg, req.key, req.torrentID);
    var t := Move(s, i, reg, phase);
    MoveCounts(s, i, reg, phase);
    forall key: string | key != "" ensures KeyCounted(t, key) {
      assert KeyCounted(s, key);
      KeyMove(s, i, reg, phase, key);
    }
  }

  lemma ReleaseKeepsInv(s: System, i: nat)
    requires Inv(s) && i < |s.callers| && s.callers[i].phase.Streaming?
    ensures Inv(Move(s, i, Released(s.reg, s.callers[i].req.key), Finished))
  {
    var key := s.callers[i].req.key;
    var reg := Released(s.reg, key);
    var t := Move(s, i, reg, Finished);
    MoveCounts(s, i, reg, Finished);
    CountWitness(s.callers, i, IsLive);
    CountWitness(s.callers, i, LiveFor(key));
    forall k: string | k != "" ensures KeyCounted(t, k) {
      assert KeyCounted(s, k);
      KeyMove(s, i, reg, Finished, k);
    }
  }

  lemma SlotReleaseKeepsInv(s: System, i: nat, phase: Phase)
    requires Inv(s) && i < |s.callers|
    requires s.callers[i].phase.Waiting? || s.callers[i].phase.Leaving?
    requires phase == if s.callers[i].phase.Leaving? then Streaming else Finished
    ensures Inv(Move(s, i, SlotReleased(s.reg, s.callers[i].phase.unique, s.callers[i].req.debug), phase))
  {
    var c := s.callers[i];
    var reg := SlotReleased(s.reg, c.phase.unique, c.req.debug);
    MoveCounts(s, i, reg, phase);
    CountWitness(s.callers, i, IsQueued);
    if IsQueuedUnique(c) {
      CountWitness(s.callers, i, IsQueuedUnique);
    }
    QuietMoveKeepsKeys(s, i, reg, phase);
  }

  lemma QuietMoveKeepsInv(s: System, i: nat, phase: Phase)
    requires Inv(s) && i < |s.callers|
    requires IsLive(s.callers[i]) == IsLive(s.callers[i].(phase := phase))
    requires IsQueued(s.callers[i]) == IsQueued(s.callers[i].(phase := phase))
    requires IsQueuedUnique(s.callers[i]) == IsQueuedUnique(s.callers[i].(phase := phase))
    ensures Inv(Move(s, i, s.reg, phase))
  {
    MoveCounts(s, i, s.reg, phase);
    QuietMoveKeepsKeys(s, i, s.reg, phase);
  }

  lemma SlotTakenKeepsInv(s: System, i: nat)
    requires Inv(s) && i < |s.callers| && s.callers[i].phase.Refused?
    ensures var unique := s.callers[i].phase.unique;
            Inv(Move(s, i, SlotTaken(s.reg, unique, s.callers[i].req.debug), Waiting(unique)))
  {
    var unique := s.callers[i].phase.unique;
    var reg := SlotTaken(s.reg, unique, s.callers[i].req.debug);
    MoveCounts(s, i, reg, Waiting(unique));
    QuietMoveKeepsKeys(s, i, reg, Waiting(unique));
  }

  lemma ArriveKeepsInv(s: System, req: Request)
    requires Inv(s)
    ensures Inv(Next(s, Arrive(req)))
  {
    var c := Caller(req, Trying(false, false));
    var t := Next(s, Arrive(req));
    CountAppend(s.callers, c, IsLive);
    CountAppend(s.callers, c, IsQueued);
    CountAppend(s.callers, c, IsQueuedUnique);
    forall key: string | key != "" ensures KeyCounted(t, key) {
      assert KeyCounted(s, key);
      CountAppend(s.callers, c, LiveFor(key));
    }
  }

  lemma ProceedKeepsInv(s: System, i: nat)
    requires Inv(s) && i < |s.callers|
    ensures Inv(ProceedStep(s, i))
  {
    var req := s.callers[i].req;
    match s.callers[i].phase
    case Trying(queued, unique) =>
      var v := Judge(s.reg, req.limits, req.key);
      if v == Granted {
        GrantKeepsInv(s, i, if queued then Leaving(unique) else Streaming);
      } else {
        QuietMoveKeepsInv(s, i, if queued then Waiting(unique) else Refused(v == MaxUnique));
      }
    case Refused(unique) =>
      if SlotFree(s.reg, req.limits.queueSize) {
        SlotTakenKeepsInv(s, i);
      } else {
        QuietMoveKeepsInv(s, i, Finished);
      }
    case Leaving(unique) => SlotReleaseKeepsInv(s, i, Streaming);
    case _ =>
  }

  lemma StepKeepsInv(s: System, e: Event)
    requires Inv(s)
    ensures Inv(Next(s, e))
  {
    match e
    case Arrive(req) => ArriveKeepsInv(s, req);
    case Proceed(i) => if i < |s.callers| { ProceedKeepsInv(s, i); }
    case Tick(i) =>
      if i < |s.callers| && s.callers[i].phase.Waiting? {
        QuietMoveKeepsInv(s, i, Trying(true, s.callers[i].phase.unique));
      }
    case GiveUp(i) =>
      if i < |s.callers| && s.callers[i].phase.Waiting? {
        SlotReleaseKeepsInv(s, i, Finished);
      }
    case CallRelease(i) =>
      if i < |s.callers| && s.callers[i].phase.Streaming? {
        ReleaseKeepsInv(s, i);
      }
  }

  /** In every interleaving the stream counter is the number of live grants, each key's entry counts
      its live grants, and the queue counters count the requests that hold a slot. */
  lemma {:induction false} RunsCountTruly(run: seq<Event>)
    ensures Inv(After(run))
  {
    if run == [] {
      assert forall key: string :: KeyCounted(After(run), key);
    } else {
      RunsCountTruly(run[..|run| - 1]);
      StepKeepsInv(After(run[..|run| - 1]), run[|run| - 1]);
    }
  }

  /** The guards against counting below zero never act: whoever gives something back is counted. */
  lemma ClampsNeverFire(run: seq<Event>, i: nat)
    requires i < |After(run).callers|
    ensures var s := After(run);
            var c := s.callers[i];
            && (IsLive(c) ==> s.reg.streams >= 1)
            && (IsLive(c) && c.req.key != "" ==> Entry(s.reg.active, c.req.key).readers >= 1)
            && (IsQueued(c) ==> s.reg.waiters >= 1)
            && (IsQueuedUnique(c) ==> s.reg.uniqueWaiters >= 1)
  {
    var s := After(run);
    var c := s.callers[i];
    RunsCountTruly(run);
    assert c.req.key != "" ==> KeyCounted(s, c.req.key);
    if IsLive(c) {
      CountWitness(s.callers, i, IsLive);
      CountWitness(s.callers, i, LiveFor(c.req.key));
    }
    if IsQueued(c) {
      CountWitness(s.callers, i, IsQueued);
    }
    if IsQueuedUnique(c) {
      CountWitness(s.callers, i, IsQueuedUnique);
    }
  }

  /** Nothing leaks: once every request is finished the registry is empty again. */
  lemma Drained(run: seq<Event>)
    requires forall i :: 0 <= i < |After(run).callers| ==> After(run).callers[i].phase.Finished?
    ensures After(run).reg == EMPTY
  {
    var s := After(run);
    RunsCountTruly(run);
    CountNone(s.callers, IsLive);
    CountNone(s.callers, IsQueued);
    CountNone(s.callers, IsQueuedUnique);
    forall key ensures key !in s.reg.active {
      if key != "" {
        assert KeyCounted(s, key);
        CountNone(s.callers, LiveFor(key));
      }
    }
    assert s.reg.active == map[];
  }

  /** A torrent has an active stream exactly when some request holds a live grant for it. */
  lemma ActiveMeansGranted(run: seq<Event>, key: string)
    requires key != ""
    ensures var s := After(run);
            HasActive(s.reg, key) <==>
              exists i :: 0 <= i < |s.callers| && IsLive(s.callers[i]) && s.callers[i].req.key == key
  {
    var s := After(run);
    RunsCountTruly(run);
    assert KeyCounted(s, key);
    if HasActive(s.reg, key) {
      var i := CountSome(s.callers, LiveFor(key));
    }
    if i :| 0 <= i < |s.callers| && IsLive(s.callers[i]) && s.callers[i].req.key == key {
      CountWitness(s.callers, i, LiveFor(key));
    }
  }

  /** A torrent somebody streams from is never found expired. */
  lemma GrantedNeverExpires(run: seq<Event>, i: nat, readers: int, expiresAt: int, now: int, st: TorrentStat)
    requires i < |After(run).callers| && IsLive(After(run).callers[i]) && After(run).callers[i].req.key != ""
    ensures !ShouldExpire(readers, HasActive(After(run).reg, After(run).callers[i].req.key), expiresAt, now, st)
  {
    ActiveMeansGranted(run, After(run).callers[i].req.key);
  }

  // ---- the limits hold, on every run ------------------------------------------------------------------

  /** A bound without a positive unique cap says nothing about distinct torrents. */
  predicate LimitsWithin(l: Limits, bound: Limits) {
    && l.maxStreams <= bound.maxStreams
    && (bound.maxUnique > 0 ==> 0 < l.maxUnique <= bound.maxUnique)
    && l.queueSize <= bound.queueSize
  }

  /** Every request of the run asks for limits within the bound. */
  predicate Bounded(run: seq<Event>, bound: Limits) {
    forall i :: 0 <= i < |run| && run[i].Arrive? ==> LimitsWithin(run[i].req.limits, bound)
  }

  predicate CallersWithin(callers: seq<Caller>, bound: Limits) {
    forall i :: 0 <= i < |callers| ==> LimitsWithin(callers[i].req.limits, bound)
  }

  predicate RegistryWithin(r: Registry, bound: Limits) {
    && (r.streams <= 0 || r.streams <= bound.maxStreams)
    && (bound.maxUnique > 0 ==> |r.active| <= bound.maxUnique)
    && (r.waiters <= 0 || r.waiters <= bound.queueSize)
  }

  predicate WithinLimits(s: System, bound: Limits) {
    CallersWithin(s.callers, bound) && RegistryWithin(s.reg, bound)
  }

  lemma AcquireKeepsUnique(r: Registry, limits: Limits, key: string, torrentID: int, bound: Limits)
    requires LimitsWithin(limits, bound) && Judge(r, limits, key) == Granted
    requires bound.maxUnique > 0 && |r.active| <= bound.maxUnique
    ensures |Acquired(r, key, torrentID).active| <= bound.maxUnique
  {
    if key != "" && key !in r.active {
      assert Acquired(r, key, torrentID).active.Keys == r.active.Keys + {key};
    } else if key != "" {
      assert Acquired(r, key, torrentID).active.Keys == r.active.Keys;
    }
  }

  lemma ReleaseKeepsUnique(r: Registry, key: string)
    ensures |Released(r, key).active| <= |r.active|
  {
    var a := Released(r, key).active;
    if key in r.active && key != "" {
      if Entry(r.active, key).readers <= 1 {
        assert a.Keys == r.active.Keys - {key};
      } else {
        assert a.Keys == r.active.Keys;
      }
    } else if key != "" {
      assert a == r.active;
    }
  }

  lemma ProceedKeepsLimits(s: System, i: nat, bound: Limits)
    requires WithinLimits(s, bound) && i < |s.callers|
    ensures RegistryWithin(ProceedStep(s, i).reg, bound)
  {
    var req := s.callers[i].req;
    assert LimitsWithin(req.limits, bound);
    if s.callers[i].phase.Trying? && Judge(s.reg, req.limits, req.key) == Granted && bound.maxUnique > 0 {
      AcquireKeepsUnique(s.reg, req.limits, req.key, req.torrentID, bound);
    }
  }

  lemma StepKeepsCallers(s: System, e: Event, bound: Limits)
    requires CallersWithin(s.callers, bound) && (e.Arrive? ==> LimitsWithin(e.req.limits, bound))
    ensures CallersWithin(Next(s, e).callers, bound)
  {
    var t := Next(s, e);
    forall i | 0 <= i < |t.callers| ensures LimitsWithin(t.callers[i].req.limits, bound) {
      if i < |s.callers| {
        assert t.callers[i].req == s.callers[i].req;
      }
    }
  }

  lemma StepKeepsLimits(s: System, e: Event, bound: Limits)
    requires WithinLimits(s, bound) && (e.Arrive? ==> LimitsWithin(e.req.limits, bound))
    ensures WithinLimits(Next(s, e), bound)
  {
    StepKeepsCallers(s, e, bound);
    match e
    case Proceed(i) => if i < |s.callers| { ProceedKeepsLimits(s, i, bound); }
    case CallRelease(i) => if i < |s.callers| { ReleaseKeepsUnique(s.reg, s.callers[i].req.key); }
    case _ =>
  }

  /** No interleaving exceeds a limit that all requests respect: not the streams, not the distinct
      torrents, not the queue. */
  lemma {:induction false} RunsStayWithinLimits(run: seq<Event>, bound: Limits)
    requires Bounded(run, bound)
    ensures WithinLimits(After(run), bound)
  {
    if run != [] {
      var front := run[..|run| - 1];
      RunsStayWithinLimits(front, bound);
      StepKeepsLimits(After(front), run[|run| - 1], bound);
    }
  }

  /** A further stream of a torrent that is already streaming is never refused by the unique cap. */
  lemma SameTorrentNeverUniqueBlocked(run: seq<Event>, i: nat, limits: Limits)
    requires i < |After(run).callers| && IsLive(After(run).callers[i])
    ensures Judge(After(run).reg, limits, After(run).callers[i].req.key) != MaxUnique
  {
    var key := After(run).callers[i].req.key;
    if key != "" {
      ActiveMeansGranted(run, key);
    }
  }

  // ---- when a request is granted, read off the requests alone ---------------------------------------------

  /** Requests picked out by a test, by their numbers. */
  ghost function Which(callers: seq<Caller>, p: Caller -> bool): set<nat> {
    set i: nat | i < |callers| && p(callers[i])
  }

  lemma {:induction false} CountIsSize(callers: seq<Caller>, p: Caller -> bool)
    ensures Count(callers, p) == |Which(callers, p)|
  {
    if callers == [] {
      assert Which(callers, p) == {};
    } else {
      var n := |callers| - 1;
      var front, last := callers[..n], callers[n];
      CountIsSize(front, p);
      assert callers == front + [last];
      CountAppend(front, last, p);
      WhichGrows(front, last, p);
    }
  }

  lemma WhichGrows(front: seq<Caller>, last: Caller, p: Caller -> bool)
    ensures |Which(front + [last], p)| == |Which(front, p)| + Bit(p(last))
  {
    var all, n := front + [last], |front|;
    assert all[n] == last && forall i :: 0 <= i < n ==> all[i] == front[i];
    assert n !in Which(front, p);
    if p(last) {
      assert Which(all, p) == Which(front, p) + {n};
    } else {
      assert Which(all, p) == Which(front, p);
    }
  }

  /** The requests that hold a live grant, and the torrents they hold it for. */
  ghost function Holders(s: System): set<nat> {
    set i: nat | i < |s.callers| && (s.callers[i].phase.Leaving? || s.callers[i].phase.Streaming?)
  }

  ghost function StreamedKeys(s: System): set<string> {
    set i: nat | i in Holders(s) && s.callers[i].req.key != "" :: s.callers[i].req.key
  }

  lemma KeysAreStreamed(run: seq<Event>)
    ensures After(run).reg.active.Keys == StreamedKeys(After(run))
  {
    var s := After(run);
    RunsCountTruly(run);
    forall key ensures key in s.reg.active <==> key in StreamedKeys(s) {
      if key != "" {
        ActiveMeansGranted(run, key);
        assert KeyCounted(s, key);
        if i :| 0 <= i < |s.callers| && IsLive(s.callers[i]) && s.callers[i].req.key == key {
          assert i in Holders(s);
        }
        if key in StreamedKeys(s) {
          var i: nat :| i in Holders(s) && s.callers[i].req.key == key;
          assert IsLive(s.callers[i]);
        }
      }
    }
  }

  /** On every run the verdict on a request is decided by the live grants alone: too many streams, else
      too many other torrents, else a grant. */
  lemma VerdictIs(run: seq<Event>, limits: Limits, key: string)
    ensures var s := After(run);
            var streams, keys := |Holders(s)|, StreamedKeys(s);
            Judge(s.reg, limits, key) ==
            if streams >= limits.maxStreams then MaxStreams
            else if limits.maxUnique > 0 && key != "" && key !in keys && |keys| >= limits.maxUnique then MaxUnique
            else Granted
  {
    var s := After(run);
    RunsCountTruly(run);
    CountIsSize(s.callers, IsLive);
    assert Which(s.callers, IsLive) == Holders(s);
    KeysAreStreamed(run);
    assert |s.reg.active| == |s.reg.active.Keys|;
    if key != "" {
      assert KeyCounted(s, key);
    }
  }

  /** And a queue slot is free exactly while fewer requests hold one than the queue takes. */
  lemma SlotIs(run: seq<Event>, queueSize: int)
    ensures var s := After(run);
            var queued := set i: nat | i < |s.callers|
              && (s.callers[i].phase.Waiting? || s.callers[i].phase.Leaving?
                  || (s.callers[i].phase.Trying? && s.callers[i].phase.queued));
            SlotFree(s.reg, queueSize) <==> |queued| < queueSize
  {
    var s := After(run);
    RunsCountTruly(run);
    CountIsSize(s.callers, IsQueued);
    var queued := set i: nat | i < |s.callers|
      && (s.callers[i].phase.Waiting? || s.callers[i].phase.Leaving?
          || (s.callers[i].phase.Trying? && s.callers[i].phase.queued));
    assert Which(s.callers, IsQueued) == queued;
  }

  // ---- which torrent an entry names ---------------------------------------------------------------------

  ghost predicate IdsFollow(s: System, idOf: string -> int) {
    && (forall i :: 0 <= i < |s.callers| ==> s.callers[i].req.torrentID == idOf(s.callers[i].req.key))
    && (forall key :: key in s.reg.active ==> s.reg.active[key].torrentID == idOf(key))
  }

  lemma StepKeepsIds(s: System, e: Event, idOf: string -> int)
    requires IdsFollow(s, idOf) && (e.Arrive? ==> e.req.torrentID == idOf(e.req.key))
    ensures IdsFollow(Next(s, e), idOf)
  {
    var t := Next(s, e);
    forall i | 0 <= i < |t.callers| ensures t.callers[i].req.torrentID == idOf(t.callers[i].req.key) {
      if i < |s.callers| {
        assert t.callers[i].req == s.callers[i].req;
      }
    }
  }

  /** When requests name their torrent consistently, every entry carries its key's torrent ID. */
  lemma {:induction false} EntriesNameTheirTorrent(run: seq<Event>, idOf: string -> int)
    requires forall i :: 0 <= i < |run| && run[i].Arrive? ==> run[i].req.torrentID == idOf(run[i].req.key)
    ensures forall key :: key in After(run).reg.active ==> After(run).reg.active[key].torrentID == idOf(key)
    ensures IdsFollow(After(run), idOf)
  {
    if run != [] {
      EntriesNameTheirTorrent(run[..|run| - 1], idOf);
      StepKeepsIds(After(run[..|run| - 1]), run[|run| - 1], idOf);
    }
  }

  /** An entry is named by the first request that brings an ID, and keeps that as long as it lasts. */
  lemma EntryKeepsId(s: System, e: Event, key: string)
    requires key in Next(s, e).reg.active
    ensures var id := Next(s, e).reg.active[key].torrentID;
            && (key in s.reg.active && s.reg.active[key].torrentID != 0 ==> id == s.reg.active[key].torrentID)
            && (key in s.reg.active && s.reg.active[key].torrentID == 0 ==>
                  id == 0 || (e.Proceed? && e.i < |s.callers| && id == s.callers[e.i].req.torrentID))
            && (key !in s.reg.active ==> e.Proceed? && e.i < |s.callers| && id == s.callers[e.i].req.torrentID)
    ensures && key != "" && key in s.reg.active && s.reg.active[key].torrentID == 0 && e.Proceed? && e.i < |s.callers|
            && s.callers[e.i].req.key == key && !IsLive(s.callers[e.i]) && IsLive(Next(s, e).callers[e.i]) ==>
              Next(s, e).reg.active[key].torrentID == s.callers[e.i].req.torrentID
  {
  }
}
