/** The compare-and-swap limiter that spaces out the delays of one flow. */
module FairnessLimiter {
  import opened Fairness

  const COOLDOWN := 5_000_000

  datatype Grant = Grant(at: int, delay: int)

  /** A write that has loaded the last delay time and is about to compare and swap it. */
  datatype Write = Write(now: int, delay: int, seen: int, pending: bool)

  /** The shared time stamp (0 before any delay), the writes that have begun, the delays granted. */
  datatype System = System(last: int, writes: seq<Write>, grants: seq<Grant>)

  datatype Event = Load(now: int, delay: int) | Swap(i: nat)

  predicate TooSoon(now: int, seen: int) {
    seen != 0 && now - seen < COOLDOWN
  }

  /** Loading and swapping are separate steps; a clock never reads 0 and no delay exceeds the
      maximum. */
  function Next(s: System, e: Event): System {
    match e
    case Load(now, delay) =>
      if now <= 0 || delay < 0 || delay > MAX_DELAY then s
      else s.(writes := s.writes + [Write(now, delay, s.last, true)])
    case Swap(i) =>
      if i >= |s.writes| || !s.writes[i].pending then s
      else
        var w := s.writes[i];
        var t := s.(writes := s.writes[i := w.(pending := false)]);
        if TooSoon(w.now, w.seen) || s.last != w.seen then t
        else t.(last := w.now, grants := s.grants + [Grant(w.now, w.delay)])
  }

  function After(run: seq<Event>): System {
    if run == [] then System(0, [], []) else Next(After(run[..|run| - 1]), run[|run| - 1])
  }

  class StreamFairnessFlow {
    var lastDelayNano: int

    constructor ()
      ensures lastDelayNano == 0
    {
      lastDelayNano := 0;
    }

    method CompareAndSwap(expected: int, value: int) returns (ok: bool)
      modifies this
      ensures ok == (old(lastDelayNano) == expected)
      ensures lastDelayNano == if ok then value else old(lastDelayNano)
    {
      if lastDelayNano != expected {
        return false;
      }
      lastDelayNano := value;
      return true;
    }

    /** A write that no other write interferes with. */
    method RateLimitedDelay(now: int, delay: int) returns (granted: int)
      modifies this
      ensures var s := Next(Next(System(old(lastDelayNano), [], []), Load(now, delay)), Swap(0));
              now > 0 && 0 <= delay <= MAX_DELAY ==>
                && lastDelayNano == s.last
                && granted == if s.grants == [] then 0 else s.grants[0].delay
      // what that comes to: the delay is granted unless one was within the last 5 ms
      ensures granted == if old(lastDelayNano) != 0 && now - old(lastDelayNano) < 5_000_000 then 0 else delay
      ensures lastDelayNano == if old(lastDelayNano) != 0 && now - old(lastDelayNano) < 5_000_000
                               then old(lastDelayNano) else now
    {
      var lastDelay := lastDelayNano;
      if lastDelay != 0 && now - lastDelay < COOLDOWN {
        return 0;
      }
      var swapped := CompareAndSwap(lastDelay, now);
      if !swapped {
        return 0;
      }
      return delay;
    }
  }

  /** Granted delays are at least a cool-down apart. */
  predicate Spaced(grants: seq<Grant>) {
    forall k :: 0 < k < |grants| ==> grants[k].at - grants[k - 1].at >= COOLDOWN
  }

  predicate Inv(s: System) {
    && Spaced(s.grants)
    && (s.grants == [] <==> s.last == 0)
    && (s.grants != [] ==> s.last == s.grants[|s.grants| - 1].at)
    && (forall k :: 0 <= k < |s.grants| ==> s.grants[k].at > 0 && 0 <= s.grants[k].delay <= MAX_DELAY)
    && (forall i :: 0 <= i < |s.writes| ==> s.writes[i].now > 0 && 0 <= s.writes[i].delay <= MAX_DELAY)
  }

  lemma SpacedGrows(grants: seq<Grant>, g: Grant)
    requires Spaced(grants) && (grants != [] ==> g.at - grants[|grants| - 1].at >= COOLDOWN)
    ensures Spaced(grants + [g])
  {
  }

  lemma LoadKeepsInv(s: System, now: int, delay: int)
    requires Inv(s)
    ensures Inv(Next(s, Load(now, delay)))
  {
    var t := Next(s, Load(now, delay));
    assert forall i :: 0 <= i < |s.writes| ==> t.writes[i] == s.writes[i];
  }

  /** The write grants: it saw the last time stamp, a cool-down ago. */
  lemma GrantKeepsInv(s: System, i: nat)
    requires Inv(s) && i < |s.writes| && s.writes[i].pending
    requires !TooSoon(s.writes[i].now, s.writes[i].seen) && s.last == s.writes[i].seen
    ensures Inv(Next(s, Swap(i)))
  {
    var w := s.writes[i];
    var g := Grant(w.now, w.delay);
    SpacedGrows(s.grants, g);
    assert forall k :: 0 <= k < |s.grants| ==> (s.grants + [g])[k] == s.grants[k];
  }

  lemma StepKeepsInv(s: System, e: Event)
    requires Inv(s)
    ensures Inv(Next(s, e))
  {
    match e
    case Load(now, delay) => LoadKeepsInv(s, now, delay);
    case Swap(i) =>
      if i < |s.writes| && s.writes[i].pending {
        var w := s.writes[i];
        if !TooSoon(w.now, w.seen) && s.last == w.seen {
          GrantKeepsInv(s, i);
        }
      }
  }

  /** In every interleaving of loads and swaps by any number of writes, the delays granted on a flow
      carry time stamps at least 5 ms apart. */
  lemma {:induction false} RunsAreSpaced(run: seq<Event>)
    ensures var g := After(run).grants; forall k :: 0 < k < |g| ==> g[k].at - g[k - 1].at >= 5_000_000
    ensures Inv(After(run))
  {
    if run != [] {
      RunsAreSpaced(run[..|run| - 1]);
      StepKeepsInv(After(run[..|run| - 1]), run[|run| - 1]);
    }
  }

  /** On every run a write that loads and then swaps with nothing in between is granted its delay
      exactly if the last grant is 5 ms past, or there was none. */
  lemma GrantedIff(run: seq<Event>, now: int, delay: int)
    requires now > 0 && 0 <= delay <= 750_000
    ensures var s := After(run);
            var t := Next(Next(s, Load(now, delay)), Swap(|s.writes|));
            t.grants == if s.grants == [] || now - s.grants[|s.grants| - 1].at >= 5_000_000
                        then s.grants + [Grant(now, delay)] else s.grants
  {
    RunsAreSpaced(run);
  }

  // ---- the delay over a window --------------------------------------------------------------------------

  /** The delay granted with time stamps from `from` to `to`. */
  function DelayWithin(grants: seq<Grant>, from: int, to: int): int {
    if grants == [] then 0
    else
      var g := grants[|grants| - 1];
      DelayWithin(grants[..|grants| - 1], from, to) + if from <= g.at <= to then g.delay else 0
  }

  lemma {:induction false} NothingAfterLast(grants: seq<Grant>, from: int, to: int, last: int)
    requires forall k :: 0 <= k < |grants| ==> grants[k].at <= last
    requires last <= to
    ensures DelayWithin(grants, from, to) == DelayWithin(grants, from, last)
  {
    if grants != [] {
      NothingAfterLast(grants[..|grants| - 1], from, to, last);
    }
  }

  lemma {:induction false} SpacedIsSorted(grants: seq<Grant>)
    requires Spaced(grants)
    ensures forall k :: 0 <= k < |grants| - 1 ==> grants[k].at <= grants[|grants| - 1].at - COOLDOWN
  {
    if |grants| > 1 {
      var front := grants[..|grants| - 1];
      assert forall k :: 0 <= k < |front| ==> front[k] == grants[k];
      SpacedIsSorted(front);
    }
  }

  lemma {:induction false} WindowBound(grants: seq<Grant>, from: int, to: int)
    requires Spaced(grants) && from <= to
    requires forall k :: 0 <= k < |grants| ==> 0 <= grants[k].delay <= MAX_DELAY
    ensures DelayWithin(grants, from, to) <= MAX_DELAY * ((to - from) / COOLDOWN + 1)
  {
    if grants != [] {
      var n := |grants| - 1;
      var front, g := grants[..n], grants[n];
      assert forall k :: 0 <= k < |front| ==> front[k] == grants[k];
      if from <= g.at <= to {
        SpacedIsSorted(grants);
        var before := g.at - COOLDOWN;
        NothingAfterLast(front, from, to, before);
        if before < from {
          NothingBefore(front, from, before);
        } else {
          WindowBound(front, from, before);
        }
      } else {
        WindowBound(front, from, to);
      }
    }
  }

  lemma {:induction false} NothingBefore(grants: seq<Grant>, from: int, to: int)
    requires to < from
    ensures DelayWithin(grants, from, to) == 0
  {
    if grants != [] {
      NothingBefore(grants[..|grants| - 1], from, to);
    }
  }

  /** Over any window the delay granted to a flow is at most 750 microseconds for each 5 ms of the
      window, and once more. */
  lemma DelayIsBounded(run: seq<Event>, from: int, to: int)
    requires from <= to
    ensures DelayWithin(After(run).grants, from, to) <= 750_000 * ((to - from) / 5_000_000 + 1)
  {
    RunsAreSpaced(run);
    WindowBound(After(run).grants, from, to);
  }
}
