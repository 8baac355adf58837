/** The waiting loop of one request, while any other requests act between its critical sections. */
module AdmissionLoop {
  import opened Admission
  import opened AdmissionProtocol

  function RunFrom(s: System, run: seq<Event>): System {
    if run == [] then s else Next(RunFrom(s, run[..|run| - 1]), run[|run| - 1])
  }

  /** The event is a step of request `i`. */
  predicate Concerns(e: Event, i: nat) {
    !e.Arrive? && e.i == i
  }

  predicate ByOthers(run: seq<Event>, i: nat) {
    forall k :: 0 <= k < |run| ==> !Concerns(run[k], i)
  }

  /** Others' steps leave a request where it stands. */
  lemma {:induction false} OthersLeaveAlone(s: System, run: seq<Event>, i: nat)
    requires i < |s.callers| && ByOthers(run, i)
    ensures i < |RunFrom(s, run).callers| && RunFrom(s, run).callers[i] == s.callers[i]
  {
    if run != [] {
      OthersLeaveAlone(s, run[..|run| - 1], i);
    }
  }

  lemma {:induction false} RunFromAppend(s: System, a: seq<Event>, b: seq<Event>)
    ensures RunFrom(s, a + b) == RunFrom(RunFrom(s, a), b)
  {
    if b == [] {
      assert a + b == a;
    } else {
      var n := |b| - 1;
      RunFromAppend(s, a, b[..n]);
      assert (a + b)[..|a + b| - 1] == a + b[..n];
    }
  }

  /** Continuing a run from the empty registry is such a run again, so what holds of all runs holds
      of every state a waiting loop passes through. */
  lemma {:induction false} ContinuesRun(run: seq<Event>, more: seq<Event>)
    ensures RunFrom(After(run), more) == After(run + more)
  {
    if more == [] {
      assert run + more == run;
    } else {
      var n := |more| - 1;
      ContinuesRun(run, more[..n]);
      assert (run + more)[..|run + more| - 1] == run + more[..n];
    }
  }

  /** How often the ticker has woken request `i`. */
  function Ticks(run: seq<Event>, i: nat): nat {
    if run == [] then 0 else Ticks(run[..|run| - 1], i) + if run[|run| - 1] == Tick(i) then 1 else 0
  }

  lemma {:induction false} TicksAppend(a: seq<Event>, b: seq<Event>, i: nat)
    ensures Ticks(a + b, i) == Ticks(a, i) + Ticks(b, i)
  {
    if b == [] {
      assert a + b == a;
    } else {
      var n := |b| - 1;
      TicksAppend(a, b[..n], i);
      assert (a + b)[..|a + b| - 1] == a + b[..n];
    }
  }

  lemma {:induction false} NoTicksByOthers(run: seq<Event>, i: nat)
    requires ByOthers(run, i)
    ensures Ticks(run, i) == 0
  {
    if run != [] {
      NoTicksByOthers(run[..|run| - 1], i);
    }
  }

  datatype Outcome = Admitted | QueueFull | GaveUp

  /** The registry is that of the state `s`, the trace led there, and request `i` stands at `phase`. */
  ghost predicate Stands(r: Registry, s: System, start: System, trace: seq<Event>, i: nat, phase: Phase) {
    && s.reg == r && s == RunFrom(start, trace)
    && i < |s.callers| && i < |start.callers| && s.callers[i] == Caller(start.callers[i].req, phase)
  }

  lemma OneMore(start: System, trace: seq<Event>, e: Event)
    ensures RunFrom(start, trace + [e]) == Next(RunFrom(start, trace), e)
    ensures forall i :: Ticks(trace + [e], i) == Ticks(trace, i) + if e == Tick(i) then 1 else 0
  {
    assert (trace + [e])[..|trace|] == trace;
  }

  /** The registry as request `i` uses it: before each of its critical sections the other requests
      carry out a batch of their own, whichever they like. */
  class Shared {
    const reg: StreamAdmissionRegistry
    const i: nat
    const others: nat -> seq<Event>
    var turn: nat

    ghost predicate Valid() {
      forall n :: ByOthers(others(n), i)
    }

    constructor (reg: StreamAdmissionRegistry, i: nat, others: nat -> seq<Event>)
      requires forall n :: ByOthers(others(n), i)
      ensures Valid() && this.reg == reg && this.i == i
    {
      this.reg, this.i, this.others, turn := reg, i, others, 0;
    }

    method OthersAct(s: System, ghost start: System, ghost trace: seq<Event>, ghost phase: Phase)
      returns (t: System, ghost longer: seq<Event>)
      requires Valid() && Stands(reg.View(), s, start, trace, i, phase)
      modifies this, reg
      ensures Stands(reg.View(), t, start, longer, i, phase) && Ticks(longer, i) == Ticks(trace, i)
    {
      var run := others(turn);
      TicksAppend(trace, run, i);
      NoTicksByOthers(run, i);
      t, turn := RunFrom(s, run), turn + 1;
      longer := trace + run;
      OthersLeaveAlone(s, run, i);
      RunFromAppend(start, trace, run);
      reg.active, reg.activeStreams := t.reg.active, t.reg.streams;
      reg.waiters, reg.uniqueWaiters := t.reg.waiters, t.reg.uniqueWaiters;
    }

    method AskGrant(s: System, ghost start: System, ghost trace: seq<Event>, queued: bool, unique: bool)
      returns (ok: bool, uniqueBlocked: bool, t: System, ghost longer: seq<Event>)
      requires Valid() && Stands(reg.View(), s, start, trace, i, Trying(queued, unique))
      modifies this, reg
      ensures Stands(reg.View(), t, start, longer, i,
                     if ok then (if queued then Leaving(unique) else Streaming)
                     else if queued then Waiting(unique) else Refused(uniqueBlocked))
      ensures Ticks(longer, i) == Ticks(trace, i)
    {
      t, longer := OthersAct(s, start, trace, Trying(queued, unique));
      OneMore(start, longer, Proceed(i));
      var req := t.callers[i].req;
      ok, uniqueBlocked := reg.TryAcquire(req.limits, req.key, req.torrentID);
      t, longer := Next(t, Proceed(i)), longer + [Proceed(i)];
    }

    method AskSlot(s: System, ghost start: System, ghost trace: seq<Event>, uniqueBlocked: bool)
      returns (ok: bool, t: System, ghost longer: seq<Event>)
      requires Valid() && Stands(reg.View(), s, start, trace, i, Refused(uniqueBlocked))
      modifies this, reg
      ensures Stands(reg.View(), t, start, longer, i, if ok then Waiting(uniqueBlocked) else Finished)
      ensures Ticks(longer, i) == Ticks(trace, i)
    {
      t, longer := OthersAct(s, start, trace, Refused(uniqueBlocked));
      OneMore(start, longer, Proceed(i));
      var req := t.callers[i].req;
      ok := reg.TryAcquireQueueSlot(req.limits.queueSize, uniqueBlocked, req.debug);
      t, longer := Next(t, Proceed(i)), longer + [Proceed(i)];
    }

    method ReturnSlot(s: System, ghost start: System, ghost trace: seq<Event>, unique: bool, granted: bool)
      returns (t: System, ghost longer: seq<Event>)
      requires Valid()
      requires Stands(reg.View(), s, start, trace, i, if granted then Leaving(unique) else Waiting(unique))
      modifies this, reg
      ensures Stands(reg.View(), t, start, longer, i, if granted then Streaming else Finished)
      ensures Ticks(longer, i) == Ticks(trace, i)
    {
      t, longer := OthersAct(s, start, trace, if granted then Leaving(unique) else Waiting(unique));
      var e := if granted then Proceed(i) else GiveUp(i);
      OneMore(start, longer, e);
      reg.ReleaseQueueSlot(unique, t.callers[i].req.debug);
      t, longer := Next(t, e), longer + [e];
    }
  }

  /** The loop with its two flags, woken `ticks` times by the ticker and then by a cancellation or the
      time-out. It walks the phases of its request; it takes at most one slot and gives back every slot
      it took; it gives up only after the last tick, and is turned away only before the first; and it
      ends streaming exactly when it reports success. */
  method TryAcquireStream(shared: Shared, s: System, ticks: nat)
    returns (outcome: Outcome, end: System, ghost trace: seq<Event>, ghost taken: nat, ghost returned: nat)
    requires shared.Valid() && Stands(shared.reg.View(), s, s, [], shared.i, Trying(false, false))
    modifies shared, shared.reg
    ensures Stands(shared.reg.View(), end, s, trace, shared.i, if outcome == Admitted then Streaming else Finished)
    ensures taken == returned <= 1 && (outcome == GaveUp ==> taken == 1) && (outcome == QueueFull ==> taken == 0)
    ensures Ticks(trace, shared.i) <= ticks && (outcome == GaveUp ==> Ticks(trace, shared.i) == ticks)
    ensures outcome == QueueFull ==> Ticks(trace, shared.i) == 0
  {
    var queued, queuedUnique := false, false;
    var left := ticks;
    end, trace, taken, returned := s, [], 0, 0;
    while true
      invariant Stands(shared.reg.View(), end, s, trace, shared.i, Trying(queued, queuedUnique))
      invariant taken == (if queued then 1 else 0) && returned == 0
      invariant Ticks(trace, shared.i) + left == ticks && (!queued ==> left == ticks)
      decreases left
    {
      var ok, uniqueBlocked;
      ok, uniqueBlocked, end, trace := shared.AskGrant(end, s, trace, queued, queuedUnique);
      if ok {
        if queued {
          end, trace := shared.ReturnSlot(end, s, trace, queuedUnique, true);
          returned := returned + 1;
        }
        outcome := Admitted;
        return;
      }
      if !queued {
        var slot;
        slot, end, trace := shared.AskSlot(end, s, trace, uniqueBlocked);
        if !slot {
          outcome := QueueFull;
          return;
        }
        queued, queuedUnique, taken := true, uniqueBlocked, taken + 1;
      }
      if left == 0 {
        end, trace := shared.ReturnSlot(end, s, trace, queuedUnique, false);
        outcome, returned := GaveUp, returned + 1;
        return;
      }
      left := left - 1;
      OneMore(s, trace, Tick(shared.i));
      end, trace := Next(end, Tick(shared.i)), trace + [Tick(shared.i)];
    }
  }
}
