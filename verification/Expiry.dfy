/** The deadline of a torrent, moved by compare-and-swap loops of any number of goroutines. */
module Expiry {
  import opened Admission

  /** Extend asks for a deadline no earlier than `until`; Shorten for one after `now` and no later than
      `until`. */
  datatype Op = Extend(until: int) | Shorten(now: int, until: int)

  /** The deadline is already as the operation wants it. */
  predicate Satisfied(op: Op, deadline: int) {
    match op
    case Extend(until) => deadline >= until
    case Shorten(now, until) => now < deadline <= until
  }

  /** The operation in one piece. */
  function Atomic(op: Op, deadline: int): int {
    if Satisfied(op, deadline) then deadline else op.until
  }

  /** A loop by its number, with the operation it has finished. */
  datatype Ended = Ended(loop: nat, op: Op)

  function AllAtomic(ended: seq<Ended>, deadline: int): int {
    if ended == [] then deadline else Atomic(ended[|ended| - 1].op, AllAtomic(ended[..|ended| - 1], deadline))
  }

  // ---- the loops, alone ---------------------------------------------------------------------------

  class Lifecycle {
    var deadline: int

    constructor ()
      ensures deadline == 0
    {
      deadline := 0;
    }

    method CompareAndSwap(expected: int, value: int) returns (ok: bool)
      modifies this
      ensures ok == (old(deadline) == expected)
      ensures deadline == if ok then value else old(deadline)
    {
      ok := deadline == expected;
      if ok {
        deadline := value;
      }
    }

    method AddExpiredTime(now: int, duration: int)
      modifies this
      ensures deadline == Atomic(Extend(now + duration), old(deadline))
      ensures deadline >= now + duration && deadline >= old(deadline)
      ensures deadline == now + duration || deadline == old(deadline)
    {
      var newExp := now + duration;
      var done := false;
      while !done
        invariant deadline == if done then Atomic(Extend(newExp), old(deadline)) else old(deadline)
        decreases if done then 0 else 1
      {
        var cur := deadline;
        if cur >= newExp {
          return;
        }
        done := CompareAndSwap(cur, newExp);
      }
    }

    method ShortenExpiredTime(now: int, duration: int)
      modifies this
      ensures deadline == Atomic(Shorten(now, now + duration), old(deadline))
      ensures deadline == old(deadline) || !(now < old(deadline) <= now + duration)
      ensures now < old(deadline) <= now + duration || deadline == now + duration
    {
      var newExp := now + duration;
      var done := false;
      while !done
        invariant deadline == if done then Atomic(Shorten(now, newExp), old(deadline)) else old(deadline)
        decreases if done then 0 else 1
      {
        var cur := deadline;
        if cur > now && cur <= newExp {
          return;
        }
        done := CompareAndSwap(cur, newExp);
      }
    }
  }

  // ---- the loops, interleaved -----------------------------------------------------------------------

  datatype Phase = Loading | Swapping(seen: int) | Done

  datatype Loop = Loop(op: Op, phase: Phase)

  /** The deadline, the loops that have begun, and those that have ended, in that order. */
  datatype System = System(deadline: int, loops: seq<Loop>, ended: seq<Ended>)

  datatype Event = Begin(op: Op) | Load(i: nat) | Swap(i: nat)

  function Retry(s: System, i: nat, phase: Phase): System
    requires i < |s.loops|
  {
    s.(loops := s.loops[i := s.loops[i].(phase := phase)])
  }

  function Finish(s: System, i: nat, deadline: int): System
    requires i < |s.loops|
  {
    Retry(s, i, Done).(deadline := deadline, ended := s.ended + [Ended(i, s.loops[i].op)])
  }

  function Next(s: System, e: Event): System {
    match e
    case Begin(op) => s.(loops := s.loops + [Loop(op, Loading)])
    case Load(i) =>
      if i >= |s.loops| || !s.loops[i].phase.Loading? then s
      else if Satisfied(s.loops[i].op, s.deadline) then Finish(s, i, s.deadline)
      else Retry(s, i, Swapping(s.deadline))
    case Swap(i) =>
      if i >= |s.loops| || !s.loops[i].phase.Swapping? then s
      else if s.loops[i].phase.seen == s.deadline then Finish(s, i, s.loops[i].op.until)
      else Retry(s, i, Loading)
  }

  function After(run: seq<Event>): System {
    if run == [] then System(0, [], []) else Next(After(run[..|run| - 1]), run[|run| - 1])
  }

  /** The ended loops are the loops that are done, each once. */
  ghost predicate EachOnce(s: System) {
    && (forall k :: 0 <= k < |s.ended| ==>
          s.ended[k].loop < |s.loops| && s.loops[s.ended[k].loop] == Loop(s.ended[k].op, Done))
    && (forall j, k :: 0 <= j < k < |s.ended| ==> s.ended[j].loop != s.ended[k].loop)
    && (forall i :: 0 <= i < |s.loops| && s.loops[i].phase.Done? ==> Ended(i, s.loops[i].op) in s.ended)
  }

  /** A loop that is about to swap has seen a deadline it does not want. */
  predicate Sound(l: Loop) {
    l.phase.Swapping? ==> !Satisfied(l.op, l.phase.seen)
  }

  ghost predicate Inv(s: System) {
    && s.deadline == AllAtomic(s.ended, 0)
    && EachOnce(s)
    && (forall i :: 0 <= i < |s.loops| ==> Sound(s.loops[i]))
  }

  lemma FinishKeepsEachOnce(s: System, i: nat, deadline: int)
    requires EachOnce(s) && i < |s.loops| && !s.loops[i].phase.Done?
    ensures EachOnce(Finish(s, i, deadline))
  {
    var t, n := Finish(s, i, deadline), |s.ended|;
    assert t.ended[n] == Ended(i, s.loops[i].op);
    forall k | 0 <= k < |t.ended|
      ensures t.ended[k].loop < |t.loops| && t.loops[t.ended[k].loop] == Loop(t.ended[k].op, Done)
      ensures k < n ==> t.ended[k].loop != i
    {
      if k < n {
        assert t.ended[k] == s.ended[k];
      }
    }
    forall j | 0 <= j < |t.loops| && t.loops[j].phase.Done? ensures Ended(j, t.loops[j].op) in t.ended {
      if j != i {
        assert t.loops[j] == s.loops[j];
        assert Ended(j, s.loops[j].op) in s.ended;
      }
    }
  }

  lemma FinishKeepsInv(s: System, i: nat)
    requires Inv(s) && i < |s.loops| && !s.loops[i].phase.Done?
    ensures Inv(Finish(s, i, Atomic(s.loops[i].op, s.deadline)))
  {
    var op := s.loops[i].op;
    var t := Finish(s, i, Atomic(op, s.deadline));
    FinishKeepsEachOnce(s, i, t.deadline);
    assert t.ended[..|t.ended| - 1] == s.ended;
  }

  lemma RetryKeepsInv(s: System, i: nat, phase: Phase)
    requires Inv(s) && i < |s.loops| && !s.loops[i].phase.Done?
    requires phase != Done && Sound(s.loops[i].(phase := phase))
    ensures Inv(Retry(s, i, phase))
  {
  }

  lemma BeginKeepsInv(s: System, op: Op)
    requires Inv(s)
    ensures Inv(Next(s, Begin(op)))
  {
  }

  lemma StepKeepsInv(s: System, e: Event)
    requires Inv(s)
    ensures Inv(Next(s, e))
  {
    match e
    case Begin(op) => BeginKeepsInv(s, op);
    case Load(i) =>
      if i < |s.loops| && s.loops[i].phase.Loading? {
        if Satisfied(s.loops[i].op, s.deadline) {
          FinishKeepsInv(s, i);
        } else {
          RetryKeepsInv(s, i, Swapping(s.deadline));
        }
      }
    case Swap(i) =>
      if i < |s.loops| && s.loops[i].phase.Swapping? {
        assert Sound(s.loops[i]);
        if s.loops[i].phase.seen == s.deadline {
          FinishKeepsInv(s, i);
        } else {
          RetryKeepsInv(s, i, Loading);
        }
      }
  }

  /** Every interleaving of the loops is equivalent to their operations in one piece: the deadline is
      what the ended loops' operations give one after the other, each exactly once, in the order in
      which the loops ended. */
  lemma {:induction false} RunsLinearize(run: seq<Event>)
    ensures After(run).deadline == AllAtomic(After(run).ended, 0) && EachOnce(After(run))
    ensures Inv(After(run))
  {
    if run != [] {
      RunsLinearize(run[..|run| - 1]);
      StepKeepsInv(After(run[..|run| - 1]), run[|run| - 1]);
    }
  }

  /** Operations that only extend leave the latest of the deadlines they ask for. */
  lemma {:induction false} ExtensionsTakeMaximum(ended: seq<Ended>, deadline: int)
    requires forall k :: 0 <= k < |ended| ==> ended[k].op.Extend?
    ensures var r := AllAtomic(ended, deadline);
            && r >= deadline
            && (forall k :: 0 <= k < |ended| ==> r >= ended[k].op.until)
            && (r == deadline || exists k :: 0 <= k < |ended| && r == ended[k].op.until)
  {
    if ended != [] {
      var n := |ended| - 1;
      var front := ended[..n];
      ExtensionsTakeMaximum(front, deadline);
      assert forall k :: 0 <= k < n ==> front[k] == ended[k];
      var f := AllAtomic(front, deadline);
      if f != deadline {
        var k :| 0 <= k < |front| && f == front[k].op.until;
        assert ended[k].op.until == f;
      }
    }
  }

  /** What an extension asked for stands until a shortening ends. */
  lemma {:induction false} ExtensionStands(ended: seq<Ended>, deadline: int, k: nat)
    requires k < |ended| && forall j :: k <= j < |ended| ==> ended[j].op.Extend?
    ensures AllAtomic(ended, deadline) >= ended[k].op.until
  {
    if k < |ended| - 1 {
      ExtensionStands(ended[..|ended| - 1], deadline, k);
    }
  }

  /** A torrent is not reported expired before a time that an ended extension asked for, as long as
      no shortening has ended since. */
  lemma ExtendedNeverExpiresEarly(run: seq<Event>, k: nat, readers: int, active: bool, now: int, st: TorrentStat)
    requires k < |After(run).ended| && now <= After(run).ended[k].op.until
    requires forall j :: k <= j < |After(run).ended| ==> After(run).ended[j].op.Extend?
    ensures !ShouldExpire(readers, active, After(run).deadline, now, st)
  {
    RunsLinearize(run);
    ExtensionStands(After(run).ended, 0, k);
  }

  /** A deadline changes, when an operation ends, exactly if an extension asked for a later one, or a
      shortening found it passed or too far ahead; and then to what was asked for. */
  lemma AtomicIs(op: Op, deadline: int)
    ensures op.Extend? ==> Atomic(op, deadline) == if deadline < op.until then op.until else deadline
    ensures op.Shorten? ==>
              Atomic(op, deadline) == if deadline <= op.now || op.until < deadline then op.until else deadline
  {
  }

  /** Right after a shortening with a positive duration the deadline lies ahead and within it, even if
      it had passed before. */
  lemma ShortenedIsNear(run: seq<Event>)
    requires var d := After(run).ended; d != [] && d[|d| - 1].op.Shorten? && d[|d| - 1].op.now < d[|d| - 1].op.until
    ensures var d := After(run).ended; d[|d| - 1].op.now < After(run).deadline <= d[|d| - 1].op.until
  {
    RunsLinearize(run);
  }
}
