/** The circuit breaker with its atomics as they are: every load and store of every call is a step of
    its own, and a call may vanish without a report. */
module BreakerSteps {
  import opened Breaker

  /** Where a call stands, named by the access it makes next:
      Arrived        loads the state
      SawOpen        compares the clock with the open time
      Opening        stores HalfOpen
      Zeroing        stores 0 half-open calls, then runs
      SawHalfOpen    compares the half-open calls
      Entering       adds a half-open call, then runs
      Inside         runs, and will report
      Succeeding     has stored 0 failures, loads the state
      Tallying       adds a success
      Comparing      compares the successes
      Closing        stores Closed, then resets
      ResettingTally, ResettingPlaces   store 0 successes and 0 half-open calls after closing
      Failing        has added a failure, loads the state
      Reopening      stores Open over HalfOpen
      Stamping       stores the open time, then wipes
      WipingTally, WipingPlaces         store 0 successes and 0 half-open calls after reopening
      Judging        has seen Closed, compares the failures
      Tripping       stores Open over Closed
      TripStamping   stores the open time
      Turned         was refused
      Heard          has reported as a success of a half-open breaker
      Unheard        has reported otherwise
      Lost           never reports */
  datatype Phase =
    | Arrived | SawOpen | Opening | Zeroing | SawHalfOpen | Entering | Inside
    | Succeeding | Tallying | Comparing | Closing
    | ResettingTally | ResettingPlaces
    | Failing | Reopening | Stamping | WipingTally | WipingPlaces
    | Judging | Tripping | TripStamping
    | Turned | Heard | Unheard | Lost

  /** The fields; the calls; and, kept for the proof, the calls whose half-open place or success is in
      the present counts, and how many calls were admitted since the breaker last became half-open. */
  datatype Machine = Machine(b: Fields, calls: seq<Phase>, placed: set<nat>, tallied: set<nat>, episode: nat)

  const START := Machine(NEW, [], {}, {}, 0)

  datatype Event = Begin | Step(i: nat, now: int) | Report(i: nat, ok: bool) | Abandon(i: nat)

  /** The next access of a call at `p` to the fields, and where the call stands then. */
  function Access(c: Config, b: Fields, p: Phase, now: int): (Fields, Phase) {
    match p
    case Arrived => (b, match b.state case Closed => Inside case Open => SawOpen case HalfOpen => SawHalfOpen)
    case SawOpen => (b, if c.timeout <= 0 || now - b.openTime >= c.timeout then Opening else Turned)
    case Opening => (b.(state := HalfOpen), Zeroing)
    case Zeroing => (b.(halfOpenCalls := 0), Inside)
    case SawHalfOpen => (b, if b.halfOpenCalls >= c.halfOpenMaxCalls then Turned else Entering)
    case Entering => (b.(halfOpenCalls := b.halfOpenCalls + 1), Inside)
    case Succeeding => (b, if b.state == HalfOpen then Tallying else Unheard)
    case Tallying => (b.(successes := b.successes + 1), Comparing)
    case Comparing => (b, if b.successes >= c.successThreshold then Closing else Heard)
    case Closing => (b.(state := Closed), ResettingTally)
    case Failing => (b, match b.state case HalfOpen => Reopening case Closed => Judging case Open => Unheard)
    case Reopening => (b.(state := Open), Stamping)
    case Stamping => (b.(openTime := now), WipingTally)
    case ResettingTally => (b.(successes := 0), ResettingPlaces)
    case ResettingPlaces => (b.(halfOpenCalls := 0), Heard)
    case WipingTally => (b.(successes := 0), WipingPlaces)
    case WipingPlaces => (b.(halfOpenCalls := 0), Unheard)
    case Judging => (b, if ReadyToTrip(b.failures) then Tripping else Unheard)
    case Tripping => (b.(state := Open), TripStamping)
    case TripStamping => (b.(openTime := now), Unheard)
    case _ => (b, p)
  }

  /** The access stores 0 successes. */
  predicate Wipes(p: Phase) {
    p.ResettingTally? || p.WipingTally?
  }

  /** The access stores 0 half-open calls, at the end of a report. */
  predicate Clears(p: Phase) {
    p.ResettingPlaces? || p.WipingPlaces?
  }

  predicate Ended(p: Phase) {
    p.Heard? || p.Unheard?
  }

  /** Where a report is after it has wiped and cleared. */
  function AfterWipe(p: Phase): Phase {
    if p.ResettingTally? then Heard else Unheard
  }

  function Placed(p: Phase, placed: set<nat>, i: nat): set<nat> {
    if p.Zeroing? || Clears(p) then {} else if p.Entering? then placed + {i} else placed
  }

  function Tallied(p: Phase, tallied: set<nat>, i: nat): set<nat> {
    if Wipes(p) then {} else if p.Tallying? then tallied + {i} else tallied
  }

  function Episode(p: Phase, state: State, episode: nat): nat {
    if p.Opening? && state != HalfOpen then 1
    else if p.Opening? || p.Entering? then episode + 1
    else episode
  }

  function StepOf(c: Config, s: Machine, i: nat, now: int): Machine
    requires i < |s.calls|
  {
    var p := s.calls[i];
    var (b, q) := Access(c, s.b, p, now);
    Machine(b, s.calls[i := q], Placed(p, s.placed, i), Tallied(p, s.tallied, i), Episode(p, s.b.state, s.episode))
  }

  function At(s: Machine, i: nat, phase: Phase): Machine
    requires i < |s.calls|
  {
    s.(calls := s.calls[i := phase])
  }

  function Next(c: Config, s: Machine, e: Event): Machine {
    match e
    case Begin => s.(calls := s.calls + [Arrived])
    case Step(i, now) => if i < |s.calls| then StepOf(c, s, i, now) else s
    case Report(i, ok) =>
      if i >= |s.calls| || s.calls[i] != Inside then s
      else if ok then At(s, i, Succeeding).(b := s.b.(failures := 0))
      else At(s, i, Failing).(b := s.b.(failures := s.b.failures + 1))
    case Abandon(i) => if i < |s.calls| && s.calls[i] == Inside then At(s, i, Lost) else s
  }

  function After(c: Config, s: Machine, run: seq<Event>): Machine
    decreases |run|
  {
    if run == [] then s else After(c, Next(c, s, run[0]), run[1..])
  }

  // ---- steps that nothing interrupts -------------------------------------------------------------------

  /** `n` accesses of a call, one after the other. */
  function Accesses(c: Config, b: Fields, p: Phase, now: int, n: nat): (Fields, Phase)
    decreases n
  {
    if n == 0 then (b, p)
    else
      var (b', q) := Access(c, b, p, now);
      Accesses(c, b', q, now, n - 1)
  }

  /** The accesses of an Allow that nothing interrupts make the atomic one. */
  lemma AllowAlone(c: Config, b: Fields, now: int)
    ensures Accesses(c, b, Arrived, now, 4) ==
            (AllowStep(c, b, now).0, if AllowStep(c, b, now).1 then Inside else Turned)
  {
    var (b1, p1) := Access(c, b, Arrived, now);
    var (b2, p2) := Access(c, b1, p1, now);
    var (b3, p3) := Access(c, b2, p2, now);
    assert Accesses(c, b, Arrived, now, 4) == Accesses(c, b1, p1, now, 3) == Accesses(c, b2, p2, now, 2)
           == Accesses(c, b3, p3, now, 1) == Access(c, b3, p3, now);
  }

  lemma SuccessAlone(c: Config, b: Fields, now: int)
    ensures var (r, p) := Accesses(c, b.(failures := 0), Succeeding, now, 6);
            r == SuccessStep(c, b) && Ended(p)
  {
    SixAccesses(c, b.(failures := 0), Succeeding, now);
  }

  lemma FailureAlone(c: Config, b: Fields, now: int)
    ensures var (r, p) := Accesses(c, b.(failures := b.failures + 1), Failing, now, 6);
            r == FailureStep(b, now) && Ended(p)
  {
    SixAccesses(c, b.(failures := b.failures + 1), Failing, now);
  }

  lemma SixAccesses(c: Config, b: Fields, p: Phase, now: int)
    ensures var (b1, p1) := Access(c, b, p, now);
            var (b2, p2) := Access(c, b1, p1, now);
            var (b3, p3) := Access(c, b2, p2, now);
            var (b4, p4) := Access(c, b3, p3, now);
            var (b5, p5) := Access(c, b4, p4, now);
            Accesses(c, b, p, now, 6) == Access(c, b5, p5, now)
  {
    var (b1, p1) := Access(c, b, p, now);
    var (b2, p2) := Access(c, b1, p1, now);
    var (b3, p3) := Access(c, b2, p2, now);
    var (b4, p4) := Access(c, b3, p3, now);
    var (b5, p5) := Access(c, b4, p4, now);
    assert Accesses(c, b, p, now, 6) == Accesses(c, b1, p1, now, 5) == Accesses(c, b2, p2, now, 4);
    assert Accesses(c, b2, p2, now, 4) == Accesses(c, b3, p3, now, 3) == Accesses(c, b4, p4, now, 2);
    assert Accesses(c, b4, p4, now, 2) == Accesses(c, b5, p5, now, 1) == Access(c, b5, p5, now);
  }

  // ---- what every interleaving keeps -------------------------------------------------------------------

  /** The call will store 0 half-open calls before it is over, and has stored a state. */
  predicate WillZero(p: Phase) {
    p.Zeroing? || p.Stamping? || Wipes(p) || Clears(p)
  }

  predicate ZeroDue(s: Machine) {
    exists i :: 0 <= i < |s.calls| && WillZero(s.calls[i])
  }

  predicate Admitted(p: Phase) {
    !(p.Arrived? || p.SawOpen? || p.Opening? || p.Zeroing? || p.SawHalfOpen? || p.Entering? || p.Turned?)
  }

  predicate PastTally(p: Phase) {
    p.Comparing? || p.Closing? || p.Heard?
  }

  /** The call did not find the breaker half-open when it reported. */
  predicate Missed(p: Phase) {
    p.Judging? || p.Tripping? || p.TripStamping? || p.Unheard?
  }

  predicate WillCompare(p: Phase) {
    p.Comparing? || p.Closing? || Wipes(p)
  }

  predicate CompareDue(s: Machine) {
    exists i :: 0 <= i < |s.calls| && WillCompare(s.calls[i])
  }

  /** A running call that may yet take the breaker out of half-open. */
  predicate MayEnd(p: Phase) {
    || p.Zeroing? || p.Inside? || p.Succeeding? || p.Failing?
    || p.Tallying? || p.Comparing? || p.Closing? || p.Reopening?
  }

  predicate EndDue(s: Machine) {
    exists i :: 0 <= i < |s.calls| && MayEnd(s.calls[i])
  }

  /** What holds of a call at `p` that has a place, or a tally, while the state is `state`: a placed call
      that reported to a half-open breaker is tallied, unless the places are about to be taken back. */
  predicate Kept(p: Phase, placed: bool, tallied: bool, state: State, due: bool) {
    Fitting(p, placed, tallied) && Told(p, placed, tallied, state, due)
  }

  predicate Fitting(p: Phase, placed: bool, tallied: bool) {
    && (placed ==> Admitted(p))
    && (tallied ==> PastTally(p) || p.ResettingTally? || p.ResettingPlaces?)
  }

  predicate Told(p: Phase, placed: bool, tallied: bool, state: State, due: bool) {
    && (placed && Missed(p) ==> state != HalfOpen || due)
    && (placed && PastTally(p) ==> tallied || due)
  }

  predicate CallKept(s: Machine, i: nat)
    requires i < |s.calls|
  {
    Kept(s.calls[i], i in s.placed, i in s.tallied, s.b.state, ZeroDue(s))
  }

  predicate Counted(s: Machine) {
    && s.b.halfOpenCalls == |s.placed| && s.b.successes == |s.tallied|
    && (forall i :: i in s.placed + s.tallied ==> i < |s.calls|)
    && (forall i :: 0 <= i < |s.calls| ==> CallKept(s, i))
  }

  predicate NoneLost(s: Machine) {
    forall i :: 0 <= i < |s.calls| ==> s.calls[i] != Lost
  }

  predicate Inv(c: Config, s: Machine) {
    && Counted(s) && NoneLost(s)
    && (c.successThreshold >= 1 && s.b.successes >= c.successThreshold ==> CompareDue(s))
    && (c.successThreshold <= 0 && s.b.state == HalfOpen ==> EndDue(s))
  }

  /** A due zero stays due while another call moves, and falls due when a state has been stored over
      Open or HalfOpen. */
  lemma ZeroStaysDue(c: Config, s: Machine, i: nat, now: int)
    requires i < |s.calls|
    ensures var t, p := StepOf(c, s, i, now), s.calls[i];
            && (ZeroDue(s) && p != Zeroing && !Clears(p) ==> ZeroDue(t))
            && (p.Opening? || p.Reopening? || Wipes(p) || p.Closing? ==> ZeroDue(t))
  {
    var t := StepOf(c, s, i, now);
    assert t.calls[i] == Access(c, s.b, s.calls[i], now).1;
    if j :| 0 <= j < |s.calls| && WillZero(s.calls[j]) {
      assert j != i ==> WillZero(t.calls[j]);
    }
  }

  /** The access takes back all places. */
  predicate Zeroes(p: Phase) {
    p.Zeroing? || Clears(p)
  }

  /** Whether a zero is due before and after an access by a call at `p`. */
  predicate DueFollows(p: Phase, due: bool, later: bool) {
    && (due && !Zeroes(p) ==> later)
    && (p.Opening? || p.Reopening? || Wipes(p) || p.Closing? ==> later)
  }

  lemma OwnAdmitted(c: Config, b: Fields, p: Phase, now: int, placed: bool)
    requires placed ==> Admitted(p)
    ensures !Zeroes(p) && (placed || p.Entering?) ==> Admitted(Access(c, b, p, now).1)
  {
  }

  lemma OwnTallied(c: Config, b: Fields, p: Phase, now: int, tallied: bool)
    requires tallied ==> PastTally(p) || p.ResettingTally? || p.ResettingPlaces?
    ensures var q := Access(c, b, p, now).1;
            !Wipes(p) && (tallied || p.Tallying?) ==> PastTally(q) || q.ResettingTally? || q.ResettingPlaces?
  {
  }

  lemma OwnMissed(c: Config, b: Fields, p: Phase, now: int, placed: bool, due: bool, later: bool)
    requires (placed && Missed(p) ==> b.state != HalfOpen || due) && DueFollows(p, due, later)
    ensures var (b', q) := Access(c, b, p, now);
            !Zeroes(p) && (placed || p.Entering?) && Missed(q) ==> b'.state != HalfOpen || later
  {
  }

  lemma OwnPastTally(
    c: Config, b: Fields, p: Phase, now: int, placed: bool, tallied: bool, due: bool, later: bool)
    requires (placed && PastTally(p) ==> tallied || due) && DueFollows(p, due, later)
    ensures !Zeroes(p) && (placed || p.Entering?) && PastTally(Access(c, b, p, now).1) ==>
              (!Wipes(p) && (tallied || p.Tallying?)) || later
  {
  }

  lemma OwnAccess(c: Config, b: Fields, p: Phase, now: int, placed: bool, tallied: bool, due: bool, later: bool)
    requires Kept(p, placed, tallied, b.state, due) && DueFollows(p, due, later)
    ensures var (b', q) := Access(c, b, p, now);
            Kept(q, !Zeroes(p) && (placed || p.Entering?), !Wipes(p) && (tallied || p.Tallying?), b'.state, later)
  {
    OwnAdmitted(c, b, p, now, placed);
    OwnTallied(c, b, p, now, tallied);
    OwnMissed(c, b, p, now, placed, due, later);
    OwnPastTally(c, b, p, now, placed, tallied, due, later);
  }

  lemma OtherAccess(
    c: Config, b: Fields, m: Phase, now: int, p: Phase, placed: bool, tallied: bool, due: bool, later: bool)
    requires Kept(p, placed, tallied, b.state, due) && DueFollows(m, due, later)
    ensures Kept(p, placed && !Zeroes(m), tallied && !Wipes(m), Access(c, b, m, now).0.state, later)
  {
  }

  lemma CallsStayKept(c: Config, s: Machine, i: nat, now: int, j: nat)
    requires i < |s.calls| && j < |s.calls| && CallKept(s, j)
    ensures CallKept(StepOf(c, s, i, now), j)
  {
    var t, m := StepOf(c, s, i, now), s.calls[i];
    ZeroStaysDue(c, s, i, now);
    if j == i {
      OwnAccess(c, s.b, m, now, i in s.placed, i in s.tallied, ZeroDue(s), ZeroDue(t));
    } else {
      OtherAccess(c, s.b, m, now, s.calls[j], j in s.placed, j in s.tallied, ZeroDue(s), ZeroDue(t));
    }
  }

  /** The accesses that change the half-open calls, and those that change the successes. */
  lemma CountsFollow(c: Config, b: Fields, p: Phase, now: int)
    ensures var r := Access(c, b, p, now).0;
            && r.halfOpenCalls == (if Zeroes(p) then 0 else b.halfOpenCalls + if p.Entering? then 1 else 0)
            && r.successes == (if Wipes(p) then 0 else b.successes + if p.Tallying? then 1 else 0)
  {
  }

  lemma PlacesFollow(p: Phase, placed: set<nat>, i: nat)
    requires p.Entering? ==> i !in placed
    ensures |Placed(p, placed, i)| ==
            if Zeroes(p) then 0 else if p.Entering? then |placed| + 1 else |placed|
  {
  }

  lemma TalliesFollow(p: Phase, tallied: set<nat>, i: nat)
    requires p.Tallying? ==> i !in tallied
    ensures |Tallied(p, tallied, i)| ==
            if Wipes(p) then 0 else if p.Tallying? then |tallied| + 1 else |tallied|
  {
  }

  lemma StepKeepsSizes(c: Config, s: Machine, i: nat, now: int)
    requires i < |s.calls| && CallKept(s, i)
    requires s.b.halfOpenCalls == |s.placed| && s.b.successes == |s.tallied|
    ensures var t := StepOf(c, s, i, now); t.b.halfOpenCalls == |t.placed| && t.b.successes == |t.tallied|
  {
    var p := s.calls[i];
    assert Fitting(p, i in s.placed, i in s.tallied);
    CountsFollow(c, s.b, p, now);
    PlacesFollow(p, s.placed, i);
    TalliesFollow(p, s.tallied, i);
  }

  lemma StepKeepsRange(c: Config, s: Machine, i: nat, now: int)
    requires i < |s.calls| && forall j :: j in s.placed + s.tallied ==> j < |s.calls|
    ensures var t := StepOf(c, s, i, now); forall j :: j in t.placed + t.tallied ==> j < |t.calls|
  {
    var t := StepOf(c, s, i, now);
    forall j | j in t.placed + t.tallied ensures j < |t.calls| {
      if j != i {
        assert j in s.placed + s.tallied;
      }
    }
  }

  lemma StepKeepsCounts(c: Config, s: Machine, i: nat, now: int)
    requires Counted(s) && i < |s.calls|
    ensures Counted(StepOf(c, s, i, now))
  {
    var t := StepOf(c, s, i, now);
    assert CallKept(s, i);
    StepKeepsSizes(c, s, i, now);
    StepKeepsRange(c, s, i, now);
    forall j | 0 <= j < |t.calls| ensures CallKept(t, j) {
      CallsStayKept(c, s, i, now, j);
    }
  }

  lemma CompareFollows(c: Config, b: Fields, p: Phase, now: int)
    requires c.successThreshold >= 1
    ensures var (b', q) := Access(c, b, p, now);
            b'.successes >= c.successThreshold ==>
              WillCompare(q) || (b.successes >= c.successThreshold && !WillCompare(p))
  {
  }

  lemma EndFollows(c: Config, b: Fields, p: Phase, now: int)
    requires c.successThreshold <= 0 <= b.successes
    ensures var (b', q) := Access(c, b, p, now);
            b'.state == HalfOpen ==> MayEnd(q) || (b.state == HalfOpen && !MayEnd(p))
  {
  }

  lemma StaysCompareDue(s: Machine, i: nat, q: Phase)
    requires i < |s.calls| && (WillCompare(q) || (CompareDue(s) && !WillCompare(s.calls[i])))
    ensures CompareDue(At(s, i, q))
  {
    var t := At(s, i, q);
    if WillCompare(q) {
      assert WillCompare(t.calls[i]);
    } else {
      var j :| 0 <= j < |s.calls| && WillCompare(s.calls[j]);
      assert WillCompare(t.calls[j]);
    }
  }

  lemma StaysEndDue(s: Machine, i: nat, q: Phase)
    requires i < |s.calls| && (MayEnd(q) || (EndDue(s) && !MayEnd(s.calls[i])))
    ensures EndDue(At(s, i, q))
  {
    var t := At(s, i, q);
    if MayEnd(q) {
      assert MayEnd(t.calls[i]);
    } else {
      var j :| 0 <= j < |s.calls| && MayEnd(s.calls[j]);
      assert MayEnd(t.calls[j]);
    }
  }

  lemma StepKeepsCompare(c: Config, s: Machine, i: nat, now: int)
    requires i < |s.calls| && c.successThreshold >= 1
    requires s.b.successes >= c.successThreshold ==> CompareDue(s)
    ensures var t := StepOf(c, s, i, now); t.b.successes >= c.successThreshold ==> CompareDue(t)
  {
    var (b', q) := Access(c, s.b, s.calls[i], now);
    CompareFollows(c, s.b, s.calls[i], now);
    if b'.successes >= c.successThreshold {
      StaysCompareDue(s, i, q);
    }
  }

  lemma StepKeepsEnd(c: Config, s: Machine, i: nat, now: int)
    requires i < |s.calls| && c.successThreshold <= 0 <= s.b.successes
    requires s.b.state == HalfOpen ==> EndDue(s)
    ensures var t := StepOf(c, s, i, now); t.b.state == HalfOpen ==> EndDue(t)
  {
    var (b', q) := Access(c, s.b, s.calls[i], now);
    EndFollows(c, s.b, s.calls[i], now);
    if b'.state == HalfOpen {
      StaysEndDue(s, i, q);
    }
  }

  lemma StepLosesNone(c: Config, s: Machine, i: nat, now: int)
    requires NoneLost(s) && i < |s.calls|
    ensures NoneLost(StepOf(c, s, i, now))
  {
  }

  lemma StepKeepsDues(c: Config, s: Machine, i: nat, now: int)
    requires Inv(c, s) && i < |s.calls|
    ensures Inv(c, StepOf(c, s, i, now))
  {
    StepKeepsCounts(c, s, i, now);
    StepLosesNone(c, s, i, now);
    if c.successThreshold >= 1 {
      StepKeepsCompare(c, s, i, now);
    } else {
      StepKeepsEnd(c, s, i, now);
    }
  }

  /** A step that touches neither counts nor state, by a call that owes nothing before or after. */
  predicate Harmless(s: Machine, t: Machine) {
    && t.b.state == s.b.state && t.b.successes == s.b.successes && t.b.halfOpenCalls == s.b.halfOpenCalls
    && t.placed == s.placed && t.tallied == s.tallied && |t.calls| >= |s.calls|
    && forall j :: 0 <= j < |t.calls| ==>
         || (j < |s.calls| && t.calls[j] == s.calls[j])
         || (j >= |s.calls| && t.calls[j] == Arrived)
         || (j < |s.calls| && s.calls[j] == Inside && (t.calls[j] == Succeeding || t.calls[j] == Failing))
  }

  lemma HarmlessDues(s: Machine, t: Machine)
    requires Harmless(s, t)
    ensures (ZeroDue(s) <==> ZeroDue(t)) && (CompareDue(s) ==> CompareDue(t)) && (EndDue(s) ==> EndDue(t))
  {
    if j :| 0 <= j < |s.calls| && WillZero(s.calls[j]) {
      assert WillZero(t.calls[j]);
    }
    if j :| 0 <= j < |t.calls| && WillZero(t.calls[j]) {
      assert WillZero(s.calls[j]);
    }
    if j :| 0 <= j < |s.calls| && WillCompare(s.calls[j]) {
      assert WillCompare(t.calls[j]);
    }
    if j :| 0 <= j < |s.calls| && MayEnd(s.calls[j]) {
      assert MayEnd(t.calls[j]);
    }
  }

  lemma HarmlessKeepsInv(c: Config, s: Machine, t: Machine)
    requires Inv(c, s) && Harmless(s, t)
    ensures Inv(c, t)
  {
    HarmlessDues(s, t);
    forall j | 0 <= j < |t.calls| ensures CallKept(t, j) {
      if j < |s.calls| {
        assert CallKept(s, j);
        if t.calls[j] != s.calls[j] {
          ReportKept(t.calls[j], j in s.placed, j in s.tallied, s.b.state, ZeroDue(s));
        }
      } else {
        assert j !in s.placed + s.tallied;
      }
    }
  }

  lemma ReportKept(q: Phase, placed: bool, tallied: bool, state: State, due: bool)
    requires Kept(Inside, placed, tallied, state, due) && (q.Succeeding? || q.Failing?)
    ensures Kept(q, placed, tallied, state, due)
  {
  }

  lemma EventKeepsInv(c: Config, s: Machine, e: Event)
    requires Inv(c, s) && !e.Abandon?
    ensures Inv(c, Next(c, s, e))
  {
    match e
    case Begin => HarmlessKeepsInv(c, s, Next(c, s, e));
    case Step(i, now) => if i < |s.calls| { StepKeepsDues(c, s, i, now); }
    case Report(i, ok) => if i < |s.calls| && s.calls[i] == Inside { HarmlessKeepsInv(c, s, Next(c, s, e)); }
  }

  // ---- which states can be reached ---------------------------------------------------------------------

  /** Kinds of events that a run may be restricted to. */
  type Events = Event -> bool

  function Reporting(): Events {
    (e: Event) => !e.Abandon?
  }

  function Any(): Events {
    (e: Event) => true
  }

  /** Every call reports, and no clock has read more than `latest`. */
  function Until(latest: int): Events {
    (e: Event) => !e.Abandon? && (e.Step? ==> e.now <= latest)
  }

  predicate Only(run: seq<Event>, may: Events) {
    forall k :: 0 <= k < |run| ==> may(run[k])
  }

  /** Some run of such events leads from `s` to `t`. */
  ghost predicate Reaches(c: Config, s: Machine, t: Machine, may: Events) {
    exists run :: Only(run, may) && After(c, s, run) == t
  }

  lemma Stay(c: Config, s: Machine, may: Events)
    ensures Reaches(c, s, s, may)
  {
    assert Only([], may) && After(c, s, []) == s;
  }

  lemma {:induction false} AfterAppend(c: Config, s: Machine, run: seq<Event>, e: Event)
    ensures After(c, s, run + [e]) == Next(c, After(c, s, run), e)
    decreases |run|
  {
    if run == [] {
      assert [] + [e] == [e] && [e][1..] == [];
      assert After(c, Next(c, s, e), []) == Next(c, s, e);
    } else {
      AfterAppend(c, Next(c, s, run[0]), run[1..], e);
      assert (run + [e])[1..] == run[1..] + [e];
    }
  }

  lemma Go(c: Config, s: Machine, t: Machine, e: Event, may: Events)
    requires Reaches(c, s, t, may) && may(e)
    ensures Reaches(c, s, Next(c, t, e), may)
  {
    var run :| Only(run, may) && After(c, s, run) == t;
    AfterAppend(c, s, run, e);
    assert Only(run + [e], may);
  }

  lemma {:induction false} RunKeepsInv(c: Config, s: Machine, run: seq<Event>)
    requires Inv(c, s) && Only(run, Reporting())
    ensures Inv(c, After(c, s, run))
    decreases |run|
  {
    if run != [] {
      assert Reporting()(run[0]);
      EventKeepsInv(c, s, run[0]);
      assert forall k :: 0 <= k < |run[1..]| ==> run[1..][k] == run[k + 1];
      RunKeepsInv(c, Next(c, s, run[0]), run[1..]);
    }
  }

  // ---- can it recover? ----------------------------------------------------------------------------------

  predicate Finished(p: Phase) {
    p.Turned? || Ended(p) || p.Lost?
  }

  predicate Quiet(s: Machine) {
    forall i :: 0 <= i < |s.calls| ==> Finished(s.calls[i])
  }

  /** Half-open, no call running, and every further call is refused. */
  predicate Stuck(c: Config, s: Machine) {
    s.b.state == HalfOpen && Quiet(s) && s.b.halfOpenCalls >= c.halfOpenMaxCalls
  }

  /** What a stuck breaker and the calls it refuses look like. */
  predicate StillStuck(c: Config, s: Machine) {
    && s.b.state == HalfOpen && s.b.halfOpenCalls >= c.halfOpenMaxCalls
    && forall i :: 0 <= i < |s.calls| ==> Finished(s.calls[i]) || s.calls[i] == Arrived || s.calls[i] == SawHalfOpen
  }

  /** A stuck breaker never changes again, whoever arrives. */
  lemma {:induction false} StuckForGood(c: Config, s: Machine, run: seq<Event>)
    requires StillStuck(c, s)
    ensures StillStuck(c, After(c, s, run)) && After(c, s, run).b == s.b
    decreases |run|
  {
    if run != [] {
      var t := Next(c, s, run[0]);
      assert StillStuck(c, t) && t.b == s.b;
      StuckForGood(c, t, run[1..]);
    }
  }

  /** Where no call is running, every place is that of a tallied success, and there are fewer of them
      than would have closed the breaker. */
  lemma QuietIsNotStuck(c: Config, s: Machine)
    requires Inv(c, s) && c.successThreshold <= Max(c.halfOpenMaxCalls, 0)
    ensures !Stuck(c, s)
  {
    if s.b.state == HalfOpen && Quiet(s) {
      assert !ZeroDue(s) && !CompareDue(s) && !EndDue(s);
      forall i | i in s.placed ensures i in s.tallied {
        assert i in s.placed + s.tallied;
        assert CallKept(s, i);
      }
      SubsetSize(s.placed, s.tallied);
    }
  }

  lemma {:induction false} SubsetSize(a: set<nat>, b: set<nat>)
    requires a <= b
    ensures |a| <= |b|
    decreases |a|
  {
    if a != {} {
      var x :| x in a;
      SubsetSize(a - {x}, b - {x});
    }
  }

  // ---- the run that gets stuck ----------------------------------------------------------------------------

  /** Reporting calls may act at this clock reading. */
  ghost predicate Allows(may: Events, now: int) {
    forall e: Event :: !e.Abandon? && (e.Step? ==> e.now == now) ==> may(e)
  }

  lemma Move(c: Config, z: Machine, s: Machine, e: Event, may: Events) returns (t: Machine)
    requires Reaches(c, z, s, may) && may(e)
    ensures Reaches(c, z, t, may) && t == Next(c, s, e)
  {
    Go(c, z, s, e, may);
    t := Next(c, s, e);
  }

  /** A new call is let into a closed breaker. */
  lemma LetIn(c: Config, z: Machine, s: Machine, may: Events) returns (t: Machine)
    requires Reaches(c, z, s, may) && Allows(may, 0) && s.b.state == Closed
    ensures Reaches(c, z, t, may) && t == s.(calls := s.calls + [Inside])
  {
    var n := |s.calls|;
    t := Move(c, z, s, Begin, may);
    t := Move(c, z, t, Step(n, 0), may);
    assert t.calls == s.calls + [Inside];
  }

  /** A call fails while the breaker is closed and stays closed. */
  lemma FailOnce(c: Config, z: Machine, s: Machine, may: Events) returns (t: Machine)
    requires Reaches(c, z, s, may) && Allows(may, 0) && s.b.state == Closed && s.b.failures < 4
    ensures Reaches(c, z, t, may)
    ensures t == s.(b := s.b.(failures := s.b.failures + 1), calls := s.calls + [Unheard])
  {
    var n := |s.calls|;
    t := LetIn(c, z, s, may);
    t := Move(c, z, t, Report(n, false), may);
    t := Move(c, z, t, Step(n, 0), may);
    t := Move(c, z, t, Step(n, 0), may);
    assert t.calls == s.calls + [Unheard];
  }

  /** A call's failure report comes to the point of storing Open over Closed. */
  lemma AboutToTrip(c: Config, z: Machine, s: Machine, may: Events) returns (t: Machine)
    requires Reaches(c, z, s, may) && Allows(may, 0) && s.b.state == Closed && s.b.failures == 4
    ensures Reaches(c, z, t, may)
    ensures t == s.(b := s.b.(failures := 5), calls := s.calls + [Tripping])
  {
    var n := |s.calls|;
    t := LetIn(c, z, s, may);
    t := Move(c, z, t, Report(n, false), may);
    t := Move(c, z, t, Step(n, 0), may);
    t := Move(c, z, t, Step(n, 0), may);
    assert t.calls == s.calls + [Tripping];
  }

  lemma FourFailures(c: Config, z: Machine, s: Machine, may: Events) returns (t: Machine)
    requires Reaches(c, z, s, may) && Allows(may, 0) && s.b == NEW
    ensures Reaches(c, z, t, may)
    ensures t == s.(b := NEW.(failures := 4), calls := s.calls + [Unheard, Unheard, Unheard, Unheard])
  {
    t := FailOnce(c, z, s, may);
    t := FailOnce(c, z, t, may);
    t := FailOnce(c, z, t, may);
    t := FailOnce(c, z, t, may);
    assert t.calls == s.calls + [Unheard, Unheard, Unheard, Unheard];
  }

  /** After four more failures and one the breaker is open. */
  lemma TripNew(c: Config, z: Machine, s: Machine, may: Events) returns (t: Machine)
    requires Reaches(c, z, s, may) && Allows(may, 0) && s.b == NEW
    ensures Reaches(c, z, t, may) && |t.calls| == |s.calls| + 5
    ensures t == s.(b := Fields(Open, 5, 0, 0, 0), calls := t.calls)
    ensures t.calls == s.calls + [Unheard, Unheard, Unheard, Unheard, Unheard]
  {
    var n := |s.calls| + 4;
    t := FourFailures(c, z, s, may);
    t := AboutToTrip(c, z, t, may);
    t := Move(c, z, t, Step(n, 0), may);
    t := Move(c, z, t, Step(n, 0), may);
    assert t.calls == s.calls + [Unheard, Unheard, Unheard, Unheard, Unheard];
  }

  predicate Elapsed(c: Config, b: Fields, now: int) {
    c.timeout <= 0 || now - b.openTime >= c.timeout
  }

  /** A new call makes an open breaker half-open and is let in. */
  lemma ProbeIn(c: Config, z: Machine, s: Machine, now: int, may: Events) returns (t: Machine)
    requires Reaches(c, z, s, may) && Allows(may, now) && s.b.state == Open && Elapsed(c, s.b, now)
    ensures Reaches(c, z, t, may)
    ensures t == Machine(s.b.(state := HalfOpen, halfOpenCalls := 0), s.calls + [Inside], {}, s.tallied, 1)
  {
    var n := |s.calls|;
    t := Move(c, z, s, Begin, may);
    t := Move(c, z, t, Step(n, now), may);
    t := Move(c, z, t, Step(n, now), may);
    t := Move(c, z, t, Step(n, now), may);
    t := Move(c, z, t, Step(n, now), may);
    assert t.calls == s.calls + [Inside];
  }

  /** A new call is let into a half-open breaker. */
  lemma Enter(c: Config, z: Machine, s: Machine, may: Events) returns (t: Machine)
    requires Reaches(c, z, s, may) && Allows(may, 0) && s.b.state == HalfOpen
    requires s.b.halfOpenCalls < c.halfOpenMaxCalls
    ensures Reaches(c, z, t, may) && t.calls == s.calls + [Inside]
    ensures t.b == s.b.(halfOpenCalls := s.b.halfOpenCalls + 1)
  {
    var n := |s.calls|;
    t := Move(c, z, s, Begin, may);
    t := Move(c, z, t, Step(n, 0), may);
    t := Move(c, z, t, Step(n, 0), may);
    t := Move(c, z, t, Step(n, 0), may);
    assert t.calls == s.calls + [Inside];
  }

  /** A call that stands before its tally succeeds, which does not close the breaker. */
  lemma Tally(c: Config, z: Machine, s: Machine, i: nat, may: Events) returns (t: Machine)
    requires Reaches(c, z, s, may) && Allows(may, 0) && s.b.state == HalfOpen
    requires i < |s.calls| && s.calls[i] == Succeeding && s.b.successes + 1 < c.successThreshold
    ensures Reaches(c, z, t, may) && t.calls == s.calls[i := Heard]
    ensures t.b == s.b.(successes := s.b.successes + 1)
  {
    t := Move(c, z, s, Step(i, 0), may);
    t := Move(c, z, t, Step(i, 0), may);
    t := Move(c, z, t, Step(i, 0), may);
    assert t.calls == s.calls[i := Heard];
  }

  lemma EnterAndSucceed(c: Config, z: Machine, s: Machine, may: Events) returns (t: Machine)
    requires Reaches(c, z, s, may) && Allows(may, 0) && s.b.state == HalfOpen
    requires s.b.halfOpenCalls < c.halfOpenMaxCalls && s.b.successes + 1 < c.successThreshold
    ensures Reaches(c, z, t, may) && t.calls == s.calls + [Heard]
    ensures t.b == s.b.(failures := 0, successes := s.b.successes + 1, halfOpenCalls := s.b.halfOpenCalls + 1)
  {
    t := Enter(c, z, s, may);
    t := Move(c, z, t, Report(|s.calls|, true), may);
    assert t.calls == s.calls + [Succeeding];
    t := Tally(c, z, t, |s.calls|, may);
    assert t.calls == s.calls + [Heard];
  }

  /** A failure report of call `i` over a half-open breaker comes to the point of wiping. */
  lemma FailToWipe(c: Config, z: Machine, s: Machine, i: nat, now: int, may: Events) returns (t: Machine)
    requires Reaches(c, z, s, may) && Allows(may, now) && s.b.state == HalfOpen
    requires i < |s.calls| && s.calls[i] == Inside
    ensures Reaches(c, z, t, may)
    ensures t == s.(b := s.b.(state := Open, failures := s.b.failures + 1, openTime := now),
                    calls := s.calls[i := WipingTally])
  {
    t := Move(c, z, s, Report(i, false), may);
    t := Move(c, z, t, Step(i, now), may);
    t := Move(c, z, t, Step(i, now), may);
    t := Move(c, z, t, Step(i, now), may);
    assert t.calls == s.calls[i := WipingTally];
  }

  /** A success that finds the breaker open. */
  lemma SucceedLate(c: Config, z: Machine, s: Machine, i: nat, now: int, may: Events) returns (t: Machine)
    requires Reaches(c, z, s, may) && Allows(may, now) && s.b.state == Open
    requires i < |s.calls| && s.calls[i] == Inside
    ensures Reaches(c, z, t, may)
    ensures t == s.(b := s.b.(failures := 0), calls := s.calls[i := Unheard])
  {
    t := Move(c, z, s, Report(i, true), may);
    t := Move(c, z, t, Step(i, now), may);
    assert t.calls == s.calls[i := Unheard];
  }

  /** A failure report stalls after it has stored Open, before it wipes the successes; the other calls
      have all finished. */
  lemma Stall(c: Config, may: Events) returns (t: Machine)
    requires forall now :: Allows(may, now)
    ensures Reaches(c, START, t, may)
    ensures |t.calls| == 7 && t.calls[0] == WipingTally && forall i :: 1 <= i < 7 ==> t.calls[i] == Unheard
    ensures t.b == Fields(Open, 0, 0, 0, Max(c.timeout, 0)) && t.tallied == {}
  {
    var now := Max(c.timeout, 0);
    Stay(c, START, may);
    t := LetIn(c, START, START, may);
    t := TripNew(c, START, t, may);
    t := ProbeIn(c, START, t, now, may);
    t := FailToWipe(c, START, t, 0, now, may);
    t := SucceedLate(c, START, t, 6, now, may);
  }

  /** A success of call `i` is wiped by call `j` before it is compared. */
  lemma Wiped(c: Config, z: Machine, s: Machine, i: nat, j: nat, may: Events) returns (t: Machine)
    requires Reaches(c, z, s, may) && Allows(may, 0) && c.successThreshold >= 1
    requires s.b.state == HalfOpen && i < |s.calls| && j < |s.calls|
    requires s.calls[i] == Inside && s.calls[j] == WipingTally
    ensures Reaches(c, z, t, may)
    ensures t.b == s.b.(failures := 0, successes := 0, halfOpenCalls := 0)
    ensures t.calls == s.calls[i := Heard][j := Unheard]
  {
    t := ToCompare(c, z, s, i, may);
    t := Wipe(c, z, t, j, may);
    t := Move(c, z, t, Step(i, 0), may);
    assert t.calls == s.calls[i := Heard][j := Unheard];
  }

  lemma ToCompare(c: Config, z: Machine, s: Machine, i: nat, may: Events) returns (t: Machine)
    requires Reaches(c, z, s, may) && Allows(may, 0)
    requires s.b.state == HalfOpen && i < |s.calls| && s.calls[i] == Inside
    ensures Reaches(c, z, t, may) && t.calls == s.calls[i := Comparing]
    ensures t.b == s.b.(failures := 0, successes := s.b.successes + 1)
  {
    t := Move(c, z, s, Report(i, true), may);
    t := Move(c, z, t, Step(i, 0), may);
    t := Move(c, z, t, Step(i, 0), may);
    assert t.calls == s.calls[i := Comparing];
  }

  lemma Wipe(c: Config, z: Machine, s: Machine, j: nat, may: Events) returns (t: Machine)
    requires Reaches(c, z, s, may) && Allows(may, 0) && j < |s.calls| && Wipes(s.calls[j])
    ensures Reaches(c, z, t, may) && t.calls == s.calls[j := AfterWipe(s.calls[j])]
    ensures t.b == s.b.(successes := 0, halfOpenCalls := 0)
  {
    t := Move(c, z, s, Step(j, 0), may);
    t := Move(c, z, t, Step(j, 0), may);
    assert t.calls == s.calls[j := AfterWipe(s.calls[j])];
  }

  /** After the stalled report a probe's success is wasted, and no call is left. */
  lemma Waste(c: Config, may: Events) returns (t: Machine)
    requires (forall now :: Allows(may, now)) && c.successThreshold >= 1
    ensures Reaches(c, START, t, may) && Quiet(t)
    ensures t.b == Fields(HalfOpen, 0, 0, 0, Max(c.timeout, 0))
  {
    t := Stall(c, may);
    t := ProbeIn(c, START, t, 2 * Max(c.timeout, 0), may);
    t := Wiped(c, START, t, 7, 0, may);
  }

  lemma {:induction false} Fill(c: Config, k: nat, may: Events) returns (t: Machine)
    requires (forall now :: Allows(may, now)) && c.successThreshold >= 1
    requires k <= Max(c.halfOpenMaxCalls, 0) < c.successThreshold
    ensures Reaches(c, START, t, may) && Quiet(t)
    ensures t.b == Fields(HalfOpen, 0, k, k, Max(c.timeout, 0))
  {
    if k == 0 {
      t := Waste(c, may);
    } else {
      t := Fill(c, k - 1, may);
      t := EnterAndSucceed(c, START, t, may);
    }
  }

  /** The exact condition when accesses interleave: with calls that all report, some run sticks exactly
      if the success threshold exceeds the half-open budget. Whole reports, made one at a time, would
      allow a threshold of one more. */
  lemma SticksIff(c: Config)
    ensures (exists s :: Reaches(c, START, s, Reporting()) && Stuck(c, s))
            <==> c.successThreshold > Max(c.halfOpenMaxCalls, 0)
  {
    if c.successThreshold > Max(c.halfOpenMaxCalls, 0) {
      var s := Fill(c, Max(c.halfOpenMaxCalls, 0), Reporting());
      assert Stuck(c, s);
    } else {
      forall s | Reaches(c, START, s, Reporting()) ensures !Stuck(c, s) {
        var run :| Only(run, Reporting()) && After(c, START, run) == s;
        RunKeepsInv(c, START, run);
        QuietIsNotStuck(c, s);
      }
    }
  }

  // ---- calls that never report -----------------------------------------------------------------------------

  lemma {:induction false} LoseProbes(c: Config, k: nat) returns (t: Machine)
    requires k <= Max(c.halfOpenMaxCalls, 0)
    ensures Reaches(c, START, t, Any()) && Quiet(t)
    ensures t.b == Fields(HalfOpen, 5, 0, k, 0)
  {
    if k == 0 {
      Stay(c, START, Any());
      t := TripNew(c, START, START, Any());
      t := ProbeIn(c, START, t, Max(c.timeout, 0), Any());
      t := Move(c, START, t, Abandon(5), Any());
    } else {
      t := LoseProbes(c, k - 1);
      var n := |t.calls|;
      t := Enter(c, START, t, Any());
      t := Move(c, START, t, Abandon(n), Any());
    }
  }

  /** No setting helps against calls that vanish: each takes its half-open place with it. */
  lemma LostCallsStick(c: Config)
    ensures exists s :: Reaches(c, START, s, Any()) && Stuck(c, s)
  {
    var s := LoseProbes(c, Max(c.halfOpenMaxCalls, 0));
    assert Stuck(c, s);
  }

  // ---- how many are let in --------------------------------------------------------------------------------

  /** `k` calls that have seen the breaker open and its time-out passed. */
  lemma {:induction false} Crowd(c: Config, k: nat) returns (t: Machine)
    ensures Reaches(c, START, t, Reporting()) && |t.calls| == 5 + k
    ensures t.b == Fields(Open, 5, 0, 0, 0) && forall i :: 5 <= i < 5 + k ==> t.calls[i] == Opening
  {
    var now := Max(c.timeout, 0);
    if k == 0 {
      Stay(c, START, Reporting());
      t := TripNew(c, START, START, Reporting());
    } else {
      t := Crowd(c, k - 1);
      var n := |t.calls|;
      t := Move(c, START, t, Begin, Reporting());
      t := Move(c, START, t, Step(n, now), Reporting());
      t := Move(c, START, t, Step(n, now), Reporting());
    }
  }

  lemma {:induction false} CrowdEnters(c: Config, k: nat, j: nat) returns (t: Machine)
    requires 1 <= j <= k
    ensures Reaches(c, START, t, Reporting()) && |t.calls| == 5 + k
    ensures t.b == Fields(HalfOpen, 5, 0, 0, 0) && t.episode == j
    ensures forall i :: 5 <= i < 5 + j ==> t.calls[i] == Inside
    ensures forall i :: 5 + j <= i < 5 + k ==> t.calls[i] == Opening
  {
    if j == 1 {
      t := Crowd(c, k);
    } else {
      t := CrowdEnters(c, k, j - 1);
    }
    t := Move(c, START, t, Step(4 + j, 0), Reporting());
    t := Move(c, START, t, Step(4 + j, 0), Reporting());
  }

  /** One half-open episode may let in any number of calls, under any settings: all that had seen the
      breaker open before the first of them stored HalfOpen. */
  lemma EpisodeIsUnbounded(c: Config, k: nat)
    requires k >= 1
    ensures exists s :: && Reaches(c, START, s, Reporting()) && s.b.state == HalfOpen && s.episode == k
                        && |s.calls| == 5 + k && forall i :: 5 <= i < 5 + k ==> s.calls[i] == Inside
  {
    var s := CrowdEnters(c, k, k);
  }

  // ---- how long it stays open -----------------------------------------------------------------------------

  /** Open, and no call acts on a state it loaded before. */
  predicate SettledOpen(s: Machine) {
    s.b.state == Open &&
    forall i :: 0 <= i < |s.calls| ==>
      var p := s.calls[i];
      p.Arrived? || p.SawOpen? || p.Inside? || p.Succeeding? || p.Failing? || Finished(p)
  }

  predicate ClocksBefore(run: seq<Event>, deadline: int) {
    forall k :: 0 <= k < |run| && run[k].Step? ==> run[k].now < deadline
  }

  predicate WasInside(s: Machine, t: Machine) {
    forall i :: 0 <= i < |t.calls| && t.calls[i] == Inside ==> i < |s.calls| && s.calls[i] == Inside
  }

  /** From such a state on the breaker keeps everybody out until its time-out has passed, whoever
      arrives, reports or vanishes. */
  lemma {:induction false} StaysOpen(c: Config, s: Machine, run: seq<Event>)
    requires SettledOpen(s) && c.timeout > 0 && ClocksBefore(run, s.b.openTime + c.timeout)
    ensures var t := After(c, s, run); SettledOpen(t) && t.b.openTime == s.b.openTime && WasInside(s, t)
    decreases |run|
  {
    if run != [] {
      var t := Next(c, s, run[0]);
      assert run[0].Step? ==> run[0].now < s.b.openTime + c.timeout;
      assert SettledOpen(t) && t.b.openTime == s.b.openTime && WasInside(s, t);
      assert forall k :: 0 <= k < |run[1..]| ==> run[1..][k] == run[k + 1];
      StaysOpen(c, t, run[1..]);
    }
  }

  /** Between the stores of Open and of the open time a call is compared with the open time before: the
      breaker opens at `c.timeout`, no clock has read more, and a call is inside. */
  lemma LetInTooEarly(c: Config)
    requires c.timeout > 0
    ensures exists s :: && Reaches(c, START, s, Until(c.timeout)) && s.b.openTime == c.timeout
                        && s.b.state == HalfOpen && |s.calls| == 6 && s.calls[5] == Inside
  {
    var may := Until(c.timeout);
    Stay(c, START, may);
    var s := FourFailures(c, START, START, may);
    s := AboutToTrip(c, START, s, may);
    s := Move(c, START, s, Step(4, c.timeout), may);
    s := ProbeIn(c, START, s, c.timeout, may);
    s := Stamp(c, START, s, 4, c.timeout, may);
  }

  lemma Stamp(c: Config, z: Machine, s: Machine, i: nat, now: int, may: Events) returns (t: Machine)
    requires Reaches(c, z, s, may) && Allows(may, now) && i < |s.calls| && s.calls[i] == TripStamping
    ensures Reaches(c, z, t, may) && t.calls == s.calls[i := Unheard] && t.b == s.b.(openTime := now)
  {
    t := Move(c, z, s, Step(i, now), may);
  }

  // ---- closed with failures enough to trip ---------------------------------------------------------------

  /** `k` successes have reset the failures and are about to load the state. */
  lemma {:induction false} Hold(c: Config, k: nat) returns (t: Machine)
    ensures Reaches(c, START, t, Reporting()) && t.b == NEW
    ensures |t.calls| == k && forall i :: 0 <= i < k ==> t.calls[i] == Succeeding
  {
    if k == 0 {
      Stay(c, START, Reporting());
      t := START;
    } else {
      t := Hold(c, k - 1);
      t := LetIn(c, START, t, Reporting());
      t := Move(c, START, t, Report(k - 1, true), Reporting());
    }
  }

  /** The breaker has tripped and become half-open; `j` of the successes have come in since. */
  lemma {:induction false} Release(c: Config, k: nat, j: nat) returns (t: Machine)
    requires j <= k && j < Max(c.successThreshold, 1)
    ensures Reaches(c, START, t, Reporting()) && t.b == Fields(HalfOpen, 5, j, 0, 0)
    ensures |t.calls| == k + 6 && t.calls[k + 5] == Inside
    ensures forall i :: 0 <= i < j || k <= i < k + 5 ==> Ended(t.calls[i])
    ensures forall i :: j <= i < k ==> t.calls[i] == Succeeding
  {
    if j == 0 {
      t := Hold(c, k);
      t := TripNew(c, START, t, Reporting());
      t := ProbeIn(c, START, t, Max(c.timeout, 0), Reporting());
    } else {
      t := Release(c, k, j - 1);
      t := Tally(c, START, t, j - 1, Reporting());
    }
  }

  /** Successes that reset the failures before others failed may close the breaker after them: it is
      then closed with five failures, which no report of a call is about to act on. */
  lemma ClosedPastTrip(c: Config)
    ensures exists s :: && Reaches(c, START, s, Reporting()) && s.b == Fields(Closed, 5, 0, 0, 0)
                        && forall i :: 0 <= i < |s.calls| ==> Ended(s.calls[i]) || s.calls[i] == Inside
  {
    var k := Max(c.successThreshold, 1);
    var s := Release(c, k, k - 1);
    s := ReachClosing(c, START, s, k - 1, Reporting());
    s := CloseUp(c, START, s, k - 1, Reporting());
  }

  lemma ReachClosing(c: Config, z: Machine, s: Machine, i: nat, may: Events) returns (t: Machine)
    requires Reaches(c, z, s, may) && Allows(may, 0) && s.b.state == HalfOpen
    requires i < |s.calls| && s.calls[i] == Succeeding && s.b.successes + 1 >= c.successThreshold
    ensures Reaches(c, z, t, may) && t.calls == s.calls[i := Closing]
    ensures t.b == s.b.(successes := s.b.successes + 1)
  {
    t := Move(c, z, s, Step(i, 0), may);
    t := Move(c, z, t, Step(i, 0), may);
    t := Move(c, z, t, Step(i, 0), may);
    assert t.calls == s.calls[i := Closing];
  }

  lemma CloseUp(c: Config, z: Machine, s: Machine, i: nat, may: Events) returns (t: Machine)
    requires Reaches(c, z, s, may) && Allows(may, 0) && i < |s.calls| && s.calls[i] == Closing
    ensures Reaches(c, z, t, may) && t.calls == s.calls[i := Heard]
    ensures t.b == s.b.(state := Closed, successes := 0, halfOpenCalls := 0)
  {
    t := Move(c, z, s, Step(i, 0), may);
    assert t.calls == s.calls[i := ResettingTally];
    t := Wipe(c, z, t, i, may);
    assert t.calls == s.calls[i := Heard];
  }
}
