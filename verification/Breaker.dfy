/** The circuit breaker: when calls pass, when they are refused, and whether it can recover. */
module Breaker {

  datatype State = Closed | Open | HalfOpen

  datatype Config = Config(failureThreshold: int, successThreshold: int, timeout: int, halfOpenMaxCalls: int)

  datatype Fields = Fields(state: State, failures: int, successes: int, halfOpenCalls: int, openTime: int)

  /** The default trip rule. */
  predicate ReadyToTrip(failures: int) {
    failures >= 5
  }

  function Max(a: int, b: int): int {
    if a > b then a else b
  }

  // ---- the three operations, each as one step ---------------------------------------------------

  function AllowStep(c: Config, b: Fields, now: int): (Fields, bool) {
    match b.state
    case Closed => (b, true)
    case Open =>
      if c.timeout <= 0 || now - b.openTime >= c.timeout then (b.(state := HalfOpen, halfOpenCalls := 0), true)
      else (b, false)
    case HalfOpen =>
      if b.halfOpenCalls >= c.halfOpenMaxCalls then (b, false)
      else (b.(halfOpenCalls := b.halfOpenCalls + 1), true)
  }

  function SuccessStep(c: Config, b: Fields): Fields {
    var r := b.(failures := 0);
    if b.state != HalfOpen then r
    else if b.successes + 1 >= c.successThreshold then r.(state := Closed, successes := 0, halfOpenCalls := 0)
    else r.(successes := b.successes + 1)
  }

  function FailureStep(b: Fields, now: int): Fields {
    var r := b.(failures := b.failures + 1);
    match b.state
    case HalfOpen => r.(state := Open, openTime := now, successes := 0, halfOpenCalls := 0)
    case Closed => if ReadyToTrip(r.failures) then r.(state := Open, openTime := now) else r
    case Open => r
  }

  /** A call passes a closed breaker, an open one once its time-out is over or if there is none, and a
      half-open one while there are places left; it takes one then. */
  lemma AllowsIff(c: Config, b: Fields, now: int)
    ensures AllowStep(c, b, now).1 <==>
              || b.state == Closed
              || (b.state == Open && (c.timeout <= 0 || b.openTime + c.timeout <= now))
              || (b.state == HalfOpen && b.halfOpenCalls < c.halfOpenMaxCalls)
    ensures AllowStep(c, b, now).0 != b ==>
              AllowStep(c, b, now).0 ==
              if b.state == Open then Fields(HalfOpen, b.failures, b.successes, 0, b.openTime)
              else Fields(HalfOpen, b.failures, b.successes, b.halfOpenCalls + 1, b.openTime)
  {
  }

  const NEW := Fields(Closed, 0, 0, 0, 0)

  class CircuitBreaker {
    const config: Config
    var state: State
    var failures: int
    var successes: int
    var totalCalls: int
    var halfOpenCalls: int
    var openTime: int

    ghost function View(): Fields
      reads this
    {
      Fields(state, failures, successes, halfOpenCalls, openTime)
    }

    constructor (config: Config)
      ensures View() == NEW && this.config == config && totalCalls == 0
    {
      this.config := config;
      state, failures, successes, totalCalls, halfOpenCalls, openTime := Closed, 0, 0, 0, 0, 0;
    }

    method Allow(now: int) returns (ok: bool)
      modifies this
      ensures (View(), ok) == AllowStep(config, old(View()), now) && totalCalls == old(totalCalls)
    {
      match state {
        case Closed => return true;
        case Open =>
          if config.timeout <= 0 || now - openTime >= config.timeout {
            state := HalfOpen;
            halfOpenCalls := 0;
            return true;
          }
          return false;
        case HalfOpen =>
          if halfOpenCalls >= config.halfOpenMaxCalls {
            return false;
          }
          halfOpenCalls := halfOpenCalls + 1;
          return true;
      }
    }

    method RecordSuccess()
      modifies this
      ensures View() == SuccessStep(config, old(View())) && totalCalls == old(totalCalls) + 1
    {
      failures := 0;
      totalCalls := totalCalls + 1;
      if state == HalfOpen {
        successes := successes + 1;
        if successes >= config.successThreshold {
          state := Closed;
          successes := 0;
          halfOpenCalls := 0;
        }
      }
    }

    method RecordFailure(now: int)
      modifies this
      ensures View() == FailureStep(old(View()), now) && totalCalls == old(totalCalls) + 1
    {
      failures := failures + 1;
      totalCalls := totalCalls + 1;
      match state {
        case HalfOpen =>
          state := Open;
          openTime := now;
          successes := 0;
          halfOpenCalls := 0;
        case Closed =>
          if ReadyToTrip(failures) {
            state := Open;
            openTime := now;
          }
        case Open =>
      }
    }

    /** One guarded call that starts at `before`, ends at `after` and fails or not. */
    method Execute(before: int, after: int, fails: bool) returns (ran: bool)
      modifies this
      ensures (View(), ran) == ExecuteStep(config, old(View()), before, after, fails)
    {
      ran := Allow(before);
      if ran {
        if fails {
          RecordFailure(after);
        } else {
          RecordSuccess();
        }
      }
    }
  }

  function ExecuteStep(c: Config, b: Fields, before: int, after: int, fails: bool): (Fields, bool) {
    var (b', ran) := AllowStep(c, b, before);
    if !ran then (b', false)
    else if fails then (FailureStep(b', after), true)
    else (SuccessStep(c, b'), true)
  }

  // ---- concurrent runs: any number of calls in flight ---------------------------------------------

  datatype Event = Arrive(now: int) | Succeed | Fail(now: int)

  /** The breaker, the admitted calls that have not reported yet, and the calls admitted since the
      breaker last became half-open. */
  datatype System = System(b: Fields, inFlight: nat, episode: nat)

  /** A report needs a call in flight; without one the event does not happen. */
  predicate Enabled(s: System, e: Event) {
    e.Arrive? || s.inFlight > 0
  }

  function Next(c: Config, s: System, e: Event): System {
    if !Enabled(s, e) then s
    else
      match e
      case Arrive(now) =>
        var (b, ok) := AllowStep(c, s.b, now);
        if !ok then s
        else
          var episode := match s.b.state case Closed => s.episode case Open => 1 case HalfOpen => s.episode + 1;
          System(b, s.inFlight + 1, episode)
      case Succeed => System(SuccessStep(c, s.b), s.inFlight - 1, s.episode)
      case Fail(now) => System(FailureStep(s.b, now), s.inFlight - 1, s.episode)
  }

  /** Where a run of events leads from a new breaker. */
  function After(c: Config, run: seq<Event>): System {
    if run == [] then System(NEW, 0, 0) else Next(c, After(c, run[..|run| - 1]), run[|run| - 1])
  }

  predicate Inv(c: Config, s: System) {
    var b := s.b;
    && 0 <= b.failures && 0 <= b.successes && 0 <= b.halfOpenCalls
    && (b.state == Closed ==> !ReadyToTrip(b.failures))
    && (b.state != HalfOpen ==> b.successes == 0 && b.halfOpenCalls == 0)
    && (b.state == HalfOpen ==>
          && b.successes < Max(c.successThreshold, 1)
          && b.halfOpenCalls <= Max(c.halfOpenMaxCalls, 0)
          && s.episode == b.halfOpenCalls + 1
          && b.successes + s.inFlight >= s.episode)
  }

  lemma StepKeepsInv(c: Config, s: System, e: Event)
    requires Inv(c, s)
    ensures Inv(c, Next(c, s, e))
  {
  }

  lemma {:induction false} RunKeepsInv(c: Config, run: seq<Event>)
    ensures Inv(c, After(c, run))
  {
    if run != [] {
      var front := run[..|run| - 1];
      RunKeepsInv(c, front);
      StepKeepsInv(c, After(c, front), run[|run| - 1]);
    }
  }

  /** What every run keeps: a closed breaker is below the trip rule, successes are counted only
      half-open and stay below the threshold, and one half-open episode admits a bounded number of
      calls. */
  lemma EveryRunIsSafe(c: Config, run: seq<Event>)
    ensures var s := After(c, run);
            && (s.b.state == Closed ==> 0 <= s.b.failures < 5)
            && (s.b.successes > 0 ==> s.b.state == HalfOpen && s.b.successes < c.successThreshold)
            && (s.b.state == HalfOpen ==> s.episode <= Max(c.halfOpenMaxCalls, 0) + 1)
  {
    RunKeepsInv(c, run);
  }

  /** The failures reported since the last reported success. */
  function Streak(c: Config, run: seq<Event>): nat {
    if run == [] then 0
    else
      var front, e := run[..|run| - 1], run[|run| - 1];
      if !Enabled(After(c, front), e) || e.Arrive? then Streak(c, front)
      else if e.Succeed? then 0
      else Streak(c, front) + 1
  }

  lemma {:induction false} FailuresAreStreak(c: Config, run: seq<Event>)
    ensures After(c, run).b.failures == Streak(c, run)
  {
    if run != [] {
      FailuresAreStreak(c, run[..|run| - 1]);
    }
  }

  /** A closed breaker opens exactly on the fifth failure report in a row, a half-open one on any, and
      the time-out counts from that report. */
  lemma OpensWhen(c: Config, run: seq<Event>, now: int)
    requires After(c, run).inFlight > 0
    ensures var s, t := After(c, run), After(c, run + [Fail(now)]);
            && (s.b.state == Closed ==> (t.b.state == Open <==> Streak(c, run + [Fail(now)]) == 5))
            && (s.b.state == HalfOpen ==> t.b.state == Open)
            && (s.b.state != Open && t.b.state == Open ==> t.b.openTime == now)
  {
    RunKeepsInv(c, run);
    AfterAppend(c, run, Fail(now));
    FailuresAreStreak(c, run);
    FailuresAreStreak(c, run + [Fail(now)]);
  }

  /** On every run a closed breaker opens on a failure exactly when that completes as many failures in
      a row as the settings ask for. */
  ghost predicate TripsAsConfigured(c: Config) {
    forall run, now :: After(c, run).inFlight > 0 && After(c, run).b.state == Closed ==>
                         (After(c, run + [Fail(now)]).b.state == Open
                          <==> Streak(c, run + [Fail(now)]) >= c.failureThreshold)
  }

  predicate ArrivalsBefore(run: seq<Event>, deadline: int) {
    forall i :: 0 <= i < |run| && run[i].Arrive? ==> run[i].now < deadline
  }

  /** Until its time-out has passed an open breaker admits nobody, and late reports of earlier calls
      neither close it nor move the time-out. */
  lemma {:induction false} OpenUntilTimeout(c: Config, run: seq<Event>, more: seq<Event>)
    requires var s := After(c, run); s.b.state == Open && ArrivalsBefore(more, s.b.openTime + c.timeout)
    requires c.timeout > 0
    ensures var s, t := After(c, run), After(c, run + more);
            t.b.state == Open && t.b.openTime == s.b.openTime && t.inFlight <= s.inFlight
  {
    if more == [] {
      assert run + more == run;
    } else {
      var front, last := more[..|more| - 1], more[|more| - 1];
      OpenUntilTimeout(c, run, front);
      AfterAppend(c, run + front, last);
      assert run + front + [last] == run + more;
    }
  }

  // ---- can it recover? ----------------------------------------------------------------------------

  /** Half-open, nothing in flight, and every arrival is refused: no event can ever change it. */
  predicate Wedged(c: Config, s: System) {
    s.b.state == HalfOpen && s.inFlight == 0 && s.b.halfOpenCalls >= c.halfOpenMaxCalls
  }

  lemma WedgedForGood(c: Config, s: System, e: Event)
    requires Wedged(c, s)
    ensures Next(c, s, e) == s
  {
  }

  /** Whether the half-open budget suffices for the successes asked for. */
  predicate BudgetSuffices(c: Config) {
    c.successThreshold <= Max(c.halfOpenMaxCalls, 0) + 1
  }

  /** A long enough half-open budget keeps every concurrent run from wedging. */
  lemma NeverWedged(c: Config, run: seq<Event>)
    requires BudgetSuffices(c)
    ensures !Wedged(c, After(c, run))
  {
    RunKeepsInv(c, run);
  }

  lemma {:induction false} AfterAppend(c: Config, run: seq<Event>, e: Event)
    ensures After(c, run + [e]) == Next(c, After(c, run), e)
  {
    assert (run + [e])[..|run|] == run;
  }

  /** A call that arrives at time `now` and succeeds, or fails, at once. */
  function Call(now: int, ok: bool): seq<Event> {
    [Arrive(now), if ok then Succeed else Fail(now)]
  }

  lemma AfterCall(c: Config, run: seq<Event>, now: int, ok: bool)
    ensures var s := After(c, run);
            After(c, run + Call(now, ok)) == Next(c, Next(c, s, Arrive(now)), if ok then Succeed else Fail(now))
  {
    AfterAppend(c, run, Arrive(now));
    AfterAppend(c, run + [Arrive(now)], if ok then Succeed else Fail(now));
    assert run + [Arrive(now)] + [if ok then Succeed else Fail(now)] == run + Call(now, ok);
  }

  /** `n` failing calls at time 0. */
  function Failures(n: nat): seq<Event> {
    if n == 0 then [] else Failures(n - 1) + Call(0, false)
  }

  lemma {:induction false} AfterFailures(c: Config, n: nat)
    requires n <= 5
    ensures After(c, Failures(n)) == System(Fields(if n < 5 then Closed else Open, n, 0, 0, 0), 0, 0)
  {
    if n > 0 {
      AfterFailures(c, n - 1);
      AfterCall(c, Failures(n - 1), 0, false);
    }
  }

  /** Five failures, then `n` successful calls once the time-out has passed. */
  function Probes(c: Config, n: nat): seq<Event> {
    if n == 0 then Failures(5) else Probes(c, n - 1) + Call(c.timeout, true)
  }

  /** The default rule never looks at the failure threshold: the setting means what it says only if it
      is five. */
  lemma TripsAsConfiguredIff(c: Config)
    ensures TripsAsConfigured(c) <==> c.failureThreshold == 5
  {
    if c.failureThreshold == 5 {
      forall run, now | After(c, run).inFlight > 0 && After(c, run).b.state == Closed
        ensures After(c, run + [Fail(now)]).b.state == Open <==> Streak(c, run + [Fail(now)]) >= 5
      {
        OpensAtFifth(c, run, now);
      }
    }
    if TripsAsConfigured(c) {
      TripsAfter(c, 3);
      TripsAfter(c, 4);
    }
  }

  lemma OpensAtFifth(c: Config, run: seq<Event>, now: int)
    requires After(c, run).inFlight > 0 && After(c, run).b.state == Closed
    ensures After(c, run + [Fail(now)]).b.state == Open <==> Streak(c, run + [Fail(now)]) >= 5
  {
    RunKeepsInv(c, run);
    OpensWhen(c, run, now);
    AfterAppend(c, run, Fail(now));
    FailuresAreStreak(c, run + [Fail(now)]);
  }

  /** With the setting at work, `n` failures and one more open the breaker only if that makes up the
      threshold; the breaker itself opens at the fifth. */
  lemma TripsAfter(c: Config, n: nat)
    requires n <= 4 && TripsAsConfigured(c)
    ensures n == 4 <==> n + 1 >= c.failureThreshold
  {
    var run := Failures(n) + [Arrive(0)];
    AfterFailures(c, n);
    AfterAppend(c, Failures(n), Arrive(0));
    AfterAppend(c, run, Fail(0));
    FailuresAreStreak(c, run + [Fail(0)]);
    assert After(c, run).inFlight > 0 && After(c, run).b.state == Closed;
  }

  lemma {:induction false} AfterProbes(c: Config, n: nat)
    requires !BudgetSuffices(c) && 1 <= n <= Max(c.halfOpenMaxCalls, 0) + 1
    ensures After(c, Probes(c, n)) == System(Fields(HalfOpen, 0, n, n - 1, 0), 0, n)
  {
    if n == 1 {
      AfterFailures(c, 5);
    } else {
      AfterProbes(c, n - 1);
    }
    AfterCall(c, Probes(c, n - 1), c.timeout, true);
  }

  /** The breaker can get wedged, on some run, exactly when the budget is too small. */
  lemma WedgesIffBudgetTooSmall(c: Config)
    ensures (exists run :: Wedged(c, After(c, run))) <==> !BudgetSuffices(c)
  {
    if BudgetSuffices(c) {
      forall run ensures !Wedged(c, After(c, run)) {
        NeverWedged(c, run);
      }
    } else {
      var n := Max(c.halfOpenMaxCalls, 0) + 1;
      AfterProbes(c, n);
      assert Wedged(c, After(c, Probes(c, n)));
    }
  }

  /** The settings of the breaker in front of the search for torrents. */
  const TORZNAB := Config(5, 2, 30_000_000_000, 0)

  /** That breaker, once tripped, is wedged by the first call that succeeds again. */
  lemma TorznabWedges()
    ensures Wedged(TORZNAB, After(TORZNAB, Failures(5) + Call(TORZNAB.timeout, true)))
  {
    AfterProbes(TORZNAB, 1);
    assert Probes(TORZNAB, 1) == Probes(TORZNAB, 0) + Call(TORZNAB.timeout, true);
  }

  /** The breaker after `n` sequential calls that all succeed. */
  function AfterSuccesses(c: Config, b: Fields, nows: seq<int>): Fields {
    if nows == [] then b
    else
      var last := nows[|nows| - 1];
      ExecuteStep(c, AfterSuccesses(c, b, nows[..|nows| - 1]), last, last, false).0
  }

  /** An open breaker that the first call finds ready to probe. */
  predicate ReadyToProbe(c: Config, b: Fields, now: int) {
    b.state == Open && b.successes == 0 && (c.timeout <= 0 || now - b.openTime >= c.timeout)
  }

  /** How far `n` sequential successes bring a probing breaker. */
  lemma {:induction false} ProbeProgress(c: Config, b: Fields, nows: seq<int>)
    requires nows != [] && ReadyToProbe(c, b, nows[0])
    requires |nows| < Max(c.successThreshold, 1) || !BudgetSuffices(c)
    ensures var r, budget := AfterSuccesses(c, b, nows), Max(c.halfOpenMaxCalls, 0) + 1;
            var ran := if |nows| < budget then |nows| else budget;
            r.state == HalfOpen && r.successes == ran && r.halfOpenCalls == ran - 1
  {
    var n := |nows| - 1;
    if n == 0 {
      assert AfterSuccesses(c, b, nows[..0]) == b;
    } else {
      ProbeProgress(c, b, nows[..n]);
    }
  }

  /** Calls that succeed one after the other close a probing breaker exactly when the half-open
      budget suffices; then the call that reaches the threshold closes it. */
  lemma ClosesIffBudgetSuffices(c: Config, b: Fields, nows: seq<int>)
    requires nows != [] && ReadyToProbe(c, b, nows[0]) && |nows| == Max(c.successThreshold, 1)
    ensures AfterSuccesses(c, b, nows).state == Closed <==> BudgetSuffices(c)
    ensures !BudgetSuffices(c) ==>
              forall more: seq<int> :: AfterSuccesses(c, b, nows + more).state == HalfOpen
  {
    if BudgetSuffices(c) {
      var n := |nows| - 1;
      if n == 0 {
        assert AfterSuccesses(c, b, nows[..0]) == b;
      } else {
        ProbeProgress(c, b, nows[..n]);
      }
    } else {
      ProbeProgress(c, b, nows);
      forall more: seq<int> ensures AfterSuccesses(c, b, nows + more).state == HalfOpen {
        ProbeProgress(c, b, nows + more);
      }
    }
  }
}
