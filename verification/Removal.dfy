/** The watcher that removes an expired torrent: it looks, and it removes, and requests go on between. */
module Removal {
  import opened Admission
  import P = AdmissionProtocol

  /** A torrent found expired and not yet removed; `since` are the requests granted for it meanwhile. */
  datatype Doom = Doom(key: string, since: set<nat>, removed: bool)

  datatype Watched = Watched(s: P.System, dooms: seq<Doom>)

  datatype Event =
    | Admission(e: P.Event)
    | Check(key: string, readers: int, expiresAt: int, now: int, st: TorrentStat)
    | Remove(n: nat)

  const START := Watched(P.System(EMPTY, []), [])

  /** The event grants request `i` a stream of this torrent. */
  predicate Grants(s: P.System, e: P.Event, i: nat, key: string) {
    && e.Proceed? && e.i == i < |s.callers| && s.callers[i].req.key == key
    && s.callers[i].phase.Trying? && Judge(s.reg, s.callers[i].req.limits, key) == Granted
  }

  function Noted(s: P.System, e: P.Event, d: Doom): Doom {
    if e.Proceed? && Grants(s, e, e.i, d.key) then d.(since := d.since + {e.i}) else d
  }

  function Next(w: Watched, event: Event): Watched {
    match event
    case Admission(e) =>
      Watched(P.Next(w.s, e), seq(|w.dooms|, n requires 0 <= n < |w.dooms| => Noted(w.s, e, w.dooms[n])))
    case Check(key, readers, expiresAt, now, st) =>
      if ShouldExpire(readers, HasActive(w.s.reg, key), expiresAt, now, st)
      then w.(dooms := w.dooms + [Doom(key, {}, false)])
      else w
    case Remove(n) =>
      if n < |w.dooms| then w.(dooms := w.dooms[n := w.dooms[n].(removed := true)]) else w
  }

  function After(run: seq<Event>): Watched {
    if run == [] then START else Next(After(run[..|run| - 1]), run[|run| - 1])
  }

  /** Request `i` holds a live grant for the torrent. */
  predicate Streams(s: P.System, i: nat, key: string) {
    i < |s.callers| && P.IsLive(s.callers[i]) && s.callers[i].req.key == key
  }

  /** Whoever streams from a doomed torrent was granted since it was looked at. */
  ghost predicate Newcomers(s: P.System, d: Doom) {
    d.key != "" ==> forall i :: Streams(s, i, d.key) ==> i in d.since
  }

  ghost predicate Inv(w: Watched) {
    P.Inv(w.s) && forall n :: 0 <= n < |w.dooms| ==> Newcomers(w.s, w.dooms[n])
  }

  /** A request that streams after an event did so before, or was granted by it. */
  lemma StreamsOrGranted(s: P.System, e: P.Event, i: nat, key: string)
    requires Streams(P.Next(s, e), i, key)
    ensures Streams(s, i, key) || Grants(s, e, i, key)
  {
  }

  lemma AdmissionKeepsInv(w: Watched, e: P.Event)
    requires Inv(w)
    ensures Inv(Next(w, Admission(e)))
  {
    var t := Next(w, Admission(e));
    P.StepKeepsInv(w.s, e);
    forall n | 0 <= n < |t.dooms| ensures Newcomers(t.s, t.dooms[n]) {
      var d := w.dooms[n];
      assert t.dooms[n] == Noted(w.s, e, d) && Newcomers(w.s, d);
      forall i | Streams(t.s, i, d.key) ensures d.key != "" ==> i in t.dooms[n].since {
        StreamsOrGranted(w.s, e, i, d.key);
      }
    }
  }

  lemma NobodyStreams(s: P.System, key: string, i: nat)
    requires P.Inv(s) && key != "" && !HasActive(s.reg, key)
    ensures !Streams(s, i, key)
  {
    assert P.KeyCounted(s, key);
    if Streams(s, i, key) {
      P.CountWitness(s.callers, i, P.LiveFor(key));
    }
  }

  lemma CheckKeepsInv(w: Watched, event: Event)
    requires Inv(w) && event.Check?
    ensures Inv(Next(w, event))
  {
    var t := Next(w, event);
    forall n | 0 <= n < |t.dooms| ensures Newcomers(t.s, t.dooms[n]) {
      if n < |w.dooms| {
        assert t.dooms[n] == w.dooms[n];
      } else if event.key != "" {
        forall i ensures !Streams(w.s, i, event.key) {
          NobodyStreams(w.s, event.key, i);
        }
      }
    }
  }

  lemma StepKeepsInv(w: Watched, event: Event)
    requires Inv(w)
    ensures Inv(Next(w, event))
  {
    match event
    case Admission(e) => AdmissionKeepsInv(w, e);
    case Check(_, _, _, _, _) => CheckKeepsInv(w, event);
    case Remove(n) =>
      var t := Next(w, event);
      forall k | 0 <= k < |t.dooms| ensures Newcomers(t.s, t.dooms[k]) {
        assert Newcomers(w.s, w.dooms[k]);
      }
  }

  lemma {:induction false} RunKeepsInv(run: seq<Event>)
    ensures Inv(After(run))
  {
    if run == [] {
      P.RunsCountTruly([]);
    } else {
      RunKeepsInv(run[..|run| - 1]);
      StepKeepsInv(After(run[..|run| - 1]), run[|run| - 1]);
    }
  }

  /** The removal of a doomed torrent takes it from somebody who streams exactly if a request granted
      after the check still streams; a request that streamed before the check is never hit. */
  lemma HitsIffNewcomer(run: seq<Event>, n: nat)
    requires n < |After(run).dooms| && After(run).dooms[n].key != ""
    ensures var w := After(run);
            var d := w.dooms[n];
            (exists i :: Streams(w.s, i, d.key)) <==> exists i :: i in d.since && Streams(w.s, i, d.key)
    ensures var w := After(run); forall i :: Streams(w.s, i, w.dooms[n].key) ==> i in w.dooms[n].since
  {
    RunKeepsInv(run);
    assert Newcomers(After(run).s, After(run).dooms[n]);
  }

  /** Without a grant between the check and the removal nobody is streaming when the torrent goes. */
  lemma SafeWithoutGrants(run: seq<Event>, n: nat, i: nat)
    requires n < |After(run).dooms| && After(run).dooms[n].key != "" && After(run).dooms[n].since == {}
    ensures !Streams(After(run).s, i, After(run).dooms[n].key)
  {
    HitsIffNewcomer(run, n);
  }

  /** With one it can happen: a request granted right after the check loses its torrent. */
  lemma GrantedIsRemoved(req: P.Request)
    requires req.key != "" && req.limits.maxStreams >= 1
    ensures exists run :: Streams(After(run).s, 0, req.key) && After(run).dooms == [Doom(req.key, {0}, true)]
  {
    var run := Start();
    run := Extend(run, Check(req.key, 0, 1, 2, Working));
    run := Extend(run, Admission(P.Arrive(req)));
    run := Extend(run, Admission(P.Proceed(0)));
    run := Extend(run, Remove(0));
    LateGrant(req);
  }

  lemma Start() returns (run: seq<Event>)
    ensures After(run) == START
  {
    run := [];
  }

  lemma Extend(run: seq<Event>, e: Event) returns (longer: seq<Event>)
    ensures After(longer) == Next(After(run), e)
  {
    longer := run + [e];
    assert longer[..|run|] == run;
  }

  /** The same four events, one after the other. */
  lemma LateGrant(req: P.Request)
    requires req.key != "" && req.limits.maxStreams >= 1
    ensures var w1 := Next(START, Check(req.key, 0, 1, 2, Working));
            var w2 := Next(w1, Admission(P.Arrive(req)));
            var w3 := Next(w2, Admission(P.Proceed(0)));
            var w4 := Next(w3, Remove(0));
            Streams(w4.s, 0, req.key) && w4.dooms == [Doom(req.key, {0}, true)]
  {
    var w1 := Next(START, Check(req.key, 0, 1, 2, Working));
    assert w1 == Watched(P.System(EMPTY, []), [Doom(req.key, {}, false)]);
    var w2 := Next(w1, Admission(P.Arrive(req)));
    var s2 := P.System(EMPTY, [P.Caller(req, P.Trying(false, false))]);
    assert w2 == Watched(s2, [Doom(req.key, {}, false)]);
    FirstGrant(req);
    NotedDoom(s2, req.key);
    var w3 := Watched(P.Next(s2, P.Proceed(0)), [Doom(req.key, {0}, false)]);
    assert Next(w2, Admission(P.Proceed(0))) == w3;
    assert Next(w3, Remove(0)) == Watched(w3.s, [Doom(req.key, {0}, true)]);
  }

  lemma NotedDoom(s: P.System, key: string)
    requires Grants(s, P.Proceed(0), 0, key)
    ensures Next(Watched(s, [Doom(key, {}, false)]), Admission(P.Proceed(0))).dooms == [Doom(key, {0}, false)]
  {
    assert Noted(s, P.Proceed(0), Doom(key, {}, false)) == Doom(key, {0}, false);
  }

  lemma FirstGrant(req: P.Request)
    requires req.key != "" && req.limits.maxStreams >= 1
    ensures var s := P.System(EMPTY, [P.Caller(req, P.Trying(false, false))]);
            Grants(s, P.Proceed(0), 0, req.key) && Streams(P.Next(s, P.Proceed(0)), 0, req.key)
  {
  }
}
