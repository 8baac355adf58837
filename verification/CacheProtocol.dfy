/** Any number of calls on the read cache at once, one critical section or database call at a time. */
module CacheProtocol {
  import opened GoBytes
  import opened Database
  import opened ReadCache

  datatype Call =
    | GetCall(k: Key)
    | SetCall(k: Key, value: Option<Bytes>)
    | RemCall(k: Key)
    | ListCall(xPath: string)
    | ClearCall(xPath: string)

  /** Where a call stands:
      Begun          about to enter its first section
      Missed         not found in the cache, about to ask the database
      HoldingData    about to put what the database answered into the data cache
      HoldingNames   the same for a list of names
      Unlisting      about to forget the list of names, its first section done
      Finishing      about to make its last step: the database call of a Set or Rem, the purge of the
                     data cache of a Clear
      Done */
  datatype Phase =
    Begun | Missed | HoldingData(data: Option<Bytes>) | HoldingNames(names: Option<seq<string>>)
    | Unlisting | Finishing | Done

  datatype Running = Running(call: Call, phase: Phase)

  datatype System = System(w: World, calls: seq<Running>)

  /** A step of call `i`; `names` is the order in which the database lists, should it be asked. */
  datatype Event = Begin(call: Call) | Step(i: nat, names: Option<seq<string>>)

  /** One section of a call over a plain store. */
  ghost function Section(w: World, r: Running, names: Option<seq<string>>): (World, Phase) {
    match r.call
    case GetCall(k) =>
      (match r.phase
       case Begun => (w, if k in w.data then Done else Missed)
       case Missed => (w, HoldingData(Lookup(w.table, k)))
       case HoldingData(data) => (w.(data := w.data[k := data]), Done)
       case _ => (w, r.phase))
    case ListCall(x) =>
      (match r.phase
       case Begun => (w, if x in w.lists then Done else Missed)
       case Missed => (w, if IsListing(names, w.table, x) then HoldingNames(names) else Missed)
       case HoldingNames(held) => (w.(lists := w.lists[x := held]), Done)
       case _ => (w, r.phase))
    case SetCall(k, v) =>
      (match r.phase
       case Begun => (w.(data := w.data[k := v]), Unlisting)
       case Unlisting => (w.(lists := w.lists - {k.xPath}), Finishing)
       case Finishing => (w.(table := Updated(w.table, k, v)), Done)
       case _ => (w, r.phase))
    case RemCall(k) =>
      (match r.phase
       case Begun => (w.(data := w.data - {k}), Unlisting)
       case Unlisting => (w.(lists := w.lists - {k.xPath}), Finishing)
       case Finishing => (w.(table := Updated(w.table, k, None)), Done)
       case _ => (w, r.phase))
    case ClearCall(x) =>
      (match r.phase
       case Begun => (w.(table := Cleared(w.table, x)), Unlisting)
       case Unlisting => (w.(lists := w.lists - {x}), Finishing)
       case Finishing => (w.(data := map k | k in w.data && k.xPath != x :: w.data[k]), Done)
       case _ => (w, r.phase))
  }

  /** What a writer does to the table. */
  function Changed(writer: Call, t: Table): Table {
    match writer
    case SetCall(k, v) => Updated(t, k, v)
    case RemCall(k) => Updated(t, k, None)
    case ClearCall(x) => Cleared(t, x)
    case _ => t
  }

  ghost function Next(s: System, e: Event): System {
    match e
    case Begin(call) => s.(calls := s.calls + [Running(call, Begun)])
    case Step(i, names) =>
      if i >= |s.calls| then s
      else
        var (w, phase) := Section(s.w, s.calls[i], names);
        System(w, s.calls[i := s.calls[i].(phase := phase)])
  }

  ghost function After(s: System, run: seq<Event>): System
    decreases |run|
  {
    if run == [] then s else After(Next(s, run[0]), run[1..])
  }

  /** An empty cache in front of a table. */
  function Start(t: Table): System {
    System(World(t, map[], map[]), [])
  }

  /** The call as one step. */
  function Whole(w: World, call: Call, names: Option<seq<string>>): World {
    match call
    case GetCall(k) => AfterGet(w, k)
    case SetCall(k, v) => AfterSet((o, kept) => kept, w, k, v)
    case RemCall(k) => AfterRem(w, k)
    case ListCall(x) => AfterList(w, x, names)
    case ClearCall(x) => AfterClear(w, x)
  }

  /** A call that nothing interrupts does in its sections what the whole call does. */
  lemma AloneIsWhole(w: World, call: Call, names: Option<seq<string>>)
    requires call.ListCall? ==> ListAnswer(w, call.xPath, names)
    ensures var e := Step(0, names);
            Next(Next(Next(System(w, [Running(call, Begun)]), e), e), e)
            == System(Whole(w, call, names), [Running(call, Done)])
  {
    match call
    case GetCall(_) =>
    case ListCall(x) => assert x in w.lists ==> w.lists[x := names] == w.lists;
    case _ => AloneWrites(w, call, names);
  }

  lemma AloneWrites(w: World, call: Call, names: Option<seq<string>>)
    requires !call.GetCall? && !call.ListCall?
    ensures var e := Step(0, names);
            Next(Next(Next(System(w, [Running(call, Begun)]), e), e), e)
            == System(Whole(w, call, names), [Running(call, Done)])
  {
  }

  /** The order of the sections of a write: a Set shows in the cache before it is stored, a Rem is gone
      from the cache first, a Clear from the database. */
  lemma SectionsInOrder(w: World, k: Key, v: Option<Bytes>, names: Option<seq<string>>)
    ensures var (u, p) := Section(w, Running(SetCall(k, v), Begun), names);
            u.table == w.table && u.lists == w.lists && k in u.data && u.data[k] == v && p == Unlisting
    ensures var (u, p) := Section(w, Running(RemCall(k), Begun), names);
            u.table == w.table && u.lists == w.lists && k !in u.data && p == Unlisting
    ensures var (u, p) := Section(w, Running(ClearCall(k.xPath), Begun), names);
            Lookup(u.table, k) == None && u.lists == w.lists && u.data == w.data && p == Unlisting
    ensures var (u, p) := Section(w, Running(SetCall(k, v), Unlisting), names);
            u.table == w.table && u.data == w.data && k.xPath !in u.lists && p == Finishing
    ensures var (u, p) := Section(w, Running(SetCall(k, v), Finishing), names);
            Lookup(u.table, k) == v && u.data == w.data && u.lists == w.lists && p == Done
  {
  }

  // ---- which calls must not overlap -------------------------------------------------------------------------

  predicate Touches(writer: Call, k: Key) {
    match writer
    case SetCall(j, _) => j == k
    case RemCall(j) => j == k
    case ClearCall(x) => x == k.xPath
    case _ => false
  }

  predicate TouchesList(writer: Call, xPath: string) {
    match writer
    case SetCall(j, _) => j.xPath == xPath
    case RemCall(j) => j.xPath == xPath
    case ClearCall(x) => x == xPath
    case _ => false
  }

  predicate Clash(a: Call, b: Call) {
    match a
    case GetCall(k) => Touches(b, k)
    case ListCall(x) => TouchesList(b, x)
    case SetCall(k, v) => (b.SetCall? && b.k == k && b.value != v) || (b.RemCall? && b.k == k && v.Some?)
    case _ => false
  }

  /** A read and a write of the same thing, or two writes of one key with different outcomes. */
  predicate Conflict(a: Call, b: Call) {
    Clash(a, b) || Clash(b, a)
  }

  /** Which call may begin while which other is running. */
  type Discipline = (Call, Call) -> bool

  predicate MayBegin(d: Discipline, s: System, e: Event) {
    e.Begin? ==> forall i :: 0 <= i < |s.calls| && s.calls[i].phase != Done ==> d(s.calls[i].call, e.call)
  }

  ghost predicate Respects(d: Discipline, s: System, run: seq<Event>)
    decreases |run|
  {
    run == [] || (MayBegin(d, s, run[0]) && Respects(d, Next(s, run[0]), run[1..]))
  }

  /** No call is running. */
  predicate Quiet(s: System) {
    forall i :: 0 <= i < |s.calls| ==> s.calls[i].phase == Done
  }

  ghost predicate ForbidsConflicts(d: Discipline) {
    forall a, b :: Conflict(a, b) ==> !d(a, b)
  }

  // ---- the invariant ---------------------------------------------------------------------------------------------

  predicate Peaceful(s: System) {
    forall i, j :: 0 <= i < |s.calls| && 0 <= j < |s.calls| && i != j
                   && s.calls[i].phase != Done && s.calls[j].phase != Done ==>
                     !Conflict(s.calls[i].call, s.calls[j].call)
  }

  /** The running call has made its first step but not its last. */
  predicate Halfway(r: Running) {
    r.phase == Unlisting || r.phase == Finishing
  }

  /** A running Set or Clear is about to make up for an entry that differs from the database. */
  predicate Excuses(r: Running, k: Key, v: Option<Bytes>) {
    Halfway(r) && (r.call == SetCall(k, v) || r.call == ClearCall(k.xPath))
  }

  predicate Excused(s: System, k: Key, v: Option<Bytes>) {
    exists i :: 0 <= i < |s.calls| && Excuses(s.calls[i], k, v)
  }

  predicate ExcusedList(s: System, x: string) {
    exists i :: 0 <= i < |s.calls| && s.calls[i] == Running(ClearCall(x), Unlisting)
  }

  /** What one running call relies on. */
  ghost predicate Reliant(w: World, r: Running) {
    match r.call
    case GetCall(k) => r.phase.HoldingData? ==> r.phase.data == Lookup(w.table, k)
    case ListCall(x) => r.phase.HoldingNames? ==> IsListing(r.phase.names, w.table, x)
    case SetCall(k, v) =>
      && (Halfway(r) && k in w.data ==> w.data[k] == v)
      && (r.phase == Finishing ==> k.xPath !in w.lists)
    case RemCall(k) =>
      && (Halfway(r) && k in w.data ==> w.data[k] == None)
      && (r.phase == Finishing ==> k.xPath !in w.lists)
    case _ => true
  }

  ghost predicate DataTold(s: System) {
    forall k :: k in s.w.data ==> s.w.data[k] == Lookup(s.w.table, k) || Excused(s, k, s.w.data[k])
  }

  ghost predicate ListsTold(s: System) {
    forall x :: x in s.w.lists ==> IsListing(s.w.lists[x], s.w.table, x) || ExcusedList(s, x)
  }

  ghost predicate Inv(s: System) {
    && Peaceful(s) && DataTold(s) && ListsTold(s)
    && forall i :: 0 <= i < |s.calls| ==> Reliant(s.w, s.calls[i])
  }

  lemma BeginKeepsInv(d: Discipline, s: System, call: Call)
    requires Inv(s) && ForbidsConflicts(d) && MayBegin(d, s, Begin(call))
    ensures Inv(Next(s, Begin(call)))
  {
    var t, n := Next(s, Begin(call)), |s.calls|;
    assert forall i :: 0 <= i < n ==> t.calls[i] == s.calls[i];
    forall k | k in t.w.data ensures t.w.data[k] == Lookup(t.w.table, k) || Excused(t, k, t.w.data[k]) {
      if Excused(s, k, s.w.data[k]) {
        var i :| 0 <= i < n && Excuses(s.calls[i], k, s.w.data[k]);
        assert Excuses(t.calls[i], k, t.w.data[k]);
      }
    }
    forall x | x in t.w.lists ensures IsListing(t.w.lists[x], t.w.table, x) || ExcusedList(t, x) {
      if ExcusedList(s, x) {
        var i :| 0 <= i < n && s.calls[i] == Running(ClearCall(x), Unlisting);
        assert t.calls[i] == Running(ClearCall(x), Unlisting);
      }
    }
  }

  /** An excuse given by another call than the one that moves stands. */
  lemma ExcuseStands(s: System, i: nat, r: Running, w: World, k: Key, v: Option<Bytes>)
    requires i < |s.calls| && Excused(s, k, v)
    ensures Excused(System(w, s.calls[i := r]), k, v) || Excuses(s.calls[i], k, v)
  {
    var t := System(w, s.calls[i := r]);
    var j :| 0 <= j < |s.calls| && Excuses(s.calls[j], k, v);
    if j != i {
      assert Excuses(t.calls[j], k, v);
    }
  }

  lemma ListExcuseStands(s: System, i: nat, r: Running, w: World, x: string)
    requires i < |s.calls| && ExcusedList(s, x)
    ensures ExcusedList(System(w, s.calls[i := r]), x) || s.calls[i] == Running(ClearCall(x), Unlisting)
  {
    var t := System(w, s.calls[i := r]);
    var j :| 0 <= j < |s.calls| && s.calls[j] == Running(ClearCall(x), Unlisting);
    if j != i {
      assert t.calls[j] == Running(ClearCall(x), Unlisting);
    }
  }

  lemma StepKeepsPeace(s: System, i: nat, phase: Phase, w: World)
    requires Peaceful(s) && i < |s.calls| && s.calls[i].phase != Done
    ensures Peaceful(System(w, s.calls[i := s.calls[i].(phase := phase)]))
  {
  }

  /** Every section keeps what the other running calls rely on. */
  lemma StepKeepsOthers(s: System, i: nat, names: Option<seq<string>>, j: nat)
    requires Inv(s) && i < |s.calls| && j < |s.calls| && i != j && s.calls[i].phase != Done
    ensures s.calls[j].phase != Done ==> Reliant(Section(s.w, s.calls[i], names).0, s.calls[j])
  {
    var r, q := s.calls[i], s.calls[j];
    var w := Section(s.w, r, names).0;
    if q.phase != Done {
      assert !Conflict(r.call, q.call);
      assert Reliant(s.w, r) && Reliant(s.w, q);
      if q.call.ListCall? && q.phase.HoldingNames? {
        NamesKept(s.w, r, names, q.call.xPath);
      }
    }
  }

  lemma SectionTable(w: World, r: Running, names: Option<seq<string>>)
    ensures var t := Section(w, r, names).0.table; t == w.table || t == Changed(r.call, w.table)
  {
  }

  lemma NamesKept(w: World, r: Running, names: Option<seq<string>>, x: string)
    requires !TouchesList(r.call, x)
    ensures Names(Section(w, r, names).0.table, x) == Names(w.table, x)
  {
    SectionTable(w, r, names);
    match r.call
    case SetCall(k, v) => NamesUpdated(w.table, k, v, x);
    case RemCall(k) => NamesUpdated(w.table, k, None, x);
    case ClearCall(y) => NamesCleared(w.table, y, x);
    case _ =>
  }

  lemma StepKeepsOwn(s: System, i: nat, names: Option<seq<string>>)
    requires Inv(s) && i < |s.calls| && s.calls[i].phase != Done
    ensures var (w, phase) := Section(s.w, s.calls[i], names); Reliant(w, s.calls[i].(phase := phase))
  {
    assert Reliant(s.w, s.calls[i]);
  }

  lemma StepKeepsEntry(s: System, i: nat, names: Option<seq<string>>, k: Key)
    requires Inv(s) && i < |s.calls| && s.calls[i].phase != Done
    ensures var t := Next(s, Step(i, names));
            k in t.w.data ==> t.w.data[k] == Lookup(t.w.table, k) || Excused(t, k, t.w.data[k])
  {
    var r := s.calls[i];
    var (w, phase) := Section(s.w, r, names);
    var t := Next(s, Step(i, names));
    assert Reliant(s.w, r);
    if k in w.data {
      if Excuses(t.calls[i], k, w.data[k]) {
        assert Excused(t, k, w.data[k]);
      } else if k in s.w.data && s.w.data[k] == w.data[k] && Excused(s, k, w.data[k]) {
        ExcuseStands(s, i, t.calls[i], w, k, w.data[k]);
      }
    }
  }

  lemma StepKeepsData(s: System, i: nat, names: Option<seq<string>>)
    requires Inv(s) && i < |s.calls| && s.calls[i].phase != Done
    ensures DataTold(Next(s, Step(i, names)))
  {
    var t := Next(s, Step(i, names));
    forall k | k in t.w.data ensures t.w.data[k] == Lookup(t.w.table, k) || Excused(t, k, t.w.data[k]) {
      StepKeepsEntry(s, i, names, k);
    }
  }

  lemma StepKeepsLists(s: System, i: nat, names: Option<seq<string>>)
    requires Inv(s) && i < |s.calls| && s.calls[i].phase != Done
    ensures ListsTold(Next(s, Step(i, names)))
  {
    var r := s.calls[i];
    var (w, phase) := Section(s.w, r, names);
    var t := Next(s, Step(i, names));
    assert Reliant(s.w, r);
    forall x | x in w.lists ensures IsListing(w.lists[x], w.table, x) || ExcusedList(t, x) {
      if t.calls[i] == Running(ClearCall(x), Unlisting) {
        assert ExcusedList(t, x);
      } else if x in s.w.lists && s.w.lists[x] == w.lists[x] {
        if ExcusedList(s, x) {
          ListExcuseStands(s, i, t.calls[i], w, x);
        } else if !TouchesList(r.call, x) {
          NamesKept(s.w, r, names, x);
        }
      }
    }
  }

  lemma StepKeepsInv(d: Discipline, s: System, e: Event)
    requires Inv(s) && ForbidsConflicts(d) && MayBegin(d, s, e)
    ensures Inv(Next(s, e))
  {
    match e
    case Begin(call) => BeginKeepsInv(d, s, call);
    case Step(i, names) =>
      if i < |s.calls| {
        var r := s.calls[i];
        var (w, phase) := Section(s.w, r, names);
        if r.phase == Done {
          assert s.calls[i := r.(phase := phase)] == s.calls;
        } else {
          StepKeepsPeace(s, i, phase, w);
          StepKeepsData(s, i, names);
          StepKeepsLists(s, i, names);
          var t := Next(s, e);
          forall j | 0 <= j < |t.calls| ensures Reliant(t.w, t.calls[j]) {
            if j == i {
              StepKeepsOwn(s, i, names);
            } else {
              StepKeepsOthers(s, i, names, j);
            }
          }
        }
      }
  }

  /** Where conflicting calls do not overlap, every interleaving of the sections of the others keeps
      the cache true, up to what running calls are about to make up for. */
  lemma {:induction false} RunKeepsInv(d: Discipline, s: System, run: seq<Event>)
    requires Inv(s) && ForbidsConflicts(d) && Respects(d, s, run)
    ensures Inv(After(s, run))
    decreases |run|
  {
    if run != [] {
      StepKeepsInv(d, s, run[0]);
      RunKeepsInv(d, Next(s, run[0]), run[1..]);
    }
  }

  /** Once no call runs, the cache is coherent again. */
  lemma QuietIsCoherent(s: System)
    requires Inv(s) && Quiet(s)
    ensures Coherent(s.w)
  {
    forall k | k in s.w.data ensures s.w.data[k] == Lookup(s.w.table, k) {
      assert !Excused(s, k, s.w.data[k]);
    }
    forall x | x in s.w.lists ensures IsListing(s.w.lists[x], s.w.table, x) {
      assert !ExcusedList(s, x);
    }
  }

  /** What a Get is about to answer: the cached entry, or what it holds. */
  function Answer(w: World, r: Running): Option<Option<Bytes>> {
    match r.call
    case GetCall(k) =>
      if r.phase == Begun && k in w.data then Some(w.data[k])
      else if r.phase.HoldingData? then Some(r.phase.data)
      else None
    case _ => None
  }

  /** The list of names that a List is about to answer. */
  function ListAnswered(w: World, r: Running): Option<Option<seq<string>>> {
    match r.call
    case ListCall(x) =>
      if r.phase == Begun && x in w.lists then Some(w.lists[x])
      else if r.phase.HoldingNames? then Some(r.phase.names)
      else None
    case _ => None
  }

  /** Under such a discipline every answer is, when it is given, what the database holds then. */
  lemma AnswersAreCurrent(d: Discipline, t: Table, run: seq<Event>, i: nat)
    requires ForbidsConflicts(d) && Respects(d, Start(t), run) && i < |After(Start(t), run).calls|
    ensures var s := After(Start(t), run);
            var r := s.calls[i];
            && (Answer(s.w, r).Some? ==> Answer(s.w, r).value == Lookup(s.w.table, r.call.k))
            && (ListAnswered(s.w, r).Some? ==> IsListing(ListAnswered(s.w, r).value, s.w.table, r.call.xPath))
  {
    RunKeepsInv(d, Start(t), run);
    var s := After(Start(t), run);
    var r := s.calls[i];
    assert Reliant(s.w, r);
    if r.call.GetCall? && r.phase == Begun && r.call.k in s.w.data {
      NoExcuse(s, i, r.call.k, s.w.data[r.call.k]);
    }
    if r.call.ListCall? && r.phase == Begun && r.call.xPath in s.w.lists {
      NoListExcuse(s, i, r.call.xPath);
    }
  }

  lemma NoExcuse(s: System, i: nat, k: Key, v: Option<Bytes>)
    requires Peaceful(s) && i < |s.calls| && s.calls[i] == Running(GetCall(k), Begun)
    ensures !Excused(s, k, v)
  {
    forall j | 0 <= j < |s.calls| ensures !Excuses(s.calls[j], k, v) {
      if j != i && s.calls[j].phase != Done {
        assert !Conflict(s.calls[i].call, s.calls[j].call);
      }
    }
  }

  lemma NoListExcuse(s: System, i: nat, x: string)
    requires Peaceful(s) && i < |s.calls| && s.calls[i] == Running(ListCall(x), Begun)
    ensures !ExcusedList(s, x)
  {
    forall j | 0 <= j < |s.calls| ensures s.calls[j] != Running(ClearCall(x), Unlisting) {
      if j != i && s.calls[j].phase != Done {
        assert !Conflict(s.calls[i].call, s.calls[j].call);
      }
    }
  }

  // ---- every conflict can be realised -------------------------------------------------------------------------

  /** All runs that keep to the discipline end with a coherent cache whenever no call runs. */
  ghost predicate KeepsCoherence(d: Discipline) {
    forall t, run {:trigger After(Start(t), run)} ::
      Respects(d, Start(t), run) && Quiet(After(Start(t), run)) ==> Coherent(After(Start(t), run).w)
  }

  /** Two calls that have both begun. */
  function Both(t: Table, a: Call, b: Call): System {
    System(World(t, map[], map[]), [Running(a, Begun), Running(b, Begun)])
  }

  lemma {:induction false} StepsRespect(d: Discipline, s: System, run: seq<Event>)
    requires forall n :: 0 <= n < |run| ==> run[n].Step?
    ensures Respects(d, s, run)
    decreases |run|
  {
    if run != [] {
      StepsRespect(d, Next(s, run[0]), run[1..]);
    }
  }

  /** A run of two calls that leaves the cache incoherent breaks a discipline that lets them overlap. */
  lemma Breaks(d: Discipline, t: Table, a: Call, b: Call, steps: seq<Event>)
    requires d(a, b) && forall n :: 0 <= n < |steps| ==> steps[n].Step?
    requires Quiet(After(Both(t, a, b), steps)) && !Coherent(After(Both(t, a, b), steps).w)
    ensures !KeepsCoherence(d)
  {
    BothBegin(d, t, a, b, steps);
    Refutes(d, t, [Begin(a), Begin(b)] + steps);
  }

  lemma Refutes(d: Discipline, t: Table, run: seq<Event>)
    requires Respects(d, Start(t), run) && Quiet(After(Start(t), run)) && !Coherent(After(Start(t), run).w)
    ensures !KeepsCoherence(d)
  {
  }

  lemma OneEvent(d: Discipline, s: System, e: Event, rest: seq<Event>)
    ensures After(s, [e] + rest) == After(Next(s, e), rest)
    ensures Respects(d, s, [e] + rest) <==> MayBegin(d, s, e) && Respects(d, Next(s, e), rest)
  {
    assert ([e] + rest)[1..] == rest;
  }

  lemma BothBegin(d: Discipline, t: Table, a: Call, b: Call, steps: seq<Event>)
    requires d(a, b) && forall n :: 0 <= n < |steps| ==> steps[n].Step?
    ensures After(Start(t), [Begin(a), Begin(b)] + steps) == After(Both(t, a, b), steps)
    ensures Respects(d, Start(t), [Begin(a), Begin(b)] + steps)
  {
    TwoEvents(d, Start(t), Begin(a), Begin(b), steps);
    BothBegun(d, t, a, b);
    StepsRespect(d, Both(t, a, b), steps);
  }

  lemma TwoEvents(d: Discipline, s: System, e: Event, f: Event, rest: seq<Event>)
    ensures After(s, [e, f] + rest) == After(Next(Next(s, e), f), rest)
    ensures Respects(d, s, [e, f] + rest)
            <==> MayBegin(d, s, e) && MayBegin(d, Next(s, e), f) && Respects(d, Next(Next(s, e), f), rest)
  {
    assert [e, f] + rest == [e] + ([f] + rest);
    OneEvent(d, s, e, [f] + rest);
    OneEvent(d, Next(s, e), f, rest);
  }

  lemma BothBegun(d: Discipline, t: Table, a: Call, b: Call)
    requires d(a, b)
    ensures var s1 := Next(Start(t), Begin(a));
            && MayBegin(d, Start(t), Begin(a)) && MayBegin(d, s1, Begin(b))
            && Next(s1, Begin(b)) == Both(t, a, b)
  {
  }

  /** Steps of two calls: which of them moves. */
  function Moves(order: seq<nat>, names: Option<seq<string>>): (run: seq<Event>)
    ensures |run| == |order| && forall n :: 0 <= n < |run| ==> run[n] == Step(order[n], names)
  {
    seq(|order|, n requires 0 <= n < |order| => Step(order[n], names))
  }

  lemma SixMoves(s: System, o: seq<nat>, names: Option<seq<string>>)
    requires |o| == 6
    ensures After(s, Moves(o, names)) ==
            Next(Next(Next(Next(Next(Next(s, Step(o[0], names)), Step(o[1], names)), Step(o[2], names)),
                           Step(o[3], names)), Step(o[4], names)), Step(o[5], names))
  {
    var s1 := Next(s, Step(o[0], names));
    var s2 := Next(s1, Step(o[1], names));
    var s3 := Next(s2, Step(o[2], names));
    MovesTail(s, o, names);
    MovesTail(s1, o[1..], names);
    MovesTail(s2, o[2..], names);
    MovesTail(s3, o[3..], names);
    assert o[1..][1..] == o[2..] && o[2..][1..] == o[3..] && o[3..][1..] == o[4..] && o[4..][1..] == o[5..];
    var s4 := Next(s3, Step(o[3], names));
    MovesTail(s4, o[4..], names);
    var s5 := Next(s4, Step(o[4], names));
    MovesTail(s5, o[5..], names);
    assert o[5..][1..] == [];
  }

  lemma MovesTail(s: System, o: seq<nat>, names: Option<seq<string>>)
    requires o != []
    ensures After(s, Moves(o, names)) == After(Next(s, Step(o[0], names)), Moves(o[1..], names))
  {
    assert Moves(o, names)[1..] == Moves(o[1..], names);
  }

  /** A table in which the call changes what is read: without the entry that it writes, or with an entry
      that it takes away. */
  function Before(writer: Call, k: Key): Table {
    if writer.SetCall? && writer.value.Some? then map[] else map[k := []]
  }

  lemma WriterAtOnce(s: System, j: nat, names: Option<seq<string>>)
    requires j < |s.calls| && s.calls[j].phase == Begun
    requires s.calls[j].call.SetCall? || s.calls[j].call.RemCall? || s.calls[j].call.ClearCall?
    ensures var e := Step(j, names);
            var u := Next(Next(Next(s, e), e), e);
            && u.w.table == Changed(s.calls[j].call, s.w.table)
            && u.calls == s.calls[j := s.calls[j].(phase := Done)]
  {
  }

  lemma GetReads(s: System, i: nat, k: Key, names: Option<seq<string>>)
    requires i < |s.calls| && s.calls[i] == Running(GetCall(k), Begun) && k !in s.w.data
    ensures var e := Step(i, names);
            Next(Next(s, e), e) ==
            System(s.w, s.calls[i := Running(GetCall(k), HoldingData(Lookup(s.w.table, k)))])
  {
  }

  lemma ListReads(s: System, i: nat, x: string, names: Option<seq<string>>)
    requires i < |s.calls| && s.calls[i] == Running(ListCall(x), Begun) && x !in s.w.lists
    requires IsListing(names, s.w.table, x)
    ensures var e := Step(i, names);
            Next(Next(s, e), e) == System(s.w, s.calls[i := Running(ListCall(x), HoldingNames(names))])
  {
  }

  /** A read overtaken by a write: it looks, asks the database, and stores what it got after the whole
      write. `i` is the reader's number, `j` the writer's. */
  lemma OvertakenRead(k: Key, s: System, i: nat, j: nat, writer: Call)
    requires Touches(writer, k) && {i, j} == {0, 1}
    requires s.w == World(Before(writer, k), map[], map[]) && |s.calls| == 2
    requires s.calls[i] == Running(GetCall(k), Begun) && s.calls[j] == Running(writer, Begun)
    ensures var u := After(s, Moves([i, i, j, j, j, i], None)); Quiet(u) && !Coherent(u.w)
  {
    SixMoves(s, [i, i, j, j, j, i], None);
    OvertakenSteps(k, s, i, j, writer);
  }

  lemma OvertakenSteps(k: Key, s: System, i: nat, j: nat, writer: Call)
    requires Touches(writer, k) && {i, j} == {0, 1}
    requires s.w == World(Before(writer, k), map[], map[]) && |s.calls| == 2
    requires s.calls[i] == Running(GetCall(k), Begun) && s.calls[j] == Running(writer, Begun)
    ensures var e, f := Step(i, None), Step(j, None);
            var u := Next(Next(Next(Next(Next(Next(s, e), e), f), f), f), e);
            Quiet(u) && !Coherent(u.w)
  {
    var e, f := Step(i, None), Step(j, None);
    GetReads(s, i, k, None);
    var s2 := Next(Next(s, e), e);
    WriterAtOnce(s2, j, None);
    Overtaken(k, Next(Next(Next(s2, f), f), f), i, writer);
  }

  lemma Overtaken(k: Key, s: System, i: nat, writer: Call)
    requires Touches(writer, k) && i < |s.calls| == 2 && s.calls[1 - i].phase == Done
    requires s.calls[i] == Running(GetCall(k), HoldingData(Lookup(Before(writer, k), k)))
    requires s.w.table == Changed(writer, Before(writer, k))
    ensures var u := Next(s, Step(i, None)); Quiet(u) && !Coherent(u.w)
  {
    var u := Next(s, Step(i, None));
    assert k in u.w.data && u.w.data[k] == Lookup(Before(writer, k), k);
    assert Lookup(u.w.table, k) != Lookup(Before(writer, k), k);
  }

  /** The entry whose coming or going shows in a list of names. */
  function Shown(writer: Call, x: string): Key {
    if writer.SetCall? || writer.RemCall? then writer.k else Key(x, "")
  }

  /** What the database lists before the writer comes. */
  function Listed(writer: Call, x: string): Option<seq<string>> {
    var k := Shown(writer, x);
    if k in Before(writer, k) then Some([k.name]) else None
  }

  lemma ListedIsListing(writer: Call, x: string)
    requires TouchesList(writer, x)
    ensures IsListing(Listed(writer, x), Before(writer, Shown(writer, x)), x)
    ensures !IsListing(Listed(writer, x), Changed(writer, Before(writer, Shown(writer, x))), x)
  {
    var k := Shown(writer, x);
    var t := Before(writer, k);
    NameMember(t, k);
    NameMember(Changed(writer, t), k);
    assert k in Changed(writer, t) <==> k !in t;
  }

  lemma OvertakenList(x: string, s: System, i: nat, j: nat, writer: Call)
    requires TouchesList(writer, x) && {i, j} == {0, 1}
    requires s.w == World(Before(writer, Shown(writer, x)), map[], map[]) && |s.calls| == 2
    requires s.calls[i] == Running(ListCall(x), Begun) && s.calls[j] == Running(writer, Begun)
    ensures var u := After(s, Moves([i, i, j, j, j, i], Listed(writer, x))); Quiet(u) && !Coherent(u.w)
  {
    var names := Listed(writer, x);
    ListedIsListing(writer, x);
    SixMoves(s, [i, i, j, j, j, i], names);
    ListReads(s, i, x, names);
    var s2 := Next(Next(s, Step(i, names)), Step(i, names));
    WriterAtOnce(s2, j, names);
    var s5 := Next(Next(Next(s2, Step(j, names)), Step(j, names)), Step(j, names));
    OvertakenNames(x, s5, i, names);
  }

  lemma OvertakenNames(x: string, s: System, i: nat, names: Option<seq<string>>)
    requires i < |s.calls| == 2 && s.calls[1 - i].phase == Done
    requires s.calls[i] == Running(ListCall(x), HoldingNames(names)) && !IsListing(names, s.w.table, x)
    ensures var u := Next(s, Step(i, names)); Quiet(u) && !Coherent(u.w)
  {
    var u := Next(s, Step(i, names));
    assert x in u.w.lists && u.w.lists[x] == names;
  }

  /** What a Set does in its three sections, if nothing comes between. */
  lemma SetAtOnce(s: System, j: nat, k: Key, v: Option<Bytes>)
    requires j < |s.calls| && s.calls[j] == Running(SetCall(k, v), Begun)
    ensures var e := Step(j, None);
            Next(Next(Next(s, e), e), e) ==
            System(World(Updated(s.w.table, k, v), s.w.data[k := v], s.w.lists - {k.xPath}),
                   s.calls[j := Running(SetCall(k, v), Done)])
  {
  }

  /** What is left of a write of a key once its first section is over. */
  lemma WriteCatchesUp(s: System, i: nat, k: Key, v: Option<Bytes>)
    requires i < |s.calls| && s.calls[i].phase == Unlisting
    requires s.calls[i].call == SetCall(k, v) || (s.calls[i].call == RemCall(k) && v == None)
    ensures var e := Step(i, None);
            Next(Next(s, e), e) ==
            System(World(Updated(s.w.table, k, v), s.w.data, s.w.lists - {k.xPath}),
                   s.calls[i := s.calls[i].(phase := Done)])
  {
  }

  /** A write of a key that is overtaken, after its first section, by a whole Set of the key: the cache
      keeps the later value and the database the earlier one. */
  lemma CrossedWrites(k: Key, s: System, i: nat, j: nat, first: Call, v: Option<Bytes>, w: Option<Bytes>)
    requires v != w && {i, j} == {0, 1}
    requires s.w == World(map[], map[], map[]) && |s.calls| == 2
    requires first == SetCall(k, v) || (first == RemCall(k) && v == None)
    requires s.calls[i] == Running(first, Begun) && s.calls[j] == Running(SetCall(k, w), Begun)
    ensures var u := After(s, Moves([i, j, j, j, i, i], None)); Quiet(u) && !Coherent(u.w)
  {
    SixMoves(s, [i, j, j, j, i, i], None);
    CrossedSteps(k, s, i, j, first, v, w);
  }

  lemma CrossedSteps(k: Key, s: System, i: nat, j: nat, first: Call, v: Option<Bytes>, w: Option<Bytes>)
    requires v != w && {i, j} == {0, 1} && |s.calls| == 2
    requires first == SetCall(k, v) || (first == RemCall(k) && v == None)
    requires s.calls[i] == Running(first, Begun) && s.calls[j] == Running(SetCall(k, w), Begun)
    ensures var e, f := Step(i, None), Step(j, None);
            var u := Next(Next(Next(Next(Next(Next(s, e), f), f), f), e), e);
            Quiet(u) && !Coherent(u.w)
  {
    var e, f := Step(i, None), Step(j, None);
    var s1 := Next(s, e);
    SetAtOnce(s1, j, k, w);
    var s4 := Next(Next(Next(s1, f), f), f);
    WriteCatchesUp(s4, i, k, v);
    LookupUpdated(s4.w.table, k, v, k);
    Differs(Next(Next(s4, e), e), k, w, v);
  }

  lemma Differs(u: System, k: Key, cached: Option<Bytes>, stored: Option<Bytes>)
    requires k in u.w.data && u.w.data[k] == cached && Lookup(u.w.table, k) == stored != cached
    ensures !Coherent(u.w)
  {
  }

  /** Whichever of two clashing calls begins first, some interleaving of the two ends incoherent. */
  lemma ClashBreaks(d: Discipline, a: Call, b: Call, first: bool)
    requires Clash(a, b) && if first then d(a, b) else d(b, a)
    ensures !KeepsCoherence(d)
  {
    var i, j := if first then 0 else 1, if first then 1 else 0;
    var p, q := if first then a else b, if first then b else a;
    match a
    case GetCall(k) =>
      var t := Before(b, k);
      OvertakenRead(k, Both(t, p, q), i, j, b);
      Breaks(d, t, p, q, Moves([i, i, j, j, j, i], None));
    case ListCall(x) =>
      var t := Before(b, Shown(b, x));
      OvertakenList(x, Both(t, p, q), i, j, b);
      Breaks(d, t, p, q, Moves([i, i, j, j, j, i], Listed(b, x)));
    case SetCall(k, v) =>
      if b.SetCall? {
        CrossedWrites(k, Both(map[], p, q), i, j, a, v, b.value);
        Breaks(d, map[], p, q, Moves([i, j, j, j, i, i], None));
      } else {
        CrossedWrites(k, Both(map[], p, q), j, i, b, None, v);
        Breaks(d, map[], p, q, Moves([j, i, i, i, j, j], None));
      }
  }

  /** The exact rule for calls that overlap: a discipline keeps the cache coherent on every run exactly
      when it forbids every conflict. Reads may overlap reads, and a Clear, a Rem or a Set of another
      key may overlap any write. */
  lemma CoherentIffConflictsForbidden(d: Discipline)
    ensures KeepsCoherence(d) <==> ForbidsConflicts(d)
  {
    if ForbidsConflicts(d) {
      forall t, run {:trigger After(Start(t), run)} | Respects(d, Start(t), run) && Quiet(After(Start(t), run))
        ensures Coherent(After(Start(t), run).w)
      {
        RunKeepsInv(d, Start(t), run);
        QuietIsCoherent(After(Start(t), run));
      }
    } else {
      var a, b :| Conflict(a, b) && d(a, b);
      if Clash(a, b) {
        ClashBreaks(d, a, b, true);
      } else {
        ClashBreaks(d, b, a, false);
      }
    }
  }
}
