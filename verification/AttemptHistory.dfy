/** What happened in a run of an attempt, told by its events: which steps were granted a slot, how they returned, and
    what the state has to do with it. */
module AttemptHistory {
  import opened Versions
  import opened Driver
  import opened Attempt
  import Q = StepQueue

  ghost predicate StepsAt(c: Config, trace: seq<State>, events: seq<Event>, k: nat)
    requires |c.prev| == |c.paths|
  {
    k < |events| && k + 1 < |trace| && |trace[k].fss| == |c.paths| && Transition(c, trace[k], events[k], trace[k + 1])
  }

  /** A run together with the events that make it. */
  ghost predicate EventRun(c: Config, trace: seq<State>, events: seq<Event>) {
    && c.Valid() && |trace| == |events| + 1 && Init(c, trace[0])
    && (forall k :: 0 <= k < |trace| ==> |trace[k].fss| == |c.paths|)
    && (forall k :: 0 <= k < |events| ==> StepsAt(c, trace, events, k))
  }

  lemma EventRunIsRun(c: Config, trace: seq<State>, events: seq<Event>)
    requires EventRun(c, trace, events)
    ensures Run(c, trace)
  {
    forall k | 0 <= k < |trace| - 1 ensures MovesAt(c, trace, k) {
      assert StepsAt(c, trace, events, k);
    }
  }

  /** Every run has its events. */
  lemma {:induction false} EventsExist(c: Config, trace: seq<State>) returns (events: seq<Event>)
    requires Run(c, trace)
    ensures EventRun(c, trace, events)
    decreases |trace|
  {
    if |trace| == 1 {
      events := [];
    } else {
      var n := |trace| - 1;
      var front := trace[..n];
      forall k | 0 <= k < |front| - 1 ensures MovesAt(c, front, k) {
        assert MovesAt(c, trace, k);
      }
      var es := EventsExist(c, front);
      assert MovesAt(c, trace, n - 1);
      var e :| Transition(c, trace[n - 1], e, trace[n]);
      events := es + [e];
      forall k | 0 <= k < |events| ensures StepsAt(c, trace, events, k) {
        assert k < n - 1 ==> StepsAt(c, front, es, k);
      }
    }
  }

  // The history of one filesystem.

  /** Its steps that were granted a slot, by their place in the plan; how steps returned; the plans that returned. */
  datatype History = History(granted: seq<nat>, returned: seq<bool>, plans: seq<Option<seq<StepInfo>>>)

  function Noted(h: History, f: nat, x: Fs, e: Event): (r: History) {
    match e
    case Grant(g) => if g == f && x.pc.QueuedStep? then h.(granted := h.granted + [x.pc.i]) else h
    case ReturnStep(g, ok) => if g == f then h.(returned := h.returned + [ok]) else h
    case ReturnPlan(g, plan) => if g == f then h.(plans := h.plans + [plan]) else h
    case _ => h
  }

  function HistoryOf(trace: seq<State>, events: seq<Event>, f: nat, n: nat): (h: History)
    requires n <= |events| && n <= |trace| && forall k :: 0 <= k < n ==> f < |trace[k].fss|
  {
    if n == 0 then History([], [], [])
    else Noted(HistoryOf(trace, events, f, n - 1), f, trace[n - 1].fss[f], events[n - 1])
  }

  predicate AllTrue(s: seq<bool>) {
    forall k :: 0 <= k < |s| ==> s[k]
  }

  /** All true but the last. */
  predicate FailsLast(s: seq<bool>) {
    s != [] && AllTrue(s[..|s| - 1]) && !s[|s| - 1]
  }

  /** What the plan that returned says about the filesystem. */
  predicate PlanTold(prev: Option<seq<StepInfo>>, x: Fs, plans: seq<Option<seq<StepInfo>>>) {
    if IsUnplanned(x) then plans == if x.pc.PlanReturned? then [x.pc.plan] else []
    else
      && |plans| == 1
      && (x.planErr <==> plans[0].None? || Cut(prev, plans[0].value).None?)
      && (x.planDone <==> !x.planErr)
      && (x.planDone ==> Some(x.steps) == Cut(prev, plans[0].value))
  }

  predicate StepsTold(x: Fs, granted: seq<nat>, returned: seq<bool>) {
    match x.pc
    case AskStep(i) => |granted| == |returned| == i && AllTrue(returned)
    case QueuedStep(i) => |granted| == |returned| == i && AllTrue(returned)
    case Stepping(i) => |granted| == i + 1 && |returned| == i && AllTrue(returned)
    case StepReturned(i, ok) => |granted| == |returned| == i + 1 && AllTrue(returned[..i]) && returned[i] == ok
    case Finished =>
      && |granted| == |returned|
      && (x.planErr ==> returned == [])
      && (x.planDone && !x.stepErr ==> |returned| == |x.steps| && AllTrue(returned))
      && (x.planDone && x.stepErr ==> if returned == [] then x.step == 0 else |returned| == x.step + 1 && FailsLast(returned))
    case _ => granted == [] && returned == []
  }

  predicate Told(prev: Option<seq<StepInfo>>, x: Fs, h: History) {
    && (forall k :: 0 <= k < |h.granted| ==> h.granted[k] == k)
    && |h.granted| <= |x.steps|
    && PlanTold(prev, x, h.plans) && StepsTold(x, h.granted, h.returned)
  }

  lemma ToldStart(prev: Option<seq<StepInfo>>)
    ensures Told(prev, START, History([], [], []))
  {
  }

  /** A wakeup changes nothing that is told. */
  lemma ToldWoken(prev: Option<seq<StepInfo>>, x: Fs, h: History, b: bool)
    requires Told(prev, x, h)
    ensures Told(prev, x.(parentDidUpdate := b), h)
  {
  }

  lemma ToldGranted(prev: Option<seq<StepInfo>>, x: Fs, h: History)
    requires Told(prev, x, h) && PcOk(x) && x.pc.QueuedStep?
    ensures Told(prev, x.(pc := Stepping(x.pc.i)), h.(granted := h.granted + [x.pc.i]))
  {
  }

  lemma ToldReturned(prev: Option<seq<StepInfo>>, x: Fs, h: History, ok: bool)
    requires Told(prev, x, h) && PcOk(x) && x.pc.Stepping?
    ensures Told(prev, x.(pc := StepReturned(x.pc.i, ok)), h.(returned := h.returned + [ok]))
  {
    assert (h.returned + [ok])[..x.pc.i] == h.returned;
  }

  lemma ToldProceeds(c: Config, s: State, f: nat, h: History)
    requires c.Valid() && |s.fss| == |c.paths| && f < |s.fss| && PcOk(s.fss[f]) && Told(c.prev[f], s.fss[f], h)
    requires AfterProceed(c, s.fss, f).Some?
    ensures Told(c.prev[f], AfterProceed(c, s.fss, f).value, h)
  {
    var x := s.fss[f];
    if x.pc.StepReturned? {
      assert h.returned == h.returned[..x.pc.i] + [x.pc.ok];
    }
  }

  lemma ToldAfter(c: Config, s: State, e: Event, h: History)
    requires c.Valid() && |s.fss| == |c.paths| && !e.Cancel? && e.f < |s.fss|
    requires PcOk(s.fss[e.f]) && Told(c.prev[e.f], s.fss[e.f], h) && After(c, s, e).Some?
    ensures Told(c.prev[e.f], After(c, s, e).value, Noted(h, e.f, s.fss[e.f], e))
  {
    var x := s.fss[e.f];
    match e {
      case Grant(f) =>
        if x.pc.QueuedStep? {
          ToldGranted(c.prev[f], x, h);
        }
      case ReturnStep(f, ok) => ToldReturned(c.prev[f], x, h, ok);
      case Proceed(f) => ToldProceeds(c, s, f, h);
      case _ =>
    }
  }

  lemma ToldStep(c: Config, s: State, e: Event, s': State, f: nat, h: History)
    requires Inv(c, s) && Transition(c, s, e, s') && f < |s.fss| && Told(c.prev[f], s.fss[f], h)
    ensures Told(c.prev[f], s'.fss[f], Noted(h, f, s.fss[f], e))
  {
    assert PcOk(s.fss[f]);
    if !e.Cancel? {
      if e.f == f {
        ToldAfter(c, s, e, h);
      } else {
        ToldWoken(c.prev[f], s.fss[f], h, s'.fss[f].parentDidUpdate);
      }
    }
  }

  /** In every run, what the state says about a filesystem is what happened. */
  lemma {:induction false} ToldOnRun(c: Config, trace: seq<State>, events: seq<Event>, f: nat, n: nat)
    requires EventRun(c, trace, events) && f < |c.paths| && n <= |events|
    ensures Told(c.prev[f], trace[n].fss[f], HistoryOf(trace, events, f, n))
  {
    if n == 0 {
      ToldStart(c.prev[f]);
    } else {
      ToldOnRun(c, trace, events, f, n - 1);
      EventRunIsRun(c, trace, events);
      InvOnRun(c, trace, n - 1);
      assert StepsAt(c, trace, events, n - 1);
      ToldStep(c, trace[n - 1], events[n - 1], trace[n], f, HistoryOf(trace, events, f, n - 1));
    }
  }

  // What a reader of the report may rely on.

  /** The steps granted are the first ones of the plan, in order and each once, one at a time, and none behind a failed one;
      the counter is the number of steps that succeeded and were dealt with; the plan is what planning returned, cut. */
  lemma StepsInOrder(c: Config, trace: seq<State>, events: seq<Event>, f: nat, n: nat)
    requires EventRun(c, trace, events) && f < |c.paths| && n <= |events|
    ensures var (x, h) := (trace[n].fss[f], HistoryOf(trace, events, f, n));
            && |h.granted| <= |x.steps| && (forall k :: 0 <= k < |h.granted| ==> h.granted[k] == k)
            && |h.returned| <= |h.granted| <= |h.returned| + 1
            && (forall k :: 0 <= k < |h.granted| - 1 ==> h.returned[k])
            && x.step == |h.returned| - if h.returned != [] && (!h.returned[|h.returned| - 1] || x.pc.StepReturned?) then 1 else 0
    ensures var (x, h) := (trace[n].fss[f], HistoryOf(trace, events, f, n));
            x.planDone ==> |h.plans| == 1 && h.plans[0].Some? && Some(x.steps) == Cut(c.prev[f], h.plans[0].value)
  {
    ToldOnRun(c, trace, events, f, n);
    EventRunIsRun(c, trace, events);
    InvOnRun(c, trace, n);
    OrderTold(c.prev[f], trace[n].fss[f], HistoryOf(trace, events, f, n));
  }

  lemma OrderTold(prev: Option<seq<StepInfo>>, x: Fs, h: History)
    requires PcOk(x) && Told(prev, x, h)
    ensures |h.returned| <= |h.granted| <= |h.returned| + 1
    ensures forall k :: 0 <= k < |h.granted| - 1 ==> h.returned[k]
    ensures x.step == |h.returned| - if h.returned != [] && (!h.returned[|h.returned| - 1] || x.pc.StepReturned?) then 1 else 0
    ensures x.planDone ==> |h.plans| == 1 && h.plans[0].Some? && Some(x.steps) == Cut(prev, h.plans[0].value)
  {
    if |h.returned| == |h.granted| {
      forall k | 0 <= k < |h.granted| - 1 ensures h.returned[k] {
        assert h.returned[..|h.returned| - 1][k] == h.returned[k];
      }
    }
  }

  /** A filesystem that ends without an error was granted every step of its plan, and each succeeded. */
  lemma FinishedDidAll(c: Config, trace: seq<State>, events: seq<Event>, f: nat, n: nat)
    requires EventRun(c, trace, events) && f < |c.paths| && n <= |events|
    requires trace[n].fss[f].pc.Finished? && !trace[n].fss[f].planErr && !trace[n].fss[f].stepErr
    ensures var (x, h) := (trace[n].fss[f], HistoryOf(trace, events, f, n));
            |h.granted| == |h.returned| == |x.steps| && AllTrue(h.returned) && forall k :: 0 <= k < |h.granted| ==> h.granted[k] == k
  {
    ToldOnRun(c, trace, events, f, n);
  }

  /** The same for every filesystem that ends, in a run without faults and cancellation. */
  lemma CleanRunDoesAll(c: Config, trace: seq<State>, events: seq<Event>, f: nat, n: nat)
    requires EventRun(c, trace, events) && f < |c.paths| && n <= |events| && CleanRun(c, trace)
    requires trace[n].fss[f].pc.Finished?
    ensures var (x, h) := (trace[n].fss[f], HistoryOf(trace, events, f, n));
            && x.planDone && |h.plans| == 1 && h.plans[0].Some? && Some(x.steps) == Cut(c.prev[f], h.plans[0].value)
            && |h.granted| == |h.returned| == |x.steps| && AllTrue(h.returned)
            && forall k :: 0 <= k < |h.granted| ==> h.granted[k] == k
  {
    EventRunIsRun(c, trace, events);
    CleanRunCompletes(c, trace, n, f);
    FaultlessOnRun(c, trace, n);
    assert Faultless(c.prev[f], trace[n].fss[f]);
    FinishedDidAll(c, trace, events, f, n);
    StepsInOrder(c, trace, events, f, n);
  }

  // Ancestors.

  /** By what happened, the filesystem is on the receiver: its plan has nothing to do or begins with an incremental step, or
      its first step succeeded. */
  predicate There(prev: Option<seq<StepInfo>>, h: History) {
    && |h.plans| == 1 && h.plans[0].Some? && Cut(prev, h.plans[0].value).Some?
    && var steps := Cut(prev, h.plans[0].value).value;
       steps == [] || steps[0].incremental || (h.returned != [] && h.returned[0])
  }

  /** What a child's check sees is what happened, but for a first step whose success has not been dealt with. */
  lemma PresentTold(prev: Option<seq<StepInfo>>, x: Fs, h: History)
    requires PcOk(x) && Told(prev, x, h)
    ensures Present(x) ==> There(prev, h)
    ensures There(prev, h) && !IsUnplanned(x) && !x.pc.StepReturned? ==> Present(x)
  {
    if x.pc.StepReturned? && x.pc.i > 0 {
      assert h.returned[..x.pc.i][0] == h.returned[0];
    } else if x.pc.Finished? && h.returned != [] && x.stepErr && x.step > 0 {
      assert h.returned[..|h.returned| - 1][0] == h.returned[0];
    }
  }

  lemma {:induction false} WasStepping(c: Config, trace: seq<State>, events: seq<Event>, f: nat, n: nat) returns (k: nat)
    requires EventRun(c, trace, events) && f < |c.paths| && n <= |events| && HistoryOf(trace, events, f, n).granted != []
    ensures k <= n && InSteps(trace[k].fss[f])
  {
    if HistoryOf(trace, events, f, n - 1).granted != [] {
      k := WasStepping(c, trace, events, f, n - 1);
    } else {
      k := n - 1;
    }
  }

  lemma PresentOfGranted(c: Config, trace: seq<State>, events: seq<Event>, f: nat, p: nat, n: nat)
    requires EventRun(c, trace, events) && f < |c.paths| && IsParent(c.paths, f, p) && n <= |events|
    requires HistoryOf(trace, events, f, n).granted != []
    ensures Present(trace[n].fss[p])
  {
    var k := WasStepping(c, trace, events, f, n);
    EventRunIsRun(c, trace, events);
    AncestorBeforeChild(c, trace, k, f, p);
    StableOnRun(c, trace, k, n, p);
  }

  /** Ancestors come first: when a step of a filesystem is granted, every ancestor is on the receiver, by what happened. */
  lemma AncestorFirst(c: Config, trace: seq<State>, events: seq<Event>, f: nat, p: nat, n: nat)
    requires EventRun(c, trace, events) && f < |c.paths| && IsParent(c.paths, f, p) && n <= |events|
    requires HistoryOf(trace, events, f, n).granted != []
    ensures There(c.prev[p], HistoryOf(trace, events, p, n))
  {
    PresentOfGranted(c, trace, events, f, p, n);
    ToldOnRun(c, trace, events, p, n);
    EventRunIsRun(c, trace, events);
    InvOnRun(c, trace, n);
    assert PcOk(trace[n].fss[p]);
    PresentTold(c.prev[p], trace[n].fss[p], HistoryOf(trace, events, p, n));
  }

  /** Below an ancestor that ended without getting to the receiver no step is ever granted. */
  lemma NothingBelowLost(c: Config, trace: seq<State>, events: seq<Event>, f: nat, p: nat, k: nat, n: nat)
    requires EventRun(c, trace, events) && f < |c.paths| && IsParent(c.paths, f, p) && k <= n <= |events|
    requires trace[k].fss[p].pc.Finished? && !There(c.prev[p], HistoryOf(trace, events, p, k))
    ensures HistoryOf(trace, events, f, n).granted == []
  {
    EventRunIsRun(c, trace, events);
    ToldOnRun(c, trace, events, p, k);
    InvOnRun(c, trace, k);
    assert PcOk(trace[k].fss[p]);
    PresentTold(c.prev[p], trace[k].fss[p], HistoryOf(trace, events, p, k));
    StableOnRun(c, trace, k, n, p);
    if HistoryOf(trace, events, f, n).granted != [] {
      PresentOfGranted(c, trace, events, f, p, n);
    }
  }

  // Children are not woken when an ancestor has been planned.

  lemma QuietMove(c: Config, trace: seq<State>, e: Event, x': Fs, q': Q.Queue) returns (longer: seq<State>)
    requires Run(c, trace) && !e.Cancel? && e.f < |c.paths|
    requires var s := trace[|trace| - 1];
             && After(c, s, e) == Some(x') && !Wakes(s.fss[e.f], x')
             && QueueStep(s.queue, c.concurrency, e, s.fss[e.f], q')
    ensures var s := trace[|trace| - 1];
            Run(c, longer) && longer == trace + [State(s.fss[e.f := x'], q', s.cancelled)]
  {
    var s := trace[|trace| - 1];
    var s' := State(s.fss[e.f := x'], q', s.cancelled);
    RunExtends(c, trace, e, s');
    longer := trace + [s'];
  }

  /** A filesystem and one below it. */
  const PAIR := Config([["a"], ["a", "b"]], [None, None], 1)

  lemma PairParents()
    ensures Parents(PAIR.paths, 0) == [] && Parents(PAIR.paths, 1) == [0]
  {
    assert ["a"] <= ["a", "b"] && !(["a", "b"] <= ["a"]);
    assert ParentsUpTo(PAIR.paths, 0, 1) == [] && ParentsUpTo(PAIR.paths, 0, 2) == [];
    assert ParentsUpTo(PAIR.paths, 1, 1) == [0] && ParentsUpTo(PAIR.paths, 1, 2) == [0];
  }

  /** Filesystem `f` gets its slot for planning. */
  lemma GetsToPlan(trace: seq<State>, f: nat) returns (longer: seq<State>)
    requires Run(PAIR, trace) && f < 2
    requires var s := trace[|trace| - 1]; s.fss[f] == START && s.queue == Q.Queue(map[], 0)
    ensures Run(PAIR, longer)
    ensures var s := trace[|trace| - 1];
            longer[|longer| - 1] == State(s.fss[f := START.(pc := Planning)], Q.Queue(map[], 1), s.cancelled)
  {
    var q1 := Q.Queue(map[f := PLANNING_DATE], 0);
    longer := QuietMove(PAIR, trace, Enqueue(f), START.(pc := QueuedPlan), q1);
    assert q1.pending - {f} == map[];
    longer := QuietMove(PAIR, longer, Grant(f), START.(pc := Planning), Q.Queue(map[], 1));
  }

  /** Filesystem `f` plans nothing to do. */
  lemma PlansNothing(trace: seq<State>, f: nat) returns (longer: seq<State>)
    requires Run(PAIR, trace) && f < 2
    requires var s := trace[|trace| - 1]; s.fss[f] == START && s.queue == Q.Queue(map[], 0) && !s.cancelled
    ensures Run(PAIR, longer)
    ensures var (s, x) := (trace[|trace| - 1], START.(pc := Inspect(0, false, true), planDone := true));
            longer[|longer| - 1] == State(s.fss[f := x], Q.Queue(map[], 0), false)
  {
    longer := GetsToPlan(trace, f);
    longer := QuietMove(PAIR, longer, ReturnPlan(f, Some([])), START.(pc := PlanReturned(Some([]))), Q.Queue(map[], 0));
    longer := QuietMove(PAIR, longer, Proceed(f), START.(pc := Inspect(0, false, true), planDone := true), Q.Queue(map[], 0));
  }

  /** A run in which a child sleeps, without a wakeup, although its only ancestor is on the receiver and planned. */
  lemma SleepsThoughPresent() returns (trace: seq<State>)
    ensures Run(PAIR, trace)
    ensures var s := trace[|trace| - 1];
            s.fss[1].pc.Blocked? && !s.fss[1].parentDidUpdate && Parents(PAIR.paths, 1) == [0] && Present(s.fss[0])
  {
    PairParents();
    var start := State([START, START], Q.Queue(map[], 0), false);
    trace := [start];
    assert Init(PAIR, trace[0]);
    trace := PlansNothing(trace, 1);
    var x := START.(pc := Inspect(0, false, true), planDone := true);
    var looked := x.(pc := Inspect(1, false, false));
    trace := QuietMove(PAIR, trace, Proceed(1), looked, Q.Queue(map[], 0));
    trace := QuietMove(PAIR, trace, Proceed(1), x.(pc := Blocked), Q.Queue(map[], 0));
    trace := PlansNothing(trace, 0);
  }

  // Failures have causes.

  /** Ended without being on the receiver. */
  predicate Lost(p: Fs) {
    p.pc.Finished? && !Present(p)
  }

  ghost predicate SomeLost(fss: seq<Fs>, ps: seq<nat>) {
    exists k :: 0 <= k < |ps| && ps[k] < |fss| && Lost(fss[ps[k]])
  }

  /** A step error without a failed step is because of a parent, or of cancellation. */
  ghost predicate CauseOk(c: Config, s: State, f: nat, returned: seq<bool>)
    requires f < |s.fss| == |c.paths|
  {
    var x := s.fss[f];
    && (x.pc.Inspect? && x.pc.failed ==> SomeLost(s.fss, Parents(c.paths, f)))
    && (x.pc.Finished? && x.stepErr && returned == [] ==> s.cancelled || SomeLost(s.fss, Parents(c.paths, f)))
  }

  lemma LostStays(c: Config, s: State, e: Event, s': State, ps: seq<nat>)
    requires Inv(c, s) && Transition(c, s, e, s') && SomeLost(s.fss, ps)
    ensures SomeLost(s'.fss, ps)
  {
    var k :| 0 <= k < |ps| && ps[k] < |s.fss| && Lost(s.fss[ps[k]]);
    Stable(c, s, e, s', ps[k]);
  }

  /** A parent counted as failed is lost. */
  lemma FailingIsLost(p: Fs)
    requires PcOk(p) && Failing(p)
    ensures Lost(p)
  {
  }

  lemma CauseOwn(c: Config, s: State, e: Event, s': State, h: History)
    requires Inv(c, s) && Transition(c, s, e, s') && !e.Cancel?
    requires Told(c.prev[e.f], s.fss[e.f], h) && CauseOk(c, s, e.f, h.returned)
    ensures CauseOk(c, s', e.f, Noted(h, e.f, s.fss[e.f], e).returned)
  {
    var x, ps := s.fss[e.f], Parents(c.paths, e.f);
    assert PcOk(x) && After(c, s, e) == Some(s'.fss[e.f]);
    if SomeLost(s.fss, ps) {
      LostStays(c, s, e, s', ps);
    } else if x.pc.Inspect? && x.pc.next < |ps| {
      var p := ps[x.pc.next];
      assert PcOk(s.fss[p]);
      if Failing(s.fss[p]) {
        FailingIsLost(s.fss[p]);
      }
    }
  }

  lemma CauseStep(c: Config, s: State, e: Event, s': State, f: nat, h: History)
    requires Inv(c, s) && Transition(c, s, e, s') && f < |s.fss|
    requires Told(c.prev[f], s.fss[f], h) && CauseOk(c, s, f, h.returned)
    ensures CauseOk(c, s', f, Noted(h, f, s.fss[f], e).returned)
  {
    if !e.Cancel? && e.f == f {
      CauseOwn(c, s, e, s', h);
    } else if SomeLost(s.fss, Parents(c.paths, f)) {
      LostStays(c, s, e, s', Parents(c.paths, f));
    }
  }

  lemma {:induction false} CauseOnRun(c: Config, trace: seq<State>, events: seq<Event>, f: nat, n: nat)
    requires EventRun(c, trace, events) && f < |c.paths| && n <= |events|
    ensures CauseOk(c, trace[n], f, HistoryOf(trace, events, f, n).returned)
  {
    if n > 0 {
      CauseOnRun(c, trace, events, f, n - 1);
      ToldOnRun(c, trace, events, f, n - 1);
      EventRunIsRun(c, trace, events);
      InvOnRun(c, trace, n - 1);
      assert StepsAt(c, trace, events, n - 1);
      CauseStep(c, trace[n - 1], events[n - 1], trace[n], f, HistoryOf(trace, events, f, n - 1));
    }
  }

  /** A filesystem that ends with an error had its planning fail, a step fail, a parent that did not get to the receiver,
      or was cancelled. */
  lemma ErrorsHaveCauses(c: Config, trace: seq<State>, events: seq<Event>, f: nat, n: nat)
    requires EventRun(c, trace, events) && f < |c.paths| && n <= |events| && trace[n].fss[f].pc.Finished?
    ensures var (x, h) := (trace[n].fss[f], HistoryOf(trace, events, f, n));
            && |h.plans| == 1
            && (x.planErr <==> h.plans[0].None? || Cut(c.prev[f], h.plans[0].value).None?)
            && (x.stepErr ==> FailsLast(h.returned) || trace[n].cancelled || SomeLost(trace[n].fss, Parents(c.paths, f)))
            && (h.returned != [] && !h.returned[|h.returned| - 1] ==> x.stepErr)
  {
    ToldOnRun(c, trace, events, f, n);
    CauseOnRun(c, trace, events, f, n);
    EventRunIsRun(c, trace, events);
    InvOnRun(c, trace, n);
    assert PcOk(trace[n].fss[f]);
  }
}
