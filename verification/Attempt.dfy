/** One attempt of the driver as a state machine: each step is what one goroutine does under one hold of the lock. */
module Attempt {
  import opened Versions
  import opened Driver
  import Q = StepQueue

  datatype Config = Config(paths: seq<Path>, prev: seq<Option<seq<StepInfo>>>, concurrency: nat) {
    ghost predicate Valid() {
      |prev| == |paths| && concurrency >= 1
    }
  }

  /** Where the goroutine of a filesystem is; `i` counts its loop over the steps. */
  datatype Pc =
    | AskPlan | QueuedPlan | Planning | PlanReturned(plan: Option<seq<StepInfo>>)
    | Inspect(next: nat, failed: bool, allPresent: bool) | Blocked
    | AskStep(i: nat) | QueuedStep(i: nat) | Stepping(i: nat) | StepReturned(i: nat, ok: bool)
    | Finished

  datatype Fs = Fs(pc: Pc, planDone: bool, planErr: bool, steps: seq<StepInfo>, step: nat, stepErr: bool,
                   parentDidUpdate: bool)

  datatype State = State(fss: seq<Fs>, queue: Q.Queue, cancelled: bool)

  datatype Event =
    | Cancel
    | Enqueue(f: nat) | Grant(f: nat)
    | ReturnPlan(f: nat, plan: Option<seq<StepInfo>>) | ReturnStep(f: nat, ok: bool)
    | Proceed(f: nat) | GiveUp(f: nat)

  const PLANNING_DATE := 0

  /** On the receiver for sure, as a child's check sees it. */
  predicate Present(p: Fs) {
    p.planDone && !p.planErr && (p.steps == [] || p.steps[0].incremental || p.step >= 1)
  }

  /** Counted as a failed parent by a child's check. */
  predicate Failing(p: Fs) {
    p.planErr || (p.planDone && !Present(p) && p.stepErr)
  }

  predicate IsQueued(x: Fs) {
    x.pc.QueuedPlan? || x.pc.QueuedStep?
  }

  predicate Runs(x: Fs) {
    x.pc.Planning? || x.pc.Stepping?
  }

  predicate InSteps(x: Fs) {
    x.pc.AskStep? || x.pc.QueuedStep? || x.pc.Stepping? || x.pc.StepReturned?
  }

  predicate IsUnplanned(x: Fs) {
    x.pc.AskPlan? || x.pc.QueuedPlan? || x.pc.Planning? || x.pc.PlanReturned?
  }

  function Date(x: Fs): (r: int) {
    if (x.pc.AskStep? || x.pc.QueuedStep?) && x.pc.i < |x.steps| then x.steps[x.pc.i].date else PLANNING_DATE
  }

  // What the goroutine of one filesystem does next.

  function AfterPlan(prev: Option<seq<StepInfo>>, x: Fs, plan: Option<seq<StepInfo>>): (r: Fs) {
    if plan.None? || Cut(prev, plan.value).None? then
      x.(planErr := true, pc := Finished)
    else
      x.(steps := Cut(prev, plan.value).value, planDone := true, pc := Inspect(0, false, true))
  }

  function AfterLook(x: Fs, p: Fs): (r: Fs)
    requires x.pc.Inspect?
  {
    x.(pc := Inspect(x.pc.next + 1, x.pc.failed || Failing(p), x.pc.allPresent && Present(p)))
  }

  function AfterCheck(x: Fs): (r: Fs)
    requires x.pc.Inspect?
  {
    if x.pc.failed then x.(stepErr := true, pc := Finished)
    else if !x.pc.allPresent then x.(pc := Blocked)
    else if x.steps == [] then x.(pc := Finished)
    else x.(pc := AskStep(0))
  }

  function AfterStep(x: Fs, i: nat, ok: bool): (r: Fs) {
    if !ok then x.(stepErr := true, pc := Finished)
    else if i + 1 < |x.steps| then x.(step := i + 1, pc := AskStep(i + 1))
    else x.(step := i + 1, pc := Finished)
  }

  function AfterProceed(c: Config, fss: seq<Fs>, f: nat): (r: Option<Fs>)
    requires f < |fss| == |c.paths| == |c.prev|
  {
    var x := fss[f];
    match x.pc
    case PlanReturned(plan) => Some(AfterPlan(c.prev[f], x, plan))
    case Inspect(i, _, _) =>
      var parents := Parents(c.paths, f);
      if i < |parents| then Some(AfterLook(x, fss[parents[i]])) else Some(AfterCheck(x))
    case Blocked => if x.parentDidUpdate then Some(x.(pc := Inspect(0, false, true), parentDidUpdate := false)) else None
    case StepReturned(i, ok) => Some(AfterStep(x, i, ok))
    case _ => None
  }

  function After(c: Config, s: State, e: Event): (r: Option<Fs>)
    requires !e.Cancel? && e.f < |s.fss| == |c.paths| == |c.prev|
  {
    var x := s.fss[e.f];
    match e
    case Enqueue(_) =>
      if x.pc.AskPlan? then Some(x.(pc := QueuedPlan)) else if x.pc.AskStep? then Some(x.(pc := QueuedStep(x.pc.i))) else None
    case Grant(_) =>
      if x.pc.QueuedPlan? then Some(x.(pc := Planning)) else if x.pc.QueuedStep? then Some(x.(pc := Stepping(x.pc.i))) else None
    case ReturnPlan(_, plan) => if x.pc.Planning? then Some(x.(pc := PlanReturned(plan))) else None
    case ReturnStep(_, ok) => if x.pc.Stepping? then Some(x.(pc := StepReturned(x.pc.i, ok))) else None
    case Proceed(f) => AfterProceed(c, s.fss, f)
    case GiveUp(_) => if x.pc.Blocked? && s.cancelled then Some(x.(stepErr := true, pc := Finished)) else None
  }

  /** A filesystem wakes its children when it completes a step and when it returns. */
  predicate Wakes(x: Fs, x': Fs) {
    x'.pc.Finished? || x'.step != x.step
  }

  /** The state of filesystem `g` after filesystem `f` went from `x` to `x'`; waking fills the one slot. */
  function Seen(paths: seq<Path>, fss: seq<Fs>, f: nat, x': Fs, g: nat): (r: Fs)
    requires f < |fss| == |paths| && g < |fss|
  {
    if g == f then x'
    else if Wakes(fss[f], x') && IsParent(paths, g, f) then fss[g].(parentDidUpdate := true)
    else fss[g]
  }

  /** Filesystem `f` moved, and wakes its children if it should. */
  predicate Framed(paths: seq<Path>, fss: seq<Fs>, f: nat, fss': seq<Fs>)
    requires f < |fss| == |paths|
  {
    |fss'| == |fss| && forall g :: 0 <= g < |fss| ==> fss'[g] == Seen(paths, fss, f, fss'[f], g)
  }

  predicate QueueStep(q: Q.Queue, concurrency: nat, e: Event, x: Fs, q': Q.Queue) {
    match e
    case Enqueue(f) => Q.Enqueues(q, Q.Request(f, Date(x)), q')
    case Grant(f) => Q.Grants(q, concurrency, Q.Request(f, Date(x)), q')
    case ReturnPlan(_, _) => Q.Completes(q, q')
    case ReturnStep(_, _) => Q.Completes(q, q')
    case _ => q' == q
  }

  predicate Transition(c: Config, s: State, e: Event, s': State)
    requires |s.fss| == |c.paths| == |c.prev|
  {
    if e.Cancel? then !s.cancelled && s' == s.(cancelled := true)
    else
      && e.f < |s.fss|
      && Framed(c.paths, s.fss, e.f, s'.fss) && After(c, s, e) == Some(s'.fss[e.f])
      && s'.cancelled == s.cancelled
      && QueueStep(s.queue, c.concurrency, e, s.fss[e.f], s'.queue)
  }

  const START := Fs(AskPlan, false, false, [], 0, false, false)

  ghost predicate Init(c: Config, s: State) {
    && |s.fss| == |c.paths| && !s.cancelled && s.queue == Q.Queue(map[], 0)
    && forall f :: 0 <= f < |s.fss| ==> s.fss[f] == START
  }

  // Invariants.

  predicate PcOk(x: Fs) {
    && x.step <= |x.steps|
    && (IsUnplanned(x) ==> !x.planDone && !x.planErr && x.steps == [] && !x.stepErr)
    && (x.pc.Inspect? || x.pc.Blocked? ==> x.planDone && !x.planErr && x.step == 0 && !x.stepErr)
    && (InSteps(x) ==> x.planDone && !x.planErr && x.pc.i == x.step < |x.steps| && !x.stepErr)
    && (x.pc.Finished? ==>
          || (x.planErr && !x.planDone && x.steps == [] && !x.stepErr)
          || (x.planDone && !x.planErr && (x.stepErr || x.step == |x.steps|)))
  }

  /** Past the check of the parents. */
  predicate Released(x: Fs) {
    InSteps(x) || x.step > 0 || (x.pc.Finished? && !x.planErr && !x.stepErr)
  }

  /** Neither returned nor done with its first step, so it will wake its children. */
  predicate Awaited(p: Fs) {
    !p.pc.Finished? && p.step == 0
  }

  /** Some of the parents in `ps` is still to be waited for. */
  ghost predicate SomeRunning(fss: seq<Fs>, ps: seq<nat>) {
    exists k :: 0 <= k < |ps| && ps[k] < |fss| && Awaited(fss[ps[k]])
  }

  ghost predicate AllPresent(fss: seq<Fs>, ps: seq<nat>) {
    forall k :: 0 <= k < |ps| && ps[k] < |fss| ==> Present(fss[ps[k]])
  }

  /** What filesystem `f` relies on about its parents `ps`: it was released only when all are present, and it
      sleeps only while a parent it has looked at still runs and will wake it. */
  ghost predicate ParentsOk(fss: seq<Fs>, ps: seq<nat>, x: Fs) {
    && (Released(x) ==> AllPresent(fss, ps))
    && (x.pc.Inspect? ==> x.pc.next <= |ps|)
    && (x.pc.Inspect? && x.pc.allPresent ==> AllPresent(fss, ps[..x.pc.next]))
    && (x.pc.Inspect? && !x.pc.allPresent && !x.pc.failed && !x.parentDidUpdate ==> SomeRunning(fss, ps[..x.pc.next]))
    && (x.pc.Blocked? && !x.parentDidUpdate ==> SomeRunning(fss, ps))
  }

  function QueuedSet(fss: seq<Fs>): (r: set<nat>) {
    set f: nat | f < |fss| && IsQueued(fss[f])
  }

  function RunningSet(fss: seq<Fs>): (r: set<nat>) {
    set f: nat | f < |fss| && Runs(fss[f])
  }

  ghost predicate QueueOk(c: Config, s: State) {
    && s.queue.pending.Keys == QueuedSet(s.fss)
    && (forall f :: f in s.queue.pending ==> f < |s.fss| && s.queue.pending[f] == Date(s.fss[f]))
    && s.queue.active == |RunningSet(s.fss)| <= c.concurrency
  }

  ghost predicate Inv(c: Config, s: State) {
    && c.Valid() && |s.fss| == |c.paths|
    && (forall f :: 0 <= f < |s.fss| ==> PcOk(s.fss[f]))
    && (forall f :: 0 <= f < |s.fss| ==> ParentsOk(s.fss, Parents(c.paths, f), s.fss[f]))
    && QueueOk(c, s)
  }

  lemma InitInv(c: Config, s: State)
    requires c.Valid() && Init(c, s)
    ensures Inv(c, s)
  {
    assert RunningSet(s.fss) == {};
  }

  lemma PcStep(c: Config, s: State, e: Event)
    requires c.Valid() && |s.fss| == |c.paths| && !e.Cancel? && e.f < |s.fss|
    requires PcOk(s.fss[e.f]) && After(c, s, e).Some?
    ensures var (x, x') := (s.fss[e.f], After(c, s, e).value);
            && PcOk(x') && !x.pc.Finished?
            && (Present(x) ==> Present(x'))
  {
  }

  /** Presence on the receiver and being finished are for ever. */
  predicate Settles(x: Fs, x': Fs) {
    && (Present(x) ==> Present(x'))
    && (x.pc.Finished? ==> x' == x.(parentDidUpdate := x'.parentDidUpdate))
  }

  lemma StableFramed(paths: seq<Path>, fss: seq<Fs>, f: nat, fss': seq<Fs>, g: nat)
    requires f < |fss| == |paths| && g < |fss| && Framed(paths, fss, f, fss')
    requires PcOk(fss[g]) && PcOk(fss'[f]) && Settles(fss[f], fss'[f])
    ensures PcOk(fss'[g]) && Settles(fss[g], fss'[g])
  {
  }

  lemma Stable(c: Config, s: State, e: Event, s': State, g: nat)
    requires Inv(c, s) && Transition(c, s, e, s') && g < |s.fss|
    ensures PcOk(s'.fss[g]) && Settles(s.fss[g], s'.fss[g])
  {
    assert PcOk(s.fss[g]);
    if !e.Cancel? {
      PcStep(c, s, e);
      StableFramed(c.paths, s.fss, e.f, s'.fss, g);
    }
  }

  lemma AllPresentStable(c: Config, s: State, e: Event, s': State, ps: seq<nat>)
    requires Inv(c, s) && Transition(c, s, e, s') && AllPresent(s.fss, ps)
    ensures AllPresent(s'.fss, ps)
  {
    forall k | 0 <= k < |ps| && ps[k] < |s'.fss| ensures Present(s'.fss[ps[k]]) {
      Stable(c, s, e, s', ps[k]);
    }
  }

  /** A parent that returns leaves a wakeup behind for every child. */
  lemma WakeupFramed(paths: seq<Path>, fss: seq<Fs>, f: nat, fss': seq<Fs>, g: nat, ps: seq<nat>)
    requires f < |fss| == |paths| && g < |fss| && f != g && Framed(paths, fss, f, fss') && SomeRunning(fss, ps)
    requires forall k :: 0 <= k < |ps| ==> IsParent(paths, g, ps[k])
    ensures SomeRunning(fss', ps) || fss'[g].parentDidUpdate
  {
    var k :| 0 <= k < |ps| && ps[k] < |fss| && Awaited(fss[ps[k]]);
    if !Awaited(fss'[ps[k]]) {
      assert f == ps[k];
    }
  }

  lemma WakeupKept(c: Config, s: State, e: Event, s': State, g: nat, ps: seq<nat>)
    requires Inv(c, s) && Transition(c, s, e, s') && g < |s.fss| && SomeRunning(s.fss, ps)
    requires forall k :: 0 <= k < |ps| ==> IsParent(c.paths, g, ps[k])
    requires e.Cancel? || e.f != g
    ensures SomeRunning(s'.fss, ps) || s'.fss[g].parentDidUpdate
  {
    if !e.Cancel? {
      WakeupFramed(c.paths, s.fss, e.f, s'.fss, g, ps);
    }
  }

  lemma OtherParents(c: Config, s: State, e: Event, s': State, g: nat)
    requires Inv(c, s) && Transition(c, s, e, s') && g < |s.fss| && (e.Cancel? || e.f != g)
    ensures ParentsOk(s'.fss, Parents(c.paths, g), s'.fss[g])
  {
    var x, ps := s.fss[g], Parents(c.paths, g);
    assert ParentsOk(s.fss, ps, x);
    if Released(x) {
      AllPresentStable(c, s, e, s', ps);
    }
    if x.pc.Inspect? && x.pc.allPresent {
      AllPresentStable(c, s, e, s', ps[..x.pc.next]);
    }
    if x.pc.Inspect? && SomeRunning(s.fss, ps[..x.pc.next]) {
      WakeupKept(c, s, e, s', g, ps[..x.pc.next]);
    }
    if x.pc.Blocked? && SomeRunning(s.fss, ps) {
      WakeupKept(c, s, e, s', g, ps);
    }
  }

  /** Looking at the next parent. */
  lemma LookKeeps(fss: seq<Fs>, ps: seq<nat>, x: Fs, p: nat)
    requires x.pc.Inspect? && PcOk(x) && x.pc.next < |ps| && ps[x.pc.next] == p < |fss|
    requires ParentsOk(fss, ps, x) && PcOk(fss[p])
    ensures ParentsOk(fss, ps, AfterLook(x, fss[p]))
  {
    var i := x.pc.next;
    assert ps[..i + 1] == ps[..i] + [p];
    if SomeRunning(fss, ps[..i]) {
      var k :| 0 <= k < i && ps[..i][k] < |fss| && Awaited(fss[ps[..i][k]]);
      assert ps[..i + 1][k] == ps[..i][k];
    } else if Awaited(fss[p]) {
      assert ps[..i + 1][i] == p;
    }
  }

  lemma CheckKeeps(fss: seq<Fs>, ps: seq<nat>, x: Fs)
    requires x.pc.Inspect? && PcOk(x) && x.pc.next == |ps| && ParentsOk(fss, ps, x)
    ensures ParentsOk(fss, ps, AfterCheck(x))
  {
    assert ps[..x.pc.next] == ps;
  }

  lemma OwnProceed(c: Config, s: State, f: nat)
    requires Inv(c, s) && f < |s.fss| && AfterProceed(c, s.fss, f).Some?
    ensures ParentsOk(s.fss, Parents(c.paths, f), AfterProceed(c, s.fss, f).value)
  {
    var x, ps := s.fss[f], Parents(c.paths, f);
    assert ParentsOk(s.fss, ps, x) && PcOk(x);
    if x.pc.Inspect? {
      if x.pc.next < |ps| {
        LookKeeps(s.fss, ps, x, ps[x.pc.next]);
      } else {
        CheckKeeps(s.fss, ps, x);
      }
    }
  }

  /** Moving on within planning or within the steps, or giving up. */
  lemma MoveKeeps(fss: seq<Fs>, ps: seq<nat>, x: Fs, x': Fs)
    requires ParentsOk(fss, ps, x) && PcOk(x)
    requires || (InSteps(x) && InSteps(x') && x' == x.(pc := x'.pc))
             || (IsUnplanned(x) && IsUnplanned(x') && x' == x.(pc := x'.pc))
             || (x.pc.Blocked? && x' == x.(stepErr := true, pc := Finished))
    ensures ParentsOk(fss, ps, x')
  {
  }

  lemma OwnParents(c: Config, s: State, e: Event)
    requires Inv(c, s) && !e.Cancel? && e.f < |s.fss| && After(c, s, e).Some?
    ensures ParentsOk(s.fss, Parents(c.paths, e.f), After(c, s, e).value)
  {
    if e.Proceed? {
      OwnProceed(c, s, e.f);
    } else {
      MoveKeeps(s.fss, Parents(c.paths, e.f), s.fss[e.f], After(c, s, e).value);
    }
  }

  lemma OwnParentsStep(c: Config, s: State, e: Event, s': State)
    requires Inv(c, s) && Transition(c, s, e, s') && !e.Cancel?
    ensures ParentsOk(s'.fss, Parents(c.paths, e.f), s'.fss[e.f])
  {
    OwnParents(c, s, e);
    var x', ps := s'.fss[e.f], Parents(c.paths, e.f);
    if Released(x') {
      AllPresentStable(c, s, e, s', ps);
    }
    if x'.pc.Inspect? && x'.pc.allPresent {
      AllPresentStable(c, s, e, s', ps[..x'.pc.next]);
    }
    assert forall p :: 0 <= p < |s.fss| && p != e.f ==> s'.fss[p].pc == s.fss[p].pc;
  }

  /** Others keep their place in the queue or their slot. */
  predicate SamePlace(x: Fs, x': Fs) {
    IsQueued(x') == IsQueued(x) && Runs(x') == Runs(x) && Date(x') == Date(x)
  }

  lemma OthersStay(paths: seq<Path>, fss: seq<Fs>, f: nat, fss': seq<Fs>)
    requires f < |fss| == |paths| && Framed(paths, fss, f, fss')
    ensures forall g :: 0 <= g < |fss| && g != f ==> SamePlace(fss[g], fss'[g])
  {
  }

  /** Filesystem `f` moved without entering or leaving the queue or a slot. */
  lemma QueueUnmoved(c: Config, s: State, f: nat, s': State)
    requires f < |s.fss| == |s'.fss| && (forall g :: 0 <= g < |s.fss| && g != f ==> SamePlace(s.fss[g], s'.fss[g]))
    requires QueueOk(c, s) && s'.queue == s.queue
    requires !IsQueued(s.fss[f]) && !IsQueued(s'.fss[f]) && !Runs(s.fss[f]) && !Runs(s'.fss[f])
    ensures QueueOk(c, s')
  {
    assert QueuedSet(s'.fss) == QueuedSet(s.fss);
    assert RunningSet(s'.fss) == RunningSet(s.fss);
  }

  lemma QueueEntered(c: Config, s: State, f: nat, s': State)
    requires f < |s.fss| == |s'.fss| && (forall g :: 0 <= g < |s.fss| && g != f ==> SamePlace(s.fss[g], s'.fss[g]))
    requires QueueOk(c, s) && Q.Enqueues(s.queue, Q.Request(f, Date(s.fss[f])), s'.queue)
    requires !IsQueued(s.fss[f]) && IsQueued(s'.fss[f]) && !Runs(s.fss[f]) && Date(s'.fss[f]) == Date(s.fss[f])
    ensures QueueOk(c, s')
  {
    assert QueuedSet(s'.fss) == QueuedSet(s.fss) + {f};
    assert RunningSet(s'.fss) == RunningSet(s.fss);
  }

  lemma QueueGranted(c: Config, s: State, f: nat, s': State)
    requires f < |s.fss| == |s'.fss| && (forall g :: 0 <= g < |s.fss| && g != f ==> SamePlace(s.fss[g], s'.fss[g]))
    requires QueueOk(c, s) && Q.Grants(s.queue, c.concurrency, Q.Request(f, Date(s.fss[f])), s'.queue)
    requires IsQueued(s.fss[f]) && Runs(s'.fss[f])
    ensures QueueOk(c, s')
  {
    assert QueuedSet(s'.fss) == QueuedSet(s.fss) - {f};
    assert RunningSet(s'.fss) == RunningSet(s.fss) + {f};
  }

  lemma QueueLeft(c: Config, s: State, f: nat, s': State)
    requires f < |s.fss| == |s'.fss| && (forall g :: 0 <= g < |s.fss| && g != f ==> SamePlace(s.fss[g], s'.fss[g]))
    requires QueueOk(c, s) && Q.Completes(s.queue, s'.queue)
    requires Runs(s.fss[f]) && !Runs(s'.fss[f]) && !IsQueued(s'.fss[f])
    ensures QueueOk(c, s')
  {
    assert QueuedSet(s'.fss) == QueuedSet(s.fss);
    assert RunningSet(s'.fss) == RunningSet(s.fss) - {f};
  }

  /** Which events enter and leave the queue and the slots. */
  lemma AfterPlaces(c: Config, s: State, e: Event)
    requires !e.Cancel? && e.f < |s.fss| == |c.paths| == |c.prev| && After(c, s, e).Some?
    ensures var (x, x') := (s.fss[e.f], After(c, s, e).value);
            && (e.Enqueue? ==> !IsQueued(x) && IsQueued(x') && !Runs(x) && Date(x') == Date(x))
            && (e.Grant? ==> IsQueued(x) && Runs(x'))
            && (e.ReturnPlan? || e.ReturnStep? ==> Runs(x) && !Runs(x') && !IsQueued(x'))
            && (e.Proceed? || e.GiveUp? ==> !IsQueued(x) && !IsQueued(x') && !Runs(x) && !Runs(x'))
  {
  }

  lemma QueueKept(c: Config, s: State, e: Event, s': State)
    requires Inv(c, s) && Transition(c, s, e, s')
    ensures QueueOk(c, s')
  {
    if !e.Cancel? {
      AfterPlaces(c, s, e);
      OthersStay(c.paths, s.fss, e.f, s'.fss);
    }
    match e
    case Cancel =>
    case Enqueue(f) => QueueEntered(c, s, f, s');
    case Grant(f) => QueueGranted(c, s, f, s');
    case ReturnPlan(f, _) => QueueLeft(c, s, f, s');
    case ReturnStep(f, _) => QueueLeft(c, s, f, s');
    case Proceed(f) => QueueUnmoved(c, s, f, s');
    case GiveUp(f) => QueueUnmoved(c, s, f, s');
  }

  lemma InvStep(c: Config, s: State, e: Event, s': State)
    requires Inv(c, s) && Transition(c, s, e, s')
    ensures Inv(c, s')
  {
    forall g | 0 <= g < |s'.fss| ensures PcOk(s'.fss[g]) && ParentsOk(s'.fss, Parents(c.paths, g), s'.fss[g]) {
      Stable(c, s, e, s', g);
      if !e.Cancel? && e.f == g {
        OwnParentsStep(c, s, e, s');
      } else {
        OtherParents(c, s, e, s', g);
      }
    }
    QueueKept(c, s, e, s');
  }

  // Termination: a measure that every step decreases.

  /** Not planned yet: how much work the plan brings is still open. */
  function Open(x: Fs): (r: nat) {
    if IsUnplanned(x) && !x.pc.PlanReturned? then 1 else 0
  }

  /** The updates of the filesystem that its children will see. */
  function Work(x: Fs): (r: nat) {
    if x.pc.PlanReturned? then 2 + if x.pc.plan.Some? then |x.pc.plan.value| else 0
    else if IsUnplanned(x) || x.pc.Finished? || x.step > |x.steps| then 0
    else 1 + |x.steps| - x.step
  }

  /** How far the filesystem is from its next such update, and a pending wakeup. */
  function Distance(parents: nat, x: Fs): (r: nat) {
    (if x.parentDidUpdate then parents + 5 else 0) +
    match x.pc
    case AskPlan => 2
    case QueuedPlan => 1
    case Inspect(i, _, _) => if i <= parents then parents - i + 4 else 0
    case AskStep(_) => 3
    case QueuedStep(_) => 2
    case Stepping(_) => 1
    case _ => 0
  }

  function Total(w: seq<nat>): (r: nat) {
    if w == [] then 0 else Total(w[..|w| - 1]) + w[|w| - 1]
  }

  lemma {:induction false} TotalLess(w: seq<nat>, w': seq<nat>, i: nat)
    requires |w| == |w'| && i < |w| && w'[i] < w[i]
    requires forall k :: 0 <= k < |w| && k != i ==> w'[k] == w[k]
    ensures Total(w') < Total(w)
  {
    var n := |w| - 1;
    if i == n {
      assert w[..n] == w'[..n];
    } else {
      TotalLess(w[..n], w'[..n], i);
    }
  }

  function Opens(fss: seq<Fs>): (r: seq<nat>) {
    seq(|fss|, f requires 0 <= f < |fss| => Open(fss[f]))
  }

  function Works(fss: seq<Fs>): (r: seq<nat>) {
    seq(|fss|, f requires 0 <= f < |fss| => Work(fss[f]))
  }

  function TotalOpen(s: State): (r: nat) {
    Total(Opens(s.fss)) + if s.cancelled then 0 else 1
  }

  function TotalWork(s: State): (r: nat) {
    Total(Works(s.fss))
  }

  function Distances(c: Config, s: State): (r: seq<nat>)
    requires |s.fss| == |c.paths|
  {
    seq(|s.fss|, f requires 0 <= f < |s.fss| => Distance(|Parents(c.paths, f)|, s.fss[f]))
  }

  function TotalDistance(c: Config, s: State): (r: nat)
    requires |s.fss| == |c.paths|
  {
    Total(Distances(c, s))
  }

  /** The lexicographic order of the three totals. */
  predicate Decreases(c: Config, s: State, s': State)
    requires |s.fss| == |c.paths| == |s'.fss|
  {
    || TotalOpen(s') < TotalOpen(s)
    || (TotalOpen(s') == TotalOpen(s) && TotalWork(s') < TotalWork(s))
    || (TotalOpen(s') == TotalOpen(s) && TotalWork(s') == TotalWork(s) && TotalDistance(c, s') < TotalDistance(c, s))
  }

  lemma CutIsShorter(prev: Option<seq<StepInfo>>, steps: seq<StepInfo>)
    ensures Cut(prev, steps).Some? ==> |Cut(prev, steps).value| <= |steps|
  {
  }

  /** One filesystem comes closer to its end, if need be by more distance and wakeups. */
  predicate Advances(parents: nat, x: Fs, x': Fs) {
    || Open(x') < Open(x)
    || (Open(x') == Open(x) && Work(x') < Work(x))
    || (Open(x') == Open(x) && Work(x') == Work(x) && Distance(parents, x') < Distance(parents, x) && !Wakes(x, x'))
  }

  lemma ProceedAdvances(c: Config, s: State, f: nat)
    requires Inv(c, s) && f < |s.fss| && AfterProceed(c, s.fss, f).Some?
    ensures Advances(|Parents(c.paths, f)|, s.fss[f], AfterProceed(c, s.fss, f).value)
  {
    var x, ps := s.fss[f], Parents(c.paths, f);
    assert PcOk(x) && ParentsOk(s.fss, ps, x);
    if x.pc.PlanReturned? && x.pc.plan.Some? {
      CutIsShorter(c.prev[f], x.pc.plan.value);
    }
  }

  lemma OwnAdvances(c: Config, s: State, e: Event)
    requires Inv(c, s) && !e.Cancel? && e.f < |s.fss| && After(c, s, e).Some?
    ensures Advances(|Parents(c.paths, e.f)|, s.fss[e.f], After(c, s, e).value)
  {
    if e.Proceed? {
      ProceedAdvances(c, s, e.f);
    } else {
      assert PcOk(s.fss[e.f]);
    }
  }

  lemma AdvanceDecreases(c: Config, s: State, f: nat, s': State)
    requires f < |s.fss| == |c.paths| && Framed(c.paths, s.fss, f, s'.fss) && s'.cancelled == s.cancelled
    requires Advances(|Parents(c.paths, f)|, s.fss[f], s'.fss[f])
    ensures Decreases(c, s, s')
  {
    var x, x' := s.fss[f], s'.fss[f];
    if Open(x') < Open(x) {
      TotalLess(Opens(s.fss), Opens(s'.fss), f);
    } else {
      assert Opens(s.fss) == Opens(s'.fss);
      if Work(x') < Work(x) {
        TotalLess(Works(s.fss), Works(s'.fss), f);
      } else {
        assert Works(s.fss) == Works(s'.fss);
        TotalLess(Distances(c, s), Distances(c, s'), f);
      }
    }
  }

  /** Every step of the attempt decreases the measure. */
  lemma StepDecreases(c: Config, s: State, e: Event, s': State)
    requires Inv(c, s) && Transition(c, s, e, s')
    ensures Decreases(c, s, s')
  {
    if e.Cancel? {
      assert s'.fss == s.fss;
    } else {
      OwnAdvances(c, s, e);
      AdvanceDecreases(c, s, e.f, s');
    }
  }

  // Progress.

  function Apply(c: Config, s: State, e: Event, q: Q.Queue): (r: State)
    requires |s.fss| == |c.paths| == |c.prev| && !e.Cancel? && e.f < |s.fss| && After(c, s, e).Some?
    requires QueueStep(s.queue, c.concurrency, e, s.fss[e.f], q)
    ensures Transition(c, s, e, r)
  {
    State(seq(|s.fss|, g requires 0 <= g < |s.fss| => Seen(c.paths, s.fss, e.f, After(c, s, e).value, g)), q, s.cancelled)
  }

  ghost predicate CanMove(c: Config, s: State)
    requires |s.fss| == |c.paths| == |c.prev|
  {
    exists e: Event, s': State :: !e.Cancel? && Transition(c, s, e, s')
  }

  lemma MovesBy(c: Config, s: State, e: Event, q: Q.Queue)
    requires |s.fss| == |c.paths| == |c.prev| && !e.Cancel? && e.f < |s.fss| && After(c, s, e).Some?
    requires QueueStep(s.queue, c.concurrency, e, s.fss[e.f], q)
    ensures CanMove(c, s)
  {
    var s' := Apply(c, s, e, q);
    assert Transition(c, s, e, s');
  }

  lemma {:induction false} MinimalPending(pending: map<nat, int>, some: set<nat>) returns (m: nat)
    requires some != {} && some <= pending.Keys
    ensures m in some && forall i :: i in some ==> pending[m] <= pending[i]
    decreases |some|
  {
    m :| m in some;
    if some != {m} {
      var k := MinimalPending(pending, some - {m});
      if pending[k] < pending[m] {
        m := k;
      }
    }
  }

  /** A queued filesystem can be granted its slot, or a running one can return. */
  lemma QueueMoves(c: Config, s: State, f: nat)
    requires Inv(c, s) && f < |s.fss| && IsQueued(s.fss[f])
    ensures CanMove(c, s)
  {
    if s.queue.active < c.concurrency {
      assert f in s.queue.pending.Keys;
      var m := MinimalPending(s.queue.pending, s.queue.pending.Keys);
      assert m in QueuedSet(s.fss);
      MovesBy(c, s, Grant(m), Q.Queue(s.queue.pending - {m}, s.queue.active + 1));
    } else {
      assert RunningSet(s.fss) != {};
      var g :| g in RunningSet(s.fss);
      RunningMoves(c, s, g);
    }
  }

  lemma RunningMoves(c: Config, s: State, f: nat)
    requires Inv(c, s) && f < |s.fss| && Runs(s.fss[f])
    ensures CanMove(c, s)
  {
    assert f in RunningSet(s.fss);
    var q := s.queue.(active := s.queue.active - 1);
    if s.fss[f].pc.Planning? {
      MovesBy(c, s, ReturnPlan(f, None), q);
    } else {
      MovesBy(c, s, ReturnStep(f, true), q);
    }
  }

  lemma AskingMoves(c: Config, s: State, f: nat)
    requires Inv(c, s) && f < |s.fss| && (s.fss[f].pc.AskPlan? || s.fss[f].pc.AskStep?)
    ensures CanMove(c, s)
  {
    assert f !in QueuedSet(s.fss);
    MovesBy(c, s, Enqueue(f), s.queue.(pending := s.queue.pending[f := Date(s.fss[f])]));
  }

  /** An attempt never deadlocks: whoever is not finished can move or waits, through ever shorter paths, for
      someone who can. */
  lemma {:induction false} NoDeadlock(c: Config, s: State, f: nat)
    requires Inv(c, s) && f < |s.fss| && !s.fss[f].pc.Finished?
    ensures CanMove(c, s)
    decreases |c.paths[f]|
  {
    var x := s.fss[f];
    if IsQueued(x) {
      QueueMoves(c, s, f);
    } else if Runs(x) {
      RunningMoves(c, s, f);
    } else if x.pc.AskPlan? || x.pc.AskStep? {
      AskingMoves(c, s, f);
    } else if x.pc.Blocked? && !x.parentDidUpdate {
      var ps := Parents(c.paths, f);
      assert ParentsOk(s.fss, ps, x);
      var k :| 0 <= k < |ps| && ps[k] < |s.fss| && Awaited(s.fss[ps[k]]);
      assert IsParent(c.paths, f, ps[k]);
      NoDeadlock(c, s, ps[k]);
    } else {
      MovesBy(c, s, Proceed(f), s.queue);
    }
  }

  /** Slots go by target date, whatever else waits: planning, whose date is before any snapshot's, comes first. */
  lemma GrantsByDate(c: Config, s: State, f: nat, s': State, g: nat)
    requires Inv(c, s) && Transition(c, s, Grant(f), s') && g < |s.fss|
    ensures f < |s.fss| && IsQueued(s.fss[f])
    ensures var (x, y) := (s.fss[f], s.fss[g]);
            && (x.pc.QueuedStep? ==> x.pc.i < |x.steps|) && (y.pc.QueuedStep? ==> y.pc.i < |y.steps|)
            && (x.pc.QueuedStep? && y.pc.QueuedStep? ==> x.steps[x.pc.i].date <= y.steps[y.pc.i].date)
            && (x.pc.QueuedStep? && y.pc.QueuedPlan? ==> x.steps[x.pc.i].date <= 0)
            && (x.pc.QueuedPlan? && y.pc.QueuedStep? ==> 0 <= y.steps[y.pc.i].date)
  {
    assert PcOk(s.fss[f]) && PcOk(s.fss[g]);
    assert IsQueued(s.fss[g]) ==> g in QueuedSet(s.fss);
  }

  // Runs.

  ghost predicate Next(c: Config, s: State, s': State)
    requires |s.fss| == |c.paths| == |c.prev|
  {
    exists e :: Transition(c, s, e, s')
  }

  ghost predicate MovesAt(c: Config, trace: seq<State>, k: nat)
    requires |c.prev| == |c.paths|
  {
    k + 1 < |trace| && |trace[k].fss| == |c.paths| && Next(c, trace[k], trace[k + 1])
  }

  ghost predicate Run(c: Config, trace: seq<State>) {
    && c.Valid() && trace != [] && Init(c, trace[0])
    && (forall k :: 0 <= k < |trace| ==> |trace[k].fss| == |c.paths|)
    && (forall k :: 0 <= k < |trace| - 1 ==> MovesAt(c, trace, k))
  }

  lemma InvNext(c: Config, trace: seq<State>, k: nat)
    requires Run(c, trace) && k + 1 < |trace| && Inv(c, trace[k])
    ensures Inv(c, trace[k + 1])
  {
    assert MovesAt(c, trace, k);
    var e :| Transition(c, trace[k], e, trace[k + 1]);
    InvStep(c, trace[k], e, trace[k + 1]);
  }

  lemma {:induction false} InvOnRun(c: Config, trace: seq<State>, k: nat)
    requires Run(c, trace) && k < |trace|
    ensures Inv(c, trace[k])
  {
    if k == 0 {
      InitInv(c, trace[0]);
    } else {
      InvOnRun(c, trace, k - 1);
      InvNext(c, trace, k - 1);
    }
  }

  ghost predicate AllFinished(s: State) {
    forall f :: 0 <= f < |s.fss| ==> s.fss[f].pc.Finished?
  }

  /** Every run that cannot be continued has finished every filesystem. */
  lemma MaximalRunsFinish(c: Config, trace: seq<State>)
    requires Run(c, trace)
    requires !CanMove(c, trace[|trace| - 1])
    ensures AllFinished(trace[|trace| - 1])
  {
    var s := trace[|trace| - 1];
    InvOnRun(c, trace, |trace| - 1);
    forall f | 0 <= f < |s.fss| ensures s.fss[f].pc.Finished? {
      if !s.fss[f].pc.Finished? {
        NoDeadlock(c, s, f);
      }
    }
  }

  lemma RunExtends(c: Config, trace: seq<State>, e: Event, s': State)
    requires Run(c, trace) && Transition(c, trace[|trace| - 1], e, s')
    ensures Run(c, trace + [s'])
  {
    var longer := trace + [s'];
    forall k | 0 <= k < |longer| - 1 ensures MovesAt(c, longer, k) {
      if k < |trace| - 1 {
        assert MovesAt(c, trace, k);
      }
    }
  }

  lemma RunAdvances(c: Config, trace: seq<State>) returns (s': State)
    requires Run(c, trace) && !AllFinished(trace[|trace| - 1])
    ensures Run(c, trace + [s']) && |s'.fss| == |c.paths|
    ensures Decreases(c, trace[|trace| - 1], s')
  {
    var s := trace[|trace| - 1];
    InvOnRun(c, trace, |trace| - 1);
    var f :| 0 <= f < |s.fss| && !s.fss[f].pc.Finished?;
    NoDeadlock(c, s, f);
    var e: Event, t: State :| !e.Cancel? && Transition(c, s, e, t);
    StepDecreases(c, s, e, t);
    RunExtends(c, trace, e, t);
    s' := t;
  }

  /** Every run can be continued to one that has finished every filesystem. */
  lemma {:induction false} RunsCanFinish(c: Config, trace: seq<State>) returns (full: seq<State>)
    requires Run(c, trace)
    ensures Run(c, full) && trace <= full && AllFinished(full[|full| - 1])
    decreases TotalOpen(trace[|trace| - 1]), TotalWork(trace[|trace| - 1]), TotalDistance(c, trace[|trace| - 1])
  {
    if AllFinished(trace[|trace| - 1]) {
      full := trace;
    } else {
      var s' := RunAdvances(c, trace);
      full := RunsCanFinish(c, trace + [s']);
    }
  }

  /** Every configuration has a run that finishes every filesystem. */
  lemma SomeRunFinishes(c: Config) returns (full: seq<State>)
    requires c.Valid()
    ensures Run(c, full) && AllFinished(full[|full| - 1])
  {
    var s := State(seq(|c.paths|, _ => START), Q.Queue(map[], 0), false);
    assert Init(c, [s][0]);
    full := RunsCanFinish(c, [s]);
  }

  /** Ancestors come first: no filesystem is in or behind a step unless each ancestor is on the receiver. */
  lemma AncestorBeforeChild(c: Config, trace: seq<State>, k: nat, f: nat, p: nat)
    requires Run(c, trace) && k < |trace| && f < |c.paths| && IsParent(c.paths, f, p)
    requires InSteps(trace[k].fss[f]) || trace[k].fss[f].step > 0
    ensures Present(trace[k].fss[p])
  {
    InvOnRun(c, trace, k);
    assert ParentsOk(trace[k].fss, Parents(c.paths, f), trace[k].fss[f]);
    ParentsComplete(c.paths, f, |c.paths|, p);
  }

  /** A filesystem sleeps without a wakeup only while some ancestor has neither returned nor completed a step: the first
      step of the last such ancestor wakes it. */
  lemma SleepsForReason(c: Config, trace: seq<State>, k: nat, f: nat) returns (p: nat)
    requires Run(c, trace) && k < |trace| && f < |c.paths|
    requires trace[k].fss[f].pc.Blocked? && !trace[k].fss[f].parentDidUpdate
    ensures p < |c.paths| && IsParent(c.paths, f, p)
    ensures !trace[k].fss[p].pc.Finished? && trace[k].fss[p].step == 0
  {
    InvOnRun(c, trace, k);
    var ps := Parents(c.paths, f);
    assert ParentsOk(trace[k].fss, ps, trace[k].fss[f]);
    var j :| 0 <= j < |ps| && ps[j] < |trace[k].fss| && Awaited(trace[k].fss[ps[j]]);
    p := ps[j];
  }

  lemma StableAt(c: Config, trace: seq<State>, k: nat, g: nat)
    requires Run(c, trace) && k + 1 < |trace| && g < |c.paths|
    ensures Settles(trace[k].fss[g], trace[k + 1].fss[g])
  {
    InvOnRun(c, trace, k);
    assert MovesAt(c, trace, k);
    var e :| Transition(c, trace[k], e, trace[k + 1]);
    Stable(c, trace[k], e, trace[k + 1], g);
  }

  lemma {:induction false} StableOnRun(c: Config, trace: seq<State>, k: nat, l: nat, g: nat)
    requires Run(c, trace) && k <= l < |trace| && g < |c.paths|
    ensures Settles(trace[k].fss[g], trace[l].fss[g])
  {
    if k < l {
      StableOnRun(c, trace, k, l - 1, g);
      StableAt(c, trace, l - 1, g);
    }
  }

  /** An ancestor that ends without being on the receiver makes every filesystem below it fail without a step. */
  lemma FailedAncestor(c: Config, trace: seq<State>, k: nat, l: nat, f: nat, p: nat)
    requires Run(c, trace) && k <= l < |trace| && f < |c.paths| && IsParent(c.paths, f, p)
    requires trace[k].fss[p].pc.Finished? && !Present(trace[k].fss[p])
    ensures trace[l].fss[f].step == 0 && !InSteps(trace[l].fss[f])
    ensures trace[l].fss[f].pc.Finished? ==> trace[l].fss[f].planErr || trace[l].fss[f].stepErr
  {
    StableOnRun(c, trace, k, l, p);
    InvOnRun(c, trace, l);
    assert ParentsOk(trace[l].fss, Parents(c.paths, f), trace[l].fss[f]);
    ParentsComplete(c.paths, f, |c.paths|, p);
  }

  // Runs without faults.

  predicate CleanEvent(c: Config, e: Event) {
    match e
    case Cancel => false
    case ReturnPlan(f, plan) => f < |c.prev| && plan.Some? && Cut(c.prev[f], plan.value).Some?
    case ReturnStep(_, ok) => ok
    case _ => true
  }

  predicate Faultless(prev: Option<seq<StepInfo>>, x: Fs) {
    && !x.planErr && !x.stepErr
    && (x.pc.PlanReturned? ==> x.pc.plan.Some? && Cut(prev, x.pc.plan.value).Some?)
    && (x.pc.Inspect? ==> !x.pc.failed)
    && (x.pc.StepReturned? ==> x.pc.ok)
  }

  ghost predicate AllFaultless(c: Config, s: State) {
    !s.cancelled && forall f :: 0 <= f < |s.fss| && f < |c.prev| ==> Faultless(c.prev[f], s.fss[f])
  }

  lemma FaultlessAfter(c: Config, s: State, e: Event)
    requires |s.fss| == |c.paths| == |c.prev| && AllFaultless(c, s) && CleanEvent(c, e) && e.f < |s.fss|
    requires After(c, s, e).Some?
    ensures Faultless(c.prev[e.f], After(c, s, e).value)
  {
    assert Faultless(c.prev[e.f], s.fss[e.f]);
    var x := s.fss[e.f];
    if x.pc.Inspect? && x.pc.next < |Parents(c.paths, e.f)| {
      var p := Parents(c.paths, e.f)[x.pc.next];
      assert Faultless(c.prev[p], s.fss[p]);
    }
  }

  lemma FaultlessFramed(c: Config, s: State, f: nat, s': State)
    requires |s.fss| == |c.paths| == |c.prev| && f < |s.fss| && AllFaultless(c, s)
    requires Framed(c.paths, s.fss, f, s'.fss) && s'.cancelled == s.cancelled && Faultless(c.prev[f], s'.fss[f])
    ensures AllFaultless(c, s')
  {
    forall g | 0 <= g < |s'.fss| ensures Faultless(c.prev[g], s'.fss[g]) {
      assert Faultless(c.prev[g], s.fss[g]);
    }
  }

  lemma FaultlessStep(c: Config, s: State, e: Event, s': State)
    requires Inv(c, s) && AllFaultless(c, s) && Transition(c, s, e, s') && CleanEvent(c, e)
    ensures AllFaultless(c, s')
  {
    FaultlessAfter(c, s, e);
    FaultlessFramed(c, s, e.f, s');
  }

  ghost predicate CleanAt(c: Config, trace: seq<State>, k: nat)
    requires |c.prev| == |c.paths|
  {
    && k + 1 < |trace| && |trace[k].fss| == |c.paths|
    && exists e :: Transition(c, trace[k], e, trace[k + 1]) && CleanEvent(c, e)
  }

  ghost predicate CleanRun(c: Config, trace: seq<State>)
    requires |c.prev| == |c.paths|
  {
    forall i :: 0 <= i < |trace| - 1 ==> CleanAt(c, trace, i)
  }

  lemma FaultlessNext(c: Config, trace: seq<State>, k: nat)
    requires Run(c, trace) && CleanRun(c, trace) && k + 1 < |trace| && AllFaultless(c, trace[k])
    ensures AllFaultless(c, trace[k + 1])
  {
    InvOnRun(c, trace, k);
    assert CleanAt(c, trace, k);
    var e :| Transition(c, trace[k], e, trace[k + 1]) && CleanEvent(c, e);
    FaultlessStep(c, trace[k], e, trace[k + 1]);
  }

  lemma {:induction false} FaultlessOnRun(c: Config, trace: seq<State>, k: nat)
    requires Run(c, trace) && k < |trace| && CleanRun(c, trace)
    ensures AllFaultless(c, trace[k])
  {
    if k > 0 {
      FaultlessOnRun(c, trace, k - 1);
      FaultlessNext(c, trace, k - 1);
    }
  }

  /** If no plan and no step fails and nobody cancels, every filesystem that ends has done all its steps. */
  lemma CleanRunCompletes(c: Config, trace: seq<State>, k: nat, f: nat)
    requires Run(c, trace) && k < |trace| && f < |c.paths| && CleanRun(c, trace)
    requires trace[k].fss[f].pc.Finished?
    ensures trace[k].fss[f].planDone && trace[k].fss[f].step == |trace[k].fss[f].steps|
  {
    InvOnRun(c, trace, k);
    FaultlessOnRun(c, trace, k);
    assert Faultless(c.prev[f], trace[k].fss[f]) && PcOk(trace[k].fss[f]);
  }

  /** What the error report of the attempt, which decides on a retry, takes from a filesystem. */
  predicate InErrorReport(x: Fs) {
    (x.planDone && x.planErr) || (x.planDone && x.stepErr)
  }

  /** The error report holds exactly the step errors: a planning error is never in it. */
  lemma PlanErrorsUnreported(c: Config, trace: seq<State>, k: nat, f: nat)
    requires Run(c, trace) && k < |trace| && f < |c.paths|
    ensures InErrorReport(trace[k].fss[f]) <==> trace[k].fss[f].stepErr
    ensures trace[k].fss[f].planErr ==> !InErrorReport(trace[k].fss[f])
  {
    InvOnRun(c, trace, k);
    assert PcOk(trace[k].fss[f]);
  }
}
