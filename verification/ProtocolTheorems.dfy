/** What the protocol invariant means for planning, and where the promises end. */
module ProtocolTheorems {
  import opened Versions
  import opened Diff
  import opened Planner
  import opened Convergence
  import opened Protocol

  /** A listing of the versions in `all`, in any order. */
  ghost predicate Lists(l: seq<Version>, all: set<Version>) {
    multiset(l) == multiset(all)
  }

  lemma ListMembers(l: seq<Version>, all: set<Version>)
    requires Lists(l, all)
    ensures forall v :: v in l <==> v in all
  {
    forall v ensures v in l <==> v in all {
      assert v in multiset(l) <==> v in multiset(all);
    }
  }

  lemma ListingWellFormed(job: string, s: State, l: seq<Version>)
    requires History(job, s) && Lists(l, s.sender.All())
    ensures WellFormed(l)
  {
    ListMembers(l, s.sender.All());
    forall v | v in l ensures Known(s.taken, v) {}
    forall v, w | v in l && w in l ensures Agree(v, w) {
      var t :| t in s.taken && t.guid == v.guid && t.txg == v.txg;
      var u :| u in s.taken && u.guid == w.guid && u.txg == w.txg;
      assert Agree(t, u);
    }
  }

  /** Every set of versions can be listed. */
  lemma {:induction false} ListingExists(all: set<Version>) returns (l: seq<Version>)
    ensures Lists(l, all)
  {
    if all == {} {
      l := [];
    } else {
      var v :| v in all;
      var rest := ListingExists(all - {v});
      l := rest + [v];
      assert all == (all - {v}) + {v};
    }
  }

  // ----- What is promised -----

  /** Planning against a receiver that has snapshots never reports a missing or diverged common ancestor. */
  lemma PlanSucceeds(own: bool, o: Options, job: string, s: State, l: seq<Version>, policy: InitialReplication, res: PlanResult)
    requires Inv(own, o, job, s) && s.receiver.snaps != []
    requires Lists(l, s.sender.All()) && IsPlanOf(res, s.receiver.snaps, l, None, policy)
    ensures res.Planned?
  {
    var rs := s.receiver.snaps;
    ListMembers(l, s.sender.All());
    ListingWellFormed(job, s, l);
    var v :| v in s.sender.Keepers(own) && v.guid == rs[|rs| - 1].guid;
    assert v in l;
    var ss := UnpackPlan(res, rs, l, policy);
    SameElements(ss, l);
    assert NewestShared(rs, ss);
    PlanFromBase(rs, ss, policy);
  }

  /** The receiver's newest snapshot is held there, and its guid is kept on the sender, if `own` by the job's own cursor,
      tentative cursor or step hold. */
  ghost predicate BaseKept(own: bool, s: State)
    requires s.receiver.snaps != []
  {
    var newest := s.receiver.snaps[|s.receiver.snaps| - 1];
    newest in s.receiver.holds && Kept(own, s.sender, newest.guid)
  }

  lemma BaseOfInv(own: bool, o: Options, job: string, s: State, l: seq<Version>, policy: InitialReplication, res: PlanResult)
    requires Inv(own, o, job, s) && s.receiver.snaps != []
    requires Lists(l, s.sender.All()) && IsPlanOf(res, s.receiver.snaps, l, None, policy)
    ensures BaseKept(own, s) && res.Planned?
  {
    PlanSucceeds(own, o, job, s, l, policy, res);
  }

  /** The common base is never lost: in every state of every run in which the receiver has a snapshot, its newest one
      is held there, the job itself keeps its guid on the sender, and every plan made from any listing of the two sides
      succeeds, whatever was lost, skipped, pruned or destroyed by others before. For the one pair of guarantees that
      does not promise this, other bookmarks count too, in runs in which nobody destroys those. */
  lemma CommonBaseNeverLost(own: bool, o: Options, job: string, trace: seq<State>, i: nat, l: seq<Version>,
                            policy: InitialReplication, res: PlanResult)
    requires Run(o, job, trace) && PromisedOn(own, o, trace) && i < |trace|
    requires trace[i].receiver.snaps != []
    requires Lists(l, trace[i].sender.All()) && IsPlanOf(res, trace[i].receiver.snaps, l, None, policy)
    ensures BaseKept(own, trace[i]) && res.Planned?
  {
    InvOnRun(own, o, job, trace, i);
    BaseOfInv(own, o, job, trace[i], l, policy, res);
  }

  /** The first target of a plan is a snapshot newer than what the plan starts from. */
  lemma FirstTarget(ss: seq<Version>, from: Option<Version>, j: nat)
    requires WellFormed(ss) && j < |Snaps(ss)|
    requires from.Some? ==> from.value in ss && forall v :: v in Snaps(ss)[j..] ==> v.txg > from.value.txg
    ensures Snaps(ss)[j] in ss && Snaps(ss)[j].typ.Snapshot? && Guid(from) != Some(Snaps(ss)[j].guid)
  {
    SnapsMembers(ss);
    var to := Snaps(ss)[j];
    assert to in Snaps(ss) && to in Snaps(ss)[j..];
    if from.Some? {
      assert Agree(from.value, to);
    }
  }

  /** Whenever nothing is under way and the receiver holds no token, the first step of any non-empty plan is one
      `Send` accepts. */
  lemma PlannedStepIsAllowed(o: Options, job: string, s: State, l: seq<Version>, policy: InitialReplication, steps: seq<Step>)
    requires Core(o, job, s) && s.flight.Idle? && s.receiver.token == None && s.sender.snaps != {}
    requires Lists(l, s.sender.All()) && IsPlanOf(Planned(steps), s.receiver.snaps, l, None, policy) && steps != []
    ensures steps[0].to.Some? && SendAllowed(s, steps[0].from, steps[0].to.value)
  {
    ListMembers(l, s.sender.All());
    ListingWellFormed(job, s, l);
    var v :| v in s.sender.snaps;
    assert v in l;
    var ss := UnpackPlan(Planned(steps), s.receiver.snaps, l, policy);
    SameElements(ss, l);
    SnapsMembers(ss);
    assert v in Snaps(ss);
    var from, j := PlanShape(s.receiver.snaps, ss, policy);
    assert steps == PlanFrom(from, Snaps(ss)[j..]) && j < |Snaps(ss)|;
    FirstTarget(ss, from, j);
    InSnaps(job, s, Snaps(ss)[j]);
    Prefers(s, ss, from);
  }

  lemma Prefers(s: State, ss: seq<Version>, from: Option<Version>)
    requires forall v :: v in s.sender.snaps ==> v in ss && v.typ.Snapshot?
    requires from.Some? && from.value.typ.Bookmark? ==> NoSnapshotOf(ss, from.value.guid)
    ensures PrefersSnapshot(s.sender, from)
  {
  }

  lemma InSnaps(job: string, s: State, v: Version)
    requires History(job, s) && v in s.sender.All() && v.typ.Snapshot?
    ensures v in s.sender.snaps
  {
  }

  // ----- Resume tokens -----

  function TokenOf(t: Token): (r: ResumeToken) {
    ResumeToken(t.from, Some(t.to))
  }

  /** A token of a step under resumability still has its target, step-held, so there is a plan to resume it. */
  lemma ResumePlanned(o: Options, job: string, s: State, ss: seq<Version>)
    requires Safe(o, job, s) && s.receiver.token.Some?
    requires forall v :: v in ss <==> v in s.sender.All()
    requires Strategy(o, s.receiver.token.value.from.Some?).Resumability?
    ensures var res := PlanResume(ss, TokenOf(s.receiver.token.value));
            && res.Planned? && res.steps[0].resume && res.steps[0].to.Some?
            && res.steps[0].to.value in s.sender.holds
  {
    var t := s.receiver.token.value;
    ResumePlanExact(ss, TokenOf(t));
    var h :| h in s.sender.holds && h.guid == t.to;
    assert h in ss;
    var first := PlanResume(ss, TokenOf(t)).steps[0];
    assert Agree(first.to.value, h);
  }

  lemma ResumeStep(own: bool, o: Options, job: string, s: State, ss: seq<Version>)
    requires Inv(own, o, job, s) && s.receiver.token.Some? && s.flight.Idle?
    requires forall v :: v in ss <==> v in s.sender.All()
    requires Strategy(o, s.receiver.token.value.from.Some?).Resumability?
    ensures var res := PlanResume(ss, TokenOf(s.receiver.token.value));
            && res.Planned? && res.steps[0].to.Some? && SendAllowed(s, res.steps[0].from, res.steps[0].to.value)
  {
    var t := s.receiver.token.value;
    ResumePlanned(o, job, s, ss);
    ResumePlanExact(ss, TokenOf(t));
    if t.from.Some? {
      var v :| v in s.sender.Keepers(own) && v.guid == t.from.value;
      assert v in ss;
    }
    Prefers(s, ss, PlanResume(ss, TokenOf(t)).steps[0].from);
  }

  /** Resumability: in every state of every run, a resume token left behind by a step under that guarantee can be used.
      Its target is still a step-held snapshot of the sender, every resume plan exists and starts with the
      interrupted step, and `Send` accepts that step. */
  lemma ResumeAlwaysPossible(own: bool, o: Options, job: string, trace: seq<State>, i: nat, l: seq<Version>,
                             policy: InitialReplication, res: PlanResult)
    requires Run(o, job, trace) && PromisedOn(own, o, trace) && i < |trace|
    requires trace[i].receiver.token.Some? && trace[i].flight.Idle?
    requires Strategy(o, trace[i].receiver.token.value.from.Some?).Resumability?
    requires Lists(l, trace[i].sender.All())
    requires IsPlanOf(res, trace[i].receiver.snaps, l, Some(TokenOf(trace[i].receiver.token.value)), policy)
    ensures res.Planned? && res.steps[0].resume && res.steps[0].to.Some?
    ensures res.steps[0].to.value in trace[i].sender.holds
    ensures SendAllowed(trace[i], res.steps[0].from, res.steps[0].to.value)
  {
    var s := trace[i];
    InvOnRun(own, o, job, trace, i);
    ListMembers(l, s.sender.All());
    var h :| h in s.sender.holds && h.guid == s.receiver.token.value.to;
    assert h in l;
    var ss :| IsSortOf(ss, l) && res == PlanResume(ss, TokenOf(s.receiver.token.value));
    SameElements(ss, l);
    ResumePlanned(o, job, s, ss);
    ResumeStep(own, o, job, s, ss);
  }

  /** A resumed `Send` holds its target again before the cleanup can release it, so the token stays usable. */
  lemma ResumedSendKeepsHold(own: bool, o: Options, job: string, s: State, from: Option<Version>, to: Version, streaming: bool,
                             s': State)
    requires Promised(own, o, s, s') && Inv(own, o, job, s) && s.receiver.token.Some?
    requires Strategy(o, s.receiver.token.value.from.Some?).Resumability?
    requires Transition(o, job, s, Send(from, to, streaming), s')
    ensures to in s'.sender.holds && to.guid == s'.receiver.token.value.to
    ensures from.Some? ==> Kept(own, s'.sender, from.value.guid)
  {
    SendProtectsTarget(Strategy(o, from.Some?), job, s, from, to, s'.sender, own);
    if from.Some? {
      SendProtectsFrom(Strategy(o, from.Some?), job, s, from.value, to, s'.sender, own);
    }
  }

  /** An idle state whose token is of a full (`b` false) or an incremental step. */
  ghost predicate HasToken(s: State, b: bool) {
    s.flight.Idle? && s.receiver.token.Some? && s.receiver.token.value.from.Some? == b
  }

  /** Some plan with the state's token fails. */
  ghost predicate TokenPlanFails(s: State, policy: InitialReplication)
    requires s.receiver.token.Some?
  {
    exists l, res: PlanResult :: Lists(l, s.sender.All()) && !res.Planned?
                     && IsPlanOf(res, s.receiver.snaps, l, Some(TokenOf(s.receiver.token.value)), policy)
  }

  /** The token's target is gone for ever: its guid was taken, and the sender does not have the snapshot. */
  ghost predicate Stuck(s: State, t: Token) {
    && s.flight.Idle? && s.receiver.token == Some(t)
    && (exists w :: w in s.taken && w.guid == t.to)
    && (forall v :: v in s.sender.snaps ==> v.guid != t.to)
  }

  lemma StuckStep(o: Options, job: string, s: State, e: Event, s': State, t: Token)
    requires Stuck(s, t) && Transition(o, job, s, e, s')
    ensures Stuck(s', t)
  {
    var w :| w in s.taken && w.guid == t.to;
    assert w in s'.taken;
  }

  /** A stuck token is never used up, replaced or freed by the protocol. */
  lemma {:induction false} StuckForGood(o: Options, job: string, trace: seq<State>, i: nat, k: nat, t: Token)
    requires Run(o, job, trace) && i <= k < |trace| && Stuck(trace[i], t)
    ensures Stuck(trace[k], t)
  {
    if i < k {
      StuckForGood(o, job, trace, i, k - 1, t);
      assert MovesAt(o, job, trace, k - 1);
      var e :| Transition(o, job, trace[k - 1], e, trace[k]);
      StuckStep(o, job, trace[k - 1], e, trace[k], t);
    }
  }

  lemma StuckHasNoPlan(job: string, s: State, t: Token, l: seq<Version>, policy: InitialReplication, res: PlanResult)
    requires History(job, s) && Stuck(s, t) && Lists(l, s.sender.All())
    requires IsPlanOf(res, s.receiver.snaps, l, Some(TokenOf(t)), policy)
    ensures !res.Planned?
  {
    ListMembers(l, s.sender.All());
    if l != [] {
      var ss :| IsSortOf(ss, l) && res == PlanResume(ss, TokenOf(t));
      SameElements(ss, l);
      ResumePlanExact(ss, TokenOf(t));
    }
  }

  lemma StuckFails(job: string, s: State, t: Token, policy: InitialReplication)
    requires History(job, s) && Stuck(s, t)
    ensures TokenPlanFails(s, policy)
  {
    var l := ListingExists(s.sender.All());
    var ss := SortExists(l);
    var res := if l == [] then NoVersions else PlanResume(ss, TokenOf(t));
    assert IsPlanOf(res, s.receiver.snaps, l, Some(TokenOf(t)), policy);
    StuckHasNoPlan(job, s, t, l, policy, res);
  }

  /** Once a token's target is pruned, every later state has that token, and no plan. */
  lemma StuckTokenBlocksPlanning(o: Options, job: string, trace: seq<State>, i: nat, k: nat, t: Token, l: seq<Version>,
                                 policy: InitialReplication, res: PlanResult)
    requires Run(o, job, trace) && i <= k < |trace| && Stuck(trace[i], t)
    requires Lists(l, trace[k].sender.All()) && IsPlanOf(res, trace[k].receiver.snaps, l, Some(TokenOf(t)), policy)
    ensures trace[k].receiver.token == Some(t) && !res.Planned?
  {
    StuckForGood(o, job, trace, i, k, t);
    SafeOnRun(o, job, trace, k);
    StuckHasNoPlan(job, trace[k], t, l, policy, res);
  }

  // ----- Where the promises end -----

  const A := Version(Snapshot, "a", 1, 10)
  const B := Version(Snapshot, "b", 2, 20)
  const F := Version(Bookmark, "f", 1, 10)
  const NOTHING := Sender({}, {}, {}, {}, {})
  const START := State(NOTHING, Receiver([], {}, None), Idle, {})

  /** Some plan of state `s` is a conflict. */
  ghost predicate CanConflict(s: State, policy: InitialReplication) {
    exists l, res :: Lists(l, s.sender.All()) && IsPlanOf(res, s.receiver.snaps, l, None, policy) && res.Conflict?
  }

  /** The sender has versions, but none of the receiver's newest snapshot. */
  ghost predicate BaseGone(s: State) {
    && ReceiverList(s.receiver.snaps) && s.receiver.snaps != [] && s.sender.All() != {} && s.sender.holds <= s.sender.snaps
    && forall v :: v in s.sender.All() ==> v.guid != s.receiver.snaps[|s.receiver.snaps| - 1].guid
  }

  lemma BaseGoneConflicts(s: State, policy: InitialReplication)
    requires BaseGone(s)
    ensures CanConflict(s, policy) && !BaseKept(true, s)
  {
    var l := ListingExists(s.sender.All());
    ListMembers(l, s.sender.All());
    var v :| v in s.sender.All();
    assert v in l;
    var res := ConflictPlan(s.receiver.snaps, l, policy);
    assert forall v :: v in s.sender.Keepers(true) ==> v in s.sender.All();
  }

  lemma ConflictPlan(rs: seq<Version>, l: seq<Version>, policy: InitialReplication) returns (res: PlanResult)
    requires ReceiverList(rs) && rs != [] && l != [] && !HasGuid(l, rs[|rs| - 1].guid)
    ensures IsPlanOf(res, rs, l, None, policy) && res.Conflict?
  {
    var ss := SortExists(l);
    SameElements(ss, l);
    assert l[0] in ss;
    res := PlanSorted(rs, ss, policy);
    NewestMissing(rs, ss, policy);
    SnapsKeepAll(rs);
    assert IsSortOf(rs, Snaps(rs));
  }

  lemma NewestMissing(rs: seq<Version>, ss: seq<Version>, policy: InitialReplication)
    requires rs != [] && ss != [] && !HasGuid(ss, rs[|rs| - 1].guid)
    ensures PlanSorted(rs, ss, policy).Conflict?
  {
    ConflictsExact(rs, ss);
  }

  /** The first full send. */
  lemma FirstSent(o: Options, job: string) returns (s: State)
    ensures Reachable(o, job, s)
    ensures s == State(PreSend(o.initial, job, NOTHING.(snaps := {A}), None, A), START.receiver, Sent(None, A), {A})
  {
    var s1 := State(NOTHING.(snaps := {A}), START.receiver, Idle, {A});
    s := s1.(sender := PreSend(o.initial, job, s1.sender, None, A), flight := Sent(None, A));
    ReachableInit(o, job, START);
    ReachableNext(o, job, START, Take(A), s1);
    ReachableNext(o, job, s1, Send(None, A, true), s);
  }

  /** What a receive of the first snapshot holds. */
  function FirstHeld(o: Options): (r: set<Version>) {
    if o.initial.NoGuarantee? then {} else {Recvd(A, 5)}
  }

  lemma FirstReceived(o: Options, job: string) returns (s: State)
    ensures Reachable(o, job, s)
    ensures s == State(PreSend(o.initial, job, NOTHING.(snaps := {A}), None, A),
                       Receiver([Recvd(A, 5)], FirstHeld(o), None), Received(None, A), {A})
  {
    var s2 := FirstSent(o, job);
    s := s2.(receiver := Receiver([Recvd(A, 5)], FirstHeld(o), None), flight := Received(None, A));
    ReachableNext(o, job, s2, ReceiveOk(5, false), s);
  }

  /** An unguarded initial replication loses the base: nothing keeps the replicated snapshot on the sender. */
  lemma UnguardedInitialLosesBase(o: Options, job: string) returns (s: State)
    requires o.initial.NoGuarantee?
    ensures Reachable(o, job, s) && BaseGone(s)
  {
    var s3 := FirstReceived(o, job);
    var s4 := s3.(sender := NOTHING);
    s := s4.(sender := NOTHING.(snaps := {B}), taken := {A, B});
    ReachableNext(o, job, s3, PruneSender(A), s4);
    ReachableNext(o, job, s4, Take(B), s);
  }

  /** An unguarded incremental step leaves nothing behind on either side. */
  lemma UnguardedIncrement(o: Options, job: string) returns (s: State)
    requires !o.initial.NoGuarantee? && o.incremental.NoGuarantee?
    ensures Reachable(o, job, s) && s.receiver.snaps == [Recvd(A, 5), Recvd(B, 6)]
    ensures s.sender == Sender({A, B}, {}, {}, {CursorOf(job, A)}, {})
  {
    var s4 := InitialReplicated(o, job);
    var s5 := s4.(sender := s4.sender.(snaps := {A, B}), taken := {A, B});
    var s6 := s5.(flight := Sent(Some(A), B));
    s := s6.(receiver := Receiver([Recvd(A, 5)] + [Recvd(B, 6)], {Recvd(A, 5)}, None), flight := Received(Some(A), B));
    ReachableNext(o, job, s4, Take(B), s5);
    ReachableNext(o, job, s5, Send(Some(A), B, true), s6);
    ReachableNext(o, job, s6, ReceiveOk(6, true), s);
  }

  /** So the sender may prune what it just replicated. */
  lemma UnguardedIncrementLosesBase(o: Options, job: string) returns (s: State)
    requires !o.initial.NoGuarantee? && o.incremental.NoGuarantee?
    ensures Reachable(o, job, s) && BaseGone(s)
  {
    var s7 := UnguardedIncrement(o, job);
    s := s7.(sender := s7.sender.(snaps := {A}));
    ReachableNext(o, job, s7, PruneSender(B), s);
  }

  /** An initial replication under the incremental guarantee whose completion is lost, with somebody's bookmark of the
      snapshot, which is then pruned. */
  lemma OnlyTentative(o: Options, job: string) returns (s: State)
    requires o.initial.Incremental?
    ensures Reachable(o, job, s)
    ensures s == State(Sender({}, {}, {TentativeOf(job, A)}, {}, {F}), Receiver([Recvd(A, 5)], {Recvd(A, 5)}, None), Idle, {A})
  {
    var s3 := FirstReceived(o, job);
    var s4 := s3.(flight := Idle);
    var s5 := s4.(sender := s4.sender.(foreign := {F}));
    s := s5.(sender := s5.sender.(snaps := {}));
    ReachableNext(o, job, s3, CompletedLost, s4);
    assert A in s4.sender.snaps;
    ReachableNext(o, job, s4, MakeBookmark(F), s5);
    ReachableNext(o, job, s5, PruneSender(A), s);
  }

  /** A resumable step that starts from somebody's bookmark destroys the tentative cursor of an initial replication under
      the incremental guarantee; once that bookmark is destroyed the base is gone. */
  lemma MixedGuaranteesLoseBase(o: Options, job: string) returns (s: State)
    requires o.initial.Incremental? && o.incremental.Resumability?
    ensures Reachable(o, job, s) && BaseGone(s)
  {
    var s6 := OnlyTentative(o, job);
    var s7 := s6.(sender := s6.sender.(snaps := {B}), taken := {A, B});
    var s8 := s7.(sender := Sender({B}, {B}, {}, {}, {F}));
    s := s8.(sender := Sender({B}, {B}, {}, {}, {}));
    ReachableNext(o, job, s6, Take(B), s7);
    ReachableNext(o, job, s7, Send(Some(F), B, false), s8);
    ReachableNext(o, job, s8, DestroyForeign(F), s);
  }

  lemma UnguardedLosesBase(o: Options, job: string) returns (s: State)
    requires !OwnGuarded(o)
    ensures Reachable(o, job, s) && BaseGone(s)
  {
    if o.initial.NoGuarantee? {
      s := UnguardedInitialLosesBase(o, job);
    } else if o.incremental.NoGuarantee? {
      s := UnguardedIncrementLosesBase(o, job);
    } else {
      s := MixedGuaranteesLoseBase(o, job);
    }
  }

  lemma ReachableInv(o: Options, job: string, s: State)
    requires OwnGuarded(o) && Reachable(o, job, s)
    ensures Inv(true, o, job, s)
  {
    var trace :| Run(o, job, trace) && trace[|trace| - 1] == s;
    InvOnRun(true, o, job, trace, |trace| - 1);
  }

  lemma InvNeverConflicts(o: Options, job: string, s: State, policy: InitialReplication)
    requires Inv(true, o, job, s) && s.receiver.snaps != []
    ensures !CanConflict(s, policy) && BaseKept(true, s)
  {
    forall l, res | Lists(l, s.sender.All()) && IsPlanOf(res, s.receiver.snaps, l, None, policy) ensures res.Planned? {
      PlanSucceeds(true, o, job, s, l, policy, res);
    }
  }

  /** The condition is exact: in every reachable state with replicated snapshots the job itself keeps the base, and no
      such state can end in a conflict, if and only if neither kind of step is configured without a guarantee and
      initial replication is not `incremental` under `resumability` for the steps after it. */
  lemma GuaranteeExact(o: Options, job: string, policy: InitialReplication)
    ensures OwnGuarded(o) <==> forall s :: Reachable(o, job, s) && s.receiver.snaps != [] ==> BaseKept(true, s)
    ensures OwnGuarded(o) <==> forall s :: Reachable(o, job, s) && s.receiver.snaps != [] ==> !CanConflict(s, policy)
  {
    if OwnGuarded(o) {
      forall s | Reachable(o, job, s) && s.receiver.snaps != [] ensures !CanConflict(s, policy) && BaseKept(true, s) {
        ReachableInv(o, job, s);
        InvNeverConflicts(o, job, s, policy);
      }
    } else {
      var s := UnguardedLosesBase(o, job);
      BaseGoneConflicts(s, policy);
    }
  }

  /** A full send without resumability at most bookmarks its target: the snapshot may be pruned under the token. */
  lemma FullTokenCanStick(o: Options, job: string) returns (s: State)
    requires !o.initial.Resumability?
    ensures Reachable(o, job, s) && Stuck(s, Token(None, A.guid))
  {
    var s2 := FirstSent(o, job);
    var s3 := s2.(receiver := Receiver([], {}, Some(Token(None, A.guid))), flight := Idle);
    s := s3.(sender := s3.sender.(snaps := {}));
    ReachableNext(o, job, s2, ReceiveFailed(Some(Token(None, A.guid))), s3);
    ReachableNext(o, job, s3, PruneSender(A), s);
    assert A in s.taken;
  }

  lemma SecondSent(o: Options, job: string) returns (s: State)
    ensures Reachable(o, job, s) && s.receiver == Receiver([Recvd(A, 5)], FirstHeld(o), None)
    ensures s.sender == PreSend(o.incremental, job, Sender({A, B}, {}, {}, FirstCursor(o, job), {}), Some(A), B)
    ensures s.flight == Sent(Some(A), B) && s.taken == {A, B}
  {
    var s4 := InitialReplicated(o, job);
    var s5 := s4.(sender := s4.sender.(snaps := {A, B}), taken := {A, B});
    s := s5.(sender := PreSend(o.incremental, job, s5.sender, Some(A), B), flight := Sent(Some(A), B));
    ReachableNext(o, job, s4, Take(B), s5);
    ReachableNext(o, job, s5, Send(Some(A), B, true), s);
  }

  /** The same for an incremental step. */
  lemma IncrementalTokenCanStick(o: Options, job: string) returns (s: State)
    requires !o.incremental.Resumability?
    ensures Reachable(o, job, s) && Stuck(s, Token(Some(A.guid), B.guid))
  {
    var t := Token(Some(A.guid), B.guid);
    var s6 := SecondSent(o, job);
    var s7 := s6.(receiver := s6.receiver.(token := Some(t)), flight := Idle);
    s := s7.(sender := s7.sender.(snaps := {A}));
    ReachableNext(o, job, s6, ReceiveFailed(Some(t)), s7);
    ReachableNext(o, job, s7, PruneSender(B), s);
    assert B in s.taken;
  }

  lemma TokenPlansSucceed(o: Options, job: string, s: State, b: bool, policy: InitialReplication)
    requires Safe(o, job, s) && HasToken(s, b) && Strategy(o, b).Resumability?
    ensures !TokenPlanFails(s, policy)
  {
    var t := TokenOf(s.receiver.token.value);
    forall l, res | Lists(l, s.sender.All()) && IsPlanOf(res, s.receiver.snaps, l, Some(t), policy) ensures res.Planned? {
      ListMembers(l, s.sender.All());
      var h :| h in s.sender.holds && h.guid == t.to.value;
      assert h in l;
      var ss :| IsSortOf(ss, l) && res == PlanResume(ss, t);
      SameElements(ss, l);
      ResumePlanned(o, job, s, ss);
    }
  }

  lemma ReachableSafe(o: Options, job: string, s: State)
    requires Reachable(o, job, s)
    ensures Safe(o, job, s)
  {
    var trace :| Run(o, job, trace) && trace[|trace| - 1] == s;
    SafeOnRun(o, job, trace, |trace| - 1);
  }

  /** For all options: a token of a full or of an incremental step never blocks planning if and only if that kind of step
      has the resumability guarantee. */
  lemma TokenExact(o: Options, job: string, b: bool, policy: InitialReplication)
    ensures Strategy(o, b).Resumability? <==> forall s :: Reachable(o, job, s) && HasToken(s, b) ==> !TokenPlanFails(s, policy)
  {
    if Strategy(o, b).Resumability? {
      forall s | Reachable(o, job, s) && HasToken(s, b) ensures !TokenPlanFails(s, policy) {
        ReachableSafe(o, job, s);
        TokenPlansSucceed(o, job, s, b, policy);
      }
    } else if b {
      var s := IncrementalTokenCanStick(o, job);
      ReachableSafe(o, job, s);
      StuckFails(job, s, Token(Some(A.guid), B.guid), policy);
    } else {
      var s := FullTokenCanStick(o, job);
      ReachableSafe(o, job, s);
      StuckFails(job, s, Token(None, A.guid), policy);
    }
  }

  // ----- A receive whose hold fails -----

  /** `Receive` returns an error after zfs has received the snapshot and before it is held. */
  ghost predicate ReceivedUnheld(s: State, txg: nat, s': State) {
    && s.flight.Sent? && (forall v :: v in s.receiver.snaps ==> v.txg < txg)
    && s' == s.(receiver := Receiver(s.receiver.snaps + [Recvd(s.flight.to, txg)], s.receiver.holds, None), flight := Idle)
  }

  ghost predicate UnheldNext(s: State, s': State) {
    exists txg :: ReceivedUnheld(s, txg, s')
  }

  /** A step of the protocol, or a receive without its hold. */
  ghost predicate FaultyMovesAt(o: Options, job: string, trace: seq<State>, i: nat) {
    i + 1 < |trace| && (Next(o, job, trace[i], trace[i + 1]) || UnheldNext(trace[i], trace[i + 1]))
  }

  ghost predicate FaultyRun(o: Options, job: string, trace: seq<State>) {
    && trace != [] && Init(trace[0])
    && forall i :: 0 <= i < |trace| - 1 ==> FaultyMovesAt(o, job, trace, i)
  }

  ghost predicate FaultyReachable(o: Options, job: string, s: State) {
    exists trace :: FaultyRun(o, job, trace) && trace[|trace| - 1] == s
  }

  lemma ReachableIsFaulty(o: Options, job: string, s: State)
    requires Reachable(o, job, s)
    ensures FaultyReachable(o, job, s)
  {
    var trace :| Run(o, job, trace) && trace[|trace| - 1] == s;
    forall i | 0 <= i < |trace| - 1 ensures FaultyMovesAt(o, job, trace, i) {
      assert MovesAt(o, job, trace, i);
    }
  }

  lemma FaultyReach(o: Options, job: string, s: State, s': State)
    requires FaultyReachable(o, job, s) && (Next(o, job, s, s') || UnheldNext(s, s'))
    ensures FaultyReachable(o, job, s')
  {
    var trace :| FaultyRun(o, job, trace) && trace[|trace| - 1] == s;
    var t := trace + [s'];
    forall i | 0 <= i < |t| - 1 ensures FaultyMovesAt(o, job, t, i) {
      assert i < |trace| - 1 ==> FaultyMovesAt(o, job, trace, i);
    }
    assert t[|t| - 1] == s';
  }

  lemma FaultyNext(o: Options, job: string, s: State, e: Event, s': State)
    requires FaultyReachable(o, job, s) && Transition(o, job, s, e, s')
    ensures FaultyReachable(o, job, s')
  {
    FaultyReach(o, job, s, s');
  }

  const C := Version(Snapshot, "c", 3, 30)

  /** The first snapshot was received, but that was never confirmed, and there is a second. */
  lemma Unconfirmed(o: Options, job: string) returns (s: State)
    requires Guarded(o)
    ensures Reachable(o, job, s) && s.flight == Idle && s.taken == {A, B}
    ensures s.receiver == Receiver([Recvd(A, 5)], {Recvd(A, 5)}, None)
    ensures s.sender.snaps == {A, B} && s.sender.cursors == {} && s.sender.foreign == {}
  {
    var s3 := FirstReceived(o, job);
    var s4 := s3.(flight := Idle);
    s := s4.(sender := s4.sender.(snaps := {A, B}), taken := {A, B});
    ReachableNext(o, job, s3, CompletedLost, s4);
    assert s4.sender.snaps + {B} == {A, B} && s4.taken + {B} == {A, B};
    assert Transition(o, job, s4, Take(B), s);
    ReachableNext(o, job, s4, Take(B), s);
  }

  lemma SecondUnderWay(o: Options, job: string) returns (s: State)
    requires Guarded(o)
    ensures Reachable(o, job, s) && s.flight == Sent(Some(A), B) && s.taken == {A, B}
    ensures s.receiver == Receiver([Recvd(A, 5)], {Recvd(A, 5)}, None)
    ensures s.sender.snaps == {A, B} && s.sender.cursors == {} && s.sender.foreign == {}
  {
    var s5 := Unconfirmed(o, job);
    s := s5.(sender := PreSend(o.incremental, job, s5.sender, Some(A), B), flight := Sent(Some(A), B));
    ReachableNext(o, job, s5, Send(Some(A), B, true), s);
  }

  lemma Unheld(o: Options, job: string) returns (s: State)
    requires Guarded(o)
    ensures FaultyReachable(o, job, s) && s.flight == Idle && s.taken == {A, B}
    ensures s.receiver == Receiver([Recvd(A, 5), Recvd(B, 6)], {Recvd(A, 5)}, None)
    ensures s.sender.snaps == {A, B} && s.sender.cursors == {} && s.sender.foreign == {}
  {
    var s6 := SecondUnderWay(o, job);
    ReachableIsFaulty(o, job, s6);
    s := s6.(receiver := Receiver([Recvd(A, 5)] + [Recvd(B, 6)], {Recvd(A, 5)}, None), flight := Idle);
    assert ReceivedUnheld(s6, 6, s);
    FaultyReach(o, job, s6, s);
  }

  /** What the next `Send` leaves on the sender. */
  function NextSent(kind: Kind, job: string): (r: Sender) {
    if kind.Resumability? then Sender({A, B, C}, {B, C}, {}, {}, {})
    else Sender({A, B, C}, {}, {TentativeOf(job, B), TentativeOf(job, C)}, {}, {})
  }

  lemma NextSend(kind: Kind, job: string, a: Sender)
    requires !kind.NoGuarantee? && a.snaps == {A, B, C} && a.cursors == {} && a.foreign == {}
    ensures SendEffect(kind, job, a, Some(B), C, NextSent(kind, job))
  {}

  lemma NothingOfFirst(kind: Kind, job: string)
    ensures var a := NextSent(kind, job).(snaps := {B, C});
            a.holds <= a.snaps && B in a.All() && forall v :: v in a.All() ==> v.guid != A.guid
    ensures A in NextSent(kind, job).snaps - NextSent(kind, job).holds && NextSent(kind, job).snaps - {A} == {B, C}
  {}

  lemma UnheldNextSent(o: Options, job: string) returns (s: State)
    requires Guarded(o)
    ensures FaultyReachable(o, job, s) && s.sender == NextSent(o.incremental, job)
    ensures s.receiver == Receiver([Recvd(A, 5), Recvd(B, 6)], {Recvd(A, 5)}, None)
  {
    var s7 := Unheld(o, job);
    var s8 := s7.(sender := s7.sender.(snaps := {A, B, C}), taken := {A, B, C});
    FaultyNext(o, job, s7, Take(C), s8);
    NextSend(o.incremental, job, s8.sender);
    s := s8.(sender := NextSent(o.incremental, job));
    FaultyNext(o, job, s8, Send(Some(B), C, false), s);
  }

  /** That holding what was received succeeds is needed: with any guarded options, one receive without its hold, a step
      that starts from it, and pruning lose the base. */
  lemma UnheldReceiveLosesBase(o: Options, job: string) returns (s: State)
    requires Guarded(o)
    ensures FaultyReachable(o, job, s) && BaseGone(s)
  {
    var s9 := UnheldNextSent(o, job);
    var s10 := s9.(sender := s9.sender.(snaps := {B, C}));
    NothingOfFirst(o.incremental, job);
    FaultyNext(o, job, s9, PruneSender(A), s10);
    var rs := s10.receiver.snaps;
    assert rs[..1] + rs[2..] == [Recvd(A, 5)];
    s := s10.(receiver := s10.receiver.(snaps := [Recvd(A, 5)]));
    FaultyNext(o, job, s10, PruneReceiver(1), s);
  }

  // ----- Older last-received-holds -----

  /** The cursor of the first snapshot. */
  function FirstCursor(o: Options, job: string): (r: set<Version>) {
    if o.initial.NoGuarantee? then {} else {CursorOf(job, A)}
  }

  /** One complete initial replication. */
  lemma InitialReplicated(o: Options, job: string) returns (s: State)
    ensures Reachable(o, job, s)
    ensures s == State(Sender({A}, {}, {}, FirstCursor(o, job), {}), Receiver([Recvd(A, 5)], FirstHeld(o), None), Idle, {A})
  {
    var s3 := FirstReceived(o, job);
    s := s3.(sender := Sender({A}, {}, {}, FirstCursor(o, job), {}), flight := Idle);
    ReachableNext(o, job, s3, Completed, s);
  }

  /** The `i`-th snapshot of a long run, and what the receiver makes of it. */
  function Nth(i: nat): (v: Version) {
    Version(Snapshot, seq(i + 1, _ => 'a'), i + 1, 10 * (i + 1))
  }

  function NthRecvd(i: nat): (v: Version) {
    Recvd(Nth(i), 5 + i)
  }

  function FirstRecvd(n: nat): (r: seq<Version>)
    ensures |r| == n + 1 && forall i :: 0 <= i <= n ==> r[i] == NthRecvd(i)
  {
    seq(n + 1, i requires 0 <= i => NthRecvd(i))
  }

  /** `n + 1` snapshots replicated one after the other, each pruned on the sender afterwards, with no last-received-hold
      ever released. */
  ghost predicate Chained(job: string, s: State, n: nat) {
    && s.sender == Sender({Nth(n)}, {}, {}, {CursorOf(job, Nth(n))}, {})
    && s.receiver.snaps == FirstRecvd(n) && s.receiver.token == None && s.flight == Idle
    && (forall i :: 0 <= i <= n ==> NthRecvd(i) in s.receiver.holds)
    && (forall v :: v in s.taken ==> v.guid <= n + 1 && v.txg <= 10 * (n + 1))
  }

  lemma ChainSend(o: Options, job: string, s: State, n: nat) returns (s': State)
    requires Guarded(o) && Reachable(o, job, s) && Chained(job, s, n)
    ensures Reachable(o, job, s') && s'.receiver == s.receiver && s'.flight == Sent(Some(Nth(n)), Nth(n + 1))
    ensures s'.sender.snaps == {Nth(n), Nth(n + 1)} && s'.sender.foreign == {} && s'.sender.cursors == s.sender.cursors
    ensures s'.taken == s.taken + {Nth(n + 1)}
  {
    var v, w := Nth(n), Nth(n + 1);
    var s1 := s.(sender := s.sender.(snaps := s.sender.snaps + {w}), taken := s.taken + {w});
    ReachableNext(o, job, s, Take(w), s1);
    s' := s1.(sender := PreSend(o.incremental, job, s1.sender, Some(v), w), flight := Sent(Some(v), w));
    ReachableNext(o, job, s1, Send(Some(v), w, true), s');
  }

  lemma ChainReceive(o: Options, job: string, s: State, n: nat) returns (s': State)
    requires Guarded(o) && Reachable(o, job, s) && Chained(job, s, n)
    ensures Reachable(o, job, s') && s'.flight == Received(Some(Nth(n)), Nth(n + 1))
    ensures s'.sender.snaps == {Nth(n), Nth(n + 1)} && s'.sender.foreign == {} && s'.taken == s.taken + {Nth(n + 1)}
    ensures s'.receiver == Receiver(s.receiver.snaps + [NthRecvd(n + 1)], s.receiver.holds + {NthRecvd(n + 1)}, None)
  {
    var r := NthRecvd(n + 1);
    var s2 := ChainSend(o, job, s, n);
    s' := s2.(receiver := Receiver(s.receiver.snaps + [r], s.receiver.holds + {r}, None),
              flight := Received(Some(Nth(n)), Nth(n + 1)));
    ReachableNext(o, job, s2, ReceiveOk(6 + n, true), s');
  }

  lemma ChainNext(o: Options, job: string, s: State, n: nat) returns (s': State)
    requires Guarded(o) && Reachable(o, job, s) && Chained(job, s, n)
    ensures Reachable(o, job, s') && Chained(job, s', n + 1)
  {
    var v, w := Nth(n), Nth(n + 1);
    var s3 := ChainReceive(o, job, s, n);
    var s4 := s3.(sender := Sender({v, w}, {}, {}, {CursorOf(job, w)}, {}), flight := Idle);
    ReachableNext(o, job, s3, Completed, s4);
    s' := s4.(sender := s4.sender.(snaps := {w}));
    ReachableNext(o, job, s4, PruneSender(v), s');
    assert s'.receiver.snaps == FirstRecvd(n + 1);
  }

  lemma {:induction false} ChainReachable(o: Options, job: string, n: nat) returns (s: State)
    requires Guarded(o)
    ensures Reachable(o, job, s) && Chained(job, s, n)
  {
    if n == 0 {
      s := InitialReplicated(o, job);
      assert Nth(0) == A && s.receiver.snaps == FirstRecvd(0);
    } else {
      var s0 := ChainReachable(o, job, n - 1);
      s := ChainNext(o, job, s0, n - 1);
    }
  }

  /** The receiver holds its `k`-th newest snapshot, counted from zero. */
  ghost predicate HoldsAt(s: State, k: nat) {
    k < |s.receiver.snaps| && s.receiver.snaps[|s.receiver.snaps| - 1 - k] in s.receiver.holds
  }

  /** A last-received-hold has its counterpart on the sender in every reachable state if and only if it is on the newest
      snapshot: the release of an older one can be skipped, and nothing on the sender keeps its guid. */
  lemma HoldProtectionExact(o: Options, job: string, k: nat)
    requires OwnGuarded(o)
    ensures k == 0 <==>
            forall s :: Reachable(o, job, s) && HoldsAt(s, k) ==> Kept(true, s.sender, s.receiver.snaps[|s.receiver.snaps| - 1 - k].guid)
  {
    if k == 0 {
      forall s | Reachable(o, job, s) && HoldsAt(s, k)
        ensures Kept(true, s.sender, s.receiver.snaps[|s.receiver.snaps| - 1 - k].guid)
      {
        ReachableInv(o, job, s);
      }
    } else {
      var s := OlderHoldIsNotProtected(o, job, k);
    }
  }

  /** For every guarded pair of options: a hold with any number of newer snapshots behind it, whose guid no version of the
      sender has. */
  lemma OlderHoldIsNotProtected(o: Options, job: string, k: nat) returns (s: State)
    requires Guarded(o) && k > 0
    ensures Reachable(o, job, s) && HoldsAt(s, k)
    ensures forall v :: v in s.sender.All() ==> v.guid != s.receiver.snaps[|s.receiver.snaps| - 1 - k].guid
    ensures !Kept(true, s.sender, s.receiver.snaps[|s.receiver.snaps| - 1 - k].guid)
  {
    s := ChainReachable(o, job, k);
    assert s.receiver.snaps[0] == NthRecvd(0);
  }
}
