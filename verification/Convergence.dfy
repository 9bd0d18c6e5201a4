/** Executing a plan: every step fits the receiver, re-planning after any prefix gives the remaining suffix,
    and a fully executed plan leaves nothing to do. */
module Convergence {
  import opened Versions
  import opened Diff
  import opened Planner

  // ----- Receiving -----

  predicate Fits(rs: seq<Version>, from: Option<Version>) {
    if from.None? then rs == [] else rs != [] && rs[|rs| - 1].guid == from.value.guid
  }

  /** `zfs recv`: the stream must start at the receiver's newest snapshot; the new snapshot gets a local createtxg. */
  function Recv(rs: seq<Version>, st: Step, txg: nat): (r: Option<seq<Version>>) {
    if st.to.Some? && Fits(rs, st.from) then
      Some(rs + [Version(Snapshot, st.to.value.name, st.to.value.guid, txg)])
    else None
  }

  function RecvAll(rs: seq<Version>, steps: seq<Step>, txgs: seq<nat>): (r: Option<seq<Version>>)
    requires |steps| == |txgs|
  {
    if steps == [] then Some(rs)
    else
      var n := |steps| - 1;
      var r := RecvAll(rs, steps[..n], txgs[..n]);
      if r.None? then None else Recv(r.value, steps[n], txgs[n])
  }

  /** Local createtxgs grow with every snapshot the receiver gets. */
  ghost predicate LaterTxgs(rs: seq<Version>, txgs: seq<nat>) {
    && (forall v, i :: v in rs && 0 <= i < |txgs| ==> v.txg < txgs[i])
    && (forall i, j :: 0 <= i < j < |txgs| ==> txgs[i] < txgs[j])
  }

  // ----- Snapshot lists -----

  lemma {:induction false} SnapsAfterOfSnaps(s: seq<Version>, t: nat)
    ensures SnapsAfter(s, t) == SnapsAfter(Snaps(s), t)
  {
    if s != [] {
      SnapsAfterOfSnaps(s[1..], t);
      assert s[0].typ.Snapshot? ==> Snaps(s)[1..] == Snaps(s[1..]);
    }
  }

  lemma SnapsAfterElement(snaps: seq<Version>, i: nat)
    requires StrictlyByTxg(snaps) && i < |snaps|
    requires forall v :: v in snaps ==> v.typ.Snapshot?
    ensures SnapsAfter(snaps, snaps[i].txg) == snaps[i + 1..]
  {
    assert snaps == snaps[..i + 1] + snaps[i + 1..];
    SnapsAfterSplit(snaps[..i + 1], snaps[i + 1..], snaps[i].txg);
    SnapsKeepAll(snaps[i + 1..]);
  }

  lemma {:induction false} AllAreAfter(snaps: seq<Version>, t: nat)
    requires StrictlyByTxg(snaps) && forall v :: v in snaps ==> v.typ.Snapshot?
    requires snaps != [] ==> snaps[0].txg > t
    ensures SnapsAfter(snaps, t) == snaps
  {
    if snaps != [] {
      AllAreAfter(snaps[1..], t);
    }
  }

  lemma {:induction false} SnapsAfterIsSuffix(snaps: seq<Version>, t: nat) returns (j: nat)
    requires StrictlyByTxg(snaps) && forall v :: v in snaps ==> v.typ.Snapshot?
    ensures j <= |snaps| && SnapsAfter(snaps, t) == snaps[j..]
  {
    if snaps == [] || snaps[0].txg > t {
      AllAreAfter(snaps, t);
      j := 0;
    } else {
      var rest := snaps[1..];
      var i := SnapsAfterIsSuffix(rest, t);
      j := i + 1;
      assert rest[i..] == snaps[j..];
    }
  }

  lemma {:induction false} AllAfter(s: seq<Version>, t: nat)
    ensures forall v :: v in SnapsAfter(s, t) ==> v.txg > t
  {
    if s != [] {
      AllAfter(s[1..], t);
    }
  }

  lemma {:induction false} NewestSnapIsLast(ss: seq<Version>)
    ensures NewestSnap(ss) == if Snaps(ss) == [] then None else Some(Snaps(ss)[|Snaps(ss)| - 1])
  {
    if ss != [] {
      var front, last := ss[..|ss| - 1], ss[|ss| - 1];
      assert ss == front + [last];
      SnapsConcat(front, [last]);
      NewestSnapIsLast(front);
    }
  }

  lemma {:induction false} StrictMultiplicity(b: seq<Version>, x: Version)
    requires StrictlyByTxg(b)
    ensures multiset(b)[x] <= 1
  {
    if b != [] {
      assert b == [b[0]] + b[1..];
      StrictMultiplicity(b[1..], x);
    }
  }

  /** Sorting a list with distinct createtxgs has one outcome. */
  lemma SortOfStrict(a: seq<Version>, b: seq<Version>)
    requires IsSortOf(a, b) && StrictlyByTxg(b)
    ensures a == b
  {
    SameElements(a, b);
    forall i, j | 0 <= i < j < |a| ensures a[i].txg < a[j].txg {
      assert !Less(a[j], a[i]);
      assert a[i] in b && a[j] in b;
      StrictMultiplicity(b, a[i]);
      if a[i] == a[j] {
        CountTwice(a, i, j);
      }
    }
    StrictUnique(a, b);
  }

  // ----- Shape of a plan -----

  /** The plan that replicates `targets` in order, the first one from `from`. */
  function PlanFrom(from: Option<Version>, targets: seq<Version>): (r: seq<Step>)
    ensures |r| == |targets|
    ensures forall i :: 0 <= i < |r| ==> r[i] == Step(if i == 0 then from else Some(targets[i - 1]), Some(targets[i]), false)
  {
    seq(|targets|, i requires 0 <= i < |targets| =>
      Step(if i == 0 then from else Some(targets[i - 1]), Some(targets[i]), false))
  }

  lemma StepsOfIsPlanFrom(from: Option<Version>, targets: seq<Version>)
    ensures StepsOf([from] + Somes(targets)) == PlanFrom(from, targets)
  {}

  lemma PlanOfBase(res: PathResult, rs: seq<Version>, ss: seq<Version>, policy: InitialReplication, base: Version, newer: seq<Version>)
    requires newer == [] ==> res == AlreadyPresent(ss, rs, base)
    requires newer != [] ==> res == Path([base] + newer)
    ensures PlanOfResult(res, policy) == Planned(PlanFrom(Some(base), newer))
  {
    assert Somes([base] + newer) == [Some(base)] + Somes(newer);
    StepsOfIsPlanFrom(Some(base), newer);
  }

  /** Planning from a common base. */
  lemma PlanFromBase(rs: seq<Version>, ss: seq<Version>, policy: InitialReplication)
    requires Sorted(ss) && WellFormed(ss) && NewestShared(rs, ss)
    ensures LastIndex(ss, rs[|rs| - 1].guid) >= 0
    ensures PlanSorted(rs, ss, policy) == Planned(PlanFrom(Some(Base(rs, ss)), SnapsAfter(Snaps(ss), Base(rs, ss).txg)))
  {
    PathIsNewerSnaps(rs, ss);
    var base := Base(rs, ss);
    PlanOfBase(IncPath(rs, ss), rs, ss, policy, base, SnapsAfter(ss, base.txg));
    SnapsAfterOfSnaps(ss, base.txg);
  }

  /** Planning of an initial replication. */
  lemma PlanInitial(ss: seq<Version>, policy: InitialReplication)
    requires Snaps(ss) != [] && !policy.Fail?
    ensures policy.All? ==> PlanSorted([], ss, policy) == Planned(PlanFrom(None, Snaps(ss)[0..]))
    ensures policy.MostRecent? ==> PlanSorted([], ss, policy) == Planned(PlanFrom(None, Snaps(ss)[|Snaps(ss)| - 1..]))
  {
    var snaps := Snaps(ss);
    var last := snaps[|snaps| - 1..];
    NewestSnapIsLast(ss);
    StepsOfIsPlanFrom(None, snaps);
    StepsOfIsPlanFrom(None, last);
    assert snaps[0..] == snaps;
    assert [None, NewestSnap(ss)] == [None] + Somes(last);
  }

  lemma PlannedCases(rs: seq<Version>, ss: seq<Version>, policy: InitialReplication)
    requires Snaps(ss) != [] && PlanSorted(rs, ss, policy).Planned?
    ensures NewestShared(rs, ss) || (rs == [] && !policy.Fail?)
  {
    ConflictsExact(rs, ss);
  }

  /** Which outcome planning without a token has, for every policy and all sorted lists. */
  lemma PlanOutcome(rs: seq<Version>, ss: seq<Version>, policy: InitialReplication)
    requires ss != []
    ensures PlanSorted(rs, ss, policy).Conflict? <==> !NewestShared(rs, ss) && (rs != [] || policy.Fail?)
    ensures PlanSorted(rs, ss, policy).PathOfOnePanic? <==> rs == [] && policy.All? && Snaps(ss) == []
    ensures PlanSorted(rs, ss, policy).Planned? <==>
            NewestShared(rs, ss) || (rs == [] && (policy.MostRecent? || (policy.All? && Snaps(ss) != [])))
  {
    ConflictsExact(rs, ss);
    var r, k := ConflictContents(rs, ss);
    var res := IncPath(rs, ss);
    ResultOutcome(res, policy);
    assert AnyShared(rs, ss) ==> rs != [];
  }

  /** What becomes of a result of the path search. */
  lemma ResultOutcome(res: PathResult, policy: InitialReplication)
    requires res.Path? ==> |res.path| >= 2
    requires res.NoCommonAncestor? ==> res.sortedSender != []
    ensures var p := PlanOfResult(res, policy);
            && (p.Conflict? <==> res.NoSenderSnapshots? || res.Diverged?
                                 || (res.NoCommonAncestor? && (res.sortedReceiver != [] || policy.Fail?)))
            && (p.PathOfOnePanic? <==>
                  res.NoCommonAncestor? && res.sortedReceiver == [] && policy.All? && Snaps(res.sortedSender) == [])
            && (p.Conflict? || p.PathOfOnePanic? || p.Planned?)
  {
  }

  /** The conflict that is reported, and what it carries. */
  lemma PlanConflict(rs: seq<Version>, ss: seq<Version>, policy: InitialReplication) returns (r: nat, s: nat)
    requires ss != [] && PlanSorted(rs, ss, policy).Conflict?
    ensures !AnyShared(rs, ss) ==> PlanSorted(rs, ss, policy) == Conflict(NoCommonAncestor(ss, rs))
    ensures AnyShared(rs, ss) ==> DivergesAt(rs, ss, r, s, PlanSorted(rs, ss, policy).conflict)
  {
    ConflictIs(IncPath(rs, ss), policy);
    ConflictsExact(rs, ss);
    r, s := ConflictContents(rs, ss);
  }

  lemma ConflictIs(res: PathResult, policy: InitialReplication)
    ensures PlanOfResult(res, policy).Conflict? ==> !res.Path? && PlanOfResult(res, policy) == Conflict(res)
    ensures PlanOfResult(res, policy).Conflict? ==> !res.AlreadyPresent?
  {
  }

  /** The outcomes of `DoPlanning` without a token, by any sort of the lists it was given. */
  lemma DoPlanningOutcome(res: PlanResult, receiver: seq<Version>, sender: seq<Version>, policy: InitialReplication)
    returns (rs: seq<Version>, ss: seq<Version>)
    requires IsPlanOf(res, receiver, sender, None, policy)
    ensures res.NoVersions? <==> sender == []
    ensures IsSortOf(rs, Snaps(receiver)) && IsSortOf(ss, sender) && (sender != [] ==> ss != [])
    ensures res.Conflict? <==> sender != [] && !NewestShared(rs, ss) && (rs != [] || policy.Fail?)
    ensures res.PathOfOnePanic? <==> sender != [] && rs == [] && policy.All? && Snaps(ss) == []
    ensures !res.TokenTargetNotFound? && !res.TokenSameVersion?
    ensures sender != [] ==> res == PlanSorted(rs, ss, policy)
  {
    if sender == [] {
      rs := SortExists(Snaps(receiver));
      ss := [];
      assert IsSortOf(ss, sender);
    } else {
      var rs1, ss1 :| IsSortOf(rs1, Snaps(receiver)) && IsSortOf(ss1, sender) && res == PlanSorted(rs1, ss1, policy);
      rs, ss := rs1, ss1;
      SameElements(ss, sender);
      assert sender[0] in ss;
      PlanOutcome(rs, ss, policy);
    }
  }

  ghost predicate NoSnapshotOf(ss: seq<Version>, g: nat) {
    forall v :: v in ss && v.typ.Snapshot? ==> v.guid != g
  }

  /** A plan starts from a bookmark only if the sender does not have the snapshot. */
  lemma BookmarkBaseExact(rs: seq<Version>, ss: seq<Version>)
    requires Sorted(ss) && WellFormed(ss) && NewestShared(rs, ss)
    ensures LastIndex(ss, rs[|rs| - 1].guid) >= 0
    ensures Base(rs, ss).typ.Bookmark? <==> NoSnapshotOf(ss, rs[|rs| - 1].guid)
  {
    BaseProps(rs, ss);
    forall v | v in ss && v.typ.Snapshot? && v.guid == rs[|rs| - 1].guid ensures Base(rs, ss) == v {
      BasePrefersSnapshot(rs, ss, v);
    }
  }

  /** Every plan replicates a suffix of the sender's snapshots in createtxg order and starts where the receiver is. */
  lemma PlanShape(rs: seq<Version>, ss: seq<Version>, policy: InitialReplication) returns (from: Option<Version>, j: nat)
    requires Sorted(ss) && WellFormed(ss) && Snaps(ss) != []
    requires PlanSorted(rs, ss, policy).Planned?
    ensures j <= |Snaps(ss)|
    ensures PlanSorted(rs, ss, policy).steps == PlanFrom(from, Snaps(ss)[j..])
    ensures Fits(rs, from)
    ensures from.Some? ==> from.value in ss && forall v :: v in Snaps(ss)[j..] ==> v.txg > from.value.txg
    ensures from.Some? && from.value.typ.Bookmark? ==> NoSnapshotOf(ss, from.value.guid)
  {
    PlannedCases(rs, ss, policy);
    if NewestShared(rs, ss) {
      PlanFromBase(rs, ss, policy);
      BaseProps(rs, ss);
      SnapsStrict(ss);
      SnapsMembers(ss);
      j := SnapsAfterIsSuffix(Snaps(ss), Base(rs, ss).txg);
      AllAfter(Snaps(ss), Base(rs, ss).txg);
      BookmarkBaseExact(rs, ss);
      return Some(Base(rs, ss)), j;
    }
    PlanInitial(ss, policy);
    if policy.All? {
      return None, 0;
    }
    return None, |Snaps(ss)| - 1;
  }

  ghost predicate ReceiverList(rs: seq<Version>) {
    StrictlyByTxg(rs) && forall v :: v in rs ==> v.typ.Snapshot?
  }

  lemma RecvKeepsList(rs: seq<Version>, st: Step, txg: nat)
    requires ReceiverList(rs) && st.to.Some? && Fits(rs, st.from)
    requires forall v :: v in rs ==> v.txg < txg
    ensures Recv(rs, st, txg).Some? && ReceiverList(Recv(rs, st, txg).value)
  {
    forall i | 0 <= i < |rs| ensures rs[i].txg < txg {
      assert rs[i] in rs;
    }
  }

  /** The receiver after the first `k` steps: it has got the `k`-th target last, before `bound`. */
  ghost predicate RanTo(r: Option<seq<Version>>, rs: seq<Version>, targets: seq<Version>, k: nat, bound: nat)
    requires k <= |targets|
  {
    && r.Some? && ReceiverList(r.value)
    && (k == 0 ==> r.value == rs)
    && (k > 0 ==> r.value != [] && r.value[|r.value| - 1].guid == targets[k - 1].guid)
    && forall v :: v in r.value ==> v.txg < bound
  }

  lemma RunStep(r: seq<Version>, rs: seq<Version>, from: Option<Version>, targets: seq<Version>, k: nat, txg: nat, bound: nat)
    requires 0 < k <= |targets| && Fits(rs, from) && RanTo(Some(r), rs, targets, k - 1, txg) && txg < bound
    ensures RanTo(Recv(r, PlanFrom(from, targets)[k - 1], txg), rs, targets, k, bound)
  {
    RecvKeepsList(r, PlanFrom(from, targets)[k - 1], txg);
  }

  /** Executing the first `k` steps of such a plan always succeeds and ends at the `k`-th target. */
  lemma {:induction false} RunPrefix(rs: seq<Version>, from: Option<Version>, targets: seq<Version>, k: nat, txgs: seq<nat>, bound: nat)
    requires k == |txgs| <= |targets|
    requires targets != [] ==> Fits(rs, from)
    requires ReceiverList(rs) && LaterTxgs(rs, txgs + [bound])
    ensures RanTo(RecvAll(rs, PlanFrom(from, targets)[..k], txgs), rs, targets, k, bound)
  {
    var all := txgs + [bound];
    if k == 0 {
      assert all[0] == bound;
    } else {
      var steps, front, txg := PlanFrom(from, targets), txgs[..k - 1], txgs[k - 1];
      LaterPrefix(rs, txgs, bound);
      RunPrefix(rs, from, targets, k - 1, front, txg);
      RunStep(RecvAll(rs, steps[..k - 1], front).value, rs, from, targets, k, txg, bound);
      assert steps[..k][..k - 1] == steps[..k - 1];
    }
  }

  lemma LaterPrefix(rs: seq<Version>, txgs: seq<nat>, bound: nat)
    requires txgs != [] && LaterTxgs(rs, txgs + [bound])
    ensures LaterTxgs(rs, txgs[..|txgs| - 1] + [txgs[|txgs| - 1]]) && txgs[|txgs| - 1] < bound
  {
    var all, n := txgs + [bound], |txgs|;
    assert txgs[..n - 1] + [txgs[n - 1]] == all[..n];
    assert all[n - 1] < all[n];
  }

  /** Planning when the receiver's newest snapshot is the sender's snapshot number `i`. */
  lemma PlanAtSnapshot(rs: seq<Version>, ss: seq<Version>, policy: InitialReplication, i: nat)
    requires Sorted(ss) && WellFormed(ss) && i < |Snaps(ss)|
    requires rs != [] && rs[|rs| - 1].guid == Snaps(ss)[i].guid
    ensures PlanSorted(rs, ss, policy) == Planned(PlanFrom(Some(Snaps(ss)[i]), Snaps(ss)[i + 1..]))
  {
    SnapsStrict(ss);
    SnapsMembers(ss);
    BasePrefersSnapshot(rs, ss, Snaps(ss)[i]);
    PlanFromBase(rs, ss, policy);
    SnapsAfterElement(Snaps(ss), i);
  }

  lemma PlanFromSuffix(from: Option<Version>, snaps: seq<Version>, j: nat, k: nat)
    requires 0 < k <= |snaps| - j
    ensures PlanFrom(from, snaps[j..])[k..] == PlanFrom(Some(snaps[j + k - 1]), snaps[j + k..])
  {}

  /** What a plan of the current version lists promises. */
  ghost predicate Replans(res: PlanResult, steps: seq<Step>, k: nat)
    requires k <= |steps|
  {
    && res.Planned?
    && |res.steps| == |steps| - k
    && (forall i :: 0 <= i < |res.steps| ==> res.steps[i].to == steps[k + i].to)
    && (k > 0 ==> res.steps == steps[k..])
  }

  lemma NextTxg(rs: seq<Version>, txgs: seq<nat>)
    requires LaterTxgs(rs, txgs) && txgs != []
    ensures LaterTxgs(rs, txgs + [txgs[|txgs| - 1] + 1])
  {
    var all := txgs + [txgs[|txgs| - 1] + 1];
    forall v, i | v in rs && 0 <= i < |all| ensures v.txg < all[i] {
      assert v.txg < txgs[|txgs| - 1];
    }
  }

  lemma RunToTarget(rs: seq<Version>, from: Option<Version>, targets: seq<Version>, k: nat, txgs: seq<nat>)
    requires 0 < k == |txgs| <= |targets| && Fits(rs, from)
    requires ReceiverList(rs) && LaterTxgs(rs, txgs)
    ensures var r := RecvAll(rs, PlanFrom(from, targets)[..k], txgs);
            r.Some? && ReceiverList(r.value) && r.value != [] && r.value[|r.value| - 1].guid == targets[k - 1].guid
  {
    NextTxg(rs, txgs);
    RunPrefix(rs, from, targets, k, txgs, txgs[k - 1] + 1);
  }

  lemma ReplanShape(rk: seq<Version>, from: Option<Version>, j: nat, ss: seq<Version>, policy: InitialReplication, k: nat)
    requires Sorted(ss) && WellFormed(ss)
    requires 0 < k <= |Snaps(ss)| - j
    requires rk != [] && rk[|rk| - 1].guid == Snaps(ss)[j + k - 1].guid
    ensures PlanSorted(rk, ss, policy) == Planned(PlanFrom(from, Snaps(ss)[j..])[k..])
  {
    var snaps, i := Snaps(ss), j + k - 1;
    PlanAtSnapshot(rk, ss, policy, i);
    PlanFromSuffix(from, snaps, j, k);
    assert snaps[i + 1..] == snaps[j + k..];
  }

  lemma ReplanRun(rs: seq<Version>, from: Option<Version>, j: nat, ss: seq<Version>, policy: InitialReplication, k: nat, txgs: seq<nat>)
    requires Sorted(ss) && WellFormed(ss) && ReceiverList(rs) && LaterTxgs(rs, txgs) && Fits(rs, from)
    requires 0 < k == |txgs| <= |Snaps(ss)| - j
    ensures var rk := RecvAll(rs, PlanFrom(from, Snaps(ss)[j..])[..k], txgs);
            && rk.Some? && ReceiverList(rk.value)
            && PlanSorted(rk.value, ss, policy) == Planned(PlanFrom(from, Snaps(ss)[j..])[k..])
  {
    RunToTarget(rs, from, Snaps(ss)[j..], k, txgs);
    ReplanShape(RecvAll(rs, PlanFrom(from, Snaps(ss)[j..])[..k], txgs).value, from, j, ss, policy, k);
  }

  lemma ReplanSorted(rs: seq<Version>, ss: seq<Version>, ss1: seq<Version>, policy: InitialReplication, k: nat, txgs: seq<nat>)
    requires Sorted(ss) && Sorted(ss1) && multiset(ss) == multiset(ss1) && WellFormed(ss) && WellFormed(ss1)
    requires Snaps(ss) != [] && ReceiverList(rs) && LaterTxgs(rs, txgs)
    requires PlanSorted(rs, ss, policy).Planned?
    requires k == |txgs| <= |PlanSorted(rs, ss, policy).steps|
    ensures var steps := PlanSorted(rs, ss, policy).steps;
            var rk := RecvAll(rs, steps[..k], txgs);
            rk.Some? && ReceiverList(rk.value) && Replans(PlanSorted(rk.value, ss1, policy), steps, k)
  {
    if k > 0 {
      var from, j := PlanShape(rs, ss, policy);
      SortsAgreeOnSnaps(ss, ss1);
      ReplanRun(rs, from, j, ss1, policy, k, txgs);
    } else {
      SamePlanTargets(rs, ss, ss1, policy);
    }
  }

  /** Convergence: from any planned state, any number of executed steps succeeds, and every plan made afterwards is
      the rest of the first plan; after the last step it is empty. */
  lemma ReplanIsSuffix(rs: seq<Version>, sender: seq<Version>, policy: InitialReplication, steps: seq<Step>,
                       k: nat, txgs: seq<nat>, res: PlanResult)
    requires WellFormed(sender) && Snaps(sender) != []
    requires ReceiverList(rs)
    requires IsPlanOf(Planned(steps), rs, sender, None, policy)
    requires k == |txgs| <= |steps| && LaterTxgs(rs, txgs)
    ensures RecvAll(rs, steps[..k], txgs).Some?
    ensures IsPlanOf(res, RecvAll(rs, steps[..k], txgs).value, sender, None, policy) ==> Replans(res, steps, k)
  {
    var ss := UnpackPlan(Planned(steps), rs, sender, policy);
    SnapsOfSort(sender, ss);
    ReplanSorted(rs, ss, ss, policy, k, txgs);
    var rk := RecvAll(rs, steps[..k], txgs).value;
    if IsPlanOf(res, rk, sender, None, policy) {
      var ss1 := UnpackPlan(res, rk, sender, policy);
      ReplanSorted(rs, ss, ss1, policy, k, txgs);
    }
  }

  lemma UnpackPlan(res: PlanResult, rs: seq<Version>, sender: seq<Version>, policy: InitialReplication) returns (ss: seq<Version>)
    requires WellFormed(sender) && sender != [] && ReceiverList(rs)
    requires IsPlanOf(res, rs, sender, None, policy)
    ensures IsSortOf(ss, sender) && WellFormed(ss) && res == PlanSorted(rs, ss, policy)
  {
    SnapsKeepAll(rs);
    var rs0;
    rs0, ss :| IsSortOf(rs0, Snaps(rs)) && IsSortOf(ss, sender) && res == PlanSorted(rs0, ss, policy);
    SortOfStrict(rs0, rs);
    WellFormedPermutes(sender, ss);
  }

  lemma SnapsOfSort(sender: seq<Version>, ss: seq<Version>)
    requires multiset(ss) == multiset(sender) && Snaps(sender) != []
    ensures Snaps(ss) != []
  {
    SnapsMembers(sender);
    SnapsMembers(ss);
    SameElements(ss, sender);
    assert Snaps(sender)[0] in ss;
  }

  /** Two plans of the same lists differ at most in which bookmark the first step starts from. */
  lemma SamePlanTargets(rs: seq<Version>, ss: seq<Version>, ss1: seq<Version>, policy: InitialReplication)
    requires Sorted(ss) && Sorted(ss1) && multiset(ss) == multiset(ss1) && WellFormed(ss) && WellFormed(ss1)
    requires Snaps(ss) != [] && PlanSorted(rs, ss, policy).Planned?
    ensures Replans(PlanSorted(rs, ss1, policy), PlanSorted(rs, ss, policy).steps, 0)
  {
    SortsAgreeOnSnaps(ss, ss1);
    SameElements(ss, ss1);
    PlannedCases(rs, ss, policy);
    if NewestShared(rs, ss) {
      PlanFromBase(rs, ss, policy);
      BaseProps(rs, ss);
      PlanFromBase(rs, ss1, policy);
      BaseProps(rs, ss1);
      assert Agree(Base(rs, ss), Base(rs, ss1));
    } else {
      PlanInitial(ss, policy);
      PlanInitial(ss1, policy);
    }
  }

  // ----- Resuming -----

  /** A token's `from` selects a bookmark only if the sender does not have the snapshot. */
  lemma {:induction false} TokenFromPrefersSnapshot(ss: seq<Version>, g: nat)
    ensures TokenFrom(ss, g) >= 0 && ss[TokenFrom(ss, g)].typ.Bookmark? ==> NoSnapshotOf(ss, g)
  {
    if ss != [] {
      var last := |ss| - 1;
      assert ss == ss[..last] + [ss[last]];
      TokenFromPrefersSnapshot(ss[..last], g);
    }
  }

  ghost predicate HasSnapshotOf(ss: seq<Version>, g: nat) {
    exists v :: v in ss && v.guid == g && v.typ.Snapshot?
  }

  /** With a resume token, planning succeeds iff the sender still has the target as a snapshot and the token's
      `from` does not select that very snapshot; the first step is the interrupted one. */
  lemma ResumePlanExact(ss: seq<Version>, token: ResumeToken)
    requires token.to.Some?
    ensures PlanResume(ss, token).TokenTargetNotFound? <==> !HasSnapshotOf(ss, token.to.value)
    ensures PlanResume(ss, token).Planned? || PlanResume(ss, token).TokenTargetNotFound? || PlanResume(ss, token).TokenSameVersion?
    ensures token.from != token.to ==> !PlanResume(ss, token).TokenSameVersion?
    ensures WellFormed(ss) ==> (PlanResume(ss, token).TokenSameVersion? <==> token.from == token.to && HasSnapshotOf(ss, token.to.value))
    ensures WellFormed(ss) ==> (PlanResume(ss, token).Planned? <==> token.from != token.to && HasSnapshotOf(ss, token.to.value))
    ensures PlanResume(ss, token).Planned? ==>
              var first := PlanResume(ss, token).steps[0];
              && first.resume && first.to.Some? && first.to.value.guid == token.to.value && first.to.value in ss
              && (first.from.Some? <==> token.from.Some? && exists v :: v in ss && v.guid == token.from.value)
              && (first.from.Some? ==> first.from.value.guid == token.from.value && first.from.value in ss)
              && (first.from.Some? && first.from.value.typ.Bookmark? ==> NoSnapshotOf(ss, token.from.value))
  {
    if token.from.Some? {
      TokenFromPrefersSnapshot(ss, token.from.value);
    }
    if token.from == token.to && WellFormed(ss) && HasSnapshotOf(ss, token.to.value) {
      SameSelection(ss, token.to.value);
    }
  }

  lemma SameSelection(ss: seq<Version>, g: nat)
    requires WellFormed(ss) && HasSnapshotOf(ss, g)
    ensures TokenFrom(ss, g) == TokenTo(ss, g)
  {
    TokenFromPrefersSnapshot(ss, g);
    var f, t := TokenFrom(ss, g), TokenTo(ss, g);
    assert Agree(ss[f], ss[t]) && multiset(ss)[ss[f]] == 1;
    if f < t {
      CountTwice(ss, f, t);
    } else if t < f {
      CountTwice(ss, t, f);
    }
  }

  lemma SnapsFromSnapshot(ss: seq<Version>, t: nat) returns (i: nat)
    requires t < |ss| && ss[t].typ.Snapshot?
    ensures i < |Snaps(ss)| && Snaps(ss)[i] == ss[t] && Snaps(ss[t..]) == Snaps(ss)[i..]
  {
    assert ss == ss[..t] + ss[t..];
    SnapsConcat(ss[..t], ss[t..]);
    i := |Snaps(ss[..t])|;
  }

  /** The steps behind the resumed one are the plan from its target on. */
  lemma ResumePlanShape(ss: seq<Version>, token: ResumeToken) returns (i: nat)
    requires PlanResume(ss, token).Planned?
    ensures i < |Snaps(ss)| && PlanResume(ss, token).steps[0].to == Some(Snaps(ss)[i])
    ensures PlanResume(ss, token).steps[1..] == PlanFrom(Some(Snaps(ss)[i]), Snaps(ss)[i + 1..])
  {
    i := SnapsFromSnapshot(ss, ToIndex(ss, token));
    StepsFrom(Snaps(ss), i);
    assert Snaps(ss)[i..] != [];
    assert PlanResume(ss, token).steps[1..] == StepsOf(Somes(Snaps(ss)[i..]));
  }

  lemma StepsFrom(snaps: seq<Version>, i: nat)
    requires i < |snaps|
    ensures StepsOf(Somes(snaps[i..])) == PlanFrom(Some(snaps[i]), snaps[i + 1..])
  {
    assert Somes(snaps[i..]) == [Some(snaps[i])] + Somes(snaps[i + 1..]);
    StepsOfIsPlanFrom(Some(snaps[i]), snaps[i + 1..]);
  }

  /** Once the resumed step is received, an ordinary plan is exactly the rest of the resume plan. */
  lemma ResumeReplanIsRest(rs: seq<Version>, sender: seq<Version>, token: ResumeToken, policy: InitialReplication,
                           steps: seq<Step>, txg: nat, res: PlanResult)
    requires WellFormed(sender) && sender != []
    requires ReceiverList(rs) && forall v :: v in rs ==> v.txg < txg
    requires IsPlanOf(Planned(steps), rs, sender, Some(token), policy)
    requires Fits(rs, steps[0].from)
    ensures Recv(rs, steps[0], txg).Some?
    ensures IsPlanOf(res, Recv(rs, steps[0], txg).value, sender, None, policy) ==> res == Planned(steps[1..])
  {
    var ss :| IsSortOf(ss, sender) && Planned(steps) == PlanResume(ss, token);
    WellFormedPermutes(sender, ss);
    var i := ResumePlanShape(ss, token);
    RecvKeepsList(rs, steps[0], txg);
    var r1 := Recv(rs, steps[0], txg).value;
    if IsPlanOf(res, r1, sender, None, policy) {
      var ss1 := UnpackPlan(res, r1, sender, policy);
      SortsAgreeOnSnaps(ss, ss1);
      PlanAtSnapshot(r1, ss1, policy, i);
    }
  }

  /** A sender with snapshots and an empty receiver have a plan with at least one step. */
  lemma InitialPlanExists(sender: seq<Version>, policy: InitialReplication) returns (steps: seq<Step>)
    requires Snaps(sender) != [] && !policy.Fail?
    ensures IsPlanOf(Planned(steps), [], sender, None, policy) && steps != []
  {
    var ss := SortExists(sender);
    SnapsOfSort(sender, ss);
    PlanInitial(ss, policy);
    steps := PlanSorted([], ss, policy).steps;
    assert IsSortOf([], Snaps([])) && IsSortOf(ss, sender);
  }

  function InitialPath(ss: seq<Version>, policy: InitialReplication): (r: seq<Option<Version>>) {
    if policy.All? then [None] + Somes(Snaps(ss)) else [None, NewestSnap(ss)]
  }

  lemma PlanOfEmptyReceiver(ss: seq<Version>, policy: InitialReplication)
    requires ss != [] && !policy.Fail?
    ensures PlanSorted([], ss, policy) == PlanOfPath(InitialPath(ss, policy))
  {
    assert IncPath([], ss) == NoCommonAncestor(ss, []);
  }

  /** Every step of a path has a target iff all entries but the first are there. */
  lemma TargetsOfPath(path: seq<Option<Version>>)
    requires |path| >= 2
    ensures (forall st :: st in StepsOf(path) ==> st.to.Some?) <==> forall i :: 1 <= i < |path| ==> path[i].Some?
  {
    forall i | 1 <= i < |path| ensures StepsOf(path)[i - 1] in StepsOf(path) && StepsOf(path)[i - 1].to == path[i] {
    }
  }

  predicate AllHaveTargets(r: PlanResult) {
    r.Planned? && forall st :: st in r.steps ==> st.to.Some?
  }

  /** Initial replication yields steps that all have a target exactly when the sender has a snapshot; with bookmarks
      only, `most_recent` plans a step without target and `all` panics. */
  lemma InitialPlanExact(ss: seq<Version>, policy: InitialReplication)
    requires ss != [] && !policy.Fail?
    ensures AllHaveTargets(PlanSorted([], ss, policy)) <==> Snaps(ss) != []
    ensures Snaps(ss) == [] && policy.MostRecent? ==> PlanSorted([], ss, policy) == Planned([Step(None, None, false)])
    ensures Snaps(ss) == [] && policy.All? ==> PlanSorted([], ss, policy) == PathOfOnePanic
  {
    PlanOfEmptyReceiver(ss, policy);
    NewestSnapIsLast(ss);
    InitialPathTargets(ss, policy);
  }

  lemma InitialPathTargets(ss: seq<Version>, policy: InitialReplication)
    requires !policy.Fail? && NewestSnap(ss) == if Snaps(ss) == [] then None else Some(Snaps(ss)[|Snaps(ss)| - 1])
    ensures AllHaveTargets(PlanOfPath(InitialPath(ss, policy))) <==> Snaps(ss) != []
    ensures Snaps(ss) == [] && policy.MostRecent? ==> PlanOfPath(InitialPath(ss, policy)) == Planned([Step(None, None, false)])
    ensures Snaps(ss) == [] && policy.All? ==> PlanOfPath(InitialPath(ss, policy)) == PathOfOnePanic
  {
    var path := InitialPath(ss, policy);
    if |path| >= 2 {
      TargetsOfPath(path);
      assert path[1].Some? <==> Snaps(ss) != [];
      assert Snaps(ss) != [] ==> forall i :: 1 <= i < |path| ==> path[i].Some?;
    }
  }
}
