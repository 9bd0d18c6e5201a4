/** Planning of one filesystem: conflict auto-resolution, resume tokens, and what executing a plan achieves. */
module Planner {
  import opened Versions
  import opened Diff

  datatype InitialReplication = MostRecent | All | Fail

  datatype ResumeToken = ResumeToken(from: Option<nat>, to: Option<nat>)

  /** No `from` is a full send. A step without `to` is the nil target the planner can produce. */
  datatype Step = Step(from: Option<Version>, to: Option<Version>, resume: bool)

  datatype PlanResult =
    | Planned(steps: seq<Step>)
    | Conflict(conflict: PathResult)
    | NoVersions
    | TokenTargetNotFound
    | TokenSameVersion
    | PathOfOnePanic

  datatype Resolution = Resolved(path: seq<Option<Version>>) | Unresolved

  function Somes(s: seq<Version>): (r: seq<Option<Version>>)
    ensures |r| == |s| && forall i :: 0 <= i < |s| ==> r[i] == Some(s[i])
  {
    seq(|s|, i requires 0 <= i < |s| => Some(s[i]))
  }

  /** Newest snapshot of a sorted list, nil if it has none. */
  function NewestSnap(ss: seq<Version>): (v: Option<Version>) {
    if ss == [] then None
    else if ss[|ss| - 1].typ.Snapshot? then Some(ss[|ss| - 1])
    else NewestSnap(ss[..|ss| - 1])
  }

  function TryAutoresolveConflict(c: PathResult, policy: InitialReplication): (r: Resolution) {
    match c
    case AlreadyPresent(_, _, _) => Resolved([])
    case NoCommonAncestor(ss, rs) =>
      if rs == [] && ss != [] then
        match policy
        case MostRecent => Resolved([None, NewestSnap(ss)])
        case All => Resolved([None] + Somes(Snaps(ss)))
        case Fail => Unresolved
      else Unresolved
    case _ => Unresolved
  }

  function StepsOf(path: seq<Option<Version>>): (r: seq<Step>)
    requires |path| >= 1
    ensures |r| == |path| - 1
    ensures forall i :: 0 <= i < |r| ==> r[i] == Step(path[i], path[i + 1], false)
  {
    seq(|path| - 1, i requires 0 <= i < |path| - 1 => Step(path[i], path[i + 1], false))
  }

  function PlanOfPath(path: seq<Option<Version>>): (r: PlanResult) {
    if |path| == 0 then Planned([])
    else if |path| == 1 then PathOfOnePanic
    else Planned(StepsOf(path))
  }

  function PlanOfResult(res: PathResult, policy: InitialReplication): (r: PlanResult) {
    match res
    case Path(p) => PlanOfPath(Somes(p))
    case c =>
      match TryAutoresolveConflict(c, policy)
      case Resolved(path) => PlanOfPath(path)
      case Unresolved => Conflict(c)
  }

  /** Planning without a resume token, on sorted lists. */
  function PlanSorted(rs: seq<Version>, ss: seq<Version>, policy: InitialReplication): (r: PlanResult) {
    PlanOfResult(IncPath(rs, ss), policy)
  }

  /** The entry a resume token's `from` guid selects: the first snapshot, else the last bookmark, -1 if none. */
  function TokenFrom(ss: seq<Version>, g: nat): (k: int)
    ensures -1 <= k < |ss|
    ensures k >= 0 ==> ss[k].guid == g
    ensures k >= 0 <==> exists v :: v in ss && v.guid == g
  {
    if ss == [] then -1
    else
      var last := |ss| - 1;
      var k := TokenFrom(ss[..last], g);
      assert ss == ss[..last] + [ss[last]];
      if ss[last].guid == g && !(k >= 0 && ss[k].typ.Snapshot?) then last else k
  }

  function TokenTo(ss: seq<Version>, g: nat): (k: int)
    ensures -1 <= k < |ss|
    ensures k >= 0 ==> ss[k].guid == g && ss[k].typ.Snapshot?
    ensures k >= 0 <==> exists v :: v in ss && v.guid == g && v.typ.Snapshot?
  {
    if ss == [] then -1
    else
      var last := |ss| - 1;
      assert ss == ss[..last] + [ss[last]];
      if ss[last].guid == g && ss[last].typ.Snapshot? then last else TokenTo(ss[..last], g)
  }

  function FromIndex(ss: seq<Version>, token: ResumeToken): (k: int)
    ensures -1 <= k < |ss|
  {
    if token.from.Some? then TokenFrom(ss, token.from.value) else -1
  }

  function ToIndex(ss: seq<Version>, token: ResumeToken): (k: int)
    ensures -1 <= k < |ss|
    ensures k >= 0 ==> ss[k].typ.Snapshot?
  {
    if token.to.Some? then TokenTo(ss, token.to.value) else -1
  }

  /** Planning with a resume token, on the sender's sorted list. */
  function PlanResume(ss: seq<Version>, token: ResumeToken): (r: PlanResult) {
    var f, t := FromIndex(ss, token), ToIndex(ss, token);
    if t < 0 then TokenTargetNotFound
    else if f == t then TokenSameVersion
    else
      var from := if f < 0 then None else Some(ss[f]);
      var remaining := Snaps(ss[t..]);
      Planned([Step(from, Some(ss[t]), true)] + if remaining == [] then [] else StepsOf(Somes(remaining)))
  }

  method FindTokenStep(ss: seq<Version>, token: ResumeToken) returns (f: int, t: int)
    ensures f == FromIndex(ss, token) && t == ToIndex(ss, token)
  {
    f, t := -1, -1;
    for i := 0 to |ss|
      invariant f == FromIndex(ss[..i], token) && t == ToIndex(ss[..i], token)
    {
      assert ss[..i + 1][..i] == ss[..i];
      var v := ss[i];
      if token.from.Some? && v.guid == token.from.value {
        if !(f >= 0 && ss[f].typ.Snapshot?) {
          f := i;
        }
      }
      if token.to.Some? && v.guid == token.to.value && v.typ.Snapshot? {
        t := i;
      }
    }
    assert ss[..|ss|] == ss;
  }

  ghost predicate IsPlanOf(res: PlanResult, receiver: seq<Version>, sender: seq<Version>, token: Option<ResumeToken>,
                           policy: InitialReplication) {
    if sender == [] then res == NoVersions
    else if token.Some? then exists ss :: IsSortOf(ss, sender) && res == PlanResume(ss, token.value)
    else exists rs, ss :: IsSortOf(rs, Snaps(receiver)) && IsSortOf(ss, sender) && res == PlanSorted(rs, ss, policy)
  }

  /** The resumed step followed by the incrementals over the sender's remaining snapshots. */
  method ResumeSteps(first: Step, remaining: seq<Version>) returns (steps: seq<Step>)
    requires remaining != []
    ensures steps == [first] + StepsOf(Somes(remaining))
  {
    steps := [first];
    for i := 0 to |remaining| - 1
      invariant |steps| == i + 1 && steps[0] == first
      invariant forall j :: 1 <= j < |steps| ==> steps[j] == Step(Some(remaining[j - 1]), Some(remaining[j]), false)
    {
      steps := steps + [Step(Some(remaining[i]), Some(remaining[i + 1]), false)];
    }
  }

  method PlanWithToken(ss: seq<Version>, token: ResumeToken) returns (res: PlanResult)
    ensures res == PlanResume(ss, token)
  {
    var f, t := FindTokenStep(ss, token);
    if t < 0 {
      return TokenTargetNotFound;
    } else if f == t {
      return TokenSameVersion;
    }
    var remaining := StripBookmarks(ss[t..]);
    var steps := ResumeSteps(Step(if f < 0 then None else Some(ss[f]), Some(ss[t]), true), remaining);
    return Planned(steps);
  }

  method DoPlanning(receiver: seq<Version>, sender: seq<Version>, token: Option<ResumeToken>, policy: InitialReplication)
    returns (res: PlanResult)
    ensures IsPlanOf(res, receiver, sender, token, policy)
  {
    if |sender| < 1 {
      return NoVersions;
    }
    if token.Some? {
      var ss := SortVersionList(sender);
      res := PlanWithToken(ss, token.value);
    } else {
      var path := IncrementalPath(receiver, sender);
      res := match path
        case Path(p) => PlanOfPath(Somes(p))
        case c =>
          match TryAutoresolveConflict(c, policy)
          case Resolved(p) => PlanOfPath(p)
          case Unresolved => Conflict(c);
      ghost var rs, ss :| IsSortOf(rs, Snaps(receiver)) && IsSortOf(ss, sender) && path == IncPath(rs, ss);
      assert res == PlanSorted(rs, ss, policy);
    }
  }
}
