/** One attempt of the replication driver: all filesystems, interleaved at their lock boundaries. */
module Driver {
  import opened Versions

  datatype StepInfo = StepInfo(fromGuid: nat, toGuid: nat, incremental: bool, date: int)

  predicate TargetEquals(a: StepInfo, b: StepInfo) {
    a.fromGuid == b.fromGuid && a.toGuid == b.toGuid
  }

  // Correlation with the previous attempt.

  function LastMatch(u: StepInfo, steps: seq<StepInfo>): (r: Option<nat>)
    ensures r.Some? ==> r.value < |steps| && TargetEquals(u, steps[r.value])
  {
    if steps == [] then None
    else if TargetEquals(u, steps[|steps| - 1]) then Some(|steps| - 1)
    else LastMatch(u, steps[..|steps| - 1])
  }

  function Target(prev: seq<StepInfo>, steps: seq<StepInfo>): (r: Option<nat>)
    ensures r.Some? ==> r.value < |steps|
  {
    if prev == [] then None
    else
      var q := LastMatch(prev[|prev| - 1], steps);
      if q.Some? then q else Target(prev[..|prev| - 1], steps)
  }

  /** The steps an attempt executes, given what the previous attempt left; none is a planning error. */
  function Cut(prev: Option<seq<StepInfo>>, steps: seq<StepInfo>): (r: Option<seq<StepInfo>>) {
    if prev.None? then Some(steps)
    else
      var q := Target(prev.value, steps);
      if q.None? then None else Some(steps[..q.value])
  }

  method Correlate(prev: seq<StepInfo>, steps: seq<StepInfo>) returns (r: Option<seq<StepInfo>>)
    ensures r == Cut(Some(prev), steps)
  {
    var p := |prev|;
    assert prev[..p] == prev && steps[..|steps|] == steps;
    while p > 0
      invariant 0 <= p <= |prev|
      invariant Target(prev, steps) == Target(prev[..p], steps)
    {
      p := p - 1;
      assert prev[..p + 1][..p] == prev[..p];
      var q := |steps|;
      while q > 0
        invariant 0 <= q <= |steps|
        invariant LastMatch(prev[p], steps) == LastMatch(prev[p], steps[..q])
      {
        q := q - 1;
        assert steps[..q + 1][..q] == steps[..q];
        if TargetEquals(prev[p], steps[q]) {
          return Some(steps[..q]);
        }
      }
    }
    return None;
  }

  lemma {:induction false} LastMatchExact(u: StepInfo, steps: seq<StepInfo>)
    ensures LastMatch(u, steps).None? <==> forall k :: 0 <= k < |steps| ==> !TargetEquals(u, steps[k])
    ensures LastMatch(u, steps).Some? ==> forall k :: LastMatch(u, steps).value < k < |steps| ==> !TargetEquals(u, steps[k])
  {
    if steps != [] && !TargetEquals(u, steps[|steps| - 1]) {
      LastMatchExact(u, steps[..|steps| - 1]);
    }
  }

  /** `q` is the last match of the highest step of `prev` that has one. */
  predicate HighestMatch(prev: seq<StepInfo>, steps: seq<StepInfo>, p: nat, q: nat) {
    && p < |prev| && q < |steps| && TargetEquals(prev[p], steps[q])
    && (forall k, l :: p < k < |prev| && 0 <= l < |steps| ==> !TargetEquals(prev[k], steps[l]))
    && (forall l :: q < l < |steps| ==> !TargetEquals(prev[p], steps[l]))
  }

  lemma {:induction false} TargetExact(prev: seq<StepInfo>, steps: seq<StepInfo>)
    ensures Target(prev, steps).None? ==>
              forall p, q :: 0 <= p < |prev| && 0 <= q < |steps| ==> !TargetEquals(prev[p], steps[q])
    ensures Target(prev, steps).Some? ==> exists p :: HighestMatch(prev, steps, p, Target(prev, steps).value)
  {
    if prev != [] {
      var p := |prev| - 1;
      LastMatchExact(prev[p], steps);
      var q := LastMatch(prev[p], steps);
      if q.Some? {
        assert HighestMatch(prev, steps, p, q.value);
      } else {
        TargetExact(prev[..p], steps);
        if Target(prev, steps).Some? {
          var k :| HighestMatch(prev[..p], steps, k, Target(prev, steps).value);
          assert HighestMatch(prev, steps, k, Target(prev, steps).value);
        }
      }
    }
  }

  /** The step that was matched is never executed: the correlated plan ends right before it. A retry that plans
      again what was left loses the last step, and does nothing if one step was left. */
  lemma CutLosesTarget(prev: seq<StepInfo>, steps: seq<StepInfo>)
    ensures Cut(Some(prev), steps).Some? ==>
              exists p: nat, q: nat :: HighestMatch(prev, steps, p, q) && Cut(Some(prev), steps) == Some(steps[..q])
    ensures Cut(Some(prev), steps).None? <==>
            forall p, q :: 0 <= p < |prev| && 0 <= q < |steps| ==> !TargetEquals(prev[p], steps[q])
    ensures prev != [] ==> Cut(Some(prev), prev) == Some(prev[..|prev| - 1])
  {
    TargetExact(prev, steps);
    if Target(prev, steps).Some? {
      var p :| HighestMatch(prev, steps, p, Target(prev, steps).value);
      assert Cut(Some(prev), steps) == Some(steps[..Target(prev, steps).value]);
    }
  }

  // Parents: the filesystems of the attempt that are proper path prefixes.

  type Path = seq<string>

  predicate IsParent(paths: seq<Path>, f: nat, p: nat)
    requires f < |paths|
  {
    p < |paths| && paths[p] <= paths[f] && paths[f] != paths[p]
  }

  function ParentsUpTo(paths: seq<Path>, f: nat, n: nat): (r: seq<nat>)
    requires f < |paths| && n <= |paths|
    ensures |r| <= n
    ensures forall k :: 0 <= k < |r| ==> IsParent(paths, f, r[k])
  {
    if n == 0 then [] else ParentsUpTo(paths, f, n - 1) + if IsParent(paths, f, n - 1) then [n - 1] else []
  }

  function ChildrenUpTo(paths: seq<Path>, p: nat, n: nat): (r: seq<nat>)
    requires n <= |paths|
  {
    if n == 0 then [] else ChildrenUpTo(paths, p, n - 1) + if IsParent(paths, n - 1, p) then [n - 1] else []
  }

  function Parents(paths: seq<Path>, f: nat): (r: seq<nat>)
    requires f < |paths|
    ensures forall k :: 0 <= k < |r| ==> IsParent(paths, f, r[k])
  {
    ParentsUpTo(paths, f, |paths|)
  }

  lemma {:induction false} ParentsComplete(paths: seq<Path>, f: nat, n: nat, p: nat)
    requires f < |paths| && p < n <= |paths| && IsParent(paths, f, p)
    ensures p in ParentsUpTo(paths, f, n)
  {
    if p < n - 1 {
      ParentsComplete(paths, f, n - 1, p);
    }
  }

  lemma {:induction false} ChildrenExact(paths: seq<Path>, p: nat, n: nat, f: nat)
    requires n <= |paths|
    ensures f in ChildrenUpTo(paths, p, n) <==> f < n && IsParent(paths, f, p)
  {
    if n > 0 {
      ChildrenExact(paths, p, n - 1, f);
    }
  }

  /** Both directions of the relation, as global planning builds them. */
  method RelateFilesystems(paths: seq<Path>) returns (parents: seq<seq<nat>>, children: seq<seq<nat>>)
    ensures |parents| == |paths| && |children| == |paths|
    ensures forall f :: 0 <= f < |paths| ==> parents[f] == Parents(paths, f)
    ensures forall p :: 0 <= p < |paths| ==> children[p] == ChildrenUpTo(paths, p, |paths|)
    ensures forall p, f :: 0 <= p < |paths| && 0 <= f < |paths| ==> (f in children[p] <==> p in parents[f])
  {
    parents := seq(|paths|, _ => []);
    children := seq(|paths|, _ => []);
    for i := 0 to |paths|
      invariant |parents| == |paths| && |children| == |paths|
      invariant forall f :: 0 <= f < i ==> parents[f] == Parents(paths, f)
      invariant forall f :: i <= f < |paths| ==> parents[f] == []
      invariant forall p :: 0 <= p < |paths| ==> children[p] == ChildrenUpTo(paths, p, i)
    {
      for j := 0 to |paths|
        invariant |parents| == |paths| && |children| == |paths|
        invariant forall f :: 0 <= f < i ==> parents[f] == Parents(paths, f)
        invariant parents[i] == ParentsUpTo(paths, i, j)
        invariant forall f :: i < f < |paths| ==> parents[f] == []
        invariant forall p :: 0 <= p < j ==> children[p] == ChildrenUpTo(paths, p, i + 1)
        invariant forall p :: j <= p < |paths| ==> children[p] == ChildrenUpTo(paths, p, i)
      {
        if paths[j] <= paths[i] && paths[i] != paths[j] {
          parents := parents[i := parents[i] + [j]];
          children := children[j := children[j] + [i]];
        }
      }
    }
    forall p, f | 0 <= p < |paths| && 0 <= f < |paths| ensures f in children[p] <==> p in parents[f] {
      ChildrenExact(paths, p, |paths|, f);
      if IsParent(paths, f, p) {
        ParentsComplete(paths, f, |paths|, p);
      }
    }
  }
}
