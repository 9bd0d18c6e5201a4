/** The incremental path between a receiver and a sender: the pure list algorithm at the heart of planning. */
module Diff {
  import opened Versions

  datatype PathResult =
    | Path(path: seq<Version>)
    | NoSenderSnapshots
    | NoCommonAncestor(sortedSender: seq<Version>, sortedReceiver: seq<Version>)
    | Diverged(sortedSender: seq<Version>, sortedReceiver: seq<Version>, common: Version,
               senderOnly: seq<Version>, receiverOnly: seq<Version>)
    | AlreadyPresent(sortedSender: seq<Version>, sortedReceiver: seq<Version>, common: Version)

  /** Greatest index holding guid `g`, or -1. */
  function LastIndex(s: seq<Version>, g: nat): (k: int)
    ensures -1 <= k < |s|
  {
    if s == [] then -1
    else if s[|s| - 1].guid == g then |s| - 1
    else LastIndex(s[..|s| - 1], g)
  }

  ghost predicate IsLastIndex(s: seq<Version>, g: nat, k: int) {
    && -1 <= k < |s|
    && (k >= 0 ==> s[k].guid == g)
    && forall j :: k < j < |s| ==> s[j].guid != g
  }

  lemma {:induction false} LastIndexIs(s: seq<Version>, g: nat, k: int)
    ensures LastIndex(s, g) == k <==> IsLastIndex(s, g, k)
  {
    if s != [] && s[|s| - 1].guid != g {
      var front := s[..|s| - 1];
      LastIndexIs(front, g, k);
      if IsLastIndex(front, g, k) || IsLastIndex(s, g, k) {
        assert forall j :: 0 <= j < |front| ==> front[j] == s[j];
      }
    }
  }

  /** Greatest receiver index whose guid the sender has too, or -1. */
  function LastShared(rs: seq<Version>, ss: seq<Version>): (k: int)
    ensures -1 <= k < |rs|
  {
    if rs == [] then -1
    else if LastIndex(ss, rs[|rs| - 1].guid) >= 0 then |rs| - 1
    else LastShared(rs[..|rs| - 1], ss)
  }

  lemma {:induction false} LastSharedFound(rs: seq<Version>, ss: seq<Version>)
    ensures LastShared(rs, ss) >= 0 ==> LastIndex(ss, rs[LastShared(rs, ss)].guid) >= 0
  {
    if rs != [] && LastIndex(ss, rs[|rs| - 1].guid) < 0 {
      LastSharedFound(rs[..|rs| - 1], ss);
    }
  }

  lemma {:induction false} LastSharedSkips(rs: seq<Version>, ss: seq<Version>, k: nat)
    requires k <= |rs|
    requires forall j :: k <= j < |rs| ==> LastIndex(ss, rs[j].guid) < 0
    ensures LastShared(rs, ss) == LastShared(rs[..k], ss)
  {
    if k < |rs| {
      LastSharedSkips(rs[..|rs| - 1], ss, k);
      assert rs[..|rs| - 1][..k] == rs[..k];
    } else {
      assert rs[..k] == rs;
    }
  }

  /** Appends the snapshots of `rest`, skipping one that repeats the guid last appended. */
  function Extend(path: seq<Version>, rest: seq<Version>): (r: seq<Version>)
    requires path != []
    ensures r != []
    decreases |rest|
  {
    if rest == [] then path
    else if rest[0].typ.Snapshot? && path[|path| - 1].guid != rest[0].guid then Extend(path + [rest[0]], rest[1..])
    else Extend(path, rest[1..])
  }

  lemma {:induction false} ExtendConcat(path: seq<Version>, a: seq<Version>, b: seq<Version>)
    requires path != []
    ensures Extend(path, a + b) == Extend(Extend(path, a), b)
    decreases |a|
  {
    if a == [] {
      assert a + b == b;
    } else {
      assert (a + b)[1..] == a[1..] + b;
      ExtendConcat(path, a[1..], b);
      ExtendConcat(path + [a[0]], a[1..], b);
    }
  }

  /** The outcome where `rs[r]` and `ss[s]` are the most recent common ancestor. */
  function FromAncestor(rs: seq<Version>, ss: seq<Version>, r: nat, s: nat): (res: PathResult)
    requires r < |rs| && s < |ss|
    ensures res.Path? ==> |res.path| >= 2
  {
    if r != |rs| - 1 then
      Diverged(ss, rs, ss[s], ss[s + 1..], rs[r + 1..])
    else
      var p := Extend([ss[s]], ss[s + 1..]);
      if |p| == 1 then AlreadyPresent(ss, rs, ss[s]) else Path(p)
  }

  /** The path over sorted lists; `rs` holds the receiver's snapshots only. */
  function IncPath(rs: seq<Version>, ss: seq<Version>): (res: PathResult)
    ensures res.Path? ==> |res.path| >= 2
  {
    var r := LastShared(rs, ss);
    if r < 0 then
      if ss == [] then NoSenderSnapshots else NoCommonAncestor(ss, rs)
    else
      LastSharedFound(rs, ss);
      FromAncestor(rs, ss, r, LastIndex(ss, rs[r].guid))
  }

  /** The two nested loops that search the most recent common ancestor, newest receiver snapshot first. */
  method FindCandidate(receiver: seq<Version>, sender: seq<Version>) returns (found: bool, r: nat, s: nat)
    ensures !found ==> LastShared(receiver, sender) < 0
    ensures found ==> r == LastShared(receiver, sender) && s == LastIndex(sender, receiver[r].guid)
  {
    found, r, s := false, 0, 0;
    var ri := |receiver| - 1;
    while ri >= 0
      invariant -1 <= ri < |receiver|
      invariant forall i :: ri < i < |receiver| ==> LastIndex(sender, receiver[i].guid) < 0
    {
      var si := |sender| - 1;
      while si >= 0
        invariant -1 <= si < |sender|
        invariant forall j :: si < j < |sender| ==> sender[j].guid != receiver[ri].guid
      {
        if sender[si].guid == receiver[ri].guid {
          LastIndexIs(sender, receiver[ri].guid, si);
          LastSharedSkips(receiver, sender, ri + 1);
          return true, ri, si;
        }
        si := si - 1;
      }
      LastIndexIs(sender, receiver[ri].guid, -1);
      ri := ri - 1;
    }
    LastSharedSkips(receiver, sender, 0);
  }

  method BuildPath(ss: seq<Version>, s: nat) returns (path: seq<Version>)
    requires s < |ss|
    ensures path == Extend([ss[s]], ss[s + 1..])
  {
    path := [ss[s]];
    for i := s + 1 to |ss|
      invariant path != [] && path == Extend([ss[s]], ss[s + 1..i])
    {
      assert ss[s + 1..i + 1] == ss[s + 1..i] + [ss[i]];
      ExtendConcat([ss[s]], ss[s + 1..i], [ss[i]]);
      if ss[i].typ.Snapshot? && path[|path| - 1].guid != ss[i].guid {
        path := path + [ss[i]];
      }
    }
    assert ss[s + 1..|ss|] == ss[s + 1..];
  }

  /** The result on some sorted permutation of each list. */
  ghost predicate IsIncPathOf(res: PathResult, receiver: seq<Version>, sender: seq<Version>) {
    exists rs, ss :: IsSortOf(rs, Snaps(receiver)) && IsSortOf(ss, sender) && res == IncPath(rs, ss)
  }

  method PathFromAncestor(rs: seq<Version>, ss: seq<Version>, r: nat, s: nat) returns (res: PathResult)
    requires r < |rs| && s < |ss|
    ensures res == FromAncestor(rs, ss, r, s)
  {
    if r != |rs| - 1 {
      return Diverged(ss, rs, ss[s], ss[s + 1..], rs[r + 1..]);
    }
    var path := BuildPath(ss, s);
    if |path| == 1 {
      return AlreadyPresent(ss, rs, ss[s]);
    }
    return Path(path);
  }

  /** The search and the path on lists that are already stripped and sorted. */
  method PathOnSorted(rs: seq<Version>, ss: seq<Version>) returns (res: PathResult)
    ensures res == IncPath(rs, ss)
  {
    var found, r, s := FindCandidate(rs, ss);
    if found {
      res := PathFromAncestor(rs, ss, r, s);
      return;
    }
    if |ss| == 0 {
      return NoSenderSnapshots;
    }
    return NoCommonAncestor(ss, rs);
  }

  method IncrementalPath(receiver: seq<Version>, sender: seq<Version>) returns (res: PathResult)
    ensures IsIncPathOf(res, receiver, sender)
  {
    var stripped := StripBookmarks(receiver);
    var rs := SortVersionList(stripped);
    var ss := SortVersionList(sender);
    res := PathOnSorted(rs, ss);
  }

  // ----- What the result means -----

  lemma LastIndexHasGuid(s: seq<Version>, g: nat)
    ensures LastIndex(s, g) >= 0 <==> HasGuid(s, g)
  {
    LastIndexIs(s, g, LastIndex(s, g));
    if LastIndex(s, g) >= 0 {
      assert s[LastIndex(s, g)] in s;
    }
  }

  /** Snapshots newer than createtxg `t`, in list order. */
  function SnapsAfter(s: seq<Version>, t: nat): (r: seq<Version>) {
    if s == [] then []
    else if s[0].typ.Snapshot? && s[0].txg > t then [s[0]] + SnapsAfter(s[1..], t)
    else SnapsAfter(s[1..], t)
  }

  lemma {:induction false} SnapsAfterSplit(a: seq<Version>, b: seq<Version>, t: nat)
    requires forall v :: v in a ==> v.txg <= t
    requires forall v :: v in b && v.typ.Snapshot? ==> v.txg > t
    ensures SnapsAfter(a + b, t) == Snaps(b)
    decreases |a|, |b|
  {
    if a != [] {
      assert (a + b)[1..] == a[1..] + b;
      SnapsAfterSplit(a[1..], b, t);
    } else if b != [] {
      assert a + b == b;
      assert [] + b[1..] == b[1..];
      SnapsAfterSplit([], b[1..], t);
    }
  }

  /** No snapshot repeats the guid of one before it. */
  predicate DistinctSnaps(s: seq<Version>) {
    s == [] || ((s[0].typ.Snapshot? ==> FreshFor(s[0].guid, s[1..])) && DistinctSnaps(s[1..]))
  }

  predicate FreshFor(g: nat, s: seq<Version>) {
    forall v :: v in s && v.typ.Snapshot? ==> v.guid != g
  }

  lemma {:induction false} WellFormedDistinct(s: seq<Version>)
    requires WellFormed(s)
    ensures DistinctSnaps(s)
  {
    if s != [] {
      WellFormedTail(s);
      WellFormedDistinct(s[1..]);
      forall v | v in s[1..] && v.typ.Snapshot? && s[0].typ.Snapshot? ensures v.guid != s[0].guid {
        assert Agree(v, s[0]);
      }
    }
  }

  lemma {:induction false} WellFormedDrop(s: seq<Version>, k: nat)
    requires WellFormed(s) && k <= |s|
    ensures WellFormed(s[k..])
  {
    if k == 0 {
      assert s[0..] == s;
    } else {
      WellFormedTail(s);
      WellFormedDrop(s[1..], k - 1);
      assert s[1..][k - 1..] == s[k..];
    }
  }

  /** Without repeated snapshot guids nothing is skipped. */
  lemma {:induction false} ExtendDistinct(path: seq<Version>, rest: seq<Version>)
    requires path != [] && FreshFor(path[|path| - 1].guid, rest) && DistinctSnaps(rest)
    ensures Extend(path, rest) == path + Snaps(rest)
    decreases |rest|
  {
    if rest != [] {
      var first := rest[0];
      assert first in rest && FreshFor(path[|path| - 1].guid, rest[1..]);
      if first.typ.Snapshot? {
        var longer := path + [first];
        assert longer[|longer| - 1] == first;
        ExtendDistinct(longer, rest[1..]);
        assert longer + Snaps(rest[1..]) == path + ([first] + Snaps(rest[1..]));
      } else {
        ExtendDistinct(path, rest[1..]);
      }
    }
  }

  /** `b` comes after `c` and `a` does not. */
  ghost predicate Splits(a: seq<Version>, c: Version, b: seq<Version>) {
    && (forall v :: v in a ==> v.txg <= c.txg)
    && (forall v :: v in b ==> v.txg > c.txg && v.guid != c.guid)
  }

  lemma TailTxg(ss: seq<Version>, s: nat, k: nat)
    requires Sorted(ss) && WellFormed(ss) && s < |ss| && k < |ss| && (s < k ==> ss[k].guid != ss[s].guid)
    ensures k <= s ==> ss[k].txg <= ss[s].txg
    ensures k > s ==> ss[k].txg > ss[s].txg
  {
    if k < s {
      assert !Less(ss[s], ss[k]);
    } else if k > s {
      assert !Less(ss[k], ss[s]) && Agree(ss[k], ss[s]);
    }
  }

  lemma TailSplits(ss: seq<Version>, s: nat)
    requires Sorted(ss) && WellFormed(ss) && s < |ss|
    requires forall j :: s < j < |ss| ==> ss[j].guid != ss[s].guid
    ensures Splits(ss[..s + 1], ss[s], ss[s + 1..])
  {
    forall k | 0 <= k < |ss| ensures k <= s ==> ss[k].txg <= ss[s].txg ensures k > s ==> ss[k].txg > ss[s].txg {
      TailTxg(ss, s, k);
    }
  }

  lemma SplitIsNewer(a: seq<Version>, c: Version, b: seq<Version>)
    requires Splits(a, c, b) && DistinctSnaps(b)
    ensures Snaps(b) == SnapsAfter(a + b, c.txg)
    ensures Extend([c], b) == [c] + SnapsAfter(a + b, c.txg)
  {
    SnapsAfterSplit(a, b, c.txg);
    ExtendDistinct([c], b);
  }

  lemma TailIsDistinct(ss: seq<Version>, s: nat)
    requires WellFormed(ss) && s < |ss|
    ensures DistinctSnaps(ss[s + 1..])
  {
    WellFormedDrop(ss, s + 1);
    WellFormedDistinct(ss[s + 1..]);
  }

  lemma SplitAtIsNewer(ss: seq<Version>, s: nat)
    requires s < |ss| && Splits(ss[..s + 1], ss[s], ss[s + 1..]) && DistinctSnaps(ss[s + 1..])
    ensures Snaps(ss[s + 1..]) == SnapsAfter(ss, ss[s].txg)
    ensures Extend([ss[s]], ss[s + 1..]) == [ss[s]] + SnapsAfter(ss, ss[s].txg)
  {
    assert ss == ss[..s + 1] + ss[s + 1..];
    SplitIsNewer(ss[..s + 1], ss[s], ss[s + 1..]);
  }

  /** The tail of a sorted, well-formed list behind the last entry of its guid holds exactly the newer snapshots. */
  lemma TailIsNewer(ss: seq<Version>, s: nat)
    requires Sorted(ss) && WellFormed(ss) && s < |ss|
    requires forall j :: s < j < |ss| ==> ss[j].guid != ss[s].guid
    ensures Snaps(ss[s + 1..]) == SnapsAfter(ss, ss[s].txg)
    ensures Extend([ss[s]], ss[s + 1..]) == [ss[s]] + SnapsAfter(ss, ss[s].txg)
  {
    TailSplits(ss, s);
    TailIsDistinct(ss, s);
    SplitAtIsNewer(ss, s);
  }

  ghost predicate AnyShared(rs: seq<Version>, ss: seq<Version>) {
    exists v :: v in rs && HasGuid(ss, v.guid)
  }

  ghost predicate NewestShared(rs: seq<Version>, ss: seq<Version>) {
    rs != [] && HasGuid(ss, rs[|rs| - 1].guid)
  }

  lemma {:induction false} LastSharedExists(rs: seq<Version>, ss: seq<Version>)
    ensures LastShared(rs, ss) >= 0 <==> AnyShared(rs, ss)
  {
    if rs != [] {
      var front, last := rs[..|rs| - 1], rs[|rs| - 1];
      LastIndexHasGuid(ss, last.guid);
      LastSharedExists(front, ss);
      assert rs == front + [last];
      assert last in rs;
    }
  }

  /** Which of the four conflicts arises, stated without reference to the search. */
  lemma ConflictsExact(rs: seq<Version>, ss: seq<Version>)
    ensures IncPath(rs, ss).NoSenderSnapshots? <==> !AnyShared(rs, ss) && ss == []
    ensures IncPath(rs, ss).NoCommonAncestor? <==> !AnyShared(rs, ss) && ss != []
    ensures IncPath(rs, ss).Diverged? <==> AnyShared(rs, ss) && !NewestShared(rs, ss)
    ensures IncPath(rs, ss).Path? || IncPath(rs, ss).AlreadyPresent? <==> NewestShared(rs, ss)
  {
    LastSharedExists(rs, ss);
    if rs != [] {
      LastIndexHasGuid(ss, rs[|rs| - 1].guid);
      assert rs[|rs| - 1] in rs;
    }
  }

  /** `rs[r]` is the newest receiver snapshot whose guid the sender has, and `ss[s]` the sender's last version of that guid. */
  ghost predicate CommonAt(rs: seq<Version>, ss: seq<Version>, r: nat, s: nat) {
    && r < |rs| && s < |ss| && rs[r].guid == ss[s].guid
    && (forall j :: r < j < |rs| ==> !HasGuid(ss, rs[j].guid))
    && (forall j :: s < j < |ss| ==> ss[j].guid != ss[s].guid)
  }

  lemma {:induction false} LastSharedIs(rs: seq<Version>, ss: seq<Version>)
    ensures forall j :: LastShared(rs, ss) < j < |rs| ==> !HasGuid(ss, rs[j].guid)
  {
    if rs != [] {
      LastIndexHasGuid(ss, rs[|rs| - 1].guid);
      LastSharedIs(rs[..|rs| - 1], ss);
      assert forall j :: 0 <= j < |rs| - 1 ==> rs[..|rs| - 1][j] == rs[j];
    }
  }

  /** The lists diverge behind the common version; the rests are what follows it on each side. */
  ghost predicate DivergesAt(rs: seq<Version>, ss: seq<Version>, r: nat, s: nat, res: PathResult) {
    CommonAt(rs, ss, r, s) && r < |rs| - 1 && res == Diverged(ss, rs, ss[s], ss[s + 1..], rs[r + 1..])
  }

  lemma CommonFound(rs: seq<Version>, ss: seq<Version>) returns (r: nat, s: nat)
    requires LastShared(rs, ss) >= 0
    ensures CommonAt(rs, ss, r, s) && IncPath(rs, ss) == FromAncestor(rs, ss, r, s)
  {
    LastSharedFound(rs, ss);
    LastSharedIs(rs, ss);
    r := LastShared(rs, ss);
    s := LastIndex(ss, rs[r].guid);
    LastIndexIs(ss, rs[r].guid, s);
  }

  lemma DivergedFrom(rs: seq<Version>, ss: seq<Version>, r: nat, s: nat)
    requires CommonAt(rs, ss, r, s)
    ensures FromAncestor(rs, ss, r, s).Diverged? ==> DivergesAt(rs, ss, r, s, FromAncestor(rs, ss, r, s))
    ensures !FromAncestor(rs, ss, r, s).NoCommonAncestor?
  {
  }

  /** What the two conflicts carry. */
  lemma ConflictContents(rs: seq<Version>, ss: seq<Version>) returns (r: nat, s: nat)
    ensures IncPath(rs, ss).NoCommonAncestor? ==> IncPath(rs, ss) == NoCommonAncestor(ss, rs)
    ensures IncPath(rs, ss).Diverged? ==> DivergesAt(rs, ss, r, s, IncPath(rs, ss))
  {
    r, s := 0, 0;
    if LastShared(rs, ss) >= 0 {
      r, s := CommonFound(rs, ss);
      DivergedFrom(rs, ss, r, s);
    }
  }

  /** There is at most one such pair. */
  lemma CommonUnique(rs: seq<Version>, ss: seq<Version>, r: nat, s: nat, r': nat, s': nat)
    requires CommonAt(rs, ss, r, s) && CommonAt(rs, ss, r', s')
    ensures r == r' && s == s'
  {
    assert ss[s] in ss && ss[s'] in ss;
    assert HasGuid(ss, rs[r].guid) && HasGuid(ss, rs[r'].guid);
  }

  /** The version a path starts from: the sender's last entry with the guid of the receiver's newest snapshot. */
  function Base(rs: seq<Version>, ss: seq<Version>): (v: Version)
    requires rs != [] && LastIndex(ss, rs[|rs| - 1].guid) >= 0
  {
    ss[LastIndex(ss, rs[|rs| - 1].guid)]
  }

  lemma BaseProps(rs: seq<Version>, ss: seq<Version>)
    requires NewestShared(rs, ss)
    ensures LastIndex(ss, rs[|rs| - 1].guid) >= 0
    ensures Base(rs, ss) in ss && Base(rs, ss).guid == rs[|rs| - 1].guid
  {
    LastIndexHasGuid(ss, rs[|rs| - 1].guid);
    LastIndexIs(ss, rs[|rs| - 1].guid, LastIndex(ss, rs[|rs| - 1].guid));
  }

  /** If the sender still has the snapshot, the path starts from it and not from a bookmark of it. */
  lemma BasePrefersSnapshot(rs: seq<Version>, ss: seq<Version>, v: Version)
    requires Sorted(ss) && WellFormed(ss) && rs != []
    requires v in ss && v.typ.Snapshot? && v.guid == rs[|rs| - 1].guid
    ensures NewestShared(rs, ss) && LastIndex(ss, rs[|rs| - 1].guid) >= 0 && Base(rs, ss) == v
  {
    BaseProps(rs, ss);
    var k := LastIndex(ss, v.guid);
    LastIndexIs(ss, v.guid, k);
    var j :| 0 <= j < |ss| && ss[j] == v;
    assert Agree(ss[k], v) && (j < k ==> !Less(ss[k], ss[j]));
  }

  lemma IncPathFromBase(rs: seq<Version>, ss: seq<Version>)
    requires NewestShared(rs, ss)
    ensures LastIndex(ss, rs[|rs| - 1].guid) >= 0
    ensures IncPath(rs, ss) == FromAncestor(rs, ss, |rs| - 1, LastIndex(ss, rs[|rs| - 1].guid))
  {
    BaseProps(rs, ss);
    assert LastShared(rs, ss) == |rs| - 1;
  }

  lemma AncestorPath(rs: seq<Version>, ss: seq<Version>, s: nat)
    requires Sorted(ss) && WellFormed(ss) && rs != [] && s < |ss|
    requires forall j :: s < j < |ss| ==> ss[j].guid != ss[s].guid
    ensures FromAncestor(rs, ss, |rs| - 1, s) ==
            if SnapsAfter(ss, ss[s].txg) == [] then AlreadyPresent(ss, rs, ss[s])
            else Path([ss[s]] + SnapsAfter(ss, ss[s].txg))
  {
    TailIsNewer(ss, s);
  }

  /** The other entries of the path are exactly the sender's newer snapshots, oldest first. */
  lemma PathIsNewerSnaps(rs: seq<Version>, ss: seq<Version>)
    requires Sorted(ss) && WellFormed(ss) && NewestShared(rs, ss)
    ensures LastIndex(ss, rs[|rs| - 1].guid) >= 0
    ensures SnapsAfter(ss, Base(rs, ss).txg) == [] ==> IncPath(rs, ss) == AlreadyPresent(ss, rs, Base(rs, ss))
    ensures SnapsAfter(ss, Base(rs, ss).txg) != [] ==>
              IncPath(rs, ss) == Path([Base(rs, ss)] + SnapsAfter(ss, Base(rs, ss).txg))
  {
    IncPathFromBase(rs, ss);
    var k := LastIndex(ss, rs[|rs| - 1].guid);
    LastIndexIs(ss, rs[|rs| - 1].guid, k);
    AncestorPath(rs, ss, k);
  }
}
