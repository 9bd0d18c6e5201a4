/** Filesystem versions (snapshots and bookmarks) and the order in which the planner lists them. */
module Versions {

  datatype Option<+T> = None | Some(value: T)

  datatype VersionType = Bookmark | Snapshot

  /** `txg` is ZFS's createtxg; a bookmark has the guid and createtxg of the snapshot it was made from. */
  datatype Version = Version(typ: VersionType, name: string, guid: nat, txg: nat)

  predicate Less(a: Version, b: Version) {
    a.txg < b.txg || (a.txg == b.txg && a.typ.Bookmark? && b.typ.Snapshot?)
  }

  predicate Sorted(s: seq<Version>) {
    forall i, j :: 0 <= i < j < |s| ==> !Less(s[j], s[i])
  }

  /** What an unstable sort may return: any sorted permutation. */
  ghost predicate IsSortOf(r: seq<Version>, s: seq<Version>) {
    Sorted(r) && multiset(r) == multiset(s)
  }

  /** The snapshots of a version list, in list order. */
  function Snaps(s: seq<Version>): (r: seq<Version>)
  {
    if s == [] then []
    else if s[0].typ.Snapshot? then [s[0]] + Snaps(s[1..])
    else Snaps(s[1..])
  }

  lemma {:induction false} SnapsMembers(s: seq<Version>)
    ensures forall v :: v in Snaps(s) <==> v in s && v.typ.Snapshot?
  {
    if s != [] {
      assert s == [s[0]] + s[1..];
      SnapsMembers(s[1..]);
    }
  }

  lemma {:induction false} SnapsConcat(a: seq<Version>, b: seq<Version>)
    ensures Snaps(a + b) == Snaps(a) + Snaps(b)
  {
    if a == [] {
      assert a + b == b;
    } else {
      assert (a + b)[1..] == a[1..] + b;
      SnapsConcat(a[1..], b);
    }
  }

  lemma {:induction false} SnapsKeepAll(a: seq<Version>)
    requires forall v :: v in a ==> v.typ.Snapshot?
    ensures Snaps(a) == a
  {
    if a != [] {
      SnapsKeepAll(a[1..]);
    }
  }

  /** Facts ZFS provides about the versions of one filesystem: a createtxg belongs to one guid, a guid to one
      snapshot, and no snapshot is listed twice. */
  ghost predicate WellFormed(s: seq<Version>) {
    && (forall v, w {:trigger Agree(v, w)} :: v in s && w in s ==> Agree(v, w))
    && (forall v {:trigger multiset(s)[v]} :: v in s && v.typ.Snapshot? ==> multiset(s)[v] == 1)
  }

  predicate Agree(v: Version, w: Version) {
    && (v.guid == w.guid <==> v.txg == w.txg)
    && (v.typ.Snapshot? && w.typ.Snapshot? && v.guid == w.guid ==> v == w)
  }

  lemma WellFormedPermutes(a: seq<Version>, b: seq<Version>)
    requires WellFormed(a) && multiset(a) == multiset(b)
    ensures WellFormed(b)
  {
    SameElements(a, b);
  }

  lemma WellFormedTail(s: seq<Version>)
    requires WellFormed(s) && s != []
    ensures WellFormed(s[1..])
    ensures s[0].typ.Snapshot? ==> s[0] !in s[1..]
  {
    assert s == [s[0]] + s[1..];
    forall v | v in s[1..] && v.typ.Snapshot? ensures multiset(s[1..])[v] == 1 {
      assert v in multiset(s[1..]) && multiset(s)[v] == 1;
    }
    if s[0].typ.Snapshot? {
      assert multiset(s)[s[0]] == 1 + multiset(s[1..])[s[0]];
      assert s[0] in s[1..] <==> s[0] in multiset(s[1..]);
    }
  }

  lemma CountTwice(a: seq<Version>, i: nat, j: nat)
    requires i < j < |a| && a[i] == a[j]
    ensures multiset(a)[a[i]] >= 2
  {
    assert a == a[..i] + [a[i]] + a[i + 1..j] + [a[j]] + a[j + 1..];
  }

  ghost predicate HasGuid(s: seq<Version>, g: nat) {
    exists v :: v in s && v.guid == g
  }

  ghost predicate StrictlyByTxg(s: seq<Version>) {
    forall i, j :: 0 <= i < j < |s| ==> s[i].txg < s[j].txg
  }

  lemma HeadIsOlder(s: seq<Version>, v: Version)
    requires Sorted(s) && WellFormed(s) && s != [] && v in s[1..]
    requires s[0].typ.Snapshot? && v.typ.Snapshot? && s[0] !in s[1..]
    ensures s[0].txg < v.txg
  {
    var k :| 1 <= k < |s| && s[k] == v;
    assert !Less(s[k], s[0]) && Agree(s[0], v);
  }

  lemma {:induction false} SnapsStrict(s: seq<Version>)
    requires Sorted(s) && WellFormed(s)
    ensures StrictlyByTxg(Snaps(s))
  {
    if s != [] {
      var tail := s[1..];
      WellFormedTail(s);
      SnapsStrict(tail);
      SnapsMembers(tail);
      if s[0].typ.Snapshot? {
        forall v | v in Snaps(tail) ensures s[0].txg < v.txg {
          HeadIsOlder(s, v);
        }
        StrictCons(s[0], Snaps(tail));
      }
    }
  }

  lemma StrictCons(v: Version, s: seq<Version>)
    requires StrictlyByTxg(s) && forall w :: w in s ==> v.txg < w.txg
    ensures StrictlyByTxg([v] + s)
  {
    forall i | 0 <= i < |s| ensures v.txg < s[i].txg {
      assert s[i] in s;
    }
  }

  /** Strictly ordered lists are determined by their elements. */
  lemma {:induction false} StrictUnique(a: seq<Version>, b: seq<Version>)
    requires StrictlyByTxg(a) && StrictlyByTxg(b)
    requires forall v :: v in a <==> v in b
    ensures a == b
  {
    assert b != [] ==> b[0] in b;
    if a != [] {
      assert a[0] in b;
      assert b[0] in a;
      assert a[0] == b[0];
      forall v ensures v in a[1..] <==> v in b[1..] {
        if v in a[1..] {
          assert v in b && v.txg > a[0].txg;
        }
        if v in b[1..] {
          assert v in a && v.txg > b[0].txg;
        }
      }
      StrictUnique(a[1..], b[1..]);
      assert a == [a[0]] + a[1..] && b == [b[0]] + b[1..];
    }
  }

  lemma SameElements(a: seq<Version>, b: seq<Version>)
    requires multiset(a) == multiset(b)
    ensures forall v :: v in a <==> v in b
  {
    forall v ensures v in a <==> v in b {
      assert v in multiset(a) <==> v in multiset(b);
    }
  }

  /** Re-sorting a well-formed list never changes the order of its snapshots. */
  lemma SortsAgreeOnSnaps(a: seq<Version>, b: seq<Version>)
    requires Sorted(a) && Sorted(b) && multiset(a) == multiset(b)
    requires WellFormed(a) && WellFormed(b)
    ensures Snaps(a) == Snaps(b)
  {
    SameElements(a, b);
    SnapsMembers(a);
    SnapsMembers(b);
    SnapsStrict(a);
    SnapsStrict(b);
    StrictUnique(Snaps(a), Snaps(b));
  }

  /** Inserts into a sorted list behind every element that is not greater. */
  function Insert(v: Version, s: seq<Version>): (r: seq<Version>)
    ensures multiset(r) == multiset(s) + multiset{v}
  {
    if s == [] then [v]
    else
      assert s == s[..|s| - 1] + [s[|s| - 1]];
      if Less(v, s[|s| - 1]) then Insert(v, s[..|s| - 1]) + [s[|s| - 1]] else s + [v]
  }

  lemma {:induction false} InsertSorted(v: Version, s: seq<Version>)
    requires Sorted(s)
    ensures Sorted(Insert(v, s))
  {
    if s != [] {
      var last := s[|s| - 1];
      if Less(v, last) {
        var front := s[..|s| - 1];
        var r0 := Insert(v, front);
        InsertSorted(v, front);
        forall i | 0 <= i < |r0| ensures !Less(last, r0[i]) {
          assert r0[i] in multiset(r0);
        }
      } else {
        forall i | 0 <= i < |s| ensures !Less(v, s[i]) {
          assert i == |s| - 1 || !Less(last, s[i]);
        }
      }
    }
  }

  /** Every list can be sorted. */
  lemma {:induction false} SortExists(s: seq<Version>) returns (r: seq<Version>)
    ensures IsSortOf(r, s)
  {
    if s == [] {
      r := [];
    } else {
      var n := |s| - 1;
      var r0 := SortExists(s[..n]);
      InsertSorted(s[n], r0);
      r := Insert(s[n], r0);
      assert s == s[..n] + [s[n]];
    }
  }

  /** Returns the list itself if it is sorted already, otherwise a sorted copy. */
  method SortVersionList(s: seq<Version>) returns (r: seq<Version>)
    ensures IsSortOf(r, s)
    ensures Sorted(s) ==> r == s
  {
    if Sorted(s) {
      return s;
    }
    r := [];
    for i := 0 to |s|
      invariant IsSortOf(r, s[..i])
    {
      InsertSorted(s[i], r);
      r := Insert(s[i], r);
      assert s[..i + 1] == s[..i] + [s[i]];
    }
    assert s[..|s|] == s;
  }

  method StripBookmarks(s: seq<Version>) returns (r: seq<Version>)
    ensures r == Snaps(s)
  {
    r := [];
    for i := 0 to |s|
      invariant r == Snaps(s[..i])
    {
      assert s[..i + 1] == s[..i] + [s[i]];
      SnapsConcat(s[..i], [s[i]]);
      if !s[i].typ.Bookmark? {
        r := r + [s[i]];
      }
    }
    assert s[..|s|] == s;
  }
}
