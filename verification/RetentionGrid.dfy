/** The retention grid: buckets of time before the youngest entry, each keeping a number of its oldest. */
module RetentionGrid {
  import opened Collections
  import opened Versions

  const KEEP_ALL := -1

  datatype Interval = Interval(length: int, keepCount: int)
  datatype Entry = Entry(id: nat, name: string, replicated: bool, date: int)

  predicate ValidGrid(grid: seq<Interval>) {
    grid != [] && forall i :: 0 <= i < |grid| ==> grid[i].keepCount == KEEP_ALL || grid[i].keepCount >= 1
  }

  // Where the buckets lie.

  /** The younger end of bucket `i`, which is the older end of the one before. */
  function Edge(grid: seq<Interval>, now: int, i: nat): (r: int)
    requires i <= |grid|
  {
    if i == 0 then now else Edge(grid, now, i - 1) - grid[i - 1].length
  }

  predicate InBucket(grid: seq<Interval>, now: int, i: nat, date: int)
    requires i < |grid|
  {
    Edge(grid, now, i + 1) < date <= Edge(grid, now, i)
  }

  /** The first bucket from `i` on that contains the date. */
  function FirstBucket(grid: seq<Interval>, now: int, date: int, i: nat): (r: Option<nat>)
    requires i <= |grid|
    ensures r.Some? ==> i <= r.value < |grid| && InBucket(grid, now, r.value, date)
    ensures r.None? ==> forall k :: i <= k < |grid| ==> !InBucket(grid, now, k, date)
    decreases |grid| - i
  {
    if i == |grid| then None
    else if InBucket(grid, now, i, date) then Some(i)
    else FirstBucket(grid, now, date, i + 1)
  }

  function BucketOf(grid: seq<Interval>, now: int, date: int): (r: Option<nat>) {
    FirstBucket(grid, now, date, 0)
  }

  lemma {:induction false} EdgesDescend(grid: seq<Interval>, now: int, i: nat, j: nat)
    requires i <= j <= |grid| && forall k :: 0 <= k < |grid| ==> grid[k].length >= 0
    ensures Edge(grid, now, j) <= Edge(grid, now, i)
  {
    if i < j {
      EdgesDescend(grid, now, i, j - 1);
    }
  }

  lemma {:induction false} SomeBucket(grid: seq<Interval>, now: int, date: int, n: nat) returns (i: nat)
    requires n <= |grid| && Edge(grid, now, n) < date <= now
    ensures i < n && InBucket(grid, now, i, date)
  {
    if date <= Edge(grid, now, n - 1) {
      i := n - 1;
    } else {
      i := SomeBucket(grid, now, date, n - 1);
    }
  }

  /** The buckets tile the window that ends now: every date in it is in exactly one bucket, no other date in any. */
  lemma BucketsTile(grid: seq<Interval>, now: int, date: int)
    requires forall k :: 0 <= k < |grid| ==> grid[k].length >= 0
    ensures Edge(grid, now, |grid|) < date <= now <==> BucketOf(grid, now, date).Some?
    ensures forall i, j :: 0 <= i < |grid| && 0 <= j < |grid| && InBucket(grid, now, i, date) && InBucket(grid, now, j, date) ==> i == j
  {
    if Edge(grid, now, |grid|) < date <= now {
      var i := SomeBucket(grid, now, date, |grid|);
    }
    var b := BucketOf(grid, now, date);
    if b.Some? {
      EdgesDescend(grid, now, 0, b.value);
      EdgesDescend(grid, now, b.value + 1, |grid|);
    }
    forall i, j | 0 <= i < j < |grid| ensures !(InBucket(grid, now, i, date) && InBucket(grid, now, j, date)) {
      EdgesDescend(grid, now, i + 1, j);
    }
  }

  // Sorting, youngest first.

  predicate YoungestFirst(es: seq<Entry>) {
    forall i, j :: 0 <= i < j < |es| ==> es[i].date >= es[j].date
  }

  method InsertEntry(es: seq<Entry>, e: Entry) returns (r: seq<Entry>)
    requires YoungestFirst(es)
    ensures YoungestFirst(r) && multiset(r) == multiset(es) + multiset{e}
    ensures NoDuplicates(es) && e !in es ==> NoDuplicates(r)
  {
    var i := |es|;
    while i > 0 && es[i - 1].date < e.date
      invariant 0 <= i <= |es|
      invariant forall k :: i <= k < |es| ==> es[k].date < e.date
    {
      i := i - 1;
    }
    r := es[..i] + [e] + es[i..];
    InsertedSorted(es, i, e);
    InsertedElems(es, i, e);
  }

  lemma InsertedSorted(es: seq<Entry>, i: nat, e: Entry)
    requires i <= |es| && YoungestFirst(es) && (i > 0 ==> es[i - 1].date >= e.date)
    requires forall k :: i <= k < |es| ==> es[k].date < e.date
    ensures YoungestFirst(es[..i] + [e] + es[i..])
  {
  }

  lemma InsertedElems(es: seq<Entry>, i: nat, e: Entry)
    requires i <= |es|
    ensures multiset(es[..i] + [e] + es[i..]) == multiset(es) + multiset{e}
    ensures NoDuplicates(es) && e !in es ==> NoDuplicates(es[..i] + [e] + es[i..])
  {
    assert es == es[..i] + es[i..];
    if NoDuplicates(es) && e !in es {
      InsertedDistinct(es, i, e);
    }
  }

  lemma InsertedDistinct(es: seq<Entry>, i: nat, e: Entry)
    requires i <= |es| && NoDuplicates(es) && e !in es
    ensures NoDuplicates(es[..i] + [e] + es[i..])
  {
    var r := es[..i] + [e] + es[i..];
    forall a, b | 0 <= a < b < |r| ensures r[a] != r[b] {
      assert a != i ==> r[a] == es[if a < i then a else a - 1];
      assert b != i ==> r[b] == es[if b < i then b else b - 1];
    }
  }

  method SortYoungestFirst(es: seq<Entry>) returns (r: seq<Entry>)
    ensures YoungestFirst(r) && multiset(r) == multiset(es) && Elems(r) == Elems(es) && |r| == |es|
    ensures NoDuplicates(es) ==> NoDuplicates(r)
  {
    r := [];
    for i := 0 to |es|
      invariant YoungestFirst(r) && multiset(r) == multiset(es[..i])
      invariant NoDuplicates(es) ==> NoDuplicates(r)
    {
      assert es[..i + 1] == es[..i] + [es[i]];
      assert NoDuplicates(es) ==> es[i] !in multiset(es[..i]);
      assert es[i] in r <==> es[i] in multiset(r);
      r := InsertEntry(r, es[i]);
    }
    assert es[..|es|] == es;
    SameElems(r, es);
    assert |multiset(r)| == |r| && |multiset(es)| == |es|;
  }

  // Buckets.

  datatype Bucket = Bucket(keepCount: int, youngerThan: int, olderThanOrEq: int, entries: seq<Entry>) {
    predicate Contains(e: Entry) {
      (e.date < olderThanOrEq || e.date == olderThanOrEq) && e.date > youngerThan
    }
  }

  /** `kept` and `removed` split the entries of a bucket: it keeps all, or `keepCount` of its oldest. */
  ghost predicate Thinned(all: set<Entry>, keepCount: int, removed: set<Entry>) {
    && removed <= all
    && (keepCount == KEEP_ALL ==> removed == {})
    && (keepCount >= 1 ==> |all - removed| == if |all| <= keepCount then |all| else keepCount)
    && (forall k, r :: k in all && k !in removed && r in removed ==> k.date <= r.date)
  }

  lemma ThinnedParts(removed: seq<Entry>, kept: seq<Entry>)
    requires YoungestFirst(removed + kept) && NoDuplicates(removed + kept)
    ensures Elems(removed + kept) - Elems(removed) == Elems(kept) && NoDuplicates(kept) && NoDuplicates(removed)
    ensures forall k, r :: k in Elems(kept) && r in Elems(removed) ==> k.date <= r.date
  {
    var all := removed + kept;
    assert forall i :: 0 <= i < |removed| ==> all[i] == removed[i];
    assert forall i :: 0 <= i < |kept| ==> all[|removed| + i] == kept[i];
  }

  lemma ThinnedBySort(sorted: seq<Entry>, keepCount: nat)
    requires YoungestFirst(sorted) && NoDuplicates(sorted) && 1 <= keepCount < |sorted|
    ensures Thinned(Elems(sorted), keepCount, Elems(sorted[..|sorted| - keepCount]))
    ensures NoDuplicates(sorted[..|sorted| - keepCount])
  {
    var n := |sorted| - keepCount;
    var removed, kept := sorted[..n], sorted[n..];
    assert sorted == removed + kept;
    ThinnedParts(removed, kept);
    CardElems(kept);
    CardElems(sorted);
  }

  lemma ThinnedNone(es: seq<Entry>, keepCount: int)
    requires NoDuplicates(es) && (keepCount == KEEP_ALL || |es| <= keepCount)
    ensures Thinned(Elems(es), keepCount, Elems([])) && NoDuplicates<Entry>([])
  {
    CardElems(es);
    assert Elems(es) - Elems([]) == Elems(es);
  }

  /** Cuts the youngest off a sorted bucket. */
  method ThinSorted(sorted: seq<Entry>, keepCount: nat) returns (removed: seq<Entry>)
    requires YoungestFirst(sorted) && NoDuplicates(sorted) && 1 <= keepCount < |sorted|
    ensures Thinned(Elems(sorted), keepCount, Elems(removed)) && NoDuplicates(removed)
  {
    ThinnedBySort(sorted, keepCount);
    removed := sorted[..|sorted| - keepCount];
  }

  /** The youngest entries that exceed the keep count. The bucket's entries are sorted in passing. */
  method RemoveYoungerExceeding(b: Bucket) returns (b': Bucket, removed: seq<Entry>)
    requires NoDuplicates(b.entries) && (b.keepCount == KEEP_ALL || b.keepCount >= 1)
    ensures Thinned(Elems(b.entries), b.keepCount, Elems(removed)) && NoDuplicates(removed)
    ensures Elems(b'.entries) == Elems(b.entries)
  {
    if b.keepCount == KEEP_ALL || |b.entries| - b.keepCount <= 0 {
      ThinnedNone(b.entries, b.keepCount);
      return b, [];
    }
    var sorted := SortYoungestFirst(b.entries);
    removed := ThinSorted(sorted, b.keepCount);
    b' := b.(entries := sorted);
  }

  // Fitting.

  datatype Place = Future | InGrid(bucket: nat) | TooOld

  function PlaceOf(grid: seq<Interval>, now: int, e: Entry): (r: Place) {
    if now < e.date then Future
    else
      var b := BucketOf(grid, now, e.date);
      if b.Some? then InGrid(b.value) else TooOld
  }

  function Members(grid: seq<Interval>, now: int, all: set<Entry>, p: Place): (r: set<Entry>) {
    set e | e in all && PlaceOf(grid, now, e) == p
  }

  /** What the grid asks to remove: everything before the oldest bucket, nothing from the future, and of each bucket
      all but the oldest it keeps. */
  ghost predicate Fitted(grid: seq<Interval>, now: int, all: set<Entry>, remove: set<Entry>) {
    && remove <= all
    && Members(grid, now, all, TooOld) <= remove
    && Members(grid, now, all, Future) !! remove
    && (forall i :: 0 <= i < |grid| ==>
          Thinned(Members(grid, now, all, InGrid(i)), grid[i].keepCount, Members(grid, now, all, InGrid(i)) * remove))
  }

  /** The buckets lie where the grid says. */
  ghost predicate Laid(grid: seq<Interval>, now: int, buckets: seq<Bucket>, n: nat)
    requires n <= |grid|
  {
    |buckets| == n && forall i :: 0 <= i < n ==> LaidAt(grid, now, buckets, i)
  }

  predicate LaidAt(grid: seq<Interval>, now: int, buckets: seq<Bucket>, i: nat)
    requires i < |grid| && i < |buckets|
  {
    && buckets[i].keepCount == grid[i].keepCount
    && buckets[i].olderThanOrEq == Edge(grid, now, i) && buckets[i].youngerThan == Edge(grid, now, i + 1)
  }

  method MakeBuckets(grid: seq<Interval>, now: int) returns (buckets: seq<Bucket>)
    requires ValidGrid(grid)
    ensures Laid(grid, now, buckets, |grid|) && forall i :: 0 <= i < |buckets| ==> buckets[i].entries == []
  {
    buckets := [Bucket(grid[0].keepCount, now - grid[0].length, now, [])];
    assert LaidAt(grid, now, buckets, 0);
    for i := 1 to |grid|
      invariant Laid(grid, now, buckets, i) && forall k :: 0 <= k < i ==> buckets[k].entries == []
    {
      assert LaidAt(grid, now, buckets, i - 1);
      var older := buckets[i - 1].youngerThan;
      ghost var before := buckets;
      buckets := buckets + [Bucket(grid[i].keepCount, older - grid[i].length, older, [])];
      forall k | 0 <= k < i + 1 ensures LaidAt(grid, now, buckets, k) {
        assert k < i ==> LaidAt(grid, now, before, k);
      }
    }
  }

  lemma {:induction false} FirstBucketIs(grid: seq<Interval>, now: int, date: int, i: nat, b: nat)
    requires i <= b < |grid| && InBucket(grid, now, b, date) && forall k :: i <= k < b ==> !InBucket(grid, now, k, date)
    ensures FirstBucket(grid, now, date, i) == Some(b)
    decreases b - i
  {
    if i < b {
      FirstBucketIs(grid, now, date, i + 1, b);
    }
  }

  /** Adds the entry to the first bucket that contains it. */
  method AddToBucket(grid: seq<Interval>, now: int, buckets: seq<Bucket>, e: Entry) returns (r: seq<Bucket>, added: bool)
    requires Laid(grid, now, buckets, |grid|)
    ensures added <==> BucketOf(grid, now, e.date).Some?
    ensures !added ==> r == buckets
    ensures added ==> var b := BucketOf(grid, now, e.date).value;
                      r == buckets[b := buckets[b].(entries := buckets[b].entries + [e])]
  {
    for i := 0 to |buckets|
      invariant forall k :: 0 <= k < i ==> !InBucket(grid, now, k, e.date)
    {
      assert LaidAt(grid, now, buckets, i);
      if buckets[i].Contains(e) {
        FirstBucketIs(grid, now, e.date, 0, i);
        return buckets[i := buckets[i].(entries := buckets[i].entries + [e])], true;
      }
    }
    return buckets, false;
  }

  /** The entries seen so far are in their places. */
  ghost predicate Assigned(grid: seq<Interval>, now: int, all: set<Entry>, buckets: seq<Bucket>, keep: seq<Entry>, remove: seq<Entry>) {
    && |buckets| == |grid|
    && (forall i :: 0 <= i < |buckets| ==>
          NoDuplicates(buckets[i].entries) && Elems(buckets[i].entries) == Members(grid, now, all, InGrid(i)))
    && Elems(keep) == Members(grid, now, all, Future)
    && NoDuplicates(remove) && Elems(remove) == Members(grid, now, all, TooOld)
  }

  lemma MembersPlus(grid: seq<Interval>, now: int, all: set<Entry>, e: Entry, p: Place)
    ensures Members(grid, now, all + {e}, p) ==
            if PlaceOf(grid, now, e) == p then Members(grid, now, all, p) + {e} else Members(grid, now, all, p)
  {
  }

  lemma AssignedFuture(grid: seq<Interval>, now: int, all: set<Entry>, buckets: seq<Bucket>, keep: seq<Entry>, remove: seq<Entry>, e: Entry)
    requires Assigned(grid, now, all, buckets, keep, remove) && PlaceOf(grid, now, e).Future?
    ensures Assigned(grid, now, all + {e}, buckets, keep + [e], remove)
  {
    PlacesPlus(grid, now, all, e);
    ElemsAppend(keep, e);
  }

  lemma AssignedTooOld(grid: seq<Interval>, now: int, all: set<Entry>, buckets: seq<Bucket>, keep: seq<Entry>, remove: seq<Entry>, e: Entry)
    requires Assigned(grid, now, all, buckets, keep, remove) && e !in all && PlaceOf(grid, now, e).TooOld?
    ensures Assigned(grid, now, all + {e}, buckets, keep, remove + [e])
  {
    PlacesPlus(grid, now, all, e);
    assert e !in Elems(remove);
    ElemsAppend(remove, e);
  }

  lemma AssignedInGrid(grid: seq<Interval>, now: int, all: set<Entry>, buckets: seq<Bucket>, keep: seq<Entry>, remove: seq<Entry>, e: Entry, b: nat)
    requires Assigned(grid, now, all, buckets, keep, remove) && e !in all && PlaceOf(grid, now, e) == InGrid(b) && b < |buckets|
    ensures Assigned(grid, now, all + {e}, buckets[b := buckets[b].(entries := buckets[b].entries + [e])], keep, remove)
  {
    PlacesPlus(grid, now, all, e);
    assert e !in Elems(buckets[b].entries);
    ElemsAppend(buckets[b].entries, e);
  }

  lemma LaidKept(grid: seq<Interval>, now: int, buckets: seq<Bucket>, b: nat, e: Entry)
    requires Laid(grid, now, buckets, |grid|) && b < |buckets|
    ensures Laid(grid, now, buckets[b := buckets[b].(entries := buckets[b].entries + [e])], |grid|)
  {
    var r := buckets[b := buckets[b].(entries := buckets[b].entries + [e])];
    forall i | 0 <= i < |grid| ensures LaidAt(grid, now, r, i) {
      assert LaidAt(grid, now, buckets, i);
    }
  }

  /** Puts every entry in its place. */
  method Assign(grid: seq<Interval>, now: int, empty: seq<Bucket>, entries: seq<Entry>)
    returns (buckets: seq<Bucket>, keep: seq<Entry>, remove: seq<Entry>)
    requires Laid(grid, now, empty, |grid|) && (forall i :: 0 <= i < |empty| ==> empty[i].entries == [])
    requires NoDuplicates(entries)
    ensures Laid(grid, now, buckets, |grid|) && Assigned(grid, now, Elems(entries), buckets, keep, remove)
  {
    buckets, keep, remove := empty, [], [];
    for ei := 0 to |entries|
      invariant Laid(grid, now, buckets, |grid|)
      invariant Assigned(grid, now, Elems(entries[..ei]), buckets, keep, remove)
    {
      var e := entries[ei];
      ghost var all := Elems(entries[..ei]);
      ElemsNext(entries, ei);
      if now < e.date {
        AssignedFuture(grid, now, all, buckets, keep, remove, e);
        keep := keep + [e];
      } else {
        var added;
        ghost var before := buckets;
        buckets, added := AddToBucket(grid, now, buckets, e);
        if added {
          LaidKept(grid, now, before, BucketOf(grid, now, e.date).value, e);
          AssignedInGrid(grid, now, all, before, keep, remove, e, BucketOf(grid, now, e.date).value);
        } else {
          AssignedTooOld(grid, now, all, buckets, keep, remove, e);
          remove := remove + [e];
        }
      }
    }
    assert entries[..|entries|] == entries;
  }

  lemma PlacesPlus(grid: seq<Interval>, now: int, all: set<Entry>, e: Entry)
    ensures forall p {:trigger Members(grid, now, all + {e}, p)} ::
              Members(grid, now, all + {e}, p) ==
              if PlaceOf(grid, now, e) == p then Members(grid, now, all, p) + {e} else Members(grid, now, all, p)
  {
    forall p ensures Members(grid, now, all + {e}, p) ==
                     if PlaceOf(grid, now, e) == p then Members(grid, now, all, p) + {e} else Members(grid, now, all, p) {
      MembersPlus(grid, now, all, e, p);
    }
  }

  /** The buckets before `n` are thinned. */
  ghost predicate ThinnedUpTo(grid: seq<Interval>, now: int, all: set<Entry>, n: nat, keep: set<Entry>, remove: set<Entry>)
    requires n <= |grid|
  {
    && remove <= all
    && Members(grid, now, all, TooOld) <= remove
    && Members(grid, now, all, Future) !! remove
    && (forall i :: 0 <= i < n ==> ThinnedAt(grid, now, all, i, keep, remove))
    && (forall i :: n <= i < |grid| ==> Members(grid, now, all, InGrid(i)) !! remove)
  }

  ghost predicate ThinnedAt(grid: seq<Interval>, now: int, all: set<Entry>, i: nat, keep: set<Entry>, remove: set<Entry>)
    requires i < |grid|
  {
    var members := Members(grid, now, all, InGrid(i));
    members <= keep && Thinned(members, grid[i].keepCount, members * remove)
  }

  lemma ThinNext(grid: seq<Interval>, now: int, all: set<Entry>, n: nat, keep: set<Entry>, remove: set<Entry>, removed: set<Entry>)
    requires n < |grid| && ThinnedUpTo(grid, now, all, n, keep, remove)
    requires Thinned(Members(grid, now, all, InGrid(n)), grid[n].keepCount, removed)
    ensures ThinnedUpTo(grid, now, all, n + 1, keep + Members(grid, now, all, InGrid(n)), remove + removed)
    ensures remove !! removed
  {
    var members := Members(grid, now, all, InGrid(n));
    assert members * (remove + removed) == removed;
    forall i | 0 <= i < n ensures ThinnedAt(grid, now, all, i, keep + members, remove + removed) {
      assert ThinnedAt(grid, now, all, i, keep, remove);
      var ms := Members(grid, now, all, InGrid(i));
      assert ms * (remove + removed) == ms * remove;
    }
  }

  lemma ThinnedAll(grid: seq<Interval>, now: int, all: set<Entry>, keep: set<Entry>, remove: set<Entry>)
    requires ThinnedUpTo(grid, now, all, |grid|, keep, remove) && Members(grid, now, all, Future) <= keep
    ensures Fitted(grid, now, all, remove)
    ensures forall e :: e in all && !PlaceOf(grid, now, e).TooOld? ==> e in keep
  {
    forall i | 0 <= i < |grid|
      ensures Thinned(Members(grid, now, all, InGrid(i)), grid[i].keepCount, Members(grid, now, all, InGrid(i)) * remove)
    {
      assert ThinnedAt(grid, now, all, i, keep, remove);
    }
    forall e | e in all && !PlaceOf(grid, now, e).TooOld? ensures e in keep {
      var p := PlaceOf(grid, now, e);
      assert e in Members(grid, now, all, p);
      assert p.InGrid? ==> ThinnedAt(grid, now, all, p.bucket, keep, remove);
    }
  }

  /** Applies the keep counts. */
  method Thin(grid: seq<Interval>, now: int, ghost all: set<Entry>, buckets: seq<Bucket>, keep0: seq<Entry>, remove0: seq<Entry>)
    returns (keep: seq<Entry>, remove: seq<Entry>)
    requires ValidGrid(grid) && Laid(grid, now, buckets, |grid|) && Assigned(grid, now, all, buckets, keep0, remove0)
    ensures NoDuplicates(remove) && ThinnedUpTo(grid, now, all, |grid|, Elems(keep), Elems(remove))
    ensures Elems(keep0) <= Elems(keep)
  {
    keep, remove := keep0, remove0;
    for n := 0 to |buckets|
      invariant ThinnedUpTo(grid, now, all, n, Elems(keep), Elems(remove)) && NoDuplicates(remove)
      invariant Elems(keep0) <= Elems(keep)
    {
      assert LaidAt(grid, now, buckets, n);
      var b, removed := RemoveYoungerExceeding(buckets[n]);
      ThinNext(grid, now, all, n, Elems(keep), Elems(remove), Elems(removed));
      ElemsConcat(remove, removed);
      ElemsConcat(keep, b.entries);
      remove := remove + removed;
      keep := keep + b.entries;
    }
  }

  /** The removals are those the grid asks for. The keep list holds every entry that is in a bucket, removed or not. */
  method FitEntriesWithNow(grid: seq<Interval>, now: int, entries: seq<Entry>) returns (keep: seq<Entry>, remove: seq<Entry>)
    requires ValidGrid(grid) && NoDuplicates(entries)
    ensures NoDuplicates(remove) && Fitted(grid, now, Elems(entries), Elems(remove))
    ensures forall e :: e in Elems(entries) && !PlaceOf(grid, now, e).TooOld? ==> e in Elems(keep)
  {
    var buckets := MakeBuckets(grid, now);
    buckets, keep, remove := Assign(grid, now, buckets, entries);
    keep, remove := Thin(grid, now, Elems(entries), buckets, keep, remove);
    ThinnedAll(grid, now, Elems(entries), Elems(keep), Elems(remove));
  }

  predicate NonNegative(grid: seq<Interval>) {
    forall k :: 0 <= k < |grid| ==> grid[k].length >= 0
  }

  predicate HasExtent(grid: seq<Interval>) {
    exists k :: 0 <= k < |grid| && grid[k].length > 0
  }

  /** A bucket with an entry keeps one. */
  lemma BucketKeepsOne(grid: seq<Interval>, now: int, e: Entry, all: set<Entry>, remove: set<Entry>)
    requires ValidGrid(grid) && e in all && PlaceOf(grid, now, e).InGrid? && Fitted(grid, now, all, remove)
    ensures exists k :: k in all && k !in remove
  {
    var p := PlaceOf(grid, now, e);
    var members := Members(grid, now, all, p);
    assert e in members;
    assert Thinned(members, grid[p.bucket].keepCount, members * remove);
    assert members <= remove ==> members - members * remove == {};
  }

  lemma ExtentReaches(grid: seq<Interval>, now: int)
    requires NonNegative(grid)
    ensures HasExtent(grid) <==> Edge(grid, now, |grid|) < now
  {
    if HasExtent(grid) {
      var k :| 0 <= k < |grid| && grid[k].length > 0;
      EdgesDescend(grid, now, 0, k);
      EdgesDescend(grid, now, k + 1, |grid|);
    } else {
      FlatEdge(grid, now, |grid|);
    }
  }

  lemma {:induction false} FlatEdge(grid: seq<Interval>, now: int, n: nat)
    requires n <= |grid| && forall k :: 0 <= k < n ==> grid[k].length == 0
    ensures Edge(grid, now, n) == now
  {
    if n > 0 {
      FlatEdge(grid, now, n - 1);
    }
  }

  /** Something survives if and only if some bucket has an extent: then `now`, which is the date of the youngest
      entry, is in a bucket, and otherwise no date is. */
  lemma SurvivalExact(grid: seq<Interval>, e: Entry, all: set<Entry>, remove: set<Entry>)
    requires ValidGrid(grid) && NonNegative(grid) && Fitted(grid, e.date, all, remove)
    requires e in all && forall x :: x in all ==> x.date <= e.date
    ensures HasExtent(grid) <==> exists k :: k in all && k !in remove
  {
    ExtentReaches(grid, e.date);
    BucketsTile(grid, e.date, e.date);
    if HasExtent(grid) {
      BucketKeepsOne(grid, e.date, e, all, remove);
    } else {
      forall x | x in all ensures x in remove {
        BucketsTile(grid, e.date, x.date);
        assert x in Members(grid, e.date, all, TooOld);
      }
    }
  }

  /** A grid without extent keeps nothing that is not from the future. */
  lemma EmptyGridRemovesAll(grid: seq<Interval>, now: int, e: Entry)
    requires (forall i :: 0 <= i < |grid| ==> grid[i].length == 0) && e.date <= now
    ensures PlaceOf(grid, now, e) == TooOld
  {
    assert forall i :: 0 <= i < |grid| ==> !InBucket(grid, now, i, e.date);
  }

  /** Whatever the signs, a first bucket with extent holds the youngest entry. */
  lemma YoungestBucketKeepsOne(grid: seq<Interval>, e: Entry, all: set<Entry>, remove: set<Entry>)
    requires ValidGrid(grid) && grid[0].length > 0 && e in all && Fitted(grid, e.date, all, remove)
    ensures exists k :: k in all && k !in remove
  {
    assert Edge(grid, e.date, 1) == e.date - grid[0].length;
    BucketKeepsOne(grid, e.date, e, all, remove);
  }

  /** Fits the entries, with the youngest as now. The argument is sorted in place, which is its third result. */
  method FitEntries(grid: seq<Interval>, entries: seq<Entry>) returns (keep: seq<Entry>, remove: seq<Entry>, sorted: seq<Entry>)
    requires ValidGrid(grid) && NoDuplicates(entries)
    ensures multiset(sorted) == multiset(entries) && YoungestFirst(sorted)
    ensures entries == [] ==> remove == []
    ensures entries != [] ==> NoDuplicates(remove) && Fitted(grid, sorted[0].date, Elems(entries), Elems(remove))
    ensures entries != [] && grid[0].length > 0 ==> Survivor(entries, remove)
    ensures entries != [] && NonNegative(grid) ==> (Survivor(entries, remove) <==> HasExtent(grid))
  {
    if |entries| == 0 {
      return [], [], entries;
    }
    sorted := SortYoungestFirst(entries);
    assert |sorted| > 0 && sorted[0] in Elems(sorted);
    keep, remove := FitEntriesWithNow(grid, sorted[0].date, sorted);
    Survivors(entries, remove);
    if grid[0].length > 0 {
      YoungestBucketKeepsOne(grid, sorted[0], Elems(entries), Elems(remove));
    }
    if NonNegative(grid) {
      assert forall x :: x in Elems(sorted) ==> x.date <= sorted[0].date;
      SurvivalExact(grid, sorted[0], Elems(entries), Elems(remove));
    }
  }

  predicate Survivor(entries: seq<Entry>, remove: seq<Entry>) {
    exists e :: e in entries && e !in remove
  }

  lemma Survivors(entries: seq<Entry>, remove: seq<Entry>)
    ensures Survivor(entries, remove) <==> exists e :: e in Elems(entries) && e !in Elems(remove)
  {
    if Survivor(entries, remove) {
      var e :| e in entries && e !in remove;
      assert e in Elems(entries) && e !in Elems(remove);
    }
  }
}
