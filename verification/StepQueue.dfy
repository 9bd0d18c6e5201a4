/** The bounded priority queue that admits planning and replication steps. */
module StepQueue {
  datatype Request = Request(ident: nat, date: int)

  /** What the queue means: the waiting requests, by ident, and how many callers run. */
  datatype Queue = Queue(pending: map<nat, int>, active: nat)

  predicate Enqueues(q: Queue, r: Request, q': Queue) {
    r.ident !in q.pending && q' == q.(pending := q.pending[r.ident := r.date])
  }

  predicate MayGrant(q: Queue, concurrency: nat) {
    q.active < concurrency && q.pending != map[]
  }

  predicate Grants(q: Queue, concurrency: nat, r: Request, q': Queue) {
    && MayGrant(q, concurrency)
    && r.ident in q.pending && q.pending[r.ident] == r.date
    && (forall i :: i in q.pending ==> r.date <= q.pending[i])
    && q' == Queue(q.pending - {r.ident}, q.active + 1)
  }

  predicate Completes(q: Queue, q': Queue) {
    q.active > 0 && q' == q.(active := q.active - 1)
  }

  // The binary heap under the queue.

  function Parent(k: nat): (r: nat)
    requires k > 0
  {
    (k - 1) / 2
  }

  predicate Less(h: seq<Request>, i: nat, j: nat)
    requires i < |h| && j < |h|
  {
    h[i].date < h[j].date
  }

  predicate OrderedAt(h: seq<Request>, k: nat)
    requires k < |h|
  {
    k > 0 ==> h[Parent(k)].date <= h[k].date
  }

  predicate HeapOrdered(h: seq<Request>, n: nat)
    requires n <= |h|
  {
    forall k :: 0 <= k < n ==> OrderedAt(h, k)
  }

  /** A child of `j` is not before the parent of `j`. */
  predicate SkipsOver(h: seq<Request>, j: nat, k: nat)
    requires k < |h| && j < |h|
  {
    k > 0 && j > 0 && Parent(k) == j ==> h[Parent(j)].date <= h[k].date
  }

  /** Heap order of the first `n` that may be broken between `j` and its parent. */
  predicate OrderedButUp(h: seq<Request>, j: nat, n: nat)
    requires j < n <= |h|
  {
    forall k :: 0 <= k < n ==> (k != j ==> OrderedAt(h, k)) && SkipsOver(h, j, k)
  }

  /** Heap order of the first `n` that may be broken between `i` and its children. */
  predicate OrderedButDown(h: seq<Request>, i: nat, n: nat)
    requires i < |h| && n <= |h|
  {
    forall k :: 0 <= k < n ==> ((k > 0 && Parent(k) == i) || OrderedAt(h, k)) && SkipsOver(h, i, k)
  }

  function Swap(h: seq<Request>, i: nat, j: nat): (r: seq<Request>)
    requires i < |h| && j < |h|
    ensures |r| == |h| && r[i] == h[j] && r[j] == h[i]
    ensures forall k :: 0 <= k < |h| && k != i && k != j ==> r[k] == h[k]
    ensures multiset(r) == multiset(h)
  {
    h[i := h[j]][j := h[i]]
  }

  lemma UpStep(h: seq<Request>, j: nat)
    requires 0 < j < |h| && OrderedButUp(h, j, |h|) && Less(h, j, Parent(j))
    ensures OrderedButUp(Swap(h, Parent(j), j), Parent(j), |h|)
  {
    var i := Parent(j);
    var r := Swap(h, i, j);
    forall k | 0 <= k < |h| ensures (k != i ==> OrderedAt(r, k)) && SkipsOver(r, i, k) {
      assert SkipsOver(h, j, k) && (k != j ==> OrderedAt(h, k)) && OrderedAt(h, i);
    }
  }

  lemma DownStep(h: seq<Request>, i: nat, j: nat, n: nat)
    requires n <= |h| && i < n && OrderedButDown(h, i, n)
    requires j < n && (j == 2 * i + 1 || j == 2 * i + 2) && Less(h, j, i)
    requires forall k :: 0 < k < n && Parent(k) == i ==> !Less(h, k, j)
    ensures OrderedButDown(Swap(h, i, j), j, n)
  {
    var r := Swap(h, i, j);
    forall k | 0 <= k < n ensures ((k > 0 && Parent(k) == j) || OrderedAt(r, k)) && SkipsOver(r, j, k) {
      assert SkipsOver(h, i, k) && SkipsOver(h, i, j) && ((k > 0 && Parent(k) == i) || OrderedAt(h, k));
      assert k > 0 && Parent(k) == i ==> !Less(h, k, j);
    }
  }

  lemma DownStops(h: seq<Request>, i: nat, n: nat)
    requires n <= |h| && i < |h| && OrderedButDown(h, i, n)
    requires forall k :: 0 < k < n && Parent(k) == i ==> !Less(h, k, i)
    ensures HeapOrdered(h, n)
  {
    forall k | 0 <= k < n ensures OrderedAt(h, k) {
      assert k > 0 && Parent(k) == i ==> !Less(h, k, i);
    }
  }

  lemma UpStops(h: seq<Request>, j: nat)
    requires j < |h| && OrderedButUp(h, j, |h|) && (j == 0 || !Less(h, j, Parent(j)))
    ensures HeapOrdered(h, |h|)
  {
    forall k | 0 <= k < |h| ensures OrderedAt(h, k) {
      assert k != j ==> OrderedAt(h, k);
    }
  }

  lemma AppendedBelow(h: seq<Request>, r: Request)
    requires HeapOrdered(h, |h|)
    ensures OrderedButUp(h + [r], |h|, |h| + 1)
  {
    forall k | 0 <= k < |h| + 1 ensures (k != |h| ==> OrderedAt(h + [r], k)) && SkipsOver(h + [r], |h|, k) {
      assert k < |h| ==> OrderedAt(h, k);
    }
  }

  lemma SwappedRoot(h: seq<Request>, n: nat)
    requires n + 1 == |h| && HeapOrdered(h, |h|)
    ensures OrderedButDown(Swap(h, 0, n), 0, n)
  {
    var r := Swap(h, 0, n);
    forall k | 0 <= k < n ensures ((k > 0 && Parent(k) == 0) || OrderedAt(r, k)) && SkipsOver(r, 0, k) {
      assert OrderedAt(h, k);
    }
  }

  lemma TakenOrdered(h: seq<Request>, n: nat)
    requires n <= |h| && HeapOrdered(h, n)
    ensures HeapOrdered(h[..n], n)
  {
    forall k | 0 <= k < n ensures OrderedAt(h[..n], k) {
      assert OrderedAt(h, k);
    }
  }

  /** The child of `i` with the earlier date. */
  method SmallerChild(h: seq<Request>, i: nat, n: nat) returns (j: nat)
    requires 2 * i + 1 < n <= |h|
    ensures j < n && (j == 2 * i + 1 || j == 2 * i + 2)
    ensures forall k :: 0 < k < n && Parent(k) == i ==> !Less(h, k, j)
  {
    j := 2 * i + 1;
    if j + 1 < n && Less(h, j + 1, j) {
      j := j + 1;
    }
  }

  lemma {:induction false} RootIsMinimal(h: seq<Request>, n: nat, k: nat)
    requires n <= |h| && HeapOrdered(h, n) && k < n
    ensures h[0].date <= h[k].date
  {
    if k > 0 {
      assert OrderedAt(h, k);
      RootIsMinimal(h, n, Parent(k));
    }
  }

  ghost predicate Distinct(h: seq<Request>) {
    forall i, j :: 0 <= i < j < |h| ==> h[i].ident != h[j].ident
  }

  function Pending(h: seq<Request>): (r: map<nat, int>)
  {
    if h == [] then map[] else Pending(h[..|h| - 1])[h[|h| - 1].ident := h[|h| - 1].date]
  }

  lemma {:induction false} PendingIs(h: seq<Request>)
    requires Distinct(h)
    ensures forall i :: i in Pending(h) <==> exists k :: 0 <= k < |h| && h[k].ident == i
    ensures forall k :: 0 <= k < |h| ==> h[k].ident in Pending(h) && Pending(h)[h[k].ident] == h[k].date
  {
    if h != [] {
      PendingIs(h[..|h| - 1]);
      forall i | i in Pending(h) ensures exists k :: 0 <= k < |h| && h[k].ident == i {
        if i == h[|h| - 1].ident {
        } else {
          var k :| 0 <= k < |h| - 1 && h[..|h| - 1][k].ident == i;
          assert h[k].ident == i;
        }
      }
    }
  }

  lemma InMultiset(h: seq<Request>, r: Request)
    ensures r in multiset(h) <==> exists k :: 0 <= k < |h| && h[k] == r
  {
    assert r in multiset(h) <==> r in h;
  }

  lemma {:induction false} CountAtLeastTwo(h: seq<Request>, i: nat, j: nat)
    requires i < j < |h| && h[i] == h[j]
    ensures multiset(h)[h[i]] >= 2
  {
    assert h == h[..j] + [h[j]] + h[j + 1..];
    assert h[i] in h[..j];
  }

  lemma {:induction false} CountUnique(h: seq<Request>, i: nat)
    requires Distinct(h) && i < |h|
    ensures multiset(h)[h[i]] == 1
  {
    var a, b := h[..i], h[i + 1..];
    assert h == a + [h[i]] + b;
    assert h[i] !in a && h[i] !in b by {
      assert forall k :: 0 <= k < |a| ==> a[k] == h[k];
      assert forall k :: 0 <= k < |b| ==> b[k] == h[i + 1 + k];
    }
    assert multiset(h) == multiset(a) + multiset{h[i]} + multiset(b);
  }

  /** A permutation of a heap of distinct idents means the same. */
  lemma PermutedPending(h: seq<Request>, h': seq<Request>)
    requires Distinct(h) && multiset(h) == multiset(h')
    ensures Distinct(h') && Pending(h') == Pending(h)
  {
    forall i, j | 0 <= i < j < |h'| ensures h'[i].ident != h'[j].ident {
      InMultiset(h', h'[i]);
      InMultiset(h', h'[j]);
      InMultiset(h, h'[i]);
      InMultiset(h, h'[j]);
      if h'[i] == h'[j] {
        CountAtLeastTwo(h', i, j);
        var k :| 0 <= k < |h| && h[k] == h'[i];
        CountUnique(h, k);
      }
    }
    PendingIs(h);
    PendingIs(h');
    SamePending(h, h');
    SamePending(h', h);
  }

  lemma SamePending(h: seq<Request>, h': seq<Request>)
    requires Distinct(h) && Distinct(h') && multiset(h) == multiset(h')
    ensures forall i :: i in Pending(h) ==> i in Pending(h') && Pending(h')[i] == Pending(h)[i]
  {
    PendingIs(h);
    PendingIs(h');
    forall i | i in Pending(h) ensures i in Pending(h') && Pending(h')[i] == Pending(h)[i] {
      var k :| 0 <= k < |h| && h[k].ident == i;
      InMultiset(h, h[k]);
      InMultiset(h', h[k]);
    }
  }

  lemma AppendedPending(h: seq<Request>, r: Request, h': seq<Request>)
    requires Distinct(h) && r.ident !in Pending(h) && multiset(h') == multiset(h + [r])
    ensures Distinct(h') && Pending(h') == Pending(h)[r.ident := r.date]
  {
    PendingIs(h);
    assert (h + [r])[..|h|] == h;
    PermutedPending(h + [r], h');
  }

  lemma PendingDropLast(h: seq<Request>, n: nat)
    requires Distinct(h) && |h| == n + 1
    ensures Pending(h[..n]) == Pending(h) - {h[n].ident}
  {
    PendingIs(h[..n]);
    assert h[n].ident !in Pending(h[..n]);
  }

  /** The former root at the end of a permuted heap is what `Pop` may return. */
  lemma PoppedRoot(h: seq<Request>, h': seq<Request>, n: nat)
    requires Distinct(h) && HeapOrdered(h, |h|) && |h| == n + 1 == |h'|
    requires multiset(h) == multiset(h') && h'[n] == h[0]
    ensures Distinct(h'[..n]) && Pending(h'[..n]) == Pending(h) - {h[0].ident}
    ensures h[0].ident in Pending(h) && Pending(h)[h[0].ident] == h[0].date
    ensures forall i :: i in Pending(h) ==> h[0].date <= Pending(h)[i]
  {
    PermutedPending(h, h');
    PendingDropLast(h', n);
    PendingIs(h);
    forall i | i in Pending(h) ensures h[0].date <= Pending(h)[i] {
      var k :| 0 <= k < |h| && h[k].ident == i;
      RootIsMinimal(h, |h|, k);
    }
  }

  class StepQueue {
    const concurrency: nat
    var pending: seq<Request>
    var queueItems: map<nat, Request>
    var active: nat

    ghost predicate Valid()
      reads this
    {
      && concurrency >= 1 && active <= concurrency
      && Distinct(pending) && HeapOrdered(pending, |pending|)
      && queueItems.Keys == Pending(pending).Keys
    }

    ghost function Abstract(): (q: Queue)
      reads this
    {
      Queue(Pending(pending), active)
    }

    constructor (concurrency: nat)
      requires concurrency >= 1
      ensures Valid() && Abstract() == Queue(map[], 0) && this.concurrency == concurrency
    {
      this.concurrency := concurrency;
      pending, queueItems, active := [], map[], 0;
    }

    /** Sifts the last element towards the root. */
    method Up()
      requires |pending| > 0 && OrderedButUp(pending, |pending| - 1, |pending|)
      modifies `pending
      ensures HeapOrdered(pending, |pending|) && multiset(pending) == multiset(old(pending))
    {
      var j := |pending| - 1;
      while j > 0 && Less(pending, j, Parent(j))
        invariant 0 <= j < |pending| && OrderedButUp(pending, j, |pending|)
        invariant multiset(pending) == multiset(old(pending))
      {
        UpStep(pending, j);
        pending := Swap(pending, Parent(j), j);
        j := Parent(j);
      }
      UpStops(pending, j);
    }

    /** Sifts the root towards the leaves of the first `n`. */
    method Down(n: nat)
      requires n < |pending| && OrderedButDown(pending, 0, n)
      modifies `pending
      ensures |pending| == old(|pending|) && pending[n..] == old(pending[n..])
      ensures HeapOrdered(pending, n) && multiset(pending) == multiset(old(pending))
    {
      var i := 0;
      while 2 * i + 1 < n
        invariant |pending| == old(|pending|) && pending[n..] == old(pending[n..])
        invariant i < |pending| && OrderedButDown(pending, i, n)
        invariant multiset(pending) == multiset(old(pending))
        decreases n - i
      {
        var j := SmallerChild(pending, i, n);
        if !Less(pending, j, i) {
          DownStops(pending, i, n);
          return;
        }
        DownStep(pending, i, j, n);
        pending := Swap(pending, i, j);
        i := j;
      }
      DownStops(pending, i, n);
    }

    /** The request goroutine: a second request of a waiting ident panics. */
    method Enqueue(r: Request) returns (panicked: bool)
      requires Valid()
      modifies this
      ensures Valid()
      ensures panicked <==> r.ident in old(Abstract()).pending
      ensures panicked ==> Abstract() == old(Abstract())
      ensures !panicked ==> Enqueues(old(Abstract()), r, Abstract())
    {
      if r.ident in queueItems {
        return true;
      }
      queueItems := queueItems[r.ident := r];
      AppendedBelow(pending, r);
      pending := pending + [r];
      Up();
      AppendedPending(old(pending), r, pending);
      return false;
    }

    /** Takes a minimal request off the heap. */
    method Pop() returns (next: Request)
      requires pending != [] && Distinct(pending) && HeapOrdered(pending, |pending|)
      modifies `pending
      ensures Distinct(pending) && HeapOrdered(pending, |pending|)
      ensures next.ident in old(Pending(pending)) && old(Pending(pending))[next.ident] == next.date
      ensures forall i :: i in old(Pending(pending)) ==> next.date <= old(Pending(pending))[i]
      ensures Pending(pending) == old(Pending(pending)) - {next.ident}
    {
      var n := |pending| - 1;
      SwappedRoot(pending, n);
      pending := Swap(pending, 0, n);
      ghost var swapped := pending;
      Down(n);
      next := pending[n];
      assert next == pending[n..][0] == swapped[n..][0] == swapped[n];
      PoppedRoot(old(pending), pending, n);
      TakenOrdered(pending, n);
      pending := pending[..n];
    }

    /** One round of the wake goroutine: grants a slot if one is free and somebody waits. */
    method Wake() returns (granted: bool, next: Request)
      requires Valid()
      modifies this
      ensures Valid()
      ensures granted <==> MayGrant(old(Abstract()), concurrency)
      ensures granted ==> Grants(old(Abstract()), concurrency, next, Abstract())
      ensures !granted ==> Abstract() == old(Abstract())
    {
      next := Request(0, 0);
      if active >= concurrency || |pending| == 0 {
        return false, next;
      }
      active := active + 1;
      PendingIs(pending);
      next := Pop();
      queueItems := queueItems - {next.ident};
      granted := true;
    }

    /** The completion function handed to a granted caller. */
    method Completed()
      requires Valid() && active > 0
      modifies `active
      ensures Valid() && Completes(old(Abstract()), Abstract())
    {
      active := active - 1;
    }
  }

  // Runs of the queue.

  datatype Event = Enqueue(req: Request) | Grant(req: Request) | Complete(req: Request)

  predicate Moves(q: Queue, concurrency: nat, e: Event, q': Queue) {
    match e
    case Enqueue(r) => Enqueues(q, r, q')
    case Grant(r) => Grants(q, concurrency, r, q')
    case Complete(_) => Completes(q, q')
  }

  function Requested(es: seq<Event>): (r: multiset<Request>) {
    if es == [] then multiset{}
    else if es[|es| - 1].Enqueue? then Requested(es[..|es| - 1]) + multiset{es[|es| - 1].req}
    else Requested(es[..|es| - 1])
  }

  function Granted(es: seq<Event>): (r: multiset<Request>) {
    if es == [] then multiset{}
    else if es[|es| - 1].Grant? then Granted(es[..|es| - 1]) + multiset{es[|es| - 1].req}
    else Granted(es[..|es| - 1])
  }

  function Completed(es: seq<Event>): (r: multiset<Request>) {
    if es == [] then multiset{}
    else if es[|es| - 1].Complete? then Completed(es[..|es| - 1]) + multiset{es[|es| - 1].req}
    else Completed(es[..|es| - 1])
  }

  function Waiting(pending: map<nat, int>): (r: set<Request>) {
    set i | i in pending :: Request(i, pending[i])
  }

  /** A run from the empty queue in which a caller completes only what it was granted. */
  ghost predicate Run(qs: seq<Queue>, es: seq<Event>, concurrency: nat) {
    && |qs| == |es| + 1 && qs[0] == Queue(map[], 0)
    && (forall k :: 0 <= k < |es| ==> Moves(qs[k], concurrency, es[k], qs[k + 1]))
    && (forall k :: 0 <= k < |es| && es[k].Complete? ==> es[k].req in Granted(es[..k]) - Completed(es[..k]))
  }

  lemma RunPrefix(qs: seq<Queue>, es: seq<Event>, concurrency: nat)
    requires Run(qs, es, concurrency) && es != []
    ensures Run(qs[..|es|], es[..|es| - 1], concurrency)
    ensures Moves(qs[|es| - 1], concurrency, es[|es| - 1], qs[|es|])
    ensures var (past, e) := (es[..|es| - 1], es[|es| - 1]);
            e.Complete? ==> e.req in Granted(past) - Completed(past)
  {
    var es0 := es[..|es| - 1];
    forall k | 0 <= k < |es0| && es0[k].Complete? ensures es0[k].req in Granted(es0[..k]) - Completed(es0[..k]) {
      assert es0[..k] == es[..k];
    }
  }

  lemma WaitingPlus(pending: map<nat, int>, r: Request)
    requires r.ident !in pending
    ensures multiset(Waiting(pending[r.ident := r.date])) == multiset(Waiting(pending)) + multiset{r}
  {
    var after := pending[r.ident := r.date];
    forall x ensures x in Waiting(after) <==> x in Waiting(pending) + {r} {
      if x in Waiting(after) {
        assert x.ident in after && after[x.ident] == x.date;
      }
      if x in Waiting(pending) {
        assert x.ident in pending && after[x.ident] == x.date;
      }
      assert r == Request(r.ident, after[r.ident]);
    }
    assert Waiting(after) == Waiting(pending) + {r};
  }

  predicate Balanced(requested: multiset<Request>, granted: multiset<Request>, completed: multiset<Request>,
                     q: Queue, concurrency: nat) {
    && requested == granted + multiset(Waiting(q.pending))
    && completed <= granted
    && q.active == |granted - completed| <= concurrency
  }

  lemma BalancedEnqueue(requested: multiset<Request>, granted: multiset<Request>, completed: multiset<Request>,
                        q: Queue, concurrency: nat, r: Request, q': Queue)
    requires Balanced(requested, granted, completed, q, concurrency) && Enqueues(q, r, q')
    ensures Balanced(requested + multiset{r}, granted, completed, q', concurrency)
  {
    WaitingPlus(q.pending, r);
  }

  lemma BalancedGrant(requested: multiset<Request>, granted: multiset<Request>, completed: multiset<Request>,
                      q: Queue, concurrency: nat, r: Request, q': Queue)
    requires Balanced(requested, granted, completed, q, concurrency) && Grants(q, concurrency, r, q')
    ensures Balanced(requested, granted + multiset{r}, completed, q', concurrency)
  {
    WaitingPlus(q'.pending, r);
    assert q'.pending[r.ident := r.date] == q.pending;
    assert (granted + multiset{r}) - completed == (granted - completed) + multiset{r};
  }

  lemma BalancedComplete(requested: multiset<Request>, granted: multiset<Request>, completed: multiset<Request>,
                         q: Queue, concurrency: nat, r: Request, q': Queue)
    requires Balanced(requested, granted, completed, q, concurrency) && Completes(q, q') && r in granted - completed
    ensures Balanced(requested, granted, completed + multiset{r}, q', concurrency)
  {
    assert granted - (completed + multiset{r}) == (granted - completed) - multiset{r};
  }

  ghost predicate Conserved(es: seq<Event>, q: Queue, concurrency: nat) {
    Balanced(Requested(es), Granted(es), Completed(es), q, concurrency)
  }

  lemma Tallies(es: seq<Event>, e: Event)
    ensures Requested(es + [e]) == if e.Enqueue? then Requested(es) + multiset{e.req} else Requested(es)
    ensures Granted(es + [e]) == if e.Grant? then Granted(es) + multiset{e.req} else Granted(es)
    ensures Completed(es + [e]) == if e.Complete? then Completed(es) + multiset{e.req} else Completed(es)
  {
    assert (es + [e])[..|es|] == es;
  }

  lemma ConservedStep(es: seq<Event>, e: Event, q: Queue, q': Queue, concurrency: nat)
    requires Conserved(es, q, concurrency) && Moves(q, concurrency, e, q')
    requires e.Complete? ==> e.req in Granted(es) - Completed(es)
    ensures Conserved(es + [e], q', concurrency)
  {
    Tallies(es, e);
    match e
    case Enqueue(r) => BalancedEnqueue(Requested(es), Granted(es), Completed(es), q, concurrency, r, q');
    case Grant(r) => BalancedGrant(Requested(es), Granted(es), Completed(es), q, concurrency, r, q');
    case Complete(r) => BalancedComplete(Requested(es), Granted(es), Completed(es), q, concurrency, r, q');
  }

  /** Every request is granted exactly once or still waits, and active counts the granted callers that did not
      complete; it never exceeds the concurrency. */
  lemma {:induction false} RequestsConserved(qs: seq<Queue>, es: seq<Event>, concurrency: nat)
    requires Run(qs, es, concurrency)
    ensures Conserved(es, qs[|es|], concurrency)
  {
    if es != [] {
      var n := |es| - 1;
      RunPrefix(qs, es, concurrency);
      RequestsConserved(qs[..|es|], es[..n], concurrency);
      ConservedStep(es[..n], es[n], qs[n], qs[n + 1], concurrency);
      assert es[..n] + [es[n]] == es;
    }
  }
}
