/** The in-memory cache of endpoint abstractions: what one critical section does to it, and that under every
    interleaving it covers the abstractions on disk. */
module Cache {
  import opened Versions
  import opened Names
  import opened Abstractions

  datatype LoadState = No | InProgress | Done

  predicate Keep(live: seq<Option<Abstraction>>, a: Abstraction) {
    exists k :: k in live && Equals(Some(a), k)
  }

  /** What one cleanup asks for: this job's abstractions of the given types on `fs` that are not to be kept. */
  datatype Query = Query(job: string, fs: string, types: set<AbsType>, live: seq<Option<Abstraction>>)
  {
    predicate Selects(a: Abstraction) {
      a.job == Some(job) && a.fs == fs && a.typ in types && !Keep(live, a)
    }
  }

  function Obsolete(abs: seq<Abstraction>, q: Query): (r: seq<Abstraction>) {
    if abs == [] then [] else (if q.Selects(abs[0]) then [abs[0]] else []) + Obsolete(abs[1..], q)
  }

  function Remaining(abs: seq<Abstraction>, q: Query): (r: seq<Abstraction>) {
    if abs == [] then [] else (if q.Selects(abs[0]) then [] else [abs[0]]) + Remaining(abs[1..], q)
  }

  function OtherFS(abs: seq<Abstraction>, fs: string): (r: seq<Abstraction>) {
    if abs == [] then [] else (if abs[0].fs != fs then [abs[0]] else []) + OtherFS(abs[1..], fs)
  }

  /** Nothing is lost or duplicated, and the split is by the query alone. */
  lemma {:induction false} SplitConserves(abs: seq<Abstraction>, q: Query)
    ensures multiset(Obsolete(abs, q)) + multiset(Remaining(abs, q)) == multiset(abs)
    ensures forall a :: a in Obsolete(abs, q) <==> a in abs && q.Selects(a)
    ensures forall a :: a in Remaining(abs, q) <==> a in abs && !q.Selects(a)
  {
    if abs != [] {
      assert abs == [abs[0]] + abs[1..];
      SplitConserves(abs[1..], q);
    }
  }

  lemma {:induction false} SplitConcat(a: seq<Abstraction>, b: seq<Abstraction>, q: Query)
    ensures Obsolete(a + b, q) == Obsolete(a, q) + Obsolete(b, q)
    ensures Remaining(a + b, q) == Remaining(a, q) + Remaining(b, q)
  {
    if a == [] {
      assert a + b == b;
    } else {
      assert (a + b)[1..] == a[1..] + b;
      SplitConcat(a[1..], b, q);
    }
  }

  lemma {:induction false} OtherFSMembers(abs: seq<Abstraction>, fs: string)
    ensures forall a :: a in OtherFS(abs, fs) <==> a in abs && a.fs != fs
  {
    if abs != [] {
      assert abs == [abs[0]] + abs[1..];
      OtherFSMembers(abs[1..], fs);
    }
  }

  lemma {:induction false} OtherFSConcat(a: seq<Abstraction>, b: seq<Abstraction>, fs: string)
    ensures OtherFS(a + b, fs) == OtherFS(a, fs) + OtherFS(b, fs)
  {
    if a == [] {
      assert a + b == b;
    } else {
      assert (a + b)[1..] == a[1..] + b;
      OtherFSConcat(a[1..], b, fs);
    }
  }

  // ----- The critical sections -----

  /** The contents of the cache at one moment. */
  datatype View = View(abstractions: seq<Abstraction>, load: map<string, LoadState>)
  {
    function State(fs: string): (s: LoadState) {
      if fs in load then load[fs] else No
    }
  }

  /** What a caller that waits for a load in progress finds in the end; `wakeups` are the contents at its wake-ups. */
  function Awaited(now: View, fs: string, wakeups: seq<View>): (v: View)
    ensures !now.State(fs).InProgress? ==> v == now
    ensures v == now || v in wakeups
    ensures v.State(fs).InProgress? ==> now.State(fs).InProgress? && forall w :: w in wakeups ==> w.State(fs).InProgress?
    decreases |wakeups|
  {
    if !now.State(fs).InProgress? || wakeups == [] then now else Awaited(wakeups[0], fs, wakeups[1..])
  }

  class AbstractionsCache {
    var abstractions: seq<Abstraction>
    var didLoadFS: map<string, LoadState>

    constructor ()
      ensures abstractions == [] && didLoadFS == map[]
    {
      abstractions, didLoadFS := [], map[];
    }

    function State(fs: string): (s: LoadState)
      reads this
    {
      if fs in didLoadFS then didLoadFS[fs] else No
    }

    function Contents(): (v: View)
      reads this
    {
      View(abstractions, didLoadFS)
    }

    method Put(a: Abstraction)
      requires a.job.Some? && a.job.value != ""
      modifies this`abstractions
      ensures abstractions == old(abstractions) + [a]
    {
      abstractions := abstractions + [a];
    }

    method InvalidateFSCache(fs: string)
      modifies this
      ensures abstractions == OtherFS(old(abstractions), fs)
      ensures didLoadFS == old(didLoadFS)[fs := No]
    {
      var newAbs := [];
      for i := 0 to |abstractions|
        invariant abstractions == old(abstractions) && didLoadFS == old(didLoadFS)
        invariant newAbs == OtherFS(abstractions[..i], fs)
      {
        assert abstractions[..i + 1] == abstractions[..i] + [abstractions[i]];
        OtherFSConcat(abstractions[..i], [abstractions[i]], fs);
        if abstractions[i].fs != fs {
          newAbs := newAbs + [abstractions[i]];
        }
      }
      assert abstractions[..|abstractions|] == abstractions;
      abstractions := newAbs;
      didLoadFS := didLoadFS[fs := No];
    }

    /** Waits while others load `fs`, and says if the last wake-up still found the load in progress. */
    method AwaitLoad(fs: string, wakeups: seq<View>) returns (waiting: bool)
      modifies this
      ensures Contents() == Awaited(old(Contents()), fs, wakeups)
      ensures waiting <==> State(fs).InProgress?
    {
      var i := 0;
      while State(fs).InProgress? && i < |wakeups|
        invariant i <= |wakeups|
        invariant Awaited(Contents(), fs, wakeups[i..]) == Awaited(old(Contents()), fs, wakeups)
      {
        abstractions, didLoadFS := wakeups[i].abstractions, wakeups[i].load;
        assert wakeups[i..][0] == wakeups[i] && wakeups[i..][1..] == wakeups[i + 1..];
        i := i + 1;
      }
      return State(fs).InProgress?;
    }

    /** Loads `fs` from disk unless that was done before, behind any load in progress; `listing` is what the disk returns,
        nothing on error. */
    method TryLoadOnDiskAbstractions(fs: string, wakeups: seq<View>, listing: Option<seq<Abstraction>>) returns (waiting: bool)
      modifies this
      ensures waiting <==> old(Awaited(Contents(), fs, wakeups)).State(fs).InProgress?
      ensures old(Awaited(Contents(), fs, wakeups)).State(fs).No? && listing.Some? ==>
                abstractions == old(Awaited(Contents(), fs, wakeups)).abstractions + listing.value
                && didLoadFS == old(Awaited(Contents(), fs, wakeups)).load[fs := Done]
      ensures old(Awaited(Contents(), fs, wakeups)).State(fs).No? && listing.None? ==>
                abstractions == old(Awaited(Contents(), fs, wakeups)).abstractions
                && didLoadFS == old(Awaited(Contents(), fs, wakeups)).load[fs := No]
      ensures !old(Awaited(Contents(), fs, wakeups)).State(fs).No? ==> Contents() == old(Awaited(Contents(), fs, wakeups))
    {
      waiting := AwaitLoad(fs, wakeups);
      if waiting || State(fs).Done? {
        return;
      }
      didLoadFS := didLoadFS[fs := InProgress];
      if listing.None? {
        didLoadFS := didLoadFS[fs := No];
      } else {
        didLoadFS := didLoadFS[fs := Done];
        abstractions := abstractions + listing.value;
      }
    }

    /** What a cleanup selects from: what it finds once no load is in progress, with what it loads itself. */
    ghost function Loaded(fs: string, wakeups: seq<View>, listing: Option<seq<Abstraction>>): (r: seq<Abstraction>)
      reads this
    {
      var v := Awaited(Contents(), fs, wakeups);
      v.abstractions + if v.State(fs).No? && listing.Some? then listing.value else []
    }

    method GetAndDeleteByJobIDAndFS(q: Query, wakeups: seq<View>, listing: Option<seq<Abstraction>>)
      returns (waiting: bool, ret: seq<Abstraction>)
      requires q.job != "" && q.fs != ""
      modifies this
      ensures waiting <==> old(Awaited(Contents(), q.fs, wakeups)).State(q.fs).InProgress?
      ensures waiting ==> Contents() == old(Awaited(Contents(), q.fs, wakeups)) && ret == []
      ensures !waiting ==> ret == Obsolete(old(Loaded(q.fs, wakeups, listing)), q)
      ensures !waiting ==> abstractions == Remaining(old(Loaded(q.fs, wakeups, listing)), q)
      ensures !waiting ==> (State(q.fs).Done? <==> old(Awaited(Contents(), q.fs, wakeups)).State(q.fs).Done? || listing.Some?)
      ensures !waiting ==> !State(q.fs).InProgress?
      ensures forall fs :: fs != q.fs ==> State(fs) == old(Awaited(Contents(), q.fs, wakeups)).State(fs)
    {
      ret := [];
      waiting := TryLoadOnDiskAbstractions(q.fs, wakeups, listing);
      if waiting {
        return;
      }
      assert abstractions == old(Loaded(q.fs, wakeups, listing));
      ret := TakeSelected(q);
    }

    method TakeSelected(q: Query) returns (ret: seq<Abstraction>)
      modifies this`abstractions
      ensures ret == Obsolete(old(abstractions), q) && abstractions == Remaining(old(abstractions), q)
    {
      var remaining := [];
      ret := [];
      for i := 0 to |abstractions|
        invariant abstractions == old(abstractions)
        invariant ret == Obsolete(abstractions[..i], q) && remaining == Remaining(abstractions[..i], q)
      {
        assert abstractions[..i + 1] == abstractions[..i] + [abstractions[i]];
        SplitConcat(abstractions[..i], [abstractions[i]], q);
        if q.Selects(abstractions[i]) {
          ret := ret + [abstractions[i]];
        } else {
          remaining := remaining + [abstractions[i]];
        }
      }
      assert abstractions[..|abstractions|] == abstractions;
      abstractions := remaining;
    }
  }

  // ----- Every interleaving of critical sections and disk operations -----

  /** A load under way; `listed` is what it has read from the disk, if it has. An invalidation lets another start beside it. */
  datatype Load = Load(fs: string, listed: Option<seq<Abstraction>>)

  /** `pending` was created but not put yet; `destroying` was handed out for destruction and its outcome has not been
      dealt with. */
  datatype World = World(abs: seq<Abstraction>, load: map<string, LoadState>, loads: map<nat, Load>,
                         disk: set<Abstraction>, pending: set<Abstraction>, destroying: set<Abstraction>)
  {
    function State(fs: string): (s: LoadState) {
      if fs in load then load[fs] else No
    }

    predicate HasRead(id: nat) {
      id in loads && loads[id].listed.Some?
    }

    /** What a loaded cache has to know. */
    predicate Due(d: Abstraction) {
      d in disk && d.job.Some? && d !in pending && d !in destroying
    }
  }

  datatype Event =
    | Create(a: Abstraction)
    | PutCreated(a: Abstraction)
    | Invalidate(fs: string)
    | LoadBegin(id: nat, fs: string)
    | LoadRead(id: nat, l: seq<Abstraction>)
    | LoadFail(id: nat)
    | LoadEnd(id: nat)
    | TakeObsolete(q: Query)
    | Destroyed(a: Abstraction)
    | BatchEnd(fs: string, batch: set<Abstraction>, hadErr: bool)

  function Invalidated(w: World, fs: string): (w': World) {
    w.(abs := OtherFS(w.abs, fs), load := w.load[fs := No])
  }

  /** The outcome of a load is stored whatever happened since it began. */
  function LoadEnded(w: World, id: nat): (w': World)
    requires w.HasRead(id)
  {
    w.(load := w.load[w.loads[id].fs := Done], abs := w.abs + w.loads[id].listed.value, loads := w.loads - {id})
  }

  function BatchEnded(w: World, batch: set<Abstraction>): (w': World) {
    w.(destroying := w.destroying - batch)
  }

  ghost predicate Transition(w: World, e: Event, w': World) {
    match e
    case Create(a) =>
      && a.job.Some? && a !in w.destroying
      && w' == w.(disk := w.disk + {a}, pending := w.pending + {a})
    case PutCreated(a) =>
      && a in w.pending
      && w' == w.(abs := w.abs + [a], pending := w.pending - {a})
    case Invalidate(fs) => w' == Invalidated(w, fs)
    case LoadBegin(id, fs) =>
      && w.State(fs).No? && id !in w.loads
      && w' == w.(load := w.load[fs := InProgress], loads := w.loads[id := Load(fs, None)])
    case LoadRead(id, l) =>
      && id in w.loads && w.loads[id].listed.None?
      && (forall d :: d in l <==> d in w.disk && d.fs == w.loads[id].fs && d.job.Some?)
      && w' == w.(loads := w.loads[id := w.loads[id].(listed := Some(l))])
    case LoadFail(id) =>
      && id in w.loads
      && w' == w.(load := w.load[w.loads[id].fs := No], loads := w.loads - {id})
    case LoadEnd(id) => w.HasRead(id) && w' == LoadEnded(w, id)
    case TakeObsolete(q) =>
      && !w.State(q.fs).InProgress?
      && w' == w.(abs := Remaining(w.abs, q), destroying := w.destroying + set a | a in Obsolete(w.abs, q))
    case Destroyed(a) =>
      && a in w.destroying
      && w' == w.(disk := w.disk - {a})
    case BatchEnd(fs, batch, hadErr) =>
      && batch <= w.destroying && (forall a :: a in batch ==> a.fs == fs)
      && (!hadErr ==> batch !! w.disk)
      && w' == if hadErr then Invalidated(BatchEnded(w, batch), fs) else BatchEnded(w, batch)
  }

  /** A cache that counts as loaded knows everything it has to know. */
  ghost predicate Covers(w: World) {
    forall d :: w.Due(d) && w.State(d.fs).Done? ==> d in w.abs
  }

  /** What is not in the cache has been read by load `id`. */
  ghost predicate Reads(w: World, id: nat)
    requires w.HasRead(id)
  {
    forall d :: w.Due(d) && d.fs == w.loads[id].fs ==> d in w.abs || d in w.loads[id].listed.value
  }

  ghost predicate Good(w: World) {
    Covers(w) && forall id :: w.HasRead(id) ==> Reads(w, id)
  }

  ghost predicate CoversAfter(w: World, id: nat) {
    w.HasRead(id) && Covers(LoadEnded(w, id))
  }

  lemma LoadEndCovers(w: World, id: nat)
    requires Covers(w) && w.HasRead(id)
    ensures Reads(w, id) <==> CoversAfter(w, id)
  {
    var w' := LoadEnded(w, id);
    assert forall d :: w'.Due(d) <==> w.Due(d);
    assert forall d :: d in w'.abs <==> d in w.abs || d in w.loads[id].listed.value;
    if Reads(w, id) {
      forall d | w'.Due(d) && w'.State(d.fs).Done? ensures d in w'.abs {}
    }
    if Covers(w') {
      forall d | w.Due(d) && d.fs == w.loads[id].fs ensures d in w.abs || d in w.loads[id].listed.value {
        assert w'.State(d.fs).Done?;
      }
    }
  }

  /** Good is what coverage needs: the cache covers now, and will if any load that has read ends next. */
  lemma GoodExact(w: World)
    ensures Good(w) <==> Covers(w) && forall id :: w.HasRead(id) ==> CoversAfter(w, id)
  {
    if Covers(w) {
      forall id | w.HasRead(id) ensures Reads(w, id) <==> CoversAfter(w, id) {
        LoadEndCovers(w, id);
      }
    }
  }

  /** Good as far as filesystems other than `fs` go. */
  ghost predicate GoodElsewhere(w: World, fs: string) {
    && (forall d :: w.Due(d) && d.fs != fs && w.State(d.fs).Done? ==> d in w.abs)
    && (forall id :: w.HasRead(id) && w.loads[id].fs != fs ==> Reads(w, id))
  }

  /** Invalidating `fs` loses nothing that a load of it has not read. */
  ghost predicate Harmless(w: World, fs: string) {
    forall id, d {:trigger w.HasRead(id), w.Due(d)} ::
      w.HasRead(id) && w.loads[id].fs == fs && w.Due(d) && d.fs == fs ==> d in w.loads[id].listed.value
  }

  ghost predicate Calm(w: World, e: Event) {
    match e
    case Invalidate(fs) => Harmless(w, fs)
    case BatchEnd(fs, batch, hadErr) => hadErr ==> Harmless(BatchEnded(w, batch), fs)
    case _ => true
  }

  /** An invalidation of any filesystem, at any time and with any number of loads under way, keeps the cache good if and
      only if it is harmless. Of a load that has not read the disk yet there is nothing to lose. */
  lemma OverlapExact(w: World, fs: string)
    requires GoodElsewhere(w, fs)
    ensures Good(Invalidated(w, fs)) <==> Harmless(w, fs)
    ensures (forall id :: w.HasRead(id) ==> w.loads[id].fs != fs) ==> Harmless(w, fs)
  {
    OtherFSMembers(w.abs, fs);
    var w' := Invalidated(w, fs);
    assert forall d :: w'.Due(d) <==> w.Due(d);
    assert forall id :: w'.HasRead(id) <==> w.HasRead(id);
    forall d: Abstraction ensures d in w'.abs <==> d in w.abs && d.fs != fs {}
    if Harmless(w, fs) {
      forall id | w'.HasRead(id) ensures Reads(w', id) {
        assert w.loads[id].fs != fs ==> Reads(w, id);
      }
    }
    if Good(w') {
      forall id, d | w.HasRead(id) && w.loads[id].fs == fs && w.Due(d) && d.fs == fs ensures d in w.loads[id].listed.value {
        assert Reads(w', id) && w'.Due(d);
      }
    }
  }

  ghost predicate Init(w: World) {
    w.abs == [] && w.load == map[] && w.loads == map[] && w.pending == {} && w.destroying == {}
  }

  lemma TakeKeepsGood(w: World, q: Query, w': World)
    requires Good(w) && Transition(w, TakeObsolete(q), w')
    ensures Good(w')
  {
    SplitConserves(w.abs, q);
    forall d | w'.Due(d) ensures w.Due(d) && (d in w.abs ==> d in w'.abs) {}
    forall id | w'.HasRead(id) ensures Reads(w', id) {
      assert Reads(w, id);
    }
  }

  lemma ErrorEnds(w: World, fs: string, batch: set<Abstraction>, w': World)
    requires Good(w) && Transition(w, BatchEnd(fs, batch, true), w')
    ensures Good(w') <==> Harmless(BatchEnded(w, batch), fs)
  {
    var v := BatchEnded(w, batch);
    forall d | v.Due(d) && d.fs != fs ensures w.Due(d) {}
    assert forall id :: v.HasRead(id) <==> w.HasRead(id);
    forall id | v.HasRead(id) && v.loads[id].fs != fs ensures Reads(v, id) {
      assert Reads(w, id);
    }
    OverlapExact(v, fs);
  }

  lemma QuietEnds(w: World, fs: string, batch: set<Abstraction>, w': World)
    requires Good(w) && Transition(w, BatchEnd(fs, batch, false), w')
    ensures Good(w')
  {
    forall d | w'.Due(d) ensures w.Due(d) {}
    forall id | w'.HasRead(id) ensures Reads(w', id) {
      assert Reads(w, id);
    }
  }

  lemma LoadKeepsGood(w: World, e: Event, w': World)
    requires Good(w) && Transition(w, e, w') && (e.LoadBegin? || e.LoadRead? || e.LoadFail? || e.LoadEnd?)
    ensures Good(w')
  {
    assert forall d :: w'.Due(d) <==> w.Due(d);
    if e.LoadEnd? {
      LoadEndCovers(w, e.id);
    }
    forall id | w'.HasRead(id) ensures Reads(w', id) {
      assert id != e.id ==> w.HasRead(id) && Reads(w, id) && w'.loads[id] == w.loads[id];
    }
  }

  lemma DiskKeepsGood(w: World, e: Event, w': World)
    requires Good(w) && Transition(w, e, w') && (e.Create? || e.PutCreated? || e.Destroyed?)
    ensures Good(w')
  {
    forall d | w'.Due(d) ensures w.Due(d) || d in w'.abs {}
    forall id | w'.HasRead(id) ensures Reads(w', id) {
      assert w.HasRead(id) && Reads(w, id);
    }
  }

  /** Every critical section and disk operation keeps the cache good, invalidations exactly if they are harmless. */
  lemma GoodStep(w: World, e: Event, w': World)
    requires Good(w) && Transition(w, e, w')
    ensures Good(w') <==> Calm(w, e)
  {
    match e {
      case Invalidate(fs) => OverlapExact(w, fs);
      case BatchEnd(fs, batch, hadErr) =>
        if hadErr {
          ErrorEnds(w, fs, batch, w');
        } else {
          QuietEnds(w, fs, batch, w');
        }
      case TakeObsolete(q) => TakeKeepsGood(w, q, w');
      case Create(_) => DiskKeepsGood(w, e, w');
      case PutCreated(_) => DiskKeepsGood(w, e, w');
      case Destroyed(_) => DiskKeepsGood(w, e, w');
      case _ => LoadKeepsGood(w, e, w');
    }
  }

  ghost predicate Next(w: World, w': World) {
    exists e :: Transition(w, e, w')
  }

  ghost predicate CalmNext(w: World, w': World) {
    exists e :: Transition(w, e, w') && Calm(w, e)
  }

  ghost predicate MovesAt(calm: bool, trace: seq<World>, i: nat) {
    i + 1 < |trace| && if calm then CalmNext(trace[i], trace[i + 1]) else Next(trace[i], trace[i + 1])
  }

  /** A run; in a calm one all invalidations are harmless. */
  ghost predicate Run(calm: bool, trace: seq<World>) {
    && trace != [] && Init(trace[0])
    && forall i :: 0 <= i < |trace| - 1 ==> MovesAt(calm, trace, i)
  }

  lemma {:induction false} GoodOnRun(trace: seq<World>, i: nat)
    requires Run(true, trace) && i < |trace|
    ensures Good(trace[i])
  {
    if i > 0 {
      GoodOnRun(trace, i - 1);
      assert MovesAt(true, trace, i - 1);
      var e :| Transition(trace[i - 1], e, trace[i]) && Calm(trace[i - 1], e);
      GoodStep(trace[i - 1], e, trace[i]);
    }
  }

  lemma CoversOnRun(trace: seq<World>, i: nat)
    requires Run(true, trace) && i < |trace|
    ensures Covers(trace[i])
  {
    GoodOnRun(trace, i);
  }

  lemma RunNext(calm: bool, trace: seq<World>, e: Event, w: World)
    requires Run(calm, trace) && Transition(trace[|trace| - 1], e, w) && (calm ==> Calm(trace[|trace| - 1], e))
    ensures Run(calm, trace + [w])
  {
    var t := trace + [w];
    forall i | 0 <= i < |t| - 1 ensures MovesAt(calm, t, i) {
      assert i < |trace| - 1 ==> MovesAt(calm, trace, i);
    }
  }

  lemma CalmIsRun(trace: seq<World>)
    requires Run(true, trace)
    ensures Run(false, trace)
  {
    forall i | 0 <= i < |trace| - 1 ensures MovesAt(false, trace, i) {
      assert MovesAt(true, trace, i);
    }
  }

  /** Harm is real: the first invalidation of a run that is not harmless can be followed by the end of a load after which
      the cache counts as loaded and misses something. */
  lemma HarmLosesCover(trace: seq<World>, e: Event, w: World) returns (id: nat)
    requires Run(true, trace) && Transition(trace[|trace| - 1], e, w) && !Calm(trace[|trace| - 1], e)
    ensures w.HasRead(id) && Transition(w, LoadEnd(id), LoadEnded(w, id))
    ensures Run(false, trace + [w] + [LoadEnded(w, id)]) && !Covers(LoadEnded(w, id))
  {
    GoodOnRun(trace, |trace| - 1);
    GoodStep(trace[|trace| - 1], e, w);
    HarmCovers(trace[|trace| - 1], e, w);
    GoodExact(w);
    id :| w.HasRead(id) && !CoversAfter(w, id);
    CalmIsRun(trace);
    RunNext(false, trace, e, w);
    assert (trace + [w])[|trace + [w]| - 1] == w;
    RunNext(false, trace + [w], LoadEnd(id), LoadEnded(w, id));
  }

  /** An invalidation itself always leaves a cache that covers. */
  lemma HarmCovers(w: World, e: Event, w': World)
    requires Good(w) && Transition(w, e, w') && (e.Invalidate? || (e.BatchEnd? && e.hadErr))
    ensures Covers(w')
  {
    OtherFSMembers(w.abs, e.fs);
    forall d | w'.Due(d) && w'.State(d.fs).Done? ensures d in w'.abs {
      assert d.fs != e.fs && w.Due(d) && w.State(d.fs).Done?;
    }
  }

  /** In every state of every calm run whose filesystem is loaded, a cleanup gets every selected abstraction that is on
      disk, unless it is still to be put or already being destroyed; it gets nothing else that it should keep, and
      what it does not get stays in the cache. */
  lemma CleanupGetsAllOnDisk(trace: seq<World>, i: nat, q: Query)
    requires Run(true, trace) && i < |trace| && trace[i].State(q.fs).Done?
    ensures forall d :: d in trace[i].disk && q.Selects(d) && d !in trace[i].pending && d !in trace[i].destroying ==>
              d in Obsolete(trace[i].abs, q)
    ensures forall a :: a in Obsolete(trace[i].abs, q) ==> q.Selects(a)
    ensures multiset(Obsolete(trace[i].abs, q)) + multiset(Remaining(trace[i].abs, q)) == multiset(trace[i].abs)
  {
    CoversOnRun(trace, i);
    SplitConserves(trace[i].abs, q);
    forall d | d in trace[i].disk && q.Selects(d) && d !in trace[i].pending && d !in trace[i].destroying
      ensures d in Obsolete(trace[i].abs, q)
    {
      assert trace[i].Due(d);
    }
  }

  /** Between `i` and `k`, nobody has `d` to destroy. */
  ghost predicate NotHandedOut(trace: seq<World>, i: nat, k: nat, d: Abstraction)
    requires k < |trace|
  {
    forall j :: i < j <= k ==> d !in trace[j].destroying
  }

  lemma {:induction false} StaysOnDisk(calm: bool, trace: seq<World>, i: nat, k: nat, d: Abstraction)
    requires Run(calm, trace) && i <= k < |trace| && d in trace[i].disk && d !in trace[i].destroying
    requires NotHandedOut(trace, i, k, d)
    ensures d in trace[k].disk
  {
    if i < k {
      StaysOnDisk(calm, trace, i, k - 1, d);
      assert MovesAt(calm, trace, k - 1);
      assert Next(trace[k - 1], trace[k]);
      var e :| Transition(trace[k - 1], e, trace[k]);
    }
  }

  /** A failed destroy is seen again: after its batch has ended with an error, whatever happens in between, it is still
      on disk and, in a calm run, every completed load has put it back into the cache, until a cleanup is handed it again. */
  lemma FailedDestroyIsSeenAgain(calm: bool, trace: seq<World>, i: nat, k: nat, batch: set<Abstraction>, d: Abstraction)
    requires Run(calm, trace) && i < k < |trace| && Transition(trace[i], BatchEnd(d.fs, batch, true), trace[i + 1])
    requires d in batch && d in trace[i].disk && d.job.Some? && NotHandedOut(trace, i, k, d)
    ensures trace[i + 1].State(d.fs).No? && d in trace[k].disk
    ensures calm && trace[k].State(d.fs).Done? && d !in trace[k].pending ==> d in trace[k].abs
  {
    StaysOnDisk(calm, trace, i + 1, k, d);
    if calm {
      CoversOnRun(trace, k);
      assert d !in trace[k].pending ==> trace[k].Due(d);
    }
  }

  // ----- Losing cover -----

  /** A load has read an empty disk when an abstraction is created and put. */
  lemma PutDuringLoad(a: Abstraction) returns (trace: seq<World>)
    requires a.job.Some?
    ensures Run(true, trace)
    ensures trace[|trace| - 1] == World([a], map[a.fs := InProgress], map[0 := Load(a.fs, Some([]))], {a}, {}, {})
  {
    var w0 := World([], map[], map[], {}, {}, {});
    var w1 := w0.(load := map[a.fs := InProgress], loads := map[0 := Load(a.fs, None)]);
    var w2 := w1.(loads := map[0 := Load(a.fs, Some([]))]);
    var w3 := w2.(disk := {a}, pending := {a});
    var w4 := w3.(abs := [a], pending := {});
    assert w4.pending == w3.pending - {a};
    RunNext(true, [w0], LoadBegin(0, a.fs), w1);
    RunNext(true, [w0] + [w1], LoadRead(0, []), w2);
    RunNext(true, [w0] + [w1] + [w2], Create(a), w3);
    trace := [w0] + [w1] + [w2] + [w3];
    RunNext(true, trace, PutCreated(a), w4);
    trace := trace + [w4];
  }

  /** A run in which the cache is invalidated while that load is under way. If the load ends now it loses the
      abstraction. */
  lemma OverlappingInvalidationLosesCover(a: Abstraction) returns (trace: seq<World>)
    requires a.job.Some?
    ensures Run(false, trace) && !Covers(trace[|trace| - 1])
  {
    var calm := PutDuringLoad(a);
    var w := calm[|calm| - 1];
    assert w.HasRead(0) && w.Due(a) && !Harmless(w, a.fs);
    var id := HarmLosesCover(calm, Invalidate(a.fs), Invalidated(w, a.fs));
    trace := calm + [Invalidated(w, a.fs)] + [LoadEnded(Invalidated(w, a.fs), id)];
  }

  lemma NothingLeft(a: Abstraction)
    ensures OtherFS([a], a.fs) == []
  {
    assert [a][1..] == [];
  }

  /** Behind the invalidation a second load begins beside the first, and reads the abstraction; the first one still loses
      it if it ends before the second. Once the second has ended, the first does no harm. */
  lemma SecondLoadRaces(a: Abstraction) returns (trace: seq<World>)
    requires a.job.Some?
    ensures Run(false, trace) && trace[|trace| - 1].HasRead(0) && trace[|trace| - 1].HasRead(1)
    ensures !CoversAfter(trace[|trace| - 1], 0)
    ensures CoversAfter(trace[|trace| - 1], 1) && CoversAfter(LoadEnded(trace[|trace| - 1], 1), 0)
  {
    trace := PutDuringLoad(a);
    CalmIsRun(trace);
    var w4 := trace[|trace| - 1];
    var w5 := Invalidated(w4, a.fs);
    NothingLeft(a);
    RunNext(false, trace, Invalidate(a.fs), w5);
    trace := trace + [w5];
    var w6 := w5.(load := w5.load[a.fs := InProgress], loads := w5.loads[1 := Load(a.fs, None)]);
    RunNext(false, trace, LoadBegin(1, a.fs), w6);
    trace := trace + [w6];
    var w7 := w6.(loads := w6.loads[1 := Load(a.fs, Some([a]))]);
    RunNext(false, trace, LoadRead(1, [a]), w7);
    trace := trace + [w7];
    assert w7.Due(a) && LoadEnded(w7, 0).Due(a) && LoadEnded(w7, 0).abs == [];
  }
}
