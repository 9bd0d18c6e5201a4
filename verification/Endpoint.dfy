/** `Send`, `SendCompleted` and the part of `Receive` behind `zfs recv`, on disk state and cache. Each is proved to have
    the effect the protocol allows it, and the safety panics are proved unreachable. */
module Endpoint {
  import opened Collections
  import opened Versions
  import opened Names
  import opened Abstractions
  import opened Cache
  import P = Protocol

  function Abs(typ: AbsType, fs: string, job: string, v: Version): (a: Abstraction) {
    Abstraction(typ, fs, v, Some(job))
  }

  /** The versions this job marks on `fs` with abstractions of one type. */
  function Marked(disk: set<Abstraction>, typ: AbsType, fs: string, job: string): (r: set<Version>) {
    set a | a in disk && a == Abs(typ, fs, job, a.version) :: a.version
  }

  function SenderOf(disk: set<Abstraction>, snaps: set<Version>, foreign: set<Version>, fs: string, job: string): (s: P.Sender) {
    P.Sender(snaps, Marked(disk, StepHold, fs, job), Marked(disk, Tentative, fs, job), Marked(disk, CursorV2, fs, job), foreign)
  }

  lemma MarkedIff(disk: set<Abstraction>, typ: AbsType, fs: string, job: string, v: Version)
    ensures v in Marked(disk, typ, fs, job) <==> Abs(typ, fs, job, v) in disk
  {
    if Abs(typ, fs, job, v) in disk {
      assert Abs(typ, fs, job, v).version == v;
    }
  }

  // ----- Agreement of cache and disk -----

  /** Whatever is found on disk under the path of a known abstraction is that abstraction. */
  ghost predicate Coherent(known: set<Abstraction>, disk: set<Abstraction>) {
    forall c, d {:trigger SamePlace(c, d)} :: c in known && d in disk && SamePlace(c, d) ==> c == d
  }

  /** Cursor bookmarks are named after their guid and job. */
  predicate Canonical(c: Abstraction) {
    && c.Valid() && c.version.guid <= MAX_UINT64
    && (c.typ.Tentative? ==> c.version.name == RawName(TENTATIVE_PREFIX, c.version.guid, c.job.value))
    && (c.typ.CursorV2? ==> c.version.name == RawName(CURSOR_PREFIX, c.version.guid, c.job.value))
    && (c.typ.CursorV1? ==> c.version.name == V1_CURSOR_NAME)
  }

  /** A known abstraction of this filesystem does not contradict snapshot `v`: snapshots are not renamed and their names
      are not reused. */
  predicate Agrees(fs: string, c: Abstraction, v: Version) {
    c.fs == fs ==>
      && (c.version.guid == v.guid ==> c.version.txg == v.txg)
      && (!IsBookmarkType(c.typ) && (c.version.name == v.name || c.version.guid == v.guid) ==> c.version == v)
  }

  ghost predicate SnapsOk(snaps: set<Version>) {
    && (forall v :: v in snaps ==> v.typ.Snapshot? && v.guid <= MAX_UINT64)
    && (forall v, w {:trigger Apart(v, w)} :: v in snaps && w in snaps && v != w ==> Apart(v, w))
  }

  predicate Apart(v: Version, w: Version) {
    v.guid != w.guid && v.name != w.name
  }

  ghost predicate KnownOk(known: set<Abstraction>, disk: set<Abstraction>, snaps: set<Version>, fs: string) {
    && disk <= known && Coherent(known, disk)
    && (forall c {:trigger Canonical(c)} :: c in known ==> Canonical(c))
    && (forall c, v {:trigger Agrees(fs, c, v)} :: c in known && v in snaps ==> Agrees(fs, c, v))
  }

  /** The abstraction that marks snapshot `v`. */
  function MarkOf(typ: AbsType, fs: string, job: string, v: Version): (a: Abstraction) {
    match typ
    case Tentative => Abs(typ, fs, job, P.TentativeOf(job, v))
    case CursorV2 => Abs(typ, fs, job, P.CursorOf(job, v))
    case _ => Abs(typ, fs, job, v)
  }

  lemma MarkIsNew(c: Abstraction, typ: AbsType, fs: string, job: string, v: Version)
    requires Canonical(c) && Agrees(fs, c, v) && v.typ.Snapshot? && v.guid <= MAX_UINT64 && job != "" && !typ.CursorV1?
    ensures var x := MarkOf(typ, fs, job, v); Canonical(x) && (SamePlace(c, x) || SamePlace(x, c) ==> c == x)
  {
    var x := MarkOf(typ, fs, job, v);
    if SamePlace(c, x) || SamePlace(x, c) {
      if IsBookmarkType(typ) {
        var cj := c.JobOrZero();
        PrefixesDiffer(c.version.guid, cj, v.guid, job);
        PrefixesDiffer(v.guid, job, c.version.guid, cj);
        if c.typ == typ {
          RawNameInjective(if typ.Tentative? then TENTATIVE_PREFIX else CURSOR_PREFIX, c.version.guid, cj, v.guid, job);
        }
      }
    }
  }

  /** Marking a snapshot keeps cache and disk in agreement. */
  lemma MarkKeepsKnown(known: set<Abstraction>, disk: set<Abstraction>, snaps: set<Version>, typ: AbsType, fs: string,
                       job: string, v: Version)
    requires KnownOk(known, disk, snaps, fs) && SnapsOk(snaps) && v in snaps && job != "" && !typ.CursorV1?
    ensures var x := MarkOf(typ, fs, job, v); KnownOk(known + {x}, disk + {x}, snaps, fs)
  {
    var x := MarkOf(typ, fs, job, v);
    forall c | c in known ensures Canonical(x) && (SamePlace(c, x) || SamePlace(x, c) ==> c == x) {
      assert Canonical(c) && Agrees(fs, c, v);
      MarkIsNew(c, typ, fs, job, v);
    }
    forall w | w in snaps ensures Agrees(fs, x, w) {
      assert w == v || Apart(v, w);
    }
  }

  // ----- The endpoint -----

  /** What a caller finds wrong with an obsolete abstraction before anything is destroyed. */
  datatype Check = NoCheck | ByPath(paths: set<string>) | ByVersion(version: Version)

  predicate IsProblem(a: Abstraction, check: Check) {
    match check
    case NoCheck => false
    case ByPath(paths) => a.FullPath() in paths && IsBookmarkType(a.typ)
    case ByVersion(v) => EqualIdentity(a.version, v)
  }

  class Disk {
    var abs: set<Abstraction>

    constructor (abs: set<Abstraction>)
      ensures this.abs == abs
    {
      this.abs := abs;
    }

    /** Idempotent: releases the hold or destroys the bookmark under the path of `a`, if there is one. */
    method Destroy(a: Abstraction)
      modifies this
      ensures abs == set d | d in old(abs) && !SamePlace(a, d)
    {
      abs := set d | d in abs && !SamePlace(a, d);
    }

    /** Holds are listed by their tags, bookmarks only where an extractor recognises their names. */
    method List(fs: string) returns (l: seq<Abstraction>)
      requires forall d {:trigger Canonical(d)} :: d in abs ==> Canonical(d)
      ensures forall a :: a in l <==> a in abs && Listed(fs, a)
    {
      l := [];
      var rest := abs;
      while rest != {}
        invariant rest <= abs
        invariant forall a :: a in l <==> a in abs - rest && Listed(fs, a)
        decreases rest
      {
        var a :| a in rest;
        rest := rest - {a};
        if a.fs == fs && !IsBookmarkType(a.typ) {
          l := l + [a];
        } else if a.fs == fs {
          var e := ExtractBookmark([Tentative, CursorV2], fs, a.version);
          assert Canonical(a);
          ExtractCanonical(a, Tentative);
          ExtractCanonical(a, CursorV2);
          if e.Some? {
            l := l + [e.value];
          }
        }
      }
    }
  }

  /** What the disk shows to the code: all holds, and the cursors whose names are read back. */
  predicate Listed(fs: string, a: Abstraction) {
    a.fs == fs && (IsBookmarkType(a.typ) ==> (a.typ.Tentative? || a.typ.CursorV2?) && Extract(a.typ, fs, a.version) == Some(a))
  }

  /** No bookmark is taken for another job's, or for one of another type: it is recognised as what it is, or not at all. */
  lemma ExtractCanonical(d: Abstraction, t: AbsType)
    requires Canonical(d) && IsBookmarkType(d.typ) && (t.Tentative? || t.CursorV2?)
    ensures Extract(t, d.fs, d.version).Some? ==> Extract(t, d.fs, d.version) == Some(d)
  {
    var name := d.version.name;
    var p := LastSep(name, |name|);
    var prefix := if t.Tentative? then TENTATIVE_PREFIX else CURSOR_PREFIX;
    if Extract(t, d.fs, d.version).Some? {
      assert name[..p] == prefix && |name[..p]| == p;
      if d.typ == t {
        RawNameParts(prefix, d.version.guid, d.job.value);
      } else {
        ExtractedStart(d, p);
      }
    }
  }

  lemma ExtractedStart(d: Abstraction, p: nat)
    requires Canonical(d) && SepAt(d.version.name, p) && p <= |d.version.name|
    ensures d.typ.Tentative? ==> d.version.name[..p] != CURSOR_PREFIX
    ensures d.typ.CursorV2? ==> d.version.name[..p] != TENTATIVE_PREFIX
    ensures d.typ.CursorV1? ==> d.version.name[..p] != TENTATIVE_PREFIX
  {
    var name := d.version.name;
    if d.typ.Tentative? {
      RawNameParts(TENTATIVE_PREFIX, d.version.guid, d.job.value);
      assert name[12..15][0] == name[12] == TENTATIVE_PREFIX[12] == 'T';
    } else if d.typ.CursorV2? {
      RawNameParts(CURSOR_PREFIX, d.version.guid, d.job.value);
      assert name[12] == name[12..15][0] == '_';
      assert p == 22 ==> name[12] == name[..p][12];
    } else if d.typ.CursorV1? {
      assert |name| == 24;
    }
  }

  /** Destroys one by one; `failing` are the destroys that fail. */
  method BatchDestroy(disk: Disk, abs: seq<Abstraction>, failing: set<Abstraction>) returns (hadErr: bool)
    requires Coherent(Elems(abs), disk.abs)
    modifies disk
    ensures disk.abs == old(disk.abs) - (Elems(abs) - failing)
    ensures hadErr <==> !(Elems(abs) !! failing)
  {
    hadErr := false;
    for i := 0 to |abs|
      invariant disk.abs == old(disk.abs) - (Elems(abs[..i]) - failing)
      invariant hadErr <==> !(Elems(abs[..i]) !! failing)
    {
      assert abs[i] in Elems(abs) && SamePlace(abs[i], abs[i]);
      ElemsNext(abs, i);
      if abs[i] in failing {
        hadErr := true;
        assert abs[i] in Elems(abs[..i + 1]);
      } else {
        disk.Destroy(abs[i]);
        assert forall d :: d in disk.abs ==> d != abs[i];
      }
    }
    assert abs[..|abs|] == abs;
  }

  /** What the environment does to one cleanup: the cache contents it wakes up to while others load, whether its own
      listing of the disk works, and the destroys that fail. */
  datatype Env = Env(wakeups: seq<View>, loadOk: bool, failing: set<Abstraction>)

  /** The cleanup sees abstraction `a`: in the cache, or in the listing with which it loads. */
  predicate Seen(v: View, disk: set<Abstraction>, fs: string, loadOk: bool, a: Abstraction) {
    a in v.abstractions || (v.State(fs).No? && loadOk && a in disk && Listed(fs, a))
  }

  /** While others load, only what is known gets into the cache. */
  ghost predicate WakeupsOk(wakeups: seq<View>, known: set<Abstraction>) {
    forall w :: w in wakeups ==> Elems(w.abstractions) <= known
  }

  /** Gets the obsolete abstractions, checks them, and destroys those whose destruction does not fail. `waiting` says that
      a load by others never ended. */
  method TryBatchDestroy(cache: AbstractionsCache, disk: Disk, q: Query, check: Check, env: Env)
    returns (waiting: bool, panicked: bool, ghost obsolete: set<Abstraction>)
    requires q.job != "" && q.fs != ""
    requires Coherent(Elems(cache.abstractions) + disk.abs, disk.abs)
    requires WakeupsOk(env.wakeups, Elems(cache.abstractions) + disk.abs)
    requires forall d {:trigger Canonical(d)} :: d in disk.abs ==> Canonical(d)
    modifies cache, disk
    ensures waiting <==> old(Awaited(cache.Contents(), q.fs, env.wakeups)).State(q.fs).InProgress?
    ensures waiting ==> obsolete == {}
    ensures !waiting ==> forall a :: a in obsolete <==>
              q.Selects(a) && Seen(old(Awaited(cache.Contents(), q.fs, env.wakeups)), old(disk.abs), q.fs, env.loadOk, a)
    ensures panicked <==> exists a :: a in obsolete && IsProblem(a, check)
    ensures panicked ==> disk.abs == old(disk.abs)
    ensures !panicked ==> disk.abs == old(disk.abs) - (obsolete - env.failing)
    ensures Elems(cache.abstractions) <= old(Elems(cache.abstractions) + disk.abs)
    ensures obsolete !! env.failing ==>
              forall a :: a in old(Awaited(cache.Contents(), q.fs, env.wakeups)).abstractions && !q.Selects(a) ==> a in cache.abstractions
    ensures !panicked && !(obsolete !! env.failing) ==> cache.State(q.fs).No?
    ensures !waiting ==> !cache.State(q.fs).InProgress?
  {
    panicked, obsolete := false, {};
    var abs;
    waiting, abs := GetObsolete(cache, disk, q, env);
    if waiting {
      return;
    }
    obsolete := Elems(abs);
    panicked := exists a :: a in abs && IsProblem(a, check);
    if panicked {
      return;
    }
    var hadErr := BatchDestroy(disk, abs, env.failing);
    if hadErr {
      OtherFSMembers(cache.abstractions, q.fs);
      cache.InvalidateFSCache(q.fs);
    }
  }

  method GetObsolete(cache: AbstractionsCache, disk: Disk, q: Query, env: Env) returns (waiting: bool, abs: seq<Abstraction>)
    requires q.job != "" && q.fs != "" && WakeupsOk(env.wakeups, Elems(cache.abstractions) + disk.abs)
    requires forall d {:trigger Canonical(d)} :: d in disk.abs ==> Canonical(d)
    modifies cache
    ensures waiting <==> old(Awaited(cache.Contents(), q.fs, env.wakeups)).State(q.fs).InProgress?
    ensures waiting ==> cache.Contents() == old(Awaited(cache.Contents(), q.fs, env.wakeups))
    ensures !waiting ==> forall a :: a in abs <==>
              q.Selects(a) && Seen(old(Awaited(cache.Contents(), q.fs, env.wakeups)), disk.abs, q.fs, env.loadOk, a)
    ensures forall a :: a in old(Awaited(cache.Contents(), q.fs, env.wakeups)).abstractions && !q.Selects(a) ==> a in cache.abstractions
    ensures Elems(cache.abstractions) <= old(Elems(cache.abstractions)) + disk.abs
    ensures !waiting ==> !cache.State(q.fs).InProgress?
  {
    ghost var v := Awaited(cache.Contents(), q.fs, env.wakeups);
    assert Elems(v.abstractions) <= Elems(cache.abstractions) + disk.abs;
    var listing := None;
    if env.loadOk {
      var l := disk.List(q.fs);
      listing := Some(l);
    }
    ghost var loaded := cache.Loaded(q.fs, env.wakeups, listing);
    SplitConserves(loaded, q);
    forall a ensures a in loaded <==> Seen(v, disk.abs, q.fs, env.loadOk, a) {}
    forall a | a in loaded ensures a in old(Elems(cache.abstractions)) + disk.abs {
      assert a in v.abstractions ==> a in Elems(v.abstractions);
    }
    waiting, abs := cache.GetAndDeleteByJobIDAndFS(q, env.wakeups, listing);
  }

  // ----- The sending side -----

  /** Bookmarks that are not the job's own do not have the name of one. */
  ghost predicate ForeignOk(foreign: set<Version>, job: string) {
    && (forall b :: b in foreign ==> b.typ.Bookmark?)
    && forall b, g: nat :: b in foreign && g <= MAX_UINT64 ==>
      b.name != RawName(TENTATIVE_PREFIX, g, job) && b.name != RawName(CURSOR_PREFIX, g, job)
  }

  const SEND_DESTROY_TYPES: set<AbsType> := {StepHold, Tentative}
  const COMPLETED_DESTROY_TYPES: set<AbsType> := {StepHold, Tentative, CursorV2}
  const RECEIVE_DESTROY_TYPES: set<AbsType> := {LastReceivedHold}

  function Created(kind: P.Kind, fs: string, job: string, from: Option<Version>, to: Version): (r: set<Abstraction>) {
    match kind
    case Resumability =>
      {Abs(StepHold, fs, job, to)} + if P.IsSnap(from) then {Abs(StepHold, fs, job, from.value)} else {}
    case Incremental =>
      {MarkOf(Tentative, fs, job, to)} + if P.IsSnap(from) then {MarkOf(Tentative, fs, job, from.value)} else {}
    case NoGuarantee => {}
  }

  lemma MarkedUnion(disk: set<Abstraction>, more: set<Abstraction>, t: AbsType, fs: string, job: string)
    ensures Marked(disk + more, t, fs, job) == Marked(disk, t, fs, job) + Marked(more, t, fs, job)
  {}

  lemma MarkedMonotone(a: set<Abstraction>, b: set<Abstraction>, t: AbsType, fs: string, job: string)
    requires a <= b
    ensures Marked(a, t, fs, job) <= Marked(b, t, fs, job)
  {}

  lemma MarkedPair(typ: AbsType, fs: string, job: string, v: Version, two: bool, w: Version, t: AbsType)
    ensures Marked({Abs(typ, fs, job, v)} + if two then {Abs(typ, fs, job, w)} else {}, t, fs, job)
            == if t == typ then {v} + if two then {w} else {} else {}
  {
    var d := {Abs(typ, fs, job, v)} + if two then {Abs(typ, fs, job, w)} else {};
    forall x ensures x in Marked(d, t, fs, job) <==> t == typ && (x == v || (two && x == w)) {
      MarkedIff(d, t, fs, job, x);
    }
  }

  /** Everything the strategy creates, in protocol terms. */
  lemma CreatedIsPreSend(kind: P.Kind, fs: string, job: string, from: Option<Version>, to: Version, s: P.Sender)
    ensures var c := Created(kind, fs, job, from, to); var p := P.PreSend(kind, job, s, from, to);
            && p.holds == s.holds + Marked(c, StepHold, fs, job)
            && p.tentative == s.tentative + Marked(c, Tentative, fs, job)
            && Marked(c, CursorV2, fs, job) == {}
  {
    var w := if from.Some? then from.value else to;
    match kind {
      case Resumability =>
        MarkedPair(StepHold, fs, job, to, P.IsSnap(from), w, StepHold);
        MarkedPair(StepHold, fs, job, to, P.IsSnap(from), w, Tentative);
        MarkedPair(StepHold, fs, job, to, P.IsSnap(from), w, CursorV2);
      case Incremental =>
        var t, u := P.TentativeOf(job, to), P.TentativeOf(job, w);
        MarkedPair(Tentative, fs, job, t, P.IsSnap(from), u, StepHold);
        MarkedPair(Tentative, fs, job, t, P.IsSnap(from), u, Tentative);
        MarkedPair(Tentative, fs, job, t, P.IsSnap(from), u, CursorV2);
      case NoGuarantee =>
    }
  }

  /** Any part of what the strategy creates is an aborted `Send`. */
  lemma PartIsAbort(kind: P.Kind, fs: string, job: string, from: Option<Version>, to: Version, snaps: set<Version>,
                    foreign: set<Version>, d0: set<Abstraction>, d1: set<Abstraction>)
    requires d0 <= d1 <= d0 + Created(kind, fs, job, from, to)
    ensures P.AbortEffect(kind, job, SenderOf(d0, snaps, foreign, fs, job), from, to, SenderOf(d1, snaps, foreign, fs, job))
  {
    var c, s := Created(kind, fs, job, from, to), SenderOf(d0, snaps, foreign, fs, job);
    CreatedIsPreSend(kind, fs, job, from, to, s);
    EachMarked(d0, d1, c, StepHold, fs, job);
    EachMarked(d0, d1, c, Tentative, fs, job);
    EachMarked(d0, d1, c, CursorV2, fs, job);
  }

  lemma EachMarked(d0: set<Abstraction>, d1: set<Abstraction>, c: set<Abstraction>, t: AbsType, fs: string, job: string)
    requires d0 <= d1 <= d0 + c
    ensures Marked(d0, t, fs, job) <= Marked(d1, t, fs, job) <= Marked(d0, t, fs, job) + Marked(c, t, fs, job)
  {
    MarkedMonotone(d0, d1, t, fs, job);
    MarkedMonotone(d1, d0 + c, t, fs, job);
    MarkedUnion(d0, c, t, fs, job);
  }

  /** What a list of live abstractions protects: the holds and tentative cursors just created. */
  ghost predicate LiveOk(disk: set<Abstraction>, fs: string, job: string, kind: P.Kind, from: Option<Version>, to: Version,
                         live: seq<Option<Abstraction>>) {
    && (forall v :: v in P.LiveHolds(kind, from, to) ==> Some(Abs(StepHold, fs, job, v)) in live)
    && (kind.Incremental? ==> Some(MarkOf(Tentative, fs, job, to)) in live)
    && (kind.Incremental? && from.Some? && MarkOf(Tentative, fs, job, from.value) in disk ==>
          Some(MarkOf(Tentative, fs, job, from.value)) in live)
  }

  /** Exactly what SenderPreSend returns as live on disk `d`: what it creates, and the tentative cursor of a bookmark that
      exists already. */
  function LiveSet(kind: P.Kind, fs: string, job: string, from: Option<Version>, to: Version, d: set<Abstraction>): (r: set<Abstraction>) {
    Created(kind, fs, job, from, to) +
    if kind.Incremental? && from.Some? && from.value.typ.Bookmark? then {MarkOf(Tentative, fs, job, from.value)} * d else {}
  }

  /** What is created for the start of the step, which comes first. */
  function CreatedFrom(kind: P.Kind, fs: string, job: string, from: Option<Version>): (r: set<Abstraction>) {
    if !P.IsSnap(from) then {}
    else
      match kind
      case Resumability => {Abs(StepHold, fs, job, from.value)}
      case Incremental => {MarkOf(Tentative, fs, job, from.value)}
      case NoGuarantee => {}
  }

  ghost predicate LivesIn(live: seq<Option<Abstraction>>, r: set<Abstraction>) {
    forall a :: Some(a) in live <==> a in r
  }

  lemma LiveSetIsLive(live: seq<Option<Abstraction>>, kind: P.Kind, fs: string, job: string, from: Option<Version>, to: Version,
                      d: set<Abstraction>)
    requires LivesIn(live, LiveSet(kind, fs, job, from, to, d))
    ensures LiveOk(d + Created(kind, fs, job, from, to), fs, job, kind, from, to, live)
    ensures forall k :: k in live && k.Some? ==> k.value in d + Created(kind, fs, job, from, to) && k.value.job.Some?
  {
    forall k | k in live && k.Some? ensures k.value in LiveSet(kind, fs, job, from, to, d) {
      assert Some(k.value) in live;
    }
  }

  lemma LiveIsKept(live: seq<Option<Abstraction>>, a: Abstraction, q: Query)
    requires Some(a) in live && q.live == live
    ensures !q.Selects(a)
  {
    assert Equals(Some(a), Some(a));
  }

  function Path(fs: string, v: Version): (s: string) {
    fs + (if v.typ.Bookmark? then "#" else "@") + v.name
  }

  function SendCheck(fs: string, from: Option<Version>, to: Version): (r: Check) {
    ByPath({Path(fs, to)} + if from.Some? then {Path(fs, from.value)} else {})
  }

  lemma SurvivesSend(d1: set<Abstraction>, d2: set<Abstraction>, obsolete: set<Abstraction>, q: Query, t: AbsType)
    requires d1 - obsolete <= d2 <= d1 && (forall a :: a in obsolete ==> q.Selects(a))
    ensures Marked(d2, t, q.fs, q.job) <= Marked(d1, t, q.fs, q.job)
    ensures forall v :: v in Marked(d1, t, q.fs, q.job) && Abs(t, q.fs, q.job, v) !in obsolete ==> v in Marked(d2, t, q.fs, q.job)
    ensures t !in q.types ==> Marked(d2, t, q.fs, q.job) == Marked(d1, t, q.fs, q.job)
  {
    MarkedMonotone(d2, d1, t, q.fs, q.job);
    forall v | v in Marked(d1, t, q.fs, q.job) && Abs(t, q.fs, q.job, v) !in obsolete ensures v in Marked(d2, t, q.fs, q.job) {
      MarkedIff(d1, t, q.fs, q.job, v);
      MarkedIff(d2, t, q.fs, q.job, v);
    }
  }

  lemma HoldsSurvive(kind: P.Kind, from: Option<Version>, to: Version, d1: set<Abstraction>, d2: set<Abstraction>,
                     obsolete: set<Abstraction>, q: Query)
    requires d1 - obsolete <= d2 <= d1 && (forall a :: a in obsolete ==> q.Selects(a))
    requires LiveOk(d1, q.fs, q.job, kind, from, to, q.live)
    requires P.LiveHolds(kind, from, to) <= Marked(d1, StepHold, q.fs, q.job)
    ensures P.LiveHolds(kind, from, to) <= Marked(d2, StepHold, q.fs, q.job) <= Marked(d1, StepHold, q.fs, q.job)
  {
    SurvivesSend(d1, d2, obsolete, q, StepHold);
    forall v | v in P.LiveHolds(kind, from, to) ensures v in Marked(d2, StepHold, q.fs, q.job) {
      LiveIsKept(q.live, Abs(StepHold, q.fs, q.job, v), q);
    }
  }

  lemma TentativeSurvive(kind: P.Kind, from: Option<Version>, to: Version, d1: set<Abstraction>, d2: set<Abstraction>,
                         obsolete: set<Abstraction>, q: Query)
    requires d1 - obsolete <= d2 <= d1
    requires forall a :: a in obsolete ==> q.Selects(a) && !IsProblem(a, SendCheck(q.fs, from, to))
    requires LiveOk(d1, q.fs, q.job, kind, from, to, q.live)
    ensures P.LiveTentative(kind, q.job, from, to) * Marked(d1, Tentative, q.fs, q.job) <= Marked(d2, Tentative, q.fs, q.job)
    ensures Marked(d2, Tentative, q.fs, q.job) <= Marked(d1, Tentative, q.fs, q.job)
  {
    SurvivesSend(d1, d2, obsolete, q, Tentative);
    forall v | v in P.LiveTentative(kind, q.job, from, to) && v in Marked(d1, Tentative, q.fs, q.job)
      ensures v in Marked(d2, Tentative, q.fs, q.job)
    {
      LiveTentativeSurvives(kind, from, to, d1, obsolete, q, v);
    }
  }

  /** If the check found no problem, the cleanup of `Send` has the effect the protocol allows it. */
  lemma CleanupIsSendEffect(kind: P.Kind, q: Query, from: Option<Version>, to: Version, snaps: set<Version>,
                            foreign: set<Version>, d0: set<Abstraction>, d2: set<Abstraction>, obsolete: set<Abstraction>)
    requires var d1 := d0 + Created(kind, q.fs, q.job, from, to); d1 - obsolete <= d2 <= d1
    requires q.types == SEND_DESTROY_TYPES
    requires forall a :: a in obsolete ==> q.Selects(a) && !IsProblem(a, SendCheck(q.fs, from, to))
    requires LiveOk(d0 + Created(kind, q.fs, q.job, from, to), q.fs, q.job, kind, from, to, q.live)
    ensures P.SendEffect(kind, q.job, SenderOf(d0, snaps, foreign, q.fs, q.job), from, to, SenderOf(d2, snaps, foreign, q.fs, q.job))
  {
    var c := Created(kind, q.fs, q.job, from, to);
    var d1 := d0 + c;
    CreatedIsPreSend(kind, q.fs, q.job, from, to, SenderOf(d0, snaps, foreign, q.fs, q.job));
    MarkedUnion(d0, c, StepHold, q.fs, q.job);
    MarkedUnion(d0, c, Tentative, q.fs, q.job);
    MarkedUnion(d0, c, CursorV2, q.fs, q.job);
    HoldsSurvive(kind, from, to, d1, d2, obsolete, q);
    TentativeSurvive(kind, from, to, d1, d2, obsolete, q);
    SurvivesSend(d1, d2, obsolete, q, CursorV2);
  }

  lemma LiveTentativeSurvives(kind: P.Kind, from: Option<Version>, to: Version, d1: set<Abstraction>,
                              obsolete: set<Abstraction>, q: Query, v: Version)
    requires forall a :: a in obsolete ==> q.Selects(a) && !IsProblem(a, SendCheck(q.fs, from, to))
    requires LiveOk(d1, q.fs, q.job, kind, from, to, q.live)
    requires v in P.LiveTentative(kind, q.job, from, to) && v in Marked(d1, Tentative, q.fs, q.job)
    ensures Abs(Tentative, q.fs, q.job, v) !in obsolete
  {
    var a := Abs(Tentative, q.fs, q.job, v);
    MarkedIff(d1, Tentative, q.fs, q.job, v);
    if from == Some(v) && v.typ.Bookmark? {
      assert a.FullPath() == Path(q.fs, v);
      assert IsProblem(a, SendCheck(q.fs, from, to));
    } else {
      LiveIsKept(q.live, a, q);
    }
  }

  lemma SnapsInAll(disk: set<Abstraction>, snaps: set<Version>, foreign: set<Version>, fs: string, job: string, v: Version)
    requires forall c :: c in disk ==> Canonical(c)
    requires ForeignOk(foreign, job) && v.typ.Snapshot? && v in SenderOf(disk, snaps, foreign, fs, job).All()
    ensures v in snaps
  {}

  lemma AllMonotone(d0: set<Abstraction>, d1: set<Abstraction>, snaps: set<Version>, foreign: set<Version>, fs: string, job: string)
    requires d0 <= d1
    ensures SenderOf(d0, snaps, foreign, fs, job).All() <= SenderOf(d1, snaps, foreign, fs, job).All()
  {
    MarkedMonotone(d0, d1, Tentative, fs, job);
    MarkedMonotone(d0, d1, CursorV2, fs, job);
  }

  lemma PathsSplit(fs: string, x: string, y: string)
    ensures fs + "#" + x == fs + "#" + y ==> x == y
    ensures fs + "#" + x != fs + "@" + y
  {
    assert (fs + "#" + x)[|fs|] == '#' && (fs + "@" + y)[|fs|] == '@';
    assert (fs + "#" + x)[|fs| + 1..] == x && (fs + "#" + y)[|fs| + 1..] == y;
  }

  /** A problem is always the job's own tentative cursor `from`, found where it is on disk. */
  lemma ProblemIsFrom(known: set<Abstraction>, disk: set<Abstraction>, snaps: set<Version>, foreign: set<Version>, q: Query,
                      from: Option<Version>, to: Version, a: Abstraction)
    requires KnownOk(known, disk, snaps, q.fs) && ForeignOk(foreign, q.job) && SnapsOk(snaps) && to in snaps
    requires from.Some? ==> from.value in SenderOf(disk, snaps, foreign, q.fs, q.job).All()
    requires a in known && q.types == SEND_DESTROY_TYPES && q.Selects(a) && IsProblem(a, SendCheck(q.fs, from, to))
    ensures from.Some? && from.value.typ.Bookmark? && a == Abs(Tentative, q.fs, q.job, from.value) && a in disk
  {
    assert Canonical(a);
    PathsSplit(q.fs, a.version.name, to.name);
    PathsSplit(q.fs, a.version.name, from.value.name);
    var f := from.value;
    assert a.typ.Tentative? && a.version.name == f.name;
    if f in Marked(disk, CursorV2, q.fs, q.job) {
      MarkedIff(disk, CursorV2, q.fs, q.job, f);
      assert SamePlace(a, Abs(CursorV2, q.fs, q.job, f));
    } else if f in Marked(disk, Tentative, q.fs, q.job) {
      MarkedIff(disk, Tentative, q.fs, q.job, f);
      assert SamePlace(a, Abs(Tentative, q.fs, q.job, f));
    }
  }

  /** The tentative cursor `from` is extracted, and so kept, exactly when the job id embeds no separator. */
  lemma FromIsExtracted(fs: string, job: string, v: Version)
    requires JobIdOk(job) && Canonical(Abs(Tentative, fs, job, v)) && BookmarkNamecheck(|fs|, v.name)
    ensures Extract(Tentative, fs, v) == Some(Abs(Tentative, fs, job, v)) <==> !EmbedsSep(job)
  {
    NameRoundTripExact(TENTATIVE_PREFIX, |fs|, v.guid, job);
  }

  /** If the job id embeds no separator and the extracted `from` is among the live ones, nothing obsolete is a problem. */
  lemma NoProblem(known: set<Abstraction>, disk: set<Abstraction>, snaps: set<Version>, foreign: set<Version>, q: Query,
                  from: Option<Version>, to: Version, obsolete: set<Abstraction>)
    requires KnownOk(known, disk, snaps, q.fs) && ForeignOk(foreign, q.job) && SnapsOk(snaps) && to in snaps
    requires from.Some? ==> from.value in SenderOf(disk, snaps, foreign, q.fs, q.job).All()
    requires q.types == SEND_DESTROY_TYPES && JobIdOk(q.job) && !EmbedsSep(q.job)
    requires forall d :: d in disk && d == Abs(Tentative, q.fs, q.job, d.version) ==> BookmarkNamecheck(|q.fs|, d.version.name)
    requires from.Some? && from.value.typ.Bookmark? && Extract(Tentative, q.fs, from.value).Some? ==>
               Extract(Tentative, q.fs, from.value) in q.live
    requires forall a :: a in obsolete ==> a in known && q.Selects(a)
    ensures !exists a :: a in obsolete && IsProblem(a, SendCheck(q.fs, from, to))
  {
    forall a | a in obsolete ensures !IsProblem(a, SendCheck(q.fs, from, to)) {
      if IsProblem(a, SendCheck(q.fs, from, to)) {
        ProblemIsFrom(known, disk, snaps, foreign, q, from, to, a);
        assert Canonical(a);
        FromIsExtracted(q.fs, q.job, from.value);
        LiveIsKept(q.live, a, q);
      }
    }
  }

  /** If the job id embeds a separator, only the job's own tentative cursor can be a problem, and only from the cache. */
  lemma ProblemIsCached(known: set<Abstraction>, disk: set<Abstraction>, snaps: set<Version>, foreign: set<Version>, q: Query,
                        from: Option<Version>, to: Version, cached: seq<Abstraction>, obsolete: set<Abstraction>)
    requires KnownOk(known, disk, snaps, q.fs) && ForeignOk(foreign, q.job) && SnapsOk(snaps) && to in snaps
    requires from.Some? ==> from.value in SenderOf(disk, snaps, foreign, q.fs, q.job).All()
    requires q.types == SEND_DESTROY_TYPES && JobIdOk(q.job) && EmbedsSep(q.job)
    requires forall d :: d in disk && d == Abs(Tentative, q.fs, q.job, d.version) ==> BookmarkNamecheck(|q.fs|, d.version.name)
    requires forall a :: a in obsolete ==> a in known && q.Selects(a) && (a in cached || Listed(q.fs, a))
    requires exists a :: a in obsolete && IsProblem(a, SendCheck(q.fs, from, to))
    ensures from.Some? && from.value.typ.Bookmark?
    ensures Abs(Tentative, q.fs, q.job, from.value) in disk && Abs(Tentative, q.fs, q.job, from.value) in cached
    ensures Some(Abs(Tentative, q.fs, q.job, from.value)) !in q.live
  {
    var a :| a in obsolete && IsProblem(a, SendCheck(q.fs, from, to));
    ProblemIsFrom(known, disk, snaps, foreign, q, from, to, a);
    assert Canonical(a);
    FromIsExtracted(q.fs, q.job, from.value);
    if Some(a) in q.live {
      LiveIsKept(q.live, a, q);
    }
  }

  predicate NoTentative(live: seq<Option<Abstraction>>) {
    forall k :: k in live && k.Some? ==> !k.value.typ.Tentative?
  }

  /** If the job id embeds a separator, extraction does not recognise the cursor `v`, and it is not kept. */
  lemma FromIsSelected(q: Query, live: seq<Option<Abstraction>>, v: Version, to: Version)
    requires q.types == SEND_DESTROY_TYPES && JobIdOk(q.job) && EmbedsSep(q.job) && v.typ.Bookmark?
    requires Canonical(Abs(Tentative, q.fs, q.job, v)) && BookmarkNamecheck(|q.fs|, v.name)
    requires Some(Abs(Tentative, q.fs, q.job, v)) !in live && forall k :: k in live && k.Some? ==> k.value.Valid()
    requires forall k :: k in q.live ==> k in live || k.None? || k == Extract(Tentative, q.fs, v)
    ensures q.Selects(Abs(Tentative, q.fs, q.job, v))
    ensures IsProblem(Abs(Tentative, q.fs, q.job, v), SendCheck(q.fs, Some(v), to))
  {
    var a := Abs(Tentative, q.fs, q.job, v);
    FromIsExtracted(q.fs, q.job, v);
    forall k | k in q.live ensures !Equals(Some(a), k) {
      if k.Some? && k == Extract(Tentative, q.fs, v) {
        assert k.value.job != Some(q.job);
      } else if k.Some? {
        EqualsIsIdentity(a, k.value);
      }
    }
    assert a.FullPath() == Path(q.fs, v);
  }

  lemma OwnCursorIsProblem(known: set<Abstraction>, disk: set<Abstraction>, snaps: set<Version>, q: Query,
                           live: seq<Option<Abstraction>>, v: Version, to: Version, obsolete: set<Abstraction>)
    requires KnownOk(known, disk, snaps, q.fs) && Abs(Tentative, q.fs, q.job, v) in disk
    requires forall d :: d in disk && d == Abs(Tentative, q.fs, q.job, d.version) ==> BookmarkNamecheck(|q.fs|, d.version.name)
    requires q.types == SEND_DESTROY_TYPES && JobIdOk(q.job) && EmbedsSep(q.job) && v.typ.Bookmark?
    requires Some(Abs(Tentative, q.fs, q.job, v)) !in live && forall k :: k in live && k.Some? ==> k.value.Valid()
    requires forall k :: k in q.live ==> k in live || k.None? || k == Extract(Tentative, q.fs, v)
    requires q.Selects(Abs(Tentative, q.fs, q.job, v)) ==> Abs(Tentative, q.fs, q.job, v) in obsolete
    ensures exists a :: a in obsolete && IsProblem(a, SendCheck(q.fs, Some(v), to))
  {
    assert Canonical(Abs(Tentative, q.fs, q.job, v));
    FromIsSelected(q, live, v, to);
  }

  /** The cleanup of `SendCompleted` has the effect the protocol allows it. */
  lemma CleanupIsCompletedEffect(kind: P.Kind, fs: string, job: string, to: Version, snaps: set<Version>, foreign: set<Version>,
                                 d0: set<Abstraction>, d2: set<Abstraction>, obsolete: set<Abstraction>)
    requires kind.NoGuarantee? ==> d0 - obsolete <= d2 <= d0
    requires !kind.NoGuarantee? ==> d0 + {MarkOf(CursorV2, fs, job, to)} - obsolete <= d2 <= d0 + {MarkOf(CursorV2, fs, job, to)}
    requires !kind.NoGuarantee? ==> MarkOf(CursorV2, fs, job, to) !in obsolete
    ensures P.CompletedEffect(kind, job, SenderOf(d0, snaps, foreign, fs, job), to, SenderOf(d2, snaps, foreign, fs, job))
  {
    var m := MarkOf(CursorV2, fs, job, to);
    forall t, v | v in Marked(d2, t, fs, job) ensures v in Marked(d0, t, fs, job) || (t == CursorV2 && v == m.version) {
      MarkedIff(d2, t, fs, job, v);
      MarkedIff(d0, t, fs, job, v);
    }
    MarkedIff(d2, CursorV2, fs, job, m.version);
  }

  /** A tentative cursor that a step starts from is among the live ones if and only if the step creates such cursors. */
  lemma LiveFrom(kind: P.Kind, fs: string, job: string, from: Option<Version>, to: Version, d0: set<Abstraction>,
                 live: seq<Option<Abstraction>>)
    requires from.Some? && from.value.typ.Bookmark? && (!kind.Incremental? ==> NoTentative(live))
    requires forall d {:trigger Canonical(d)} :: d in d0 ==> Canonical(d)
    requires LiveOk(d0 + Created(kind, fs, job, from, to), fs, job, kind, from, to, live)
    ensures var a := Abs(Tentative, fs, job, from.value);
            && (a in d0 ==> (Some(a) in live <==> kind.Incremental?))
            && (!kind.Incremental? ==> (a in d0 <==> a in d0 + Created(kind, fs, job, from, to)) && Some(a) !in live)
  {
    var a := Abs(Tentative, fs, job, from.value);
    if a in d0 {
      assert Canonical(a);
      assert a == MarkOf(Tentative, fs, job, from.value);
    }
  }

  /** Putting something into the cache does not change what is found behind a load by others. */
  lemma AwaitedAfterPut(v: View, v': View, fs: string, wakeups: seq<View>)
    requires v.load == v'.load
    ensures Awaited(v, fs, wakeups).State(fs) == Awaited(v', fs, wakeups).State(fs)
    ensures (Awaited(v, fs, wakeups) == v && Awaited(v', fs, wakeups) == v') || Awaited(v, fs, wakeups) == Awaited(v', fs, wakeups)
  {}

  /** A cleanup that keeps just `m` selects everything else of its types. */
  lemma OtherIsSelected(q: Query, m: Abstraction, known: set<Abstraction>)
    requires q.live == [Some(m)] && m in known && forall c {:trigger Canonical(c)} :: c in known ==> Canonical(c)
    ensures forall a :: a in known ==> (q.Selects(a) <==> a.job == Some(q.job) && a.fs == q.fs && a.typ in q.types && a != m)
  {
    forall a | a in known ensures Keep(q.live, a) <==> a == m {
      assert Canonical(a) && Canonical(m);
      EqualsIsIdentity(a, m);
      assert Some(m) in q.live;
    }
  }

  /** Creating and putting `put` lets a cleanup see nothing else that it did not see before. */
  lemma SeenAfterPut(v: View, v': View, d: set<Abstraction>, made: set<Abstraction>, fs: string, env: Env,
                     put: set<Abstraction>, known: set<Abstraction>)
    requires v.load == v'.load && WakeupsOk(env.wakeups, known) && Elems(v'.abstractions) <= known && d <= known && made <= put
    requires forall a :: a in v'.abstractions <==> a in v.abstractions || a in put
    ensures Awaited(v', fs, env.wakeups).State(fs) == Awaited(v, fs, env.wakeups).State(fs)
    ensures forall a :: a !in put ==>
              (Seen(Awaited(v', fs, env.wakeups), d + made, fs, env.loadOk, a) <==> Seen(Awaited(v, fs, env.wakeups), d, fs, env.loadOk, a))
    ensures forall a :: a !in put && Seen(Awaited(v, fs, env.wakeups), d, fs, env.loadOk, a) ==> a in known
  {
    AwaitedAfterPut(v, v', fs, env.wakeups);
    var w := Awaited(v, fs, env.wakeups);
    forall a | a in w.abstractions ensures a in known {
      if w == v {
        assert a in v'.abstractions && a in Elems(v'.abstractions);
      } else {
        assert w in env.wakeups && a in Elems(w.abstractions);
      }
    }
  }

  class Host {
    const job: string
    const fs: string
    const cache: AbstractionsCache
    const disk: Disk
    var snaps: set<Version>
    var foreign: set<Version>

    constructor (job: string, fs: string, cache: AbstractionsCache, disk: Disk, snaps: set<Version>, foreign: set<Version>)
      ensures this.job == job && this.fs == fs && this.cache == cache && this.disk == disk
      ensures this.snaps == snaps && this.foreign == foreign
    {
      this.job, this.fs, this.cache, this.disk, this.snaps, this.foreign := job, fs, cache, disk, snaps, foreign;
    }

    ghost function Known(): (r: set<Abstraction>)
      reads cache, disk
    {
      Elems(cache.abstractions) + disk.abs
    }

    ghost predicate Valid()
      reads this, cache, disk
    {
      && job != "" && fs != "" && JobIdOk(job)
      && SnapsOk(snaps) && KnownOk(Known(), disk.abs, snaps, fs) && ForeignOk(foreign, job)
      && (forall d :: d in disk.abs && d == Abs(Tentative, fs, job, d.version) ==> BookmarkNamecheck(|fs|, d.version.name))
    }

    function Sender(): (s: P.Sender)
      reads this, disk
    {
      SenderOf(disk.abs, snaps, foreign, fs, job)
    }

    /** The name of the mark is not too long for the filesystem. */
    predicate NameOk(typ: AbsType, v: Version) {
      IsBookmarkType(typ) ==> BookmarkNamecheck(|fs|, MarkOf(typ, fs, job, v).version.name)
    }

    /** Idempotently marks a snapshot with a hold or a bookmark; `broken` are those that cannot be created. */
    method Mark(typ: AbsType, v: Version, broken: set<Abstraction>) returns (err: bool, a: Abstraction)
      requires Valid() && v in snaps && !typ.CursorV1?
      modifies disk
      ensures Valid() && a == MarkOf(typ, fs, job, v) && (err <==> a in broken || !NameOk(typ, v))
      ensures disk.abs == old(disk.abs) + if err then {} else {a}
    {
      a := MarkOf(typ, fs, job, v);
      err := a in broken || !NameOk(typ, v);
      if !err {
        MarkKeepsKnown(Known(), disk.abs, snaps, typ, fs, job, v);
        ghost var before := Known();
        disk.abs := disk.abs + {a};
        assert Known() == before + {a};
      }
    }

    /** A bookmark cannot be bookmarked: the result is nil unless the tentative cursor exists already. */
    method CreateTentative(v: Version, broken: set<Abstraction>) returns (err: bool, a: Option<Abstraction>)
      requires Valid() && (v.typ.Snapshot? ==> v in snaps)
      modifies disk
      ensures Valid()
      ensures err <==> !NameOk(Tentative, v) || (v.typ.Snapshot? && MarkOf(Tentative, fs, job, v) in broken)
      ensures err ==> disk.abs == old(disk.abs)
      ensures !err && v.typ.Snapshot? ==>
                a == Some(MarkOf(Tentative, fs, job, v)) && disk.abs == old(disk.abs) + {MarkOf(Tentative, fs, job, v)}
      ensures !err && v.typ.Bookmark? ==>
                disk.abs == old(disk.abs) && (a.None? <==> MarkOf(Tentative, fs, job, v) !in disk.abs)
                && (a.Some? ==> a.value == MarkOf(Tentative, fs, job, v))
    {
      err, a := false, None;
      if v.typ.Snapshot? {
        var m;
        err, m := Mark(Tentative, v, broken);
        a := if err then None else Some(m);
      } else if !NameOk(Tentative, v) {
        err := true;
      } else if MarkOf(Tentative, fs, job, v) in disk.abs {
        a := Some(MarkOf(Tentative, fs, job, v));
      }
    }

    /** Nothing the strategy creates fails. */
    predicate Creatable(kind: P.Kind, from: Option<Version>, to: Version, broken: set<Abstraction>) {
      && Created(kind, fs, job, from, to) !! broken
      && (kind.Incremental? ==> NameOk(Tentative, to) && (from.Some? ==> NameOk(Tentative, from.value)))
    }

    /** Nothing fails that is created for the start of the step. */
    predicate FromCreatable(kind: P.Kind, from: Option<Version>, broken: set<Abstraction>) {
      && CreatedFrom(kind, fs, job, from) !! broken
      && (kind.Incremental? && from.Some? ==> NameOk(Tentative, from.value))
    }

    method PreSendIncremental(from: Option<Version>, to: Version, broken: set<Abstraction>)
      returns (ok: bool, live: seq<Option<Abstraction>>)
      requires Valid() && to in snaps && (P.IsSnap(from) ==> from.value in snaps)
      modifies disk
      ensures Valid() && (ok <==> Creatable(P.Incremental, from, to, broken))
      ensures ok ==> LivesIn(live, LiveSet(P.Incremental, fs, job, from, to, old(disk.abs)))
      ensures ok ==> disk.abs == old(disk.abs) + Created(P.Incremental, fs, job, from, to)
      ensures !ok ==>
                disk.abs == old(disk.abs) + if FromCreatable(P.Incremental, from, broken) then CreatedFrom(P.Incremental, fs, job, from) else {}
    {
      ok, live := true, [];
      if from.Some? {
        var err, f := CreateTentative(from.value, broken);
        if err {
          return false, [];
        }
        live := [f];
      }
      var err, t := CreateTentative(to, broken);
      if err {
        return false, [];
      }
      live := live + [t];
    }

    method PreSendResumability(from: Option<Version>, to: Version, broken: set<Abstraction>)
      returns (ok: bool, live: seq<Option<Abstraction>>)
      requires Valid() && to in snaps && (P.IsSnap(from) ==> from.value in snaps)
      modifies disk
      ensures Valid() && (ok <==> Creatable(P.Resumability, from, to, broken)) && NoTentative(live)
      ensures ok ==> LivesIn(live, LiveSet(P.Resumability, fs, job, from, to, old(disk.abs)))
      ensures ok ==> disk.abs == old(disk.abs) + Created(P.Resumability, fs, job, from, to)
      ensures !ok ==>
                disk.abs == old(disk.abs) + if FromCreatable(P.Resumability, from, broken) then CreatedFrom(P.Resumability, fs, job, from) else {}
    {
      ok, live := true, [];
      if from.Some? && from.value.typ.Snapshot? {
        var err, f := Mark(StepHold, from.value, broken);
        if err {
          return false, [];
        }
        live := [Some(f)];
      }
      var err, t := Mark(StepHold, to, broken);
      if err {
        return false, [];
      }
      live := live + [Some(t)];
    }

    method SenderPreSend(kind: P.Kind, from: Option<Version>, to: Version, broken: set<Abstraction>)
      returns (ok: bool, live: seq<Option<Abstraction>>)
      requires Valid() && to in snaps && (P.IsSnap(from) ==> from.value in snaps)
      modifies disk
      ensures Valid() && (ok <==> Creatable(kind, from, to, broken))
      ensures ok ==> disk.abs == old(disk.abs) + Created(kind, fs, job, from, to)
      ensures !ok ==> disk.abs == old(disk.abs) + if FromCreatable(kind, from, broken) then CreatedFrom(kind, fs, job, from) else {}
      ensures ok ==> LivesIn(live, LiveSet(kind, fs, job, from, to, old(disk.abs)))
      ensures !kind.Incremental? ==> NoTentative(live)
      ensures ok ==> LiveOk(disk.abs, fs, job, kind, from, to, live)
      ensures ok ==> forall k :: k in live && k.Some? ==> k.value in disk.abs && k.value.job.Some?
    {
      match kind {
        case Resumability => ok, live := PreSendResumability(from, to, broken);
        case Incremental => ok, live := PreSendIncremental(from, to, broken);
        case NoGuarantee => ok, live := true, [];
      }
      if ok {
        LiveSetIsLive(live, kind, fs, job, from, to, old(disk.abs));
      }
    }

    method PutOne(a: Abstraction)
      requires Valid() && a in disk.abs && a.job.Some?
      modifies cache
      ensures Valid() && Known() == old(Known())
      ensures cache.abstractions == old(cache.abstractions) + [a] && cache.didLoadFS == old(cache.didLoadFS)
    {
      assert Canonical(a);
      cache.Put(a);
      assert Elems(cache.abstractions) == old(Elems(cache.abstractions)) + {a};
      assert Known() == old(Known());
    }

    method PutAll(live: seq<Option<Abstraction>>)
      requires Valid() && forall k :: k in live && k.Some? ==> k.value in disk.abs && k.value.job.Some?
      modifies cache
      ensures Valid() && Known() == old(Known()) && cache.didLoadFS == old(cache.didLoadFS)
      ensures forall a :: a in cache.abstractions <==> a in old(cache.abstractions) || Some(a) in live
    {
      for i := 0 to |live|
        invariant Valid() && Known() == old(Known()) && cache.didLoadFS == old(cache.didLoadFS)
        invariant forall a :: a in cache.abstractions <==> a in old(cache.abstractions) || Some(a) in live[..i]
      {
        assert live[..i + 1] == live[..i] + [live[i]];
        if live[i].Some? {
          assert live[i] in live;
          PutOne(live[i].value);
        }
      }
      assert live[..|live|] == live;
    }

    /** What the cleanup of `Send` keeps: the live abstractions, and `from` if it is recognised as one. */
    method LiveAndFrom(live: seq<Option<Abstraction>>, from: Option<Version>) returns (r: seq<Option<Abstraction>>)
      ensures forall k :: k in live ==> k in r
      ensures forall k :: k in r ==>
                k in live || k.None? || (from.Some? && from.value.typ.Bookmark? && k == Extract(Tentative, fs, from.value))
      ensures from.Some? && from.value.typ.Bookmark? && Extract(Tentative, fs, from.value).Some? ==>
                Extract(Tentative, fs, from.value) in r
    {
      r := live;
      if from.Some? && from.value.typ.Bookmark? {
        var e := ExtractBookmark([StepHold, Tentative], fs, from.value);
        assert e.None? ==> Extract(Tentative, fs, from.value).None?;
        r := r + [e];
      }
    }

    /** What a cleanup finds in the cache once no load is in progress. */
    ghost function View(wakeups: seq<View>): (v: View)
      reads cache
    {
      Awaited(cache.Contents(), fs, wakeups)
    }

    /** A step hold or tentative cursor of the job on the filesystem. */
    predicate IsStepMark(a: Abstraction) {
      (a.typ.StepHold? || a.typ.Tentative?) && a.fs == fs && a.job == Some(job)
    }

    /** The bookmark the step starts from is read as tentative cursor `a`. */
    predicate Recognised(from: Option<Version>, a: Abstraction) {
      from.Some? && from.value.typ.Bookmark? && Extract(Tentative, fs, from.value) == Some(a)
    }

    /** The cleanup of `Send` selects the step marks that are neither live nor what the step starts from. */
    lemma SelectsExact(q: Query, live: seq<Option<Abstraction>>, from: Option<Version>, known: set<Abstraction>)
      requires q.job == job && q.fs == fs && q.types == SEND_DESTROY_TYPES
      requires forall c {:trigger Canonical(c)} :: c in known ==> Canonical(c)
      requires (forall k :: k in live && k.Some? ==> k.value in known) && (forall k :: k in live ==> k in q.live)
      requires forall k :: k in q.live ==> k in live || k.None? || (k.Some? && Recognised(from, k.value))
      requires forall a :: Recognised(from, a) ==> Some(a) in q.live
      ensures forall a :: a in known ==> (q.Selects(a) <==> IsStepMark(a) && Some(a) !in live && !Recognised(from, a))
    {
      forall a | a in known ensures Keep(q.live, a) <==> Some(a) in live || Recognised(from, a) {
        assert Canonical(a);
        forall k | k in q.live && k.Some? ensures Equals(Some(a), k) <==> a == k.value {
          assert k in live ==> Canonical(k.value);
          if k !in live {
            RecognisedIsValid(from, k.value);
          }
          EqualsIsIdentity(a, k.value);
        }
        assert Some(a) in q.live ==> Equals(Some(a), Some(a));
      }
    }

    lemma RecognisedIsValid(from: Option<Version>, a: Abstraction)
      requires Recognised(from, a)
      ensures a.Valid()
    {
    }

    /** The cleanup of `Send` behind a successful SenderPreSend. */
    method CleanupSend(from: Option<Version>, to: Version, live: seq<Option<Abstraction>>, env: Env)
      returns (waiting: bool, panicked: bool, ghost q: Query, ghost obsolete: set<Abstraction>)
      requires Valid() && to in snaps && (from.Some? ==> from.value in Sender().All())
      requires WakeupsOk(env.wakeups, Known()) && forall k :: k in live && k.Some? ==> k.value in disk.abs
      modifies cache, disk
      ensures Valid()
      ensures waiting <==> old(View(env.wakeups)).State(fs).InProgress?
      ensures q.job == job && q.fs == fs && q.types == SEND_DESTROY_TYPES && forall k :: k in live ==> k in q.live
      ensures panicked ==> disk.abs == old(disk.abs)
      ensures !panicked ==> disk.abs == old(disk.abs) - (obsolete - env.failing)
      ensures !panicked ==> forall a :: a in obsolete ==> q.Selects(a) && !IsProblem(a, SendCheck(fs, from, to))
      ensures waiting ==> !panicked && obsolete == {}
      ensures !waiting ==> forall a :: a in obsolete <==>
                && IsStepMark(a) && Some(a) !in live && !Recognised(from, a)
                && Seen(old(View(env.wakeups)), old(disk.abs), fs, env.loadOk, a)
      ensures panicked <==>
              EmbedsSep(job) && old(OwnCached(from, env.wakeups)) && Some(Abs(Tentative, fs, job, from.value)) !in live
      ensures !waiting ==> !cache.State(fs).InProgress?
      ensures forall a :: Some(a) in live ==> a in disk.abs
      ensures env.failing == {} ==>
                forall a :: a in old(View(env.wakeups)).abstractions && Some(a) in live ==> a in cache.abstractions
    {
      var liveAbs := LiveAndFrom(live, from);
      ghost var known, d0 := Known(), disk.abs;
      ghost var view := View(env.wakeups);
      var query := Query(job, fs, SEND_DESTROY_TYPES, liveAbs);
      q := query;
      waiting, panicked, obsolete := TryBatchDestroy(cache, disk, query, SendCheck(fs, from, to), env);
      assert Known() <= known;
      LiveStays(q, live);
      SelectsExact(q, live, from, known);
      if !waiting {
        assert Elems(view.abstractions) + d0 <= known;
        PanicExact(Elems(view.abstractions) + d0, d0, q, live, from, to, view.abstractions, panicked, obsolete);
      }
    }

    lemma LiveStays(q: Query, live: seq<Option<Abstraction>>)
      requires forall k :: k in live ==> k in q.live
      ensures forall a :: Some(a) in live ==> !q.Selects(a)
    {
      forall a | Some(a) in live ensures !q.Selects(a) {
        LiveIsKept(q.live, a, q);
      }
    }

    lemma PanicExact(known: set<Abstraction>, d0: set<Abstraction>, q: Query, live: seq<Option<Abstraction>>,
                     from: Option<Version>, to: Version, cached: seq<Abstraction>, panicked: bool, obsolete: set<Abstraction>)
      requires Valid() && to in snaps && KnownOk(known, d0, snaps, fs) && known == Elems(cached) + d0
      requires from.Some? ==> from.value in SenderOf(d0, snaps, foreign, fs, job).All()
      requires forall d :: d in d0 && d == Abs(Tentative, fs, job, d.version) ==> BookmarkNamecheck(|fs|, d.version.name)
      requires q.job == job && q.fs == fs && q.types == SEND_DESTROY_TYPES && forall k :: k in live ==> k in q.live
      requires forall k :: k in live && k.Some? ==> k.value in d0
      requires from.Some? && from.value.typ.Bookmark? && Extract(Tentative, fs, from.value).Some? ==>
                 Extract(Tentative, fs, from.value) in q.live
      requires forall k :: k in q.live ==>
                 k in live || k.None? || (from.Some? && from.value.typ.Bookmark? && k == Extract(Tentative, fs, from.value))
      requires forall a :: a in obsolete ==> q.Selects(a) && (a in cached || (a in d0 && Listed(fs, a)))
      requires forall a :: a in cached && q.Selects(a) ==> a in obsolete
      requires panicked <==> exists a :: a in obsolete && IsProblem(a, SendCheck(fs, from, to))
      ensures panicked <==>
              && EmbedsSep(job) && from.Some? && from.value.typ.Bookmark?
              && Abs(Tentative, fs, job, from.value) in d0 && Abs(Tentative, fs, job, from.value) in cached
              && Some(Abs(Tentative, fs, job, from.value)) !in live
    {
      if !EmbedsSep(job) {
        NoProblem(known, d0, snaps, foreign, q, from, to, obsolete);
      } else {
        if panicked {
          ProblemIsCached(known, d0, snaps, foreign, q, from, to, cached, obsolete);
        }
        if && from.Some? && from.value.typ.Bookmark?
           && Abs(Tentative, fs, job, from.value) in d0 && Abs(Tentative, fs, job, from.value) in cached
           && Some(Abs(Tentative, fs, job, from.value)) !in live {
          forall k | k in live && k.Some? ensures k.value.Valid() {
            assert Canonical(k.value);
          }
          OwnCursorIsProblem(known, d0, snaps, q, live, from.value, to, obsolete);
        }
      }
    }

    /** Creates what the strategy asks for and puts it into the cache. */
    method PrepareSend(kind: P.Kind, from: Option<Version>, to: Version, broken: set<Abstraction>)
      returns (ok: bool, live: seq<Option<Abstraction>>)
      requires Valid() && to in snaps && (from.Some? ==> from.value in Sender().All())
      modifies cache, disk
      ensures Valid() && (from.Some? ==> from.value in Sender().All())
      ensures ok <==> Creatable(kind, from, to, broken)
      ensures P.AbortEffect(kind, job, old(Sender()), from, to, Sender())
      ensures ok ==> disk.abs == old(disk.abs) + Created(kind, fs, job, from, to)
      ensures !ok ==> disk.abs == old(disk.abs) + if FromCreatable(kind, from, broken) then CreatedFrom(kind, fs, job, from) else {}
      ensures ok ==> LivesIn(live, LiveSet(kind, fs, job, from, to, old(disk.abs)))
      ensures !kind.Incremental? ==> NoTentative(live)
      ensures ok ==> LiveOk(disk.abs, fs, job, kind, from, to, live)
      ensures ok ==> forall k :: k in live && k.Some? ==> k.value in disk.abs && k.value in cache.abstractions
      ensures ok ==> forall a :: a in cache.abstractions <==> a in old(cache.abstractions) || Some(a) in live
      ensures cache.didLoadFS == old(cache.didLoadFS) && old(Known()) <= Known()
    {
      if from.Some? && from.value.typ.Snapshot? {
        SnapsInAll(disk.abs, snaps, foreign, fs, job, from.value);
      }
      ok, live := SenderPreSend(kind, from, to, broken);
      PartIsAbort(kind, fs, job, from, to, snaps, foreign, old(disk.abs), disk.abs);
      AllMonotone(old(disk.abs), disk.abs, snaps, foreign, fs, job);
      if ok {
        PutAll(live);
      }
    }

    /** The step starts from the job's own tentative cursor, and the cache knows it when the cleanup gets to look. */
    ghost predicate OwnCached(from: Option<Version>, wakeups: seq<View>)
      reads this, cache, disk
    {
      && from.Some? && from.value.typ.Bookmark? && Abs(Tentative, fs, job, from.value) in disk.abs
      && !View(wakeups).State(fs).InProgress? && Abs(Tentative, fs, job, from.value) in View(wakeups).abstractions
    }

    /** `Send`, up to the start of the stream. It fails, panics, waits, or has the effect the protocol describes. It panics
        exactly if the job id embeds a name separator and a step that creates no tentative cursors, and whose holds can be
        created, starts from a tentative cursor of the job that the cache knows. */
    method Send(kind: P.Kind, from: Option<Version>, to: Version, broken: set<Abstraction>, env: Env)
      returns (ok: bool, waiting: bool, panicked: bool)
      requires Valid() && to in snaps && (from.Some? ==> from.value in Sender().All()) && WakeupsOk(env.wakeups, Known())
      modifies cache, disk
      ensures Valid()
      ensures ok <==> Creatable(kind, from, to, broken) && !panicked && !waiting
      ensures waiting <==> Creatable(kind, from, to, broken) && old(View(env.wakeups)).State(fs).InProgress?
      ensures ok ==> P.SendEffect(kind, job, old(Sender()), from, to, Sender())
      ensures !ok ==> P.AbortEffect(kind, job, old(Sender()), from, to, Sender())
      ensures panicked <==>
              EmbedsSep(job) && old(OwnCached(from, env.wakeups)) && !kind.Incremental? && Creatable(kind, from, to, broken)
      ensures ok && kind.Incremental? && env.failing == {} && !old(cache.State(fs)).InProgress? ==>
                OwnCached(Some(P.TentativeOf(job, to)), [])
      ensures ok ==> SendLeaves(kind, from, to, old(View(env.wakeups)), old(disk.abs), env, disk.abs)
      ensures waiting || panicked ==> disk.abs == old(disk.abs) + Created(kind, fs, job, from, to)
      ensures !Creatable(kind, from, to, broken) ==>
                disk.abs == old(disk.abs) + if FromCreatable(kind, from, broken) then CreatedFrom(kind, fs, job, from) else {}
    {
      waiting, panicked := false, false;
      var live;
      ghost var before := cache.Contents();
      ok, live := PrepareSend(kind, from, to, broken);
      if ok {
        OwnStays(kind, from, to, before, cache.Contents(), env.wakeups, old(disk.abs), live);
        assert WakeupsOk(env.wakeups, Known());
        ghost var after, known := cache.Contents(), Known();
        waiting, panicked := FinishSend(kind, from, to, live, old(disk.abs), env);
        ok := !waiting && !panicked;
        if ok {
          LeavesExact(kind, from, to, before, after, old(disk.abs), env, live, known, disk.abs);
        }
      }
    }

    /** What `Send` destroys besides what it creates: step holds and tentative cursors of the job that the cleanup sees and
        the step does not start from, unless their destroy fails. */
    predicate SendDestroys(kind: P.Kind, from: Option<Version>, view: View, d: set<Abstraction>, env: Env, a: Abstraction) {
      && (a.typ.StepHold? || a.typ.Tentative?) && a.fs == fs && a.job == Some(job) && a !in env.failing
      && !(kind.Incremental? && from.Some? && from.value.typ.Bookmark? && a == MarkOf(Tentative, fs, job, from.value))
      && !(from.Some? && from.value.typ.Bookmark? && Extract(Tentative, fs, from.value) == Some(a))
      && Seen(view, d, fs, env.loadOk, a)
    }

    /** What is on disk behind `Send`: what it creates, and what was there and it does not destroy. */
    ghost predicate SendLeaves(kind: P.Kind, from: Option<Version>, to: Version, view: View, d: set<Abstraction>, env: Env,
                               d': set<Abstraction>) {
      forall a :: a in d' <==> a in Created(kind, fs, job, from, to) || (a in d && !SendDestroys(kind, from, view, d, env, a))
    }

    ghost predicate FinishLeaves(from: Option<Version>, live: seq<Option<Abstraction>>, view: View, d: set<Abstraction>, env: Env,
                                 d': set<Abstraction>) {
      forall a :: a in d' <==>
        && a in d
        && !(IsStepMark(a) && a !in env.failing && Some(a) !in live && !Recognised(from, a) && Seen(view, d, fs, env.loadOk, a))
    }

    /** Behind the creation the cleanup sees, besides what is live, just what it would have seen before. */
    lemma LeavesExact(kind: P.Kind, from: Option<Version>, to: Version, before: View, after: View, d0: set<Abstraction>, env: Env,
                      live: seq<Option<Abstraction>>, known: set<Abstraction>, d2: set<Abstraction>)
      requires before.load == after.load && WakeupsOk(env.wakeups, known) && Elems(after.abstractions) <= known && d0 <= known
      requires LivesIn(live, LiveSet(kind, fs, job, from, to, d0))
      requires forall a :: a in after.abstractions <==> a in before.abstractions || Some(a) in live
      requires FinishLeaves(from, live, Awaited(after, fs, env.wakeups), d0 + Created(kind, fs, job, from, to), env, d2)
      ensures SendLeaves(kind, from, to, Awaited(before, fs, env.wakeups), d0, env, d2)
    {
      var put := LiveSet(kind, fs, job, from, to, d0);
      SeenAfterPut(before, after, d0, Created(kind, fs, job, from, to), fs, env, put, known);
    }

    /** The disk changed as `Send` may change it. */
    ghost predicate SendEffectOn(kind: P.Kind, from: Option<Version>, to: Version, d: set<Abstraction>, d': set<Abstraction>)
      reads this
    {
      P.SendEffect(kind, job, SenderOf(d, snaps, foreign, fs, job), from, to, SenderOf(d', snaps, foreign, fs, job))
    }

    /** `Send` behind the creation of what the strategy asks for on disk `d0`. */
    method FinishSend(kind: P.Kind, from: Option<Version>, to: Version, live: seq<Option<Abstraction>>,
                      ghost d0: set<Abstraction>, env: Env) returns (waiting: bool, panicked: bool)
      requires Valid() && to in snaps && (from.Some? ==> from.value in Sender().All()) && WakeupsOk(env.wakeups, Known())
      requires disk.abs == d0 + Created(kind, fs, job, from, to) && LiveOk(disk.abs, fs, job, kind, from, to, live)
      requires forall k :: k in live && k.Some? ==> k.value in disk.abs && k.value in cache.abstractions
      modifies cache, disk
      ensures Valid() && (waiting <==> old(View(env.wakeups)).State(fs).InProgress?)
      ensures panicked <==>
              EmbedsSep(job) && old(OwnCached(from, env.wakeups)) && Some(Abs(Tentative, fs, job, from.value)) !in live
      ensures waiting || panicked ==> disk.abs == old(disk.abs)
      ensures !waiting && !panicked ==> SendEffectOn(kind, from, to, d0, disk.abs)
      ensures !waiting && !panicked ==> FinishLeaves(from, live, old(View(env.wakeups)), old(disk.abs), env, disk.abs)
      ensures !waiting ==> !cache.State(fs).InProgress?
      ensures forall a :: Some(a) in live ==> a in disk.abs
      ensures env.failing == {} && !old(cache.State(fs)).InProgress? ==> forall a :: Some(a) in live ==> a in cache.abstractions
    {
      ghost var q, obsolete;
      waiting, panicked, q, obsolete := CleanupSend(from, to, live, env);
      if !waiting && !panicked {
        CleanupIsSendEffect(kind, q, from, to, snaps, foreign, d0, disk.abs, obsolete);
      }
    }

    /** Creating and putting does not change whether the step starts from a cursor that the cleanup may destroy. */
    lemma OwnStays(kind: P.Kind, from: Option<Version>, to: Version, before: View, after: View, wakeups: seq<View>,
                   d0: set<Abstraction>, live: seq<Option<Abstraction>>)
      requires before.load == after.load && (!kind.Incremental? ==> NoTentative(live))
      requires forall a :: a in after.abstractions <==> a in before.abstractions || Some(a) in live
      requires forall d {:trigger Canonical(d)} :: d in d0 ==> Canonical(d)
      requires LiveOk(d0 + Created(kind, fs, job, from, to), fs, job, kind, from, to, live)
      ensures Awaited(after, fs, wakeups).State(fs) == Awaited(before, fs, wakeups).State(fs)
      ensures from.Some? && from.value.typ.Bookmark? ==>
                var a, d1 := Abs(Tentative, fs, job, from.value), d0 + Created(kind, fs, job, from, to);
                if kind.Incremental? then a in d1 ==> Some(a) in live
                else
                  && Some(a) !in live && (a in d1 <==> a in d0)
                  && (a in Awaited(after, fs, wakeups).abstractions <==> a in Awaited(before, fs, wakeups).abstractions)
    {
      AwaitedAfterPut(before, after, fs, wakeups);
      if from.Some? && from.value.typ.Bookmark? {
        LiveFrom(kind, fs, job, from, to, d0, live);
      }
    }

    /** Marks snapshot `v` and cleans up everything else of the given types; nothing happens if the mark fails. */
    method MarkAndCleanup(typ: AbsType, v: Version, types: set<AbsType>, check: Check, broken: set<Abstraction>, env: Env)
      returns (err: bool, waiting: bool, panicked: bool, ghost obsolete: set<Abstraction>)
      requires Valid() && v in snaps && (typ.CursorV2? || typ.LastReceivedHold?) && WakeupsOk(env.wakeups, Known())
      modifies cache, disk
      ensures Valid() && (err <==> MarkOf(typ, fs, job, v) in broken || !NameOk(typ, v))
      ensures err ==> disk.abs == old(disk.abs) && cache.Contents() == old(cache.Contents()) && !waiting && !panicked
      ensures !err ==> (waiting <==> old(View(env.wakeups)).State(fs).InProgress?)
      ensures err || waiting ==> obsolete == {}
      ensures !err && !waiting ==> forall a :: a in obsolete <==>
                && a.typ in types && a.fs == fs && a.job == Some(job) && a != MarkOf(typ, fs, job, v)
                && Seen(old(View(env.wakeups)), old(disk.abs), fs, env.loadOk, a)
      ensures !err && !panicked ==> disk.abs == old(disk.abs) + {MarkOf(typ, fs, job, v)} - (obsolete - env.failing)
      ensures !err && panicked ==> disk.abs == old(disk.abs) + {MarkOf(typ, fs, job, v)}
      ensures !err ==> (panicked <==> exists a :: a in obsolete && IsProblem(a, check))
    {
      waiting, panicked, obsolete := false, false, {};
      var m;
      ghost var before := cache.Contents();
      err, m := Mark(typ, v, broken);
      if err {
        return;
      }
      PutAll([Some(m)]);
      var q := Query(job, fs, types, [Some(m)]);
      ghost var known := Known();
      assert known == old(Known()) + {m};
      OtherIsSelected(q, m, known);
      SeenAfterPut(before, cache.Contents(), old(disk.abs), {m}, fs, env, {m}, known);
      waiting, panicked, obsolete := TryBatchDestroy(cache, disk, q, check, env);
      assert Known() <= known;
    }

    /** The cleanup of a step without any guarantee: nothing is kept. */
    method CleanupAll(types: set<AbsType>, check: Check, env: Env)
      returns (waiting: bool, panicked: bool, ghost obsolete: set<Abstraction>)
      requires Valid() && WakeupsOk(env.wakeups, Known())
      modifies cache, disk
      ensures Valid()
      ensures waiting <==> old(View(env.wakeups)).State(fs).InProgress?
      ensures waiting ==> obsolete == {}
      ensures !waiting ==> forall a :: a in obsolete <==>
                a.typ in types && a.fs == fs && a.job == Some(job) && Seen(old(View(env.wakeups)), old(disk.abs), fs, env.loadOk, a)
      ensures panicked ==> disk.abs == old(disk.abs)
      ensures !panicked ==> disk.abs == old(disk.abs) - (obsolete - env.failing)
      ensures panicked <==> exists a :: a in obsolete && IsProblem(a, check)
    {
      var q := Query(job, fs, types, []);
      ghost var known := Known();
      waiting, panicked, obsolete := TryBatchDestroy(cache, disk, q, check, env);
      assert Known() <= known;
    }

    /** What `SendCompleted` destroys besides the new cursor: step holds, tentative cursors and cursors of the job that the
        cleanup sees, unless their destroy fails. */
    predicate CompletedDestroys(view: View, d: set<Abstraction>, env: Env, a: Abstraction) {
      && (a.typ.StepHold? || a.typ.Tentative? || a.typ.CursorV2?) && a.fs == fs && a.job == Some(job) && a !in env.failing
      && Seen(view, d, fs, env.loadOk, a)
    }

    /** What is on disk behind `SendCompleted`: the new cursor, and what was there and it does not destroy. */
    ghost predicate CompletedLeaves(kind: P.Kind, to: Version, view: View, d: set<Abstraction>, env: Env, d': set<Abstraction>) {
      forall a :: a in d' <==>
        (!kind.NoGuarantee? && a == MarkOf(CursorV2, fs, job, to)) || (a in d && !CompletedDestroys(view, d, env, a))
    }

    /** `SendCompleted`: moves the cursor, then cleans up. It fails exactly if a version of the step is gone or the cursor
        cannot be created, and then changes nothing. */
    method SendCompleted(kind: P.Kind, from: Option<Version>, to: Version, broken: set<Abstraction>, env: Env)
      returns (ok: bool, waiting: bool)
      requires Valid() && WakeupsOk(env.wakeups, Known())
      modifies cache, disk
      ensures Valid()
      ensures ok || waiting <==>
                && old(to in snaps && (from.Some? ==> from.value in Sender().All()))
                && (kind.NoGuarantee? || (MarkOf(CursorV2, fs, job, to) !in broken && NameOk(CursorV2, to)))
      ensures ok ==> !old(View(env.wakeups)).State(fs).InProgress?
      ensures waiting ==> old(View(env.wakeups)).State(fs).InProgress?
      ensures ok || waiting ==> P.CompletedEffect(kind, job, old(Sender()), to, Sender())
      ensures ok ==> CompletedLeaves(kind, to, old(View(env.wakeups)), old(disk.abs), env, disk.abs)
      ensures waiting ==> disk.abs == old(disk.abs) + if kind.NoGuarantee? then {} else {MarkOf(CursorV2, fs, job, to)}
      ensures !ok && !waiting ==> disk.abs == old(disk.abs)
    {
      waiting := false;
      if from.Some? && from.value !in Sender().All() {
        return false, false;
      }
      if to !in snaps {
        return false, false;
      }
      var err;
      err, waiting := MoveCursor(kind, to, broken, env);
      if err {
        return false, false;
      }
      ok := !waiting;
      ghost var d1 := old(disk.abs) + if kind.NoGuarantee? then {} else {MarkOf(CursorV2, fs, job, to)};
      CleanupIsCompletedEffect(kind, fs, job, to, snaps, foreign, old(disk.abs), disk.abs, d1 - disk.abs);
    }

    /** The cursor of `to`, where a guarantee asks for one, and the cleanup behind it. */
    method MoveCursor(kind: P.Kind, to: Version, broken: set<Abstraction>, env: Env) returns (err: bool, waiting: bool)
      requires Valid() && to in snaps && WakeupsOk(env.wakeups, Known())
      modifies cache, disk
      ensures Valid()
      ensures err <==> !kind.NoGuarantee? && (MarkOf(CursorV2, fs, job, to) in broken || !NameOk(CursorV2, to))
      ensures err ==> !waiting && disk.abs == old(disk.abs)
      ensures !err ==> (waiting <==> old(View(env.wakeups)).State(fs).InProgress?)
      ensures !err && !waiting ==> CompletedLeaves(kind, to, old(View(env.wakeups)), old(disk.abs), env, disk.abs)
      ensures waiting ==> disk.abs == old(disk.abs) + if kind.NoGuarantee? then {} else {MarkOf(CursorV2, fs, job, to)}
    {
      err := false;
      var panicked;
      ghost var obsolete;
      if kind.NoGuarantee? {
        waiting, panicked, obsolete := CleanupAll(COMPLETED_DESTROY_TYPES, NoCheck, env);
      } else {
        err, waiting, panicked, obsolete := MarkAndCleanup(CursorV2, to, COMPLETED_DESTROY_TYPES, NoCheck, broken, env);
      }
    }

    /** The last-received-holds of the job. */
    function Holds(): (r: set<Version>)
      reads this, disk
    {
      Marked(disk.abs, LastReceivedHold, fs, job)
    }

    /** The holds a cleanup releases: those it sees and whose release does not fail. */
    ghost predicate Released(view: View, on: set<Abstraction>, env: Env, u: Version) {
      Seen(view, on, fs, env.loadOk, Abs(LastReceivedHold, fs, job, u)) && Abs(LastReceivedHold, fs, job, u) !in env.failing
    }

    /** `Receive` behind a successful recv of snapshot `v`: holds it, then releases the job's other last-received-holds.
        If the hold fails nothing is released. The check panics exactly if no hold was asked for and `v` is seen to be held. */
    method PostReceive(kind: P.Kind, v: Version, broken: set<Abstraction>, env: Env)
      returns (ok: bool, waiting: bool, panicked: bool)
      requires Valid() && v in snaps && WakeupsOk(env.wakeups, Known())
      modifies cache, disk
      ensures Valid()
      ensures ok <==> kind.NoGuarantee? || Abs(LastReceivedHold, fs, job, v) !in broken
      ensures waiting <==> ok && old(View(env.wakeups)).State(fs).InProgress?
      ensures panicked <==>
              && kind.NoGuarantee? && !waiting
              && Seen(old(View(env.wakeups)), old(disk.abs), fs, env.loadOk, Abs(LastReceivedHold, fs, job, v))
      ensures !ok ==> Holds() == old(Holds())
      ensures waiting || panicked ==> Holds() == old(Holds()) + if kind.NoGuarantee? then {} else {v}
      ensures ok && !waiting && !panicked ==>
                forall u :: u in Holds() <==>
                  if u == v && !kind.NoGuarantee? then true
                  else u in old(Holds()) && !Released(old(View(env.wakeups)), old(disk.abs), env, u)
      ensures forall a: Abstraction :: !(a.typ.LastReceivedHold? && a.fs == fs && a.job == Some(job)) ==>
                (a in disk.abs <==> a in old(disk.abs))
    {
      ok := true;
      ghost var obsolete;
      var m, err := Abs(LastReceivedHold, fs, job, v), false;
      ghost var view, d0, known := View(env.wakeups), disk.abs, Known();
      if kind.NoGuarantee? {
        waiting, panicked, obsolete := CleanupAll(RECEIVE_DESTROY_TYPES, ByVersion(v), env);
      } else {
        err, waiting, panicked, obsolete := MarkAndCleanup(LastReceivedHold, v, RECEIVE_DESTROY_TYPES, ByVersion(v), broken, env);
        ok := !err;
      }
      ProblemIsHold(known, view, d0, env, v, obsolete);
      HoldsAre(d0);
      HoldsAre(disk.abs);
    }

    /** Among the job's last-received-holds, only the one on `v` is around that version. */
    lemma ProblemIsHold(known: set<Abstraction>, view: View, d0: set<Abstraction>, env: Env, v: Version, obsolete: set<Abstraction>)
      requires KnownOk(known, d0, snaps, fs) && v in snaps && Elems(view.abstractions) <= known
      requires forall a :: a in obsolete ==>
                 a.typ.LastReceivedHold? && a.fs == fs && a.job == Some(job) && Seen(view, d0, fs, env.loadOk, a)
      ensures (exists a :: a in obsolete && IsProblem(a, ByVersion(v))) <==> Abs(LastReceivedHold, fs, job, v) in obsolete
    {
      var m := Abs(LastReceivedHold, fs, job, v);
      assert m in obsolete ==> IsProblem(m, ByVersion(v));
      forall a | a in obsolete && IsProblem(a, ByVersion(v)) ensures a == m {
        assert a in view.abstractions ==> a in Elems(view.abstractions);
        assert a in known && Agrees(fs, a, v);
      }
    }

    lemma HoldsAre(d: set<Abstraction>)
      ensures forall u :: u in Marked(d, LastReceivedHold, fs, job) <==> Abs(LastReceivedHold, fs, job, u) in d
    {
      forall u ensures u in Marked(d, LastReceivedHold, fs, job) <==> Abs(LastReceivedHold, fs, job, u) in d {
        MarkedIff(d, LastReceivedHold, fs, job, u);
      }
    }
  }

  /** A host that has sent its first snapshot `a` under the incremental guarantee. */
  method FirstSend(job: string, fs: string, a: Version, b: Version) returns (h: Host)
    requires JobIdOk(job) && fs != "" && SnapsOk({a, b})
    requires BookmarkNamecheck(|fs|, RawName(TENTATIVE_PREFIX, a.guid, job))
    ensures fresh(h) && fresh(h.cache) && fresh(h.disk)
    ensures h.Valid() && h.job == job && h.fs == fs && h.snaps == {a, b} && h.foreign == {}
    ensures h.OwnCached(Some(P.TentativeOf(job, a)), [])
  {
    var cache := new AbstractionsCache();
    var disk := new Disk({});
    h := new Host(job, fs, cache, disk, {a, b}, {});
    var ok, waiting, panicked := h.Send(P.Incremental, None, a, {}, Env([], true, {}));
  }

  lemma FewerSnaps(known: set<Abstraction>, disk: set<Abstraction>, snaps: set<Version>, snaps': set<Version>, fs: string)
    requires SnapsOk(snaps) && KnownOk(known, disk, snaps, fs) && snaps' <= snaps
    ensures SnapsOk(snaps') && KnownOk(known, disk, snaps', fs)
  {}

  /** The panic of `Send` can be reached with every job id that embeds a separator: an initial replication under the
      incremental guarantee, whose snapshot is then pruned, and a resumable step from its tentative cursor. */
  method SeparatorInJobPanics(job: string, fs: string, a: Version, b: Version) returns (panicked: bool)
    requires JobIdOk(job) && EmbedsSep(job) && fs != "" && SnapsOk({a, b}) && a != b
    requires BookmarkNamecheck(|fs|, RawName(TENTATIVE_PREFIX, a.guid, job))
    ensures panicked
  {
    var h := FirstSend(job, fs, a, b);
    FewerSnaps(h.Known(), h.disk.abs, h.snaps, {b}, fs);
    h.snaps := {b};
    MarkedIff(h.disk.abs, Tentative, fs, job, P.TentativeOf(job, a));
    var ok, waiting;
    ok, waiting, panicked := h.Send(P.Resumability, Some(P.TentativeOf(job, a)), b, {}, Env([], true, {}));
  }
}
