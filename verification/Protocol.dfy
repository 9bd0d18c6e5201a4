/** The replication guarantee protocol of one (job, filesystem): which holds and bookmarks `Send`, `Receive` and
    `SendCompleted` create and destroy, as a transition system with an adversarial environment. */
module Protocol {
  import opened Versions
  import opened Planner
  import opened Convergence
  import opened Names

  datatype Kind = Resumability | Incremental | NoGuarantee

  datatype Options = Options(initial: Kind, incremental: Kind)

  function Strategy(o: Options, incremental: bool): (k: Kind) {
    if incremental then o.incremental else o.initial
  }

  // ----- State -----

  /** What is on the sender's disk: its snapshots, the job's step holds and cursor bookmarks, and all other bookmarks. */
  datatype Sender = Sender(snaps: set<Version>, holds: set<Version>, tentative: set<Version>, cursors: set<Version>,
                           foreign: set<Version>)
  {
    function Bookmarks(): (r: set<Version>) {
      tentative + cursors + foreign
    }

    function All(): (r: set<Version>) {
      snaps + Bookmarks()
    }

    /** What keeps a guid available: what the job itself holds or has bookmarked and, unless `own`, other bookmarks. */
    function Keepers(own: bool): (r: set<Version>) {
      tentative + cursors + holds + if own then {} else foreign
    }
  }

  datatype Token = Token(from: Option<nat>, to: nat)

  /** `snaps` is in creation order; `holds` are the last-received-holds. */
  datatype Receiver = Receiver(snaps: seq<Version>, holds: set<Version>, token: Option<Token>)

  /** The one replication step that may be under way. `Received` waits for the SendCompleted message. */
  datatype Flight = Idle | Sent(from: Option<Version>, to: Version) | Received(from: Option<Version>, to: Version)

  /** `taken` remembers every snapshot ever taken on the sender. */
  datatype State = State(sender: Sender, receiver: Receiver, flight: Flight, taken: set<Version>)

  function Guid(v: Option<Version>): (g: Option<nat>) {
    if v.Some? then Some(v.value.guid) else None
  }

  function TentativeOf(job: string, v: Version): (b: Version) {
    Version(Bookmark, RawName(TENTATIVE_PREFIX, v.guid, job), v.guid, v.txg)
  }

  function CursorOf(job: string, v: Version): (b: Version) {
    Version(Bookmark, RawName(CURSOR_PREFIX, v.guid, job), v.guid, v.txg)
  }

  predicate IsSnap(v: Option<Version>) {
    v.Some? && v.value.typ.Snapshot?
  }

  // ----- Effects on the sender -----

  /** SenderPreSend. A bookmark can neither be held nor bookmarked again. */
  function PreSend(kind: Kind, job: string, s: Sender, from: Option<Version>, to: Version): (r: Sender) {
    match kind
    case Resumability => s.(holds := s.holds + LiveHolds(kind, from, to))
    case Incremental =>
      s.(tentative := s.tentative + {TentativeOf(job, to)} + if IsSnap(from) then {TentativeOf(job, from.value)} else {})
    case NoGuarantee => s
  }

  function LiveHolds(kind: Kind, from: Option<Version>, to: Version): (r: set<Version>) {
    if kind.Resumability? then {to} + if IsSnap(from) then {from.value} else {} else {}
  }

  /** The tentative cursors the cleanup of `Send` keeps: those just created, and `from` if it is a bookmark. */
  function LiveTentative(kind: Kind, job: string, from: Option<Version>, to: Version): (r: set<Version>) {
    (if kind.Incremental? then {TentativeOf(job, to)} + if from.Some? then {TentativeOf(job, from.value)} else {} else {})
    + if from.Some? && from.value.typ.Bookmark? then {from.value} else {}
  }

  /** `Send` may destroy any part of the job's other step holds and tentative cursors. */
  ghost predicate SendEffect(kind: Kind, job: string, a: Sender, from: Option<Version>, to: Version, b: Sender) {
    var c := PreSend(kind, job, a, from, to);
    && b.snaps == a.snaps && b.cursors == a.cursors && b.foreign == a.foreign
    && LiveHolds(kind, from, to) <= b.holds <= c.holds
    && LiveTentative(kind, job, from, to) * c.tentative <= b.tentative <= c.tentative
  }

  /** `Send` fails while it creates its holds and bookmarks. */
  ghost predicate AbortEffect(kind: Kind, job: string, a: Sender, from: Option<Version>, to: Version, b: Sender) {
    var c := PreSend(kind, job, a, from, to);
    && b.snaps == a.snaps && b.cursors == a.cursors && b.foreign == a.foreign
    && a.holds <= b.holds <= c.holds && a.tentative <= b.tentative <= c.tentative
  }

  /** `SendCompleted` moves the cursor and may destroy any part of everything else the job has. */
  ghost predicate CompletedEffect(kind: Kind, job: string, a: Sender, to: Version, b: Sender) {
    && b.snaps == a.snaps && b.foreign == a.foreign
    && b.holds <= a.holds && b.tentative <= a.tentative
    && b.cursors <= a.cursors + {CursorOf(job, to)}
    && (!kind.NoGuarantee? ==> CursorOf(job, to) in b.cursors)
  }

  // ----- Transitions -----

  datatype Event =
    | Take(v: Version)
    | MakeBookmark(b: Version)
    | DestroyForeign(b: Version)
    | PruneSender(v: Version)
    | PruneReceiver(i: nat)
    | Send(from: Option<Version>, to: Version, streaming: bool)
    | SendAborted(from: Option<Version>, to: Version)
    | ReceiveOk(txg: nat, fsExists: bool)
    | ReceiveFailed(token: Option<Token>)
    | Completed
    | CompletedLost

  ghost predicate Init(s: State) {
    s == State(Sender({}, {}, {}, {}, {}), Receiver([], {}, None), Idle, {})
  }

  /** Planning starts from a bookmark only where it does not find the snapshot. */
  ghost predicate PrefersSnapshot(s: Sender, from: Option<Version>) {
    from.Some? && from.value.typ.Bookmark? ==> forall v :: v in s.snaps ==> v.guid != from.value.guid
  }

  ghost predicate SendAllowed(s: State, from: Option<Version>, to: Version) {
    && s.flight.Idle?
    && to in s.sender.snaps
    && (from.Some? ==> from.value in s.sender.All()) && PrefersSnapshot(s.sender, from)
    && Guid(from) != Some(to.guid)
    && Fits(s.receiver.snaps, from)
    && (s.receiver.token.Some? ==> s.receiver.token.value == Token(Guid(from), to.guid))
  }

  function Recvd(to: Version, txg: nat): (v: Version) {
    Version(Snapshot, to.name, to.guid, txg)
  }

  ghost predicate Transition(o: Options, job: string, s: State, e: Event, s': State) {
    match e
    case Take(v) =>
      && v.typ.Snapshot?
      && (forall w :: w in s.taken ==> w.guid != v.guid && w.txg < v.txg)
      && s' == s.(sender := s.sender.(snaps := s.sender.snaps + {v}), taken := s.taken + {v})
    case MakeBookmark(b) =>
      && b.typ.Bookmark?
      && (exists v :: v in s.sender.snaps && v.guid == b.guid && v.txg == b.txg)
      && s' == s.(sender := s.sender.(foreign := s.sender.foreign + {b}))
    case DestroyForeign(b) =>
      s' == s.(sender := s.sender.(foreign := s.sender.foreign - {b}))
    case PruneSender(v) =>
      && v in s.sender.snaps - s.sender.holds
      && s' == s.(sender := s.sender.(snaps := s.sender.snaps - {v}))
    case PruneReceiver(i) =>
      && i < |s.receiver.snaps| && s.receiver.snaps[i] !in s.receiver.holds
      && s' == s.(receiver := s.receiver.(snaps := s.receiver.snaps[..i] + s.receiver.snaps[i + 1..]))
    case Send(from, to, streaming) =>
      && SendAllowed(s, from, to)
      && SendEffect(Strategy(o, from.Some?), job, s.sender, from, to, s'.sender)
      && s' == s.(sender := s'.sender, flight := if streaming then Sent(from, to) else Idle)
    case SendAborted(from, to) =>
      && SendAllowed(s, from, to)
      && AbortEffect(Strategy(o, from.Some?), job, s.sender, from, to, s'.sender)
      && s' == s.(sender := s'.sender)
    case ReceiveOk(txg, fsExists) =>
      && s.flight.Sent?
      && (forall v :: v in s.receiver.snaps ==> v.txg < txg)
      && (s.receiver.snaps != [] ==> fsExists)
      && ReceiveEffect(Strategy(o, fsExists), s.receiver, Recvd(s.flight.to, txg), s'.receiver)
      && s' == s.(receiver := s'.receiver, flight := Received(s.flight.from, s.flight.to))
    case ReceiveFailed(token) =>
      && s.flight.Sent?
      && (token == None || token == s.receiver.token || token == Some(Token(Guid(s.flight.from), s.flight.to.guid)))
      && s' == s.(receiver := s.receiver.(token := token), flight := Idle)
    case Completed =>
      && s.flight.Received? && s.flight.to in s.sender.snaps
      && (s.flight.from.Some? ==> s.flight.from.value in s.sender.All())
      && CompletedEffect(Strategy(o, s.flight.from.Some?), job, s.sender, s.flight.to, s'.sender)
      && s' == s.(sender := s'.sender, flight := Idle)
    case CompletedLost =>
      && s.flight.Received?
      && s' == s.(flight := Idle)
  }

  /** `Receive` holds the new snapshot and may release any part of the older last-received-holds. */
  ghost predicate ReceiveEffect(kind: Kind, a: Receiver, v: Version, b: Receiver) {
    && b.snaps == a.snaps + [v] && b.token == None
    && b.holds <= a.holds + {v}
    && (!kind.NoGuarantee? ==> v in b.holds)
  }

  ghost predicate MovesAt(o: Options, job: string, trace: seq<State>, i: nat) {
    i + 1 < |trace| && Next(o, job, trace[i], trace[i + 1])
  }

  ghost predicate Run(o: Options, job: string, trace: seq<State>) {
    && trace != [] && Init(trace[0])
    && forall i :: 0 <= i < |trace| - 1 ==> MovesAt(o, job, trace, i)
  }

  ghost predicate Next(o: Options, job: string, s: State, s': State) {
    exists e :: Transition(o, job, s, e, s')
  }

  // ----- Invariant -----

  /** Guid `g` is kept available on the sender, if `own` by the job itself. */
  ghost predicate Kept(own: bool, s: Sender, g: nat) {
    exists v :: v in s.Keepers(own) && v.guid == g
  }

  ghost predicate HeldGuid(s: Sender, g: nat) {
    exists v :: v in s.holds && v.guid == g
  }

  ghost predicate Known(taken: set<Version>, v: Version) {
    exists t :: t in taken && t.guid == v.guid && t.txg == v.txg
  }

  ghost predicate History(job: string, s: State) {
    && (forall t, u {:trigger Agree(t, u)} :: t in s.taken && u in s.taken ==> Agree(t, u))
    && s.sender.snaps <= s.taken && s.sender.holds <= s.sender.snaps
    && (forall v :: v in s.taken ==> v.typ.Snapshot?)
    && (forall b :: b in s.sender.Bookmarks() ==> b.typ.Bookmark? && Known(s.taken, b))
    && (forall b :: b in s.sender.tentative ==> b == TentativeOf(job, b))
  }

  ghost predicate ReceiverOk(s: State) {
    var rs := s.receiver.snaps;
    ReceiverList(rs) && (rs != [] ==> rs[|rs| - 1] in s.receiver.holds)
  }

  predicate FitsGuid(rs: seq<Version>, g: Option<nat>) {
    if g.None? then rs == [] else rs != [] && rs[|rs| - 1].guid == g.value
  }

  /** Whatever the options: a token of a step under resumability has its target step-held. */
  ghost predicate TokenOk(o: Options, s: State) {
    s.receiver.token.Some? ==>
      var t := s.receiver.token.value;
      t.from != Some(t.to) && (Strategy(o, t.from.Some?).Resumability? ==> HeldGuid(s.sender, t.to))
  }

  ghost predicate FlightOk(o: Options, s: State) {
    match s.flight
    case Idle => true
    case Sent(from, to) =>
      && Guid(from) != Some(to.guid)
      && (Strategy(o, from.Some?).Resumability? ==> to in s.sender.holds)
      && (s.receiver.token.Some? ==> s.receiver.token.value == Token(Guid(from), to.guid))
    case Received(from, to) => s.receiver.token == None
  }

  ghost predicate Safe(o: Options, job: string, s: State) {
    History(job, s) && TokenOk(o, s) && FlightOk(o, s)
  }

  /** Token and step under way start where the receiver is. */
  ghost predicate FitsOk(s: State) {
    && (s.receiver.token.Some? ==> FitsGuid(s.receiver.snaps, s.receiver.token.value.from))
    && (s.flight.Sent? ==> Fits(s.receiver.snaps, s.flight.from))
    && (s.flight.Received? ==> FitsGuid(s.receiver.snaps, Some(s.flight.to.guid)))
  }

  ghost predicate Guarded(o: Options) {
    !o.initial.NoGuarantee? && !o.incremental.NoGuarantee?
  }

  /** Guarded, and no step destroys the tentative cursors another kind of step relies on. */
  ghost predicate OwnGuarded(o: Options) {
    Guarded(o) && !(o.initial.Incremental? && o.incremental.Resumability?)
  }

  /** What does not depend on which versions the sender keeps. */
  ghost predicate Core(o: Options, job: string, s: State) {
    Safe(o, job, s) && ReceiverOk(s) && FitsOk(s)
  }

  /** What the next step starts from is kept, and so is what the step under way may make it start from. */
  ghost predicate BaseOk(own: bool, o: Options, s: State) {
    && (s.receiver.snaps != [] ==> Kept(own, s.sender, s.receiver.snaps[|s.receiver.snaps| - 1].guid))
    && (s.flight.Sent? ==> Kept(own, s.sender, s.flight.to.guid))
    && (own && o.incremental.Resumability? ==> s.sender.tentative == {})
  }

  ghost predicate Inv(own: bool, o: Options, job: string, s: State) {
    Core(o, job, s) && BaseOk(own, o, s)
  }

  lemma HistoryStep(o: Options, job: string, s: State, e: Event, s': State)
    requires History(job, s) && Transition(o, job, s, e, s')
    ensures History(job, s')
  {
    if e.Send? || e.SendAborted? {
      PreSendKnown(Strategy(o, e.from.Some?), job, s, e.from, e.to);
    } else if e.Completed? {
      assert Known(s.taken, CursorOf(job, s.flight.to));
    } else if e.Take? {
      forall b | b in s'.sender.Bookmarks() ensures Known(s'.taken, b) {
        assert Known(s.taken, b);
      }
    }
  }

  lemma PreSendKnown(kind: Kind, job: string, s: State, from: Option<Version>, to: Version)
    requires History(job, s) && SendAllowed(s, from, to)
    ensures var c := PreSend(kind, job, s.sender, from, to);
            && c.holds <= s.sender.snaps
            && (forall b :: b in c.Bookmarks() ==> b.typ.Bookmark? && Known(s.taken, b))
            && (forall b :: b in c.tentative ==> b == TentativeOf(job, b))
  {
    var c := PreSend(kind, job, s.sender, from, to);
    assert Known(s.taken, TentativeOf(job, to));
    if IsSnap(from) {
      assert from.value in s.sender.snaps;
      assert Known(s.taken, TentativeOf(job, from.value));
    }
  }

  /** After `Send` the target is kept by the job itself. */
  lemma SendProtectsTarget(kind: Kind, job: string, s: State, from: Option<Version>, to: Version, b: Sender, own: bool)
    requires SendEffect(kind, job, s.sender, from, to, b) && !kind.NoGuarantee?
    ensures Kept(own, b, to.guid)
    ensures kind.Resumability? ==> to in b.holds
  {
    if kind.Incremental? {
      assert TentativeOf(job, to) in b.Keepers(own);
    } else {
      assert to in b.Keepers(own);
    }
  }

  /** After `Send` what the step starts from is still kept. Where it starts from somebody else's bookmark, the job's own
      cursor or tentative cursor survives. */
  lemma SendProtectsFrom(kind: Kind, job: string, s: State, from: Version, to: Version, b: Sender, own: bool)
    requires History(job, s) && SendAllowed(s, Some(from), to) && SendEffect(kind, job, s.sender, Some(from), to, b)
    requires !kind.NoGuarantee? && Kept(own, s.sender, from.guid)
    requires own && kind.Resumability? ==> s.sender.tentative == {}
    ensures Kept(own, b, from.guid)
  {
    if from.typ.Snapshot? {
      if kind.Incremental? {
        assert TentativeOf(job, from) in b.Keepers(own);
      } else {
        assert from in b.Keepers(own);
      }
    } else if from in s.sender.tentative + s.sender.cursors || !own {
      assert from in b.Keepers(own);
    } else {
      var v :| v in s.sender.Keepers(own) && v.guid == from.guid;
      if v in s.sender.tentative {
        SameTentative(job, s, from, v);
      }
      assert v in b.Keepers(own);
    }
  }

  lemma SameTentative(job: string, s: State, from: Version, v: Version)
    requires History(job, s) && from in s.sender.Bookmarks() && v in s.sender.tentative && v.guid == from.guid
    ensures v == TentativeOf(job, from)
  {
    assert Known(s.taken, from) && Known(s.taken, v);
    var t :| t in s.taken && t.guid == from.guid && t.txg == from.txg;
    var u :| u in s.taken && u.guid == v.guid && u.txg == v.txg;
    assert Agree(t, u);
  }

  lemma RemoveKeepsList(rs: seq<Version>, i: nat)
    requires ReceiverList(rs) && i < |rs| - 1
    ensures ReceiverList(rs[..i] + rs[i + 1..])
    ensures (rs[..i] + rs[i + 1..])[|rs| - 2] == rs[|rs| - 1]
  {
    var rs' := rs[..i] + rs[i + 1..];
    assert forall k :: 0 <= k < |rs'| ==> rs'[k] == rs[if k < i then k else k + 1];
  }

  lemma ReceiveKeepsList(rs: seq<Version>, v: Version)
    requires ReceiverList(rs) && v.typ.Snapshot? && forall w :: w in rs ==> w.txg < v.txg
    ensures ReceiverList(rs + [v])
  {
    forall i | 0 <= i < |rs| ensures rs[i].txg < v.txg {
      assert rs[i] in rs;
    }
  }

  /** Pruning on the receiver never removes the newest snapshot. */
  lemma PruneKeepsNewest(o: Options, job: string, s: State, e: Event, s': State)
    requires ReceiverOk(s) && Transition(o, job, s, e, s') && e.PruneReceiver?
    ensures ReceiverList(s'.receiver.snaps) && s'.receiver.snaps != []
    ensures s'.receiver.snaps[|s'.receiver.snaps| - 1] == s.receiver.snaps[|s.receiver.snaps| - 1]
  {
    var rs := s.receiver.snaps;
    assert e.i < |rs| - 1;
    RemoveKeepsList(rs, e.i);
    assert s'.receiver.snaps[|rs| - 2] == rs[|rs| - 1];
  }

  lemma SafeStep(o: Options, job: string, s: State, e: Event, s': State)
    requires Safe(o, job, s) && Transition(o, job, s, e, s')
    ensures Safe(o, job, s')
  {
    HistoryStep(o, job, s, e, s');
    if e.Send? {
      assert Strategy(o, e.from.Some?).Resumability? ==> e.to in s'.sender.holds;
    } else if !e.Completed? && !e.ReceiveFailed? {
      HoldsGrow(s, s');
    }
  }

  lemma CoreStep(o: Options, job: string, s: State, e: Event, s': State)
    requires Guarded(o) && Core(o, job, s) && Transition(o, job, s, e, s')
    ensures Core(o, job, s')
  {
    SafeStep(o, job, s, e, s');
    if e.ReceiveOk? {
      ReceiveKeepsList(s.receiver.snaps, Recvd(s.flight.to, e.txg));
    } else if e.PruneReceiver? {
      PruneKeepsNewest(o, job, s, e, s');
    }
  }

  lemma HoldsGrow(s: State, s': State)
    requires s.sender.holds <= s'.sender.holds
    ensures forall g :: HeldGuid(s.sender, g) ==> HeldGuid(s'.sender, g)
  {}

  lemma KeepersGrow(own: bool, s: State, s': State)
    requires s.sender.Keepers(own) <= s'.sender.Keepers(own)
    ensures forall g :: Kept(own, s.sender, g) ==> Kept(own, s'.sender, g)
  {}

  /** When protection is promised: by the job itself for the right options, and otherwise while nobody destroys
      other bookmarks. */
  ghost predicate Promised(own: bool, o: Options, s: State, s': State) {
    if own then OwnGuarded(o) else Guarded(o) && s.sender.foreign <= s'.sender.foreign
  }

  lemma BaseStep(own: bool, o: Options, job: string, s: State, e: Event, s': State)
    requires Promised(own, o, s, s') && Inv(own, o, job, s) && Transition(o, job, s, e, s')
    ensures BaseOk(own, o, s')
  {
    if e.Send? {
      SendKeepsBase(own, o, job, s, e, s');
    } else if e.Completed? {
      assert CursorOf(job, s.flight.to) in s'.sender.Keepers(own);
    } else if e.PruneReceiver? {
      PruneKeepsNewest(o, job, s, e, s');
    } else {
      KeepersGrow(own, s, s');
    }
  }

  lemma SendKeepsBase(own: bool, o: Options, job: string, s: State, e: Event, s': State)
    requires Promised(own, o, s, s') && Inv(own, o, job, s) && Transition(o, job, s, e, s') && e.Send?
    ensures BaseOk(own, o, s')
  {
    var kind := Strategy(o, e.from.Some?);
    SendProtectsTarget(kind, job, s, e.from, e.to, s'.sender, own);
    if e.from.Some? {
      SendProtectsFrom(kind, job, s, e.from.value, e.to, s'.sender, own);
    }
  }

  /** Every step of the protocol and of its environment keeps the invariant. */
  lemma InvStep(own: bool, o: Options, job: string, s: State, e: Event, s': State)
    requires Promised(own, o, s, s') && Inv(own, o, job, s) && Transition(o, job, s, e, s')
    ensures Inv(own, o, job, s')
  {
    CoreStep(o, job, s, e, s');
    BaseStep(own, o, job, s, e, s');
  }

  ghost predicate PromisedAt(own: bool, o: Options, trace: seq<State>, i: nat) {
    i + 1 < |trace| && Promised(own, o, trace[i], trace[i + 1])
  }

  /** The promise for a whole run. */
  ghost predicate PromisedOn(own: bool, o: Options, trace: seq<State>) {
    if own then OwnGuarded(o) else Guarded(o) && forall i :: 0 <= i < |trace| - 1 ==> PromisedAt(own, o, trace, i)
  }

  lemma {:induction false} SafeOnRun(o: Options, job: string, trace: seq<State>, i: nat)
    requires Run(o, job, trace) && i < |trace|
    ensures Safe(o, job, trace[i])
  {
    if i > 0 {
      SafeOnRun(o, job, trace, i - 1);
      assert MovesAt(o, job, trace, i - 1);
      var e :| Transition(o, job, trace[i - 1], e, trace[i]);
      SafeStep(o, job, trace[i - 1], e, trace[i]);
    }
  }

  /** The invariant holds in every state of every run. */
  lemma {:induction false} InvOnRun(own: bool, o: Options, job: string, trace: seq<State>, i: nat)
    requires Run(o, job, trace) && PromisedOn(own, o, trace) && i < |trace|
    ensures Inv(own, o, job, trace[i])
  {
    if i > 0 {
      InvOnRun(own, o, job, trace, i - 1);
      assert MovesAt(o, job, trace, i - 1);
      assert own || PromisedAt(own, o, trace, i - 1);
      var e :| Transition(o, job, trace[i - 1], e, trace[i]);
      InvStep(own, o, job, trace[i - 1], e, trace[i]);
    }
  }

  ghost predicate Reachable(o: Options, job: string, s: State) {
    exists trace :: Run(o, job, trace) && trace[|trace| - 1] == s
  }

  lemma ReachableInit(o: Options, job: string, s: State)
    requires Init(s)
    ensures Reachable(o, job, s)
  {
    assert Run(o, job, [s]) && [s][0] == s;
  }

  lemma ReachableNext(o: Options, job: string, s: State, e: Event, s': State)
    requires Reachable(o, job, s) && Transition(o, job, s, e, s')
    ensures Reachable(o, job, s')
  {
    var trace :| Run(o, job, trace) && trace[|trace| - 1] == s;
    var t := trace + [s'];
    forall i | 0 <= i < |t| - 1 ensures MovesAt(o, job, t, i) {
      assert i < |trace| - 1 ==> MovesAt(o, job, trace, i);
    }
    assert t[|t| - 1] == s';
  }
}
