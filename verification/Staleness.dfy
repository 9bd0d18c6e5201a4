/** Which holds and cursors of a listing are stale. */
module Staleness {
  import opened Versions
  import opened Names
  import opened Abstractions

  datatype Bound = Bound(txg: nat, inclusive: bool)

  /** The since bound of the listing, and the environment's switch that allows bounds with createtxg zero. */
  datatype Limits = Limits(since: Option<Bound>, allowZero: bool)

  /** The range of createtxgs both ends inclusive, or an error. */
  datatype Range = Bad | Range(since: Option<nat>, until: Option<nat>)

  /** A bound at createtxg zero is taken for a programming error. */
  predicate BoundOk(b: Option<Bound>, allowZero: bool) {
    b.Some? && b.value.txg == 0 ==> allowZero
  }

  /** The validated range: both bounds by themselves, then what they amount to. */
  function ValidRange(l: Limits, until: Option<Bound>): (r: Range) {
    if !BoundOk(l.since, l.allowZero) || !BoundOk(until, l.allowZero) then Bad else EffectiveBounds(l.since, until)
  }

  function EffectiveBounds(since: Option<Bound>, until: Option<Bound>): (r: Range) {
    if since.Some? && !since.value.inclusive && since.value.txg == MAX_UINT64 then Bad
    else if until.Some? && !until.value.inclusive && until.value.txg == 0 then Bad
    else
      var s := if since.None? then None else if since.value.inclusive then Some(since.value.txg) else Some(since.value.txg + 1);
      var u := if until.None? then None else if until.value.inclusive then Some(until.value.txg) else Some(until.value.txg - 1);
      if s.Some? && u.Some? && s.value >= u.value then Bad else Range(s, u)
  }

  predicate Contains(r: Range, txg: nat)
    requires r.Range?
  {
    (r.since.None? || r.since.value <= txg) && (r.until.None? || txg <= r.until.value)
  }

  /** A createtxg within both bounds. */
  predicate Within(since: Option<Bound>, until: Option<Bound>, t: nat) {
    && t <= MAX_UINT64
    && (since.Some? ==> if since.value.inclusive then since.value.txg <= t else since.value.txg < t)
    && (until.Some? ==> if until.value.inclusive then t <= until.value.txg else t < until.value.txg)
  }

  /** A range contains what is within its bounds, and is valid iff no bound is a zero that is not allowed and something is
      within the bounds; with both bounds given, one createtxg is not enough. */
  lemma ValidRangeExact(l: Limits, until: Option<Bound>)
    requires (l.since.Some? ==> l.since.value.txg <= MAX_UINT64) && (until.Some? ==> until.value.txg <= MAX_UINT64)
    ensures var r := ValidRange(l, until);
            && (r.Range? ==> forall t: nat | t <= MAX_UINT64 :: Contains(r, t) <==> Within(l.since, until, t))
            && (r.Range? <==>
                  && BoundOk(l.since, l.allowZero) && BoundOk(until, l.allowZero)
                  && exists t :: Within(l.since, until, t)
                                 && (l.since.Some? && until.Some? ==> exists u :: u != t && Within(l.since, until, u)))
  {
    var since := l.since;
    var s := if since.None? then 0 else if since.value.inclusive then since.value.txg else since.value.txg + 1;
    var u := if until.None? then MAX_UINT64 else if until.value.inclusive then until.value.txg else until.value.txg - 1;
    assert forall t: nat :: Within(since, until, t) <==> s <= t <= u;
    if ValidRange(l, until).Range? {
      assert Within(since, until, s);
      assert since.Some? && until.Some? ==> Within(since, until, s + 1);
    }
  }

  /** Filesystem, job and type by which the listing is grouped. */
  datatype Key = Key(fs: string, job: string, typ: AbsType)

  predicate Has(a: Abstraction, k: Key) {
    a.fs == k.fs && a.job == Some(k.job) && a.typ == k.typ
  }

  function KeyOf(a: Abstraction): (r: Key)
    requires a.job.Some?
  {
    Key(a.fs, a.job.value, a.typ)
  }

  function Group(abs: seq<Abstraction>, k: Key): (r: seq<Abstraction>) {
    if abs == [] then []
    else if Has(abs[|abs| - 1], k) then Group(abs[..|abs| - 1], k) + [abs[|abs| - 1]]
    else Group(abs[..|abs| - 1], k)
  }

  function WithoutJob(abs: seq<Abstraction>): (r: seq<Abstraction>) {
    if abs == [] then []
    else if abs[|abs| - 1].job.None? then WithoutJob(abs[..|abs| - 1]) + [abs[|abs| - 1]]
    else WithoutJob(abs[..|abs| - 1])
  }

  /** The greatest createtxg of a group. */
  function Newest(abs: seq<Abstraction>, k: Key): (r: Option<nat>) {
    if abs == [] then None
    else
      var (rest, a) := (Newest(abs[..|abs| - 1], k), abs[|abs| - 1]);
      if Has(a, k) && (rest.None? || rest.value < a.version.txg) then Some(a.version.txg) else rest
  }

  lemma {:induction false} NewestIs(abs: seq<Abstraction>, k: Key)
    ensures Newest(abs, k).None? <==> forall a :: a in abs ==> !Has(a, k)
    ensures Newest(abs, k).Some? ==> exists a :: a in abs && Has(a, k) && a.version.txg == Newest(abs, k).value
    ensures forall a :: a in abs && Has(a, k) ==> Newest(abs, k).Some? && a.version.txg <= Newest(abs, k).value
  {
    if abs != [] {
      NewestIs(abs[..|abs| - 1], k);
      assert abs == abs[..|abs| - 1] + [abs[|abs| - 1]];
      if Newest(abs, k).Some? {
        if Newest(abs, k) == Newest(abs[..|abs| - 1], k) {
          var a :| a in abs[..|abs| - 1] && Has(a, k) && a.version.txg == Newest(abs, k).value;
          assert a in abs;
        } else {
          assert abs[|abs| - 1] in abs;
        }
      }
    }
  }

  /** Up to where step holds of a job are stale: the newest cursor, or before the newest step hold. */
  function StepBound(abs: seq<Abstraction>, fs: string, job: string): (r: Option<Bound>) {
    var cursor, step := Newest(abs, Key(fs, job, CursorV2)), Newest(abs, Key(fs, job, StepHold));
    if cursor.Some? then Some(Bound(cursor.value, true))
    else if step.Some? then Some(Bound(step.value, false))
    else None
  }

  function StepRange(abs: seq<Abstraction>, limits: Limits, k: Key): (r: Range) {
    ValidRange(limits, StepBound(abs, k.fs, k.job))
  }

  predicate IsMoved(t: AbsType) {
    t.CursorV2? || t.LastReceivedHold?
  }

  /** The sides a group is split into. */
  ghost predicate GroupSplit(abs: seq<Abstraction>, limits: Limits, k: Key, live: seq<Abstraction>, stale: seq<Abstraction>) {
    && multiset(live) + multiset(stale) == multiset(Group(abs, k))
    && (k.typ.StepHold? ==>
          && StepRange(abs, limits, k).Range?
          && (forall a :: a in live ==> !Contains(StepRange(abs, limits, k), a.version.txg))
          && (forall a :: a in stale ==> Contains(StepRange(abs, limits, k), a.version.txg)))
    && (IsMoved(k.typ) ==>
          (Group(abs, k) == [] && live == []) || (|live| == 1 && Newest(abs, k) == Some(live[0].version.txg)))
    && (!k.typ.StepHold? && !IsMoved(k.typ) ==> stale == [])
  }

  lemma {:induction false} GroupIs(abs: seq<Abstraction>, k: Key)
    ensures forall a :: a in Group(abs, k) <==> a in abs && Has(a, k)
  {
    if abs != [] {
      GroupIs(abs[..|abs| - 1], k);
      assert abs == abs[..|abs| - 1] + [abs[|abs| - 1]];
    }
  }

  // Splitting one group.

  method SplitSteps(l: seq<Abstraction>, r: Range) returns (live: seq<Abstraction>, stale: seq<Abstraction>)
    requires r.Range?
    ensures multiset(live) + multiset(stale) == multiset(l)
    ensures forall a :: a in live ==> !Contains(r, a.version.txg)
    ensures forall a :: a in stale ==> Contains(r, a.version.txg)
  {
    live, stale := [], [];
    for i := 0 to |l|
      invariant multiset(live) + multiset(stale) == multiset(l[..i])
      invariant forall a :: a in live ==> !Contains(r, a.version.txg)
      invariant forall a :: a in stale ==> Contains(r, a.version.txg)
    {
      assert l[..i + 1] == l[..i] + [l[i]];
      if Contains(r, l[i].version.txg) {
        stale := stale + [l[i]];
      } else {
        live := live + [l[i]];
      }
    }
    assert l[..|l|] == l;
  }

  /** The first of the group sorted by descending createtxg, and the rest; ties in any order. */
  method SplitNewest(l: seq<Abstraction>) returns (live: seq<Abstraction>, stale: seq<Abstraction>)
    requires l != []
    ensures |live| == 1 && multiset(live) + multiset(stale) == multiset(l)
    ensures forall a :: a in l ==> a.version.txg <= live[0].version.txg
  {
    var n := 0;
    for i := 1 to |l|
      invariant 0 <= n < |l|
      invariant forall k :: 0 <= k < i ==> l[k].version.txg <= l[n].version.txg
    {
      if l[i].version.txg > l[n].version.txg {
        n := i;
      }
    }
    live, stale := [l[n]], l[..n] + l[n + 1..];
    PickOut(l, n);
  }

  lemma PickOut(l: seq<Abstraction>, n: nat)
    requires n < |l|
    ensures multiset([l[n]]) + multiset(l[..n] + l[n + 1..]) == multiset(l)
  {
    assert l == l[..n] + [l[n]] + l[n + 1..];
  }

  // The whole listing.

  /** What is placed when the groups of `left` are not. */
  function Placed(abs: seq<Abstraction>, left: set<Key>): (r: seq<Abstraction>) {
    if abs == [] then []
    else
      var (rest, a) := (Placed(abs[..|abs| - 1], left), abs[|abs| - 1]);
      if a.job.Some? && KeyOf(a) in left then rest else rest + [a]
  }

  lemma {:induction false} PlaceGroup(abs: seq<Abstraction>, left: set<Key>, k: Key)
    requires k in left
    ensures multiset(Placed(abs, left - {k})) == multiset(Placed(abs, left)) + multiset(Group(abs, k))
  {
    if abs != [] {
      PlaceGroup(abs[..|abs| - 1], left, k);
    }
  }

  lemma {:induction false} PlacedEnds(abs: seq<Abstraction>, keys: set<Key>)
    requires forall a :: a in abs && a.job.Some? ==> KeyOf(a) in keys
    ensures Placed(abs, keys) == WithoutJob(abs) && Placed(abs, {}) == abs
  {
    if abs != [] {
      assert abs == abs[..|abs| - 1] + [abs[|abs| - 1]];
      PlacedEnds(abs[..|abs| - 1], keys);
    }
  }

  predicate StaleStep(abs: seq<Abstraction>, limits: Limits, a: Abstraction)
    requires a.job.Some?
  {
    var r := StepRange(abs, limits, KeyOf(a));
    r.Range? && Contains(r, a.version.txg)
  }

  /** Only step holds in their stale range, and cursors and last-received-holds, are stale. */
  predicate StaleOk(abs: seq<Abstraction>, limits: Limits, a: Abstraction) {
    a.job.Some? && if a.typ.StepHold? then StaleStep(abs, limits, a) else IsMoved(a.typ)
  }

  predicate LiveOk(abs: seq<Abstraction>, limits: Limits, a: Abstraction) {
    a.job.Some? && a.typ.StepHold? ==> !StaleStep(abs, limits, a)
  }

  /** The newest of the group lives. */
  ghost predicate NewestLives(abs: seq<Abstraction>, k: Key, live: seq<Abstraction>) {
    exists l :: l in live && Has(l, k) && Newest(abs, k) == Some(l.version.txg)
  }

  predicate SameMoved(a: Abstraction, b: Abstraction) {
    a.job.Some? && b.job.Some? && IsMoved(a.typ) && KeyOf(a) == KeyOf(b)
  }

  /** At most one cursor and one last-received-hold per filesystem and job. */
  predicate OneEach(live: seq<Abstraction>) {
    forall i, j :: 0 <= i < j < |live| ==> !SameMoved(live[i], live[j])
  }

  ghost predicate Partial(abs: seq<Abstraction>, limits: Limits, left: set<Key>, live: seq<Abstraction>, stale: seq<Abstraction>) {
    && multiset(live) + multiset(stale) == multiset(Placed(abs, left))
    && (forall a :: a in live && a.job.Some? ==> KeyOf(a) !in left)
    && (forall a :: a in stale ==> StaleOk(abs, limits, a))
    && (forall a :: a in live ==> LiveOk(abs, limits, a))
    && (forall k :: k !in left && IsMoved(k.typ) && Newest(abs, k).Some? ==> NewestLives(abs, k, live))
    && OneEach(live)
  }

  /** Live and stale are a partition as multisets, into what may be stale and what may live. */
  ghost predicate Filtered(abs: seq<Abstraction>, limits: Limits, live: seq<Abstraction>, stale: seq<Abstraction>) {
    && multiset(live) + multiset(stale) == multiset(abs)
    && (forall a :: a in stale ==> StaleOk(abs, limits, a))
    && (forall a :: a in live ==> LiveOk(abs, limits, a))
    && (forall k: Key :: IsMoved(k.typ) && Newest(abs, k).Some? ==> NewestLives(abs, k, live))
    && OneEach(live)
  }

  lemma InEither(live: seq<Abstraction>, stale: seq<Abstraction>, all: seq<Abstraction>, a: Abstraction)
    requires multiset(live) + multiset(stale) == multiset(all)
    ensures a in live || a in stale <==> a in all
  {
    assert a in all <==> a in multiset(all);
    assert a in live <==> a in multiset(live);
    assert a in stale <==> a in multiset(stale);
  }

  lemma GroupHas(abs: seq<Abstraction>, limits: Limits, k: Key, lk: seq<Abstraction>, sk: seq<Abstraction>)
    requires GroupSplit(abs, limits, k, lk, sk)
    ensures forall a :: a in lk || a in sk ==> Has(a, k)
  {
    GroupIs(abs, k);
    forall a | a in lk || a in sk ensures Has(a, k) {
      InEither(lk, sk, Group(abs, k), a);
    }
  }

  lemma OneEachNext(left: set<Key>, k: Key, live: seq<Abstraction>, lk: seq<Abstraction>)
    requires k in left && OneEach(live) && (forall a :: a in live && a.job.Some? ==> KeyOf(a) !in left)
    requires (forall a :: a in lk ==> Has(a, k)) && (IsMoved(k.typ) ==> |lk| <= 1)
    ensures OneEach(live + lk)
  {
    var all := live + lk;
    forall i, j | 0 <= i < j < |all| ensures !SameMoved(all[i], all[j]) {
      if j < |live| {
        assert all[i] == live[i] && all[j] == live[j];
      } else {
        assert all[j] in lk;
        if i < |live| {
          assert all[i] in live;
        } else {
          assert all[i] in lk;
        }
      }
    }
  }

  lemma NewestNext(abs: seq<Abstraction>, limits: Limits, left: set<Key>, k: Key, live: seq<Abstraction>, lk: seq<Abstraction>, sk: seq<Abstraction>)
    requires k in left && GroupSplit(abs, limits, k, lk, sk)
    requires forall k' :: k' !in left && IsMoved(k'.typ) && Newest(abs, k').Some? ==> NewestLives(abs, k', live)
    ensures forall k' :: k' !in left - {k} && IsMoved(k'.typ) && Newest(abs, k').Some? ==> NewestLives(abs, k', live + lk)
  {
    GroupHas(abs, limits, k, lk, sk);
    NewestIs(abs, k);
    GroupIs(abs, k);
    forall k' | k' !in left - {k} && IsMoved(k'.typ) && Newest(abs, k').Some? ensures NewestLives(abs, k', live + lk) {
      if k' == k {
        assert Group(abs, k) != [];
        assert lk[0] in live + lk && Has(lk[0], k);
      } else {
        assert NewestLives(abs, k', live);
        var l :| l in live && Has(l, k') && Newest(abs, k') == Some(l.version.txg);
        assert l in live + lk;
      }
    }
  }

  lemma PartialNext(abs: seq<Abstraction>, limits: Limits, left: set<Key>, k: Key,
                    live: seq<Abstraction>, stale: seq<Abstraction>, lk: seq<Abstraction>, sk: seq<Abstraction>)
    requires k in left && Partial(abs, limits, left, live, stale) && GroupSplit(abs, limits, k, lk, sk)
    ensures Partial(abs, limits, left - {k}, live + lk, stale + sk)
  {
    PlaceGroup(abs, left, k);
    GroupHas(abs, limits, k, lk, sk);
    OneEachNext(left, k, live, lk);
    NewestNext(abs, limits, left, k, live, lk, sk);
    forall a | a in stale + sk ensures StaleOk(abs, limits, a) {
      assert a in stale || a in sk;
    }
  }

  /** One more element adds to its own group only. */
  lemma GroupNext(abs: seq<Abstraction>, i: nat)
    requires i < |abs|
    ensures forall k :: Group(abs[..i + 1], k) == if Has(abs[i], k) then Group(abs[..i], k) + [abs[i]] else Group(abs[..i], k)
    ensures WithoutJob(abs[..i + 1]) == WithoutJob(abs[..i]) + if abs[i].job.None? then [abs[i]] else []
  {
    assert abs[..i + 1][..i] == abs[..i];
  }

  /** The groups so far: all that are not empty. */
  ghost predicate Grouped(abs: seq<Abstraction>, groups: map<Key, seq<Abstraction>>) {
    forall k {:trigger Group(abs, k)} :: if k in groups then groups[k] == Group(abs, k) != [] else Group(abs, k) == []
  }

  lemma GroupedNext(abs: seq<Abstraction>, i: nat, groups: map<Key, seq<Abstraction>>, l: seq<Abstraction>)
    requires i < |abs| && abs[i].job.Some? && Grouped(abs[..i], groups) && l == Group(abs[..i], KeyOf(abs[i]))
    ensures Grouped(abs[..i + 1], groups[KeyOf(abs[i]) := l + [abs[i]]])
  {
    GroupNext(abs, i);
    forall k: Key ensures Has(abs[i], k) <==> k == KeyOf(abs[i]) {}
  }

  lemma GroupedSame(abs: seq<Abstraction>, i: nat, groups: map<Key, seq<Abstraction>>)
    requires i < |abs| && abs[i].job.None? && Grouped(abs[..i], groups)
    ensures Grouped(abs[..i + 1], groups)
  {
    GroupNext(abs, i);
  }

  lemma GroupedCovers(abs: seq<Abstraction>, groups: map<Key, seq<Abstraction>>)
    requires Grouped(abs, groups)
    ensures forall k :: k in groups ==> groups[k] == Group(abs, k) && groups[k] != []
    ensures forall a :: a in abs && a.job.Some? ==> KeyOf(a) in groups
  {
    forall k | k in groups ensures groups[k] == Group(abs, k) && groups[k] != [] {}
    forall a | a in abs && a.job.Some? ensures KeyOf(a) in groups {
      GroupIs(abs, KeyOf(a));
      assert a in Group(abs, KeyOf(a));
    }
  }

  method GroupBy(abs: seq<Abstraction>) returns (noJobId: seq<Abstraction>, groups: map<Key, seq<Abstraction>>)
    ensures noJobId == WithoutJob(abs)
    ensures forall k :: k in groups ==> groups[k] == Group(abs, k) && groups[k] != []
    ensures forall a :: a in abs && a.job.Some? ==> KeyOf(a) in groups
  {
    noJobId, groups := [], map[];
    for i := 0 to |abs|
      invariant noJobId == WithoutJob(abs[..i]) && Grouped(abs[..i], groups)
    {
      var a := abs[i];
      GroupNext(abs, i);
      if a.job.None? {
        GroupedSame(abs, i, groups);
        noJobId := noJobId + [a];
        continue;
      }
      var k := KeyOf(a);
      var l := if k in groups then groups[k] else [];
      assert l == Group(abs[..i], k);
      GroupedNext(abs, i, groups, l);
      groups := groups[k := l + [a]];
    }
    assert abs[..|abs|] == abs;
    GroupedCovers(abs, groups);
  }

  datatype Candidate = Candidate(cursor: Option<nat>, step: Option<nat>)

  function CandidateAt(m: map<(string, string), Candidate>, fs: string, job: string): (r: Candidate) {
    if (fs, job) in m then m[(fs, job)] else Candidate(None, None)
  }

  /** Newest cursor and newest step hold per filesystem and job. */
  method Candidates(abs: seq<Abstraction>) returns (m: map<(string, string), Candidate>)
    ensures forall fs, job :: CandidateAt(m, fs, job) ==
                              Candidate(Newest(abs, Key(fs, job, CursorV2)), Newest(abs, Key(fs, job, StepHold)))
  {
    m := map[];
    for i := 0 to |abs|
      invariant forall fs, job :: CandidateAt(m, fs, job) ==
                                  Candidate(Newest(abs[..i], Key(fs, job, CursorV2)), Newest(abs[..i], Key(fs, job, StepHold)))
    {
      var a := abs[i];
      assert abs[..i + 1][..i] == abs[..i];
      if a.job.None? {
        continue;
      }
      var c := CandidateAt(m, a.fs, a.job.value);
      match a.typ {
        case CursorV2 =>
          if c.cursor.None? || c.cursor.value < a.version.txg {
            c := c.(cursor := Some(a.version.txg));
          }
        case StepHold =>
          if c.step.None? || c.step.value < a.version.txg {
            c := c.(step := Some(a.version.txg));
          }
        case _ =>
          continue;
      }
      m := m[(a.fs, a.job.value) := c];
    }
    assert abs[..|abs|] == abs;
  }

  method SplitGroup(ghost abs: seq<Abstraction>, limits: Limits, k: Key, l: seq<Abstraction>, c: Candidate)
    returns (panicked: bool, live: seq<Abstraction>, stale: seq<Abstraction>)
    requires l == Group(abs, k) != []
    requires c == Candidate(Newest(abs, Key(k.fs, k.job, CursorV2)), Newest(abs, Key(k.fs, k.job, StepHold)))
    ensures panicked <==> k.typ.StepHold? && StepRange(abs, limits, k).Bad?
    ensures !panicked ==> GroupSplit(abs, limits, k, live, stale)
  {
    live, stale := [], [];
    if k.typ.StepHold? {
      var until: Option<Bound> := None;
      if c.cursor.Some? {
        until := Some(Bound(c.cursor.value, true));
      } else if c.step.Some? {
        until := Some(Bound(c.step.value, false));
      }
      var r := ValidRange(limits, until);
      if r.Bad? {
        return true, [], [];
      }
      live, stale := SplitSteps(l, r);
      return false, live, stale;
    }
    if k.typ.CursorV2? || k.typ.LastReceivedHold? {
      live, stale := SplitNewest(l);
      assert live[0] in multiset(live) + multiset(stale);
      assert live[0] in multiset(l);
      NewestOfGroup(abs, k, live[0]);
      return false, live, stale;
    }
    return false, l, [];
  }

  lemma NewestOfGroup(abs: seq<Abstraction>, k: Key, n: Abstraction)
    requires n in Group(abs, k) && forall a :: a in Group(abs, k) ==> a.version.txg <= n.version.txg
    ensures Newest(abs, k) == Some(n.version.txg)
  {
    GroupIs(abs, k);
    NewestIs(abs, k);
    var a :| a in abs && Has(a, k) && a.version.txg == Newest(abs, k).value;
    assert a in Group(abs, k);
  }

  /** A step hold whose range of stale createtxgs is no valid range. */
  ghost predicate BadStep(abs: seq<Abstraction>, limits: Limits) {
    exists a :: a in abs && a.job.Some? && a.typ.StepHold? && StepRange(abs, limits, KeyOf(a)).Bad?
  }

  /** Splits the listing, or panics, which it does iff some step hold's range is not valid. */
  method ListStaleFiltering(abs: seq<Abstraction>, limits: Limits)
    returns (panicked: bool, live: seq<Abstraction>, stale: seq<Abstraction>)
    ensures panicked <==> BadStep(abs, limits)
    ensures !panicked ==> Filtered(abs, limits, live, stale)
  {
    var noJobId, groups := GroupBy(abs);
    var candidates := Candidates(abs);
    live, stale := noJobId, [];
    var left := groups.Keys;
    StartsPartial(abs, limits, left);
    while left != {}
      invariant left <= groups.Keys && Partial(abs, limits, left, live, stale)
      invariant forall k :: k in groups && k !in left && k.typ.StepHold? ==> StepRange(abs, limits, k).Range?
      decreases |left|
    {
      var k :| k in left;
      var bad, lk, sk := SplitGroup(abs, limits, k, groups[k], CandidateAt(candidates, k.fs, k.job));
      if bad {
        BadGroup(abs, limits, k);
        return true, live, stale;
      }
      PartialNext(abs, limits, left, k, live, stale, lk, sk);
      live, stale := live + lk, stale + sk;
      left := left - {k};
    }
    AllPlaced(abs, limits, groups.Keys, live, stale);
    panicked := false;
  }

  lemma BadGroup(abs: seq<Abstraction>, limits: Limits, k: Key)
    requires k.typ.StepHold? && Group(abs, k) != [] && StepRange(abs, limits, k).Bad?
    ensures BadStep(abs, limits)
  {
    GroupIs(abs, k);
    var a := Group(abs, k)[0];
    assert a in Group(abs, k) && KeyOf(a) == k;
  }

  lemma AllPlaced(abs: seq<Abstraction>, limits: Limits, keys: set<Key>, live: seq<Abstraction>, stale: seq<Abstraction>)
    requires forall a :: a in abs && a.job.Some? ==> KeyOf(a) in keys
    requires forall k :: k in keys && k.typ.StepHold? ==> StepRange(abs, limits, k).Range?
    requires Partial(abs, limits, {}, live, stale)
    ensures Filtered(abs, limits, live, stale) && !BadStep(abs, limits)
  {
    PlacedEnds(abs, keys);
  }

  lemma StartsPartial(abs: seq<Abstraction>, limits: Limits, keys: set<Key>)
    requires forall a :: a in abs && a.job.Some? ==> KeyOf(a) in keys
    ensures Partial(abs, limits, keys, WithoutJob(abs), [])
  {
    PlacedEnds(abs, keys);
    WithoutJobIs(abs);
    forall k | k !in keys && IsMoved(k.typ) ensures Newest(abs, k).None? {
      NewestIs(abs, k);
      forall a | a in abs ensures !Has(a, k) {
        assert a.job.Some? ==> KeyOf(a) in keys;
      }
    }
  }

  lemma {:induction false} WithoutJobIs(abs: seq<Abstraction>)
    ensures forall a :: a in WithoutJob(abs) ==> a.job.None?
  {
    if abs != [] {
      WithoutJobIs(abs[..|abs| - 1]);
    }
  }

  lemma InBoth(live: seq<Abstraction>, i: nat, j: nat, k: Key)
    requires OneEach(live) && i < |live| && j < |live| && i != j && Has(live[i], k) && (k.typ.CursorV2? || k.typ.LastReceivedHold?)
    ensures !Has(live[j], k)
  {
    assert !SameMoved(live[i], live[j]) && !SameMoved(live[j], live[i]);
  }

  /** By type: of cursors and last-received-holds exactly one per filesystem and job lives, a newest one; tentative cursors
      and what has no job always live. */
  lemma TypesExact(abs: seq<Abstraction>, limits: Limits, live: seq<Abstraction>, stale: seq<Abstraction>, k: Key)
    requires Filtered(abs, limits, live, stale) && (k.typ.CursorV2? || k.typ.LastReceivedHold?)
    ensures forall a :: a in stale ==> a.job.Some? && (a.typ.StepHold? || a.typ.CursorV2? || a.typ.LastReceivedHold?)
    ensures Newest(abs, k).Some? ==> exists i :: 0 <= i < |live| && Has(live[i], k) && Newest(abs, k) == Some(live[i].version.txg)
    ensures forall i, j :: 0 <= i < |live| && 0 <= j < |live| && Has(live[i], k) && Has(live[j], k) ==> i == j
  {
    forall i, j | 0 <= i < |live| && 0 <= j < |live| && Has(live[i], k) && Has(live[j], k) ensures i == j {
      if i != j {
        InBoth(live, i, j, k);
      }
    }
    if Newest(abs, k).Some? {
      assert NewestLives(abs, k, live);
      var l :| l in live && Has(l, k) && Newest(abs, k) == Some(l.version.txg);
      var i :| 0 <= i < |live| && live[i] == l;
    }
  }

  // What staleness means without a since bound.

  /** The newest cursor and the newest step hold of a step hold's filesystem and job. */
  function Cutoff(abs: seq<Abstraction>, k: Key): (r: Candidate) {
    Candidate(Newest(abs, Key(k.fs, k.job, CursorV2)), Newest(abs, Key(k.fs, k.job, StepHold)))
  }

  /** The cutoff makes no valid range: a cursor at zero, unless that is allowed, or the newest step hold at zero. */
  predicate ZeroCutoff(c: Candidate, allowZero: bool) {
    if c.cursor.Some? then c.cursor.value == 0 && !allowZero else c.step == Some(0)
  }

  /** The range of a step hold is valid unless its cutoff is zero, and then the hold is stale iff it is not newer than the
      newest cursor or, without a cursor, older than the newest step hold. */
  lemma StepStaleExact(abs: seq<Abstraction>, a: Abstraction, allowZero: bool)
    requires a in abs && a.job.Some? && a.typ.StepHold?
    ensures Cutoff(abs, KeyOf(a)).step.Some?
    ensures StepRange(abs, Limits(None, allowZero), KeyOf(a)).Range? <==> !ZeroCutoff(Cutoff(abs, KeyOf(a)), allowZero)
    ensures var c := Cutoff(abs, KeyOf(a));
            StaleStep(abs, Limits(None, allowZero), a) <==>
            && !ZeroCutoff(c, allowZero)
            && if c.cursor.Some? then a.version.txg <= c.cursor.value else a.version.txg < c.step.value
  {
    NewestIs(abs, KeyOf(a));
  }

  /** Without a since bound the filtering panics iff some step hold has a zero cutoff. */
  lemma PanicsExactly(abs: seq<Abstraction>, allowZero: bool)
    ensures BadStep(abs, Limits(None, allowZero)) <==>
            exists a :: a in abs && a.job.Some? && a.typ.StepHold? && ZeroCutoff(Cutoff(abs, KeyOf(a)), allowZero)
  {
    forall a | a in abs && a.job.Some? && a.typ.StepHold?
      ensures StepRange(abs, Limits(None, allowZero), KeyOf(a)).Bad? <==> ZeroCutoff(Cutoff(abs, KeyOf(a)), allowZero)
    {
      StepStaleExact(abs, a, allowZero);
    }
  }

  /** A cursor at createtxg zero panics the filtering of any step hold next to it, unless zero is allowed. */
  lemma ZeroCursorPanics(h: Abstraction, c: Abstraction, allowZero: bool)
    requires h.job.Some? && h.typ.StepHold? && c == Abstraction(CursorV2, h.fs, c.version, h.job) && c.version.txg == 0
    ensures BadStep([h, c], Limits(None, allowZero)) <==> !allowZero
  {
    var abs, k := [h, c], Key(h.fs, h.job.value, CursorV2);
    NewestIs(abs, k);
    assert c in abs && Has(c, k) && !Has(h, k) && h in abs;
    assert Newest(abs, k) == Some(0);
    PanicsExactly(abs, allowZero);
  }

  lemma LiveInAll(abs: seq<Abstraction>, live: seq<Abstraction>, stale: seq<Abstraction>, a: Abstraction)
    requires multiset(live) + multiset(stale) == multiset(abs) && a in live
    ensures a in abs
  {
    InEither(live, stale, abs, a);
  }

  /** The newest of a group is the same among the live ones, if it lives. */
  lemma SameNewest(abs: seq<Abstraction>, live: seq<Abstraction>, stale: seq<Abstraction>, k: Key)
    requires multiset(live) + multiset(stale) == multiset(abs)
    requires Newest(abs, k).Some? ==> NewestLives(abs, k, live)
    ensures Newest(live, k) == Newest(abs, k)
  {
    NewestIs(abs, k);
    NewestIs(live, k);
    forall a | a in live ensures a in abs {
      LiveInAll(abs, live, stale, a);
    }
    if Newest(abs, k).Some? {
      var l :| l in live && Has(l, k) && Newest(abs, k) == Some(l.version.txg);
    }
  }

  /** Without a cursor the newest step hold lives. */
  lemma NewestStepLives(abs: seq<Abstraction>, live: seq<Abstraction>, stale: seq<Abstraction>, k: Key, allowZero: bool)
    requires Filtered(abs, Limits(None, allowZero), live, stale) && k.typ.StepHold? && Newest(abs, k).Some?
    requires Newest(abs, Key(k.fs, k.job, CursorV2)).None?
    ensures NewestLives(abs, k, live)
  {
    NewestIs(abs, k);
    var a :| a in abs && Has(a, k) && a.version.txg == Newest(abs, k).value;
    InEither(live, stale, abs, a);
    StepStaleExact(abs, a, allowZero);
    assert a in stale ==> StaleOk(abs, Limits(None, allowZero), a);
  }

  /** The cutoff of a step hold that lives is the same among the live ones. */
  lemma SameCutoff(abs: seq<Abstraction>, live: seq<Abstraction>, stale: seq<Abstraction>, a: Abstraction, allowZero: bool)
    requires Filtered(abs, Limits(None, allowZero), live, stale) && a in live && a.job.Some? && a.typ.StepHold?
    ensures Cutoff(live, KeyOf(a)).cursor == Cutoff(abs, KeyOf(a)).cursor
    ensures Cutoff(abs, KeyOf(a)).cursor.None? ==> Cutoff(live, KeyOf(a)) == Cutoff(abs, KeyOf(a))
  {
    LiveInAll(abs, live, stale, a);
    NewestIs(abs, KeyOf(a));
    SameNewest(abs, live, stale, Key(a.fs, a.job.value, CursorV2));
    if Cutoff(abs, KeyOf(a)).cursor.None? {
      NewestStepLives(abs, live, stale, KeyOf(a), allowZero);
      SameNewest(abs, live, stale, KeyOf(a));
    }
  }

  lemma LiveStepsStayLive(abs: seq<Abstraction>, live: seq<Abstraction>, stale: seq<Abstraction>, a: Abstraction, allowZero: bool)
    requires Filtered(abs, Limits(None, allowZero), live, stale) && a in live && a.job.Some? && a.typ.StepHold?
    ensures !StaleStep(live, Limits(None, allowZero), a)
    ensures ZeroCutoff(Cutoff(live, KeyOf(a)), allowZero) <==> ZeroCutoff(Cutoff(abs, KeyOf(a)), allowZero)
  {
    LiveInAll(abs, live, stale, a);
    SameCutoff(abs, live, stale, a, allowZero);
    StepStaleExact(abs, a, allowZero);
    StepStaleExact(live, a, allowZero);
    assert LiveOk(abs, Limits(None, allowZero), a);
  }

  lemma TwoOf(live: seq<Abstraction>, a: Abstraction, b: Abstraction)
    requires multiset{a, b} <= multiset(live)
    ensures exists i, j :: 0 <= i < j < |live| && ((live[i] == a && live[j] == b) || (live[i] == b && live[j] == a))
  {
    assert a in multiset(live);
    var i :| 0 <= i < |live| && live[i] == a;
    RestHas(live, i, b);
    var j :| 0 <= j < |live| && j != i && live[j] == b;
  }

  lemma RestHas(live: seq<Abstraction>, i: nat, b: Abstraction)
    requires i < |live| && multiset{live[i], b} <= multiset(live)
    ensures exists j :: 0 <= j < |live| && j != i && live[j] == b
  {
    var front, back := live[..i], live[i + 1..];
    assert live == front + [live[i]] + back;
    assert multiset(live) == multiset(front) + multiset{live[i]} + multiset(back);
    assert b in multiset(front) || b in multiset(back);
    if b in front {
      var j :| 0 <= j < i && front[j] == b;
    } else {
      var j :| 0 <= j < |back| && back[j] == b;
      assert live[i + 1 + j] == b;
    }
  }

  /** Nothing that lives is stale when only the live ones are looked at, and if the filtering does not panic on the
      whole listing it does not on them. */
  lemma Idempotent(abs: seq<Abstraction>, live: seq<Abstraction>, stale: seq<Abstraction>, live2: seq<Abstraction>,
                   stale2: seq<Abstraction>, allowZero: bool)
    requires Filtered(abs, Limits(None, allowZero), live, stale) && Filtered(live, Limits(None, allowZero), live2, stale2)
    ensures stale2 == []
    ensures !BadStep(abs, Limits(None, allowZero)) ==> !BadStep(live, Limits(None, allowZero))
  {
    if stale2 != [] {
      var a := stale2[0];
      assert StaleOk(live, Limits(None, allowZero), a);
      InEither(live2, stale2, live, a);
      if a.typ.StepHold? {
        LiveStepsStayLive(abs, live, stale, a, allowZero);
      } else {
        MovedStayLive(live, live2, stale2, a, allowZero);
      }
    }
    NoNewPanic(abs, live, stale, allowZero);
  }

  lemma NoNewPanic(abs: seq<Abstraction>, live: seq<Abstraction>, stale: seq<Abstraction>, allowZero: bool)
    requires Filtered(abs, Limits(None, allowZero), live, stale)
    ensures !BadStep(abs, Limits(None, allowZero)) ==> !BadStep(live, Limits(None, allowZero))
  {
    PanicsExactly(abs, allowZero);
    PanicsExactly(live, allowZero);
    forall a | a in live && a.job.Some? && a.typ.StepHold?
      ensures a in abs && (ZeroCutoff(Cutoff(live, KeyOf(a)), allowZero) <==> ZeroCutoff(Cutoff(abs, KeyOf(a)), allowZero))
    {
      LiveInAll(abs, live, stale, a);
      LiveStepsStayLive(abs, live, stale, a, allowZero);
    }
  }

  lemma MovedStayLive(live: seq<Abstraction>, live2: seq<Abstraction>, stale2: seq<Abstraction>, a: Abstraction, allowZero: bool)
    requires OneEach(live) && Filtered(live, Limits(None, allowZero), live2, stale2) && a.job.Some? && IsMoved(a.typ)
    ensures a !in stale2
  {
    if a in stale2 {
      InEither(live2, stale2, live, a);
      NewestIs(live, KeyOf(a));
      assert NewestLives(live, KeyOf(a), live2);
      var l :| l in live2 && Has(l, KeyOf(a));
      assert multiset{l} <= multiset(live2) && multiset{a} <= multiset(stale2);
      assert multiset{l, a} <= multiset(live);
      TwoOf(live, l, a);
    }
  }
}
