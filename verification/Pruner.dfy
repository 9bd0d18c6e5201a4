/** The pruner: which snapshots of a filesystem count as replicated, what may be destroyed, and the execution queue. */
module Pruner {
  import opened Collections
  import opened Versions
  import G = RetentionGrid
  import opened Pruning
  import opened Order

  /** A version as the prune target lists it. */
  datatype Fsv = Fsv(isSnapshot: bool, name: string, guid: nat, txg: nat, creation: Option<int>)

  predicate TxgSorted(vs: seq<Fsv>) {
    forall i, j :: 0 <= i < j < |vs| ==> vs[i].txg <= vs[j].txg
  }

  /** No two snapshots share a guid. */
  predicate DistinctGuids(vs: seq<Fsv>) {
    forall i, j :: 0 <= i < j < |vs| && vs[i].isSnapshot && vs[j].isSnapshot ==> vs[i].guid != vs[j].guid
  }

  /** No snapshot of `vs` has the guid of snapshot `v`. */
  predicate FreshGuid(vs: seq<Fsv>, v: Fsv) {
    forall x :: x in vs && x.isSnapshot && v.isSnapshot ==> x.guid != v.guid
  }

  method InsertByTxg(vs: seq<Fsv>, v: Fsv) returns (r: seq<Fsv>)
    requires TxgSorted(vs)
    ensures TxgSorted(r) && multiset(r) == multiset(vs) + multiset{v}
    ensures DistinctGuids(vs) && FreshGuid(vs, v) ==> DistinctGuids(r)
  {
    var i := |vs|;
    while i > 0 && vs[i - 1].txg > v.txg
      invariant 0 <= i <= |vs|
      invariant forall k :: i <= k < |vs| ==> vs[k].txg > v.txg
    {
      i := i - 1;
    }
    r := vs[..i] + [v] + vs[i..];
    InsertedTxgs(vs, i, v);
    InsertedVersions(vs, i, v);
  }

  lemma InsertedTxgs(vs: seq<Fsv>, i: nat, v: Fsv)
    requires i <= |vs| && TxgSorted(vs) && (i > 0 ==> vs[i - 1].txg <= v.txg)
    requires forall k :: i <= k < |vs| ==> vs[k].txg > v.txg
    ensures TxgSorted(vs[..i] + [v] + vs[i..])
  {
  }

  lemma InsertedVersions(vs: seq<Fsv>, i: nat, v: Fsv)
    requires i <= |vs|
    ensures multiset(vs[..i] + [v] + vs[i..]) == multiset(vs) + multiset{v}
    ensures DistinctGuids(vs) && FreshGuid(vs, v) ==> DistinctGuids(vs[..i] + [v] + vs[i..])
  {
    assert vs == vs[..i] + vs[i..];
    if DistinctGuids(vs) && FreshGuid(vs, v) {
      InsertedGuids(vs, i, v);
    }
  }

  lemma InsertedGuids(vs: seq<Fsv>, i: nat, v: Fsv)
    requires i <= |vs| && DistinctGuids(vs) && FreshGuid(vs, v)
    ensures DistinctGuids(vs[..i] + [v] + vs[i..])
  {
    var r := vs[..i] + [v] + vs[i..];
    forall a, b | 0 <= a < b < |r| && r[a].isSnapshot && r[b].isSnapshot ensures r[a].guid != r[b].guid {
      assert a != i ==> r[a] == vs[if a < i then a else a - 1];
      assert b != i ==> r[b] == vs[if b < i then b else b - 1];
    }
  }

  method SortByTxg(vs: seq<Fsv>) returns (r: seq<Fsv>)
    requires DistinctGuids(vs)
    ensures TxgSorted(r) && multiset(r) == multiset(vs) && DistinctGuids(r)
  {
    r := [];
    for i := 0 to |vs|
      invariant TxgSorted(r) && multiset(r) == multiset(vs[..i]) && DistinctGuids(r)
    {
      assert vs[..i + 1] == vs[..i] + [vs[i]];
      forall x | x in r && x.isSnapshot && vs[i].isSnapshot ensures x.guid != vs[i].guid {
        assert x in multiset(vs[..i]);
        assert x in vs[..i];
      }
      r := InsertByTxg(r, vs[i]);
    }
    assert vs[..|vs|] == vs;
  }

  // Which snapshots count as replicated.

  predicate AtCursor(v: Fsv, cursor: nat) {
    v.isSnapshot && v.guid == cursor
  }

  predicate HasCursor(vs: seq<Fsv>, cursor: nat) {
    exists i :: 0 <= i < |vs| && AtCursor(vs[i], cursor)
  }

  /** Older than the cursor snapshot, or that snapshot itself where this is configured. */
  predicate Replicated(vs: seq<Fsv>, i: nat, cursor: nat, considerAtCursor: bool)
    requires i < |vs|
  {
    || (HasCursor(vs, cursor) && forall k :: 0 <= k <= i ==> !AtCursor(vs[k], cursor))
    || (considerAtCursor && AtCursor(vs[i], cursor))
  }

  function Mark(vs: seq<Fsv>, i: nat, cursor: nat, considerAtCursor: bool): (r: Snapshot)
    requires i < |vs| && vs[i].creation.Some?
  {
    G.Entry(vs[i].guid, vs[i].name, Replicated(vs, i, cursor, considerAtCursor), vs[i].creation.value)
  }

  /** The snapshots of the list, each marked. */
  ghost predicate Marked(vs: seq<Fsv>, n: nat, cursor: nat, considerAtCursor: bool, snaps: seq<Snapshot>)
    requires n <= |vs|
  {
    && (forall s :: s in snaps ==>
          exists i :: 0 <= i < n && vs[i].isSnapshot && vs[i].creation.Some? && s == Mark(vs, i, cursor, considerAtCursor))
    && (forall i :: 0 <= i < n && vs[i].isSnapshot && vs[i].creation.Some? ==> Mark(vs, i, cursor, considerAtCursor) in snaps)
    && NoDuplicates(snaps)
  }

  datatype MarkError = BadCreation | NoCursorSnapshot

  method HaveCursorSnapshot(vs: seq<Fsv>, cursor: nat) returns (have: bool)
    ensures have <==> HasCursor(vs, cursor)
  {
    have := false;
    for i := 0 to |vs|
      invariant have <==> exists k :: 0 <= k < i && AtCursor(vs[k], cursor)
    {
      if !vs[i].isSnapshot {
        continue;
      }
      if vs[i].guid == cursor {
        have := true;
      }
    }
  }

  /** Marks the snapshots from older to newer. The error that the cursor snapshot was not met is never returned. */
  method MarkReplicated(vs: seq<Fsv>, cursor: nat, considerAtCursor: bool) returns (snaps: seq<Snapshot>, err: Option<MarkError>)
    requires DistinctGuids(vs)
    ensures err.None? ==> Marked(vs, |vs|, cursor, considerAtCursor, snaps)
    ensures err.None? <==> forall i :: 0 <= i < |vs| && vs[i].isSnapshot ==> vs[i].creation.Some?
    ensures err != Some(NoCursorSnapshot)
  {
    snaps := [];
    var preCursor := HaveCursorSnapshot(vs, cursor);
    for i := 0 to |vs|
      invariant preCursor <==> HasCursor(vs, cursor) && forall k :: 0 <= k < i ==> !AtCursor(vs[k], cursor)
      invariant Marked(vs, i, cursor, considerAtCursor, snaps)
      invariant forall k :: 0 <= k < i && vs[k].isSnapshot ==> vs[k].creation.Some?
    {
      if !vs[i].isSnapshot {
        continue;
      }
      if vs[i].creation.None? {
        return snaps, Some(BadCreation);
      }
      var atCursor := vs[i].guid == cursor;
      preCursor := preCursor && !atCursor;
      MarkNext(vs, i, cursor, considerAtCursor, snaps);
      snaps := snaps + [G.Entry(vs[i].guid, vs[i].name, preCursor || (considerAtCursor && atCursor), vs[i].creation.value)];
    }
    if preCursor {
      return snaps, Some(NoCursorSnapshot);
    }
    err := None;
  }

  lemma MarkNext(vs: seq<Fsv>, n: nat, cursor: nat, considerAtCursor: bool, snaps: seq<Snapshot>)
    requires DistinctGuids(vs) && n < |vs| && vs[n].isSnapshot && vs[n].creation.Some?
    requires Marked(vs, n, cursor, considerAtCursor, snaps)
    ensures Marked(vs, n + 1, cursor, considerAtCursor, snaps + [Mark(vs, n, cursor, considerAtCursor)])
  {
    var m := Mark(vs, n, cursor, considerAtCursor);
    assert m !in snaps;
    ElemsAppend(snaps, m);
  }

  // Planning one filesystem.

  datatype Plan = NoCursor | Unmarked(err: MarkError) | Planned(snaps: seq<Snapshot>, destroy: seq<Snapshot>)

  /** The snapshot is the cursor snapshot itself, where this is configured, or older, or another of the same age. */
  ghost predicate BehindCursor(vs: seq<Fsv>, cursor: nat, considerAtCursor: bool, s: Snapshot) {
    exists v, c :: v in vs && c in vs && OlderThan(v, c, cursor, considerAtCursor) && v.guid == s.id && v.name == s.name
  }

  predicate OlderThan(v: Fsv, c: Fsv, cursor: nat, considerAtCursor: bool) {
    && v.isSnapshot && AtCursor(c, cursor)
    && if v.guid == cursor then considerAtCursor else v.txg <= c.txg
  }

  lemma ReplicatedIsBehind(vs: seq<Fsv>, i: nat, cursor: nat, considerAtCursor: bool)
    requires TxgSorted(vs) && i < |vs| && vs[i].isSnapshot && vs[i].creation.Some? && Replicated(vs, i, cursor, considerAtCursor)
    ensures BehindCursor(vs, cursor, considerAtCursor, Mark(vs, i, cursor, considerAtCursor))
  {
    var c: nat :| c < |vs| && AtCursor(vs[c], cursor);
    if vs[i].guid == cursor {
      assert OlderThan(vs[i], vs[i], cursor, considerAtCursor);
    } else {
      assert c > i;
      assert OlderThan(vs[i], vs[c], cursor, considerAtCursor);
    }
  }

  lemma BehindPermuted(vs: seq<Fsv>, vs': seq<Fsv>, cursor: nat, considerAtCursor: bool, s: Snapshot)
    requires multiset(vs) == multiset(vs') && BehindCursor(vs, cursor, considerAtCursor, s)
    ensures BehindCursor(vs', cursor, considerAtCursor, s)
  {
    var v, c :| v in vs && c in vs && OlderThan(v, c, cursor, considerAtCursor) && v.guid == s.id && v.name == s.name;
    assert v in multiset(vs') && c in multiset(vs');
  }

  lemma BehindHasCursor(vs: seq<Fsv>, cursor: nat, considerAtCursor: bool, s: Snapshot)
    requires BehindCursor(vs, cursor, considerAtCursor, s)
    ensures HasCursor(vs, cursor)
  {
    var v, c :| v in vs && c in vs && OlderThan(v, c, cursor, considerAtCursor) && v.guid == s.id && v.name == s.name;
    var i :| 0 <= i < |vs| && vs[i] == c;
    assert AtCursor(vs[i], cursor);
  }

  lemma DestroysBehind(vs: seq<Fsv>, cursor: nat, considerAtCursor: bool, snaps: seq<Snapshot>, s: Snapshot)
    requires TxgSorted(vs) && Marked(vs, |vs|, cursor, considerAtCursor, snaps) && s in snaps && s.replicated
    ensures BehindCursor(vs, cursor, considerAtCursor, s)
  {
    var i :| 0 <= i < |vs| && vs[i].isSnapshot && vs[i].creation.Some? && s == Mark(vs, i, cursor, considerAtCursor);
    ReplicatedIsBehind(vs, i, cursor, considerAtCursor);
  }

  ghost predicate HasNotReplicated(rules: seq<Rule>) {
    exists i :: 0 <= i < |rules| && rules[i].KeepNotReplicated?
  }

  // Replicated snapshots by createtxg.

  /** No two snapshots were created in the same transaction group. */
  predicate DistinctTxgs(vs: seq<Fsv>) {
    forall i, j :: 0 <= i < j < |vs| && vs[i].isSnapshot && vs[j].isSnapshot ==> vs[i].txg != vs[j].txg
  }

  predicate Before(v: Fsv, c: Fsv, cursor: nat, considerAtCursor: bool) {
    v.isSnapshot && AtCursor(c, cursor) && if v.guid == cursor then considerAtCursor else v.txg < c.txg
  }

  /** The snapshot was created before the cursor snapshot, or is that one where this is configured. */
  ghost predicate CreatedBefore(vs: seq<Fsv>, cursor: nat, considerAtCursor: bool, s: Snapshot) {
    exists v, c :: v in vs && c in vs && Before(v, c, cursor, considerAtCursor) && v.guid == s.id
  }

  lemma ReplicatedExact(vs: seq<Fsv>, i: nat, cursor: nat, considerAtCursor: bool)
    requires TxgSorted(vs) && DistinctGuids(vs) && DistinctTxgs(vs) && i < |vs| && vs[i].isSnapshot
    ensures Replicated(vs, i, cursor, considerAtCursor) <==> exists c :: c in vs && Before(vs[i], c, cursor, considerAtCursor)
  {
    if Replicated(vs, i, cursor, considerAtCursor) {
      if vs[i].guid == cursor {
        assert Before(vs[i], vs[i], cursor, considerAtCursor);
      } else {
        var k :| 0 <= k < |vs| && AtCursor(vs[k], cursor);
        assert i < k && Before(vs[i], vs[k], cursor, considerAtCursor);
      }
    }
    if vs[i].guid != cursor {
      forall k | 0 <= k < |vs| && Before(vs[i], vs[k], cursor, considerAtCursor) ensures Replicated(vs, i, cursor, considerAtCursor) {
        assert i < k && AtCursor(vs[k], cursor);
        assert forall j :: 0 <= j <= i && AtCursor(vs[j], cursor) ==> vs[j].guid == vs[k].guid;
      }
    }
  }

  /** With distinct createtxgs, exactly the snapshots created before the cursor snapshot count as replicated. */
  lemma MarkedExact(vs: seq<Fsv>, sorted: seq<Fsv>, cursor: nat, considerAtCursor: bool, snaps: seq<Snapshot>)
    requires TxgSorted(sorted) && multiset(sorted) == multiset(vs) && DistinctGuids(sorted) && DistinctTxgs(sorted)
    requires Marked(sorted, |sorted|, cursor, considerAtCursor, snaps)
    ensures forall s :: s in snaps ==> (s.replicated <==> CreatedBefore(vs, cursor, considerAtCursor, s))
  {
    forall v ensures v in sorted <==> v in vs {
      assert v in multiset(sorted) <==> v in multiset(vs);
    }
    forall s | s in snaps ensures s.replicated <==> CreatedBefore(vs, cursor, considerAtCursor, s) {
      var i :| 0 <= i < |sorted| && sorted[i].isSnapshot && sorted[i].creation.Some? && s == Mark(sorted, i, cursor, considerAtCursor);
      ReplicatedExact(sorted, i, cursor, considerAtCursor);
      assert sorted[i] in vs;
      forall v | v in vs && v.isSnapshot && v.guid == s.id ensures v == sorted[i] {
        var j :| 0 <= j < |sorted| && sorted[j] == v;
      }
    }
  }

  lemma TxgsPermuted(vs: seq<Fsv>, sorted: seq<Fsv>)
    requires multiset(sorted) == multiset(vs) && DistinctTxgs(vs) && DistinctGuids(sorted)
    ensures DistinctTxgs(sorted)
  {
    forall i, j | 0 <= i < j < |sorted| && sorted[i].isSnapshot && sorted[j].isSnapshot ensures sorted[i].txg != sorted[j].txg {
      assert sorted[i] in multiset(vs) && sorted[j] in multiset(vs);
      var k :| 0 <= k < |vs| && vs[k] == sorted[i];
      var l :| 0 <= l < |vs| && vs[l] == sorted[j];
      assert sorted[i].guid != sorted[j].guid;
    }
  }

  /** Some order of the versions by createtxg gives the snapshots their marks. */
  ghost predicate MarksOf(vs: seq<Fsv>, sorted: seq<Fsv>, cursor: nat, considerAtCursor: bool, snaps: seq<Snapshot>) {
    TxgSorted(sorted) && multiset(sorted) == multiset(vs) && Marked(sorted, |sorted|, cursor, considerAtCursor, snaps)
  }

  /** The destroy list holds once each exactly the snapshots that every rule would destroy. */
  ghost predicate Intersection(rules: seq<Rule>, snaps: seq<Snapshot>, lists: seq<seq<Snapshot>>, destroy: seq<Snapshot>) {
    && NoDuplicates(destroy) && ListsOf(rules, Elems(snaps), lists)
    && (rules == [] ==> destroy == [])
    && (rules != [] ==> forall s :: s in destroy <==> InAll(lists, s))
  }

  /** Marks the snapshots of the target and destroys what all rules agree on. With a rule to keep what is not
      replicated, that is nothing newer than the cursor snapshot, and nothing at all if the target does not have it. */
  method PlanFilesystem(vs: seq<Fsv>, cursor: Option<nat>, considerAtCursor: bool, rules: seq<Rule>)
    returns (r: Plan, ghost sorted: seq<Fsv>, ghost lists: seq<seq<Snapshot>>)
    requires DistinctGuids(vs) && forall i :: 0 <= i < |rules| ==> ValidRule(rules[i])
    ensures cursor.None? <==> r.NoCursor?
    ensures r.Unmarked? <==> cursor.Some? && exists v :: v in vs && v.isSnapshot && v.creation.None?
    ensures r != Unmarked(NoCursorSnapshot)
    ensures r.Planned? ==> MarksOf(vs, sorted, cursor.value, considerAtCursor, r.snaps)
    ensures r.Planned? && DistinctTxgs(vs) ==>
              forall s :: s in r.snaps ==> (s.replicated <==> CreatedBefore(vs, cursor.value, considerAtCursor, s))
    ensures r.Planned? ==> Intersection(rules, r.snaps, lists, r.destroy) && Elems(r.destroy) <= Elems(r.snaps)
    ensures r.Planned? && HasNotReplicated(rules) ==>
              forall s :: s in r.destroy ==> s.replicated && BehindCursor(vs, cursor.value, considerAtCursor, s)
    ensures r.Planned? && HasNotReplicated(rules) && !HasCursor(vs, cursor.value) ==> r.destroy == []
  {
    sorted, lists := [], [];
    if cursor.None? {
      return NoCursor, sorted, lists;
    }
    var order := SortByTxg(vs);
    sorted := order;
    var snaps, err := MarkReplicated(order, cursor.value, considerAtCursor);
    CreationsPermuted(vs, order);
    if err.Some? {
      return Unmarked(err.value), sorted, lists;
    }
    if DistinctTxgs(vs) {
      TxgsPermuted(vs, order);
      MarkedExact(vs, order, cursor.value, considerAtCursor, snaps);
    }
    var destroy;
    destroy, lists := PruneSnapshots(snaps, rules);
    PrunedOf(snaps, rules, destroy, lists);
    if HasNotReplicated(rules) {
      AllBehind(vs, order, cursor.value, considerAtCursor, snaps, rules, destroy, lists);
    }
    return Planned(snaps, destroy), sorted, lists;
  }

  lemma CreationsPermuted(vs: seq<Fsv>, sorted: seq<Fsv>)
    requires multiset(sorted) == multiset(vs)
    ensures (exists v :: v in vs && v.isSnapshot && v.creation.None?) <==>
            !(forall i :: 0 <= i < |sorted| && sorted[i].isSnapshot ==> sorted[i].creation.Some?)
  {
    forall v ensures v in sorted <==> v in vs {
      assert v in multiset(sorted) <==> v in multiset(vs);
    }
    forall i | 0 <= i < |sorted| ensures sorted[i] in vs {}
  }

  lemma AllBehind(vs: seq<Fsv>, sorted: seq<Fsv>, cursor: nat, considerAtCursor: bool, snaps: seq<Snapshot>, rules: seq<Rule>,
                  destroy: seq<Snapshot>, lists: seq<seq<Snapshot>>)
    requires MarksOf(vs, sorted, cursor, considerAtCursor, snaps) && Intersection(rules, snaps, lists, destroy)
    requires HasNotReplicated(rules)
    ensures forall s :: s in destroy ==> s.replicated && BehindCursor(vs, cursor, considerAtCursor, s)
    ensures !HasCursor(vs, cursor) ==> destroy == []
  {
    forall s | s in destroy ensures s.replicated && BehindCursor(vs, cursor, considerAtCursor, s) {
      PrunedReplicated(snaps, rules, destroy, lists, s);
      DestroysBehind(sorted, cursor, considerAtCursor, snaps, s);
      BehindPermuted(sorted, vs, cursor, considerAtCursor, s);
    }
    if destroy != [] {
      BehindHasCursor(vs, cursor, considerAtCursor, destroy[0]);
    }
  }

  lemma PrunedOf(snaps: seq<Snapshot>, rules: seq<Rule>, destroy: seq<Snapshot>, lists: seq<seq<Snapshot>>)
    requires ListsOf(rules, Elems(snaps), lists)
    requires rules == [] ==> destroy == []
    requires rules != [] ==> forall s :: s in destroy <==> InAll(lists, s)
    ensures Elems(destroy) <= Elems(snaps)
  {
    if rules != [] {
      assert MayDestroy(rules[0], Elems(snaps), Elems(lists[0]));
      forall s | s in Elems(destroy) ensures s in Elems(snaps) {
        assert InAll(lists, s);
        assert s in Elems(lists[0]);
      }
    }
  }

  lemma PrunedReplicated(snaps: seq<Snapshot>, rules: seq<Rule>, destroy: seq<Snapshot>, lists: seq<seq<Snapshot>>, s: Snapshot)
    requires ListsOf(rules, Elems(snaps), lists)
    requires rules != [] ==> forall s :: s in destroy <==> InAll(lists, s)
    requires HasNotReplicated(rules) && s in destroy
    ensures s in snaps && s.replicated
  {
    var i :| 0 <= i < |rules| && rules[i].KeepNotReplicated?;
    assert MayDestroy(rules[i], Elems(snaps), Elems(lists[i]));
    assert InAll(lists, s);
    assert s in Elems(lists[i]);
  }

  // Execution.

  datatype Fs = Fs(path: string, skipped: bool, planErr: bool, destroy: seq<Snapshot>, execErr: bool)

  /** The answer to a destroy request: an error, or per snapshot name whether it was destroyed. */
  datatype Response = Failed | Results(ok: map<string, bool>)

  predicate AllDestroyed(fs: Fs, r: Response) {
    r.Results? && forall s :: s in fs.destroy ==> s.name in r.ok && r.ok[s.name]
  }

  predicate PathSorted(fss: seq<Fs>) {
    forall i, j :: 0 <= i < j < |fss| ==> PathLe(fss[i], fss[j])
  }

  predicate PathLe(a: Fs, b: Fs) {
    StrLe(a.path, b.path)
  }

  class ExecQueue {
    var pending: seq<Fs>
    var completed: seq<Fs>

    constructor ()
      ensures pending == [] && completed == []
    {
      pending, completed := [], [];
    }

    /** Takes the next pending filesystem. */
    method Pop() returns (fs: Option<Fs>)
      modifies `pending
      ensures old(pending) == [] ==> fs.None? && pending == []
      ensures old(pending) != [] ==> fs == Some(old(pending)[0]) && pending == old(pending)[1..]
    {
      if |pending| == 0 {
        return None;
      }
      fs := Some(pending[0]);
      pending := pending[1..];
    }

    /** Puts a filesystem back with its last result: completed if it is done or failed, else pending, by path. */
    method Put(fs: Fs, err: bool, done: bool)
      requires PathSorted(pending)
      modifies this
      ensures PathSorted(pending)
      ensures done || err ==> pending == old(pending) && completed == old(completed) + [fs.(execErr := err)]
      ensures !done && !err ==> completed == old(completed)
                                && multiset(pending) == multiset(old(pending)) + multiset{fs.(execErr := err)}
    {
      var f := fs.(execErr := err);
      if done || err {
        completed := completed + [f];
        return;
      }
      var i := |pending|;
      while i > 0 && !PathLe(pending[i - 1], f)
        invariant 0 <= i <= |pending|
        invariant forall k :: i <= k < |pending| ==> !PathLe(pending[k], f)
      {
        i := i - 1;
      }
      InsertedPaths(pending, i, f);
      pending := pending[..i] + [f] + pending[i..];
    }
  }

  lemma InsertedPaths(fss: seq<Fs>, i: nat, f: Fs)
    requires i <= |fss| && PathSorted(fss) && (i > 0 ==> PathLe(fss[i - 1], f))
    requires forall k :: i <= k < |fss| ==> !PathLe(fss[k], f)
    ensures PathSorted(fss[..i] + [f] + fss[i..])
    ensures multiset(fss[..i] + [f] + fss[i..]) == multiset(fss) + multiset{f}
  {
    forall k | 0 <= k < i ensures PathLe(fss[k], f) {
      if k < i - 1 {
        StrLeTransitive(fss[k].path, fss[i - 1].path, f.path);
      }
    }
    forall k | i <= k < |fss| ensures PathLe(f, fss[k]) {
      StrLeTotal(f.path, fss[k].path);
    }
    InsertedBetween(fss, i, f);
    InsertedMultiset(fss, i, f);
  }

  lemma InsertedMultiset(fss: seq<Fs>, i: nat, f: Fs)
    requires i <= |fss|
    ensures multiset(fss[..i] + [f] + fss[i..]) == multiset(fss) + multiset{f}
  {
    assert fss == fss[..i] + fss[i..];
  }

  lemma InsertedBetween(fss: seq<Fs>, i: nat, f: Fs)
    requires i <= |fss| && PathSorted(fss)
    requires (forall k :: 0 <= k < i ==> PathLe(fss[k], f)) && (forall k :: i <= k < |fss| ==> PathLe(f, fss[k]))
    ensures PathSorted(fss[..i] + [f] + fss[i..])
  {
  }

  /** The filesystem after the execution of its destroy list. */
  function Executed(fs: Fs, respond: Fs -> Response): (r: Fs) {
    fs.(execErr := !AllDestroyed(fs, respond(fs)))
  }

  function ExecutedAll(fss: seq<Fs>, respond: Fs -> Response): (r: seq<Fs>) {
    seq(|fss|, i requires 0 <= i < |fss| => Executed(fss[i], respond))
  }

  /** Whether the target answered for every snapshot of the request, and without errors. */
  method CheckResults(fs: Fs, r: Response) returns (err: bool)
    ensures err <==> !AllDestroyed(fs, r)
  {
    if r.Failed? {
      return true;
    }
    var fails := 0;
    for i := 0 to |fs.destroy|
      invariant forall k :: 0 <= k < i ==> fs.destroy[k].name in r.ok
      invariant fails == 0 <==> forall k :: 0 <= k < i ==> r.ok[fs.destroy[k].name]
      invariant fails >= 0
    {
      if fs.destroy[i].name !in r.ok {
        return true;
      } else if !r.ok[fs.destroy[i].name] {
        fails := fails + 1;
      }
    }
    return fails > 0;
  }

  /** All plans go to the queue. */
  method Enqueue(pfss: seq<Fs>) returns (q: ExecQueue)
    requires forall fs :: fs in pfss ==> !fs.execErr
    ensures fresh(q) && PathSorted(q.pending) && multiset(q.pending) == multiset(pfss) && q.completed == []
  {
    q := new ExecQueue();
    for i := 0 to |pfss|
      invariant PathSorted(q.pending) && multiset(q.pending) == multiset(pfss[..i]) && q.completed == [] && fresh(q)
    {
      assert pfss[..i + 1] == pfss[..i] + [pfss[i]];
      assert !pfss[i].execErr;
      q.Put(pfss[i], false, false);
    }
    assert pfss[..|pfss|] == pfss;
  }

  /** Whatever the target answers, each pending filesystem is executed once and then completed. */
  method Drain(q: ExecQueue, respond: Fs -> Response) returns (requests: seq<Fs>)
    requires PathSorted(q.pending) && q.completed == []
    modifies q
    ensures requests == old(q.pending) && q.pending == [] && q.completed == ExecutedAll(requests, respond)
  {
    requests := [];
    while true
      invariant PathSorted(q.pending) && requests + q.pending == old(q.pending)
      invariant q.completed == ExecutedAll(requests, respond)
      decreases |q.pending|
    {
      var pfs := q.Pop();
      if pfs.None? {
        return;
      }
      var err := CheckResults(pfs.value, respond(pfs.value));
      q.Put(pfs.value, err, !err);
      ExecutedNext(requests, pfs.value, respond);
      DrainNext(requests, pfs.value, q.pending);
      requests := requests + [pfs.value];
    }
  }

  lemma DrainNext(requests: seq<Fs>, fs: Fs, pending: seq<Fs>)
    ensures requests + ([fs] + pending) == (requests + [fs]) + pending
  {
  }

  lemma ExecutedNext(fss: seq<Fs>, fs: Fs, respond: Fs -> Response)
    ensures ExecutedAll(fss + [fs], respond) == ExecutedAll(fss, respond) + [Executed(fs, respond)]
  {
  }

  /** Every planned filesystem is executed exactly once, in the order of their paths; the attempt is done without
      error iff no filesystem that was not skipped failed in planning or execution. */
  method Execute(pfss: seq<Fs>, respond: Fs -> Response) returns (requests: seq<Fs>, q: ExecQueue, done: bool)
    requires forall fs :: fs in pfss ==> !fs.execErr
    ensures multiset(requests) == multiset(pfss) && PathSorted(requests)
    ensures q.pending == [] && q.completed == ExecutedAll(requests, respond)
    ensures done <==> forall fs :: fs in requests ==> fs.skipped || (!fs.planErr && AllDestroyed(fs, respond(fs)))
  {
    q := Enqueue(pfss);
    requests := Drain(q, respond);
    done := NoErrors(q.completed);
    AllFine(requests, respond);
  }

  method NoErrors(completed: seq<Fs>) returns (ok: bool)
    ensures ok <==> forall fs :: fs in completed ==> fs.skipped || (!fs.planErr && !fs.execErr)
  {
    var hadErr := false;
    for i := 0 to |completed|
      invariant !hadErr <==> forall k :: 0 <= k < i ==> completed[k].skipped || (!completed[k].planErr && !completed[k].execErr)
    {
      hadErr := hadErr || (!completed[i].skipped && (completed[i].planErr || completed[i].execErr));
    }
    return !hadErr;
  }

  lemma AllFine(requests: seq<Fs>, respond: Fs -> Response)
    ensures (forall fs :: fs in ExecutedAll(requests, respond) ==> fs.skipped || (!fs.planErr && !fs.execErr)) <==>
            (forall fs :: fs in requests ==> fs.skipped || (!fs.planErr && AllDestroyed(fs, respond(fs))))
  {
    var es := ExecutedAll(requests, respond);
    if forall fs :: fs in es ==> fs.skipped || (!fs.planErr && !fs.execErr) {
      forall fs | fs in requests ensures fs.skipped || (!fs.planErr && AllDestroyed(fs, respond(fs))) {
        var i :| 0 <= i < |requests| && requests[i] == fs;
        assert es[i] in es;
      }
    }
  }
}
