/** Destroying snapshots in batches, with fallbacks, and one by one. */
module DestroyBatch {
  import opened Collections
  import opened Order
  import opened Versions

  datatype Snap = Snap(fs: string, name: string)

  /** A request; `errOut` is the address its outcome is written to. */
  datatype Op = Op(fs: string, name: string, errOut: nat) {
    function Target(): (r: Snap) { Snap(fs, name) }
  }

  datatype Verdict = Destroyed | E2BIG | Undestroyable(names: set<string>) | OtherError

  /** No two requests share their snapshot or their address. */
  predicate Apart(ops: set<Op>) {
    forall a, b :: a in ops && b in ops && a != b ==> a.errOut != b.errOut && a.Target() != b.Target()
  }

  predicate Distinct(ops: seq<Op>) {
    NoDuplicates(ops) && Apart(Elems(ops))
  }

  function Addresses(ops: set<Op>): (r: set<nat>) {
    set o | o in ops :: o.errOut
  }

  // What destroying one by one does: each request succeeds iff its snapshot exists and is not stuck.

  predicate Destroyable(snaps: set<Snap>, stuck: set<Snap>, o: Op) {
    o.Target() in snaps && o.Target() !in stuck
  }

  function Gone(ops: set<Op>, snaps: set<Snap>, stuck: set<Snap>): (r: set<Snap>) {
    set o | o in ops && Destroyable(snaps, stuck, o) :: o.Target()
  }

  /** Every request got its outcome, nobody else did. */
  predicate Reported(ops: set<Op>, snaps: set<Snap>, stuck: set<Snap>, out: map<nat, bool>, out': map<nat, bool>) {
    && out'.Keys == out.Keys + Addresses(ops)
    && (forall k :: k in out && k !in Addresses(ops) ==> out'[k] == out[k])
    && (forall o :: o in ops ==> o.errOut in out' && out'[o.errOut] == Destroyable(snaps, stuck, o))
  }

  /** The effect of destroying the requests one by one. */
  predicate Settled(ops: set<Op>, snaps: set<Snap>, stuck: set<Snap>, out: map<nat, bool>, snaps': set<Snap>, out': map<nat, bool>) {
    snaps' == snaps - Gone(ops, snaps, stuck) && Reported(ops, snaps, stuck, out, out')
  }

  lemma SameDestroyable(a: set<Op>, b: set<Op>, snaps: set<Snap>, stuck: set<Snap>, o: Op)
    requires Apart(a + b) && a !! b && o in b
    ensures Destroyable(snaps - Gone(a, snaps, stuck), stuck, o) == Destroyable(snaps, stuck, o)
  {
    assert o in a + b && forall p :: p in a ==> p in a + b;
  }

  /** Settling `a` and then `b` settles both. */
  lemma SettledParts(a: set<Op>, b: set<Op>, snaps0: set<Snap>, stuck: set<Snap>, out0: map<nat, bool>,
                     snaps1: set<Snap>, out1: map<nat, bool>, snaps2: set<Snap>, out2: map<nat, bool>)
    requires Apart(a + b) && a !! b
    requires Settled(a, snaps0, stuck, out0, snaps1, out1) && Settled(b, snaps1, stuck, out1, snaps2, out2)
    ensures Settled(a + b, snaps0, stuck, out0, snaps2, out2)
  {
    forall o | o in b ensures Destroyable(snaps1, stuck, o) == Destroyable(snaps0, stuck, o) {
      SameDestroyable(a, b, snaps0, stuck, o);
    }
    assert Gone(b, snaps1, stuck) == Gone(b, snaps0, stuck);
    assert Gone(a + b, snaps0, stuck) == Gone(a, snaps0, stuck) + Gone(b, snaps0, stuck);
    assert Addresses(a + b) == Addresses(a) + Addresses(b);
    forall o | o in a ensures o.errOut !in Addresses(b) {
      assert o in a + b && forall p :: p in b ==> p in a + b;
    }
  }

  /** The effect is unique: whatever settles the requests ends where destroying one by one ends. */
  lemma SettledDetermines(ops: set<Op>, snaps: set<Snap>, stuck: set<Snap>, out: map<nat, bool>,
                          snaps1: set<Snap>, out1: map<nat, bool>, snaps2: set<Snap>, out2: map<nat, bool>)
    requires Settled(ops, snaps, stuck, out, snaps1, out1) && Settled(ops, snaps, stuck, out, snaps2, out2)
    ensures snaps1 == snaps2 && out1 == out2
  {
    forall k | k in out1 ensures k in out2 && out1[k] == out2[k] {
      if k in Addresses(ops) {
        var o :| o in ops && o.errOut == k;
      }
    }
  }

  lemma SettledNone(snaps: set<Snap>, stuck: set<Snap>, out: map<nat, bool>)
    ensures Settled({}, snaps, stuck, out, snaps, out)
  {
  }

  lemma SettledOne(o: Op, snaps: set<Snap>, stuck: set<Snap>, out: map<nat, bool>)
    ensures var ok := Destroyable(snaps, stuck, o);
            Settled({o}, snaps, stuck, out, if ok then snaps - {o.Target()} else snaps, out[o.errOut := ok])
  {
    if Destroyable(snaps, stuck, o) {
      assert Gone({o}, snaps, stuck) == {o.Target()};
    }
  }

  lemma ApartSub(a: set<Op>, b: set<Op>)
    requires a <= b && Apart(b)
    ensures Apart(a)
  {
  }

  lemma DistinctConcat(a: seq<Op>, b: seq<Op>)
    requires Distinct(a + b)
    ensures Distinct(a) && Distinct(b) && Elems(a + b) == Elems(a) + Elems(b) && Elems(a) !! Elems(b)
  {
    ElemsConcat(a, b);
    NoDuplicatesConcat(a, b);
    ApartSub(Elems(a), Elems(a + b));
    ApartSub(Elems(b), Elems(a + b));
  }

  class Zfs {
    const stuck: set<Snap>
    var snaps: set<Snap>
    var errOut: map<nat, bool>
    var script: seq<Verdict>

    constructor (snaps: set<Snap>, stuck: set<Snap>, script: seq<Verdict>)
      ensures this.snaps == snaps && this.stuck == stuck && this.script == script && errOut == map[]
    {
      this.snaps, this.stuck, this.script, errOut := snaps, stuck, script, map[];
    }

    /** One destroy command for a single snapshot. */
    method DestroyOne(o: Op) returns (ok: bool)
      modifies `snaps
      ensures ok == Destroyable(old(snaps), stuck, o)
      ensures snaps == if ok then old(snaps) - {o.Target()} else old(snaps)
    {
      ok := Destroyable(snaps, stuck, o);
      if ok {
        snaps := snaps - {o.Target()};
      }
    }

    /** One destroy command for several snapshots: all or nothing. It may fail for any reason, and does so if one
        of the snapshots cannot be destroyed. */
    method TryBatch(batch: seq<Op>) returns (v: Verdict)
      modifies `snaps, `script
      ensures !v.Destroyed? ==> snaps == old(snaps)
      ensures v.Destroyed? ==> snaps == old(snaps) - Gone(Elems(batch), old(snaps), stuck)
      ensures v.Destroyed? ==> forall o :: o in batch ==> Destroyable(old(snaps), stuck, o)
    {
      if |batch| == 0 {
        assert Gone(Elems(batch), snaps, stuck) == {};
        return Destroyed;
      }
      if |script| == 0 {
        return OtherError;
      }
      v := script[0];
      script := script[1..];
      if v.Destroyed? {
        if o :| o in batch && !Destroyable(snaps, stuck, o) {
          return OtherError;
        }
        snaps := snaps - set o | o in batch :: o.Target();
        assert Gone(Elems(batch), old(snaps), stuck) == set o | o in batch :: o.Target();
      }
    }

    /** Writes one outcome to all the requests. */
    method SetErr(ops: seq<Op>, ok: bool)
      modifies `errOut
      ensures errOut.Keys == old(errOut).Keys + Addresses(Elems(ops))
      ensures forall k :: k in old(errOut) && k !in Addresses(Elems(ops)) ==> errOut[k] == old(errOut)[k]
      ensures forall k :: k in Addresses(Elems(ops)) ==> errOut[k] == ok
    {
      for i := 0 to |ops|
        invariant errOut.Keys == old(errOut).Keys + Addresses(Elems(ops[..i]))
        invariant forall k :: k in old(errOut) && k !in Addresses(Elems(ops[..i])) ==> errOut[k] == old(errOut)[k]
        invariant forall k :: k in Addresses(Elems(ops[..i])) ==> errOut[k] == ok
      {
        errOut := errOut[ops[i].errOut := ok];
        assert Elems(ops[..i + 1]) == Elems(ops[..i]) + {ops[i]};
        assert Addresses(Elems(ops[..i + 1])) == Addresses(Elems(ops[..i])) + {ops[i].errOut};
      }
      assert ops[..|ops|] == ops;
    }

    /** Destroys one by one. */
    method DestroySeq(ops: seq<Op>)
      requires Distinct(ops)
      modifies `snaps, `errOut
      ensures Settled(Elems(ops), old(snaps), stuck, old(errOut), snaps, errOut)
    {
      SettledNone(snaps, stuck, errOut);
      assert Elems(ops[..0]) == {};
      for i := 0 to |ops|
        invariant Settled(Elems(ops[..i]), old(snaps), stuck, old(errOut), snaps, errOut)
      {
        ghost var snaps1, out1 := snaps, errOut;
        SettledOne(ops[i], snaps, stuck, errOut);
        var ok := DestroyOne(ops[i]);
        errOut := errOut[ops[i].errOut := ok];
        NextElem(ops, i);
        SettledParts(Elems(ops[..i]), {ops[i]}, old(snaps), stuck, old(errOut), snaps1, out1, snaps, errOut);
      }
      assert ops[..|ops|] == ops;
    }

    /** Destroys a batch with one command and writes success, or does nothing. */
    method DestroyWhole(batch: seq<Op>) returns (v: Verdict)
      requires Distinct(batch) && SameFs(batch)
      modifies `snaps, `errOut, `script
      ensures v.Destroyed? ==> Settled(Elems(batch), old(snaps), stuck, old(errOut), snaps, errOut)
      ensures !v.Destroyed? ==> snaps == old(snaps) && errOut == old(errOut)
    {
      v := TryBatch(batch);
      if v.Destroyed? {
        SetErr(batch, true);
      }
    }

    /** Destroys a batch of one filesystem: as a whole, in halves, without what is reported undestroyable, or one
        by one. */
    method DestroyBatchedRec(batch: seq<Op>)
      requires Distinct(batch) && SameFs(batch)
      modifies `snaps, `errOut, `script
      ensures Settled(Elems(batch), old(snaps), stuck, old(errOut), snaps, errOut)
      decreases |batch|
    {
      if |batch| <= 1 {
        DestroySeq(batch);
        return;
      }
      var v := DestroyWhole(batch);
      if v.Destroyed? {
        return;
      }
      if v.E2BIG? {
        var h := |batch| / 2;
        assert batch == batch[..h] + batch[h..];
        DistinctConcat(batch[..h], batch[h..]);
        DestroyBatchedRec(batch[..h]);
        ghost var snaps1, out1 := snaps, errOut;
        DestroyBatchedRec(batch[h..]);
        SettledParts(Elems(batch[..h]), Elems(batch[h..]), old(snaps), stuck, old(errOut), snaps1, out1, snaps, errOut);
        return;
      }
      if v.Undestroyable? {
        DestroyStripped(batch, v.names);
        return;
      }
      DestroySeq(batch);
    }

    /** Once more without the undestroyable snapshots, and one by one what is left. */
    method DestroyStripped(batch: seq<Op>, names: set<string>)
      requires Distinct(batch) && SameFs(batch)
      modifies `snaps, `errOut, `script
      ensures Settled(Elems(batch), old(snaps), stuck, old(errOut), snaps, errOut)
    {
      var stripped, remaining := Strip(batch, names);
      StrippedParts(batch, names, stripped, remaining);
      var v := DestroyWhole(stripped);
      if !v.Destroyed? {
        DestroySeq(batch);
        return;
      }
      ghost var snaps1, out1 := snaps, errOut;
      DestroySeq(remaining);
      SettledParts(Elems(stripped), Elems(remaining), old(snaps), stuck, old(errOut), snaps1, out1, snaps, errOut);
    }

    method DestroyBatched(ops: seq<Op>, maxBatchSize: int)
      requires Distinct(ops)
      modifies `snaps, `errOut, `script
      ensures Settled(Elems(ops), old(snaps), stuck, old(errOut), snaps, errOut)
    {
      var batches := BuildBatches(ops, maxBatchSize);
      SettledNone(snaps, stuck, errOut);
      assert Elems<Op>([]) == {};
      for i := 0 to |batches|
        invariant Settled(Elems(Flatten(batches[..i])), old(snaps), stuck, old(errOut), snaps, errOut)
      {
        NextBatch(batches, i);
        assert BatchOk(batches[i], maxBatchSize);
        ghost var snaps1, out1 := snaps, errOut;
        DestroyBatchedRec(batches[i]);
        SettledParts(Elems(Flatten(batches[..i])), Elems(batches[i]), old(snaps), stuck, old(errOut), snaps1, out1, snaps, errOut);
      }
      assert batches[..|batches|] == batches;
    }

    /** Sorts out the requests without filesystem or snapshot name. */
    method Validate(reqs: seq<Op>) returns (validated: seq<Op>, ghost invalid: set<Op>)
      requires Distinct(reqs) && forall s :: s in snaps ==> s.fs != "" && s.name != ""
      modifies `errOut
      ensures Distinct(validated) && invalid !! Elems(validated) && invalid + Elems(validated) == Elems(reqs)
      ensures Settled(invalid, snaps, stuck, old(errOut), snaps, errOut)
      ensures forall o :: o in invalid ==> o.fs == "" || o.name == ""
      ensures forall o :: o in validated ==> o.fs != "" && o.name != ""
    {
      validated, invalid := [], {};
      SettledNone(snaps, stuck, errOut);
      for i := 0 to |reqs|
        invariant NoDuplicates(validated) && invalid !! Elems(validated)
        invariant invalid + Elems(validated) == Elems(reqs[..i])
        invariant Settled(invalid, snaps, stuck, old(errOut), snaps, errOut)
        invariant forall o :: o in invalid ==> o.fs == "" || o.name == ""
        invariant forall o :: o in validated ==> o.fs != "" && o.name != ""
      {
        NextElem(reqs, i);
        var o := reqs[i];
        if o.fs == "" || o.name == "" {
          ghost var out1 := errOut;
          SettledOne(o, snaps, stuck, errOut);
          errOut := errOut[o.errOut := false];
          ApartSub(invalid + {o}, Elems(reqs[..i]) + {o});
          SettledParts(invalid, {o}, snaps, stuck, old(errOut), snaps, out1, snaps, errOut);
          invalid := invalid + {o};
        } else {
          ElemsConcat(validated, [o]);
          validated := validated + [o];
        }
      }
      assert reqs[..|reqs|] == reqs;
      ApartSub(Elems(validated), Elems(reqs));
    }
  }

  predicate SameFs(batch: seq<Op>) {
    forall i :: 0 <= i < |batch| ==> batch[i].fs == batch[0].fs
  }

  /** A split of the first requests into those whose name is not and those whose name is in `names`. */
  ghost predicate Stripped(ops: set<Op>, names: set<string>, stripped: seq<Op>, remaining: seq<Op>) {
    && NoDuplicates(stripped) && NoDuplicates(remaining)
    && Elems(stripped) == (set o | o in ops && o.name !in names)
    && Elems(remaining) == (set o | o in ops && o.name in names)
  }

  lemma StripNext(ops: set<Op>, names: set<string>, stripped: seq<Op>, remaining: seq<Op>, o: Op)
    requires Stripped(ops, names, stripped, remaining) && o !in ops
    ensures o.name in names ==> Stripped(ops + {o}, names, stripped, remaining + [o])
    ensures o.name !in names ==> Stripped(ops + {o}, names, stripped + [o], remaining)
  {
    ElemsAppend(stripped, o);
    ElemsAppend(remaining, o);
  }

  lemma StrippedParts(batch: seq<Op>, names: set<string>, stripped: seq<Op>, remaining: seq<Op>)
    requires Distinct(batch) && SameFs(batch) && Stripped(Elems(batch), names, stripped, remaining)
    ensures Distinct(stripped) && SameFs(stripped) && Distinct(remaining)
    ensures Elems(stripped) + Elems(remaining) == Elems(batch) && Elems(stripped) !! Elems(remaining)
  {
    ApartSub(Elems(stripped), Elems(batch));
    ApartSub(Elems(remaining), Elems(batch));
    forall i | 0 <= i < |stripped| ensures stripped[i].fs == stripped[0].fs {
      assert stripped[i] in Elems(stripped) && stripped[0] in Elems(stripped);
      assert stripped[i] in batch && stripped[0] in batch;
    }
  }

  /** Splits off what is reported undestroyable. */
  method Strip(batch: seq<Op>, names: set<string>) returns (stripped: seq<Op>, remaining: seq<Op>)
    requires Distinct(batch)
    ensures Stripped(Elems(batch), names, stripped, remaining)
  {
    stripped, remaining := [], [];
    for i := 0 to |batch|
      invariant Stripped(Elems(batch[..i]), names, stripped, remaining)
    {
      NextElem(batch, i);
      StripNext(Elems(batch[..i]), names, stripped, remaining, batch[i]);
      if batch[i].name in names {
        remaining := remaining + [batch[i]];
      } else {
        stripped := stripped + [batch[i]];
      }
    }
    assert batch[..|batch|] == batch;
  }

  function Flatten(batches: seq<seq<Op>>): (r: seq<Op>) {
    if batches == [] then [] else Flatten(batches[..|batches| - 1]) + batches[|batches| - 1]
  }

  lemma {:induction false} FlattenPrefix(batches: seq<seq<Op>>, i: nat)
    requires i <= |batches| && Distinct(Flatten(batches))
    ensures Distinct(Flatten(batches[..i]))
  {
    if i == |batches| {
      assert batches[..i] == batches;
    } else {
      var n := |batches| - 1;
      DistinctConcat(Flatten(batches[..n]), batches[n]);
      FlattenPrefix(batches[..n], i);
      assert batches[..n][..i] == batches[..i];
    }
  }

  lemma NextBatch(batches: seq<seq<Op>>, i: nat)
    requires i < |batches| && Distinct(Flatten(batches))
    ensures Distinct(batches[i]) && Elems(Flatten(batches[..i])) !! Elems(batches[i])
    ensures Elems(Flatten(batches[..i + 1])) == Elems(Flatten(batches[..i])) + Elems(batches[i])
    ensures Apart(Elems(Flatten(batches[..i])) + Elems(batches[i]))
  {
    FlattenPrefix(batches, i + 1);
    assert batches[..i + 1][..i] == batches[..i];
    DistinctConcat(Flatten(batches[..i]), batches[i]);
  }

  // Sorting by filesystem, then name.

  predicate OpLe(a: Op, b: Op) {
    if a.fs != b.fs then StrLe(a.fs, b.fs) else StrLe(a.name, b.name)
  }

  lemma OpLeTotal(a: Op, b: Op)
    ensures OpLe(a, b) || OpLe(b, a)
  {
    StrLeTotal(a.fs, b.fs);
    StrLeTotal(a.name, b.name);
  }

  lemma OpLeTransitive(a: Op, b: Op, c: Op)
    requires OpLe(a, b) && OpLe(b, c)
    ensures OpLe(a, c)
  {
    StrLeTotal(a.fs, b.fs);
    if a.fs == b.fs == c.fs {
      StrLeTransitive(a.name, b.name, c.name);
    } else if a.fs != b.fs && b.fs != c.fs {
      StrLeTransitive(a.fs, b.fs, c.fs);
    }
  }

  predicate OpsSorted(ops: seq<Op>) {
    forall i, j :: 0 <= i < j < |ops| ==> OpLe(ops[i], ops[j])
  }

  method InsertOp(s: seq<Op>, o: Op) returns (r: seq<Op>)
    requires OpsSorted(s)
    ensures OpsSorted(r) && Elems(r) == Elems(s) + {o}
    ensures NoDuplicates(s) && o !in s ==> NoDuplicates(r)
  {
    var i := |s|;
    while i > 0 && !OpLe(s[i - 1], o)
      invariant 0 <= i <= |s|
      invariant forall k :: i <= k < |s| ==> !OpLe(s[k], o)
    {
      i := i - 1;
    }
    r := s[..i] + [o] + s[i..];
    forall k | 0 <= k < i ensures OpLe(s[k], o) {
      if k < i - 1 {
        OpLeTransitive(s[k], s[i - 1], o);
      }
    }
    forall k | i <= k < |s| ensures OpLe(o, s[k]) {
      OpLeTotal(o, s[k]);
    }
  }

  method SortOps(ops: seq<Op>) returns (r: seq<Op>)
    requires NoDuplicates(ops)
    ensures OpsSorted(r) && Elems(r) == Elems(ops) && NoDuplicates(r)
  {
    r := [];
    for i := 0 to |ops|
      invariant OpsSorted(r) && Elems(r) == Elems(ops[..i]) && NoDuplicates(r)
    {
      assert ops[..i + 1] == ops[..i] + [ops[i]];
      ElemsConcat(ops[..i], [ops[i]]);
      NoDuplicatesConcat(ops[..i] + [ops[i]], ops[i + 1..]);
      NoDuplicatesConcat(ops[..i], [ops[i]]);
      r := InsertOp(r, ops[i]);
    }
    assert ops[..|ops|] == ops;
  }

  /** A filesystem that is left behind in sorted requests does not come back. */
  lemma GroupEnds(ops: seq<Op>, c: nat, u: nat, k: nat)
    requires OpsSorted(ops) && c < u <= k < |ops| && ops[u].fs != ops[c].fs
    ensures ops[k].fs != ops[c].fs
  {
    assert OpLe(ops[c], ops[u]);
    if k > u {
      assert OpLe(ops[u], ops[k]);
      StrLeTotal(ops[c].fs, ops[u].fs);
    }
  }

  /** The end of the batch that begins at `consumed`. */
  method BatchEnd(sorted: seq<Op>, consumed: nat, maxBatchSize: int) returns (until: nat)
    requires OpsSorted(sorted) && consumed < |sorted|
    ensures consumed < until <= |sorted|
    ensures maxBatchSize >= 1 ==> until - consumed <= maxBatchSize
    ensures SameFs(sorted[consumed..until])
    ensures maxBatchSize < 1 ==> forall k :: until <= k < |sorted| ==> sorted[k].fs != sorted[consumed].fs
  {
    until := consumed;
    while until < |sorted| && (maxBatchSize < 1 || until - consumed < maxBatchSize) && sorted[until].fs == sorted[consumed].fs
      invariant consumed <= until <= |sorted|
      invariant maxBatchSize >= 1 ==> until - consumed <= maxBatchSize
      invariant forall k :: consumed <= k < until ==> sorted[k].fs == sorted[consumed].fs
    {
      until := until + 1;
    }
    forall k | maxBatchSize < 1 && until <= k < |sorted| ensures sorted[k].fs != sorted[consumed].fs {
      GroupEnds(sorted, consumed, until, k);
    }
  }

  predicate BatchOk(b: seq<Op>, maxBatchSize: int) {
    b != [] && SameFs(b) && (maxBatchSize >= 1 ==> |b| <= maxBatchSize)
  }

  /** No filesystem of the batches occurs in `rest`, and none in two batches. */
  ghost predicate FsApart(batches: seq<seq<Op>>, rest: seq<Op>) {
    && (forall b: seq<Op>, o: Op :: b in batches && o in rest && b != [] ==> o.fs != b[0].fs)
    && (forall i, j :: 0 <= i < j < |batches| && batches[i] != [] && batches[j] != [] ==> batches[i][0].fs != batches[j][0].fs)
  }

  lemma FsApartNext(batches: seq<seq<Op>>, rest: seq<Op>, n: nat)
    requires FsApart(batches, rest) && 0 < n <= |rest|
    requires forall k :: n <= k < |rest| ==> rest[k].fs != rest[0].fs
    ensures FsApart(batches + [rest[..n]], rest[n..])
  {
    assert rest[0] in rest && rest[..n][0] == rest[0];
    forall b: seq<Op>, o: Op | b in batches + [rest[..n]] && o in rest[n..] && b != [] ensures o.fs != b[0].fs {
      assert o in rest;
    }
  }

  lemma FlattenNext(batches: seq<seq<Op>>, b: seq<Op>)
    ensures Flatten(batches + [b]) == Flatten(batches) + b
  {
    assert (batches + [b])[..|batches|] == batches;
  }

  /** The batches hold the requests, sorted; each is of one filesystem and not over the maximum, and without a
      maximum there is one per filesystem. */
  method BuildBatches(reqs: seq<Op>, maxBatchSize: int) returns (batches: seq<seq<Op>>)
    requires Distinct(reqs)
    ensures Distinct(Flatten(batches)) && Elems(Flatten(batches)) == Elems(reqs) && OpsSorted(Flatten(batches))
    ensures forall b :: b in batches ==> BatchOk(b, maxBatchSize)
    ensures maxBatchSize < 1 ==> FsApart(batches, [])
  {
    var sorted := SortOps(reqs);
    batches := [];
    var consumed := 0;
    assert sorted[0..] == sorted;
    while consumed < |sorted|
      invariant 0 <= consumed <= |sorted| && Flatten(batches) == sorted[..consumed]
      invariant forall b :: b in batches ==> BatchOk(b, maxBatchSize)
      invariant maxBatchSize < 1 ==> FsApart(batches, sorted[consumed..])
    {
      var until := BatchEnd(sorted, consumed, maxBatchSize);
      FlattenNext(batches, sorted[consumed..until]);
      assert sorted[..until] == sorted[..consumed] + sorted[consumed..until];
      if maxBatchSize < 1 {
        ghost var rest, n := sorted[consumed..], until - consumed;
        FsApartNext(batches, rest, n);
        assert rest[..n] == sorted[consumed..until] && rest[n..] == sorted[until..];
      }
      batches := batches + [sorted[consumed..until]];
      consumed := until;
    }
    assert sorted[..consumed] == sorted;
  }

  /** The outcome of every request and the snapshots that are left are those of destroying one by one, whichever
      way is taken; if the feature check fails, nothing is destroyed and everybody gets its error. */
  method DoDestroy(z: Zfs, reqs: seq<Op>, commaSupported: Option<bool>, maxBatchSize: int)
    requires Distinct(reqs) && forall s :: s in z.snaps ==> s.fs != "" && s.name != ""
    modifies z
    ensures commaSupported.Some? ==> Settled(Elems(reqs), old(z.snaps), z.stuck, old(z.errOut), z.snaps, z.errOut)
    ensures commaSupported.None? ==> z.snaps == old(z.snaps) && forall o :: o in reqs ==> o.errOut in z.errOut && !z.errOut[o.errOut]
  {
    var validated;
    ghost var invalid;
    validated, invalid := z.Validate(reqs);
    ghost var snaps1, out1 := z.snaps, z.errOut;
    if commaSupported.None? {
      z.SetErr(validated, false);
      return;
    }
    if !commaSupported.value {
      z.DestroySeq(validated);
    } else {
      z.DestroyBatched(validated, maxBatchSize);
    }
    SettledParts(invalid, Elems(validated), old(z.snaps), z.stuck, old(z.errOut), snaps1, out1, z.snaps, z.errOut);
  }

  lemma NextElem(ops: seq<Op>, i: nat)
    requires Distinct(ops) && i < |ops|
    ensures Elems(ops[..i + 1]) == Elems(ops[..i]) + {ops[i]} && ops[i] !in Elems(ops[..i])
    ensures Apart(Elems(ops[..i]) + {ops[i]})
  {
    var a := ops[..i] + [ops[i]];
    assert ops == a + ops[i + 1..] && ops[..i + 1] == a;
    DistinctConcat(a, ops[i + 1..]);
    DistinctConcat(ops[..i], [ops[i]]);
  }
}
