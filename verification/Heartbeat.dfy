/** The connection that hides heartbeat frames from its reader. */
module Heartbeat {
  import opened Bytes
  import opened FC = FrameConn

  const HEARTBEAT: u32 := 0x100_0000

  /** The next four bits are reserved for this layer. */
  predicate IsPublicType(typ: u32) {
    FC.IsPublic(typ) && typ / 0x100_0000 % 16 == 0
  }

  /** Reading the next frame that is not a heartbeat. */
  function Filtered(v: View, end: Error): (r: (Outcome, View))
    decreases |v.pending|
  {
    var r := Read(v, end);
    if !r.0.Got? || IsPublicType(r.0.frame.typ) then r
    else if r.0.frame.typ != HEARTBEAT then (Failed(UnknownFrameType), r.1)
    else ReadShrinks(v, end); Filtered(r.1, end)
  }

  lemma {:induction false} FilteredShrinks(v: View, end: Error)
    ensures Filtered(v, end).0.Got? ==> |Filtered(v, end).1.pending| < |v.pending|
    decreases |v.pending|
  {
    ReadShrinks(v, end);
    var r := Read(v, end);
    if r.0.Got? && r.0.frame.typ == HEARTBEAT {
      FilteredShrinks(r.1, end);
    }
  }

  class Conn {
    const fc: FC.Conn

    constructor (fc: FC.Conn)
      ensures this.fc == fc
    {
      this.fc := fc;
    }

    method ReadFrame() returns (o: Outcome)
      requires fc.Valid()
      modifies fc, fc.bufPool
      ensures fc.Valid()
      ensures (o, fc.Abstract()) == Filtered(old(fc.Abstract()), fc.end)
    {
      while true
        invariant fc.Valid()
        invariant Filtered(fc.Abstract(), fc.end) == Filtered(old(fc.Abstract()), fc.end)
        decreases |fc.Abstract().pending|
      {
        ReadShrinks(fc.Abstract(), fc.end);
        o := fc.ReadFrame();
        if !o.Got? {
          return;
        }
        if IsPublicType(o.frame.typ) {
          return;
        }
        if o.frame.typ != HEARTBEAT {
          return Failed(UnknownFrameType);
        }
      }
    }
  }

  /** What a writer of this layer or its heartbeat goroutine may put on the wire, and the reader can take. */
  predicate Sent(f: Frame) {
    Deliverable(f) && (IsPublicType(f.typ) || f.typ == HEARTBEAT)
  }

  function DropHeartbeats(fs: seq<Frame>): (r: seq<Frame>)
    ensures |r| <= |fs|
  {
    if fs == [] then []
    else if fs[0].typ == HEARTBEAT then DropHeartbeats(fs[1..])
    else [fs[0]] + DropHeartbeats(fs[1..])
  }

  lemma FilteredSkips(v: View, fs: seq<Frame>, end: Error)
    requires fs != [] && Carries(v, fs, end) && Sent(fs[0]) && fs[0].typ == HEARTBEAT
    ensures Filtered(v, end) == Filtered(Read(v, end).1, end) && Carries(Read(v, end).1, fs[1..], end)
  {
    ReadCarried(v, fs, end);
  }

  lemma FilteredTakes(v: View, fs: seq<Frame>, end: Error)
    requires fs != [] && Carries(v, fs, end) && Sent(fs[0]) && fs[0].typ != HEARTBEAT
    ensures Filtered(v, end).0 == Got(fs[0]) && Carries(Filtered(v, end).1, fs[1..], end)
  {
    ReadCarried(v, fs, end);
  }

  /** Everything a reader gets until the first error. */
  function AllReads(v: View, end: Error): (r: seq<Outcome>)
    decreases |v.pending|
  {
    var r := Filtered(v, end);
    if r.0.Got? then FilteredShrinks(v, end); [r.0] + AllReads(r.1, end) else [r.0]
  }

  lemma ReadsSkip(v: View, fs: seq<Frame>, end: Error)
    requires fs != [] && Carries(v, fs, end) && Sent(fs[0]) && fs[0].typ == HEARTBEAT
    ensures AllReads(v, end) == AllReads(Read(v, end).1, end) && Carries(Read(v, end).1, fs[1..], end)
  {
    FilteredSkips(v, fs, end);
  }

  lemma ReadsTake(v: View, fs: seq<Frame>, end: Error)
    requires fs != [] && Carries(v, fs, end) && Sent(fs[0]) && fs[0].typ != HEARTBEAT
    ensures AllReads(v, end) == [Got(fs[0])] + AllReads(Filtered(v, end).1, end)
    ensures Carries(Filtered(v, end).1, fs[1..], end)
  {
    FilteredTakes(v, fs, end);
  }

  lemma ReadsFail(v: View, end: Error)
    requires !Read(v, end).0.Got?
    ensures AllReads(v, end) == [Read(v, end).0]
  {
  }

  /** However heartbeats are interleaved, the reader gets exactly the other frames, in order, then the end error. */
  lemma {:induction false} HeartbeatsInvisible(v: View, fs: seq<Frame>, end: Error)
    requires Carries(v, fs, end) && forall i :: 0 <= i < |fs| ==> Sent(fs[i])
    ensures AllReads(v, end) == Gots(DropHeartbeats(fs)) + [Failed(end)]
    decreases |fs|
  {
    if fs == [] {
      ReadEnd(v, end);
      ReadsFail(v, end);
      assert Gots([]) == [];
    } else if fs[0].typ == HEARTBEAT {
      ReadsSkip(v, fs, end);
      HeartbeatsInvisible(Read(v, end).1, fs[1..], end);
    } else {
      ReadsTake(v, fs, end);
      HeartbeatsInvisible(Filtered(v, end).1, fs[1..], end);
      GotsCons(fs[0], DropHeartbeats(fs[1..]));
    }
  }

  /** A frame of a reserved type that is no heartbeat is never skipped: it ends everything with an error. */
  lemma {:induction false} UnknownTypeEndsReads(v: View, fs: seq<Frame>, k: nat, end: Error)
    requires Carries(v, fs, end) && k < |fs| && (forall i :: 0 <= i < k ==> Sent(fs[i]))
    requires Deliverable(fs[k]) && !IsPublicType(fs[k].typ) && fs[k].typ != HEARTBEAT
    ensures AllReads(v, end) == Gots(DropHeartbeats(fs[..k])) + [Failed(UnknownFrameType)]
    decreases k
  {
    if k == 0 {
      ReadCarried(v, fs, end);
      assert Filtered(v, end).0 == Failed(UnknownFrameType);
      assert Gots([]) == [];
    } else {
      assert Sent(fs[0]) && fs[..k][1..] == fs[1..][..k - 1];
      if fs[0].typ == HEARTBEAT {
        ReadsSkip(v, fs, end);
        UnknownTypeEndsReads(Read(v, end).1, fs[1..], k - 1, end);
      } else {
        ReadsTake(v, fs, end);
        UnknownTypeEndsReads(Filtered(v, end).1, fs[1..], k - 1, end);
        GotsCons(fs[0], DropHeartbeats(fs[1..][..k - 1]));
      }
    }
  }

  ghost predicate CutReads(v: View, fs: seq<Frame>, cut: nat, end: Error) {
    AllReads(v, end) == Gots(DropHeartbeats(fs[..Delivered(fs, cut)])) + [Failed(CutError(fs, cut, end))]
  }

  lemma CutSkips(v: View, fs: seq<Frame>, cut: nat, end: Error)
    requires Whole(fs, cut) && Read(v, end).0 == Got(fs[0]) && Sent(fs[0])
    requires CutReads(Read(v, end).1, fs[1..], cut - HEADER_LEN - |fs[0].payload|, end)
    ensures CutReads(v, fs, cut, end)
  {
    var v1, n := Read(v, end).1, Delivered(fs, cut);
    assert fs[..n][1..] == fs[1..][..n - 1] && fs[..n][0] == fs[0];
    if fs[0].typ == HEARTBEAT {
      assert Filtered(v, end) == Filtered(v1, end);
      assert AllReads(v, end) == AllReads(v1, end);
    } else {
      assert Filtered(v, end) == (Got(fs[0]), v1);
      assert AllReads(v, end) == [Got(fs[0])] + AllReads(v1, end);
      GotsCons(fs[0], DropHeartbeats(fs[1..][..n - 1]));
    }
  }

  lemma CutEnds(v: View, fs: seq<Frame>, cut: nat, end: Error)
    requires CutCarries(v, fs, cut, end) && !Whole(fs, cut) && (fs != [] ==> Deliverable(fs[0]))
    ensures CutReads(v, fs, cut, end)
  {
    FailsBeyond(v, fs, cut, end);
    ReadsFail(v, end);
    assert fs[..0] == [] && Gots([]) == [];
  }

  /** The same for a wire that is cut at any byte: the frames that are delivered, without heartbeats, then the error. */
  lemma {:induction false} HeartbeatsInvisibleOnCut(v: View, fs: seq<Frame>, cut: nat, end: Error)
    requires CutCarries(v, fs, cut, end) && forall i :: 0 <= i < |fs| ==> Sent(fs[i])
    ensures CutReads(v, fs, cut, end)
    decreases |fs|
  {
    if Whole(fs, cut) {
      TakesWhole(v, fs, cut, end);
      HeartbeatsInvisibleOnCut(Read(v, end).1, fs[1..], cut - HEADER_LEN - |fs[0].payload|, end);
      CutSkips(v, fs, cut, end);
    } else {
      CutEnds(v, fs, cut, end);
    }
  }

  /** A frame of one byte, heartbeat or not, ends everything with a panic. */
  lemma {:induction false} SingleByteEndsReads(v: View, fs: seq<Frame>, k: nat, end: Error)
    requires Carries(v, fs, end) && k < |fs| && (forall i :: 0 <= i < k ==> Sent(fs[i])) && |fs[k].payload| == 1
    ensures AllReads(v, end) == Gots(DropHeartbeats(fs[..k])) + [Panic]
    decreases k
  {
    if k == 0 {
      ParseEncoded(fs[0], EncodeAll(fs[1..]), end);
      ReadsFail(v, end);
      assert Gots([]) == [];
    } else {
      assert Sent(fs[0]) && fs[..k][1..] == fs[1..][..k - 1];
      if fs[0].typ == HEARTBEAT {
        ReadsSkip(v, fs, end);
        SingleByteEndsReads(Read(v, end).1, fs[1..], k - 1, end);
      } else {
        ReadsTake(v, fs, end);
        SingleByteEndsReads(Filtered(v, end).1, fs[1..], k - 1, end);
        GotsCons(fs[0], DropHeartbeats(fs[1..][..k - 1]));
      }
    }
  }

  lemma {:induction false} DropKeeps(fs: seq<Frame>, i: nat)
    requires i < |fs| && fs[i].typ != HEARTBEAT
    ensures fs[i] in DropHeartbeats(fs)
  {
    if i > 0 {
      DropKeeps(fs[1..], i - 1);
    }
  }

  lemma {:induction false} DropFinds(fs: seq<Frame>, f: Frame)
    requires f in DropHeartbeats(fs)
    ensures f in fs
  {
    if fs[0].typ == HEARTBEAT || f != fs[0] {
      DropFinds(fs[1..], f);
    }
  }

  /** The goroutine that fills the channel of frame results. */
  method ReadFrames(c: Conn) returns (got: seq<Outcome>)
    requires c.fc.Valid()
    modifies c.fc, c.fc.bufPool
    ensures c.fc.Valid() && got == AllReads(old(c.fc.Abstract()), c.fc.end)
  {
    got := [];
    while true
      invariant c.fc.Valid()
      invariant got + AllReads(c.fc.Abstract(), c.fc.end) == AllReads(old(c.fc.Abstract()), c.fc.end)
      decreases |c.fc.Abstract().pending|
    {
      ghost var before := got + AllReads(c.fc.Abstract(), c.fc.end);
      FilteredShrinks(c.fc.Abstract(), c.fc.end);
      var o := c.ReadFrame();
      got := got + [o];
      if !o.Got? {
        return;
      }
      assert got + AllReads(c.fc.Abstract(), c.fc.end) == before;
    }
  }
}
