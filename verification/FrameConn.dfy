/** Frames on a byte stream: the writer's codec and the reader that looks one header ahead. */
module FrameConn {
  import opened Versions
  import opened Bytes
  import BufPool

  const RST: u32 := 0x1000_0000
  const HEADER_LEN := 8

  /** The four most significant bits are reserved for this layer. */
  predicate IsPublic(typ: u32) {
    typ / 0x1000_0000 == 0
  }

  datatype Header = Header(typ: u32, payloadLen: u32)
  datatype Frame = Frame(typ: u32, payload: seq<byte>)

  function PutHeader(h: Header): (r: seq<byte>)
    ensures |r| == HEADER_LEN
  {
    PutUint32(h.typ) + PutUint32(h.payloadLen)
  }

  function Unmarshal(b: seq<byte>): (r: Header)
    requires |b| == HEADER_LEN
  {
    Header(Uint32(b[0..4]), Uint32(b[4..8]))
  }

  lemma HeaderRoundTrip(h: Header)
    ensures Unmarshal(PutHeader(h)) == h
  {
    assert PutHeader(h)[0..4] == PutUint32(h.typ) && PutHeader(h)[4..8] == PutUint32(h.payloadLen);
    Uint32RoundTrip(h.typ);
    Uint32RoundTrip(h.payloadLen);
  }

  lemma UnmarshalRoundTrip(b: seq<byte>)
    requires |b| == HEADER_LEN
    ensures PutHeader(Unmarshal(b)) == b
  {
    PutUint32RoundTrip(b[0..4]);
    PutUint32RoundTrip(b[4..8]);
    assert b[0..4] + b[4..8] == b;
  }

  /** What `writeFrame` puts on the wire; the length field is truncated to 32 bits. */
  function Encode(f: Frame): (r: seq<byte>)
    ensures |r| == HEADER_LEN + |f.payload|
  {
    PutHeader(Header(f.typ, |f.payload| % 0x1_0000_0000)) + f.payload
  }

  function EncodeAll(fs: seq<Frame>): (r: seq<byte>)
    ensures fs != [] ==> |r| >= HEADER_LEN
  {
    if fs == [] then [] else Encode(fs[0]) + EncodeAll(fs[1..])
  }

  datatype Error = EOF | UnexpectedEOF | Other(code: nat) | ErrShutdown | UnknownFrameType
  datatype Outcome = Got(frame: Frame) | Failed(error: Error) | Panic

  /** What the reader still has to deliver, without its look-ahead: the bytes from the next header on, an end error
      it has seen already, and whether it shuts down. */
  datatype View = View(pending: seq<byte>, nextReadErr: Option<Error>, shuttingDown: bool)

  /** The error of reading a full header where the wire ends with `end` after `n` bytes. */
  function ShortRead(end: Error, n: nat): (r: Error) {
    if n > 0 && end == EOF then UnexpectedEOF else end
  }

  /** Reading one frame without look-ahead. A frame followed by part of a header is lost. */
  function ParseFrame(b: seq<byte>, end: Error): (r: (Outcome, View))
  {
    if |b| < HEADER_LEN then (Failed(ShortRead(end, |b|)), View([], None, false))
    else
      var h, rest := Unmarshal(b[..HEADER_LEN]), b[HEADER_LEN..];
      var n := h.payloadLen;
      if n == 0 then (Got(Frame(h.typ, [])), View(rest, None, false))
      else if n == 1 then (Panic, View(b, None, false))
      else if |rest| == n then (Got(Frame(h.typ, rest)), View([], Some(end), false))
      else if |rest| < n + HEADER_LEN then (Failed(end), View(b[..HEADER_LEN], None, false))
      else (Got(Frame(h.typ, rest[..n])), View(rest[n..], None, false))
  }

  function Read(v: View, end: Error): (r: (Outcome, View)) {
    if v.shuttingDown then (Failed(ErrShutdown), v)
    else if v.nextReadErr.Some? then (Failed(v.nextReadErr.value), v.(nextReadErr := None))
    else
      var (o, v') := ParseFrame(v.pending, end);
      if o.Got? && o.frame.typ == RST then (Failed(ErrShutdown), v'.(shuttingDown := true)) else (o, v')
  }

  lemma ReadShrinks(v: View, end: Error)
    ensures Read(v, end).0.Got? ==> |Read(v, end).1.pending| < |v.pending|
  {
  }

  /** The connection. `wire` is what the peer has sent and the reader has not taken yet. */
  class Conn {
    const end: Error
    const bufPool: BufPool.Pool
    var wire: seq<byte>
    var readNextValid: bool
    var readNext: Header
    var nextReadErr: Option<Error>
    var shuttingDown: bool

    ghost predicate Valid()
      reads this, bufPool
    {
      && bufPool.Valid() && bufPool.minShift == 15 && bufPool.maxShift == 22 && bufPool.onNoFit == BufPool.NoFit(true, true)
      && (nextReadErr.Some? ==> !readNextValid && wire == [])
    }

    ghost function Abstract(): (v: View)
      reads this
    {
      View((if readNextValid then PutHeader(readNext) else []) + wire, nextReadErr, shuttingDown)
    }

    constructor (wire: seq<byte>, end: Error, bufPool: BufPool.Pool)
      requires bufPool.Valid() && bufPool.minShift == 15 && bufPool.maxShift == 22
      requires bufPool.onNoFit == BufPool.NoFit(true, true)
      ensures Valid() && Abstract() == View(wire, None, false) && this.end == end && this.bufPool == bufPool
    {
      this.wire, this.end, this.bufPool := wire, end, bufPool;
      readNextValid, readNext, nextReadErr, shuttingDown := false, Header(0, 0), None, false;
    }

    /** Reads the header that was not read ahead. */
    method FillHeader() returns (err: Option<Error>)
      requires Valid() && nextReadErr.None? && !readNextValid
      modifies this
      ensures Valid() && nextReadErr.None? && shuttingDown == old(shuttingDown)
      ensures |old(wire)| < HEADER_LEN ==> err == Some(ShortRead(end, |old(wire)|)) && wire == [] && !readNextValid
      ensures |old(wire)| >= HEADER_LEN ==> err.None? && readNextValid && wire == old(wire)[HEADER_LEN..] && Abstract() == old(Abstract())
    {
      if |wire| < HEADER_LEN {
        err := Some(ShortRead(end, |wire|));
        wire := [];
        return;
      }
      UnmarshalRoundTrip(wire[..HEADER_LEN]);
      readNext := Unmarshal(wire[..HEADER_LEN]);
      wire := wire[HEADER_LEN..];
      readNextValid := true;
      assert Abstract().pending == old(wire);
      return None;
    }

    /** Payload and next header in one vectored read. */
    method ReadPayload() returns (o: Outcome)
      requires Valid() && !shuttingDown && nextReadErr.None? && readNextValid && readNext.payloadLen > 1
      modifies this
      ensures Valid()
      ensures (o, Abstract()) == ParseFrame(old(Abstract()).pending, end)
    {
      HeaderRoundTrip(readNext);
      ghost var b := Abstract().pending;
      assert b[..HEADER_LEN] == PutHeader(readNext) && b[HEADER_LEN..] == wire;
      var h, n := readNext, readNext.payloadLen;
      if |wire| < n + HEADER_LEN {
        if |wire| != n {
          wire := [];
          assert Abstract().pending == PutHeader(h);
          return Failed(end);
        }
        nextReadErr := Some(end);
        readNextValid := false;
        o := Got(Frame(h.typ, wire));
        wire := [];
        assert Abstract().pending == [];
        return;
      }
      var payload, next := wire[..n], wire[n..n + HEADER_LEN];
      UnmarshalRoundTrip(next);
      readNext := Unmarshal(next);
      wire := wire[n + HEADER_LEN..];
      assert Abstract().pending == old(wire)[n..];
      return Got(Frame(h.typ, payload));
    }

    method ReadNext() returns (o: Outcome)
      requires Valid() && !shuttingDown && nextReadErr.None?
      modifies this, bufPool
      ensures Valid()
      ensures (o, Abstract()) == ParseFrame(old(Abstract()).pending, end)
      ensures o.Got? && o.frame.payload == [] ==> old(readNextValid) ==> wire == old(wire)
      ensures o.Got? && o.frame.payload == [] ==> !old(readNextValid) ==> wire == old(wire)[HEADER_LEN..]
    {
      if !readNextValid {
        var err := FillHeader();
        if err.Some? {
          assert old(Abstract()).pending == old(wire) && Abstract().pending == [];
          return Failed(err.value);
        }
      }
      HeaderRoundTrip(readNext);
      ghost var b := Abstract().pending;
      assert b == old(Abstract()).pending;
      assert b[..HEADER_LEN] == PutHeader(readNext) && b[HEADER_LEN..] == wire;
      var buffer := bufPool.Get(readNext.payloadLen);
      if buffer.Panic? {
        return Panic;
      }
      if readNext.payloadLen == 0 {
        readNextValid := false;
        assert Abstract().pending == wire;
        return Got(Frame(readNext.typ, []));
      }
      o := ReadPayload();
    }

    /** `ReadFrame` behaves as the reader without look-ahead; an empty frame is returned without taking a byte
        behind its header from the wire. */
    method ReadFrame() returns (o: Outcome)
      requires Valid()
      modifies this, bufPool
      ensures Valid()
      ensures (o, Abstract()) == Read(old(Abstract()), end)
      ensures o.Got? && o.frame.payload == [] ==> old(readNextValid) ==> wire == old(wire)
      ensures o.Got? && o.frame.payload == [] ==> !old(readNextValid) ==> wire == old(wire)[HEADER_LEN..]
    {
      if shuttingDown {
        return Failed(ErrShutdown);
      }
      if nextReadErr.Some? {
        o := Failed(nextReadErr.value);
        nextReadErr := None;
        return;
      }
      o := ReadNext();
      if o.Got? && o.frame.typ == RST {
        shuttingDown := true;
        return Failed(ErrShutdown);
      }
    }
  }

  // Whole connections.

  /** The outcomes of `n` reads in a row, and the view after them. */
  function Reads(v: View, end: Error, n: nat): (r: (seq<Outcome>, View))
    ensures |r.0| == n
    decreases n
  {
    if n == 0 then ([], v)
    else
      var r := Read(v, end);
      var rs := Reads(r.1, end, n - 1);
      ([r.0] + rs.0, rs.1)
  }

  function Gots(fs: seq<Frame>): (r: seq<Outcome>) {
    seq(|fs|, i requires 0 <= i < |fs| => Got(fs[i]))
  }

  lemma GotsCons(f: Frame, fs: seq<Frame>)
    ensures Gots([f] + fs) == [Got(f)] + Gots(fs)
  {
  }

  /** Reading `m` times and then again. */
  lemma {:induction false} ReadsSplit(v: View, end: Error, m: nat, n: nat)
    requires m <= n
    ensures Reads(v, end, n).0 == Reads(v, end, m).0 + Reads(Reads(v, end, m).1, end, n - m).0
    decreases m
  {
    if m > 0 {
      var r := Read(v, end);
      ReadsSplit(r.1, end, m - 1, n - 1);
      assert Reads(v, end, m).0 == [r.0] + Reads(r.1, end, m - 1).0;
      assert Reads(v, end, n).0 == [r.0] + Reads(r.1, end, n - 1).0;
    }
  }

  /** A frame the length field can describe. */
  predicate Fits(f: Frame) {
    |f.payload| < 0x1_0000_0000
  }

  predicate Deliverable(f: Frame) {
    Fits(f) && f.typ != RST && |f.payload| != 1
  }

  /** The view of a reader for which frames `fs` are still to come. */
  ghost predicate Carries(v: View, fs: seq<Frame>, end: Error) {
    && v.pending == EncodeAll(fs) && !v.shuttingDown
    && (v.nextReadErr.None? || (fs == [] && v.nextReadErr == Some(end)))
  }

  lemma EncodedParts(f: Frame, rest: seq<byte>)
    requires Fits(f)
    ensures var b := Encode(f) + rest;
            && Unmarshal(b[..HEADER_LEN]) == Header(f.typ, |f.payload|)
            && b[HEADER_LEN..] == f.payload + rest
            && b[HEADER_LEN..][..|f.payload|] == f.payload && b[HEADER_LEN..][|f.payload|..] == rest
  {
    var h := Header(f.typ, |f.payload|);
    assert Encode(f) + rest == PutHeader(h) + (f.payload + rest);
    Halves(PutHeader(h), f.payload + rest);
    Halves(f.payload, rest);
    HeaderRoundTrip(h);
  }

  lemma Halves(x: seq<byte>, y: seq<byte>)
    ensures (x + y)[..|x|] == x && (x + y)[|x|..] == y
  {
  }

  lemma ParseEncoded(f: Frame, rest: seq<byte>, end: Error)
    requires Fits(f) && (rest == [] || |rest| >= HEADER_LEN)
    ensures ParseFrame(Encode(f) + rest, end) ==
            if |f.payload| == 1 then (Panic, View(Encode(f) + rest, None, false))
            else if rest == [] && f.payload != [] then (Got(f), View([], Some(end), false))
            else (Got(f), View(rest, None, false))
  {
    EncodedParts(f, rest);
    if rest == [] {
      assert f.payload + rest == f.payload;
    }
    if f.payload == [] {
      assert f.payload + rest == rest;
    }
  }

  lemma ReadCarried(v: View, fs: seq<Frame>, end: Error)
    requires fs != [] && Carries(v, fs, end) && Deliverable(fs[0])
    ensures Read(v, end).0 == Got(fs[0]) && Carries(Read(v, end).1, fs[1..], end)
  {
    ParseEncoded(fs[0], EncodeAll(fs[1..]), end);
  }

  /** Deliverable frames are read back in order. */
  lemma {:induction false} PrefixRoundTrip(v: View, fs: seq<Frame>, n: nat, end: Error)
    requires Carries(v, fs, end) && n <= |fs| && forall i :: 0 <= i < n ==> Deliverable(fs[i])
    ensures Carries(Reads(v, end, n).1, fs[n..], end)
    ensures forall i :: 0 <= i < n ==> Reads(v, end, n).0[i] == Got(fs[i])
    decreases n
  {
    if n > 0 {
      ReadCarried(v, fs, end);
      PrefixRoundTrip(Read(v, end).1, fs[1..], n - 1, end);
      assert fs[1..][n - 1..] == fs[n..];
    }
  }

  /** What `n` reads yield behind the first `r` deliverable frames. */
  lemma AfterPrefix(v: View, fs: seq<Frame>, r: nat, end: Error, n: nat) returns (v1: View)
    requires Carries(v, fs, end) && r <= |fs| && r <= n && forall i :: 0 <= i < r ==> Deliverable(fs[i])
    ensures Carries(v1, fs[r..], end) && Reads(v, end, n).0 == Reads(v, end, r).0 + Reads(v1, end, n - r).0
  {
    PrefixRoundTrip(v, fs, r, end);
    ReadsSplit(v, end, r, n);
    v1 := Reads(v, end, r).1;
  }

  lemma ReadEnd(v: View, end: Error)
    requires Carries(v, [], end)
    ensures Read(v, end).0 == Failed(end) && Reads(v, end, 1).0 == [Failed(end)]
  {
    assert Reads(v, end, 1).0 == [Read(v, end).0];
  }

  /** Frames written up to a frame boundary are read back in order, and the end error comes after the last. */
  lemma FramesRoundTrip(v: View, fs: seq<Frame>, end: Error)
    requires Carries(v, fs, end) && forall i :: 0 <= i < |fs| ==> Deliverable(fs[i])
    ensures forall i :: 0 <= i < |fs| ==> Reads(v, end, |fs| + 1).0[i] == Got(fs[i])
    ensures Reads(v, end, |fs| + 1).0[|fs|] == Failed(end)
  {
    PrefixRoundTrip(v, fs, |fs|, end);
    ReadsSplit(v, end, |fs|, |fs| + 1);
    assert fs[|fs|..] == [];
    ReadEnd(Reads(v, end, |fs|).1, end);
  }

  /** A frame with a payload of one byte is never returned: the reader panics as it allocates the buffer. */
  lemma SingleByteFramePanics(v: View, fs: seq<Frame>, k: nat, end: Error)
    requires Carries(v, fs, end) && k < |fs| && (forall i :: 0 <= i < k ==> Deliverable(fs[i])) && |fs[k].payload| == 1
    ensures Reads(v, end, k + 1).0[k] == Panic
  {
    var v1 := AfterPrefix(v, fs, k, end, k + 1);
    assert fs[k..][0] == fs[k];
    ParseEncoded(fs[k], EncodeAll(fs[k..][1..]), end);
    assert Reads(v1, end, 1).0[0] == Read(v1, end).0;
  }

  /** From outcome `r` on, everything is the shutdown error. */
  predicate ShutFrom(rs: seq<Outcome>, r: nat) {
    forall i :: r <= i < |rs| ==> rs[i] == Failed(ErrShutdown)
  }

  lemma {:induction false} ShutdownStays(v: View, end: Error, n: nat)
    requires v.shuttingDown
    ensures ShutFrom(Reads(v, end, n).0, 0)
  {
    if n > 0 {
      ShutdownStays(v, end, n - 1);
    }
  }

  lemma ReadReset(v: View, fs: seq<Frame>, end: Error, n: nat)
    requires fs != [] && Carries(v, fs, end) && fs[0].typ == RST && Fits(fs[0]) && |fs[0].payload| != 1
    ensures ShutFrom(Reads(v, end, n).0, 0)
  {
    ParseEncoded(fs[0], EncodeAll(fs[1..]), end);
    if n > 0 {
      ShutdownStays(Read(v, end).1, end, n - 1);
    }
  }

  lemma ShutBehind(a: seq<Outcome>, b: seq<Outcome>)
    requires ShutFrom(b, 0)
    ensures ShutFrom(a + b, |a|)
  {
  }

  /** From the reset frame on, every read returns the shutdown error, whatever follows on the wire. */
  lemma ResetShutsDown(v: View, fs: seq<Frame>, r: nat, end: Error, n: nat)
    requires Carries(v, fs, end) && r < |fs| && (forall i :: 0 <= i < r ==> Deliverable(fs[i]))
    requires fs[r].typ == RST && Fits(fs[r]) && |fs[r].payload| != 1 && r <= n
    ensures ShutFrom(Reads(v, end, n).0, r)
  {
    var v1 := AfterPrefix(v, fs, r, end, n);
    assert fs[r..][0] == fs[r];
    ReadReset(v1, fs[r..], end, n - r);
    ShutBehind(Reads(v, end, r).0, Reads(v1, end, n - r).0);
  }

  // Wires that are cut off.

  /** The view of a reader whose wire ends `cut` bytes into the frames `fs`. */
  ghost predicate CutCarries(v: View, fs: seq<Frame>, cut: nat, end: Error) {
    && cut <= |EncodeAll(fs)| && v.pending == EncodeAll(fs)[..cut] && !v.shuttingDown
    && (v.nextReadErr.None? || (cut == 0 && v.nextReadErr == Some(end)))
  }

  /** The first frame is complete. */
  predicate Complete(fs: seq<Frame>, cut: nat) {
    fs != [] && cut >= HEADER_LEN + |fs[0].payload|
  }

  /** The first frame is complete and will be returned: one with payload is lost if part of a header follows it. */
  predicate Whole(fs: seq<Frame>, cut: nat) {
    && Complete(fs, cut)
    && (fs[0].payload == [] || cut == HEADER_LEN + |fs[0].payload| || cut >= HEADER_LEN + |fs[0].payload| + HEADER_LEN)
  }

  /** How many frames are returned. */
  function Delivered(fs: seq<Frame>, cut: nat): (n: nat)
    ensures n <= |fs|
  {
    if Whole(fs, cut) then 1 + Delivered(fs[1..], cut - HEADER_LEN - |fs[0].payload|) else 0
  }

  /** The error behind them: a header cut in two reads as an unexpected end, everything else as the end itself. */
  function CutError(fs: seq<Frame>, cut: nat, end: Error): (e: Error) {
    if Whole(fs, cut) then CutError(fs[1..], cut - HEADER_LEN - |fs[0].payload|, end)
    else if 0 < cut < HEADER_LEN && end == EOF then UnexpectedEOF
    else end
  }

  lemma CutParts(fs: seq<Frame>, cut: nat)
    requires Complete(fs, cut) && cut <= |EncodeAll(fs)|
    ensures var n := HEADER_LEN + |fs[0].payload|;
            && cut - n <= |EncodeAll(fs[1..])|
            && EncodeAll(fs)[..cut] == Encode(fs[0]) + EncodeAll(fs[1..])[..cut - n]
  {
  }

  lemma TakesWhole(v: View, fs: seq<Frame>, cut: nat, end: Error)
    requires CutCarries(v, fs, cut, end) && Whole(fs, cut) && Deliverable(fs[0])
    ensures Read(v, end).0 == Got(fs[0])
    ensures CutCarries(Read(v, end).1, fs[1..], cut - HEADER_LEN - |fs[0].payload|, end)
  {
    CutParts(fs, cut);
    var rest := EncodeAll(fs[1..])[..cut - HEADER_LEN - |fs[0].payload|];
    EncodedParts(fs[0], rest);
    if fs[0].payload == [] {
      assert fs[0].payload + rest == rest;
    } else if rest == [] {
      assert fs[0].payload + rest == fs[0].payload;
    }
  }

  /** A wire that ends inside a frame: header and part of the payload. */
  lemma CutInside(f: Frame, b: seq<byte>, end: Error)
    requires Deliverable(f) && HEADER_LEN <= |b| < HEADER_LEN + |f.payload| && b == Encode(f)[..|b|]
    ensures ParseFrame(b, end).0 == Failed(end)
  {
    EncodedParts(f, []);
    assert Encode(f) + [] == Encode(f);
    assert b[..HEADER_LEN] == Encode(f)[..HEADER_LEN];
  }

  /** A wire that ends inside the header behind a frame with payload. */
  lemma CutBehind(f: Frame, rest: seq<byte>, end: Error)
    requires Deliverable(f) && f.payload != [] && 0 < |rest| < HEADER_LEN
    ensures ParseFrame(Encode(f) + rest, end).0 == Failed(end)
  {
    EncodedParts(f, rest);
  }

  lemma FailsBeyond(v: View, fs: seq<Frame>, cut: nat, end: Error)
    requires CutCarries(v, fs, cut, end) && !Whole(fs, cut) && (fs != [] ==> Deliverable(fs[0]))
    ensures Read(v, end).0 == Failed(CutError(fs, cut, end))
  {
    if cut >= HEADER_LEN {
      if Complete(fs, cut) {
        CutParts(fs, cut);
        CutBehind(fs[0], EncodeAll(fs[1..])[..cut - HEADER_LEN - |fs[0].payload|], end);
      } else {
        assert v.pending == Encode(fs[0])[..cut];
        CutInside(fs[0], v.pending, end);
      }
    }
  }

  /** Whatever byte a wire of deliverable frames is cut at, the reader returns a prefix of the frames, each with its whole
      payload, and then a failure. */
  lemma {:induction false} CutRoundTrip(v: View, fs: seq<Frame>, cut: nat, end: Error)
    requires CutCarries(v, fs, cut, end) && forall i :: 0 <= i < |fs| ==> Deliverable(fs[i])
    ensures CutOutcomes(v, fs, cut, end)
    decreases |fs|
  {
    if Whole(fs, cut) {
      TakesWhole(v, fs, cut, end);
      CutRoundTrip(Read(v, end).1, fs[1..], cut - HEADER_LEN - |fs[0].payload|, end);
      OutcomesNext(v, fs, cut, end);
    } else {
      ReadsBeyond(v, fs, cut, end);
    }
  }

  lemma OutcomesNext(v: View, fs: seq<Frame>, cut: nat, end: Error)
    requires Whole(fs, cut) && Read(v, end).0 == Got(fs[0])
    requires CutOutcomes(Read(v, end).1, fs[1..], cut - HEADER_LEN - |fs[0].payload|, end)
    ensures CutOutcomes(v, fs, cut, end)
  {
    var v1, n := Read(v, end).1, Delivered(fs, cut);
    assert Reads(v, end, n + 1).0 == [Got(fs[0])] + Reads(v1, end, n).0;
    DeliveredCons(fs, n, Failed(CutError(fs, cut, end)));
  }

  /** The outcomes of reading a cut wire up to the first failure. */
  ghost predicate CutOutcomes(v: View, fs: seq<Frame>, cut: nat, end: Error) {
    var n := Delivered(fs, cut);
    Reads(v, end, n + 1).0 == Gots(fs[..n]) + [Failed(CutError(fs, cut, end))]
  }

  lemma DeliveredCons(fs: seq<Frame>, n: nat, o: Outcome)
    requires 0 < n <= |fs|
    ensures [Got(fs[0])] + (Gots(fs[1..][..n - 1]) + [o]) == Gots(fs[..n]) + [o]
  {
    assert fs[..n] == [fs[0]] + fs[1..][..n - 1];
    GotsCons(fs[0], fs[1..][..n - 1]);
  }

  lemma ReadsBeyond(v: View, fs: seq<Frame>, cut: nat, end: Error)
    requires CutCarries(v, fs, cut, end) && !Whole(fs, cut) && (fs != [] ==> Deliverable(fs[0]))
    ensures CutOutcomes(v, fs, cut, end)
  {
    FailsBeyond(v, fs, cut, end);
    assert Reads(v, end, 1).0 == [Read(v, end).0] && Gots(fs[..0]) == [];
  }

  /** Which frames those are: all that are complete, apart from a last one with payload that part of a header follows;
      and which error follows. `k` frames are complete and `rem` bytes of the next one are there. */
  lemma {:induction false} DeliveredExact(fs: seq<Frame>, cut: nat, k: nat, rem: nat, end: Error)
    requires k <= |fs| && cut == |EncodeAll(fs[..k])| + rem
    requires if k == |fs| then rem == 0 else rem < HEADER_LEN + |fs[k].payload|
    ensures var lost := k > 0 && fs[k - 1].payload != [] && 0 < rem < HEADER_LEN;
            && Delivered(fs, cut) == (if lost then k - 1 else k)
            && CutError(fs, cut, end) == if !lost && 0 < rem < HEADER_LEN && end == EOF then UnexpectedEOF else end
    decreases k
  {
    if k > 0 {
      var n := HEADER_LEN + |fs[0].payload|;
      assert fs[..k][1..] == fs[1..][..k - 1] && fs[..k][0] == fs[0];
      assert |EncodeAll(fs[..k])| == n + |EncodeAll(fs[1..][..k - 1])|;
      if k > 1 {
        assert |EncodeAll(fs[1..][..k - 1])| >= HEADER_LEN;
        assert fs[1..][k - 2] == fs[k - 1];
      }
      if Whole(fs, cut) {
        DeliveredExact(fs[1..], cut - n, k - 1, rem, end);
      }
    } else {
      assert fs[..0] == [];
    }
  }
}
