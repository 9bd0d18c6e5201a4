/** The length-prefixed chunk encoding of byte streams, its writer and its reader. */
module Chunking {
  import opened Collections
  import opened Versions
  import opened Bytes

  /** Little endian. */
  function PutLe(v: u32): (r: seq<byte>)
    ensures |r| == 4
  {
    [(v % 256) as byte, (v / 256 % 256) as byte, (v / 256 / 256 % 256) as byte, (v / 256 / 256 / 256) as byte]
  }

  function Le(b: seq<byte>): (r: u32)
    requires |b| == 4
  {
    b[0] as int + b[1] as int * 0x100 + b[2] as int * 0x1_0000 + b[3] as int * 0x100_0000
  }

  lemma LeRoundTrip(v: u32)
    ensures Le(PutLe(v)) == v
  {
    var v1 := v / 256;
    var v2 := v1 / 256;
    assert v == v1 * 256 + v % 256 && v1 == v2 * 256 + v1 % 256 && v2 == v2 / 256 * 256 + v2 % 256;
  }

  datatype ReadErr = Ok | EOF | Failure(code: nat) | Panic

  /** What one read of the source yields. A source that is exhausted yields nothing and EOF. */
  datatype Read = Read(data: seq<byte>, err: ReadErr)

  const MAX_CHUNK := 0x1_0000_0000

  /** Reads of a source into a buffer of `cap` bytes: nothing panics, and reads fit. */
  predicate SourceOk(src: seq<Read>, cap: nat) {
    forall i :: 0 <= i < |src| ==> !src[i].err.Panic? && |src[i].data| <= cap < MAX_CHUNK
  }

  function NextRead(src: seq<Read>): (r: Read) {
    if src == [] then Read([], EOF) else src[0]
  }

  function Tail(src: seq<Read>): (r: seq<Read>) {
    if src == [] then [] else src[1..]
  }

  /** The bytes the source yields up to EOF; those of a read that fails are not delivered. */
  function Content(src: seq<Read>): (r: seq<byte>) {
    if src == [] || src[0].err.Failure? then []
    else if src[0].err.Ok? then src[0].data + Content(src[1..])
    else src[0].data
  }

  function Chunk(data: seq<byte>): (r: seq<byte>)
    requires |data| < MAX_CHUNK
  {
    PutLe(|data|) + data
  }

  /** The encoding of a source, chunk by chunk as it is read, ending in an empty header. The first read that yields
      nothing, with or without EOF, ends it; a read that fails breaks it off. */
  function Encode(src: seq<Read>, cap: nat): (r: seq<byte>)
    requires SourceOk(src, cap)
  {
    if src == [] then PutLe(0)
    else if src[0].err.Failure? then []
    else if src[0].data == [] then PutLe(0)
    else if src[0].err.Ok? then Chunk(src[0].data) + Encode(src[1..], cap)
    else Chunk(src[0].data) + PutLe(0)
  }

  /** How the encoding of a source ends: with EOF, or with the error of the read that breaks it off. */
  function EndErr(src: seq<Read>): (r: ReadErr) {
    if src == [] then EOF
    else if src[0].err.Failure? then src[0].err
    else if src[0].data != [] && src[0].err.Ok? then EndErr(src[1..])
    else EOF
  }

  /** What follows the chunk of a read. */
  function AheadAfter(read: Read, rest: seq<Read>, cap: nat): (r: seq<byte>)
    requires SourceOk(rest, cap)
  {
    if read.data == [] then [] else if read.err.EOF? then PutLe(0) else Encode(rest, cap)
  }

  /** What the next read of the source contributes. */
  lemma EncodeHead(src: seq<Read>, cap: nat)
    requires SourceOk(src, cap)
    ensures SourceOk(Tail(src), cap) && !NextRead(src).err.Panic? && |NextRead(src).data| < MAX_CHUNK
    ensures |NextRead(src).data| <= cap
    ensures NextRead(src).err.Failure? ==> Encode(src, cap) == []
    ensures !NextRead(src).err.Failure? ==>
              Encode(src, cap) == PutLe(|NextRead(src).data|) + (NextRead(src).data + AheadAfter(NextRead(src), Tail(src), cap))
  {
    if src == [] || src[0].data == [] {
      assert PutLe(0) == PutLe(0) + ([] + []);
    } else {
      Assoc(PutLe(|src[0].data|), src[0].data, AheadAfter(src[0], src[1..], cap));
    }
  }

  lemma Assoc(a: seq<byte>, b: seq<byte>, c: seq<byte>)
    ensures (a + b) + c == a + (b + c)
  {
  }

  class Chunker {
    const cap: nat
    var src: seq<Read>
    var inEOF: bool
    var payloadBuf: seq<byte>
    var remaining: nat
    var headerBuf: seq<byte>
    var finalHeaderBuffered: bool

    /** A failed read, or the end of a source that never said EOF, leaves the reader invalid. */
    ghost predicate Valid()
      reads this
    {
      && 0 < cap && SourceOk(src, cap)
      && remaining <= |payloadBuf| <= cap
      && (finalHeaderBuffered ==> remaining == 0)
      && (finalHeaderBuffered && headerBuf == [] ==> inEOF)
    }

    /** Everything this reader will still return. */
    ghost function Rest(): (r: seq<byte>)
      requires SourceOk(src, cap) && remaining <= |payloadBuf|
      reads this
    {
      headerBuf + (payloadBuf[|payloadBuf| - remaining..] + Ahead())
    }

    ghost function Ahead(): (r: seq<byte>)
      requires SourceOk(src, cap)
      reads this
    {
      if finalHeaderBuffered then [] else if inEOF then PutLe(0) else Encode(src, cap)
    }

    /** The error this reader will end with. */
    ghost function End(): (r: ReadErr)
      reads this
    {
      if inEOF || finalHeaderBuffered then EOF else EndErr(src)
    }

    constructor (src: seq<Read>, chunkSize: nat)
      requires chunkSize > 4 && SourceOk(src, chunkSize - 4)
      ensures Valid() && cap == chunkSize - 4 && this.src == src && Rest() == Encode(src, cap) && End() == EndErr(src)
    {
      cap := chunkSize - 4;
      this.src := src;
      inEOF, payloadBuf, remaining, headerBuf, finalHeaderBuffered := false, [], 0, [], false;
    }

    /** Moves as much of the header buffer to the output as fits. */
    method DrainHeader(room: nat) returns (b: seq<byte>)
      requires SourceOk(src, cap) && remaining <= |payloadBuf| && room > 0
      modifies `headerBuf
      ensures b + Rest() == old(Rest()) && |b| <= room && (old(headerBuf) != [] ==> b != [])
    {
      var nh := |headerBuf|;
      if room < nh {
        nh := room;
      }
      ghost var later := payloadBuf[|payloadBuf| - remaining..] + Ahead();
      assert headerBuf == headerBuf[..nh] + headerBuf[nh..];
      Assoc(headerBuf[..nh], headerBuf[nh..], later);
      b, headerBuf := headerBuf[..nh], headerBuf[nh..];
    }

    /** Appends buffered payload to the output `b`, which has room for `room` bytes. */
    method DrainPayload(b: seq<byte>, room: nat) returns (r: seq<byte>)
      requires remaining <= |payloadBuf| && |b| <= room
      modifies `remaining
      ensures remaining <= old(remaining) && |b| <= |r| <= room
      ensures old(remaining) > 0 && |b| < room ==> r != []
      ensures r + payloadBuf[|payloadBuf| - remaining..] == b + payloadBuf[|payloadBuf| - old(remaining)..]
    {
      var n := room - |b|;
      if n > remaining {
        n := remaining;
      }
      var at := |payloadBuf| - remaining;
      r := b + payloadBuf[at..at + n];
      remaining := remaining - n;
      assert payloadBuf[at..] == payloadBuf[at..at + n] + payloadBuf[at + n..];
    }

    /** Fills payload and header buffer from the source, or buffers the final header. */
    method Fill() returns (err: ReadErr)
      requires 0 < cap && SourceOk(src, cap) && remaining == 0 <= |payloadBuf| <= cap
      requires headerBuf == [] && !finalHeaderBuffered
      modifies this
      ensures err.Ok? || err.Failure?
      ensures err.Ok? ==> Valid() && Rest() == old(Ahead()) && headerBuf != [] && End() == old(End())
      ensures err.Failure? ==> old(Ahead()) == [] && err == old(End())
    {
      if inEOF {
        headerBuf, finalHeaderBuffered := PutLe(0), true;
        return ReadErr.Ok;
      }
      EncodeHead(src, cap);
      var read := NextRead(src);
      src := Tail(src);
      if |read.data| > 0 {
        payloadBuf, remaining := read.data, |read.data|;
      }
      if read.err.Failure? {
        return read.err;
      }
      inEOF := read.err.EOF?;
      finalHeaderBuffered := |read.data| == 0;
      headerBuf := PutLe(|read.data|);
      assert payloadBuf[|payloadBuf| - remaining..] == read.data;
      return ReadErr.Ok;
    }

    /** Behind the header: payload, then the next header. */
    method DrainAndFill(head: seq<byte>, room: nat) returns (b: seq<byte>, err: ReadErr)
      requires Valid() && headerBuf == [] && !finalHeaderBuffered && |head| <= room && room > 0
      modifies this
      ensures err.Ok? || err.Failure?
      ensures |head| <= |b| <= room
      ensures err.Ok? ==> Valid() && b + Rest() == head + old(Rest()) && End() == old(End())
      ensures err.Ok? ==> b != [] || headerBuf != []
      ensures err.Failure? ==> b == head + old(Rest()) && err == old(End())
    {
      ghost var ahead, payload := Ahead(), payloadBuf[|payloadBuf| - remaining..];
      assert Rest() == payload + ahead;
      b := DrainPayload(head, room);
      if remaining > 0 {
        ghost var left := payloadBuf[|payloadBuf| - remaining..];
        assert Rest() == left + ahead;
        Assoc(b, left, ahead);
        Assoc(head, payload, ahead);
        return b, ReadErr.Ok;
      }
      assert b == head + payload;
      Assoc(head, payload, ahead);
      err := Fill();
    }

    /** One read into a buffer of `room` bytes: the next bytes of the encoding, with EOF or the source's error once
        it is complete. A read that returns nothing has filled the header buffer, so the next one returns something. */
    method Read(room: nat) returns (b: seq<byte>, err: ReadErr)
      requires Valid()
      modifies this
      ensures err.Panic? <==> room == 0
      ensures |b| <= room
      ensures err.Ok? ==> Valid() && b + Rest() == old(Rest()) && End() == old(End())
      ensures err.Ok? ==> b != [] || (old(headerBuf) == [] && headerBuf != [])
      ensures err.EOF? || err.Failure? ==> b == old(Rest()) && err == old(End())
    {
      if room == 0 {
        return [], Panic;
      }
      if inEOF && finalHeaderBuffered && headerBuf == [] {
        return [], EOF;
      }
      b := [];
      if |headerBuf| > 0 {
        b := DrainHeader(room);
        if headerBuf != [] {
          return b, ReadErr.Ok;
        }
        if finalHeaderBuffered {
          assert Rest() == [];
          return b, EOF;
        }
      }
      b, err := DrainAndFill(b, room);
    }
  }

  // The reader.

  /** The bytes that follow on wire `b` with `remaining` bytes to go in the current chunk. */
  function Decode(remaining: nat, b: seq<byte>): (r: seq<byte>)
    decreases |b|
  {
    if remaining > 0 then
      if |b| <= remaining then b else b[..remaining] + Decode(0, b[remaining..])
    else if |b| < 4 || Le(b[..4]) == 0 then []
    else Decode(Le(b[..4]), b[4..])
  }

  /** How reading wire `b` ends. A wire that is cut off ends like a complete one, unless it is cut inside a header. */
  function DecodeEnds(remaining: nat, b: seq<byte>): (r: ReadErr)
    decreases |b|
  {
    if remaining > 0 then
      if |b| <= remaining then EOF else DecodeEnds(0, b[remaining..])
    else if b == [] then EOF
    else if |b| < 4 then Failure(0)
    else if Le(b[..4]) == 0 then EOF
    else DecodeEnds(Le(b[..4]), b[4..])
  }

  class Unchunker {
    var wire: seq<byte>
    var remaining: nat
    var finishErr: Option<ReadErr>

    ghost predicate Valid()
      reads this
    {
      finishErr.Some? ==> finishErr.value.EOF? || finishErr.value.Failure?
    }

    /** What this reader will still return. */
    ghost function Rest(): (r: seq<byte>)
      reads this
    {
      if finishErr.Some? then [] else Decode(remaining, wire)
    }

    /** The error this reader will end with. */
    ghost function End(): (r: ReadErr)
      reads this
    {
      if finishErr.Some? then finishErr.value else DecodeEnds(remaining, wire)
    }

    constructor (wire: seq<byte>)
      ensures Valid() && this.wire == wire && Rest() == Decode(0, wire) && End() == DecodeEnds(0, wire)
    {
      this.wire, remaining, finishErr := wire, 0, None;
    }

    /** Reads the header of the next chunk; the empty one ends the stream. */
    method NextChunk() returns (err: ReadErr)
      requires finishErr.None? && remaining == 0
      modifies this
      ensures Rest() == old(Rest()) && End() == old(End())
      ensures err.Ok? ==> finishErr.None? && remaining > 0
      ensures !err.Ok? ==> finishErr == Some(err) && !err.Panic?
      ensures |old(wire)| >= 4 ==> wire == old(wire)[4..] && (err.EOF? <==> Le(old(wire)[..4]) == 0)
      ensures err.EOF? <==> old(wire) == [] || (|old(wire)| >= 4 && Le(old(wire)[..4]) == 0)
    {
      if |wire| < 4 {
        err := if |wire| == 0 then EOF else Failure(0);
        finishErr, wire := Some(err), [];
        return;
      }
      var n := Le(wire[..4]);
      wire := wire[4..];
      if n == 0 {
        finishErr := Some(EOF);
        return EOF;
      }
      remaining := n;
      return ReadErr.Ok;
    }

    /** Takes bytes of the current chunk. */
    method TakeBytes(room: nat, avail: nat) returns (b: seq<byte>)
      requires finishErr.None? && remaining > 0 && room > 0 && avail > 0 && wire != []
      modifies this
      ensures finishErr.None? && b + Rest() == old(Rest()) && 0 < |b| <= room && End() == old(End())
    {
      var n := Min(Min(remaining, room), Min(avail, |wire|));
      DecodeTake(remaining, wire, n);
      b, wire := wire[..n], wire[n..];
      remaining := remaining - n;
    }

    /** One read into a buffer of `room` bytes from a wire that gives at most `avail` at a time: the next bytes. */
    method Read(room: nat, avail: nat) returns (b: seq<byte>, err: ReadErr)
      requires Valid() && avail > 0
      modifies this
      ensures Valid() && b + Rest() == old(Rest()) && |b| <= room && End() == old(End())
      ensures err.Ok? <==> b != []
      ensures err.EOF? || err.Failure? ==> err == End()
      ensures err.EOF? ==> Rest() == []
      ensures err.Panic? ==> room == 0
      ensures room > 0 && old(Rest()) != [] ==> err.Ok?
    {
      if finishErr.Some? {
        return [], finishErr.value;
      }
      if remaining == 0 {
        err := NextChunk();
        if !err.Ok? {
          return [], err;
        }
      }
      if room == 0 {
        return [], Panic;
      }
      if wire == [] {
        return [], EOF;
      }
      b := TakeBytes(room, avail);
      return b, ReadErr.Ok;
    }
  }

  lemma DecodeTake(remaining: nat, b: seq<byte>, n: nat)
    requires 0 < n <= remaining && n <= |b|
    ensures Decode(remaining, b) == b[..n] + Decode(remaining - n, b[n..])
    ensures DecodeEnds(remaining, b) == DecodeEnds(remaining - n, b[n..])
  {
    if |b| <= remaining {
      assert b == b[..n] + b[n..];
    } else if n < remaining {
      assert b[..remaining] == b[..n] + b[n..][..remaining - n];
      assert b[n..][remaining - n..] == b[remaining..];
    }
  }

  // Whole transfers.

  type Size = n: nat | n > 0 witness 1

  /** Reads a whole encoding with any sequence of buffer sizes. */
  method ChunkAll(src: seq<Read>, chunkSize: nat, rooms: nat -> Size) returns (out: seq<byte>, err: ReadErr)
    requires chunkSize > 4 && SourceOk(src, chunkSize - 4)
    ensures out == Encode(src, chunkSize - 4) && err == EndErr(src)
  {
    var c := new Chunker(src, chunkSize);
    out, err := [], ReadErr.Ok;
    var i := 0;
    while err.Ok?
      invariant !err.Panic?
      invariant err.Ok? ==> c.Valid() && out + c.Rest() == Encode(src, chunkSize - 4) && c.End() == EndErr(src)
      invariant !err.Ok? ==> out == Encode(src, chunkSize - 4) && err == EndErr(src)
      decreases err.Ok?, |Encode(src, chunkSize - 4)| - |out|, c.headerBuf == []
    {
      var b;
      b, err := c.Read(rooms(i));
      if err.Ok? {
        Assoc(out, b, c.Rest());
      }
      out, i := out + b, i + 1;
    }
  }

  /** Reads a whole wire with any sequence of buffer sizes, from a connection that delivers any number of bytes at a time. */
  method UnchunkAll(wire: seq<byte>, rooms: nat -> Size, avail: nat -> Size) returns (out: seq<byte>, err: ReadErr)
    ensures out == Decode(0, wire) && err == DecodeEnds(0, wire)
  {
    var c := new Unchunker(wire);
    out, err := [], ReadErr.Ok;
    var i := 0;
    while err.Ok?
      invariant c.Valid() && out + c.Rest() == Decode(0, wire) && c.End() == DecodeEnds(0, wire)
      invariant !err.Ok? ==> c.Rest() == [] && err == c.End()
      decreases err.Ok?, |c.Rest()|
    {
      var b;
      b, err := c.Read(rooms(i), avail(i));
      Assoc(out, b, c.Rest());
      out, i := out + b, i + 1;
    }
  }

  /** A transfer through both returns the source's content up to its first empty read, and no error. If the source fails,
      only the sending side gets to know. */
  method Transfer(src: seq<Read>, chunkSize: nat, rooms: nat -> Size, rooms': nat -> Size, avail: nat -> Size)
    returns (out: seq<byte>, sendErr: ReadErr, err: ReadErr)
    requires chunkSize > 4 && SourceOk(src, chunkSize - 4)
    ensures out + Lost(src) == Content(src) && err == EOF && sendErr == EndErr(src)
  {
    var wire;
    wire, sendErr := ChunkAll(src, chunkSize, rooms);
    out, err := UnchunkAll(wire, rooms', avail);
    WholeTrip(src, chunkSize - 4);
  }

  lemma WholeTrip(src: seq<Read>, cap: nat)
    requires SourceOk(src, cap)
    ensures Decode(0, Encode(src, cap)) + Lost(src) == Content(src) && DecodeEnds(0, Encode(src, cap)) == EOF
  {
    RoundTrip(src, cap, []);
    assert Encode(src, cap) + [] == Encode(src, cap);
  }

  // Round trip.

  lemma DecodeChunk(data: seq<byte>, more: seq<byte>)
    requires 0 < |data| < MAX_CHUNK
    ensures Decode(0, Chunk(data) + more) == data + Decode(0, more)
    ensures DecodeEnds(0, Chunk(data) + more) == DecodeEnds(0, more)
  {
    var b := Chunk(data) + more;
    assert b[..4] == PutLe(|data|) && b[4..] == data + more;
    LeRoundTrip(|data|);
    DecodeTake(|data|, b[4..], |data|);
    assert (data + more)[..|data|] == data && (data + more)[|data|..] == more;
  }

  lemma DecodeEnd(more: seq<byte>)
    ensures Decode(0, PutLe(0) + more) == [] && DecodeEnds(0, PutLe(0) + more) == EOF
  {
    assert (PutLe(0) + more)[..4] == PutLe(0);
    LeRoundTrip(0);
  }

  /** What comes behind the first read that yields neither bytes nor an error. */
  function Lost(src: seq<Read>): (r: seq<byte>) {
    if src == [] || !src[0].err.Ok? then []
    else if src[0].data == [] then Content(src[1..])
    else Lost(src[1..])
  }

  predicate NoEmptyReads(src: seq<Read>) {
    src == [] || !src[0].err.Ok? || (src[0].data != [] && NoEmptyReads(src[1..]))
  }

  predicate NeverFails(src: seq<Read>) {
    src == [] || src[0].err.EOF? || (src[0].err.Ok? && NeverFails(src[1..]))
  }

  /** The reader returns what the source yields up to its first empty read, whatever follows on the wire. */
  lemma {:induction false} RoundTrip(src: seq<Read>, cap: nat, more: seq<byte>)
    requires SourceOk(src, cap) && (NeverFails(src) || more == [])
    ensures Content(src) == Decode(0, Encode(src, cap) + more) + Lost(src)
    ensures DecodeEnds(0, Encode(src, cap) + more) == EOF
  {
    if src != [] && src[0].err.Failure? {
      assert Encode(src, cap) + more == [];
    } else if src == [] || src[0].data == [] {
      DecodeEnd(more);
    } else {
      var data := src[0].data;
      var rest := if src[0].err.Ok? then Encode(src[1..], cap) else PutLe(0);
      Assoc(Chunk(data), rest, more);
      DecodeChunk(data, rest + more);
      if src[0].err.Ok? {
        RoundTrip(src[1..], cap, more);
        Assoc(data, Decode(0, rest + more), Lost(src));
      } else {
        DecodeEnd(more);
      }
    }
  }

  lemma {:induction false} NothingLost(src: seq<Read>)
    requires NoEmptyReads(src)
    ensures Lost(src) == []
  {
    if src != [] && src[0].err.Ok? {
      NothingLost(src[1..]);
    }
  }

  /** Exactly the sources without content behind an empty read come back whole. */
  lemma RoundTripExact(src: seq<Read>, cap: nat, more: seq<byte>)
    requires SourceOk(src, cap) && NeverFails(src)
    ensures Decode(0, Encode(src, cap) + more) == Content(src) <==> Lost(src) == []
    ensures NoEmptyReads(src) ==> Decode(0, Encode(src, cap) + more) == Content(src)
  {
    RoundTrip(src, cap, more);
    var d := Decode(0, Encode(src, cap) + more);
    if Lost(src) == [] {
      assert d + [] == d;
    } else {
      assert |d + Lost(src)| > |d|;
    }
    if NoEmptyReads(src) {
      NothingLost(src);
    }
  }

  // Wires that are cut off.

  function Joined(ds: seq<seq<byte>>): (r: seq<byte>) {
    if ds == [] then [] else ds[0] + Joined(ds[1..])
  }

  function Chunks(ds: seq<seq<byte>>): (r: seq<byte>)
    requires forall i :: 0 <= i < |ds| ==> |ds[i]| < MAX_CHUNK
  {
    if ds == [] then [] else Chunk(ds[0]) + Chunks(ds[1..])
  }

  /** Part of a chunk: nothing of it comes out before its header is complete, and then what is there. */
  lemma CutChunk(d: seq<byte>, r: nat)
    requires |d| < MAX_CHUNK && r < 4 + |d|
    ensures Decode(0, Chunk(d)[..r]) == (if r <= 4 then [] else d[..r - 4])
    ensures DecodeEnds(0, Chunk(d)[..r]) == if 0 < r < 4 then Failure(0) else EOF
  {
    var b := Chunk(d)[..r];
    if r >= 4 {
      assert b[..4] == PutLe(|d|) && b[4..] == d[..r - 4];
      LeRoundTrip(|d|);
    }
  }

  /** A wire that ends inside a chunk yields what came before and what there is of the chunk. It ends like a complete
      stream, unless it is cut inside a header. */
  lemma {:induction false} CutWire(ds: seq<seq<byte>>, d: seq<byte>, r: nat)
    requires (forall i :: 0 <= i < |ds| ==> 0 < |ds[i]| < MAX_CHUNK) && |d| < MAX_CHUNK && r < 4 + |d|
    ensures Decode(0, Chunks(ds) + Chunk(d)[..r]) == Joined(ds) + if r <= 4 then [] else d[..r - 4]
    ensures DecodeEnds(0, Chunks(ds) + Chunk(d)[..r]) == if 0 < r < 4 then Failure(0) else EOF
    decreases |ds|
  {
    CutChunk(d, r);
    if ds == [] {
      assert Chunks(ds) + Chunk(d)[..r] == Chunk(d)[..r];
      assert Joined(ds) + (if r <= 4 then [] else d[..r - 4]) == if r <= 4 then [] else d[..r - 4];
    } else {
      CutWire(ds[1..], d, r);
      ChunkFirst(ds, Chunk(d)[..r]);
      Assoc(ds[0], Joined(ds[1..]), if r <= 4 then [] else d[..r - 4]);
    }
  }

  lemma ChunkFirst(ds: seq<seq<byte>>, more: seq<byte>)
    requires ds != [] && forall i :: 0 <= i < |ds| ==> 0 < |ds[i]| < MAX_CHUNK
    ensures Decode(0, Chunks(ds) + more) == ds[0] + Decode(0, Chunks(ds[1..]) + more)
    ensures DecodeEnds(0, Chunks(ds) + more) == DecodeEnds(0, Chunks(ds[1..]) + more)
  {
    Assoc(Chunk(ds[0]), Chunks(ds[1..]), more);
    DecodeChunk(ds[0], Chunks(ds[1..]) + more);
  }
}
