/** Byte streams over frames: chunks, an end frame, and errors of the source as a trailer stream. */
module Stream {
  import opened Versions
  import opened Bytes
  import opened FrameConn
  import H = Heartbeat

  const TRAILER: u32 := 0x1_0000
  const END: u32 := 0x2_0000
  const CHUNK := 0x8_0000

  predicate IsPublicType(typ: u32) {
    FrameConn.IsPublic(typ) && H.IsPublicType(typ) && typ / 0x1_0000 % 16 == 0
  }

  /** The frame types of the layers are disjoint. */
  lemma TypesPartition(stype: u32)
    requires IsPublicType(stype)
    ensures stype != TRAILER && stype != END && stype != H.HEARTBEAT && stype != RST
    ensures H.IsPublicType(TRAILER) && H.IsPublicType(END) && !IsPublicType(TRAILER) && !IsPublicType(END)
    ensures !H.IsPublicType(H.HEARTBEAT) && FrameConn.IsPublic(H.HEARTBEAT) && !FrameConn.IsPublic(RST)
  {
  }

  /** How the reader that is streamed ends: with EOF, with the error `io.ErrUnexpectedEOF`, or with another error. */
  datatype SourceEnd = Clean | EndsUnexpectedly | Fails(text: seq<byte>)
  datatype Source = Source(content: seq<byte>, end: SourceEnd)

  function DataFrames(b: seq<byte>, typ: u32): (r: seq<Frame>) {
    if b == [] then []
    else if |b| <= CHUNK then [Frame(typ, b)]
    else [Frame(typ, b[..CHUNK])] + DataFrames(b[CHUNK..], typ)
  }

  /** The frames of a stream. */
  function StreamFrames(src: Source, typ: u32): (r: seq<Frame>) {
    DataFrames(src.content, typ) +
    if src.end.Fails? then DataFrames(src.end.text, TRAILER) + [Frame(END, [])] else [Frame(END, [])]
  }

  // Writing.

  function Upto<T>(s: seq<T>, limit: Option<nat>): (r: seq<T>) {
    if limit.Some? && limit.value < |s| then s[..limit.value] else s
  }

  lemma NextChunk(content: seq<byte>, pos: nat, n: nat, typ: u32)
    requires pos < |content| && n > 0 && (n == CHUNK <= |content| - pos || n == |content| - pos < CHUNK)
    ensures DataFrames(content[pos..], typ) == [Frame(typ, content[pos..pos + n])] + DataFrames(content[pos + n..], typ)
    ensures DataFrames(content[pos..], typ)[1..] == DataFrames(content[pos + n..], typ)
  {
    var rest := content[pos..];
    assert rest[..n] == content[pos..pos + n] && rest[n..] == content[pos + n..];
    if n == |rest| {
      assert rest[..n] == rest;
    }
  }

  lemma MoveFrame(sent: seq<Frame>, left: seq<Frame>)
    requires left != []
    ensures (sent + [left[0]]) + left[1..] == sent + left
  {
  }

  /** The frames of what the source yields, as far as the connection takes them. */
  method WriteData(content: seq<byte>, typ: u32, limit: Option<nat>) returns (sent: seq<Frame>, failed: bool)
    ensures sent == Upto(DataFrames(content, typ), limit)
    ensures failed <==> limit.Some? && limit.value < |DataFrames(content, typ)|
  {
    sent := [];
    var pos := 0;
    var done := false;
    assert content[0..] == content;
    ghost var left := DataFrames(content, typ);
    while !done
      invariant 0 <= pos <= |content| && (done ==> pos == |content|)
      invariant left == DataFrames(content[pos..], typ) && sent + left == DataFrames(content, typ)
      invariant limit.Some? ==> |sent| <= limit.value
      decreases |content| - pos, !done
    {
      var n := CHUNK;
      if |content| - pos < CHUNK {
        n := |content| - pos;
      }
      if n > 0 {
        NextChunk(content, pos, n, typ);
        if limit.Some? && |sent| == limit.value {
          return sent, true;
        }
        MoveFrame(sent, left);
        left := left[1..];
        sent := sent + [Frame(typ, content[pos..pos + n])];
        pos := pos + n;
      }
      done := n < CHUNK;
    }
    failed := false;
  }

  /** Writes a stream to a connection that takes `limit` more frames. An error of the source goes out as a
      trailer; the trailer is a stream itself. */
  method DoWriteStream(src: Source, typ: u32, limit: Option<nat>)
    returns (sent: seq<Frame>, errStream: Option<seq<byte>>, errConn: bool)
    ensures sent == Upto(StreamFrames(src, typ), limit)
    ensures errConn <==> limit.Some? && limit.value < |StreamFrames(src, typ)|
    ensures errStream.Some? <==> src.end.Fails? && (limit.None? || limit.value >= |DataFrames(src.content, typ)|)
    ensures errStream.Some? ==> errStream.value == src.end.text
    decreases src.end.Fails?
  {
    var failed;
    sent, failed := WriteData(src.content, typ, limit);
    if failed {
      return sent, None, true;
    }
    if !src.end.Fails? {
      if limit.Some? && |sent| == limit.value {
        return sent, None, true;
      }
      return sent + [Frame(END, [])], None, false;
    }
    var rest: Option<nat> := None;
    if limit.Some? {
      rest := Some(limit.value - |sent|);
    }
    var trailer, _, err := DoWriteStream(Source(src.end.text, Clean), TRAILER, rest);
    return sent + trailer, Some(src.end.text), err;
  }

  // Reading.

  datatype Result = Ok | ConnErr(error: Error) | WriteErr | SourceErr(text: seq<byte>) | EncodingErr
                  | UnexpectedType(typ: u32) | Crashed

  /** How many frames of type `typ` come first. */
  function Leading(rs: seq<Outcome>, typ: u32): (r: nat)
    ensures r <= |rs| && forall i :: 0 <= i < r ==> rs[i].Got? && rs[i].frame.typ == typ
  {
    if rs == [] || !rs[0].Got? || rs[0].frame.typ != typ then 0 else 1 + Leading(rs[1..], typ)
  }

  function Payloads(rs: seq<Outcome>): (r: seq<byte>) {
    if rs == [] then [] else Payloads(rs[..|rs| - 1]) + if rs[|rs| - 1].Got? then rs[|rs| - 1].frame.payload else []
  }

  /** The frame that ended the leading ones; behind the end of the channel it is the last frame received. */
  function Stopper(rs: seq<Outcome>, n: nat): (r: Frame)
    requires n <= |rs| && (n < |rs| ==> rs[n].Got?) && forall i :: 0 <= i < n ==> rs[i].Got?
  {
    if n < |rs| then rs[n].frame else if n > 0 then rs[n - 1].frame else Frame(0, [])
  }

  /** What a stream reader makes of a channel: bytes for the receiver, the result, and what it leaves behind. */
  function Received(rs: seq<Outcome>, typ: u32, isUtf8: seq<byte> -> bool): (r: (seq<byte>, Result, seq<Outcome>))
    decreases |rs|
  {
    var n := Leading(rs, typ);
    var bytes := Payloads(rs[..n]);
    if n < |rs| && rs[n].Failed? then (bytes, ConnErr(rs[n].error), rs[n + 1..])
    else if n < |rs| && rs[n].Panic? then (bytes, Crashed, rs[n + 1..])
    else
      var f, rest := Stopper(rs, n), if n < |rs| then rs[n + 1..] else [];
      if f.typ == END then (bytes, Ok, rest)
      else if f.typ != TRAILER then (bytes, UnexpectedType(f.typ), rest)
      else
        var t := Received(rest, TRAILER, isUtf8);
        (bytes, TrailerResult(t.1, f.payload + t.0, isUtf8), t.2)
  }

  function TrailerResult(res: Result, text: seq<byte>, isUtf8: seq<byte> -> bool): (r: Result) {
    if !res.Ok? then res else if !isUtf8(text) then EncodingErr else SourceErr(text)
  }

  lemma {:induction false} LeadingIs(rs: seq<Outcome>, n: nat, typ: u32)
    requires n <= |rs| && forall i :: 0 <= i < n ==> rs[i].Got? && rs[i].frame.typ == typ
    requires n < |rs| ==> !rs[n].Got? || rs[n].frame.typ != typ
    ensures Leading(rs, typ) == n
  {
    if n > 0 {
      LeadingIs(rs[1..], n - 1, typ);
    }
  }

  // What the result means, by the places of the outcomes in the channel.

  predicate IsFrame(o: Outcome, typ: u32) {
    o.Got? && o.frame.typ == typ
  }

  /** The first `n` outcomes are frames of type `typ`. */
  ghost predicate DataUpTo(rs: seq<Outcome>, typ: u32, n: nat) {
    n <= |rs| && forall i :: 0 <= i < n ==> IsFrame(rs[i], typ)
  }

  /** An end frame right behind frames of type `typ`. */
  ghost predicate EndsCleanly(rs: seq<Outcome>, typ: u32) {
    exists n :: 0 <= n < |rs| && IsFrame(rs[n], END) && DataUpTo(rs, typ, n)
  }

  /** Frames of type `typ` before `n`, then those of an error trailer before `m`, and no more of them at `m`. */
  ghost predicate StopsAt(rs: seq<Outcome>, typ: u32, n: nat, m: nat) {
    && n <= m <= |rs| && DataUpTo(rs, typ, n) && (forall i :: n <= i < m ==> IsFrame(rs[i], TRAILER))
    && (m < |rs| ==> !IsFrame(rs[m], TRAILER) && (n == m ==> !IsFrame(rs[m], typ)))
  }

  /** What a reader has to say about a channel that stops so. A channel that is closed early looks like an unexpected frame. */
  function Verdict(rs: seq<Outcome>, typ: u32, n: nat, m: nat, isUtf8: seq<byte> -> bool): (r: Result)
    requires n <= m <= |rs|
  {
    if m == |rs| then UnexpectedType(if n == m > 0 then typ else 0)
    else
      match rs[m]
      case Failed(e) => ConnErr(e)
      case Panic => Crashed
      case Got(f) =>
        if f.typ != END then UnexpectedType(f.typ)
        else if n == m then Ok
        else if isUtf8(Payloads(rs[n..m])) then SourceErr(Payloads(rs[n..m]))
        else EncodingErr
  }

  lemma LeadingExact(rs: seq<Outcome>, typ: u32, n: nat)
    ensures DataUpTo(rs, typ, n) <==> n <= Leading(rs, typ)
  {
    if DataUpTo(rs, typ, n) {
      LeadingAtLeast(rs, n, typ);
    }
  }

  /** Every channel stops somewhere. */
  lemma StopsSomewhere(rs: seq<Outcome>, typ: u32) returns (n: nat, m: nat)
    ensures StopsAt(rs, typ, n, m)
  {
    n := Leading(rs, typ);
    var k := Leading(rs[n..], TRAILER);
    m := n + k;
    LeadingStops(rs, typ);
    LeadingStops(rs[n..], TRAILER);
    forall i | n <= i < m ensures IsFrame(rs[i], TRAILER) {
      assert rs[i] == rs[n..][i - n];
    }
  }

  lemma {:induction false} LeadingStops(rs: seq<Outcome>, typ: u32)
    ensures Leading(rs, typ) < |rs| ==> !IsFrame(rs[Leading(rs, typ)], typ)
  {
    if rs != [] && IsFrame(rs[0], typ) {
      LeadingStops(rs[1..], typ);
    }
  }

  /** An outcome that neither goes on nor begins a trailer decides. */
  lemma ReceivedAt(rs: seq<Outcome>, typ: u32, n: nat, isUtf8: seq<byte> -> bool)
    requires DataUpTo(rs, typ, n) && n < |rs| && !IsFrame(rs[n], typ) && !IsFrame(rs[n], TRAILER)
    ensures Received(rs, typ, isUtf8) == (Payloads(rs[..n]), Verdict(rs, typ, n, n, isUtf8), rs[n + 1..])
  {
    LeadingIs(rs, n, typ);
  }

  lemma ReceivedThrough(rs: seq<Outcome>, typ: u32, n: nat, isUtf8: seq<byte> -> bool)
    requires typ != TRAILER && DataUpTo(rs, typ, n) && n < |rs| && IsFrame(rs[n], TRAILER)
    ensures var t := Received(rs[n + 1..], TRAILER, isUtf8);
            Received(rs, typ, isUtf8) == (Payloads(rs[..n]), TrailerResult(t.1, rs[n].frame.payload + t.0, isUtf8), t.2)
  {
    LeadingIs(rs, n, typ);
  }

  lemma ReceivedClosed(rs: seq<Outcome>, typ: u32, isUtf8: seq<byte> -> bool)
    requires typ != TRAILER && typ != END && DataUpTo(rs, typ, |rs|)
    ensures Received(rs, typ, isUtf8) == (Payloads(rs), UnexpectedType(if rs == [] then 0 else typ), [])
  {
    LeadingIs(rs, |rs|, typ);
    assert rs[..|rs|] == rs;
  }

  lemma TrailerClosed(rs: seq<Outcome>, isUtf8: seq<byte> -> bool)
    requires DataUpTo(rs, TRAILER, |rs|)
    ensures Received(rs, TRAILER, isUtf8).1 == UnexpectedType(0) && Received(rs, TRAILER, isUtf8).2 == []
  {
    LeadingIs(rs, |rs|, TRAILER);
    assert Received([], TRAILER, isUtf8) == ([], UnexpectedType(0), []);
  }

  /** Behind the first frame of a trailer. */
  lemma ReceivedTrailing(rs: seq<Outcome>, typ: u32, n: nat, m: nat, isUtf8: seq<byte> -> bool)
    requires typ != END && typ != TRAILER && StopsAt(rs, typ, n, m) && n < m < |rs|
    ensures Received(rs, typ, isUtf8) == (Payloads(rs[..n]), Verdict(rs, typ, n, m, isUtf8), rs[m + 1..])
  {
    ReceivedThrough(rs, typ, n, isUtf8);
    ReceivedRest(rs, typ, n, m, isUtf8);
    TrailerText(rs, n, m);
    TrailerVerdict(rs, rs[n + 1..], typ, n, m, m - n - 1, isUtf8);
  }

  lemma ReceivedRest(rs: seq<Outcome>, typ: u32, n: nat, m: nat, isUtf8: seq<byte> -> bool)
    requires StopsAt(rs, typ, n, m) && n < m < |rs|
    ensures var (rest, k) := (rs[n + 1..], m - n - 1);
            && Received(rest, TRAILER, isUtf8) == (Payloads(rest[..k]), Verdict(rest, TRAILER, k, k, isUtf8), rs[m + 1..])
            && rest[k] == rs[m]
  {
    RestTrails(rs, typ, n, m);
    ReceivedAt(rs[n + 1..], TRAILER, m - n - 1, isUtf8);
  }

  lemma RestTrails(rs: seq<Outcome>, typ: u32, n: nat, m: nat)
    requires StopsAt(rs, typ, n, m) && n < m < |rs|
    ensures var (rest, k) := (rs[n + 1..], m - n - 1);
            && DataUpTo(rest, TRAILER, k) && k < |rest| && rest[k] == rs[m] && rest[k + 1..] == rs[m + 1..]
            && !IsFrame(rest[k], TRAILER)
  {
    var rest := rs[n + 1..];
    forall i | 0 <= i < m - n - 1 ensures IsFrame(rest[i], TRAILER) {
      assert rest[i] == rs[n + 1 + i];
    }
  }

  lemma TrailerVerdict(rs: seq<Outcome>, rest: seq<Outcome>, typ: u32, n: nat, m: nat, k: nat, isUtf8: seq<byte> -> bool)
    requires n < m < |rs| && k < |rest| && rest[k] == rs[m]
    ensures TrailerResult(Verdict(rest, TRAILER, k, k, isUtf8), Payloads(rs[n..m]), isUtf8) == Verdict(rs, typ, n, m, isUtf8)
  {
  }

  lemma TrailerText(rs: seq<Outcome>, n: nat, m: nat)
    requires n < m <= |rs| && rs[n].Got?
    ensures Payloads(rs[n..m]) == rs[n].frame.payload + Payloads(rs[n + 1..][..m - n - 1])
  {
    assert rs[n..m] == [rs[n]] + rs[n + 1..][..m - n - 1];
    PayloadsConcat(rs[n + 1..][..m - n - 1], rs[n]);
  }

  /** The bytes written, the result and what is left behind, for every channel. */
  lemma ReceivedExact(rs: seq<Outcome>, typ: u32, n: nat, m: nat, isUtf8: seq<byte> -> bool)
    requires typ != END && typ != TRAILER && StopsAt(rs, typ, n, m)
    ensures Received(rs, typ, isUtf8) ==
            (Payloads(rs[..n]), Verdict(rs, typ, n, m, isUtf8), if m < |rs| then rs[m + 1..] else [])
  {
    if m < |rs| {
      if n == m {
        ReceivedAt(rs, typ, n, isUtf8);
      } else {
        ReceivedTrailing(rs, typ, n, m, isUtf8);
      }
    } else if n == m {
      ReceivedClosed(rs, typ, isUtf8);
      assert rs[..n] == rs;
    } else {
      ReceivedThrough(rs, typ, n, isUtf8);
      var rest := rs[n + 1..];
      forall i | 0 <= i < |rest| ensures IsFrame(rest[i], TRAILER) {
        assert rest[i] == rs[n + 1 + i];
      }
      TrailerClosed(rest, isUtf8);
    }
  }

  /** A stream is taken for complete iff an end frame comes right behind its data. */
  lemma OkExact(rs: seq<Outcome>, typ: u32, isUtf8: seq<byte> -> bool)
    requires typ != END
    ensures Received(rs, typ, isUtf8).1.Ok? <==> EndsCleanly(rs, typ)
  {
    if EndsCleanly(rs, typ) {
      var n :| 0 <= n < |rs| && IsFrame(rs[n], END) && DataUpTo(rs, typ, n);
      LeadingIs(rs, n, typ);
    }
    if Received(rs, typ, isUtf8).1.Ok? {
      var n := Leading(rs, typ);
      assert n < |rs| && IsFrame(rs[n], END) && DataUpTo(rs, typ, n);
    }
  }

  /** A failure that comes before the stream is complete. */
  ghost predicate BreaksWith(rs: seq<Outcome>, typ: u32, e: Error) {
    exists n: nat, m: nat :: StopsAt(rs, typ, n, m) && m < |rs| && rs[m] == Failed(e)
  }

  lemma StopUnique(rs: seq<Outcome>, typ: u32, n: nat, m: nat, n': nat, m': nat)
    requires typ != TRAILER && StopsAt(rs, typ, n, m) && StopsAt(rs, typ, n', m')
    ensures n == n' && m == m'
  {
    LeadingIs(rs, n, typ);
    LeadingIs(rs, n', typ);
  }

  /** A connection error is reported iff it is what comes first. */
  lemma ConnErrExact(rs: seq<Outcome>, typ: u32, e: Error, isUtf8: seq<byte> -> bool)
    requires typ != END && typ != TRAILER
    ensures Received(rs, typ, isUtf8).1 == ConnErr(e) <==> BreaksWith(rs, typ, e)
  {
    var n, m := StopsSomewhere(rs, typ);
    ReceivedExact(rs, typ, n, m, isUtf8);
    if BreaksWith(rs, typ, e) {
      var n': nat, m': nat :| StopsAt(rs, typ, n', m') && m' < |rs| && rs[m'] == Failed(e);
      StopUnique(rs, typ, n, m, n', m');
    }
  }

  /** Writes frames of type `typ` to the receiver, until another result comes or a write fails. */
  method WriteLeading(rs: seq<Outcome>, typ: u32, failAt: Option<nat>) returns (written: seq<byte>, n: nat, failed: bool)
    ensures n <= |rs| && written == Payloads(rs[..n])
    ensures failed <==> failAt.Some? && failAt.value < Leading(rs, typ)
    ensures failed ==> n == failAt.value
    ensures !failed ==> n == Leading(rs, typ)
  {
    n, written, failed := 0, [], false;
    while n < |rs| && rs[n].Got? && rs[n].frame.typ == typ
      invariant 0 <= n <= |rs| && written == Payloads(rs[..n])
      invariant forall i :: 0 <= i < n ==> rs[i].Got? && rs[i].frame.typ == typ
      invariant failAt.Some? ==> n <= failAt.value
    {
      if failAt == Some(n) {
        LeadingAtLeast(rs, n + 1, typ);
        return written, n, true;
      }
      assert rs[..n + 1][..n] == rs[..n];
      written := written + rs[n].frame.payload;
      n := n + 1;
    }
    LeadingIs(rs, n, typ);
  }

  /** The write that fails is one the reader gets to. */
  ghost predicate WriteFails(rs: seq<Outcome>, typ: u32, failAt: Option<nat>) {
    failAt.Some? && DataUpTo(rs, typ, failAt.value + 1)
  }

  /** Reads a stream from the channel `rs` into a receiver whose write number `failAt`, if any, fails. It is taken for
      complete iff an end frame comes right behind its data, and a failure is reported iff it comes first. */
  method ReadStream(rs: seq<Outcome>, typ: u32, failAt: Option<nat>, isUtf8: seq<byte> -> bool)
    returns (written: seq<byte>, res: Result, rest: seq<Outcome>)
    ensures failAt.None? || failAt.value >= Leading(rs, typ) ==> (written, res, rest) == Received(rs, typ, isUtf8)
    ensures failAt.Some? && failAt.value < Leading(rs, typ) ==>
              written == Payloads(rs[..failAt.value]) && res == WriteErr && rest == rs[failAt.value + 1..]
    ensures res.WriteErr? <==> WriteFails(rs, typ, failAt)
    ensures typ != END && !WriteFails(rs, typ, failAt) ==> (res.Ok? <==> EndsCleanly(rs, typ))
    ensures typ != END && typ != TRAILER && !WriteFails(rs, typ, failAt) ==>
              forall e :: res == ConnErr(e) <==> BreaksWith(rs, typ, e)
    decreases |rs|, 0
  {
    ResultExact(rs, typ, failAt, isUtf8);
    var n, failed;
    written, n, failed := WriteLeading(rs, typ, failAt);
    if failed {
      return written, WriteErr, rs[n + 1..];
    }
    rest := [];
    if n < |rs| {
      rest := rs[n + 1..];
      if rs[n].Failed? {
        return written, ConnErr(rs[n].error), rest;
      }
      if rs[n].Panic? {
        return written, Crashed, rest;
      }
    }
    var f := Stopper(rs, n);
    if f.typ == END {
      return written, Ok, rest;
    }
    if f.typ != TRAILER {
      return written, UnexpectedType(f.typ), rest;
    }
    res, rest := ReadTrailer(rest, f.payload, isUtf8);
  }

  lemma ResultExact(rs: seq<Outcome>, typ: u32, failAt: Option<nat>, isUtf8: seq<byte> -> bool)
    ensures WriteFails(rs, typ, failAt) <==> failAt.Some? && failAt.value < Leading(rs, typ)
    ensures !Received(rs, typ, isUtf8).1.WriteErr?
    ensures typ != END ==> (Received(rs, typ, isUtf8).1.Ok? <==> EndsCleanly(rs, typ))
    ensures typ != END && typ != TRAILER ==>
              forall e :: Received(rs, typ, isUtf8).1 == ConnErr(e) <==> BreaksWith(rs, typ, e)
  {
    if failAt.Some? {
      LeadingExact(rs, typ, failAt.value + 1);
    }
    NeverWriteErr(rs, typ, isUtf8);
    if typ != END {
      OkExact(rs, typ, isUtf8);
      if typ != TRAILER {
        forall e ensures Received(rs, typ, isUtf8).1 == ConnErr(e) <==> BreaksWith(rs, typ, e) {
          ConnErrExact(rs, typ, e, isUtf8);
        }
      }
    }
  }

  lemma {:induction false} NeverWriteErr(rs: seq<Outcome>, typ: u32, isUtf8: seq<byte> -> bool)
    ensures !Received(rs, typ, isUtf8).1.WriteErr?
    decreases |rs|
  {
    var n := Leading(rs, typ);
    var rest := if n < |rs| then rs[n + 1..] else [];
    if rest != rs {
      NeverWriteErr(rest, TRAILER, isUtf8);
    }
  }

  /** Reads the rest of an error text that begins with `first`. */
  method ReadTrailer(rs: seq<Outcome>, first: seq<byte>, isUtf8: seq<byte> -> bool) returns (res: Result, rest: seq<Outcome>)
    ensures var t := Received(rs, TRAILER, isUtf8);
            res == TrailerResult(t.1, first + t.0, isUtf8) && rest == t.2
    decreases |rs|, 1
  {
    var text, r;
    text, r, rest := ReadStream(rs, TRAILER, None, isUtf8);
    if !r.Ok? {
      return r, rest;
    }
    if !isUtf8(first + text) {
      return EncodingErr, rest;
    }
    return SourceErr(first + text), rest;
  }

  lemma {:induction false} LeadingAtLeast(rs: seq<Outcome>, n: nat, typ: u32)
    requires n <= |rs| && forall i :: 0 <= i < n ==> rs[i].Got? && rs[i].frame.typ == typ
    ensures Leading(rs, typ) >= n
  {
    if n > 0 {
      LeadingAtLeast(rs[1..], n - 1, typ);
    }
  }

  // End to end.

  lemma {:induction false} PayloadsConcat(rs: seq<Outcome>, o: Outcome)
    requires o.Got?
    ensures Payloads([o] + rs) == o.frame.payload + Payloads(rs)
  {
    if rs == [] {
      assert ([o] + rs)[..0] == [] && [o] + rs == [o];
    } else {
      PayloadsConcat(rs[..|rs| - 1], o);
      assert ([o] + rs)[..|rs|] == [o] + rs[..|rs| - 1];
    }
  }

  lemma FirstChunk(b: seq<byte>, typ: u32) returns (n: nat)
    requires b != []
    ensures 0 < n <= |b| && DataFrames(b, typ) == [Frame(typ, b[..n])] + DataFrames(b[n..], typ)
    ensures b[..n] + b[n..] == b
  {
    n := if |b| <= CHUNK then |b| else CHUNK;
    if n == |b| {
      assert b[..n] == b && b[n..] == [];
    }
  }

  /** Data frames carry the bytes they were made from, and are taken up to whatever follows them. */
  lemma {:induction false} TakesData(b: seq<byte>, typ: u32, more: seq<Outcome>)
    requires more != [] && (!more[0].Got? || more[0].frame.typ != typ)
    ensures var rs := Gots(DataFrames(b, typ));
            Leading(rs + more, typ) == |rs| && Payloads(rs) == b
    decreases |b|
  {
    var fs := DataFrames(b, typ);
    var rs := Gots(fs);
    if b == [] {
      assert rs + more == more;
    } else {
      var n := FirstChunk(b, typ);
      TakesData(b[n..], typ, more);
      var f, rest := Frame(typ, b[..n]), DataFrames(b[n..], typ);
      GotsCons(f, rest);
      PayloadsConcat(Gots(rest), Got(f));
      assert (rs + more)[1..] == Gots(rest) + more;
    }
  }

  lemma ReceivedUpTo(b: seq<byte>, typ: u32, stop: Frame, more: seq<Outcome>, isUtf8: seq<byte> -> bool)
    requires stop.typ != typ
    ensures var (rs, t) := (Gots(DataFrames(b, typ)) + [Got(stop)] + more, Received(more, TRAILER, isUtf8));
            && (stop.typ == END ==> Received(rs, typ, isUtf8) == (b, Ok, more))
            && (stop.typ == TRAILER ==>
                  Received(rs, typ, isUtf8) == (b, TrailerResult(t.1, stop.payload + t.0, isUtf8), t.2))
  {
    var ds := Gots(DataFrames(b, typ));
    var rs := ds + [Got(stop)] + more;
    assert rs == ds + ([Got(stop)] + more);
    TakesData(b, typ, [Got(stop)] + more);
    assert rs[..|ds|] == ds && rs[|ds|] == Got(stop) && rs[|ds| + 1..] == more;
  }

  /** The promised result. An empty error text and `io.ErrUnexpectedEOF` are not told from a clean end. */
  function Promised(end: SourceEnd, isUtf8: seq<byte> -> bool): (r: Result) {
    if end.Fails? && end.text != [] then TrailerResult(Ok, end.text, isUtf8) else Ok
  }

  lemma GotsConcat(fs: seq<Frame>, gs: seq<Frame>)
    ensures Gots(fs + gs) == Gots(fs) + Gots(gs)
  {
  }

  lemma GotsTrailer(data: seq<Frame>, first: Frame, rest: seq<Frame>, end: Frame, more: seq<Outcome>)
    ensures Gots(data + ([first] + rest + [end])) + more ==
            Gots(data) + [Got(first)] + (Gots(rest) + [Got(end)] + more)
  {
  }

  /** An error text comes out of its trailer whole, however many frames it takes. */
  lemma ReceivedTrailer(b: seq<byte>, text: seq<byte>, typ: u32, more: seq<Outcome>, isUtf8: seq<byte> -> bool)
    requires typ != TRAILER && typ != END && text != []
    ensures Received(Gots(DataFrames(b, typ) + (DataFrames(text, TRAILER) + [Frame(END, [])])) + more, typ, isUtf8)
            == (b, TrailerResult(Ok, text, isUtf8), more)
  {
    var n := FirstChunk(text, TRAILER);
    var first, rest, end := Frame(TRAILER, text[..n]), DataFrames(text[n..], TRAILER), Frame(END, []);
    ReceivedUpTo(text[n..], TRAILER, end, more, isUtf8);
    var rs := Gots(rest) + [Got(end)] + more;
    ReceivedUpTo(b, typ, first, rs, isUtf8);
    GotsTrailer(DataFrames(b, typ), first, rest, end, more);
  }

  /** A reader that is handed the frames of a stream gets its bytes and its end, and leaves the rest. */
  lemma ReceivedStream(src: Source, typ: u32, more: seq<Outcome>, isUtf8: seq<byte> -> bool)
    requires typ != TRAILER && typ != END
    ensures Received(Gots(StreamFrames(src, typ)) + more, typ, isUtf8) == (src.content, Promised(src.end, isUtf8), more)
  {
    var end := Frame(END, []);
    if src.end.Fails? && src.end.text != [] {
      ReceivedTrailer(src.content, src.end.text, typ, more, isUtf8);
    } else {
      assert StreamFrames(src, typ) == DataFrames(src.content, typ) + [end];
      GotsConcat(DataFrames(src.content, typ), [end]);
      assert Gots([end]) == [Got(end)];
      ReceivedUpTo(src.content, typ, end, more, isUtf8);
    }
  }

  // Streams that are cut off.

  lemma GotsSlice(fs: seq<Frame>, k: nat)
    requires k <= |fs|
    ensures Gots(fs[..k]) == Gots(fs)[..k]
  {
  }

  /** The first frames of some bytes carry a prefix of them, and all of them only together. */
  lemma {:induction false} DataPrefix(b: seq<byte>, typ: u32, k: nat)
    requires k <= |DataFrames(b, typ)|
    ensures Payloads(Gots(DataFrames(b, typ)[..k])) <= b
    ensures Payloads(Gots(DataFrames(b, typ)[..k])) == b <==> k == |DataFrames(b, typ)|
    decreases |b|
  {
    var fs := DataFrames(b, typ);
    if k == 0 {
      assert Gots(fs[..0]) == [];
    } else {
      var n := FirstChunk(b, typ);
      DataPrefix(b[n..], typ, k - 1);
      assert fs[..k] == [fs[0]] + DataFrames(b[n..], typ)[..k - 1];
      GotsCons(fs[0], DataFrames(b[n..], typ)[..k - 1]);
      PayloadsConcat(Gots(DataFrames(b[n..], typ)[..k - 1]), Got(fs[0]));
      assert b == b[..n] + b[n..];
    }
  }

  /** The frames before the end of a stream: data, then trailer. */
  lemma BeforeEnd(src: Source, typ: u32, k: nat, more: seq<Outcome>)
    requires typ != TRAILER && typ != END && k < |StreamFrames(src, typ)| && more != [] && !more[0].Got?
    ensures var d := |DataFrames(src.content, typ)|;
            StopsAt(Gots(StreamFrames(src, typ)[..k]) + more, typ, if k < d then k else d, k)
  {
    var data, all := DataFrames(src.content, typ), StreamFrames(src, typ);
    DataFramesSizes(src.content, typ);
    var tail := if src.end.Fails? then DataFrames(src.end.text, TRAILER) else [];
    if src.end.Fails? {
      DataFramesSizes(src.end.text, TRAILER);
    }
    assert all == data + tail + [Frame(END, [])];
    forall i | 0 <= i < k ensures all[i].typ == if i < |data| then typ else TRAILER {
      assert i < |data| ==> all[i] in data;
      assert i >= |data| ==> all[i] in tail;
    }
  }

  /** A stream that is cut off between any two of its frames is never taken for complete: the reader reports the
      failure, and what it has written is a prefix of the content. */
  lemma TruncatedStream(src: Source, typ: u32, k: nat, e: Error, more: seq<Outcome>, isUtf8: seq<byte> -> bool)
    requires typ != TRAILER && typ != END && k < |StreamFrames(src, typ)|
    ensures var r := Received(Gots(StreamFrames(src, typ)[..k]) + ([Failed(e)] + more), typ, isUtf8);
            && r.1 == ConnErr(e) && r.2 == more && r.0 <= src.content
            && (r.0 == src.content <==> k >= |DataFrames(src.content, typ)|)
  {
    var data, all, tail := DataFrames(src.content, typ), StreamFrames(src, typ), [Failed(e)] + more;
    var n := if k < |data| then k else |data|;
    BeforeEnd(src, typ, k, tail);
    CutSlices(all, data, k, n, e, more);
    BrokenAt(Gots(all[..k]) + tail, typ, n, k, e, isUtf8);
    DataPrefix(src.content, typ, n);
  }

  lemma CutSlices(all: seq<Frame>, data: seq<Frame>, k: nat, n: nat, e: Error, more: seq<Outcome>)
    requires k <= |all| && n <= k && n <= |data| <= |all| && all[..|data|] == data
    ensures var rs := Gots(all[..k]) + ([Failed(e)] + more);
            k < |rs| && rs[k] == Failed(e) && rs[k + 1..] == more && rs[..n] == Gots(data[..n])
  {
    var rs := Gots(all[..k]) + ([Failed(e)] + more);
    forall i | 0 <= i < n ensures rs[i] == Got(data[i]) {
      assert all[..|data|][i] == all[i];
    }
  }

  lemma BrokenAt(rs: seq<Outcome>, typ: u32, n: nat, k: nat, e: Error, isUtf8: seq<byte> -> bool)
    requires typ != TRAILER && typ != END && StopsAt(rs, typ, n, k) && k < |rs| && rs[k] == Failed(e)
    ensures Received(rs, typ, isUtf8) == (Payloads(rs[..n]), ConnErr(e), rs[k + 1..])
  {
    ReceivedExact(rs, typ, n, k, isUtf8);
  }

  predicate HasSingle(b: seq<byte>) {
    |b| % CHUNK == 1
  }

  /** Whether some frame of the stream has a payload of exactly one byte, which the frame reader cannot take. */
  predicate Unreadable(src: Source) {
    HasSingle(src.content) || (src.end.Fails? && HasSingle(src.end.text))
  }

  lemma {:induction false} DataFramesSizes(b: seq<byte>, typ: u32)
    ensures forall f :: f in DataFrames(b, typ) ==> f.typ == typ && |f.payload| <= CHUNK
    ensures HasSingle(b) <==> exists f :: f in DataFrames(b, typ) && |f.payload| == 1
    decreases |b|
  {
    if |b| > CHUNK {
      var rest := b[CHUNK..];
      DataFramesSizes(rest, typ);
      assert |b| % CHUNK == |rest| % CHUNK;
      assert DataFrames(b, typ) == [Frame(typ, b[..CHUNK])] + DataFrames(rest, typ);
      assert forall f :: f in DataFrames(rest, typ) ==> f in DataFrames(b, typ);
    } else if b != [] {
      assert DataFrames(b, typ) == [Frame(typ, b)];
      assert Frame(typ, b) in DataFrames(b, typ);
    }
  }

  lemma StreamFramesSizes(src: Source, typ: u32)
    ensures forall f :: f in StreamFrames(src, typ) ==> (f.typ == typ || f.typ == TRAILER || f.typ == END) && Fits(f)
    ensures Unreadable(src) <==> exists f :: f in StreamFrames(src, typ) && |f.payload| == 1
  {
    DataFramesSizes(src.content, typ);
    if src.end.Fails? {
      DataFramesSizes(src.end.text, TRAILER);
    }
  }

  /** The frames `all` on the wire are those of the stream and of `more`, with heartbeats anywhere between them. */
  ghost predicate OnWire(all: seq<Frame>, src: Source, typ: u32, more: seq<Frame>) {
    && IsPublicType(typ)
    && H.DropHeartbeats(all) == StreamFrames(src, typ) + more
    && (forall i :: 0 <= i < |all| && all[i].typ == H.HEARTBEAT ==> H.Sent(all[i]))
    && (forall i :: 0 <= i < |more| ==> H.Sent(more[i]))
  }

  lemma AllSent(all: seq<Frame>, src: Source, typ: u32, more: seq<Frame>, i: nat)
    requires OnWire(all, src, typ, more) && i < |all| && |all[i].payload| != 1
    ensures H.Sent(all[i])
  {
    if all[i].typ != H.HEARTBEAT {
      H.DropKeeps(all, i);
      StreamFramesSizes(src, typ);
      TypesPartition(typ);
      if all[i] in more {
        var k :| 0 <= k < |more| && more[k] == all[i];
      }
    }
  }

  /** For every source and every interleaving of heartbeats, the reader writes exactly the bytes of the source and
      ends with nil or with the text of the source's error, and what follows the stream stays readable. */
  lemma StreamEndToEnd(v: View, all: seq<Frame>, src: Source, typ: u32, more: seq<Frame>, end: Error, isUtf8: seq<byte> -> bool)
    requires OnWire(all, src, typ, more) && Carries(v, all, end) && !Unreadable(src)
    ensures Received(H.AllReads(v, end), typ, isUtf8) ==
            (src.content, Promised(src.end, isUtf8), Gots(more) + [Failed(end)])
  {
    AllAreSent(all, src, typ, more);
    H.HeartbeatsInvisible(v, all, end);
    GotsConcat(StreamFrames(src, typ), more);
    TypesPartition(typ);
    ReceivedStream(src, typ, Gots(more) + [Failed(end)], isUtf8);
    assert H.AllReads(v, end) == Gots(StreamFrames(src, typ)) + (Gots(more) + [Failed(end)]);
  }

  lemma {:induction false} FirstSingle(all: seq<Frame>, k: nat) returns (i: nat)
    requires k < |all| && |all[k].payload| == 1
    ensures i <= k && |all[i].payload| == 1 && forall j :: 0 <= j < i ==> |all[j].payload| != 1
  {
    if j :| 0 <= j < k && |all[j].payload| == 1 {
      i := FirstSingle(all, j);
    } else {
      i := k;
    }
  }

  /** Exactly the streams with a chunk of one byte make the reader panic. */
  lemma ReaderPanicsExactly(v: View, all: seq<Frame>, src: Source, typ: u32, more: seq<Frame>, end: Error)
    requires OnWire(all, src, typ, more) && Carries(v, all, end)
    ensures Panic in H.AllReads(v, end) <==> Unreadable(src)
  {
    StreamFramesSizes(src, typ);
    if Unreadable(src) {
      var f :| f in StreamFrames(src, typ) && |f.payload| == 1;
      assert f in H.DropHeartbeats(all);
      H.DropFinds(all, f);
      var k :| 0 <= k < |all| && all[k] == f;
      var i := FirstSingle(all, k);
      forall j | 0 <= j < i ensures H.Sent(all[j]) {
        AllSent(all, src, typ, more, j);
      }
      H.SingleByteEndsReads(v, all, i, end);
    } else {
      AllAreSent(all, src, typ, more);
      H.HeartbeatsInvisible(v, all, end);
    }
  }

  lemma {:induction false} DropPrefix(fs: seq<Frame>, n: nat)
    requires n <= |fs|
    ensures H.DropHeartbeats(fs[..n]) <= H.DropHeartbeats(fs)
    decreases n
  {
    if n > 0 {
      DropPrefix(fs[1..], n - 1);
      assert fs[..n][1..] == fs[1..][..n - 1];
    }
  }

  /** What is read of a stream of which the frames `got` came, or all of it and more, before an error. */
  lemma StreamOrPart(src: Source, typ: u32, got: seq<Frame>, e: Error, isUtf8: seq<byte> -> bool)
    requires typ != TRAILER && typ != END && (got <= StreamFrames(src, typ) || StreamFrames(src, typ) <= got)
    ensures var r := Received(Gots(got) + [Failed(e)], typ, isUtf8);
            && r.0 <= src.content
            && (|got| >= |StreamFrames(src, typ)| ==> r.0 == src.content && r.1 == Promised(src.end, isUtf8))
            && (|got| < |StreamFrames(src, typ)| ==> r.1 == ConnErr(e))
  {
    var frames := StreamFrames(src, typ);
    if |got| < |frames| {
      assert got == frames[..|got|];
      TruncatedStream(src, typ, |got|, e, [], isUtf8);
      assert [Failed(e)] + [] == [Failed(e)];
    } else {
      var rest := got[|frames|..];
      assert got == frames + rest;
      GotsConcat(frames, rest);
      ReceivedStream(src, typ, Gots(rest) + [Failed(e)], isUtf8);
      assert Gots(got) + [Failed(e)] == Gots(frames) + (Gots(rest) + [Failed(e)]);
    }
  }

  /** Over all layers, with the wire cut at any byte: the reader gets the whole stream, if all its frames are delivered,
      or reports the failure behind a prefix of its content. */
  lemma TruncatedEndToEnd(v: View, all: seq<Frame>, src: Source, typ: u32, more: seq<Frame>, cut: nat, end: Error,
                          isUtf8: seq<byte> -> bool)
    requires OnWire(all, src, typ, more) && CutCarries(v, all, cut, end) && !Unreadable(src)
    ensures var (r, got) := (Received(H.AllReads(v, end), typ, isUtf8), H.DropHeartbeats(all[..Delivered(all, cut)]));
            && r.0 <= src.content
            && (|got| >= |StreamFrames(src, typ)| ==> r.0 == src.content && r.1 == Promised(src.end, isUtf8))
            && (|got| < |StreamFrames(src, typ)| ==> r.1 == ConnErr(CutError(all, cut, end)))
  {
    var got := H.DropHeartbeats(all[..Delivered(all, cut)]);
    AllAreSent(all, src, typ, more);
    H.HeartbeatsInvisibleOnCut(v, all, cut, end);
    TypesPartition(typ);
    PrefixOfConcat(all, Delivered(all, cut), StreamFrames(src, typ), more);
    StreamOrPart(src, typ, got, CutError(all, cut, end), isUtf8);
  }

  lemma PrefixOfConcat(all: seq<Frame>, n: nat, frames: seq<Frame>, more: seq<Frame>)
    requires n <= |all| && H.DropHeartbeats(all) == frames + more
    ensures var got := H.DropHeartbeats(all[..n]); got <= frames || frames <= got
  {
    DropPrefix(all, n);
    assert frames <= frames + more;
  }

  lemma AllAreSent(all: seq<Frame>, src: Source, typ: u32, more: seq<Frame>)
    requires OnWire(all, src, typ, more) && !Unreadable(src)
    ensures forall i :: 0 <= i < |all| ==> H.Sent(all[i])
  {
    StreamFramesSizes(src, typ);
    forall i | 0 <= i < |all| ensures H.Sent(all[i]) {
      if |all[i].payload| == 1 && all[i].typ != H.HEARTBEAT {
        H.DropKeeps(all, i);
      }
      if |all[i].payload| != 1 {
        AllSent(all, src, typ, more, i);
      }
    }
  }
}
