/** The circular log: a growing, then wrapping buffer that shows the last bytes written to it. */
module CircLog {
  import opened Bits
  import opened Bytes
  import opened Collections
  import opened Versions

  const INIT_SIZE := 0x8000

  const MARKER: seq<byte> := [40, 46, 46, 46, 41]

  /** Or-and-shift steps that fill in all bits below the highest. */
  method Smear(x: nat) returns (r: nat)
    requires BitLen(x) <= 64
    ensures r == Ones(BitLen(x))
  {
    r := x;
    ghost var n := BitLen(x);
    if x > 0 {
      TopBit(x);
    }
    var k := 1;
    while k <= 32
      invariant k in {1, 2, 4, 8, 16, 32, 64}
      invariant TopOnes(r, n, Min(k, n))
      decreases 64 - k
    {
      if k <= n {
        SmearDoubles(r, n, k);
      } else {
        SmearDone(r, n, k);
      }
      r := Or(r, Shr(r, k));
      k := 2 * k;
    }
  }

  lemma PowerIsLeast(n: nat, m: nat)
    requires n >= 1 && Pow2(m) >= n
    ensures Pow2(m) >= Pow2(BitLen(n - 1)) >= n
  {
    BitLenBounds(n - 1);
    var l := BitLen(n - 1);
    if m < l - 1 {
      Pow2Grows(m, l - 1);
    } else if l < m {
      Pow2Grows(l, m);
    }
  }

  lemma PowerOverflows(n: nat)
    requires n >= 1
    ensures Pow2(BitLen(n - 1)) > MAX_INT <==> n > 0x4000_0000_0000_0000
    ensures n <= MAX_INT ==> BitLen(n - 1) <= 64
  {
    BitLenBounds(n - 1);
    BigPowers();
    var l := BitLen(n - 1);
    if l > 63 {
      Pow2Grows(62, l - 1);
      Pow2Grows(63, l);
      if l > 64 {
        Pow2Grows(63, l - 1);
      }
    } else if l < 62 {
      Pow2Grows(l, 62);
    }
  }

  /** The least power of two that is not less than `n`; a panic if there is none in 64 bit ints. */
  method NextPow2Int(n: int) returns (r: Option<int>)
    requires n <= MAX_INT
    ensures r.None? <==> n < 1 || n > 0x4000_0000_0000_0000
    ensures r.Some? ==> r.value >= n && exists k: nat :: r.value == Pow2(k)
    ensures r.Some? ==> forall m: nat :: Pow2(m) >= n ==> Pow2(m) >= r.value
  {
    if n < 1 {
      return None;
    }
    PowerOverflows(n);
    var y := Smear(n - 1);
    y := y + 1;
    BitLenBounds(n - 1);
    forall m: nat | Pow2(m) >= n ensures Pow2(m) >= Pow2(BitLen(n - 1)) {
      PowerIsLeast(n, m);
    }
    if y > MAX_INT {
      return None;
    }
    return Some(y);
  }

  // The log as the last bytes of a stream.

  function Last(s: seq<byte>, n: nat): (r: seq<byte>) {
    if |s| <= n then s else s[|s| - n..]
  }

  /** What a write adds to the stream: an oversized one only its end, with a marker of the truncation. */
  function Effective(data: seq<byte>, size: nat): (r: seq<byte>)
    requires size >= 5
  {
    if |data| <= size then data else MARKER + data[|data| - size + 5..]
  }

  /** A write that fits is kept whole. Of one that does not, the log gets as many bytes as it has: "(...)" and the end. */
  lemma EffectiveExact(data: seq<byte>, size: nat)
    requires size >= 5
    ensures |data| <= size ==> Effective(data, size) == data
    ensures |data| > size ==> |Effective(data, size)| == size && Effective(data, size)[..5] == [40, 46, 46, 46, 41]
    ensures |data| > size ==> forall i :: 5 <= i < size ==> Effective(data, size)[i] == data[|data| - size + i]
  {
  }

  /** What a buffer shows that has been written to `written` times up to `cursor`. */
  function Shown(buf: seq<byte>, cursor: nat, written: nat): (r: seq<byte>)
    requires cursor <= |buf|
  {
    if written < |buf| then buf[..cursor] else buf[cursor..] + buf[..cursor]
  }

  /** The buffer with `d` written from `c` on, going on at its beginning. */
  function Overwrite(buf: seq<byte>, c: nat, d: seq<byte>): (r: seq<byte>)
    requires c <= |buf| && |d| <= |buf|
    ensures |r| == |buf|
  {
    if c + |d| <= |buf| then buf[..c] + d + buf[c + |d|..]
    else d[|buf| - c..] + buf[c + |d| - |buf|..c] + d[..|buf| - c]
  }

  function Advance(c: nat, n: nat, size: nat): (r: nat)
    requires c < size && n <= size
    ensures r < size
  {
    if c + n < size then c + n else c + n - size
  }

  lemma OverwriteNoWrap(buf: seq<byte>, c: nat, d: seq<byte>, stream: seq<byte>)
    requires |stream| == c && c + |d| < |buf| && buf[..c] == stream
    ensures Overwrite(buf, c, d)[..c + |d|] == stream + d
  {
  }

  lemma OverwriteRotates(buf: seq<byte>, c: nat, d: seq<byte>)
    requires c < |buf| && |d| <= |buf|
    ensures var (b', c') := (Overwrite(buf, c, d), Advance(c, |d|, |buf|));
            b'[c'..] + b'[..c'] == (buf[c..] + buf[..c])[|d|..] + d
  {
    var n := |buf|;
    var b', c' := Overwrite(buf, c, d), Advance(c, |d|, n);
    if c + |d| < n {
      assert b'[c'..] == buf[c'..] && b'[..c'] == buf[..c] + d;
      assert (buf[c..] + buf[..c])[|d|..] == buf[c'..] + buf[..c];
    } else {
      assert (buf[c..] + buf[..c])[|d|..] == buf[c'..c];
      if c + |d| == n {
        assert b'[c'..] == b' && b'[..c'] == [];
      } else {
        assert b'[c'..] == buf[c'..c] + d[..n - c] && b'[..c'] == d[n - c..];
        assert d == d[..n - c] + d[n - c..];
      }
    }
  }

  lemma LastAppend(stream: seq<byte>, d: seq<byte>, n: nat)
    requires |d| <= n <= |stream|
    ensures Last(stream + d, n) == Last(stream, n)[|d|..] + d
  {
  }

  lemma FillsUp(buf: seq<byte>, c: nat, d: seq<byte>, stream: seq<byte>)
    requires |stream| == c < |buf| && |d| <= |buf| <= c + |d| && buf[..c] == stream
    ensures (buf[c..] + buf[..c])[|d|..] + d == Last(stream + d, |buf|)
  {
    assert (buf[c..] + buf[..c])[|d|..] == stream[c + |d| - |buf|..];
  }

  /** Writing keeps showing the last bytes of the stream. */
  lemma OverwriteShows(buf: seq<byte>, c: nat, d: seq<byte>, stream: seq<byte>)
    requires c < |buf| && |d| <= |buf| && (|stream| < |buf| ==> c == |stream|)
    requires Shown(buf, c, |stream|) == Last(stream, |buf|)
    ensures Shown(Overwrite(buf, c, d), Advance(c, |d|, |buf|), |stream| + |d|) == Last(stream + d, |buf|)
  {
    if |stream| + |d| < |buf| {
      OverwriteNoWrap(buf, c, d, stream);
    } else {
      OverwriteRotates(buf, c, d);
      if |stream| < |buf| {
        FillsUp(buf, c, d, stream);
      } else {
        LastAppend(stream, d, |buf|);
      }
    }
  }

  lemma ModAdvance(w: nat, n: nat, size: nat)
    requires size > 0 && n <= size
    ensures (w + n) % size == Advance(w % size, n, size)
  {
    var q, c := w / size, w % size;
    if c + n < size {
      ModUnique(w + n, q, c + n, size);
    } else {
      assert (q + 1) * size == q * size + size;
      ModUnique(w + n, q + 1, c + n - size, size);
    }
  }

  lemma ModUnique(x: nat, q: nat, r: nat, size: nat)
    requires size > 0 && x == q * size + r && r < size
    ensures x % size == r
  {
    var q' := x / size;
    assert x == q' * size + x % size;
    assert q' < q ==> (q' + 1) * size <= q * size;
    assert q < q' ==> (q + 1) * size <= q' * size;
  }

  lemma AppendShows(buf: seq<byte>, c: nat, d: seq<byte>, stream: seq<byte>)
    requires |buf| > 0 && c == |stream| % |buf| && |d| <= |buf| && Shown(buf, c, |stream|) == Last(stream, |buf|)
    ensures (c + |d|) % |buf| == (|stream| + |d|) % |buf|
    ensures Shown(Overwrite(buf, c, d), (c + |d|) % |buf|, |stream + d|) == Last(stream + d, |buf|)
  {
    ModAdvance(|stream|, |d|, |buf|);
    if c + |d| < |buf| {
      ModUnique(c + |d|, 0, c + |d|, |buf|);
    } else {
      assert (c + |d|) % |buf| == c + |d| - |buf| by { ModWrap(c + |d|, |buf|); }
    }
    OverwriteShows(buf, c, d, stream);
  }

  lemma ModWrap(x: nat, size: nat)
    requires size > 0 && size <= x < 2 * size
    ensures x % size == x - size
  {
    ModUnique(x, 1, x - size, size);
  }

  /** Before anything is lost the buffer begins with the stream. */
  lemma BeginsWithStream(buf: seq<byte>, c: nat, stream: seq<byte>)
    requires |buf| > 0 && c == |stream| % |buf| && |stream| <= |buf| && Shown(buf, c, |stream|) == Last(stream, |buf|)
    ensures buf[..|stream|] == stream
    ensures c == 0 && stream != [] ==> |stream| == |buf|
    ensures !(c == 0 && stream != []) ==> c == |stream| < |buf|
  {
    if c == 0 && stream != [] {
      FullOnce(|stream|, |buf|);
      assert buf[0..] + buf[..0] == buf;
    } else {
      NotWrapped(|stream|, |buf|);
    }
  }

  lemma RegrownShows(buf: seq<byte>, stream: seq<byte>)
    requires |stream| < |buf| && buf[..|stream|] == stream
    ensures |stream| % |buf| == |stream| && Shown(buf, |stream|, |stream|) == Last(stream, |buf|)
  {
    NotWrapped(|stream|, |buf|);
  }

  class CircularLog {
    var buf: array<byte>
    var size: nat
    const max: nat
    var written: nat
    var writeCursor: nat
    ghost var stream: seq<byte>

    /** The stream is everything written so far, and the log shows the end of it; before the maximum size is reached
        nothing is lost. */
    ghost predicate Valid()
      reads this, buf
    {
      && max > 0 && size == buf.Length >= INIT_SIZE
      && written == |stream| && writeCursor == written % size
      && (size < max ==> written <= size)
      && Shown(buf[..], writeCursor, written) == Last(stream, size)
    }

    constructor (max: nat)
      requires max > 0
      ensures Valid() && stream == [] && this.max == max && fresh(buf)
    {
      size := INIT_SIZE;
      buf := new byte[INIT_SIZE];
      this.max, written, writeCursor, stream := max, 0, 0, [];
    }

    /** The room before the end of the buffer; a cursor that wrapped means the buffer is full. */
    function Avail(): (r: int)
      reads this
    {
      if writeCursor == 0 && written > 0 then 0 else size - writeCursor
    }

    method Copy(newSize: nat, n: nat) returns (newBuf: array<byte>)
      requires n <= buf.Length && n <= newSize
      ensures fresh(newBuf) && newBuf.Length == newSize && newBuf[..][..n] == buf[..][..n]
    {
      newBuf := new byte[newSize];
      forall i | 0 <= i < n {
        newBuf[i] := buf[i];
      }
    }

    /** A larger buffer with the same content, not wrapped. */
    method Grow(newSize: nat)
      requires Valid() && size < max && size < newSize <= max
      modifies this
      ensures fresh(buf) && size == newSize && unchanged(`written, `stream)
      ensures Valid() && written < size
    {
      BeginsWithStream(buf[..], writeCursor, stream);
      if writeCursor == 0 && written > 0 {
        writeCursor := size;
      }
      var newBuf := Copy(newSize, writeCursor);
      ghost var old' := buf[..];
      assert newBuf[..][..written] == old'[..written] == stream;
      RegrownShows(newBuf[..], stream);
      buf := newBuf;
      size := newSize;
    }

    /** Copies `d` from the cursor on, and what does not fit there to the beginning. */
    method Put(d: seq<byte>)
      requires size == buf.Length > 0 && |d| <= size && writeCursor < size
      modifies buf
      ensures buf[..] == Overwrite(old(buf[..]), writeCursor, d)
    {
      var n := size - writeCursor;
      if |d| < n {
        n := |d|;
      }
      CopyAt(buf, writeCursor, d[..n]);
      if n < |d| {
        CopyAt(buf, 0, d[n..]);
      }
      SpliceTwice(old(buf[..]), writeCursor, d, n);
    }

    /** Appends what fits the buffer. */
    method Append(d: seq<byte>)
      requires Valid() && |d| <= size && (size < max ==> written + |d| <= size)
      modifies this, buf
      ensures Valid() && stream == old(stream) + d && unchanged(`size, `buf)
    {
      AppendShows(buf[..], writeCursor, d, stream);
      Put(d);
      writeCursor := (writeCursor + |d|) % size;
      written := written + |d|;
      stream := stream + d;
    }

    /** Grows the buffer while it is below the maximum and `n` bytes would not fit. */
    method MakeRoom(n: nat) returns (panicked: bool)
      requires Valid() && n + size <= MAX_INT
      modifies this
      ensures panicked <==> n > old(Avail()) && old(size) < max && old(size) + n > 0x4000_0000_0000_0000
      ensures Valid() && unchanged(`stream, `written)
      ensures panicked ==> unchanged(this)
      ensures !panicked && size < max ==> written + n <= size
      ensures (size == old(size) && buf == old(buf)) || (size > old(size) && fresh(buf))
    {
      panicked := false;
      if size < max {
        AvailIs();
        if n > Avail() {
          var newSize := NextPow2Int(size + n);
          if newSize.None? {
            return true;
          }
          var s := newSize.value;
          if s > max {
            s := max;
          }
          Grow(s);
        }
      }
    }

    lemma AvailIs()
      requires Valid() && size < max
      ensures Avail() == size - written
    {
      BeginsWithStream(buf[..], writeCursor, stream);
    }

    /** Marks the truncation of data that is too long, in place, and returns what is to be written. */
    method Truncate(data: array<byte>) returns (d: seq<byte>)
      requires size >= INIT_SIZE
      modifies data
      ensures d == Effective(old(data[..]), size) && |d| <= size
      ensures data[..] == old(data[..])[..data.Length - |d|] + d
    {
      var n := data.Length;
      if n <= size {
        return data[..];
      }
      var at := n - size;
      CopyAt(data, at, MARKER);
      TruncatedIs(old(data[..]), size);
      d := data[..][at..];
    }

    /** Appends what fits, with the mark of a truncation in the caller's `data`. */
    method AppendTruncated(data: array<byte>) returns (copied: nat)
      requires Valid() && data != buf && (size < max ==> written + data.Length <= size)
      modifies this, buf, data
      ensures Valid() && unchanged(`size, `buf)
      ensures stream == old(stream) + Effective(old(data[..]), size) && copied == |Effective(old(data[..]), size)|
      ensures copied <= data.Length ==> data[..] == old(data[..])[..data.Length - copied] + Effective(old(data[..]), size)
    {
      var d := Truncate(data);
      Append(d);
      copied := |d|;
    }

    /** Appends to the stream. The caller's `data` is overwritten where a truncation is marked. */
    method Write(data: array<byte>) returns (panicked: bool, copied: nat)
      requires Valid() && data != buf && data.Length + size <= MAX_INT
      modifies this, buf, data
      ensures Valid()
      ensures panicked <==> old(data.Length > Avail() && size < max && size + data.Length > 0x4000_0000_0000_0000)
      ensures panicked ==> stream == old(stream) && data[..] == old(data[..])
      ensures !panicked ==> stream == old(stream) + Effective(old(data[..]), size) && copied == |Effective(old(data[..]), size)|
      ensures !panicked && copied <= data.Length ==> data[..] == old(data[..])[..data.Length - copied] + Effective(old(data[..]), size)
      ensures (size == old(size) && buf == old(buf)) || (size > old(size) && fresh(buf))
    {
      panicked := MakeRoom(data.Length);
      if panicked {
        return true, 0;
      }
      copied := AppendTruncated(data);
    }

    /** What the log shows is the end of everything written to it. */
    method Bytes() returns (r: seq<byte>)
      requires Valid()
      ensures r == Last(stream, size)
    {
      if written >= size && writeCursor == 0 {
        assert buf[..][0..] + buf[..][..0] == buf[..];
        return buf[..];
      }
      if written > size {
        return buf[writeCursor..] + buf[..writeCursor];
      }
      if written == size {
        ModUnique(written, 1, 0, size);
      }
      return buf[..writeCursor];
    }

    method Len() returns (r: nat)
      requires Valid()
      ensures r == |Last(stream, size)|
    {
      if written >= size {
        return size;
      }
      NotWrapped(written, size);
      return writeCursor;
    }
  }

  method CopyAt(dst: array<byte>, at: nat, d: seq<byte>)
    requires at + |d| <= dst.Length
    modifies dst
    ensures dst[..] == Splice(old(dst[..]), at, d)
  {
    forall i | 0 <= i < |d| {
      dst[at + i] := d[i];
    }
  }

  function Splice(b: seq<byte>, at: nat, d: seq<byte>): (r: seq<byte>)
    requires at + |d| <= |b|
  {
    b[..at] + d + b[at + |d|..]
  }

  lemma Drops(x: seq<byte>, y: seq<byte>)
    ensures (x + y)[|x|..] == y
  {
  }

  lemma TruncatedIs(data: seq<byte>, size: nat)
    requires 5 <= size < |data|
    ensures var (at, d) := (|data| - size, Effective(data, size));
            Splice(data, at, MARKER) == data[..at] + d && Splice(data, at, MARKER)[at..] == d && |d| == size
  {
    var at, d := |data| - size, Effective(data, size);
    assert |MARKER| == 5;
    assert Splice(data, at, MARKER) == data[..at] + d;
    Drops(data[..at], d);
  }

  lemma SpliceTwice(b: seq<byte>, c: nat, d: seq<byte>, n: nat)
    requires c < |b| && |d| <= |b| && n <= |d| && (n == |b| - c || (n == |d| && c + n <= |b|))
    ensures n < |d| ==> Splice(Splice(b, c, d[..n]), 0, d[n..]) == Overwrite(b, c, d)
    ensures n == |d| ==> Splice(b, c, d[..n]) == Overwrite(b, c, d)
  {
    if n < |d| {
      assert Splice(b, c, d[..n]) == b[..c] + d[..n];
      assert Splice(Splice(b, c, d[..n]), 0, d[n..]) == d[n..] + b[c + |d| - |b|..c] + d[..n];
    } else {
      assert d[..n] == d;
    }
  }

  lemma FullOnce(w: nat, size: nat)
    requires 0 < w <= size && w % size == 0
    ensures w == size
  {
  }

  lemma NotWrapped(w: nat, size: nat)
    requires w <= size && size > 0 && !(w % size == 0 && w > 0)
    ensures w % size == w < size
  {
  }
}
