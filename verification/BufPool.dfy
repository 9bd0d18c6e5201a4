/** The pool of power-of-two buffers behind the frame reader. */
module BufPool {
  import opened Bits

  function FittingShift(x: nat): (r: nat) {
    if x == 0 then 0
    else
      var n := BitLen(x);
      if n > 0 && Pow2(n - 1) == x then n - 1 else n
  }

  /** The smallest shift that fits. */
  lemma FittingShiftExact(x: nat)
    ensures x <= Pow2(FittingShift(x))
    ensures FittingShift(x) > 0 ==> Pow2(FittingShift(x) - 1) < x
    ensures FittingShift(x) == 0 <==> x <= 1
  {
    if x > 0 {
      BitLenBounds(x);
      if FittingShift(x) == 0 {
        assert Pow2(0) == 1;
      }
    }
  }

  lemma ShiftOfPow2(n: nat)
    ensures FittingShift(Pow2(n)) == n
  {
    var m := FittingShift(Pow2(n));
    FittingShiftExact(Pow2(n));
    if m > n {
      if m - 1 > n {
        Pow2Grows(n, m - 1);
      }
    } else if m < n {
      Pow2Grows(m, n);
    }
  }

  /** A buffer shows its first `payloadLen` of `size` bytes; a pooled one goes back when it is freed. */
  datatype Buffer = Buffer(size: nat, payloadLen: nat, pooled: bool)

  datatype NoFit = NoFit(allocateSmaller: bool, allocateLarger: bool)

  datatype Outcome = Got(buffer: Buffer) | Panic

  const MAX_FREE := 11

  class Pool {
    const minShift: nat
    const maxShift: nat
    const onNoFit: NoFit
    var free: seq<seq<nat>>

    ghost predicate Valid()
      reads this
    {
      && minShift <= maxShift && |free| == maxShift - minShift + 1
      && forall i, k :: 0 <= i < |free| && 0 <= k < |free[i]| ==> free[i][k] == Pow2(minShift + i)
    }

    constructor (minShift: nat, maxShift: nat, onNoFit: NoFit)
      requires minShift <= maxShift <= 63
      ensures Valid() && this.minShift == minShift && this.maxShift == maxShift && this.onNoFit == onNoFit
    {
      this.minShift, this.maxShift, this.onNoFit := minShift, maxShift, onNoFit;
      free := seq(maxShift - minShift + 1, _ => []);
    }

    /** When a request is not served from a free list. */
    function HandleNoFit(shift: nat): (r: Outcome)
      requires shift == 0 || shift < minShift || shift > maxShift
    {
      if shift == 0 then
        if onNoFit.allocateSmaller then Got(Buffer(0, 0, false)) else Panic
      else if shift < minShift then
        if onNoFit.allocateSmaller then Got(Buffer(Pow2(shift), Pow2(shift), false)) else Panic
      else
        if onNoFit.allocateLarger then Got(Buffer(Pow2(shift), Pow2(shift), false)) else Panic
    }

    /** A buffer of exactly `n` visible bytes, or a panic: always for `n == 1`, and where the pool is not to allocate. */
    method Get(n: nat) returns (r: Outcome)
      requires Valid()
      modifies this
      ensures Valid()
      ensures r.Got? ==> r.buffer.payloadLen == n <= r.buffer.size
      ensures r.Got? && r.buffer.pooled ==> Pow2(minShift) <= r.buffer.size <= Pow2(maxShift)
      ensures r.Panic? <==> || n == 1 || (n == 0 && !onNoFit.allocateSmaller)
                            || (n > 1 && FittingShift(n) < minShift && !onNoFit.allocateSmaller)
                            || (n > 1 && FittingShift(n) > maxShift && !onNoFit.allocateLarger)
    {
      FittingShiftExact(n);
      var shift := FittingShift(n);
      if shift == 0 || shift < minShift || shift > maxShift {
        r := HandleNoFit(shift);
        if r.Got? {
          if n > r.buffer.payloadLen {
            return Panic;
          }
          r := Got(r.buffer.(payloadLen := n));
        }
        return;
      }
      var i := shift - minShift;
      if minShift < shift {
        Pow2Grows(minShift, shift);
      }
      if shift < maxShift {
        Pow2Grows(shift, maxShift);
      }
      if |free[i]| > 0 {
        var size := free[i][|free[i]| - 1];
        free := free[i := free[i][..|free[i]| - 1]];
        return Got(Buffer(size, n, true));
      }
      return Got(Buffer(Pow2(shift), n, true));
    }

    /** A freed buffer of this pool goes to the free list of its size, unless that is full. */
    method Put(b: Buffer)
      requires Valid() && b.pooled && exists m: nat :: b.size == Pow2(m)
      modifies this
      ensures Valid()
      ensures |free| == |old(free)|
      ensures forall i :: 0 <= i < |free| ==>
                free[i] == if b.size == Pow2(minShift + i) && |old(free)[i]| <= 10 then old(free)[i] + [b.size] else old(free)[i]
      ensures forall i :: 0 <= i < |free| && |old(free)[i]| <= MAX_FREE ==> |free[i]| <= MAX_FREE
    {
      ghost var m: nat :| b.size == Pow2(m);
      ShiftOfPow2(m);
      forall k: nat | Pow2(k) == b.size ensures k == m {
        ShiftOfPow2(k);
      }
      var shift := FittingShift(b.size);
      if shift < minShift || shift > maxShift {
        return;
      }
      var i := shift - minShift;
      if |free[i]| > 10 {
        return;
      }
      free := free[i := free[i] + [b.size]];
    }
  }
}
