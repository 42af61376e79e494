/** Submission times from timestamps truncated to the device's valid bits. */
module Timestamps {
  import opened Basics
  import opened Bits
  import opened LinearIndex

  /** BitHelper::isolateLowerNBits of a uint64. */
  function IsolateLowerNBits(value: nat, bits: nat): nat {
    if bits >= 64 then value else BAnd(value, Pow2(bits) - 1)
  }

  /** getKernelTimestampValidBitsMask; shifting by 64 is undefined. */
  function ValidBitsMask(bits: nat): nat
    requires bits < 64
  {
    Pow2(bits) - 1
  }

  function AbsoluteSubmissionTime(bits: nat, start: nat, enqueue: nat, resolution: nat): nat
    requires bits < 64
  {
    if start > enqueue then U64((start - enqueue) * resolution)
    else U64(U64(ValidBitsMask(bits) + 1 + start - enqueue) * resolution)
  }

  /** Ticks between two timestamps modulo p as the comparison of their remainders shows them. */
  function Ticks(p: nat, enqueue: nat, start: nat): (d: nat)
    requires enqueue < p && start < p
    ensures 1 <= d <= p
  {
    if start > enqueue then start - enqueue else p + start - enqueue
  }

  lemma {:induction false} TicksExact(p: nat, t0: nat, t1: nat)
    requires 0 < p && t0 <= t1
    ensures Ticks(p, t0 % p, t1 % p) == t1 - t0 <==> 1 <= t1 - t0 <= p
  {
    hide Ticks;
    DivModFacts(t0, p);
    DivModFacts(t1, p);
    TicksByQuotients(p, t0 / p, t0 % p, t1 / p, t1 % p);
  }

  lemma DivModFacts(t: nat, p: nat)
    requires 0 < p
    ensures t == t / p * p + t % p && t % p < p
  {
  }

  lemma {:induction false} TicksByQuotients(p: nat, q0: nat, a: nat, q1: nat, b: nat)
    requires a < p && b < p && q0 * p + a <= q1 * p + b
    ensures var gap := q1 * p + b - (q0 * p + a); Ticks(p, a, b) == gap <==> 1 <= gap <= p
  {
    if q1 < q0 {
      MulStep(q1, q0, p);
    } else if q0 + 1 < q1 {
      MulStep(q0 + 1, q1, p);
      assert (q0 + 1) * p == q0 * p + p;
    } else if q1 == q0 + 1 {
      assert (q0 + 1) * p == q0 * p + p;
    }
  }

  lemma {:induction false} TimeOfTicks(bits: nat, enqueue: nat, start: nat, resolution: nat)
    requires bits < 64 && enqueue < Pow2(bits) && start < Pow2(bits) && Pow2(bits) * resolution < TWO_64
    ensures AbsoluteSubmissionTime(bits, start, enqueue, resolution) == Ticks(Pow2(bits), enqueue, start) * resolution
  {
    hide U64, Pow2;
    var p, d := Pow2(bits), Ticks(Pow2(bits), enqueue, start);
    Pow2Monotone(bits, 63);
    Pow2Values();
    MulMono(d, p, resolution);
    Small(d);
    Small(d * resolution);
  }

  /** Exact condition: for timestamps t0 <= t1, fewer than 64 valid bits and no overflow, the
      submission time is (t1 - t0) * resolution if and only if between 1 and 2^bits ticks passed;
      equal truncated timestamps therefore mean one full wrap, never zero. */
  lemma {:induction false} SubmissionTimeExact(bits: nat, t0: nat, t1: nat, resolution: nat)
    requires bits < 64 && t0 <= t1 < TWO_64 && resolution > 0 && Pow2(bits) * resolution < TWO_64
    ensures AbsoluteSubmissionTime(bits, IsolateLowerNBits(t1, bits), IsolateLowerNBits(t0, bits), resolution)
            == (t1 - t0) * resolution
       <==> 1 <= t1 - t0 <= Pow2(bits)
  {
    hide AbsoluteSubmissionTime, Pow2, Ticks, BAnd;
    var p := Pow2(bits);
    MaskIsRemainder(t0, bits);
    MaskIsRemainder(t1, bits);
    TimeOfTicks(bits, t0 % p, t1 % p, resolution);
    TicksExact(p, t0, t1);
    var d := Ticks(p, t0 % p, t1 % p);
    if d * resolution == (t1 - t0) * resolution {
      Cancel(d, t1 - t0, resolution);
    }
  }

  lemma Small(v: nat)
    ensures v < TWO_64 ==> U64(v) == v
  {
  }

  lemma {:induction false} Cancel(a: nat, b: nat, c: nat)
    requires c > 0 && a * c == b * c
    ensures a == b
  {
  }

  lemma PowerOfOne()
    ensures Pow2(1) == 2
  {
  }

  /** Isolating n bits is the remainder modulo 2^n of every uint64, also for 64 bits and more. */
  lemma {:induction false} IsolateIsRemainder(v: nat, bits: nat)
    requires v < TWO_64
    ensures IsolateLowerNBits(v, bits) == v % Pow2(bits)
  {
    hide BAnd, Pow2;
    if bits < 64 {
      MaskIsRemainder(v, bits);
    } else {
      Pow2Monotone(64, bits);
      Pow2Sum(1, 63);
      Pow2Values();
      assert Pow2(1) == 2 by { PowerOfOne(); }
      DivModUnique(0, Pow2(bits), v);
    }
  }

  /** In general the submission time is the ticks times the resolution modulo 2^64. */
  lemma {:induction false} SubmissionTimeWraps(bits: nat, enqueue: nat, start: nat, resolution: nat)
    requires bits < 64 && enqueue < Pow2(bits) && start < Pow2(bits)
    ensures AbsoluteSubmissionTime(bits, start, enqueue, resolution)
         == U64(Ticks(Pow2(bits), enqueue, start) * resolution)
  {
    hide U64, Pow2;
    Pow2Monotone(bits, 63);
    Pow2Values();
    Small(Ticks(Pow2(bits), enqueue, start));
  }
}
