/** The closed-form expected values of the atomic and arithmetic benchmarks against the execution of
    the operations themselves, for the integer data types. */
module MathOperations {
  import opened Basics
  import opened Bits
  import opened LinearIndex

  datatype Width = W32 | W64

  function Modulus(w: Width): nat {
    match w case W32 => 0x1_0000_0000 case W64 => 0x1_0000_0000_0000_0000
  }

  /** Two's complement truncation. */
  function Wrap(w: Width, v: int): int {
    var m := Modulus(w);
    (v + m / 2) % m - m / 2
  }

  function Unsigned(w: Width, v: int): nat {
    v % Modulus(w)
  }

  datatype Operation = Add | Sub | Div | Xchg | CmpXchg | Inc | Dec | Min | Max | Modulo | And | Or | Xor

  datatype TestData = TestData(initial: int, other: int, expected: int)

  /** generateTestData for operationsCount operations; the count is a size_t. */
  function Generate(w: Width, op: Operation, operationsCount: nat): TestData {
    var count := Wrap(w, operationsCount);
    match op
    case Add => TestData(1000, 3, Wrap(w, 1000 + Wrap(w, 3 * count)))
    case Sub => TestData(1000, 3, Wrap(w, 1000 - Wrap(w, 3 * count)))
    case Div => TestData(Modulus(w) / 2 - 2, 2, 0)
    case Xchg => TestData(7, 3, 3)
    case CmpXchg => TestData(7, 3, 7)
    case Inc => TestData(12, 0, Wrap(w, 12 + count))
    case Dec => TestData(43, 0, Wrap(w, 43 - count))
    case Min => TestData(100, 33, if 33 < 100 then 33 else 100)
    case Max => TestData(100, 33, if 100 < 33 then 33 else 100)
    case Modulo => TestData(123, 100, 23)
    case And => TestData(0xF3CD, 0xD92A, BAnd(0xF3CD, 0xD92A))
    case Or => TestData(0xF3CD, 0xD92A, BOr(0xF3CD, 0xD92A))
    case Xor => TestData(0xF3CD, 0xD92A, if operationsCount % 2 == 0 then 0xF3CD else BXor(0xF3CD, 0xD92A))
  }

  /** One application to the cell: the atomic functions of section 6.12.11 of the OpenCL 1.2
      specification, with the arguments the kernel macro passes (cmpxchg gets the other argument
      both as comparand and as new value), and C's / and % for the two non-atomic operations. */
  function Execute(w: Width, op: Operation, cell: int, other: int): int
    requires op == Div || op == Modulo ==> cell >= 0 && other > 0
  {
    match op
    case Add => Wrap(w, cell + other)
    case Sub => Wrap(w, cell - other)
    case Div => cell / other
    case Xchg => other
    case CmpXchg => if cell == other then other else cell
    case Inc => Wrap(w, cell + 1)
    case Dec => Wrap(w, cell - 1)
    case Min => if other < cell then other else cell
    case Max => if cell < other then other else cell
    case Modulo => cell % other
    case And => Wrap(w, BAnd(Unsigned(w, cell), Unsigned(w, other)))
    case Or => Wrap(w, BOr(Unsigned(w, cell), Unsigned(w, other)))
    case Xor => Wrap(w, BXor(Unsigned(w, cell), Unsigned(w, other)))
  }

  /** The cell after n applications; the two divisions stay on non-negative cells. */
  function Repeat(w: Width, op: Operation, cell: int, other: int, n: nat): int
    requires op == Div || op == Modulo ==> cell >= 0 && other > 0
    ensures op == Div || op == Modulo ==> Repeat(w, op, cell, other, n) >= 0
  {
    if n == 0 then cell else Execute(w, op, Repeat(w, op, cell, other, n - 1), other)
  }

  // ----- closed forms

  lemma WrapShift(w: Width, v: int, k: int)
    ensures Wrap(w, v + k * Modulus(w)) == Wrap(w, v)
  {
  }

  lemma WrapIs(w: Width, v: int) returns (k: int)
    ensures Wrap(w, v) == v + k * Modulus(w)
  {
    var m := Modulus(w);
    k := -((v + m / 2) / m);
    match w case W32 => case W64 =>
  }

  lemma WrapSmall(w: Width, v: int)
    requires -0x8000_0000 <= v < 0x8000_0000
    ensures Wrap(w, v) == v
  {
  }

  /** Truncating an operand first does not change a truncated sum, difference or triple. */
  lemma {:induction false} WrapFacts(w: Width, a: int, b: int)
    ensures Wrap(w, Wrap(w, a) + b) == Wrap(w, a + b) && Wrap(w, a + Wrap(w, b)) == Wrap(w, a + b)
    ensures Wrap(w, a - Wrap(w, b)) == Wrap(w, a - b) && Wrap(w, 3 * Wrap(w, b)) == Wrap(w, 3 * b)
  {
    hide Wrap;
    var m := Modulus(w);
    var j := WrapIs(w, a);
    var k := WrapIs(w, b);
    WrapShift(w, a + b, j);
    WrapShift(w, a + b, k);
    WrapShift(w, a - b, -k);
    assert 3 * (b + k * m) == 3 * b + (3 * k) * m;
    WrapShift(w, 3 * b, 3 * k);
  }

  lemma {:induction false} RepeatAdds(w: Width, op: Operation, n: nat)
    requires op in {Add, Sub, Inc, Dec}
    ensures var d := Generate(w, op, n); Repeat(w, op, d.initial, d.other, n) == d.expected
  {
    hide Wrap;
    var d := Generate(w, op, n);
    var step := match op case Add => 3 case Sub => -3 case Inc => 1 case _ => -1;
    RepeatShifts(w, op, d.initial, d.other, step, n);
    WrapFacts(w, 0, n);
    WrapFacts(w, d.initial, 3 * n);
    WrapFacts(w, d.initial, n);
  }

  lemma {:induction false} RepeatShifts(w: Width, op: Operation, cell: int, other: int, step: int, n: nat)
    requires op in {Add, Sub, Inc, Dec} && 0 <= cell < 0x8000_0000
    requires step == match op case Add => other case Sub => -other case Inc => 1 case _ => -1
    ensures Repeat(w, op, cell, other, n) == Wrap(w, cell + step * n)
  {
    hide Wrap;
    if n == 0 {
      WrapSmall(w, cell);
    } else {
      RepeatShifts(w, op, cell, other, step, n - 1);
      WrapFacts(w, cell + step * (n - 1), step);
      assert step * (n - 1) + step == step * n;
    }
  }

  /** Operations whose result no longer changes after the first application. */
  lemma {:induction false} RepeatSettles(w: Width, op: Operation, cell: int, other: int, n: nat)
    requires op == Div || op == Modulo ==> cell >= 0 && other > 0
    requires Execute(w, op, Execute(w, op, cell, other), other) == Execute(w, op, cell, other) && n > 0
    requires op == Div || op == Modulo ==> Execute(w, op, cell, other) >= 0
    ensures Repeat(w, op, cell, other, n) == Execute(w, op, cell, other)
  {
    hide Execute;
    if n > 1 {
      RepeatSettles(w, op, cell, other, n - 1);
    } else {
      assert Repeat(w, op, cell, other, 0) == cell;
    }
  }

  /** Sixteen-bit operands are not affected by either width. */
  lemma {:induction false} BitwiseExact(w: Width, x: nat, y: nat)
    requires x < 0x8000_0000 && y < 0x8000_0000
    ensures Execute(w, And, x, y) == BAnd(x, y) < 0x8000_0000
    ensures Execute(w, Or, x, y) == BOr(x, y) < 0x8000_0000
    ensures Execute(w, Xor, x, y) == BXor(x, y) < 0x8000_0000
  {
    hide Wrap, BAnd, BOr, BXor;
    Pow2Values();
    BitsWithin(x, y, 31);
    UnsignedExact(w, x);
    UnsignedExact(w, y);
    WrapSmall(w, BAnd(x, y));
    WrapSmall(w, BOr(x, y));
    WrapSmall(w, BXor(x, y));
  }

  lemma UnsignedExact(w: Width, x: nat)
    requires x < 0x8000_0000
    ensures Unsigned(w, x) == x
  {
  }

  lemma {:induction false} RepeatBitwise(w: Width, op: Operation, n: nat)
    requires op in {And, Or} && n > 0
    ensures var d := Generate(w, op, n); Repeat(w, op, d.initial, d.other, n) == d.expected
  {
    hide Execute, BAnd, BOr, Repeat;
    var x, y := 0xF3CD, 0xD92A;
    BitwiseExact(w, x, y);
    AndTwice(x, y);
    OrTwice(x, y);
    BitwiseExact(w, BAnd(x, y), y);
    BitwiseExact(w, BOr(x, y), y);
    RepeatSettles(w, op, x, y, n);
  }

  /** Exclusive or alternates between two values. */
  lemma {:induction false} RepeatXor(w: Width, x: nat, y: nat, n: nat)
    requires x < 0x8000_0000 && y < 0x8000_0000
    ensures Repeat(w, Xor, x, y, n) == if n % 2 == 0 then x else BXor(x, y)
  {
    hide Execute, BXor;
    if n > 0 {
      RepeatXor(w, x, y, n - 1);
      BitwiseExact(w, x, y);
      XorTwice(x, y);
      BitwiseExact(w, BXor(x, y), y);
    }
  }

  lemma {:induction false} RepeatFirst(w: Width, cell: nat, n: nat)
    requires n > 0
    ensures Repeat(w, Div, cell, 2, n) == Repeat(w, Div, cell / 2, 2, n - 1)
  {
    if n > 1 {
      RepeatFirst(w, cell, n - 1);
    } else {
      assert Repeat(w, Div, cell, 2, 0) == cell && Repeat(w, Div, cell / 2, 2, 0) == cell / 2;
    }
  }

  lemma {:induction false} HalvesReachZero(w: Width, cell: nat, n: nat)
    ensures Repeat(w, Div, cell, 2, n) == 0 <==> cell < Pow2(n)
    decreases n
  {
    if n > 0 {
      RepeatFirst(w, cell, n);
      HalvesReachZero(w, cell / 2, n - 1);
    }
  }

  /** 2^31 - 2 and 2^63 - 2 need exactly 31 and 63 halvings. */
  lemma {:induction false} HalvingsNeeded(w: Width, n: nat)
    ensures Modulus(w) / 2 - 2 < Pow2(n) <==> n >= (if w == W32 then 31 else 63)
  {
    hide Pow2;
    Pow2Values();
    var k := if w == W32 then 31 else 63;
    if n >= k {
      Pow2Monotone(k, n);
    } else {
      Pow2Monotone(n, k - 1);
    }
  }

  // ----- all interleavings

  /** Applications after which the closed form is reached. */
  function Needed(w: Width, op: Operation): nat {
    match op
    case Xchg => 1 case Min => 1 case Modulo => 1 case And => 1 case Or => 1
    case Div => if w == W32 then 31 else 63
    case _ => 0
  }

  /** A set bit masked away, and an unset bit set, change the value. */
  lemma BitsDiffer(x: nat, y: nat)
    ensures x % 2 == 1 && y % 2 == 0 ==> BAnd(x, y) != x
    ensures x / 2 % 2 == 0 && y / 2 % 2 == 1 ==> BOr(x, y) != x
  {
  }

  /** The operations whose result settles at once. */
  lemma {:induction false} SettlesAtOnce(w: Width, op: Operation, n: nat)
    requires op in {Xchg, CmpXchg, Min, Max, Modulo}
    ensures var d := Generate(w, op, n);
            Repeat(w, op, d.initial, d.other, n) == d.expected <==> n >= Needed(w, op)
  {
    hide BAnd, BOr, BXor, Wrap, Pow2;
    var d := Generate(w, op, n);
    if n > 0 {
      RepeatSettles(w, op, d.initial, d.other, n);
    }
  }

  lemma {:induction false} BitwiseIff(w: Width, op: Operation, n: nat)
    requires op in {And, Or}
    ensures var d := Generate(w, op, n);
            Repeat(w, op, d.initial, d.other, n) == d.expected <==> n >= Needed(w, op)
  {
    hide BAnd, BOr, BXor, Wrap, Pow2;
    var d := Generate(w, op, n);
    BitsDiffer(d.initial, d.other);
    if n > 0 {
      RepeatBitwise(w, op, n);
    }
  }

  /** Exact condition: n applications give the expected value if and only if n is at least
      Needed(w, op) -- always for the counting operations, once for the settling ones, 31 or 63
      times for repeated halving. */
  lemma {:induction false} ExpectedIffNeeded(w: Width, op: Operation, n: nat)
    ensures var d := Generate(w, op, n);
            Repeat(w, op, d.initial, d.other, n) == d.expected <==> n >= Needed(w, op)
  {
    hide BAnd, BOr, BXor, Wrap, Pow2, Repeat, Execute;
    var d := Generate(w, op, n);
    if op in {Add, Sub, Inc, Dec} {
      RepeatAdds(w, op, n);
    } else if op == Div {
      HalvesReachZero(w, d.initial, n);
      HalvingsNeeded(w, n);
    } else if op == Xor {
      RepeatXor(w, d.initial, d.other, n);
    } else if op in {And, Or} {
      BitwiseIff(w, op, n);
    } else {
      SettlesAtOnce(w, op, n);
    }
  }

  /** The cell after a schedule: entry k is the thread whose operation comes k-th. */
  function Scheduled(w: Width, op: Operation, cell: int, other: int, schedule: seq<nat>): int
    requires op == Div || op == Modulo ==> cell >= 0 && other > 0
    ensures op == Div || op == Modulo ==> Scheduled(w, op, cell, other, schedule) >= 0
  {
    if schedule == [] then cell
    else Execute(w, op, Scheduled(w, op, cell, other, schedule[..|schedule| - 1]), other)
  }

  /** Each of `threads` threads performs `each` operations, in any interleaving. */
  ghost predicate Interleaving(schedule: seq<nat>, threads: nat, each: nat) {
    && (forall k :: 0 <= k < |schedule| ==> schedule[k] < threads)
    && (forall t: nat :: t < threads ==> multiset(schedule)[t] == each)
  }

  function Without(schedule: seq<nat>, t: nat): seq<nat> {
    if schedule == [] then []
    else Without(schedule[..|schedule| - 1], t) + (if schedule[|schedule| - 1] == t then []
                                                   else [schedule[|schedule| - 1]])
  }

  lemma {:induction false} WithoutFacts(schedule: seq<nat>, t: nat)
    ensures |Without(schedule, t)| == |schedule| - multiset(schedule)[t]
    ensures multiset(Without(schedule, t)) == multiset(schedule)[t := 0]
  {
    if schedule != [] {
      var n := |schedule| - 1;
      assert schedule == schedule[..n] + [schedule[n]];
      WithoutFacts(schedule[..n], t);
    }
  }

  lemma {:induction false} InterleavingLength(schedule: seq<nat>, threads: nat, each: nat)
    requires Interleaving(schedule, threads, each)
    ensures |schedule| == threads * each
    decreases threads
  {
    hide Without;
    if threads == 0 {
      assert schedule == [];
    } else {
      var t := threads - 1;
      var rest := Without(schedule, t);
      WithoutFacts(schedule, t);
      forall k | 0 <= k < |rest|
        ensures rest[k] < t
      {
        assert rest[k] in multiset(rest);
        assert rest[k] in multiset(schedule) && rest[k] != t;
      }
      InterleavingLength(rest, t, each);
      MulSucc(t, each);
    }
  }

  lemma {:induction false} ScheduledIsRepeat(w: Width, op: Operation, cell: int, other: int, schedule: seq<nat>)
    requires op == Div || op == Modulo ==> cell >= 0 && other > 0
    ensures Scheduled(w, op, cell, other, schedule) == Repeat(w, op, cell, other, |schedule|)
  {
    hide Execute;
    if schedule != [] {
      ScheduledIsRepeat(w, op, cell, other, schedule[..|schedule| - 1]);
    }
  }

  /** The size_t operation count may itself wrap; the test data do not notice. */
  lemma {:induction false} CountWraps(w: Width, op: Operation, n: nat)
    ensures Generate(w, op, n % TWO_64) == Generate(w, op, n)
  {
    hide BAnd, BOr, BXor, Wrap;
    var q := n / TWO_64;
    assert n == n % TWO_64 + q * TWO_64;
    assert n % TWO_64 % 2 == n % 2;
    match w
    case W32 => WrapShift(w, n % TWO_64, q * 0x1_0000_0000);
    case W64 => WrapShift(w, n % TWO_64, q);
  }

  /** Expected value equals execution: for every interleaving of totalThreadsCount threads that each
      perform loopIterations * operationsPerLoop operations, the cell ends with the generated
      expected value if and only if the operations are at least Needed(w, op) in all. */
  lemma {:induction false} ExpectedEqualsExecution(w: Width, op: Operation, threads: nat, loopIterations: nat,
                                                   operationsPerLoop: nat, schedule: seq<nat>)
    requires Interleaving(schedule, threads, loopIterations * operationsPerLoop)
    ensures var d := Generate(w, op, threads * loopIterations * operationsPerLoop % TWO_64);
            Scheduled(w, op, d.initial, d.other, schedule) == d.expected
            <==> threads * loopIterations * operationsPerLoop >= Needed(w, op)
  {
    hide Generate, Scheduled, Repeat, Interleaving;
    var n := threads * loopIterations * operationsPerLoop;
    assert threads * (loopIterations * operationsPerLoop) == n;
    InterleavingLength(schedule, threads, loopIterations * operationsPerLoop);
    CountWraps(w, op, n);
    var d := Generate(w, op, n);
    GeneratedPositive(w, op, n);
    ScheduledIsRepeat(w, op, d.initial, d.other, schedule);
    ExpectedIffNeeded(w, op, n);
  }

  lemma GeneratedPositive(w: Width, op: Operation, n: nat)
    ensures op == Div || op == Modulo ==> Generate(w, op, n).initial >= 0 && Generate(w, op, n).other > 0
  {
  }

  // ----- what the operations mean

  predicate InWidth(w: Width, v: int) {
    match w
    case W32 => -0x8000_0000 <= v < 0x8000_0000
    case W64 => -0x8000_0000_0000_0000 <= v < 0x8000_0000_0000_0000
  }

  /** r is the two's complement number of the width that differs from v by whole multiples of 2^32 or 2^64. */
  ghost predicate Truncates(w: Width, v: int, r: int) {
    InWidth(w, r) && exists k: int :: r == v + Multiple(w, k)
  }

  function Multiple(w: Width, k: int): int {
    match w
    case W32 => k * 0x1_0000_0000
    case W64 => k * 0x1_0000_0000_0000_0000
  }

  lemma {:induction false} WrapTruncates(w: Width, v: int)
    ensures Truncates(w, v, Wrap(w, v))
  {
    var k := WrapIs(w, v);
    assert Wrap(w, v) == v + Multiple(w, k);
    match w case W32 => case W64 =>
  }

  /** The bit pattern of a two's complement number. */
  function Pattern(w: Width, v: int): nat
    requires InWidth(w, v)
  {
    if v >= 0 then v else match w case W32 => v + 0x1_0000_0000 case W64 => v + 0x1_0000_0000_0000_0000
  }

  function BitCount(w: Width): nat {
    match w case W32 => 32 case W64 => 64
  }

  lemma {:induction false} PatternOfWrap(w: Width, x: nat)
    requires x < Modulus(w)
    ensures InWidth(w, Wrap(w, x)) && Pattern(w, Wrap(w, x)) == x
  {
    match w case W32 => case W64 =>
  }

  lemma {:induction false} PatternIsUnsigned(w: Width, v: int)
    requires InWidth(w, v)
    ensures Unsigned(w, v) == Pattern(w, v) < Modulus(w) == Pow2(BitCount(w))
  {
    Pow2Values();
    match w case W32 => case W64 =>
  }

  /** Bit k of r is set where it is set in both, in any, in exactly one of a and b. */
  ghost predicate BothSet(w: Width, r: int, a: int, b: int)
    requires InWidth(w, r) && InWidth(w, a) && InWidth(w, b)
  {
    forall k: nat :: Bit(Pattern(w, r), k) == 1 <==> Bit(Pattern(w, a), k) == 1 && Bit(Pattern(w, b), k) == 1
  }

  ghost predicate AnySet(w: Width, r: int, a: int, b: int)
    requires InWidth(w, r) && InWidth(w, a) && InWidth(w, b)
  {
    forall k: nat :: Bit(Pattern(w, r), k) == 1 <==> Bit(Pattern(w, a), k) == 1 || Bit(Pattern(w, b), k) == 1
  }

  ghost predicate OneSet(w: Width, r: int, a: int, b: int)
    requires InWidth(w, r) && InWidth(w, a) && InWidth(w, b)
  {
    forall k: nat :: Bit(Pattern(w, r), k) == 1 <==> Bit(Pattern(w, a), k) != Bit(Pattern(w, b), k)
  }

  /** Every operation on cells of its width, in terms of the operands alone: sums and differences
      modulo 2^32 or 2^64, compare-and-exchange with equal comparand and value never changes the
      cell, bitwise operations bit by bit, quotient and remainder by Euclid. */
  lemma {:induction false} ExecuteMeans(w: Width, op: Operation, cell: int, other: int)
    requires InWidth(w, cell) && InWidth(w, other)
    requires op == Div || op == Modulo ==> cell >= 0 && other > 0
    ensures var r := Execute(w, op, cell, other);
            && InWidth(w, r)
            && match op
               case Add => Truncates(w, cell + other, r)
               case Sub => Truncates(w, cell - other, r)
               case Inc => Truncates(w, cell + 1, r)
               case Dec => Truncates(w, cell - 1, r)
               case Xchg => r == other
               case CmpXchg => r == cell
               case Min => r in {cell, other} && r <= cell && r <= other
               case Max => r in {cell, other} && r >= cell && r >= other
               case Div => 0 <= cell - r * other < other
               case Modulo => 0 <= r < other && exists q :: cell == q * other + r
               case And => BothSet(w, r, cell, other)
               case Or => AnySet(w, r, cell, other)
               case Xor => OneSet(w, r, cell, other)
  {
    hide Truncates, Wrap, BAnd, BOr, BXor, Bit, Pattern, Pow2, Unsigned;
    WrapTruncates(w, cell + other);
    WrapTruncates(w, cell - other);
    WrapTruncates(w, cell + 1);
    WrapTruncates(w, cell - 1);
    TruncatesInWidth(w, cell + other, Wrap(w, cell + other));
    TruncatesInWidth(w, cell - other, Wrap(w, cell - other));
    TruncatesInWidth(w, cell + 1, Wrap(w, cell + 1));
    TruncatesInWidth(w, cell - 1, Wrap(w, cell - 1));
    match op
    case Div => QuotientMeans(w, cell, other);
    case Modulo => QuotientMeans(w, cell, other);
    case And => BitwiseMeans(w, cell, other);
    case Or => BitwiseMeans(w, cell, other);
    case Xor => BitwiseMeans(w, cell, other);
    case _ =>
  }

  lemma TruncatesInWidth(w: Width, v: int, r: int)
    requires Truncates(w, v, r)
    ensures InWidth(w, r)
  {
  }

  lemma {:induction false} QuotientMeans(w: Width, cell: int, other: int)
    requires InWidth(w, cell) && cell >= 0 && other > 0
    ensures InWidth(w, cell / other) && 0 <= cell - cell / other * other < other
    ensures InWidth(w, cell % other) && 0 <= cell % other < other && cell == cell / other * other + cell % other
  {
    var q, r := cell / other, cell % other;
    assert cell == q * other + r;
    MulMono(1, other, q);
  }

  lemma {:induction false} BitwiseMeans(w: Width, cell: int, other: int)
    requires InWidth(w, cell) && InWidth(w, other)
    ensures InWidth(w, Execute(w, And, cell, other)) && InWidth(w, Execute(w, Or, cell, other))
    ensures InWidth(w, Execute(w, Xor, cell, other))
    ensures BothSet(w, Execute(w, And, cell, other), cell, other)
    ensures AnySet(w, Execute(w, Or, cell, other), cell, other)
    ensures OneSet(w, Execute(w, Xor, cell, other), cell, other)
  {
    hide Wrap, BAnd, BOr, BXor, Bit, Pattern, Pow2, Unsigned, Modulus;
    var x, y := Pattern(w, cell), Pattern(w, other);
    PatternIsUnsigned(w, cell);
    PatternIsUnsigned(w, other);
    BitsWithin(x, y, BitCount(w));
    PatternOfWrap(w, BAnd(x, y));
    PatternOfWrap(w, BOr(x, y));
    PatternOfWrap(w, BXor(x, y));
    forall k: nat
      ensures Bit(BAnd(x, y), k) == 1 <==> Bit(x, k) == 1 && Bit(y, k) == 1
      ensures Bit(BOr(x, y), k) == 1 <==> Bit(x, k) == 1 || Bit(y, k) == 1
      ensures Bit(BXor(x, y), k) == 1 <==> Bit(x, k) != Bit(y, k)
    {
      BitOfOperations(x, y, k);
    }
  }

  /** The test data in plain numbers: initial value, other argument, and the expected value -- after n
      operations, modulo 2^32 or 2^64 for the counting ones. */
  lemma {:induction false} GeneratedValues(w: Width, op: Operation, n: nat)
    ensures var d := Generate(w, op, n);
            match op
            case Add => d.initial == 1000 && d.other == 3 && Truncates(w, 1000 + 3 * n, d.expected)
            case Sub => d.initial == 1000 && d.other == 3 && Truncates(w, 1000 - 3 * n, d.expected)
            case Inc => d.initial == 12 && Truncates(w, 12 + n, d.expected)
            case Dec => d.initial == 43 && Truncates(w, 43 - n, d.expected)
            case Div => d == TestData(if w == W32 then 2147483646 else 9223372036854775806, 2, 0)
            case Xchg => d == TestData(7, 3, 3)
            case CmpXchg => d == TestData(7, 3, 7)
            case Min => d == TestData(100, 33, 33)
            case Max => d == TestData(100, 33, 100)
            case Modulo => d == TestData(123, 100, 23)
            case And => d == TestData(62413, 55594, 53512)
            case Or => d == TestData(62413, 55594, 64495)
            case Xor => d == TestData(62413, 55594, if n % 2 == 0 then 62413 else 10983)
  {
    hide Truncates, Wrap;
    ExpectedSums(w, n);
    PatternValues();
  }

  lemma {:induction false} ExpectedSums(w: Width, n: nat)
    ensures Truncates(w, 1000 + 3 * n, Wrap(w, 1000 + Wrap(w, 3 * Wrap(w, n))))
    ensures Truncates(w, 1000 - 3 * n, Wrap(w, 1000 - Wrap(w, 3 * Wrap(w, n))))
    ensures Truncates(w, 12 + n, Wrap(w, 12 + Wrap(w, n))) && Truncates(w, 43 - n, Wrap(w, 43 - Wrap(w, n)))
  {
    hide Truncates, Wrap;
    WrapFacts(w, 0, n);
    WrapFacts(w, 1000, 3 * n);
    WrapFacts(w, 12, n);
    WrapFacts(w, 43, n);
    WrapTruncates(w, 1000 + 3 * n);
    WrapTruncates(w, 1000 - 3 * n);
    WrapTruncates(w, 12 + n);
    WrapTruncates(w, 43 - n);
  }

  lemma {:induction false} PatternValues()
    ensures BAnd(0xF3CD, 0xD92A) == 0xD108 && BOr(0xF3CD, 0xD92A) == 0xFBEF && BXor(0xF3CD, 0xD92A) == 0x2AE7
  {
    hide BAnd, BOr, BXor;
    AndOfZeros();
    AndDoubled(0x0, 0x0, 1, 1, 0x0);
    AndDoubled(0x1, 0x1, 1, 1, 0x1);
    AndDoubled(0x3, 0x3, 1, 0, 0x3);
    AndDoubled(0x7, 0x6, 1, 1, 0x6);
    AndDoubled(0xF, 0xD, 0, 1, 0xD);
    AndDoubled(0x1E, 0x1B, 0, 0, 0x1A);
    AndDoubled(0x3C, 0x36, 1, 0, 0x34);
    AndDoubled(0x79, 0x6C, 1, 1, 0x68);
    AndDoubled(0xF3, 0xD9, 1, 0, 0xD1);
    AndDoubled(0x1E7, 0x1B2, 1, 0, 0x1A2);
    AndDoubled(0x3CF, 0x364, 0, 1, 0x344);
    AndDoubled(0x79E, 0x6C9, 0, 0, 0x688);
    AndDoubled(0xF3C, 0xD92, 1, 1, 0xD10);
    AndDoubled(0x1E79, 0x1B25, 1, 0, 0x1A21);
    AndDoubled(0x3CF3, 0x364A, 0, 1, 0x3442);
    AndDoubled(0x79E6, 0x6C95, 1, 0, 0x6884);
    BitSums(0xF3CD, 0xD92A);
  }

  lemma AndOfZeros()
    ensures BAnd(0, 0) == 0
  {
  }

  /** One more bit on each operand. */
  lemma {:induction false} AndDoubled(x: nat, y: nat, a: nat, b: nat, both: nat)
    requires a < 2 && b < 2 && BAnd(x, y) == both
    ensures BAnd(2 * x + a, 2 * y + b) == 2 * both + (if a == 1 && b == 1 then 1 else 0)
  {
    assert (2 * x + a) / 2 == x && (2 * y + b) / 2 == y;
  }
}
