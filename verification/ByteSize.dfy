/** ByteSizeArgument: byte counts printed with the largest exact unit and read back. */
module ByteSize {
  import opened Basics
  import opened Decimal
  import opened LinearIndex

  const KIBI := 1024

  function Pow1024(k: nat): (p: nat)
    ensures p > 0
  {
    if k == 0 then 1 else KIBI * Pow1024(k - 1)
  }

  // ----- printing

  function Suffix(unit: nat): string
    requires unit < 4
  {
    if unit == 0 then "" else if unit == 1 then "KB" else if unit == 2 then "MB" else "GB"
  }

  /** How many of the divisions by 1024 the unit loop performs, and what is left of the value. */
  function UnitOf(v: int, left: nat): (u: nat)
    ensures u <= left
    decreases left
  {
    if left == 0 || v % KIBI != 0 then 0 else 1 + UnitOf(v / KIBI, left - 1)
  }

  function Scaled(v: int, left: nat): int
    decreases left
  {
    if left == 0 || v % KIBI != 0 then v else Scaled(v / KIBI, left - 1)
  }

  /** The text, or None where the unit index runs past the table. */
  function TextOf(v: int): Option<string> {
    if v == 0 then Some("0")
    else if UnitOf(v, 4) == 4 then None
    else Some(Print(Scaled(v, 4)) + Suffix(UnitOf(v, 4)))
  }

  /** The unit is the largest power of 1024 (up to `left`) that divides the value. */
  lemma {:induction false} UnitIsLargest(v: int, left: nat)
    ensures v == Scaled(v, left) * Pow1024(UnitOf(v, left))
    ensures UnitOf(v, left) < left ==> Scaled(v, left) % KIBI != 0
    decreases left
  {
    if left > 0 && v % KIBI == 0 {
      UnitIsLargest(v / KIBI, left - 1);
      var q, p := Scaled(v, left), Pow1024(UnitOf(v / KIBI, left - 1));
      assert v == q * p * KIBI;
      assert q * p * KIBI == q * (KIBI * p);
    }
  }

  /** The unit loop as the program writes it. */
  method ToStringValue(v: int) returns (text: Option<string>)
    ensures text == TextOf(v)
  {
    if v == 0 {
      return Some("0");
    }
    var unit, current := 0, v;
    while unit < 4
      invariant 0 <= unit <= 4
      invariant UnitOf(v, 4) == unit + UnitOf(current, 4 - unit) && Scaled(v, 4) == Scaled(current, 4 - unit)
    {
      if current % KIBI != 0 {
        break;
      }
      current := current / KIBI;
      unit := unit + 1;
    }
    if unit == 4 {
      return None;
    }
    return Some(Print(current) + Suffix(unit));
  }

  // ----- reading

  function Lower(c: char): char {
    if 'A' <= c <= 'Z' then (c as int - 'A' as int + 'a' as int) as char else c
  }

  function ToLower(s: string): string {
    seq(|s|, i requires 0 <= i < |s| => Lower(s[i]))
  }

  predicate OccursAt(s: string, u: string, i: int) {
    0 <= i && i + |u| <= |s| && s[i..i + |u|] == u
  }

  /** Position of the last occurrence not after `from`, or -1. */
  function RFind(s: string, u: string, from: nat): (k: int)
    ensures -1 <= k <= from && (k >= 0 ==> OccursAt(s, u, k)) && forall i :: k < i <= from ==> !OccursAt(s, u, i)
  {
    if OccursAt(s, u, from) then from else if from == 0 then -1 else RFind(s, u, from - 1)
  }

  function Unit(k: nat): string
    requires k < 5
  {
    if k == 0 then "kb" else if k == 1 then "mb" else if k == 2 then "gb" else if k == 3 then "b" else ""
  }

  function Multiplier(k: nat): nat
    requires k < 5
  {
    if k == 0 then 1024 else if k == 1 then 1024 * 1024 else if k == 2 then 1024 * 1024 * 1024 else 1
  }

  predicate EndsWith(s: string, u: string) {
    |u| <= |s| && s[|s| - |u|..] == u
  }

  /** The first unit of the table the text ends with; the empty unit always does. */
  function UnitIndex(s: string, k: nat): (u: nat)
    requires k < 5
    ensures k <= u < 5 && EndsWith(s, Unit(u)) && forall j :: k <= j < u ==> !EndsWith(s, Unit(j))
    decreases 5 - k
  {
    if EndsWith(s, Unit(k)) then k else
      assert k != 4;
      UnitIndex(s, k + 1)
  }

  function BytesOf(text: string): int {
    var s := ToLower(text);
    Scale(s, UnitIndex(s, 0))
  }

  /** The number in front of unit u, in bytes, as int64. */
  function Scale(s: string, u: nat): int
    requires u < 5 && EndsWith(s, Unit(u))
  {
    S64(Atol(s[..|s| - |Unit(u)|]) * Multiplier(u))
  }

  /** The unit search as the program writes it; its unknown-unit branch is never taken, because the
      empty unit ends every text. */
  method ParseValue(text: string) returns (value: int)
    ensures value == BytesOf(text)
  {
    hide ToLower, Scale;
    var s := ToLower(text);
    var k := 0;
    assert EndsWith(s, Unit(4));
    while k < 5
      invariant 0 <= k < 5 && forall j :: 0 <= j < k ==> !EndsWith(s, Unit(j))
    {
      if |s| >= |Unit(k)| {
        var position := RFind(s, Unit(k), |s|);
        LastOccurrence(s, Unit(k));
        if position == |s| - |Unit(k)| {
          break;
        }
      }
      k := k + 1;
    }
    value := Scale(s, k);
  }

  /** The program's suffix test: the last occurrence sits at the end. */
  lemma LastOccurrence(s: string, u: string)
    requires |u| <= |s|
    ensures RFind(s, u, |s|) == |s| - |u| <==> EndsWith(s, u)
  {
    var n := |s| - |u|;
    assert s[n..n + |u|] == s[n..];
    assert OccursAt(s, u, n) <==> EndsWith(s, u);
    assert forall i :: n < i ==> !OccursAt(s, u, i);
  }

  // ----- round trip

  lemma {:induction false} LowerText(v: int, unit: nat)
    requires unit < 4
    ensures ToLower(Print(v) + Suffix(unit)) == Print(v) + ToLower(Suffix(unit))
  {
  }

  lemma {:induction false} UnitOfText(v: int, unit: nat)
    requires unit < 4
    ensures var s := Print(v) + ToLower(Suffix(unit)); var u := UnitIndex(s, 0);
            s[..|s| - |Unit(u)|] == Print(v) && Multiplier(u) == Pow1024(unit)
  {
    hide Print;
    PrintStarts(v);
    var d := Print(v);
    var s, n := d + ToLower(Suffix(unit)), |d|;
    Powers();
    if unit == 0 {
      assert s == d;
      assert forall k :: 0 <= k < 4 ==> Unit(k)[|Unit(k)| - 1] == 'b';
      assert d[n - 1] != 'b';
      forall k | 0 <= k < 4 && |Unit(k)| <= n
        ensures !EndsWith(s, Unit(k))
      {
        assert s[n - |Unit(k)|..][|Unit(k)| - 1] == s[n - 1];
      }
      assert UnitIndex(s, 0) == 4;
      assert s[..|s|] == s;
    } else {
      var want := Unit(unit - 1);
      assert ToLower(Suffix(unit)) == want;
      assert s[n..] == want && s[..n] == d && EndsWith(s, want);
      forall k | 0 <= k < unit - 1
        ensures !EndsWith(s, Unit(k))
      {
        assert |Unit(k)| == 2 && s[|s| - 2..] == want && want[0] != Unit(k)[0];
      }
      assert UnitIndex(s, 0) == unit - 1;
    }
  }

  lemma {:induction false} ScaledInRange(v: int, q: int, u: nat)
    requires u < 4 && IsInt64(v) && v == q * Pow1024(u)
    ensures IsInt64(q)
  {
  }

  lemma Powers()
    ensures Pow1024(0) == 1 && Pow1024(1) == 1024 && Pow1024(2) == 1024 * 1024 && Pow1024(3) == 1024 * 1024 * 1024
    ensures Pow1024(4) == 0x100_0000_0000
  {
  }

  /** Exact condition: an int64 byte count has a text if and only if it is zero or not a multiple of
      1024^4, and then parsing the text gives the count back. */
  lemma {:induction false} ByteSizeRoundTrip(v: int)
    requires IsInt64(v)
    ensures TextOf(v).Some? <==> v == 0 || v % 0x100_0000_0000 != 0
    ensures TextOf(v).Some? ==> BytesOf(TextOf(v).value) == v
  {
    hide BytesOf, Pow1024, Print;
    if v == 0 {
      Powers();
      ReadBack(0, 0, 0);
      assert Print(0) + Suffix(0) == "0" by { PrintZero(); }
    } else {
      UnitIsLargest(v, 4);
      MultipleIffFour(v);
      if UnitOf(v, 4) < 4 {
        ScaledInRange(v, Scaled(v, 4), UnitOf(v, 4));
        ReadBack(v, UnitOf(v, 4), Scaled(v, 4));
      }
    }
  }

  lemma PrintZero()
    ensures Print(0) + Suffix(0) == "0"
  {
  }

  lemma {:induction false} ReadBack(v: int, u: nat, q: int)
    requires u < 4 && v == q * Pow1024(u) && IsInt64(v) && IsInt64(q)
    ensures BytesOf(Print(q) + Suffix(u)) == v
  {
    hide Print, S64, Atol, Pow1024, ToLower;
    LowerText(q, u);
    UnitOfText(q, u);
    AtolOfPrint(q, "");
    assert Print(q) + "" == Print(q);
    S64Exact(v);
  }

  lemma {:induction false} MultipleIffFour(v: int)
    ensures UnitOf(v, 4) == 4 <==> v % 0x100_0000_0000 == 0
  {
    hide UnitOf;
    UnitStep(v, 4);
    UnitStep(v / KIBI, 3);
    UnitStep(v / KIBI / KIBI, 2);
    UnitStep(v / KIBI / KIBI / KIBI, 1);
    Multiples(v, 0x4000_0000);
    Multiples(v / KIBI, 0x10_0000);
    Multiples(v / KIBI / KIBI, KIBI);
  }

  lemma UnitStep(v: int, left: nat)
    requires left > 0
    ensures UnitOf(v, left) == left <==> v % KIBI == 0 && UnitOf(v / KIBI, left - 1) == left - 1
    ensures UnitOf(v, 0) == 0 && UnitOf(v / KIBI, 0) == 0
  {
  }

  lemma {:induction false} Multiples(v: int, m: nat)
    requires m > 0
    ensures v % (KIBI * m) == 0 <==> v % KIBI == 0 && v / KIBI % m == 0
  {
    if v % (KIBI * m) == 0 {
      var q := v / (KIBI * m);
      assert v == q * m * KIBI + 0;
      DivModUnique(q * m, KIBI, 0);
      DivModUnique(q, m, 0);
    } else if v % KIBI == 0 && v / KIBI % m == 0 {
      var q := v / KIBI / m;
      assert v / KIBI == q * m;
      assert v == q * (KIBI * m) + 0;
      DivModUnique(q, KIBI * m, 0);
    }
  }

  // ----- any unit

  /** Bytes per unit: nothing, KB, MB, GB when printing. */
  function BytesPer(unit: nat): nat
    requires unit < 4
  {
    [1, 1024, 1048576, 1073741824][unit]
  }

  /** A count of whole units that is no multiple of 1024 is printed with its unit. */
  lemma {:induction false} TextOfUnits(q: int, unit: nat)
    requires unit < 4 && q % 1024 != 0
    ensures TextOf(q * BytesPer(unit)) == Some(Print(q) + ["", "KB", "MB", "GB"][unit])
  {
    hide Print, UnitOf, Scaled;
    Powers();
    UnitOfPower(q, unit, 4);
    NonZeroProduct(q, BytesPer(unit));
  }

  lemma NonZeroProduct(q: int, p: nat)
    requires q != 0 && p > 0
    ensures q * p != 0
  {
  }

  lemma {:induction false} UnitOfPower(q: int, unit: nat, left: nat)
    requires unit < left && q % KIBI != 0
    ensures UnitOf(q * Pow1024(unit), left) == unit && Scaled(q * Pow1024(unit), left) == q
    decreases unit
  {
    if unit == 0 {
      assert q * 1 == q;
    } else {
      var p := Pow1024(unit - 1);
      assert q * (KIBI * p) == q * p * KIBI + 0;
      DivModUnique(q * p, KIBI, 0);
      UnitOfPower(q, unit - 1, left - 1);
    }
  }

  /** A unit in either case, and the bytes it stands for. */
  predicate IsUnit(u: string, bytes: nat) {
    || (|u| == 2 && u[0] in {'k', 'K'} && u[1] in {'b', 'B'} && bytes == 1024)
    || (|u| == 2 && u[0] in {'m', 'M'} && u[1] in {'b', 'B'} && bytes == 1048576)
    || (|u| == 2 && u[0] in {'g', 'G'} && u[1] in {'b', 'B'} && bytes == 1073741824)
    || (u in {"b", "B", ""} && bytes == 1)
  }

  lemma LowerUnit(u: string, bytes: nat) returns (k: nat)
    requires IsUnit(u, bytes)
    ensures k < 5 && ToLower(u) == Unit(k) && Multiplier(k) == bytes
  {
    k := if u == "" then 4 else if |u| == 1 then 3
         else if u[0] in {'k', 'K'} then 0 else if u[0] in {'m', 'M'} then 1 else 2;
    assert ToLower(u) == Unit(k);
  }

  /** A number followed by a unit in either case is that many bytes, modulo 2^64. */
  lemma {:induction false} BytesOfUnits(v: int, u: string, bytes: nat)
    requires IsInt64(v) && IsUnit(u, bytes)
    ensures BytesOf(Print(v) + u) == S64(v * bytes)
  {
    hide Print, S64, Atol, IsUnit, Multiplier;
    var k := LowerUnit(u, bytes);
    var d, s := Print(v), ToLower(Print(v) + u);
    PrintStarts(v);
    assert s == d + Unit(k) by {
      assert forall i :: 0 <= i < |d| ==> Lower(d[i]) == d[i];
    }
    FirstUnit(d, k);
    assert s[..|d|] == d;
    AtolOfPrint(v, "");
    assert d + "" == d;
  }

  lemma {:induction false} EndsWithMeans(s: string, u: string)
    ensures |u| == 1 ==> (EndsWith(s, u) <==> |s| >= 1 && s[|s| - 1] == u[0])
    ensures |u| == 2 ==> (EndsWith(s, u) <==> |s| >= 2 && s[|s| - 2] == u[0] && s[|s| - 1] == u[1])
  {
    if |u| <= |s| {
      var t := s[|s| - |u|..];
      assert |t| == |u| && forall i :: 0 <= i < |u| ==> t[i] == s[|s| - |u| + i];
    }
  }

  lemma {:induction false} NoEarlierUnit(d: string, k: nat, j: nat)
    requires j < k < 5 && d != "" && d[|d| - 1] !in {'k', 'm', 'g', 'b'}
    ensures !EndsWith(d + Unit(k), Unit(j))
  {
    hide EndsWith;
    var s, n := d + Unit(k), |d|;
    EndsWithMeans(s, Unit(j));
    if k == 4 {
      assert s[|s| - 1] == d[n - 1];
    } else if k == 3 {
      assert s[|s| - 2] == d[n - 1];
    } else {
      assert s[|s| - 2] == Unit(k)[0];
    }
  }

  /** After a digit the first unit of the table that matches is the whole unit. */
  lemma {:induction false} FirstUnit(d: string, k: nat)
    requires k < 5 && d != "" && d[|d| - 1] !in {'k', 'm', 'g', 'b'}
    ensures UnitIndex(d + Unit(k), 0) == k
  {
    var s, n := d + Unit(k), |d|;
    assert s[n..] == Unit(k) && EndsWith(s, Unit(k));
    forall j | 0 <= j < k
      ensures !EndsWith(s, Unit(j))
    {
      NoEarlierUnit(d, k, j);
    }
    hide EndsWith, Unit, UnitIndex;
  }
}
