/** Decimal text of integers as the standard streams print it and atol / atoll read it. */
module Decimal {
  import opened Basics

  predicate IsDigit(c: char) {
    '0' <= c <= '9'
  }

  function DigitChar(d: nat): (c: char)
    requires d < 10
    ensures IsDigit(c) && DigitValue(c) == d
  {
    (d + '0' as int) as char
  }

  function DigitValue(c: char): nat
    requires IsDigit(c)
  {
    c as int - '0' as int
  }

  predicate AllDigits(s: string) {
    forall i :: 0 <= i < |s| ==> IsDigit(s[i])
  }

  function Digits(n: nat): (s: string)
    ensures |s| > 0 && AllDigits(s)
  {
    if n < 10 then [DigitChar(n)] else Digits(n / 10) + [DigitChar(n % 10)]
  }

  /** std::to_string / operator<< of a signed integer. */
  function Print(v: int): string {
    if v < 0 then "-" + Digits(-v) else Digits(v)
  }

  function Value(s: string): nat
    requires AllDigits(s)
  {
    if s == "" then 0 else Value(s[..|s| - 1]) * 10 + DigitValue(s[|s| - 1])
  }

  lemma {:induction false} ValueOfDigits(n: nat)
    ensures Value(Digits(n)) == n
  {
    if n >= 10 {
      ValueOfDigits(n / 10);
      var s := Digits(n);
      assert s[..|s| - 1] == Digits(n / 10);
    } else {
      assert Digits(n)[..0] == "";
    }
  }

  /** Length of the run of digits a text starts with. */
  function DigitRun(s: string): (n: nat)
    ensures n <= |s| && AllDigits(s[..n]) && (n < |s| ==> !IsDigit(s[n]))
  {
    if s == "" || !IsDigit(s[0]) then 0 else
      var n := 1 + DigitRun(s[1..]);
      assert forall i :: 1 <= i < n ==> s[..n][i] == s[1..][..n - 1][i - 1];
      n
  }

  lemma {:induction false} DigitRunIs(s: string, n: nat)
    requires n <= |s| && AllDigits(s[..n]) && (n < |s| ==> !IsDigit(s[n]))
    ensures DigitRun(s) == n
  {
  }

  function SpaceRun(s: string): (n: nat)
    ensures n <= |s| && (n < |s| ==> !IsSpace(s[n])) && forall i :: 0 <= i < n ==> IsSpace(s[i])
  {
    if s == "" || !IsSpace(s[0]) then 0 else 1 + SpaceRun(s[1..])
  }

  /** The number a text starts with: white space is skipped, then an optional sign, then digits up to
      the first other character. */
  function NumberIn(text: string): int {
    var s := text[SpaceRun(text)..];
    if s != "" && s[0] == '-' then 0 - Value(s[1..][..DigitRun(s[1..])])
    else if s != "" && s[0] == '+' then Value(s[1..][..DigitRun(s[1..])])
    else Value(s[..DigitRun(s)])
  }

  /** atol / atoll with a 64-bit long. Beyond its range the C standard leaves them undefined; the model
      saturates, as strtol and strtoll do. */
  function Atol(text: string): (v: int)
    ensures IsInt64(v)
  {
    var v := NumberIn(text);
    if v < -TWO_63 then -TWO_63 else if v >= TWO_63 then TWO_63 - 1 else v
  }

  lemma PrintStarts(v: int)
    ensures |Print(v)| > 0 && !IsSpace(Print(v)[0])
    ensures forall i :: 0 <= i < |Print(v)| ==> IsDigit(Print(v)[i]) || Print(v)[i] == '-'
  {
  }

  /** Reading back a printed number, whatever non-digit follows it. */
  lemma {:induction false} NumberInPrint(v: int, rest: string)
    requires rest == "" || !IsDigit(rest[0])
    ensures NumberIn(Print(v) + rest) == v
  {
    var text := Print(v) + rest;
    PrintStarts(v);
    assert SpaceRun(text) == 0 && text[0..] == text;
    var ds := Digits(if v < 0 then -v else v);
    ValueOfDigits(if v < 0 then -v else v);
    var tail := if v < 0 then text[1..] else text;
    assert tail == ds + rest;
    assert tail[..|ds|] == ds;
    DigitRunIs(tail, |ds|);
  }

  /** Exact condition: a printed number is read back if and only if it is an int64. */
  lemma {:induction false} AtolOfPrint(v: int, rest: string)
    requires rest == "" || !IsDigit(rest[0])
    ensures Atol(Print(v) + rest) == v <==> IsInt64(v)
  {
    hide NumberIn, Print;
    NumberInPrint(v, rest);
  }

  // ----- any text

  /** White space before a number. */
  predicate Blank(s: string) {
    forall i :: 0 <= i < |s| ==> s[i] in [' ', '\t', '\n', 11 as char, 12 as char, '\r']
  }

  predicate Zeros(s: string) {
    forall i :: 0 <= i < |s| ==> s[i] == '0'
  }

  lemma {:induction false} ZerosAreNothing(zeros: string)
    requires Zeros(zeros)
    ensures AllDigits(zeros) && Value(zeros) == 0
  {
    if zeros != "" {
      ZerosAreNothing(zeros[..|zeros| - 1]);
    }
  }

  lemma {:induction false} ValueAfterZeros(zeros: string, n: nat)
    requires Zeros(zeros)
    ensures AllDigits(zeros + Digits(n)) && Value(zeros + Digits(n)) == n
  {
    var s := zeros + Digits(n);
    ZerosAreNothing(zeros);
    if n < 10 {
      assert s[..|s| - 1] == zeros;
    } else {
      ValueAfterZeros(zeros, n / 10);
      assert s[..|s| - 1] == zeros + Digits(n / 10);
    }
  }

  /** White space, an optional sign and then digits are read as the number the digits have. */
  lemma {:induction false} SignedNumber(blank: string, sign: string, ds: string, rest: string)
    requires Blank(blank) && sign in {"", "+", "-"} && AllDigits(ds) && (rest == "" || !('0' <= rest[0] <= '9'))
    requires sign == "" && ds == "" ==>
               rest == "" || rest[0] !in [' ', '\t', '\n', 11 as char, 12 as char, '\r', '+', '-']
    ensures NumberIn(blank + (sign + (ds + rest))) == if sign == "-" then 0 - Value(ds) else Value(ds)
  {
    hide Value, SpaceRun, DigitRun;
    var tail := sign + (ds + rest);
    SkipBlank(blank, tail);
    assert (blank + tail)[|blank|..] == tail;
    ReadDigits(ds, rest);
    assert tail[|sign|..] == ds + rest;
    if sign == "" {
      assert tail == ds + rest;
    }
  }

  /** Any white space, an optional sign, any leading zeros and then a printed number: that number. */
  lemma {:induction false} NumberInText(blank: string, sign: string, zeros: string, n: nat, rest: string)
    requires Blank(blank) && sign in {"", "+", "-"} && Zeros(zeros) && (rest == "" || !('0' <= rest[0] <= '9'))
    ensures NumberIn(blank + sign + zeros + Digits(n) + rest) == if sign == "-" then 0 - n else n
  {
    hide Digits, Value, NumberIn, Blank, Zeros;
    ValueAfterZeros(zeros, n);
    SignedNumber(blank, sign, zeros + Digits(n), rest);
    assert blank + sign + zeros + Digits(n) + rest == blank + (sign + ((zeros + Digits(n)) + rest));
  }

  lemma {:induction false} SkipBlank(blank: string, tail: string)
    requires Blank(blank) && (tail == "" || tail[0] !in [' ', '\t', '\n', 11 as char, 12 as char, '\r'])
    ensures SpaceRun(blank + tail) == |blank|
  {
    if blank == "" {
      assert blank + tail == tail;
    } else {
      assert (blank + tail)[1..] == blank[1..] + tail;
      SkipBlank(blank[1..], tail);
    }
  }

  lemma {:induction false} ReadDigits(ds: string, rest: string)
    requires AllDigits(ds) && (rest == "" || !('0' <= rest[0] <= '9'))
    ensures DigitRun(ds + rest) == |ds| && (ds + rest)[..|ds|] == ds
  {
    assert (ds + rest)[..|ds|] == ds;
    DigitRunIs(ds + rest, |ds|);
  }

  /** Without a digit there is the number zero. */
  lemma {:induction false} NoNumberInText(blank: string, sign: string, rest: string)
    requires Blank(blank) && sign in {"", "+", "-"} && (rest == "" || !('0' <= rest[0] <= '9'))
    requires sign == "" ==> rest == "" || rest[0] !in [' ', '\t', '\n', 11 as char, 12 as char, '\r', '+', '-']
    ensures NumberIn(blank + sign + rest) == 0
  {
    hide NumberIn, Blank;
    SignedNumber(blank, sign, "", rest);
    assert blank + sign + rest == blank + (sign + ("" + rest));
  }

  /** Printed numbers beyond the range read as its nearest end. */
  lemma {:induction false} AtolSaturates(v: int, rest: string)
    requires rest == "" || !IsDigit(rest[0])
    ensures v > 0x7FFF_FFFF_FFFF_FFFF ==> Atol(Print(v) + rest) == 0x7FFF_FFFF_FFFF_FFFF
    ensures v < -0x8000_0000_0000_0000 ==> Atol(Print(v) + rest) == -0x8000_0000_0000_0000
  {
    hide NumberIn, Print;
    NumberInPrint(v, rest);
  }

  /** The last digit is the remainder by ten. */
  lemma PrintedDigits(v: int)
    ensures v < 0 ==> Print(v) == "-" + Print(-v)
    ensures 0 <= v < 10 ==> Print(v) == ["0123456789"[v]]
    ensures v >= 10 ==> Print(v) == Print(v / 10) + ["0123456789"[v % 10]]
  {
  }
}
