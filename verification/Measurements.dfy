/** Measurements travelling from a worker to the parent as text, and their averages. */
module Measurements {
  import opened Basics
  import opened Decimal
  import opened LinearIndex

  datatype Error = TypeOrUnitSet | DescriptionSet | TooManyValues | WrongCount | DivisionByZero

  /** What a worker prints for a sequence of durations in nanoseconds. */
  function Report(times: seq<int>): string {
    if times == [] then "" else Report(times[..|times| - 1]) + Print(times[|times| - 1]) + " "
  }

  class WorkloadStatistics {
    var samplesCount: nat
    const maxSamplesCount: nat
    var result: string
    ghost var pushed: seq<int>

    ghost predicate Valid()
      reads this
    {
      samplesCount == |pushed| <= maxSamplesCount && result == Report(pushed)
    }

    constructor (maxSamples: nat)
      ensures Valid() && pushed == [] && maxSamplesCount == maxSamples
    {
      samplesCount, maxSamplesCount, result, pushed := 0, maxSamples, "", [];
    }

    method PushValue(nanoseconds: int, plain: bool, description: string) returns (r: Result<(), Error>)
      requires Valid()
      modifies this
      ensures Valid()
      ensures r == if !plain then Fatal(TypeOrUnitSet)
                   else if description != "" then Fatal(DescriptionSet)
                   else if |old(pushed)| == maxSamplesCount then Fatal(TooManyValues)
                   else Ok(())
      ensures pushed == if r.Ok? then old(pushed) + [nanoseconds] else old(pushed)
      ensures result == if r.Ok? then old(result) + Print(nanoseconds) + " " else old(result)
    {
      if !plain {
        return Fatal(TypeOrUnitSet);
      }
      if description != "" {
        return Fatal(DescriptionSet);
      }
      if samplesCount == maxSamplesCount {
        return Fatal(TooManyValues);
      }
      samplesCount := samplesCount + 1;
      result := result + Print(nanoseconds) + " ";
      ghost var more := pushed + [nanoseconds];
      assert more[..|more| - 1] == pushed;
      pushed := more;
      return Ok(());
    }

    method IsFull() returns (full: bool)
      requires Valid()
      ensures full <==> |pushed| == maxSamplesCount
    {
      full := samplesCount == maxSamplesCount;
    }
  }

  // ----- splitting

  function WordLength(s: string): (n: nat)
    ensures n <= |s| && (n < |s| ==> IsSpace(s[n])) && forall i :: 0 <= i < n ==> !IsSpace(s[i])
  {
    if s == "" || IsSpace(s[0]) then 0 else 1 + WordLength(s[1..])
  }

  lemma WordLengthIs(s: string, n: nat)
    requires n <= |s| && (n < |s| ==> IsSpace(s[n])) && forall i :: 0 <= i < n ==> !IsSpace(s[i])
    ensures WordLength(s) == n
  {
  }

  function SkipSpaces(s: string): (t: string)
    ensures |t| <= |s| && (t != "" ==> !IsSpace(t[0]))
  {
    s[SpaceRun(s)..]
  }

  lemma SkipSpacesFacts(s: string)
    ensures s != "" && !IsSpace(s[0]) ==> SkipSpaces(s) == s
    ensures SkipSpaces(" " + s) == SkipSpaces(s)
  {
    var b := " " + s;
    assert b[1..] == s;
    assert SpaceRun(b) == 1 + SpaceRun(s);
  }

  /** The tokens operator>> extracts one after the other. */
  function Words(s: string): seq<string>
    decreases |s|
  {
    var t := SkipSpaces(s);
    if t == "" then [] else [t[..WordLength(t)]] + Words(t[WordLength(t)..])
  }

  method SplitString(s: string) returns (result: seq<string>)
    ensures result == Words(s)
  {
    hide SkipSpaces, WordLength;
    result := [];
    var rest := s;
    var t := SkipSpaces(rest);
    while t != ""
      invariant t == SkipSpaces(rest) && result + Words(rest) == Words(s)
      decreases |rest|
    {
      var n := WordLength(t);
      assert n > 0 by { FirstWordNonEmpty(t); }
      assert result + ([t[..n]] + Words(t[n..])) == (result + [t[..n]]) + Words(t[n..]);
      result, rest := result + [t[..n]], t[n..];
      t := SkipSpaces(rest);
    }
  }

  lemma FirstWordNonEmpty(t: string)
    requires t != "" && !IsSpace(t[0])
    ensures WordLength(t) > 0
  {
  }

  /** A blank-terminated word in front of a text is its first token. */
  lemma {:induction false} WordsCons(w: string, rest: string)
    requires |w| > 0 && forall i :: 0 <= i < |w| ==> !IsSpace(w[i])
    ensures Words(w + " " + rest) == [w] + Words(rest)
  {
    hide SkipSpaces, WordLength;
    var s := w + " " + rest;
    SkipSpacesFacts(s);
    WordLengthIs(s, |w|);
    assert s[..|w|] == w && s[|w|..] == " " + rest;
    SkipSpacesFacts(rest);
  }

  /** Words are separated by any of the six white-space characters, any number of them. */
  lemma {:induction false} WordsSeparated(before: string, w: string, after: string, rest: string)
    requires Blank(before) && Blank(after) && |w| > 0 && (after != "" || rest == "")
    requires forall i :: 0 <= i < |w| ==> w[i] !in [' ', '\t', '\n', 11 as char, 12 as char, '\r']
    ensures Words(before + w + after + rest) == [w] + Words(rest)
    ensures Words(before) == []
  {
    hide WordLength;
    var s, tail := before + w + after + rest, w + after + rest;
    assert s == before + tail;
    SkipBlank(before, tail);
    assert s[|before|..] == tail;
    assert WordLength(tail) == |w| by {
      WordLengthIs(tail, |w|);
    }
    assert tail[..|w|] == w && tail[|w|..] == after + rest;
    BlankBefore(after, rest);
    SkipBlank(before, "");
    assert before + "" == before;
  }

  /** White space in front of a text does not change its words. */
  lemma {:induction false} BlankBefore(blank: string, rest: string)
    requires Blank(blank)
    ensures Words(blank + rest) == Words(rest)
  {
    if blank == "" {
      assert blank + rest == rest;
    } else {
      hide WordLength;
      BlankBefore(blank[1..], rest);
      assert (blank + rest)[1..] == blank[1..] + rest;
      assert SkipSpaces(blank + rest) == SkipSpaces(blank[1..] + rest);
    }
  }

  /** Report with the first value split off. */
  lemma {:induction false} ReportCons(times: seq<int>)
    requires times != []
    ensures Report(times) == Print(times[0]) + " " + Report(times[1..])
  {
    hide Print;
    var n := |times| - 1;
    if n == 0 {
      assert times[..0] == [] && times[1..] == [];
      assert Report(times) == "" + Print(times[0]) + " ";
    } else {
      ReportCons(times[..n]);
      var tail := times[1..];
      assert times[..n][0] == times[0] && times[..n][1..] == tail[..n - 1] && tail[n - 1] == times[n];
      var a, b, z := Print(times[0]) + " ", Report(tail[..n - 1]), Print(times[n]);
      assert Report(times) == a + b + z + " ";
      assert a + b + z + " " == a + (b + z + " ");
    }
  }

  lemma NoWords()
    ensures Words("") == []
  {
  }

  function PrintAll(times: seq<int>): seq<string> {
    seq(|times|, i requires 0 <= i < |times| => Print(times[i]))
  }

  lemma PrintHasNoSpace(v: int)
    ensures |Print(v)| > 0 && forall i :: 0 <= i < |Print(v)| ==> !IsSpace(Print(v)[i])
  {
  }

  lemma {:induction false} WordsOfReport(times: seq<int>)
    ensures Words(Report(times)) == PrintAll(times)
  {
    hide Print, Words;
    if times == [] {
      NoWords();
    } else {
      hide Report;
      ReportCons(times);
      WordsOfReport(times[1..]);
      PrintHasNoSpace(times[0]);
      WordsCons(Print(times[0]), Report(times[1..]));
      assert PrintAll(times) == [Print(times[0])] + PrintAll(times[1..]);
    }
  }

  // ----- the parent's side

  function Parsed(words: seq<string>): seq<nat> {
    seq(|words|, i requires 0 <= i < |words| => U64(Atol(words[i])))
  }

  function Measured(expectedCount: nat, data: string): Result<seq<nat>, Error> {
    if |Words(data)| != expectedCount then Fatal(WrongCount) else Ok(Parsed(Words(data)))
  }

  method GetMeasurements(expectedCount: nat, data: string) returns (r: Result<seq<nat>, Error>)
    ensures r == Measured(expectedCount, data)
  {
    hide Words, Atol, U64;
    var words := SplitString(data);
    if |words| != expectedCount {
      return Fatal(WrongCount);
    }
    var measurements: seq<nat> := [];
    var i := 0;
    while i < |words|
      invariant 0 <= i <= |words| && measurements == Parsed(words)[..i]
    {
      measurements := measurements + [U64(Atol(words[i]))];
      i := i + 1;
    }
    assert Parsed(words)[..|words|] == Parsed(words);
    return Ok(measurements);
  }

  function Unsigned(times: seq<int>): seq<nat> {
    seq(|times|, i requires 0 <= i < |times| => U64(times[i]))
  }

  /** Round trip: the parent gets back exactly the pushed durations (negative ones modulo 2^64), or
      rejects the report when the count differs. Durations are int64 nanosecond counts. */
  lemma {:induction false} ReportRoundTrip(times: seq<int>, expectedCount: nat)
    requires forall i :: 0 <= i < |times| ==> IsInt64(times[i])
    ensures Measured(expectedCount, Report(times)) == if |times| == expectedCount then Ok(Unsigned(times))
            else Fatal(WrongCount)
    ensures (forall i :: 0 <= i < |times| ==> 0 <= times[i]) ==> Unsigned(times) == times
  {
    hide Words, Report, Print, Atol, U64;
    WordsOfReport(times);
    forall i | 0 <= i < |times|
      ensures Atol(PrintAll(times)[i]) == times[i] && (0 <= times[i] ==> U64(times[i]) == times[i])
    {
      AtolOfPrint(times[i], "");
      assert Print(times[i]) + "" == Print(times[i]);
      if 0 <= times[i] {
        SmallU64(times[i]);
      }
    }
    assert Parsed(PrintAll(times)) == Unsigned(times);
  }

  // ----- averages

  /** Exact sum of measurement i over the first p processes. */
  function ColumnSum(ms: seq<seq<nat>>, i: nat, p: nat): nat
    requires p <= |ms| && forall q :: 0 <= q < |ms| ==> i < |ms[q]|
  {
    if p == 0 then 0 else ColumnSum(ms, i, p - 1) + ms[p - 1][i]
  }

  datatype Push = Individual(process: nat, value: nat) | Average(value: nat)

  function IndividualsOf(p: nat, m: seq<nat>): seq<Push> {
    seq(|m|, i requires 0 <= i < |m| => Individual(p, m[i]))
  }

  function Individuals(ms: seq<seq<nat>>, p: nat): seq<Push>
    requires p <= |ms|
  {
    if p == 0 then [] else Individuals(ms, p - 1) + IndividualsOf(p - 1, ms[p - 1])
  }

  /** The measurements of every process; one report with a wrong count is fatal. */
  function Collected(expectedCount: nat, data: seq<string>): (r: Result<seq<seq<nat>>, Error>)
    ensures r.Ok? ==> |r.value| == |data| && forall p :: 0 <= p < |data| ==> |r.value[p]| == expectedCount
  {
    if forall p :: 0 <= p < |data| ==> Measured(expectedCount, data[p]).Ok?
    then Ok(seq(|data|, p requires 0 <= p < |data| => Measured(expectedCount, data[p]).value))
    else Fatal(WrongCount)
  }

  function Averages(expectedCount: nat, ms: seq<seq<nat>>): seq<Push>
    requires |ms| > 0 && forall p :: 0 <= p < |ms| ==> |ms[p]| == expectedCount
  {
    seq(expectedCount, i requires 0 <= i < expectedCount => Average(U64(ColumnSum(ms, i, |ms|)) / |ms|))
  }

  /** What is pushed to the statistics: all measurements per process and in order if asked for, then
      measurement by measurement the averages of the uint64 sums. */
  function Pushed(expectedCount: nat, data: seq<string>, pushIndividual: bool, pushAveraged: bool)
    : Result<seq<Push>, Error>
  {
    match Collected(expectedCount, data)
    case Fatal(e) => Fatal(e)
    case Ok(ms) =>
      if pushAveraged && expectedCount > 0 && data == [] then Fatal(DivisionByZero)
      else Ok((if pushIndividual then Individuals(ms, |ms|) else [])
              + (if pushAveraged && data != [] then Averages(expectedCount, ms) else []))
  }

  /** The accumulator vector after some processes. */
  ghost function Sums(expectedCount: nat, ms: seq<seq<nat>>): seq<nat>
    requires forall p :: 0 <= p < |ms| ==> |ms[p]| == expectedCount
  {
    seq(expectedCount, i requires 0 <= i < expectedCount => U64(ColumnSum(ms, i, |ms|)))
  }

  lemma {:induction false} SumsStep(expectedCount: nat, ms: seq<seq<nat>>, m: seq<nat>, sums: seq<nat>)
    requires |m| == |sums| == expectedCount && forall p :: 0 <= p < |ms| ==> |ms[p]| == expectedCount
    requires forall i :: 0 <= i < |m| ==> sums[i] == U64(Sums(expectedCount, ms)[i] + m[i])
    ensures sums == Sums(expectedCount, ms + [m])
  {
    forall i | 0 <= i < expectedCount
      ensures sums[i] == Sums(expectedCount, ms + [m])[i]
    {
      ColumnSumPrefix(ms, m, i, |ms|);
      U64Facts(ColumnSum(ms, i, |ms|), m[i]);
    }
  }

  method PushMeasurementsToStatistics(expectedCount: nat, data: seq<string>, pushIndividual: bool, pushAveraged: bool)
    returns (r: Result<seq<Push>, Error>)
    ensures r == Pushed(expectedCount, data, pushIndividual, pushAveraged)
  {
    hide Measured, U64, ColumnSum;
    var averaged := seq(expectedCount, i => 0);
    var pushes: seq<Push> := [];
    ghost var ms: seq<seq<nat>> := [];
    NoSums(expectedCount);
    var p := 0;
    while p < |data|
      invariant 0 <= p <= |data| && |ms| == p && |averaged| == expectedCount
      invariant forall q :: 0 <= q < p ==> Measured(expectedCount, data[q]) == Ok(ms[q]) && |ms[q]| == expectedCount
      invariant pushes == if pushIndividual then Individuals(ms, p) else []
      invariant pushAveraged ==> averaged == Sums(expectedCount, ms)
    {
      hide Sums, Individuals, Collected, Pushed, Averages;
      var m := GetMeasurements(expectedCount, data[p]);
      MeasuredFacts(expectedCount, data[p]);
      if m.Fatal? {
        return Fatal(WrongCount);
      }
      pushes, averaged := AddProcess(p, m.value, pushes, averaged, pushIndividual, pushAveraged);
      if pushAveraged {
        SumsStep(expectedCount, ms, m.value, averaged);
      }
      IndividualsSnoc(ms, m.value);
      ms, p := ms + [m.value], p + 1;
    }
    CollectedIs(expectedCount, data, ms);
    hide Collected, Individuals;
    if pushAveraged && expectedCount > 0 && |data| == 0 {
      return Fatal(DivisionByZero);
    }
    if pushAveraged && |data| > 0 {
      pushes := PushAverages(averaged, |data|, pushes);
      assert seq(|averaged|, i requires 0 <= i < |averaged| =>
                 Average(averaged[i] / |data|)) == Averages(expectedCount, ms);
    } else {
      assert pushes + [] == pushes;
    }
    return Ok(pushes);
  }

  lemma NoSums(expectedCount: nat)
    ensures seq(expectedCount, i => 0) == Sums(expectedCount, [])
  {
  }

  lemma CollectedIs(expectedCount: nat, data: seq<string>, ms: seq<seq<nat>>)
    requires |ms| == |data| && forall q :: 0 <= q < |data| ==> Measured(expectedCount, data[q]) == Ok(ms[q])
    ensures Collected(expectedCount, data) == Ok(ms)
  {
    hide Measured;
    assert ms == seq(|data|, q requires 0 <= q < |data| => Measured(expectedCount, data[q]).value);
  }

  lemma MeasuredFacts(expectedCount: nat, data: string)
    ensures Measured(expectedCount, data).Fatal? ==> Measured(expectedCount, data) == Fatal(WrongCount)
    ensures Measured(expectedCount, data).Ok? ==> |Measured(expectedCount, data).value| == expectedCount
  {
  }

  lemma U64Facts(a: nat, b: nat)
    ensures U64(U64(a) + b) == U64(a + b) && U64(0) == 0
  {
  }

  method PushAverages(averaged: seq<nat>, processes: nat, pushes0: seq<Push>) returns (pushes: seq<Push>)
    requires processes > 0
    ensures pushes == pushes0 + seq(|averaged|, i requires 0 <= i < |averaged| => Average(averaged[i] / processes))
  {
    ghost var all := seq(|averaged|, i requires 0 <= i < |averaged| => Average(averaged[i] / processes));
    pushes := pushes0;
    var i := 0;
    while i < |averaged|
      invariant 0 <= i <= |averaged| && pushes == pushes0 + all[..i]
    {
      pushes := pushes + [Average(averaged[i] / processes)];
      i := i + 1;
    }
  }

  lemma {:induction false} ColumnSumPrefix(ms: seq<seq<nat>>, m: seq<nat>, i: nat, p: nat)
    requires p <= |ms| && i < |m| && forall q :: 0 <= q < |ms| ==> i < |ms[q]|
    ensures forall q :: 0 <= q < |ms + [m]| ==> i < |(ms + [m])[q]|
    ensures ColumnSum(ms + [m], i, p) == ColumnSum(ms, i, p)
  {
    if p > 0 {
      ColumnSumPrefix(ms, m, i, p - 1);
    }
  }

  lemma {:induction false} IndividualsPrefix(ms: seq<seq<nat>>, m: seq<nat>, p: nat)
    requires p <= |ms|
    ensures Individuals(ms + [m], p) == Individuals(ms, p)
  {
    if p > 0 {
      IndividualsPrefix(ms, m, p - 1);
    }
  }

  lemma {:induction false} IndividualsSnoc(ms: seq<seq<nat>>, m: seq<nat>)
    ensures Individuals(ms + [m], |ms| + 1) == Individuals(ms, |ms|) + IndividualsOf(|ms|, m)
  {
    IndividualsPrefix(ms, m, |ms|);
  }

  /** The inner loop over one process's measurements. */
  method AddProcess(p: nat, m: seq<nat>, pushes0: seq<Push>, averaged0: seq<nat>, pushIndividual: bool,
                    pushAveraged: bool)
    returns (pushes: seq<Push>, averaged: seq<nat>)
    requires |averaged0| == |m|
    ensures pushes == if pushIndividual then pushes0 + IndividualsOf(p, m) else pushes0
    ensures |averaged| == |m|
    ensures pushAveraged ==> forall i :: 0 <= i < |m| ==> averaged[i] == U64(averaged0[i] + m[i])
  {
    pushes, averaged := pushes0, averaged0;
    var i := 0;
    while i < |m|
      invariant 0 <= i <= |m| && |averaged| == |m|
      invariant pushes == if pushIndividual then pushes0 + IndividualsOf(p, m)[..i] else pushes0
      invariant pushAveraged ==> forall j :: 0 <= j < |m| ==>
                averaged[j] == if j < i then U64(averaged0[j] + m[j]) else averaged0[j]
    {
      if pushIndividual {
        pushes := pushes + [Individual(p, m[i])];
      }
      if pushAveraged {
        averaged := averaged[i := U64(averaged[i] + m[i])];
      }
      i := i + 1;
    }
  }

  ghost predicate Reports(expectedCount: nat, times: seq<seq<nat>>, data: seq<string>) {
    && |times| == |data|
    && forall p :: 0 <= p < |times| ==> |times[p]| == expectedCount && data[p] == Report(times[p])
  }

  /** The floor of the mean of measurement i. */
  ghost function Mean(times: seq<seq<nat>>, i: nat): nat
    requires |times| > 0 && forall p :: 0 <= p < |times| ==> i < |times[p]|
  {
    ColumnSum(times, i, |times|) / |times|
  }

  /** Averaging over P >= 1 workers that each report expectedCount durations: the i-th average is
      the floor of the exact mean of the workers' i-th durations, absent uint64 overflow. */
  lemma {:induction false} AveragesOfReports(expectedCount: nat, times: seq<seq<nat>>, data: seq<string>)
    requires |times| > 0 && Reports(expectedCount, times, data)
    requires forall p, i :: 0 <= p < |times| && 0 <= i < |times[p]| ==> IsInt64(times[p][i])
    requires forall i :: 0 <= i < expectedCount ==> ColumnSum(times, i, |times|) < TWO_64
    ensures Pushed(expectedCount, data, false, true)
         == Ok(seq(expectedCount, i requires 0 <= i < expectedCount => Average(Mean(times, i))))
  {
    hide Measured, Report, U64, ColumnSum;
    forall p | 0 <= p < |data|
      ensures Measured(expectedCount, data[p]) == Ok(times[p])
    {
      ReportRoundTrip(times[p], expectedCount);
    }
    CollectedIs(expectedCount, data, times);
    hide Collected;
    var exact := seq(expectedCount, i requires 0 <= i < expectedCount => Average(Mean(times, i)));
    forall i | 0 <= i < expectedCount
      ensures Averages(expectedCount, times)[i] == exact[i]
    {
      SmallU64(ColumnSum(times, i, |times|));
    }
    assert Averages(expectedCount, times) == exact;
    assert [] + exact == exact;
  }

  // ----- the pushed values, one by one

  /** The exact sum of a column, taken from its first row on. */
  lemma {:induction false} ColumnSumFromTheTop(ms: seq<seq<nat>>, i: nat, p: nat)
    requires 0 < p <= |ms| && forall q :: 0 <= q < |ms| ==> i < |ms[q]|
    ensures forall q :: 0 <= q < |ms[1..]| ==> i < |ms[1..][q]|
    ensures ColumnSum(ms, i, p) == ms[0][i] + ColumnSum(ms[1..], i, p - 1) && ColumnSum(ms, i, 0) == 0
  {
    if p > 1 {
      ColumnSumFromTheTop(ms, i, p - 1);
    }
  }

  lemma {:induction false} IndividualAt(ms: seq<seq<nat>>, n: nat, p: nat, q: nat, i: nat)
    requires q < p <= |ms| && i < n && forall k :: 0 <= k < |ms| ==> |ms[k]| == n
    ensures |Individuals(ms, p)| == p * n && q * n + i < p * n
    ensures Individuals(ms, p)[q * n + i] == Individual(q, ms[q][i])
    decreases p
  {
    IndividualsLength(ms, n, p - 1);
    MulSucc(p - 1, n);
    MulSucc(q, n);
    if q < p - 1 {
      IndividualAt(ms, n, p - 1, q, i);
    }
  }

  lemma {:induction false} IndividualsLength(ms: seq<seq<nat>>, n: nat, p: nat)
    requires p <= |ms| && forall k :: 0 <= k < |ms| ==> |ms[k]| == n
    ensures |Individuals(ms, p)| == p * n
  {
    if p > 0 {
      IndividualsLength(ms, n, p - 1);
      MulSucc(p - 1, n);
    } else {
      assert 0 * n == 0;
    }
  }

  /** Reports of int64 durations whose sums are uint64 numbers. */
  ghost predicate Summable(n: nat, times: seq<seq<nat>>) {
    && |times| > 0
    && (forall q :: 0 <= q < |times| ==> |times[q]| == n && forall k :: 0 <= k < n ==> IsInt64(times[q][k]))
    && forall k :: 0 <= k < n ==> ColumnSum(times, k, |times|) < TWO_64
  }

  lemma {:induction false} ReportsAreCollected(n: nat, times: seq<seq<nat>>, data: seq<string>)
    requires Summable(n, times) && Reports(n, times, data)
    ensures Collected(n, data) == Ok(times)
  {
    hide Measured, Report, ColumnSum, Collected;
    forall q | 0 <= q < |data|
      ensures Measured(n, data[q]) == Ok(times[q])
    {
      ReportRoundTrip(times[q], n);
    }
    CollectedIs(n, data, times);
  }

  /** Push k, if there are that many. */
  function PushAt(pushes: seq<Push>, k: int): Option<Push> {
    if 0 <= k < |pushes| then Some(pushes[k]) else None
  }

  /** What P >= 1 workers report is pushed in order: with individual values, the i-th measurement of
      process p as push p * n + i; then, with averages, the floor of the exact mean of the i-th
      measurements as the i-th further push; nothing else. */
  lemma {:induction false} PushesByIndex(n: nat, times: seq<seq<nat>>, data: seq<string>, pushIndividual: bool,
                                         pushAveraged: bool, p: nat, i: nat)
    requires Summable(n, times) && Reports(n, times, data) && p < |times| && i < n
    ensures Pushed(n, data, pushIndividual, pushAveraged).Ok?
    ensures var pushes := Pushed(n, data, pushIndividual, pushAveraged).value;
            var first := if pushIndividual then |times| * n else 0;
            && |pushes| == first + (if pushAveraged then n else 0)
            && (pushIndividual ==> PushAt(pushes, p * n + i) == Some(Individual(p, times[p][i])))
            && (pushAveraged ==>
                  var push, sum := PushAt(pushes, first + i), ColumnSum(times, i, |times|);
                  && push.Some? && push.value.Average?
                  && push.value.value * |times| <= sum < push.value.value * |times| + |times|)
  {
    hide Measured, Report, U64, ColumnSum, Individuals, Collected, Reports;
    ReportsAreCollected(n, times, data);
    IndividualsLength(times, n, |times|);
    IndividualAt(times, n, |times|, p, i);
    SmallU64(ColumnSum(times, i, |times|));
    FloorIs(ColumnSum(times, i, |times|), |times|);
    PlaceOf(p, n, i);
    if pushAveraged {
      var pushes := Pushed(n, data, pushIndividual, pushAveraged).value;
      var first := if pushIndividual then |times| * n else 0;
      assert PushAt(pushes, first + i) == Some(Average(ColumnSum(times, i, |times|) / |times|));
    }
  }

  lemma PlaceOf(p: nat, n: nat, i: nat)
    ensures 0 <= p * n + i
  {
  }

  lemma {:induction false} FloorIs(s: nat, d: nat)
    requires d > 0
    ensures s / d * d <= s < s / d * d + d
  {
  }

  /** Pushing fails exactly if some report does not have the expected number of words, or if averages
      are asked for without a process. */
  lemma {:induction false} PushingFailsIff(n: nat, data: seq<string>, pushIndividual: bool, pushAveraged: bool)
    ensures Pushed(n, data, pushIndividual, pushAveraged).Fatal? <==>
              (exists p :: 0 <= p < |data| && |Words(data[p])| != n) || (pushAveraged && n > 0 && |data| == 0)
  {
    hide Words, Parsed;
    if p :| 0 <= p < |data| && |Words(data[p])| != n {
      assert Measured(n, data[p]).Fatal?;
    }
  }

  /** Without processes nothing is pushed, and an average divides by zero. */
  lemma {:induction false} NoProcesses(n: nat, pushIndividual: bool, pushAveraged: bool)
    ensures Pushed(n, [], pushIndividual, pushAveraged)
         == if pushAveraged && n > 0 then Fatal(DivisionByZero) else Ok([])
  {
    var none: seq<seq<nat>> := [];
    CollectedIs(n, [], none);
    hide Collected;
    assert Individuals(none, 0) == [];
    var pushes: seq<Push> := [];
    assert pushes + pushes == pushes;
  }
}
