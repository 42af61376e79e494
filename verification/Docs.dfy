/** Characters, lines and tokens shared by the documentation printer and its parser. */
module DocsText {
  import opened Basics

  /** Position of the first c in s, or |s|. */
  function FindChar(s: string, c: char): (k: nat)
    ensures k <= |s| && (k < |s| ==> s[k] == c) && forall i :: 0 <= i < k ==> s[i] != c
  {
    if s == "" || s[0] == c then 0 else 1 + FindChar(s[1..], c)
  }

  lemma FindCharIs(s: string, c: char, k: nat)
    requires k <= |s| && (k < |s| ==> s[k] == c) && forall i :: 0 <= i < k ==> s[i] != c
    ensures FindChar(s, c) == k
  {
  }

  /** std::getline on a non-empty rest of a stream: the line, and what follows its line end. */
  function GetLine(text: string): (string, string)
    requires text != ""
  {
    var k := FindChar(text, '\n');
    (text[..k], if k < |text| then text[k + 1..] else "")
  }

  lemma GetLineOfLine(line: string, rest: string)
    requires '\n' !in line
    ensures GetLine(line + "\n" + rest) == (line, rest)
  {
    var text := line + "\n" + rest;
    FindCharIs(text, '\n', |line|);
    assert text[..|line|] == line && text[|line| + 1..] == rest;
  }

  function LeadingSpaces(s: string): (n: nat)
    ensures n <= |s| && (n < |s| ==> s[n] != ' ') && forall i :: 0 <= i < n ==> s[i] == ' '
  {
    if s == "" || s[0] != ' ' then 0 else 1 + LeadingSpaces(s[1..])
  }

  lemma LeadingSpacesIs(s: string, n: nat)
    requires n <= |s| && (n < |s| ==> s[n] != ' ') && forall i :: 0 <= i < n ==> s[i] == ' '
    ensures LeadingSpaces(s) == n
  {
  }

  /** A text without its trailing carriage returns. */
  function StripCR(s: string): (t: string)
    ensures t <= s && (t == "" || t[|t| - 1] != '\r') && forall i :: |t| <= i < |s| ==> s[i] == '\r'
  {
    if s == "" || s[|s| - 1] != '\r' then s else StripCR(s[..|s| - 1])
  }

  function SplitTokens(line: string): Result<(string, string), string> {
    var pos := FindChar(line, ';');
    if pos == |line| then Fatal("Expected ';' delimetr in line")
    else if ';' in line[pos + 1..] then Fatal("Too many ';' delimeters in line")
    else Ok((line[..pos], StripCR(line[pos + 1..])))
  }

  /** A text that survives as the first token of a line: no line end, no delimiter. */
  predicate CleanName(s: string) {
    '\n' !in s && ';' !in s
  }

  /** A text that survives as the second token. */
  predicate CleanHelp(s: string) {
    '\n' !in s && ';' !in s && (s == "" || s[|s| - 1] != '\r')
  }

  lemma SplitOfTokens(name: string, help: string)
    requires CleanName(name) && CleanHelp(help)
    ensures SplitTokens(name + ";" + help) == Ok((name, help))
  {
    var line := name + ";" + help;
    FindCharIs(line, ';', |name|);
    assert line[..|name|] == name && line[|name| + 1..] == help;
  }

  /** Whatever a newline-free line is split into is clean. */
  lemma SplitIsClean(line: string)
    requires '\n' !in line && SplitTokens(line).Ok?
    ensures CleanName(SplitTokens(line).value.0) && CleanHelp(SplitTokens(line).value.1)
  {
  }

  lemma GetLastLine(line: string)
    requires '\n' !in line && line != ""
    ensures GetLine(line) == (line, "")
  {
    FindCharIs(line, '\n', |line|);
    assert line[..|line|] == line;
  }

  /** Trailing carriage returns of the second token are cut, all of them and nothing else. */
  lemma {:induction false} SplitCutsReturns(first: string, second: string, crs: string)
    requires ';' !in first && ';' !in second && (second == "" || second[|second| - 1] != '\r')
    requires forall i :: 0 <= i < |crs| ==> crs[i] == '\r'
    ensures SplitTokens(first + ";" + second + crs) == Ok((first, second))
  {
    var line := first + ";" + second + crs;
    FindCharIs(line, ';', |first|);
    assert line[..|first|] == first && line[|first| + 1..] == second + crs;
    StripIs(second, crs);
  }

  lemma {:induction false} StripIs(text: string, crs: string)
    requires (text == "" || text[|text| - 1] != '\r') && forall i :: 0 <= i < |crs| ==> crs[i] == '\r'
    ensures StripCR(text + crs) == text
  {
    var n := |crs| - 1;
    if crs == "" {
      assert text + crs == text;
    } else {
      assert (text + crs)[..|text| + n] == text + crs[..n];
      StripIs(text, crs[..n]);
    }
  }

  /** A line is split exactly if it has one delimiter. */
  lemma {:induction false} SplitIffOneDelimiter(line: string)
    ensures SplitTokens(line).Ok? <==> exists i :: IsOnlyDelimiter(line, i)
    ensures ';' !in line ==> SplitTokens(line) == Fatal("Expected ';' delimetr in line")
    ensures ';' in line && SplitTokens(line).Fatal? ==> SplitTokens(line) == Fatal("Too many ';' delimeters in line")
  {
    var pos := FindChar(line, ';');
    if SplitTokens(line).Ok? {
      assert forall j :: pos < j < |line| ==> line[j] == line[pos + 1..][j - pos - 1];
      assert IsOnlyDelimiter(line, pos);
    }
    if i :| IsOnlyDelimiter(line, i) {
      var rest := line[pos + 1..];
      assert forall j :: 0 <= j < |rest| ==> rest[j] == line[pos + 1 + j];
    }
  }

  predicate IsOnlyDelimiter(line: string, i: int) {
    0 <= i < |line| && line[i] == ';' && forall j :: 0 <= j < |line| && j != i ==> line[j] != ';'
  }

  // ----- the helper functions as the program writes them

  method CutLeadingSpaces(s: string) returns (n: nat, rest: string)
    ensures n == LeadingSpaces(s) && rest == s[n..]
  {
    n := 0;
    while n < |s| && s[n] == ' '
      invariant 0 <= n <= |s| && forall i :: 0 <= i < n ==> s[i] == ' '
    {
      n := n + 1;
    }
    LeadingSpacesIs(s, n);
    rest := s[n..];
  }

  method SplitToTwoTokens(line: string) returns (r: Result<(string, string), string>)
    ensures r == SplitTokens(line)
  {
    var pos := FindChar(line, ';');
    if pos == |line| {
      return Fatal("Expected ';' delimetr in line");
    }
    var token0, token1 := line[..pos], line[pos + 1..];
    if ';' in token1 {
      return Fatal("Too many ';' delimeters in line");
    }
    while |token1| > 0 && token1[|token1| - 1] == '\r'
      invariant StripCR(token1) == StripCR(line[pos + 1..])
      decreases |token1|
    {
      token1 := token1[..|token1| - 1];
    }
    return Ok((token0, token1));
  }
}

/** BenchmarkMain::generateDocs. */
module DocsPrinter {
  import opened DocsText

  datatype Argument = Argument(key: string, help: string)

  /** `implemented`: some API has an implementation of the test case. */
  datatype TestCase = TestCase(name: string, help: string, implemented: bool, args: seq<Argument>)

  datatype Benchmark = Benchmark(name: string, description: string, cases: seq<TestCase>)

  const ILLEGAL := " -:='\"<>|{}[]/.,?\\+$"

  predicate ContainsIllegal(s: string, illegal: string) {
    exists i :: 0 <= i < |s| && s[i] in illegal
  }

  /** Return code 0 and the whole output, or return code 1 and what was printed before the error. */
  datatype Printed = Printed(ok: bool, out: string)

  function ArgumentLine(a: Argument): string { "  " + a.key + ";" + a.help + "\n" }
  function CaseLine(c: TestCase): string { " " + c.name + ";" + c.help + "\n" }
  function HeaderLine(b: Benchmark): string { b.name + ";" + b.description + "\n" }

  function PrintArguments(args: seq<Argument>): Printed {
    if args == [] then Printed(true, "")
    else if ContainsIllegal(args[0].key, ILLEGAL) || ContainsIllegal(args[0].key, ";") then Printed(false, "")
    else
      var rest := PrintArguments(args[1..]);
      Printed(rest.ok, ArgumentLine(args[0]) + rest.out)
  }

  function PrintCase(c: TestCase): Printed {
    if ContainsIllegal(c.name, ILLEGAL) || ContainsIllegal(c.help, ";") then Printed(false, "")
    else
      var args := PrintArguments(c.args);
      Printed(args.ok, CaseLine(c) + args.out)
  }

  function PrintCases(cases: seq<TestCase>): Printed {
    if cases == [] then Printed(true, "")
    else if !cases[0].implemented then PrintCases(cases[1..])
    else
      var first := PrintCase(cases[0]);
      if !first.ok then first
      else
        var rest := PrintCases(cases[1..]);
        Printed(rest.ok, first.out + rest.out)
  }

  function PrintDocs(b: Benchmark): Printed {
    if ContainsIllegal(b.name, ILLEGAL) || ContainsIllegal(b.description, ";") then Printed(false, "")
    else
      var cases := PrintCases(b.cases);
      Printed(cases.ok, HeaderLine(b) + cases.out)
  }

  // ----- which benchmarks are accepted

  /** None of the characters that a name must not have. */
  predicate LegalName(s: string) {
    forall i :: 0 <= i < |s| ==>
      && s[i] != ' ' && s[i] != '-' && s[i] != ':' && s[i] != '=' && s[i] != '\'' && s[i] != '"' && s[i] != '<'
      && s[i] != '>' && s[i] != '|' && s[i] != '{' && s[i] != '}' && s[i] != '[' && s[i] != ']' && s[i] != '/'
      && s[i] != '.' && s[i] != ',' && s[i] != '?' && s[i] != '\\' && s[i] != '+' && s[i] != '$'
  }

  predicate LegalCase(c: TestCase) {
    && LegalName(c.name) && ';' !in c.help
    && forall a :: a in c.args ==> LegalName(a.key) && ';' !in a.key
  }

  predicate Legal(b: Benchmark) {
    LegalName(b.name) && ';' !in b.description && forall c :: c in b.cases && c.implemented ==> LegalCase(c)
  }

  lemma {:induction false} IllegalMeans(s: string)
    ensures ContainsIllegal(s, ILLEGAL) <==> !LegalName(s)
    ensures ContainsIllegal(s, ";") <==> ';' in s
  {
    forall i | 0 <= i < |s|
      ensures s[i] in ILLEGAL <==> !LegalName([s[i]])
    {
      OneCharacter(s[i]);
    }
    assert forall i :: 0 <= i < |s| ==> LegalName([s[i]]) == ([s[i]][0] == s[i] && LegalName([s[i]]));
    LegalByCharacter(s);
  }

  lemma OneCharacter(c: char)
    ensures c in ILLEGAL <==> !LegalName([c])
  {
    assert [c][0] == c;
    assert ILLEGAL == [' ', '-', ':', '=', '\'', '"', '<', '>', '|', '{', '}', '[', ']',
                       '/', '.', ',', '?', '\\', '+', '$'];
  }

  lemma LegalByCharacter(s: string)
    ensures LegalName(s) <==> forall i :: 0 <= i < |s| ==> LegalName([s[i]])
  {
    assert forall i :: 0 <= i < |s| ==> [s[i]][0] == s[i];
  }

  lemma {:induction false} ArgumentsAcceptedIff(args: seq<Argument>)
    ensures PrintArguments(args).ok <==> forall a :: a in args ==> LegalName(a.key) && ';' !in a.key
  {
    hide LegalName, ContainsIllegal, ArgumentLine;
    if args != [] {
      IllegalMeans(args[0].key);
      ArgumentsAcceptedIff(args[1..]);
      assert args == [args[0]] + args[1..];
    }
  }

  lemma {:induction false} CasesAcceptedIff(cases: seq<TestCase>)
    ensures PrintCases(cases).ok <==> forall c :: c in cases && c.implemented ==> LegalCase(c)
  {
    hide LegalName, ContainsIllegal, CaseLine, PrintArguments;
    if cases != [] {
      var c := cases[0];
      IllegalMeans(c.name);
      IllegalMeans(c.help);
      ArgumentsAcceptedIff(c.args);
      CasesAcceptedIff(cases[1..]);
      assert cases == [c] + cases[1..];
    }
  }

  /** Exact condition: a benchmark is printed without an error if and only if no name, implemented
      test case name or argument key has an illegal character, and no description, test case help or
      argument key a ';'. Argument helps are not looked at. */
  lemma {:induction false} AcceptedIffLegal(b: Benchmark)
    ensures PrintDocs(b).ok <==> Legal(b)
  {
    hide LegalName, ContainsIllegal, HeaderLine, PrintCases, LegalCase;
    IllegalMeans(b.name);
    IllegalMeans(b.description);
    CasesAcceptedIff(b.cases);
  }

  predicate Identifier(s: string) {
    forall i :: 0 <= i < |s| ==> 'a' <= s[i] <= 'z' || 'A' <= s[i] <= 'Z' || '0' <= s[i] <= '9' || s[i] == '_'
  }

  /** Letters, digits and underscores are always accepted. */
  lemma {:induction false} IdentifiersAreAccepted(b: Benchmark)
    requires Identifier(b.name) && ';' !in b.description
    requires forall c :: c in b.cases && c.implemented ==>
               Identifier(c.name) && ';' !in c.help && forall a :: a in c.args ==> Identifier(a.key)
    ensures PrintDocs(b).ok
  {
    hide PrintDocs;
    AcceptedIffLegal(b);
    forall s | Identifier(s)
      ensures LegalName(s) && ';' !in s
    {
    }
    hide LegalName, Identifier;
  }

  // ----- what is printed

  /** One piece of output after another, up to the first error. */
  function Joined(first: Printed, second: Printed): Printed {
    if first.ok then Printed(second.ok, first.out + second.out) else first
  }

  lemma {:induction false} JoinedAssociative(a: Printed, b: Printed, c: Printed)
    ensures Joined(Joined(a, b), c) == Joined(a, Joined(b, c))
    ensures Joined(Printed(true, ""), a) == a
  {
    if a.ok && b.ok {
      assert a.out + b.out + c.out == a.out + (b.out + c.out);
    }
    assert "" + a.out == a.out;
  }

  lemma {:induction false} ArgumentsJoin(a: seq<Argument>, b: seq<Argument>)
    ensures PrintArguments(a + b) == Joined(PrintArguments(a), PrintArguments(b))
  {
    if a == [] {
      assert a + b == b;
      JoinedAssociative(PrintArguments(b), PrintArguments(b), PrintArguments(b));
    } else {
      assert (a + b)[0] == a[0] && (a + b)[1..] == a[1..] + b;
      hide ContainsIllegal, ArgumentLine;
      ArgumentsJoin(a[1..], b);
      JoinedAssociative(Printed(true, ArgumentLine(a[0])), PrintArguments(a[1..]), PrintArguments(b));
    }
  }

  lemma {:induction false} CasesJoin(a: seq<TestCase>, b: seq<TestCase>)
    ensures PrintCases(a + b) == Joined(PrintCases(a), PrintCases(b))
  {
    if a == [] {
      assert a + b == b;
      JoinedAssociative(PrintCases(b), PrintCases(b), PrintCases(b));
    } else {
      assert (a + b)[0] == a[0] && (a + b)[1..] == a[1..] + b;
      hide PrintCase;
      CasesJoin(a[1..], b);
      JoinedAssociative(PrintCase(a[0]), PrintCases(a[1..]), PrintCases(b));
    }
  }

  /** The output of several arguments is that of the single ones, in order, up to the first error; a
      single one is one line, or an error that prints nothing. */
  lemma {:induction false} ArgumentsText(front: seq<Argument>, a: Argument, rest: seq<Argument>)
    ensures PrintArguments([]) == Printed(true, "")
    ensures PrintArguments(front + [a] + rest)
         == Joined(Joined(PrintArguments(front), PrintArguments([a])), PrintArguments(rest))
    ensures PrintArguments([a]) == if !LegalName(a.key) || ';' in a.key then Printed(false, "")
                                   else Printed(true, "  " + a.key + ";" + a.help + "\n")
  {
    hide LegalName, ContainsIllegal;
    IllegalMeans(a.key);
    ArgumentsJoin(front + [a], rest);
    ArgumentsJoin(front, [a]);
    var line := "  " + a.key + ";" + a.help + "\n";
    assert line + "" == line;
    assert [a][1..] == [];
  }

  /** The same for test cases: one line and the arguments' lines for an implemented one, nothing for
      any other; an error in the arguments comes after the test case's own line. */
  lemma {:induction false} CasesText(front: seq<TestCase>, c: TestCase, rest: seq<TestCase>)
    ensures PrintCases([]) == Printed(true, "")
    ensures PrintCases(front + [c] + rest) == Joined(Joined(PrintCases(front), PrintCases([c])), PrintCases(rest))
    ensures PrintCases([c]) == if !c.implemented then Printed(true, "")
                               else if !LegalName(c.name) || ';' in c.help then Printed(false, "")
                               else Joined(Printed(true, " " + c.name + ";" + c.help + "\n"), PrintArguments(c.args))
  {
    hide LegalName, ContainsIllegal, PrintArguments;
    IllegalMeans(c.name);
    IllegalMeans(c.help);
    CasesJoin(front + [c], rest);
    CasesJoin(front, [c]);
    assert [c][1..] == [];
    assert PrintCase(c).out + "" == PrintCase(c).out;
  }

  lemma JoinedMeans(first: Printed, second: Printed)
    ensures !first.ok ==> Joined(first, second) == first
    ensures first.ok ==> Joined(first, second).ok == second.ok && Joined(first, second).out == first.out + second.out
  {
  }

  /** The header line comes first; a bad header prints nothing. */
  lemma {:induction false} HeaderText(b: Benchmark)
    ensures PrintDocs(b) ==
              if !LegalName(b.name) || ';' in b.description then Printed(false, "")
              else Joined(Printed(true, b.name + ";" + b.description + "\n"), PrintCases(b.cases))
  {
    hide LegalName, ContainsIllegal, PrintCases;
    IllegalMeans(b.name);
    IllegalMeans(b.description);
  }

  /** The printer as the program writes it: lines are emitted until the first illegal text. */
  method GenerateDocs(b: Benchmark) returns (code: int, out: string)
    ensures Printed(code == 0, out) == PrintDocs(b) && code in {0, 1}
    ensures code == 0 <==> Legal(b)
  {
    AcceptedIffLegal(b);
    hide Legal;
    out := "";
    if ContainsIllegal(b.name, ILLEGAL) {
      return 1, out;
    }
    if ContainsIllegal(b.description, ";") {
      return 1, out;
    }
    out := HeaderLine(b);
    ghost var header := out;
    var k := 0;
    while k < |b.cases|
      invariant 0 <= k <= |b.cases| && header <= out
      invariant PrintCases(b.cases).ok == PrintCases(b.cases[k..]).ok
      invariant header + PrintCases(b.cases).out == out + PrintCases(b.cases[k..]).out
    {
      var c := b.cases[k];
      assert b.cases[k..][0] == c && b.cases[k..][1..] == b.cases[k + 1..];
      if c.implemented {
        ghost var before := out;
        var ok;
        ok, out := EmitCase(c, out);
        if !ok {
          return 1, out;
        }
      }
      k := k + 1;
    }
    return 0, out;
  }

  method EmitCase(c: TestCase, before: string) returns (ok: bool, out: string)
    ensures ok == PrintCase(c).ok && out == before + PrintCase(c).out
  {
    out := before;
    if ContainsIllegal(c.name, ILLEGAL) {
      return false, out;
    }
    if ContainsIllegal(c.help, ";") {
      return false, out;
    }
    hide ArgumentLine, CaseLine;
    out := out + CaseLine(c);
    ghost var line := out;
    assert line + PrintArguments(c.args).out == before + (CaseLine(c) + PrintArguments(c.args).out);
    var j := 0;
    while j < |c.args|
      invariant 0 <= j <= |c.args|
      invariant PrintArguments(c.args).ok == PrintArguments(c.args[j..]).ok
      invariant line + PrintArguments(c.args).out == out + PrintArguments(c.args[j..]).out
    {
      var a := c.args[j];
      assert c.args[j..][0] == a && c.args[j..][1..] == c.args[j + 1..];
      if ContainsIllegal(a.key, ILLEGAL) || ContainsIllegal(a.key, ";") {
        assert out + "" == out;
        return false, out;
      }
      assert out + (ArgumentLine(a) + PrintArguments(c.args[j + 1..]).out) == out + ArgumentLine(a)
             + PrintArguments(c.args[j + 1..]).out;
      out := out + ArgumentLine(a);
      j := j + 1;
    }
    assert out + "" == out;
    return true, out;
  }
}

/** The documentation generator's reading of one printed output into the benchmark it belongs to. */
module DocsParser {
  import opened Basics
  import opened DocsText

  datatype Api = OpenCL | L0 | SYCL | OMP | UR

  datatype DocArgument = DocArgument(name: string, help: string)

  datatype DocCase = DocCase(name: string, help: string, apis: set<Api>, args: map<string, DocArgument>)

  datatype Doc = Doc(baseName: string, description: string, cases: map<string, DocCase>)

  /** The iterator to the test case whose arguments are being read. */
  datatype Cursor = NoCase | At(name: string)

  /** assignAndValidate: an empty destination takes the source, any other must equal it. */
  function Assigned(destination: string, source: string): Result<string, string> {
    if destination == "" then Ok(source)
    else if destination == source then Ok(destination)
    else Fatal("String mismatch detected")
  }

  function CaseAt(d: Doc, name: string): DocCase {
    if name in d.cases then d.cases[name] else DocCase("", "", {}, map[])
  }

  function AddCase(d: Doc, api: Api, name: string, help: string): Result<Doc, string> {
    var c := CaseAt(d, name);
    match (Assigned(c.name, name), Assigned(c.help, help))
    case (Ok(n), Ok(h)) =>
      if api in c.apis then Fatal("API for test case was duplicated")
      else Ok(d.(cases := d.cases[name := DocCase(n, h, c.apis + {api}, c.args)]))
    case _ => Fatal("String mismatch detected")
  }

  function AddArgument(d: Doc, test: string, key: string, help: string): Result<Doc, string> {
    if test !in d.cases then Fatal("Argument was printed before any test cases")
    else
      var c := d.cases[test];
      var a := if key in c.args then c.args[key] else DocArgument("", "");
      match (Assigned(a.name, key), Assigned(a.help, help))
      case (Ok(n), Ok(h)) => Ok(d.(cases := d.cases[test := c.(args := c.args[key := DocArgument(n, h)])]))
      case _ => Fatal("String mismatch detected")
  }

  function ParseLine(d: Doc, cur: Cursor, api: Api, line: string): Result<(Doc, Cursor), string> {
    var n := LeadingSpaces(line);
    var tokens := SplitTokens(line[n..]);
    if n != 1 && n != 2 then Fatal("Invalid number of leading spaces detected")
    else if n == 2 && cur == NoCase then Fatal("Argument was printed before any test cases")
    else if tokens.Fatal? then Fatal(tokens.error)
    else
      var (first, second) := tokens.value;
      var d' := if n == 1 then AddCase(d, api, first, second) else AddArgument(d, cur.name, first, second);
      if d'.Fatal? then Fatal(d'.error) else Ok((d'.value, if n == 1 then At(first) else cur))
  }

  function ParseBody(d: Doc, cur: Cursor, api: Api, text: string): Result<Doc, string>
    decreases |text|
  {
    if text == "" then Ok(d) else
      var (line, rest) := GetLine(text);
      match ParseLine(d, cur, api, line)
      case Fatal(message) => Fatal(message)
      case Ok((d', cur')) => ParseBody(d', cur', api, rest)
  }

  function ParseHeader(d: Doc, line: string): Result<Doc, string> {
    if LeadingSpaces(line) != 0 then Fatal("First line of output started with a space") else
      match SplitTokens(line)
      case Fatal(message) => Fatal(message)
      case Ok((first, second)) =>
        match (Assigned(d.baseName, first), Assigned(d.description, second))
        case (Ok(n), Ok(h)) => Ok(d.(baseName := n, description := h))
        case _ => Fatal("String mismatch detected")
  }

  function Parse(d: Doc, api: Api, text: string): Result<Doc, string> {
    if text == "" then Fatal("Could parse first line of output") else
      var (line, rest) := GetLine(text);
      match ParseHeader(d, line)
      case Fatal(message) => Fatal(message)
      case Ok(d') => ParseBody(d', NoCase, api, rest)
  }

  // ----- what a line does

  predicate Spaces(s: string) {
    forall i :: 0 <= i < |s| ==> s[i] == ' '
  }

  predicate Returns(s: string) {
    forall i :: 0 <= i < |s| ==> s[i] == '\r'
  }

  /** A line is its indentation, two tokens around the only ';', and carriage returns. */
  ghost predicate IsLine(line: string, indent: string, first: string, second: string) {
    && Spaces(indent) && ';' !in first && ';' !in second
    && (first == "" || first[0] != ' ') && (second == "" || second[|second| - 1] != '\r')
    && exists crs :: Returns(crs) && line == indent + (first + ";" + second + crs)
  }

  lemma {:induction false} LineIsSplit(line: string, indent: string, first: string, second: string)
    requires IsLine(line, indent, first, second)
    ensures LeadingSpaces(line) == |indent| && SplitTokens(line[|indent|..]) == Ok((first, second))
  {
    var crs :| Returns(crs) && line == indent + (first + ";" + second + crs);
    var tokens := first + ";" + second + crs;
    assert tokens[0] != ' ';
    LeadingSpacesIs(line, |indent|);
    assert line[|indent|..] == tokens;
    SplitCutsReturns(first, second, crs);
  }

  /** What a test case line does to the entry, with its errors. */
  lemma {:induction false} AddCaseMeans(d: Doc, api: Api, name: string, help: string)
    ensures var r := AddCase(d, api, name, help);
            if name !in d.cases then r == Ok(d.(cases := d.cases[name := DocCase(name, help, {api}, map[])]))
            else
              var c := d.cases[name];
              if c.name !in {"", name} || c.help !in {"", help} then r == Fatal("String mismatch detected")
              else if api in c.apis then r == Fatal("API for test case was duplicated")
              else r == Ok(d.(cases := d.cases[name := DocCase(name, help, c.apis + {api}, c.args)]))
  {
    assert {} + {api} == {api};
  }

  /** And an argument line. */
  lemma {:induction false} AddArgumentMeans(d: Doc, test: string, key: string, help: string)
    requires test in d.cases
    ensures var r, c := AddArgument(d, test, key, help), d.cases[test];
            if key in c.args && (c.args[key].name !in {"", key} || c.args[key].help !in {"", help})
            then r == Fatal("String mismatch detected")
            else r == Ok(d.(cases := d.cases[test := c.(args := c.args[key := DocArgument(key, help)])]))
  {
  }

  /** One space: a test case, which becomes current. Two: an argument of the current one, fatal if there
      is none. Any other indentation is fatal. */
  lemma {:induction false} LineMeans(d: Doc, cur: Cursor, api: Api, line: string, indent: string, first: string,
                                     second: string)
    requires IsLine(line, indent, first, second)
    ensures var r := ParseLine(d, cur, api, line);
            && (|indent| == 1 ==>
                  var added := AddCase(d, api, first, second);
                  r == if added.Ok? then Ok((added.value, At(first))) else Fatal(added.error))
            && (|indent| == 2 && cur.At? ==>
                  var added := AddArgument(d, cur.name, first, second);
                  r == if added.Ok? then Ok((added.value, cur)) else Fatal(added.error))
            && (|indent| == 2 && cur == NoCase ==> r == Fatal("Argument was printed before any test cases"))
            && (|indent| != 1 && |indent| != 2 ==> r == Fatal("Invalid number of leading spaces detected"))
  {
    LineIsSplit(line, indent, first, second);
    LineRead(d, cur, api, line, |indent|, first, second);
    hide ParseLine, SplitTokens, LeadingSpaces, AddCase, AddArgument, IsLine;
  }

  lemma {:induction false} LineRead(d: Doc, cur: Cursor, api: Api, line: string, n: nat, first: string, second: string)
    requires LeadingSpaces(line) == n && SplitTokens(line[n..]) == Ok((first, second))
    ensures ParseLine(d, cur, api, line) ==
              if n == 1 then
                match AddCase(d, api, first, second)
                case Ok(d') => Ok((d', At(first)))
                case Fatal(message) => Fatal(message)
              else if n != 2 then Fatal("Invalid number of leading spaces detected")
              else if cur == NoCase then Fatal("Argument was printed before any test cases")
              else
                match AddArgument(d, cur.name, first, second)
                case Ok(d') => Ok((d', cur))
                case Fatal(message) => Fatal(message)
  {
    hide SplitTokens, LeadingSpaces, AddCase, AddArgument;
  }

  /** Any other line, one without or with several ';', is fatal. */
  lemma {:induction false} LinesHaveOneDelimiter(d: Doc, cur: Cursor, api: Api, line: string)
    ensures ParseLine(d, cur, api, line).Ok? ==> exists i :: IsOnlyDelimiter(line, i)
  {
    var n := LeadingSpaces(line);
    SplitIffOneDelimiter(line[n..]);
    if i :| IsOnlyDelimiter(line[n..], i) {
      assert forall j :: n <= j < |line| ==> line[j] == line[n..][j - n];
      assert IsOnlyDelimiter(line, n + i);
    }
  }

  /** Lines are read one after the other; the last one needs no line end. */
  lemma {:induction false} BodyByLines(d: Doc, cur: Cursor, api: Api, line: string, rest: string)
    requires '\n' !in line
    ensures ParseBody(d, cur, api, "") == Ok(d)
    ensures ParseBody(d, cur, api, line + "\n" + rest) ==
              match ParseLine(d, cur, api, line)
              case Fatal(message) => Fatal(message)
              case Ok((d', cur')) => ParseBody(d', cur', api, rest)
    ensures line != "" ==> ParseBody(d, cur, api, line) == ParseBody(d, cur, api, line + "\n")
  {
    hide ParseLine, GetLine;
    GetLineOfLine(line, rest);
    GetLineOfLine(line, "");
    assert line + "\n" + "" == line + "\n";
    if line != "" {
      GetLastLine(line);
    }
  }

  /** The first line names the benchmark: no indentation, one ';', and no other name or description
      than an earlier output gave. An empty output is fatal. */
  lemma {:induction false} HeaderMeans(d: Doc, api: Api, line: string, indent: string, first: string,
                                       second: string, rest: string)
    requires IsLine(line, indent, first, second) && '\n' !in line
    ensures Parse(d, api, "") == Fatal("Could parse first line of output")
    ensures indent != "" ==> Parse(d, api, line + "\n" + rest) == Fatal("First line of output started with a space")
    ensures indent == "" && (d.baseName !in {"", first} || d.description !in {"", second}) ==>
              Parse(d, api, line + "\n" + rest) == Fatal("String mismatch detected")
    ensures indent == "" && d.baseName in {"", first} && d.description in {"", second} ==>
              Parse(d, api, line + "\n" + rest)
              == ParseBody(d.(baseName := first, description := second), NoCase, api, rest)
  {
    hide ParseBody;
    LineIsSplit(line, indent, first, second);
    assert line[0..] == line;
    GetLineOfLine(line, rest);
  }

  /** The parsing loop as the program writes it. */
  method ParseOutput(start: Doc, api: Api, text: string) returns (r: Result<Doc, string>)
    ensures r == Parse(start, api, text)
  {
    if text == "" {
      return Fatal("Could parse first line of output");
    }
    var (line, rest) := GetLine(text);
    var header := ParseHeader(start, line);
    if header.Fatal? {
      return Fatal(header.error);
    }
    var d, current := header.value, NoCase;
    while rest != ""
      invariant ParseBody(d, current, api, rest) == Parse(start, api, text)
      decreases |rest|
    {
      var next := GetLine(rest);
      line, rest := next.0, next.1;
      var spaces, cut := CutLeadingSpaces(line);
      if spaces == 1 {
        var tokens := SplitToTwoTokens(cut);
        if tokens.Fatal? {
          return Fatal(tokens.error);
        }
        var added := AddCase(d, api, tokens.value.0, tokens.value.1);
        if added.Fatal? {
          return Fatal(added.error);
        }
        d, current := added.value, At(tokens.value.0);
      } else if spaces == 2 {
        if current == NoCase {
          return Fatal("Argument was printed before any test cases");
        }
        var tokens := SplitToTwoTokens(cut);
        if tokens.Fatal? {
          return Fatal(tokens.error);
        }
        var added := AddArgument(d, current.name, tokens.value.0, tokens.value.1);
        if added.Fatal? {
          return Fatal(added.error);
        }
        d := added.value;
      } else {
        return Fatal("Invalid number of leading spaces detected");
      }
    }
    return Ok(d);
  }
}

/** Printer against parser, and the merge of several outputs. */
module DocsRoundTrip {
  import opened Basics
  import opened DocsText
  import opened DocsPrinter
  import opened DocsParser

  // ----- what an output says, free of its text

  /** One line: a test case of an API, or an argument of a test case. */
  datatype Event =
    | CaseEvent(api: Api, name: string, help: string)
    | ArgumentEvent(test: string, key: string, help: string)

  function ArgumentEvents(test: string, args: seq<Argument>): seq<Event> {
    if args == [] then [] else [ArgumentEvent(test, args[0].key, args[0].help)] + ArgumentEvents(test, args[1..])
  }

  function CaseEvents(api: Api, c: TestCase): seq<Event> {
    [CaseEvent(api, c.name, c.help)] + ArgumentEvents(c.name, c.args)
  }

  /** The events of a benchmark's implemented test cases, in order. */
  function Events(api: Api, cases: seq<TestCase>): seq<Event> {
    if cases == [] then []
    else if !cases[0].implemented then Events(api, cases[1..])
    else CaseEvents(api, cases[0]) + Events(api, cases[1..])
  }

  function Apply(d: Doc, e: Event): Result<Doc, string> {
    match e
    case CaseEvent(api, name, help) => AddCase(d, api, name, help)
    case ArgumentEvent(test, key, help) => AddArgument(d, test, key, help)
  }

  function ApplyAll(d: Doc, es: seq<Event>): Result<Doc, string>
    decreases |es|
  {
    if es == [] then Ok(d) else
      match Apply(d, es[0])
      case Fatal(message) => Fatal(message)
      case Ok(d') => ApplyAll(d', es[1..])
  }

  lemma {:induction false} ApplyConcat(d: Doc, a: seq<Event>, b: seq<Event>)
    ensures ApplyAll(d, a + b)
         == if ApplyAll(d, a).Fatal? then ApplyAll(d, a) else ApplyAll(ApplyAll(d, a).value, b)
    decreases |a|
  {
    if a == [] {
      assert a + b == b;
    } else {
      assert (a + b)[0] == a[0] && (a + b)[1..] == a[1..] + b;
      if Apply(d, a[0]).Ok? {
        ApplyConcat(Apply(d, a[0]).value, a[1..], b);
      }
    }
  }

  /** What reading one benchmark's output must amount to. */
  function Merge(d: Doc, api: Api, b: Benchmark): Result<Doc, string> {
    match (Assigned(d.baseName, b.name), Assigned(d.description, b.description))
    case (Ok(n), Ok(h)) => ApplyAll(d.(baseName := n, description := h), Events(api, b.cases))
    case _ => Fatal("String mismatch detected")
  }

  // ----- the text

  predicate CleanArgument(a: Argument) {
    CleanName(a.key) && CleanHelp(a.help)
  }

  predicate CleanCase(c: TestCase) {
    CleanName(c.name) && CleanHelp(c.help) && forall a :: a in c.args ==> CleanArgument(a)
  }

  /** Every text that is printed survives the line format: no line end, no ';', and no trailing
      carriage return in a help text. The printer itself does not check all of this. */
  predicate Clean(b: Benchmark) {
    CleanName(b.name) && CleanHelp(b.description) && forall c :: c in b.cases && c.implemented ==> CleanCase(c)
  }

  lemma NoSpaceIn(s: string)
    requires !ContainsIllegal(s, ILLEGAL)
    ensures ' ' !in s
  {
  }

  lemma {:induction false} IndentedLine(indent: string, n: nat, name: string, help: string, line: string)
    requires line == indent + (name + ";" + help) && |indent| == n && forall i :: 0 <= i < n ==> indent[i] == ' '
    requires ' ' !in name && CleanName(name) && CleanHelp(help)
    ensures LeadingSpaces(line) == n && line[n..] == name + ";" + help && '\n' !in line
    ensures SplitTokens(line[n..]) == Ok((name, help))
  {
    assert line[n] == (name + ";" + help)[0];
    LeadingSpacesIs(line, n);
    assert line[n..] == name + ";" + help;
    SplitOfTokens(name, help);
  }

  /** Reading one printed test case line. */
  lemma {:induction false} ReadCaseLine(d: Doc, cur: Cursor, api: Api, c: TestCase, rest: string)
    requires !ContainsIllegal(c.name, ILLEGAL) && CleanName(c.name) && CleanHelp(c.help)
    ensures ParseBody(d, cur, api, CaseLine(c) + rest)
         == var r := AddCase(d, api, c.name, c.help);
            if r.Fatal? then r else ParseBody(r.value, At(c.name), api, rest)
  {
    var line := " " + c.name + ";" + c.help;
    NoSpaceIn(c.name);
    assert line == " " + (c.name + ";" + c.help);
    IndentedLine(" ", 1, c.name, c.help, line);
    assert CaseLine(c) + rest == line + "\n" + rest;
    GetLineOfLine(line, rest);
    LineRead(d, cur, api, line, 1, c.name, c.help);
    hide ParseLine, SplitTokens, LeadingSpaces, AddCase, AddArgument, ContainsIllegal, GetLine;
  }

  lemma {:induction false} ReadArgumentLine(d: Doc, test: string, api: Api, a: Argument, rest: string)
    requires !ContainsIllegal(a.key, ILLEGAL) && CleanArgument(a)
    ensures ParseBody(d, At(test), api, ArgumentLine(a) + rest)
         == var r := AddArgument(d, test, a.key, a.help);
            if r.Fatal? then r else ParseBody(r.value, At(test), api, rest)
  {
    var line := "  " + a.key + ";" + a.help;
    NoSpaceIn(a.key);
    assert line == "  " + (a.key + ";" + a.help);
    IndentedLine("  ", 2, a.key, a.help, line);
    assert ArgumentLine(a) + rest == line + "\n" + rest;
    GetLineOfLine(line, rest);
    LineRead(d, At(test), api, line, 2, a.key, a.help);
    hide ParseLine, SplitTokens, LeadingSpaces, AddCase, AddArgument, ContainsIllegal, GetLine;
  }

  lemma {:induction false} ReadArguments(d: Doc, test: string, api: Api, args: seq<Argument>, rest: string)
    requires PrintArguments(args).ok && forall a :: a in args ==> CleanArgument(a)
    ensures ParseBody(d, At(test), api, PrintArguments(args).out + rest)
         == var r := ApplyAll(d, ArgumentEvents(test, args));
            if r.Fatal? then r else ParseBody(r.value, At(test), api, rest)
    decreases |args|
  {
    hide ParseBody, AddArgument, ArgumentLine, ContainsIllegal, CleanArgument;
    if args == [] {
      assert "" + rest == rest;
    } else {
      var a, more := args[0], PrintArguments(args[1..]).out + rest;
      assert PrintArguments(args).out + rest == ArgumentLine(a) + more;
      ReadArgumentLine(d, test, api, a, more);
      var r := AddArgument(d, test, a.key, a.help);
      assert ArgumentEvents(test, args)[1..] == ArgumentEvents(test, args[1..]);
      if r.Ok? {
        ReadArguments(r.value, test, api, args[1..], rest);
      }
    }
  }

  lemma {:induction false} ReadCase(d: Doc, cur: Cursor, api: Api, c: TestCase, rest: string)
    requires PrintCase(c).ok && CleanCase(c)
    ensures ParseBody(d, cur, api, PrintCase(c).out + rest)
         == var r := ApplyAll(d, CaseEvents(api, c));
            if r.Fatal? then r else ParseBody(r.value, At(c.name), api, rest)
  {
    hide AddCase, CaseLine, ContainsIllegal, CleanName, CleanHelp, PrintArguments, ParseBody, ArgumentEvents;
    var more := PrintArguments(c.args).out + rest;
    assert PrintCase(c).out + rest == CaseLine(c) + more;
    ReadCaseLine(d, cur, api, c, more);
    var r := AddCase(d, api, c.name, c.help);
    assert CaseEvents(api, c)[1..] == ArgumentEvents(c.name, c.args);
    if r.Ok? {
      ReadArguments(r.value, c.name, api, c.args, rest);
    }
  }

  lemma {:induction false} ReadCases(d: Doc, cur: Cursor, api: Api, cases: seq<TestCase>)
    requires PrintCases(cases).ok && forall c :: c in cases && c.implemented ==> CleanCase(c)
    ensures ParseBody(d, cur, api, PrintCases(cases).out) == ApplyAll(d, Events(api, cases))
    decreases |cases|
  {
    hide CleanCase, PrintCase, CaseEvents;
    if cases == [] {
    } else if !cases[0].implemented {
      ReadCases(d, cur, api, cases[1..]);
    } else {
      hide ParseBody;
      var c, rest := cases[0], PrintCases(cases[1..]).out;
      ReadCase(d, cur, api, c, rest);
      ApplyConcat(d, CaseEvents(api, c), Events(api, cases[1..]));
      var r := ApplyAll(d, CaseEvents(api, c));
      if r.Ok? {
        ReadCases(r.value, At(c.name), api, cases[1..]);
      }
    }
  }

  /** Round trip: whatever has been collected so far, parsing a printed benchmark whose texts are
      clean is the same as merging the benchmark itself -- with the same errors. */
  lemma {:induction false} ParsePrinted(d: Doc, api: Api, b: Benchmark)
    requires PrintDocs(b).ok && Clean(b)
    ensures Parse(d, api, PrintDocs(b).out) == Merge(d, api, b)
  {
    hide ParseBody, PrintCases, Events;
    var line, rest := b.name + ";" + b.description, PrintCases(b.cases).out;
    NoSpaceIn(b.name);
    assert line == "" + (b.name + ";" + b.description);
    IndentedLine("", 0, b.name, b.description, line);
    assert line[0..] == line;
    assert PrintDocs(b).out == line + "\n" + rest;
    GetLineOfLine(line, rest);
    var h := ParseHeader(d, line);
    if h.Ok? {
      ReadCases(h.value, NoCase, api, b.cases);
    }
  }

  // ----- one benchmark, rebuilt

  function DocArguments(args: seq<Argument>): map<string, DocArgument> {
    if args == [] then map[]
    else DocArguments(args[1..])[args[0].key := DocArgument(args[0].key, args[0].help)]
  }

  function DocCases(api: Api, cases: seq<TestCase>): map<string, DocCase> {
    if cases == [] then map[]
    else if !cases[0].implemented then DocCases(api, cases[1..])
    else DocCases(api, cases[1..])[cases[0].name := DocCase(cases[0].name, cases[0].help, {api},
                                                            DocArguments(cases[0].args))]
  }

  /** The documentation of a benchmark printed by one API's binary. */
  function DocOf(api: Api, b: Benchmark): Doc {
    Doc(b.name, b.description, DocCases(api, b.cases))
  }

  predicate DistinctArguments(args: seq<Argument>) {
    forall i, j :: 0 <= i < j < |args| ==> args[i].key != args[j].key
  }

  predicate DistinctCases(cases: seq<TestCase>) {
    && (forall i, j :: 0 <= i < j < |cases| && cases[i].implemented && cases[j].implemented ==>
        cases[i].name != cases[j].name)
    && (forall c :: c in cases && c.implemented ==> DistinctArguments(c.args))
  }

  /** Distinct means distinct. */
  lemma {:induction false} DistinctMeans(args: seq<Argument>, cases: seq<TestCase>)
    ensures DistinctArguments(args) <==>
              forall i, j :: 0 <= i < |args| && 0 <= j < |args| && i != j ==> args[i].key != args[j].key
    ensures DistinctCases(cases) <==>
              && (forall i, j ::
                    (0 <= i < |cases| && 0 <= j < |cases| && i != j && cases[i].implemented && cases[j].implemented) ==>
                    cases[i].name != cases[j].name)
              && (forall i :: 0 <= i < |cases| && cases[i].implemented ==> DistinctArguments(cases[i].args))
  {
  }

  lemma {:induction false} DocArgumentsKeys(args: seq<Argument>)
    ensures forall k :: k in DocArguments(args) <==> exists i :: 0 <= i < |args| && args[i].key == k
    ensures DistinctArguments(args) ==> forall a :: a in args ==>
            a.key in DocArguments(args) && DocArguments(args)[a.key] == DocArgument(a.key, a.help)
  {
    if args != [] {
      DocArgumentsKeys(args[1..]);
      assert forall i :: 1 <= i < |args| ==> args[1..][i - 1] == args[i];
    }
  }

  lemma {:induction false} DocCasesKeys(api: Api, cases: seq<TestCase>, k: string)
    ensures k in DocCases(api, cases) <==> exists c :: c in cases && c.implemented && c.name == k
  {
    if cases != [] {
      DocCasesKeys(api, cases[1..], k);
      assert cases == [cases[0]] + cases[1..];
    }
  }

  lemma {:induction false} DocCasesValues(api: Api, cases: seq<TestCase>, c: TestCase)
    requires DistinctCases(cases) && c in cases && c.implemented
    ensures c.name in DocCases(api, cases)
    ensures DocCases(api, cases)[c.name] == DocCase(c.name, c.help, {api}, DocArguments(c.args))
  {
    hide DistinctCases, DistinctArguments, DocArguments;
    DistinctTails([], cases);
    assert cases == [cases[0]] + cases[1..];
    if c in cases[1..] {
      DocCasesValues(api, cases[1..], c);
    }
  }

  lemma DistinctTails(args: seq<Argument>, cases: seq<TestCase>)
    ensures args != [] && DistinctArguments(args) ==>
              DistinctArguments(args[1..]) && forall a :: a in args[1..] ==> a.key != args[0].key
    ensures cases != [] && DistinctCases(cases) ==>
              && DistinctCases(cases[1..])
              && (cases[0].implemented ==> DistinctArguments(cases[0].args))
              && (cases[0].implemented ==> forall c :: c in cases[1..] && c.implemented ==> c.name != cases[0].name)
  {
  }

  /** d with the arguments of one test case replaced. */
  function SetArguments(d: Doc, test: string, args: map<string, DocArgument>): Doc
    requires test in d.cases
  {
    d.(cases := d.cases[test := d.cases[test].(args := args)])
  }

  lemma SetArgumentsFacts(d: Doc, test: string, args: map<string, DocArgument>, args': map<string, DocArgument>)
    requires test in d.cases
    ensures SetArguments(d, test, d.cases[test].args) == d
    ensures var d' := SetArguments(d, test, args);
            && test in d'.cases && d'.cases[test].args == args
            && SetArguments(d', test, args') == SetArguments(d, test, args')
  {
  }

  lemma MoveEntry<T>(m: map<string, T>, k: string, x: T, more: map<string, T>)
    requires k !in more
    ensures m[k := x] + more == m + more[k := x]
  {
  }

  lemma FreshArgument(d: Doc, test: string, a: Argument)
    requires test in d.cases && a.key !in d.cases[test].args
    ensures Apply(d, ArgumentEvent(test, a.key, a.help))
         == Ok(SetArguments(d, test, d.cases[test].args[a.key := DocArgument(a.key, a.help)]))
  {
  }

  lemma {:induction false} FreshArguments(d: Doc, test: string, args: seq<Argument>)
    requires test in d.cases && DistinctArguments(args)
    requires forall a :: a in args ==> a.key !in d.cases[test].args
    ensures ApplyAll(d, ArgumentEvents(test, args))
         == Ok(SetArguments(d, test, d.cases[test].args + DocArguments(args)))
    decreases |args|
  {
    hide Apply, DistinctArguments, SetArguments;
    var m := d.cases[test].args;
    if args == [] {
      assert m + map[] == m;
      SetArgumentsFacts(d, test, m, m);
    } else {
      var a := args[0];
      DistinctTails(args, []);
      DocArgumentsKeys(args[1..]);
      FreshArgument(d, test, a);
      var m' := m[a.key := DocArgument(a.key, a.help)];
      MoveEntry(m, a.key, DocArgument(a.key, a.help), DocArguments(args[1..]));
      SetArgumentsFacts(d, test, m', m + DocArguments(args));
      FreshArguments(SetArguments(d, test, m'), test, args[1..]);
      assert ArgumentEvents(test, args)[1..] == ArgumentEvents(test, args[1..]);
    }
  }

  lemma {:induction false} FreshCase(d: Doc, api: Api, c: TestCase)
    requires c.name !in d.cases && DistinctArguments(c.args)
    ensures ApplyAll(d, CaseEvents(api, c))
         == Ok(d.(cases := d.cases[c.name := DocCase(c.name, c.help, {api}, DocArguments(c.args))]))
  {
    var c' := DocCase(c.name, c.help, {api}, map[]);
    var d' := d.(cases := d.cases[c.name := c']);
    assert Apply(d, CaseEvent(api, c.name, c.help)) == Ok(d') by {
      assert {} + {api} == {api};
    }
    FreshArguments(d', c.name, c.args);
    assert map[] + DocArguments(c.args) == DocArguments(c.args);
    assert CaseEvents(api, c)[1..] == ArgumentEvents(c.name, c.args);
    var x := c'.(args := DocArguments(c.args));
    assert d'.cases[c.name := x] == d.cases[c.name := x];
  }

  lemma NoEvents(d: Doc)
    ensures ApplyAll(d, []) == Ok(d)
  {
  }

  lemma {:induction false} FreshCases(d: Doc, api: Api, cases: seq<TestCase>)
    requires DistinctCases(cases) && forall c :: c in cases && c.implemented ==> c.name !in d.cases
    ensures ApplyAll(d, Events(api, cases)) == Ok(d.(cases := d.cases + DocCases(api, cases)))
    decreases |cases|
  {
    hide CaseEvents, DocArguments, DistinctCases, DistinctArguments, ApplyAll;
    if cases == [] {
      assert d.cases + map[] == d.cases;
      assert ApplyAll(d, []) == Ok(d) by { NoEvents(d); }
    } else {
      var c := cases[0];
      DistinctTails([], cases);
      if !c.implemented {
        FreshCases(d, api, cases[1..]);
      } else {
        FreshCase(d, api, c);
        ApplyConcat(d, CaseEvents(api, c), Events(api, cases[1..]));
        var x := DocCase(c.name, c.help, {api}, DocArguments(c.args));
        var d' := d.(cases := d.cases[c.name := x]);
        FreshCases(d', api, cases[1..]);
        DocCasesKeys(api, cases[1..], c.name);
        MoveEntry(d.cases, c.name, x, DocCases(api, cases[1..]));
      }
    }
  }

  // ----- only clean texts survive

  ghost predicate CleanDocCase(name: string, c: DocCase) {
    && CleanName(name) && CleanName(c.name) && CleanHelp(c.help)
    && forall k :: k in c.args ==> CleanName(k) && CleanName(c.args[k].name) && CleanHelp(c.args[k].help)
  }

  ghost predicate CleanDoc(d: Doc) {
    CleanHelp(d.description) && forall k :: k in d.cases ==> CleanDocCase(k, d.cases[k])
  }

  lemma GetLineHasNoLineEnd(text: string)
    requires text != ""
    ensures '\n' !in GetLine(text).0 && |GetLine(text).1| < |text|
  {
  }

  lemma {:induction false} ParseLineKeepsClean(d: Doc, cur: Cursor, api: Api, line: string)
    requires CleanDoc(d) && '\n' !in line && ParseLine(d, cur, api, line).Ok?
    ensures var d' := ParseLine(d, cur, api, line).value.0;
            CleanDoc(d') && d'.baseName == d.baseName && d'.description == d.description
  {
    hide CleanName, CleanHelp, SplitTokens;
    var n := LeadingSpaces(line);
    assert '\n' !in line[n..];
    SplitIsClean(line[n..]);
    EmptyIsClean();
  }

  lemma EmptyIsClean()
    ensures CleanName("") && CleanHelp("")
  {
  }

  lemma {:induction false} ParseBodyKeepsClean(d: Doc, cur: Cursor, api: Api, text: string)
    requires CleanDoc(d) && ParseBody(d, cur, api, text).Ok?
    ensures CleanDoc(ParseBody(d, cur, api, text).value)
    ensures ParseBody(d, cur, api, text).value.baseName == d.baseName
    ensures ParseBody(d, cur, api, text).value.description == d.description
    decreases |text|
  {
    hide CleanDoc, ParseLine, GetLine;
    if text != "" {
      var (line, rest) := GetLine(text);
      GetLineHasNoLineEnd(text);
      ParseLineKeepsClean(d, cur, api, line);
      var (d', cur') := ParseLine(d, cur, api, line).value;
      ParseBodyKeepsClean(d', cur', api, rest);
    }
  }

  /** The parser never yields a text with a line end or a ';', nor a help text ending in '\r'. */
  lemma {:induction false} ParseYieldsClean(d: Doc, api: Api, text: string)
    requires CleanDoc(d) && Parse(d, api, text).Ok?
    ensures CleanDoc(Parse(d, api, text).value)
    ensures d.baseName == "" || CleanName(d.baseName)
  {
    hide ParseBody;
    var (line, rest) := GetLine(text);
    GetLineHasNoLineEnd(text);
    SplitIsClean(line);
    ParseBodyKeepsClean(ParseHeader(d, line).value, NoCase, api, rest);
  }

  lemma {:induction false} CleanDocMeansClean(api: Api, b: Benchmark)
    requires DistinctCases(b.cases) && CleanDoc(DocOf(api, b)) && CleanName(b.name)
    ensures Clean(b)
  {
    hide CleanName, CleanHelp;
    forall c | c in b.cases && c.implemented
      ensures CleanCase(c)
    {
      DocCasesValues(api, b.cases, c);
      assert CleanDocCase(c.name, DocOf(api, b).cases[c.name]);
      DocArgumentsKeys(c.args);
    }
  }

  /** Exact condition: for a benchmark the printer accepts, with distinct test case names and
      argument keys, parsing the printed text rebuilds exactly that benchmark if and only if all its
      printed texts are clean. (The printer lets ';' in argument help, line ends and trailing
      carriage returns through.) */
  lemma {:induction false} RoundTripIff(api: Api, b: Benchmark)
    requires PrintDocs(b).ok && DistinctCases(b.cases)
    ensures Parse(Doc(b.name, "", map[]), api, PrintDocs(b).out) == Ok(DocOf(api, b)) <==> Clean(b)
  {
    hide Parse, PrintDocs, CleanName, CleanHelp;
    var d := Doc(b.name, "", map[]);
    EmptyIsClean();
    if Clean(b) {
      ParsePrinted(d, api, b);
      FreshCases(d.(description := b.description), api, b.cases);
      assert map[] + DocCases(api, b.cases) == DocCases(api, b.cases);
    }
    if Parse(d, api, PrintDocs(b).out) == Ok(DocOf(api, b)) {
      ParseYieldsClean(d, api, PrintDocs(b).out);
      CleanDocMeansClean(api, b);
    }
  }
}
