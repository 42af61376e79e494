/** Several binaries of one benchmark, one per API, merged into one documentation entry. */
module DocsMerge {
  import opened Basics
  import opened DocsText
  import opened DocsPrinter
  import opened DocsParser
  import opened DocsRoundTrip

  datatype Instance = Instance(api: Api, b: Benchmark)

  /** Run every instance and read its output; an instance that reports an error is fatal. */
  function ParseAll(d: Doc, insts: seq<Instance>): Result<Doc, string>
    decreases |insts|
  {
    if insts == [] then Ok(d)
    else if !PrintDocs(insts[0].b).ok then Fatal("Generating docs failed")
    else
      match Parse(d, insts[0].api, PrintDocs(insts[0].b).out)
      case Fatal(message) => Fatal(message)
      case Ok(d') => ParseAll(d', insts[1..])
  }

  method ReadInstances(start: Doc, insts: seq<Instance>) returns (r: Result<Doc, string>)
    ensures r == ParseAll(start, insts)
  {
    var d, k := start, 0;
    while k < |insts|
      invariant 0 <= k <= |insts| && ParseAll(d, insts[k..]) == ParseAll(start, insts)
    {
      var code, out := GenerateDocs(insts[k].b);
      if code != 0 {
        return Fatal("Generating docs failed");
      }
      var parsed := ParseOutput(d, insts[k].api, out);
      if parsed.Fatal? {
        return parsed;
      }
      assert insts[k..][1..] == insts[k + 1..];
      d, k := parsed.value, k + 1;
    }
    return Ok(d);
  }

  // ----- what a merged entry must say about a sequence of lines

  ghost predicate IsCase(es: seq<Event>, i: int, name: string) {
    0 <= i < |es| && es[i].CaseEvent? && es[i].name == name
  }

  ghost predicate IsArgument(es: seq<Event>, i: int, test: string, key: string) {
    0 <= i < |es| && es[i].ArgumentEvent? && es[i].test == test && es[i].key == key
  }

  /** A text that follows another one about the same thing: the first text that is not empty stays. */
  predicate Follows(text: string, next: string) {
    text == "" || text == next
  }

  /** The lines the parser accepts: no API lists a test case twice, texts follow each other, and every
      argument follows a line of its test case. */
  ghost predicate Accepted(es: seq<Event>) {
    && (forall i, j, c :: i < j && IsCase(es, i, c) && IsCase(es, j, c) ==>
          es[i].api != es[j].api && Follows(es[i].help, es[j].help))
    && (forall i, j, c, k :: i < j && IsArgument(es, i, c, k) && IsArgument(es, j, c, k) ==>
        Follows(es[i].help, es[j].help))
    && (forall i, c, k :: IsArgument(es, i, c, k) ==> exists j :: j < i && IsCase(es, j, c))
  }

  ghost predicate HasCase(es: seq<Event>, c: string) {
    exists i :: IsCase(es, i, c)
  }

  ghost predicate HasApi(es: seq<Event>, c: string, api: Api) {
    exists i :: IsCase(es, i, c) && es[i].api == api
  }

  ghost predicate HasArgument(es: seq<Event>, c: string, k: string) {
    exists i :: IsArgument(es, i, c, k)
  }

  /** The only text a collection of lines has, or the empty one. */
  ghost predicate TextOfCase(text: string, es: seq<Event>, c: string) {
    && (forall i :: IsCase(es, i, c) ==> Follows(es[i].help, text))
    && (text != "" ==> exists i :: IsCase(es, i, c) && es[i].help == text)
  }

  ghost predicate TextOfArgument(text: string, es: seq<Event>, c: string, k: string) {
    && (forall i :: IsArgument(es, i, c, k) ==> Follows(es[i].help, text))
    && (text != "" ==> exists i :: IsArgument(es, i, c, k) && es[i].help == text)
  }

  /** An entry names its test case, has exactly the APIs and arguments the lines give it, and their
      help texts. */
  ghost predicate DescribesCase(x: DocCase, es: seq<Event>, c: string) {
    && x.name == c && TextOfCase(x.help, es, c)
    && (forall api :: api in x.apis <==> HasApi(es, c, api))
    && (forall k :: k in x.args <==> HasArgument(es, c, k))
    && (forall k :: k in x.args ==> x.args[k].name == k && TextOfArgument(x.args[k].help, es, c, k))
  }

  ghost predicate Describes(d: Doc, es: seq<Event>) {
    && (forall c :: c in d.cases <==> HasCase(es, c))
    && (forall c :: c in d.cases ==> DescribesCase(d.cases[c], es, c))
  }

  /** Event by event, a longer sequence of lines. */
  lemma {:induction false} Extended(es: seq<Event>, e: Event)
    ensures (es + [e])[|es|] == e
    ensures forall i, c :: IsCase(es + [e], i, c) <==> IsCase(es, i, c) || (i == |es| && e.CaseEvent? && e.name == c)
    ensures forall i, c :: IsCase(es, i, c) ==> (es + [e])[i] == es[i]
    ensures forall i, c, k :: IsArgument(es + [e], i, c, k) <==>
              IsArgument(es, i, c, k) || (i == |es| && e.ArgumentEvent? && e.test == c && e.key == k)
    ensures forall i, c, k :: IsArgument(es, i, c, k) ==> (es + [e])[i] == es[i]
  {
  }

  /** What acceptance of one more line depends on. */
  ghost predicate AcceptsLine(es: seq<Event>, e: Event) {
    match e
    case CaseEvent(api, name, help) =>
      !HasApi(es, name, api) && forall i :: IsCase(es, i, name) ==> Follows(es[i].help, help)
    case ArgumentEvent(test, key, help) =>
      HasCase(es, test) && forall i :: IsArgument(es, i, test, key) ==> Follows(es[i].help, help)
  }

  lemma {:induction false} AcceptedStep(es: seq<Event>, e: Event)
    ensures Accepted(es + [e]) <==> Accepted(es) && AcceptsLine(es, e)
  {
    hide Follows;
    var more, n := es + [e], |es|;
    Extended(es, e);
    assert forall i, c :: IsCase(es, i, c) ==> i < n;
    assert forall i, c, k :: IsArgument(es, i, c, k) ==> i < n;
    hide IsCase, IsArgument;
    if Accepted(more) {
      assert e.CaseEvent? ==> IsCase(more, n, e.name);
      assert e.ArgumentEvent? ==> IsArgument(more, n, e.test, e.key);
      forall i, c, k | IsArgument(es, i, c, k)
        ensures exists j :: j < i && IsCase(es, j, c)
      {
        assert IsArgument(more, i, c, k);
        var j :| j < i && IsCase(more, j, c);
        assert IsCase(es, j, c);
      }
    }
  }

  lemma {:induction false} HasStep(es: seq<Event>, e: Event, c: string)
    ensures HasCase(es + [e], c) <==> HasCase(es, c) || (e.CaseEvent? && e.name == c)
    ensures forall api :: HasApi(es + [e], c, api) <==>
              HasApi(es, c, api) || (e.CaseEvent? && e.name == c && e.api == api)
    ensures forall k :: HasArgument(es + [e], c, k) <==>
              HasArgument(es, c, k) || (e.ArgumentEvent? && e.test == c && e.key == k)
  {
    Extended(es, e);
    hide IsCase, IsArgument;
    if e.CaseEvent? {
      assert IsCase(es + [e], |es|, e.name);
    } else {
      assert IsArgument(es + [e], |es|, e.test, e.key);
    }
  }

  lemma {:induction false} TextStep(text: string, es: seq<Event>, e: Event, c: string)
    requires TextOfCase(text, es, c)
    ensures !(e.CaseEvent? && e.name == c) ==> TextOfCase(text, es + [e], c)
    ensures e.CaseEvent? && e.name == c && Follows(text, e.help) ==> TextOfCase(e.help, es + [e], c)
    ensures (forall i :: IsCase(es, i, c) ==> Follows(es[i].help, e.help)) <==> Follows(text, e.help)
  {
    Extended(es, e);
    hide IsCase, IsArgument;
  }

  lemma {:induction false} ArgumentTextStep(text: string, es: seq<Event>, e: Event, c: string, k: string)
    requires TextOfArgument(text, es, c, k)
    ensures !(e.ArgumentEvent? && e.test == c && e.key == k) ==> TextOfArgument(text, es + [e], c, k)
    ensures e.ArgumentEvent? && e.test == c && e.key == k && Follows(text, e.help) ==>
            TextOfArgument(e.help, es + [e], c, k)
    ensures (forall i :: IsArgument(es, i, c, k) ==> Follows(es[i].help, e.help)) <==> Follows(text, e.help)
  {
    Extended(es, e);
    hide IsCase, IsArgument;
  }

  /** Nothing has been said about a test case or an argument that no line names. */
  lemma {:induction false} NothingSaid(es: seq<Event>, c: string, k: string)
    ensures !HasCase(es, c) ==> TextOfCase("", es, c) && forall api :: !HasApi(es, c, api)
    ensures !HasArgument(es, c, k) ==> TextOfArgument("", es, c, k)
  {
  }

  lemma {:induction false} ArgumentsHaveCases(es: seq<Event>, c: string)
    requires Accepted(es)
    ensures forall k :: HasArgument(es, c, k) ==> HasCase(es, c)
  {
    forall i, k | IsArgument(es, i, c, k)
      ensures HasCase(es, c)
    {
      var j :| j < i && IsCase(es, j, c);
    }
  }

  /** A line says nothing about other test cases. */
  lemma {:induction false} OtherCase(x: DocCase, es: seq<Event>, e: Event, c: string)
    requires DescribesCase(x, es, c) && c != NameOf(e)
    ensures DescribesCase(x, es + [e], c)
  {
    hide HasApi, HasArgument, HasCase, TextOfCase, TextOfArgument;
    HasStep(es, e, c);
    TextStep(x.help, es, e, c);
    forall k | k in x.args
      ensures TextOfArgument(x.args[k].help, es + [e], c, k)
    {
      ArgumentTextStep(x.args[k].help, es, e, c, k);
    }
  }

  /** One more test case line: it is read exactly when it is acceptable. */
  lemma {:induction false} CaseStep(d: Doc, es: seq<Event>, e: Event)
    requires Describes(d, es) && Accepted(es) && e.CaseEvent?
    ensures Apply(d, e).Ok? <==> AcceptsLine(es, e)
    ensures Apply(d, e).Ok? ==> Describes(Apply(d, e).value, es + [e])
  {
    hide Accepted, HasApi, HasArgument, HasCase, TextOfCase, TextOfArgument, IsCase, IsArgument;
    var x := CaseAt(d, e.name);
    NothingSaid(es, e.name, "");
    ArgumentsHaveCases(es, e.name);
    assert TextOfCase(x.help, es, e.name);
    TextStep(x.help, es, e, e.name);
    if Apply(d, e).Ok? {
      var d' := Apply(d, e).value;
      forall c
        ensures c in d'.cases <==> HasCase(es + [e], c)
        ensures c in d'.cases ==> DescribesCase(d'.cases[c], es + [e], c)
      {
        HasStep(es, e, c);
        if c != e.name && c in d.cases {
          OtherCase(d.cases[c], es, e, c);
        } else if c == e.name {
          CaseUpdated(x, es, e);
        }
      }
    }
  }

  /** The entry of the test case the line is about. */
  lemma {:induction false} CaseUpdated(x: DocCase, es: seq<Event>, e: Event)
    requires e.CaseEvent? && TextOfCase(x.help, es, e.name) && Follows(x.help, e.help)
    requires forall api :: api in x.apis <==> HasApi(es, e.name, api)
    requires forall k :: k in x.args <==> HasArgument(es, e.name, k)
    requires forall k :: k in x.args ==> x.args[k].name == k && TextOfArgument(x.args[k].help, es, e.name, k)
    ensures DescribesCase(DocCase(e.name, e.help, x.apis + {e.api}, x.args), es + [e], e.name)
  {
    hide HasApi, HasArgument, HasCase, TextOfCase, TextOfArgument;
    HasStep(es, e, e.name);
    TextStep(x.help, es, e, e.name);
    forall k | k in x.args
      ensures TextOfArgument(x.args[k].help, es + [e], e.name, k)
    {
      ArgumentTextStep(x.args[k].help, es, e, e.name, k);
    }
  }

  /** One more argument line. */
  lemma {:induction false} ArgumentStep(d: Doc, es: seq<Event>, e: Event)
    requires Describes(d, es) && e.ArgumentEvent?
    ensures Apply(d, e).Ok? <==> AcceptsLine(es, e)
    ensures Apply(d, e).Ok? ==> Describes(Apply(d, e).value, es + [e])
  {
    hide HasApi, HasArgument, HasCase, TextOfCase, TextOfArgument, IsCase, IsArgument;
    if e.test in d.cases {
      var x := d.cases[e.test];
      var a := if e.key in x.args then x.args[e.key] else DocArgument("", "");
      NothingSaid(es, e.test, e.key);
      assert TextOfArgument(a.help, es, e.test, e.key);
      ArgumentTextStep(a.help, es, e, e.test, e.key);
      if Apply(d, e).Ok? {
        var d' := Apply(d, e).value;
        forall c
          ensures c in d'.cases <==> HasCase(es + [e], c)
          ensures c in d'.cases ==> DescribesCase(d'.cases[c], es + [e], c)
        {
          HasStep(es, e, c);
          if c != e.test && c in d.cases {
            OtherCase(d.cases[c], es, e, c);
          } else if c == e.test {
            ArgumentUpdated(x, es, e);
          }
        }
      }
    }
  }

  lemma {:induction false} ArgumentUpdated(x: DocCase, es: seq<Event>, e: Event)
    requires e.ArgumentEvent? && DescribesCase(x, es, e.test)
    requires forall i :: IsArgument(es, i, e.test, e.key) ==> Follows(es[i].help, e.help)
    ensures DescribesCase(x.(args := x.args[e.key := DocArgument(e.key, e.help)]), es + [e], e.test)
  {
    hide HasApi, HasArgument, HasCase, TextOfCase, TextOfArgument;
    HasStep(es, e, e.test);
    TextStep(x.help, es, e, e.test);
    var args := x.args[e.key := DocArgument(e.key, e.help)];
    forall k | k in args
      ensures TextOfArgument(args[k].help, es + [e], e.test, k)
    {
      if k == e.key {
        NothingSaid(es, e.test, k);
        ArgumentTextStep(if k in x.args then x.args[k].help else "", es, e, e.test, k);
      } else {
        ArgumentTextStep(x.args[k].help, es, e, e.test, k);
      }
    }
  }

  /** Exact condition: reading lines into an empty entry succeeds if and only if they are acceptable,
      and then the entry says exactly what they say. */
  lemma {:induction false} AcceptedLinesAreCollected(d: Doc, es: seq<Event>)
    requires d.cases == map[]
    ensures ApplyAll(d, es).Ok? <==> Accepted(es)
    ensures ApplyAll(d, es).Ok? ==> Describes(ApplyAll(d, es).value, es)
    decreases |es|
  {
    hide Apply, Describes, Accepted, AcceptsLine;
    if es == [] {
      NothingDescribed(d);
    } else {
      var n := |es| - 1;
      var front, e := es[..n], es[n];
      assert es == front + [e];
      AcceptedStep(front, e);
      AcceptedLinesAreCollected(d, front);
      ApplyConcat(d, front, [e]);
      assert [e][1..] == [];
      if ApplyAll(d, front).Ok? {
        var d' := ApplyAll(d, front).value;
        if e.CaseEvent? {
          CaseStep(d', front, e);
        } else {
          ArgumentStep(d', front, e);
        }
      }
    }
  }

  lemma NothingDescribed(d: Doc)
    requires d.cases == map[]
    ensures Describes(d, []) && Accepted([])
  {
  }

  /** Texts need not agree: one that differs from an earlier empty one is accepted, and replaces it. */
  lemma {:induction false} DifferentAfterEmpty(name: string, help: string)
    requires help != ""
    ensures var es := [CaseEvent(OpenCL, name, ""), CaseEvent(L0, name, help)];
            var r := ApplyAll(Doc("b", "", map[]), es);
            Accepted(es) && !Consistent(es) && r.Ok? && name in r.value.cases && r.value.cases[name].help == help
  {
    var d := Doc("b", "", map[]);
    var first, second := CaseEvent(OpenCL, name, ""), CaseEvent(L0, name, help);
    var es := [first, second];
    assert IsCase(es, 0, name) && IsCase(es, 1, name);
    AcceptedLinesAreCollected(d, es);
    assert HasCase(es, name);
  }

  // ----- texts that agree

  /** Texts agree wherever they meet, no API lists a test case twice, and every argument follows a
      line of its test case. */
  ghost predicate Consistent(es: seq<Event>) {
    && (forall i, j, c :: IsCase(es, i, c) && IsCase(es, j, c) ==>
        es[i].help == es[j].help && (i != j ==> es[i].api != es[j].api))
    && (forall i, j, c, k :: IsArgument(es, i, c, k) && IsArgument(es, j, c, k) ==> es[i].help == es[j].help)
    && (forall i, c, k :: IsArgument(es, i, c, k) ==> exists j :: j < i && IsCase(es, j, c))
  }

  lemma ConsistentIsAccepted(es: seq<Event>)
    requires Consistent(es)
    ensures Accepted(es)
  {
  }

  // ----- the lines of several instances

  function AllEvents(insts: seq<Instance>): seq<Event> {
    if insts == [] then [] else Events(insts[0].api, insts[0].b.cases) + AllEvents(insts[1..])
  }

  /** Line e is printed for test case c. */
  ghost predicate Prints(api: Api, c: TestCase, e: Event) {
    match e
    case CaseEvent(a, name, help) => a == api && name == c.name && help == c.help
    case ArgumentEvent(test, key, help) => test == c.name && Argument(key, help) in c.args
  }

  lemma {:induction false} ArgumentEventsMeaning(test: string, args: seq<Argument>, e: Event)
    ensures e in ArgumentEvents(test, args) <==> e.ArgumentEvent? && e.test == test && Argument(e.key, e.help) in args
  {
    if args != [] {
      ArgumentEventsMeaning(test, args[1..], e);
      assert args == [args[0]] + args[1..];
    }
  }

  lemma {:induction false} EventsMeaning(api: Api, cases: seq<TestCase>, e: Event)
    ensures e in Events(api, cases) <==> exists c :: c in cases && c.implemented && Prints(api, c, e)
  {
    if cases != [] {
      var c := cases[0];
      EventsMeaning(api, cases[1..], e);
      ArgumentEventsMeaning(c.name, c.args, e);
      assert cases == [c] + cases[1..];
      assert e in CaseEvents(api, c) <==> Prints(api, c, e);
    }
  }

  /** Instance k prints line e for test case c. */
  ghost predicate PrintsAt(insts: seq<Instance>, k: int, c: TestCase, e: Event) {
    0 <= k < |insts| && c in insts[k].b.cases && c.implemented && Prints(insts[k].api, c, e)
  }

  lemma {:induction false} AllEventsMeaning(insts: seq<Instance>, e: Event)
    ensures e in AllEvents(insts) <==> exists k, c :: PrintsAt(insts, k, c, e)
  {
    hide Prints;
    if insts != [] {
      var first, rest := insts[0], insts[1..];
      EventsMeaning(first.api, first.b.cases, e);
      AllEventsMeaning(rest, e);
      assert forall k, c :: PrintsAt(rest, k, c, e) ==> PrintsAt(insts, k + 1, c, e);
      assert forall k, c :: PrintsAt(insts, k, c, e) && k > 0 ==> PrintsAt(rest, k - 1, c, e);
      assert forall c :: c in first.b.cases && c.implemented && Prints(first.api, c, e) ==> PrintsAt(insts, 0, c, e);
    }
  }

  // ----- consistency of the lines

  lemma {:induction false} ConsistentConcat(a: seq<Event>, b: seq<Event>)
    requires Consistent(a) && Consistent(b)
    requires forall e, e' :: e in a && e' in b && e.CaseEvent? && e'.CaseEvent? && e.name == e'.name ==>
             e.help == e'.help && e.api != e'.api
    requires forall e, e' ::
             e in a && e' in b && e.ArgumentEvent? && e'.ArgumentEvent? && e.test == e'.test && e.key == e'.key ==>
               e.help == e'.help
    ensures Consistent(a + b)
  {
    var es, n := a + b, |a|;
    forall i, c | IsCase(es, i, c)
      ensures if i < n then IsCase(a, i, c) && es[i] == a[i] else IsCase(b, i - n, c) && es[i] == b[i - n]
    {
    }
    forall i, c, k | IsArgument(es, i, c, k)
      ensures if i < n then IsArgument(a, i, c, k) && es[i] == a[i] else IsArgument(b, i - n, c, k) && es[i] == b[i - n]
    {
    }
    forall i, c, k | IsArgument(es, i, c, k)
      ensures exists j :: j < i && IsCase(es, j, c)
    {
      if i < n {
        var j :| j < i && IsCase(a, j, c);
        assert IsCase(es, j, c);
      } else {
        var j :| j < i - n && IsCase(b, j, c);
        assert IsCase(es, j + n, c);
      }
    }
  }

  lemma {:induction false} CaseEventsConsistent(api: Api, c: TestCase)
    requires DistinctArguments(c.args)
    ensures Consistent(CaseEvents(api, c))
  {
    var es := CaseEvents(api, c);
    forall i | 0 < i < |es|
      ensures es[i].ArgumentEvent? && es[i].test == c.name && Argument(es[i].key, es[i].help) in c.args
    {
      assert es[i] in ArgumentEvents(c.name, c.args);
      ArgumentEventsMeaning(c.name, c.args, es[i]);
    }
    assert IsCase(es, 0, c.name);
  }

  lemma {:induction false} EventsConsistent(api: Api, cases: seq<TestCase>)
    requires DistinctCases(cases)
    ensures Consistent(Events(api, cases))
  {
    hide Consistent, CaseEvents, DistinctCases, DistinctArguments;
    if cases == [] {
      EmptyConsistent();
    } else {
      DistinctTails([], cases);
      EventsConsistent(api, cases[1..]);
      if cases[0].implemented {
        CaseEventsConsistent(api, cases[0]);
        forall e, e' | e in CaseEvents(api, cases[0]) && e' in Events(api, cases[1..])
          ensures NameOf(e) != NameOf(e')
        {
          SameCase(api, cases[0], e);
          EventsMeaning(api, cases[1..], e');
        }
        ConsistentConcat(CaseEvents(api, cases[0]), Events(api, cases[1..]));
      }
    }
  }

  function NameOf(e: Event): string { if e.CaseEvent? then e.name else e.test }

  lemma SameCase(api: Api, c: TestCase, e: Event)
    requires e in CaseEvents(api, c)
    ensures NameOf(e) == c.name
  {
    ArgumentEventsMeaning(c.name, c.args, e);
  }

  lemma EmptyConsistent()
    ensures Consistent([])
  {
  }

  /** The texts of the instances agree: a test case (or an argument of one) that several of them list
      has one help text; test case names are distinct within an instance and no two instances with the
      same API list the same test case. */
  ghost predicate Agreeing(insts: seq<Instance>) {
    && (forall k :: 0 <= k < |insts| ==> DistinctCases(insts[k].b.cases))
    && (forall j, k, c, c' ::
          (0 <= j < |insts| && 0 <= k < |insts| && c in insts[j].b.cases && c' in insts[k].b.cases
           && c.implemented && c'.implemented && c.name == c'.name) ==>
          AgreeingCases(c, c') && (j != k ==> insts[j].api != insts[k].api))
  }

  ghost predicate AgreeingCases(c: TestCase, c': TestCase) {
    c.help == c'.help && forall a, a' :: a in c.args && a' in c'.args && a.key == a'.key ==> a.help == a'.help
  }

  lemma {:induction false} AgreeingTail(insts: seq<Instance>)
    requires insts != [] && Agreeing(insts)
    ensures Agreeing(insts[1..])
  {
  }

  lemma {:induction false} CrossAgreement(insts: seq<Instance>, e: Event, e': Event)
    requires insts != [] && Agreeing(insts) && NameOf(e) == NameOf(e')
    requires e in Events(insts[0].api, insts[0].b.cases) && e' in AllEvents(insts[1..])
    ensures e.CaseEvent? && e'.CaseEvent? ==> e.help == e'.help && e.api != e'.api
    ensures e.ArgumentEvent? && e'.ArgumentEvent? && e.key == e'.key ==> e.help == e'.help
  {
    hide DistinctCases, Events, AllEvents;
    EventsMeaning(insts[0].api, insts[0].b.cases, e);
    AllEventsMeaning(insts[1..], e');
    var c :| c in insts[0].b.cases && c.implemented && Prints(insts[0].api, c, e);
    var k, c' :| PrintsAt(insts[1..], k, c', e');
    assert insts[1..][k] == insts[k + 1];
    assert AgreeingCases(c, c') && insts[0].api != insts[k + 1].api;
  }

  lemma {:induction false} AllEventsConsistent(insts: seq<Instance>)
    requires Agreeing(insts)
    ensures Consistent(AllEvents(insts))
  {
    hide Consistent, Agreeing, Events;
    if insts == [] {
      EmptyConsistent();
    } else {
      AgreeingTail(insts);
      AllEventsConsistent(insts[1..]);
      FirstIsDistinct(insts);
      EventsConsistent(insts[0].api, insts[0].b.cases);
      forall e, e' | e in Events(insts[0].api, insts[0].b.cases) && e' in AllEvents(insts[1..])
             && NameOf(e) == NameOf(e')
        ensures e.CaseEvent? && e'.CaseEvent? ==> e.help == e'.help && e.api != e'.api
        ensures e.ArgumentEvent? && e'.ArgumentEvent? && e.key == e'.key ==> e.help == e'.help
      {
        CrossAgreement(insts, e, e');
      }
      ConsistentConcat(Events(insts[0].api, insts[0].b.cases), AllEvents(insts[1..]));
    }
  }

  lemma FirstIsDistinct(insts: seq<Instance>)
    requires insts != [] && Agreeing(insts)
    ensures DistinctCases(insts[0].b.cases)
  {
  }

  // ----- from texts to lines

  lemma {:induction false} ParseAllIsApplyAll(d: Doc, insts: seq<Instance>, name: string, description: string)
    requires SameBenchmark(insts, name, description)
    requires d.baseName == name && (d.description == description || (d.description == "" && insts != []))
    ensures ParseAll(d, insts) == ApplyAll(d.(description := description), AllEvents(insts))
    decreases |insts|
  {
    hide Parse, PrintDocs, Clean, Apply, Events;
    if insts != [] {
      var first := insts[0];
      ParsePrinted(d, first.api, first.b);
      var d0 := d.(description := description);
      ApplyConcat(d0, Events(first.api, first.b.cases), AllEvents(insts[1..]));
      var r := ApplyAll(d0, Events(first.api, first.b.cases));
      if r.Ok? {
        ApplyAllKeepsHeader(d0, Events(first.api, first.b.cases));
        ParseAllIsApplyAll(r.value, insts[1..], name, description);
      }
    }
  }

  lemma {:induction false} ApplyAllKeepsHeader(d: Doc, es: seq<Event>)
    requires ApplyAll(d, es).Ok?
    ensures ApplyAll(d, es).value.baseName == d.baseName && ApplyAll(d, es).value.description == d.description
    decreases |es|
  {
    if es != [] {
      ApplyAllKeepsHeader(Apply(d, es[0]).value, es[1..]);
    }
  }

  // ----- the merged entry

  ghost predicate Lists(inst: Instance, name: string) {
    exists c :: c in inst.b.cases && c.implemented && c.name == name
  }

  ghost predicate ListsArgument(inst: Instance, name: string, key: string) {
    exists c, a :: c in inst.b.cases && c.implemented && c.name == name && a in c.args && a.key == key
  }

  lemma {:induction false} LinesOfInstances(insts: seq<Instance>, name: string)
    ensures HasCase(AllEvents(insts), name) <==> exists k :: 0 <= k < |insts| && Lists(insts[k], name)
    ensures forall api :: HasApi(AllEvents(insts), name, api) <==>
              exists k :: 0 <= k < |insts| && insts[k].api == api && Lists(insts[k], name)
    ensures forall key :: HasArgument(AllEvents(insts), name, key) <==>
              exists k :: 0 <= k < |insts| && ListsArgument(insts[k], name, key)
  {
    hide AllEvents;
    var es := AllEvents(insts);
    forall i | IsCase(es, i, name)
      ensures exists k :: 0 <= k < |insts| && insts[k].api == es[i].api && Lists(insts[k], name)
    {
      AllEventsMeaning(insts, es[i]);
      var k, c :| PrintsAt(insts, k, c, es[i]);
    }
    forall i, key | IsArgument(es, i, name, key)
      ensures exists k :: 0 <= k < |insts| && ListsArgument(insts[k], name, key)
    {
      AllEventsMeaning(insts, es[i]);
      var k, c :| PrintsAt(insts, k, c, es[i]);
      assert ListsArgument(insts[k], name, key);
    }
    forall k | 0 <= k < |insts| && Lists(insts[k], name)
      ensures HasApi(es, name, insts[k].api)
    {
      var c :| c in insts[k].b.cases && c.implemented && c.name == name;
      var e := CaseEvent(insts[k].api, name, c.help);
      assert PrintsAt(insts, k, c, e);
      AllEventsMeaning(insts, e);
      var i :| 0 <= i < |es| && es[i] == e;
      assert IsCase(es, i, name);
    }
    forall k, key | 0 <= k < |insts| && ListsArgument(insts[k], name, key)
      ensures HasArgument(es, name, key)
    {
      var c, a :| c in insts[k].b.cases && c.implemented && c.name == name && a in c.args && a.key == key;
      var e := ArgumentEvent(name, key, a.help);
      assert Argument(key, a.help) == a;
      assert PrintsAt(insts, k, c, e);
      AllEventsMeaning(insts, e);
      var i :| 0 <= i < |es| && es[i] == e;
      assert IsArgument(es, i, name, key);
    }
  }

  /** The instances belong to one benchmark and their texts survive the line format. */
  ghost predicate SameBenchmark(insts: seq<Instance>, name: string, description: string) {
    forall k :: 0 <= k < |insts| ==>
      PrintDocs(insts[k].b).ok && Clean(insts[k].b) && insts[k].b.name == name && insts[k].b.description == description
  }

  /** Merging: reading the printed outputs succeeds if and only if their lines are acceptable, and then
      the entry has exactly the listed test cases, each with exactly the APIs that listed it and the
      union of its arguments. */
  lemma {:induction false} MergedExactly(insts: seq<Instance>, name: string, description: string)
    requires insts != [] && SameBenchmark(insts, name, description)
    ensures var r := ParseAll(Doc(name, "", map[]), insts);
            && (r.Ok? <==> Accepted(AllEvents(insts)))
            && (r.Ok? ==>
                  && r.value.baseName == name && r.value.description == description
                  && (forall c :: c in r.value.cases <==> exists k :: 0 <= k < |insts| && Lists(insts[k], c))
                  && (forall c, api :: c in r.value.cases ==>
                        (api in r.value.cases[c].apis <==> exists k ::
                             0 <= k < |insts| && insts[k].api == api && Lists(insts[k], c)))
                  && (forall c, key :: c in r.value.cases ==>
                        (key in r.value.cases[c].args <==> exists k ::
                             0 <= k < |insts| && ListsArgument(insts[k], c, key)))
                  && Describes(r.value, AllEvents(insts)))
  {
    hide ParseAll, AllEvents, Lists, ListsArgument, PrintDocs, Clean, HasCase, HasApi, HasArgument, IsCase,
         IsArgument, Accepted, TextOfCase, TextOfArgument;
    var d := Doc(name, "", map[]);
    ParseAllIsApplyAll(d, insts, name, description);
    AcceptedLinesAreCollected(d.(description := description), AllEvents(insts));
    if ParseAll(d, insts).Ok? {
      ApplyAllKeepsHeader(d.(description := description), AllEvents(insts));
      forall c {
        LinesOfInstances(insts, c);
      }
    }
  }

  /** In particular instances whose texts agree are merged. */
  lemma {:induction false} AgreeingInstancesMerge(insts: seq<Instance>, name: string, description: string)
    requires insts != [] && Agreeing(insts) && SameBenchmark(insts, name, description)
    ensures ParseAll(Doc(name, "", map[]), insts).Ok?
  {
    hide ParseAll, AllEvents, Lists, ListsArgument, PrintDocs, Clean, Agreeing, Consistent, Accepted, Describes,
         SameBenchmark;
    AllEventsConsistent(insts);
    ConsistentIsAccepted(AllEvents(insts));
    MergedExactly(insts, name, description);
  }

  /** One instance agrees with itself as soon as its names are distinct. */
  lemma {:induction false} AgreeingWithItself(inst: Instance)
    ensures Agreeing([inst]) <==> DistinctCases(inst.b.cases)
  {
    var insts := [inst];
    assert insts[0] == inst;
    if DistinctCases(inst.b.cases) {
      forall c, c' | c in inst.b.cases && c' in inst.b.cases && c.implemented && c'.implemented && c.name == c'.name
        ensures AgreeingCases(c, c')
      {
        var i :| 0 <= i < |inst.b.cases| && inst.b.cases[i] == c;
        var j :| 0 <= j < |inst.b.cases| && inst.b.cases[j] == c';
        assert i == j;
        assert DistinctArguments(c.args);
      }
    }
  }

  /** Two binaries of one benchmark agree if their APIs differ. */
  lemma {:induction false} TwoApisAgree(b: Benchmark, one: Api, two: Api)
    requires DistinctCases(b.cases) && one != two
    ensures Agreeing([Instance(one, b), Instance(two, b)])
  {
    hide DistinctCases, AgreeingCases;
    AgreeingWithItself(Instance(one, b));
    assert [Instance(one, b)][0] == Instance(one, b);
  }
}
