/** Generation of the plan elements from the collected records: the
    `Generate*` methods of MeterMaid.rb (except the CSV and document ones),
    each as a function from a record to its token fragment.
 */
module Generate {
  import opened Wrappers
  import opened Text
  import opened Tree
  import opened Plan
  import opened Records
  import opened Folds

  // ---------------------------------------------------------------------
  // Timers
  // ---------------------------------------------------------------------

  /** A Gaussian random timer with an empty companion subtree. */
  function GenerateTimer(t: TimerSpec): (r: seq<Token>)
    ensures WellFormed(r) && |r| == 2 && r[1] == Empty
    ensures r[0].GaussianTimer? && r[0].name == t.name && r[0].delay == t.delay && r[0].range == t.range
  {
    WellFormedLeaf(GaussianTimer(t.name, t.delay, t.range));
    [GaussianTimer(t.name, t.delay, t.range), Empty]
  }

  // ---------------------------------------------------------------------
  // Regular-expression extractors
  // ---------------------------------------------------------------------

  /** The defaults a `regex` block is merged over. */
  const RegexDefaults: map<string, string> := map[
    "name" := "Regular Expression Extractor",
    "refname" := "UNDEFINED_REF_NAME",
    "expression" := "",
    "matchnum" := "0",
    "defaultvalue" := "REGEX_ERROR",
    "type" := "body",
    "template" := "$1$"]

  /** The `useHeaders` property chosen by the block's `type` (exact
      comparison; unknown types fall back to the body). */
  function UseHeaders(kind: string): string {
    match kind
    case "body" => "false"
    case "headers" => "true"
    case "url" => "URL"
    case _ => "false"
  }

  /** Headers are searched exactly for `headers`, the URL exactly for
      `url`, and the body for every other type. */
  lemma UseHeadersChoice(kind: string)
    ensures UseHeaders(kind) == "true" <==> kind == "headers"
    ensures UseHeaders(kind) == "URL" <==> kind == "url"
    ensures UseHeaders(kind) == "false" <==> kind != "headers" && kind != "url"
  {
  }

  /** A regular-expression extractor.  The user's block is merged over the
      defaults (each property is the block's when it gives one and the
      default otherwise); the test name is read from the misspelled key
      `nane`, which has no default. */
  function GenerateRegex(m: map<string, string>): (r: seq<Token>)
    ensures WellFormed(r) && |r| == 2 && r[1] == Empty && r[0].RegexExtractor?
  {
    var e := RegexExtractor(
      Lookup(m, "nane", ""),
      Lookup(m, "matchnum", "0"),
      Lookup(m, "refname", "UNDEFINED_REF_NAME"),
      Lookup(m, "defaultvalue", "REGEX_ERROR"),
      Lookup(m, "template", "$1$"),
      UseHeaders(Lookup(m, "type", "body")),
      Lookup(m, "expression", ""));
    WellFormedLeaf(e);
    [e, Empty]
  }

  /** The extractor shows the block merged over the defaults, except for
      its name, which is read from a key that neither gives: the name is
      always empty unless the block has a `nane` child. */
  lemma RegexMerged(m: map<string, string>)
    ensures var merged, e := RegexDefaults + m, GenerateRegex(m)[0];
      e.matchNumber == merged["matchnum"] &&
      e.refName == merged["refname"] &&
      e.defaultValue == merged["defaultvalue"] &&
      e.template == merged["template"] &&
      e.useHeaders == UseHeaders(merged["type"]) &&
      e.regex == merged["expression"] &&
      e.name == Lookup(merged, "nane", "")
  {
    assert "nane" !in RegexDefaults;
  }

  /** The `name` of a regex block has no effect on the output. */
  lemma RegexNameIgnored(m: map<string, string>, x: string)
    ensures GenerateRegex(m["name" := x]) == GenerateRegex(m)
  {
    var a, b := GenerateRegex(m["name" := x]), GenerateRegex(m);
    assert a[0] == b[0];
    assert a == [a[0], a[1]] && b == [b[0], b[1]];
  }

  // ---------------------------------------------------------------------
  // Response assertions
  // ---------------------------------------------------------------------

  /** `not` counts as set iff its text matches `/true/i`. */
  predicate Negated(f: map<string, string>) {
    "not" in f && ContainsCI(f["not"], "true")
  }

  /** The `Assertion.test_type` of an `asserts` block. */
  function AssertTestType(f: map<string, string>): (t: int)
    ensures t == 1 || t == 2 || t == 5 || t == 6
  {
    if "type" !in f then 2
    else if ContainsCI(f["type"], "contains") then (if Negated(f) then 6 else 2)
    else if ContainsCI(f["type"], "matches") then (if Negated(f) then 5 else 1)
    else 2
  }

  /** Bit 1 of JMeter's `test_type`: regular-expression match. */
  predicate MatchBit(t: int) {
    t % 2 == 1
  }

  /** Bit 2: substring containment. */
  predicate ContainsBit(t: int) {
    (t / 2) % 2 == 1
  }

  /** Bit 4: negation. */
  predicate NotBit(t: int) {
    (t / 4) % 2 == 1
  }

  /** What JMeter reads from the emitted `test_type`: exactly one of match
      and contains is selected, match only when the type names `matches`
      and not `contains`, and negation only when `not` is true AND the type
      names one of the two -- a `not` without a recognised type is lost. */
  lemma AssertTestTypeMeaning(f: map<string, string>)
    ensures var t := AssertTestType(f);
      MatchBit(t) != ContainsBit(t) &&
      (MatchBit(t) <==> "type" in f && !ContainsCI(f["type"], "contains") && ContainsCI(f["type"], "matches")) &&
      (NotBit(t) <==> Negated(f) && "type" in f && (ContainsCI(f["type"], "contains") || ContainsCI(f["type"], "matches")))
  {
  }

  /** A response assertion over the block's literals, or nothing when the
      block has no literal. */
  function GenerateAsserts(a: AssertSpec): (r: Option<seq<Token>>)
    ensures r.None? <==> |a.literals| == 0
    ensures r.Some? ==> WellFormed(r.value) && |r.value| == 2 && r.value[1] == Empty
    ensures r.Some? ==> r.value[0].ResponseAssertion? && r.value[0].literals == a.literals
    ensures r.Some? ==> r.value[0].testType == AssertTestType(a.fields)
    ensures r.Some? ==> r.value[0].name == Lookup(a.fields, "name", "!Unnamed Assert!")
  {
    if |a.literals| < 1 then None
    else
      var e := ResponseAssertion(Lookup(a.fields, "name", "!Unnamed Assert!"), AssertTestType(a.fields), a.literals);
      WellFormedLeaf(e);
      Some([e, Empty])
  }

  // ---------------------------------------------------------------------
  // HTTP samplers
  // ---------------------------------------------------------------------

  predicate IsRegexToken(t: Token) { t.RegexExtractor? }
  predicate IsTimerToken(t: Token) { t.GaussianTimer? }
  predicate IsAssertToken(t: Token) { t.ResponseAssertion? }
  predicate IsResultToken(t: Token) { t.ResultCollector? }

  /** The thread group of a CSV test run; none of the generators below
      emits one. */
  predicate IsGroupToken(t: Token) { t.CsvThreadGroup? }

  /** The extractors of a sampler, in list order. */
  function GenRegexes(rs: seq<map<string, string>>): (r: seq<Token>)
    ensures WellFormed(r) && Close !in r && |r| == 2 * |rs|
  {
    if |rs| == 0 then []
    else
      WellFormedAppend(GenerateRegex(rs[0]), GenRegexes(rs[1..]));
      GenerateRegex(rs[0]) + GenRegexes(rs[1..])
  }

  /** The extractor list holds one extractor per block and no other
      element of a sampler's body. */
  lemma {:induction false} RegexTallies(rs: seq<map<string, string>>)
    ensures Tally(GenRegexes(rs), IsRegexToken) == |rs| && Tally(GenRegexes(rs), IsTimerToken) == 0
    ensures Tally(GenRegexes(rs), IsAssertToken) == 0 && Tally(GenRegexes(rs), IsResultToken) == 0
    ensures Tally(GenRegexes(rs), IsGroupToken) == 0
  {
    if |rs| > 0 {
      var head, rest := GenerateRegex(rs[0]), GenRegexes(rs[1..]);
      RegexTallies(rs[1..]);
      assert head == [head[0], head[1]];
      TallyPair(head[0], head[1], rest, IsRegexToken);
      TallyPair(head[0], head[1], rest, IsTimerToken);
      TallyPair(head[0], head[1], rest, IsAssertToken);
      TallyPair(head[0], head[1], rest, IsResultToken);
      TallyPair(head[0], head[1], rest, IsGroupToken);
    }
  }

  /** The timers of a sampler, in list order. */
  function GenTimers(ts: seq<TimerSpec>): (r: seq<Token>)
    ensures WellFormed(r) && Close !in r && |r| == 2 * |ts|
  {
    if |ts| == 0 then []
    else
      WellFormedAppend(GenerateTimer(ts[0]), GenTimers(ts[1..]));
      GenerateTimer(ts[0]) + GenTimers(ts[1..])
  }

  /** The timer list holds one timer per timer record and no other element
      of a sampler's body. */
  lemma {:induction false} TimerTallies(ts: seq<TimerSpec>)
    ensures Tally(GenTimers(ts), IsTimerToken) == |ts| && Tally(GenTimers(ts), IsRegexToken) == 0
    ensures Tally(GenTimers(ts), IsAssertToken) == 0 && Tally(GenTimers(ts), IsResultToken) == 0
    ensures Tally(GenTimers(ts), IsGroupToken) == 0
  {
    if |ts| > 0 {
      var head, rest := GenerateTimer(ts[0]), GenTimers(ts[1..]);
      TimerTallies(ts[1..]);
      assert head == [head[0], head[1]];
      TallyPair(head[0], head[1], rest, IsRegexToken);
      TallyPair(head[0], head[1], rest, IsTimerToken);
      TallyPair(head[0], head[1], rest, IsAssertToken);
      TallyPair(head[0], head[1], rest, IsResultToken);
      TallyPair(head[0], head[1], rest, IsGroupToken);
    }
  }

  /** The `i`-th extractor of the list is the `i`-th pair of tokens. */
  lemma {:induction false} RegexesInOrder(rs: seq<map<string, string>>, i: nat)
    requires i < |rs|
    ensures GenRegexes(rs)[2 * i..2 * i + 2] == GenerateRegex(rs[i])
  {
    if i > 0 {
      RegexesInOrder(rs[1..], i - 1);
      assert rs[1..][i - 1] == rs[i];
    }
    PairOf(GenRegexes(rs), GenerateRegex(rs[0]), GenRegexes(rs[1..]), i, GenerateRegex(rs[i]));
  }

  /** The `i`-th timer of the list is the `i`-th pair of tokens. */
  lemma {:induction false} TimersInOrder(ts: seq<TimerSpec>, i: nat)
    requires i < |ts|
    ensures GenTimers(ts)[2 * i..2 * i + 2] == GenerateTimer(ts[i])
  {
    if i > 0 {
      TimersInOrder(ts[1..], i - 1);
      assert ts[1..][i - 1] == ts[i];
    }
    PairOf(GenTimers(ts), GenerateTimer(ts[0]), GenTimers(ts[1..]), i, GenerateTimer(ts[i]));
  }

  /** The number of assertion blocks that produce an assertion. */
  function WithLiterals(asserts: seq<AssertSpec>): nat {
    if |asserts| == 0 then 0
    else (if |asserts[0].literals| > 0 then 1 else 0) + WithLiterals(asserts[1..])
  }

  /** The assertions of a sampler, in list order, skipping blocks without
      literals. */
  function GenAssertList(asserts: seq<AssertSpec>): (r: seq<Token>)
    ensures WellFormed(r) && Close !in r && |r| == 2 * WithLiterals(asserts)
  {
    if |asserts| == 0 then []
    else
      var rest := GenAssertList(asserts[1..]);
      match GenerateAsserts(asserts[0])
      case None => rest
      case Some(head) =>
        WellFormedAppend(head, rest);
        head + rest
  }

  /** The assertion list holds one assertion per block with literals and
      no other element of a sampler's body. */
  lemma {:induction false} AssertTallies(asserts: seq<AssertSpec>)
    ensures Tally(GenAssertList(asserts), IsAssertToken) == WithLiterals(asserts)
    ensures Tally(GenAssertList(asserts), IsRegexToken) == 0
    ensures Tally(GenAssertList(asserts), IsTimerToken) == 0 && Tally(GenAssertList(asserts), IsResultToken) == 0
    ensures Tally(GenAssertList(asserts), IsGroupToken) == 0
  {
    if |asserts| > 0 {
      AssertTallies(asserts[1..]);
      var rest := GenAssertList(asserts[1..]);
      match GenerateAsserts(asserts[0])
      case None =>
      case Some(head) =>
        assert head == [head[0], head[1]];
        TallyPair(head[0], head[1], rest, IsRegexToken);
        TallyPair(head[0], head[1], rest, IsTimerToken);
        TallyPair(head[0], head[1], rest, IsAssertToken);
        TallyPair(head[0], head[1], rest, IsResultToken);
        TallyPair(head[0], head[1], rest, IsGroupToken);
    }
  }

  /** The result collector of a `results` block: its `type` is the GUI
      class, its name falls back to the test name, and its file to
      `report-result.log`. */
  function GenResults(h: HttpSpec): (r: seq<Token>)
    ensures WellFormed(r) && Close !in r
    ensures h.results.None? ==> r == []
    ensures h.results.Some? ==> |r| == 2 && r[0].ResultCollector? && r[1] == Empty
    ensures h.results.Some? ==> r[0].filename == Lookup(h.results.value, "result_file", "report-result.log")
    ensures h.results.Some? ==> r[0].name == Lookup(h.results.value, "name", Lookup(h.fields, "name", ""))
    ensures Tally(r, IsResultToken) == (if h.results.Some? then 1 else 0)
    ensures Tally(r, IsRegexToken) == 0 && Tally(r, IsTimerToken) == 0 && Tally(r, IsAssertToken) == 0
    ensures Tally(r, IsGroupToken) == 0
  {
    match h.results
    case None => []
    case Some(res) =>
      var e := ResultCollector(
        Lookup(res, "type", ""),
        Lookup(res, "name", Lookup(h.fields, "name", "")),
        Lookup(res, "result_file", "report-result.log"));
      WellFormedLeaf(e);
      TallyPair(e, Empty, [], IsRegexToken);
      TallyPair(e, Empty, [], IsTimerToken);
      TallyPair(e, Empty, [], IsAssertToken);
      TallyPair(e, Empty, [], IsResultToken);
      TallyPair(e, Empty, [], IsGroupToken);
      assert [e, Empty] + [] == [e, Empty];
      [e, Empty]
  }

  /** The sampler element itself: name, domain, path and method from the
      flat fields, the upload file from the `upload` block, the request
      parameters from the last `data` block. */
  function SamplerOf(h: HttpSpec): Token {
    Sampler(
      Lookup(h.fields, "name", ""),
      Lookup(h.fields, "domain", ""),
      Lookup(h.fields, "path", ""),
      Lookup(h.fields, "method", ""),
      Lookup(h.upload, "filename", ""),
      Lookup(h.upload, "name_value", ""),
      Lookup(h.upload, "mimetype", ""),
      h.vars)
  }

  /** What follows the sampler's marker: extractors, then timers, then the
      assertions, then the result collector. */
  function HttpBody(h: HttpSpec): (r: seq<Token>)
    ensures WellFormed(r) && Close !in r
  {
    var a, b, c, d := GenRegexes(h.regexes), GenTimers(h.timers), GenAssertList(h.asserts), GenResults(h);
    WellFormedAppend(a, b);
    WellFormedAppend(a + b, c);
    WellFormedAppend(a + b + c, d);
    a + b + c + d
  }

  /** The body holds one extractor per `regex` block, one timer per timer,
      one assertion per block with literals and one result collector when
      a `results` block was given. */
  lemma BodyTallies(h: HttpSpec)
    ensures Tally(HttpBody(h), IsRegexToken) == |h.regexes|
    ensures Tally(HttpBody(h), IsTimerToken) == |h.timers|
    ensures Tally(HttpBody(h), IsAssertToken) == WithLiterals(h.asserts)
    ensures Tally(HttpBody(h), IsResultToken) == (if h.results.Some? then 1 else 0)
    ensures Tally(HttpBody(h), IsGroupToken) == 0
  {
    var a, b, c, d := GenRegexes(h.regexes), GenTimers(h.timers), GenAssertList(h.asserts), GenResults(h);
    RegexTallies(h.regexes);
    TimerTallies(h.timers);
    AssertTallies(h.asserts);
    TallyAppend4(a, b, c, d, IsRegexToken);
    TallyAppend4(a, b, c, d, IsTimerToken);
    TallyAppend4(a, b, c, d, IsAssertToken);
    TallyAppend4(a, b, c, d, IsResultToken);
    TallyAppend4(a, b, c, d, IsGroupToken);
  }

  /** The marker after the sampler: its subtree is opened exactly when the
      record says it has kids. */
  function HttpMarker(h: HttpSpec): Token {
    if h.hasKids then Open else Empty
  }

  /** The closing marker, present exactly when the subtree was opened. */
  function HttpTail(h: HttpSpec): seq<Token> {
    if h.hasKids then [Close] else []
  }

  lemma HttpWellFormed(h: HttpSpec)
    ensures WellFormed([SamplerOf(h), HttpMarker(h)] + HttpBody(h) + HttpTail(h))
  {
    var s, body := SamplerOf(h), HttpBody(h);
    if h.hasKids {
      WellFormedSubtree(s, body);
    } else {
      WellFormedLeaf(s);
      WellFormedAppend([s, Empty], body);
      assert [s, Empty] + body + [] == [s, Empty] + body;
    }
  }


  /** An HTTP sampler.  Its companion subtree is opened exactly when the
      record says it has kids; otherwise the sampler gets an empty subtree
      and whatever follows (timers, which do not set `hasKids`) becomes its
      sibling. */
  function GenerateHttp(h: HttpSpec): (r: seq<Token>)
    ensures WellFormed(r) && |r| >= 2
    ensures r[0] == SamplerOf(h) && r[1] == HttpMarker(h)
    ensures Close in r <==> h.hasKids
  {
    HttpWellFormed(h);
    PairAt(SamplerOf(h), HttpMarker(h), HttpBody(h), HttpTail(h));
    CloseFromTail(SamplerOf(h), HttpMarker(h), HttpBody(h), HttpTail(h));
    assert Close in HttpTail(h) <==> h.hasKids;
    [SamplerOf(h), HttpMarker(h)] + HttpBody(h) + HttpTail(h)
  }

  /** A sampler's output holds exactly the tokens its body does of each
      kind other than markers and samplers. */
  lemma HttpTally(h: HttpSpec, f: Token -> bool)
    requires !f(Open) && !f(Close) && !f(Empty) && !f(SamplerOf(h))
    ensures Tally(GenerateHttp(h), f) == Tally(HttpBody(h), f)
  {
    assert [Close][1..] == [];
    assert Tally(HttpTail(h), f) == 0;
    TallyAround(SamplerOf(h), HttpMarker(h), HttpBody(h), HttpTail(h), f);
  }

  /** A sampler's output holds one extractor per `regex` block, one timer
      per timer, one assertion per block with literals and one result
      collector when a `results` block was given. */
  lemma HttpContents(h: HttpSpec)
    ensures Tally(GenerateHttp(h), IsRegexToken) == |h.regexes|
    ensures Tally(GenerateHttp(h), IsTimerToken) == |h.timers|
    ensures Tally(GenerateHttp(h), IsAssertToken) == WithLiterals(h.asserts)
    ensures Tally(GenerateHttp(h), IsResultToken) == (if h.results.Some? then 1 else 0)
    ensures Tally(GenerateHttp(h), IsGroupToken) == 0
  {
    BodyTallies(h);
    HttpTally(h, IsRegexToken);
    HttpTally(h, IsTimerToken);
    HttpTally(h, IsAssertToken);
    HttpTally(h, IsResultToken);
    HttpTally(h, IsGroupToken);
  }

  /** A sampler's output, part by part. */
  lemma HttpParts(h: HttpSpec)
    ensures GenerateHttp(h) ==
      [SamplerOf(h), HttpMarker(h)] +
      (GenRegexes(h.regexes) + GenTimers(h.timers) + GenAssertList(h.asserts) + GenResults(h)) +
      HttpTail(h)
  {
  }

  /** The subtree of a sampler in order: after the sampler and its marker
      come the extractors, then the timers, then the assertions, then the
      result collector, and then only the closing marker when the subtree
      was opened.  One lemma per part. */
  lemma HttpRegexPart(h: HttpSpec)
    ensures var r, na := GenerateHttp(h), 2 * |h.regexes|;
      2 + na <= |r| && r[2..2 + na] == GenRegexes(h.regexes)
  {
    HttpPartsAt(h);
  }

  lemma HttpTimerPart(h: HttpSpec)
    ensures var r, na, nb := GenerateHttp(h), 2 * |h.regexes|, 2 * |h.timers|;
      2 + na + nb <= |r| && r[2 + na..2 + na + nb] == GenTimers(h.timers)
  {
    HttpPartsAt(h);
  }

  lemma HttpAssertPart(h: HttpSpec)
    ensures var r, na, nb, nc := GenerateHttp(h), 2 * |h.regexes|, 2 * |h.timers|, 2 * WithLiterals(h.asserts);
      2 + na + nb + nc <= |r| && r[2 + na + nb..2 + na + nb + nc] == GenAssertList(h.asserts)
  {
    HttpPartsAt(h);
  }

  lemma HttpResultPart(h: HttpSpec)
    ensures var r, na, nb, nc := GenerateHttp(h), 2 * |h.regexes|, 2 * |h.timers|, 2 * WithLiterals(h.asserts);
      var nd := |GenResults(h)|;
      2 + na + nb + nc + nd <= |r| &&
      r[2 + na + nb + nc..2 + na + nb + nc + nd] == GenResults(h) && r[2 + na + nb + nc + nd..] == HttpTail(h)
  {
    HttpPartsAt(h);
  }

  /** Every part of a sampler's output at its position. */
  lemma HttpPartsAt(h: HttpSpec)
    ensures var r, na, nb, nc := GenerateHttp(h), 2 * |h.regexes|, 2 * |h.timers|, 2 * WithLiterals(h.asserts);
      var nd := |GenResults(h)|;
      PartsAtLengths(r, [SamplerOf(h), HttpMarker(h)],
        GenRegexes(h.regexes), GenTimers(h.timers), GenAssertList(h.asserts), GenResults(h), HttpTail(h), na, nb, nc)
  {
    HttpParts(h);
    PartsAt(GenerateHttp(h), [SamplerOf(h), HttpMarker(h)],
      GenRegexes(h.regexes), GenTimers(h.timers), GenAssertList(h.asserts), GenResults(h), HttpTail(h),
      2 * |h.regexes|, 2 * |h.timers|, 2 * WithLiterals(h.asserts));
  }

  // ---------------------------------------------------------------------
  // Loops
  // ---------------------------------------------------------------------

  /** The loop runs forever unless its `forever` text matches `/false/i`;
      an absent `forever` reads as the default `false`. */
  predicate LoopForever(l: LoopSpec) {
    !ContainsCI(Lookup(l.fields, "forever", "false"), "false")
  }

  /** A forever loop has count -1; otherwise the given count, default 0. */
  function LoopCount(l: LoopSpec): string {
    if LoopForever(l) then "-1" else Lookup(l.fields, "count", "0")
  }

  /** The samplers of a loop body, in order. */
  function GenTests(tests: seq<HttpSpec>): (r: seq<Token>)
    ensures WellFormed(r)
    ensures |tests| > 0 ==> |r| >= 2 && r[0] == SamplerOf(tests[0])
  {
    if |tests| == 0 then []
    else
      var head := GenerateHttp(tests[0]);
      var rest := GenTests(tests[1..]);
      WellFormedAppend(head, rest);
      head + rest
  }

  /** The samplers of a loop body are each test's sampler output, one
      after another in list order. */
  lemma {:induction false} TestsGather(tests: seq<HttpSpec>)
    ensures GenTests(tests) == Gather(tests, GenerateHttp)
  {
    if |tests| > 0 {
      TestsGather(tests[1..]);
      GatherFront(tests, GenerateHttp);
    }
  }

  /** Two lists of tests one after the other generate one output after the
      other; a single test generates its own sampler output. */
  lemma TestsAppend(a: seq<HttpSpec>, b: seq<HttpSpec>)
    ensures GenTests(a + b) == GenTests(a) + GenTests(b)
    ensures |a| == 1 ==> GenTests(a) == GenerateHttp(a[0])
  {
    TestsGather(a + b);
    TestsGather(a);
    TestsGather(b);
    GatherAppend(a, b, GenerateHttp);
    if |a| == 1 {
      assert a == [a[0]];
      GatherOne(a[0], GenerateHttp);
    }
  }

  /** A loop body holds no thread group. */
  lemma {:induction false} TestsGroups(tests: seq<HttpSpec>)
    ensures Tally(GenTests(tests), IsGroupToken) == 0
  {
    if |tests| > 0 {
      TestsGroups(tests[1..]);
      HttpContents(tests[0]);
      TallyAppend(GenerateHttp(tests[0]), GenTests(tests[1..]), IsGroupToken);
    }
  }

  /** The loop controller element of a loop. */
  function LoopHead(l: LoopSpec): Token {
    LoopController(Lookup(l.fields, "name", ""), LoopCount(l), LoopForever(l))
  }

  /** A loop controller wrapping its samplers, or nothing when the loop
      collected no sampler. */
  function GenerateLoop(l: LoopSpec): (r: Option<seq<Token>>)
    ensures r.None? <==> |l.tests| == 0
    ensures r.Some? ==> WellFormed(r.value)
  {
    if |l.tests| == 0 then None
    else
      WellFormedSubtree(LoopHead(l), GenTests(l.tests));
      Some([LoopHead(l), Open] + GenTests(l.tests) + [Close])
  }

  /** A loop with samplers opens with the loop controller, whose subtree
      starts with the first sampler and closes last. */
  lemma LoopShape(l: LoopSpec)
    requires |l.tests| > 0
    ensures var r := GenerateLoop(l).value;
      |r| >= 4 && r[0] == LoopHead(l) && r[1] == Open && r[2] == SamplerOf(l.tests[0]) && r[|r| - 1] == Close
  {
    WrappedAt(LoopHead(l), GenTests(l.tests));
  }

  /** A loop's output holds no thread group. */
  lemma LoopGroups(l: LoopSpec)
    requires |l.tests| > 0
    ensures Tally(GenerateLoop(l).value, IsGroupToken) == 0
  {
    TestsGroups(l.tests);
    assert [Close][1..] == [];
    TallyAround(LoopHead(l), Open, GenTests(l.tests), [Close], IsGroupToken);
  }

  /** The `forever` flag is false exactly when `forever` is absent or its
      text matches `/false/i`; a forever loop always has count -1, any
      other loop the given count or 0. */
  lemma LoopFlags(l: LoopSpec)
    ensures !LoopForever(l) <==> "forever" !in l.fields || ContainsCI(l.fields["forever"], "false")
    ensures LoopForever(l) ==> LoopCount(l) == "-1"
    ensures !LoopForever(l) ==> LoopCount(l) == Lookup(l.fields, "count", "0")
  {
    if "forever" !in l.fields {
      assert MatchAt("false", "false", 0, true);
    }
  }

  // ---------------------------------------------------------------------
  // Controllers
  // ---------------------------------------------------------------------

  /** The throughput percentage: the `precent` field (sic) or 15.0. */
  function PercentOf(c: ControllerSpec): Percent {
    if "precent" in c.fields then GivenPercent(c.fields["precent"]) else DefaultPercent
  }

  /** The output of one entry of a controller's stack: samplers, loops
      (nothing when the loop generator returns nil) and nested
      controllers; a timer in a controller's stack is not generated. */
  function EntryTokens(e: StackEntry): (r: seq<Token>)
    decreases e, 2, 0
    ensures WellFormed(r)
    ensures r == [] <==> e.TimerEntry? || (e.LoopEntry? && |e.loop.tests| == 0)
  {
    match e
    case HttpEntry(h) => GenerateHttp(h)
    case LoopEntry(l) => (match GenerateLoop(l) case Some(ts) => ts case None => [])
    case ControllerEntry(d) => GenerateController(d)
    case TimerEntry(_) => []
  }

  /** The outputs of the first `i` entries of a controller's stack, in
      stack order. */
  function GenControllerItems(c: ControllerSpec, i: nat): (r: seq<Token>)
    requires i <= |c.stack|
    decreases c, 0, i
    ensures WellFormed(r)
  {
    if i == 0 then []
    else
      var prev := GenControllerItems(c, i - 1);
      var cur := EntryTokens(c.stack[i - 1]);
      WellFormedAppend(prev, cur);
      prev + cur
  }

  /** A simple controller holding a throughput controller holding the
      stack.  Both carry the constant index 0 instead of the controller's
      name. */
  function GenerateController(c: ControllerSpec): (r: seq<Token>)
    decreases c, 1, 0
    ensures WellFormed(r) && |r| >= 6
    ensures r[..4] == [GenericController(0), Open, ThroughputController(0, PercentOf(c)), Open]
    ensures r[|r| - 2..] == [Close, Close]
    ensures r[4..|r| - 2] == GenControllerItems(c, |c.stack|)
  {
    var p := ThroughputController(0, PercentOf(c));
    var items := GenControllerItems(c, |c.stack|);
    WellFormedSubtree(p, items);
    var inner := [p, Open] + items + [Close];
    WellFormedSubtree(GenericController(0), inner);
    var r := [GenericController(0), Open, p, Open] + items + [Close, Close];
    assert r == [GenericController(0), Open] + inner + [Close];
    assert r[4..|r| - 2] == items;
    r
  }

  /** The items generated from the first `i` entries depend only on those
      entries. */
  lemma ItemsStep(c: ControllerSpec, i: nat)
    requires 0 < i <= |c.stack|
    ensures GenControllerItems(c, i) == GenControllerItems(c, i - 1) + EntryTokens(c.stack[i - 1])
  {
  }

  /** The items of a controller are each entry's output, one after
      another in stack order. */
  lemma {:induction false} ItemsGather(c: ControllerSpec, i: nat)
    requires i <= |c.stack|
    ensures GenControllerItems(c, i) == Gather(c.stack[..i], EntryTokens)
  {
    if i > 0 {
      ItemsGather(c, i - 1);
      assert c.stack[..i][..i - 1] == c.stack[..i - 1];
      assert c.stack[..i][i - 1] == c.stack[i - 1];
    }
  }

  lemma {:induction false} ItemsAgree(c: ControllerSpec, d: ControllerSpec, i: nat)
    requires i <= |c.stack| && i <= |d.stack|
    requires c.stack[..i] == d.stack[..i]
    ensures GenControllerItems(c, i) == GenControllerItems(d, i)
  {
    if i > 0 {
      assert c.stack[..i - 1] == d.stack[..i - 1] by {
        assert c.stack[..i - 1] == c.stack[..i][..i - 1];
        assert d.stack[..i - 1] == d.stack[..i][..i - 1];
      }
      ItemsAgree(c, d, i - 1);
      ItemsStep(c, i);
      ItemsStep(d, i);
      assert c.stack[i - 1] == c.stack[..i][i - 1];
      assert d.stack[i - 1] == d.stack[..i][i - 1];
    }
  }

  /** Renaming a controller changes nothing: only the percentage and the
      stack reach the output. */
  lemma ControllerNameIgnored(c: ControllerSpec, name: string)
    ensures GenerateController(c.(fields := c.fields["name" := name])) == GenerateController(c)
  {
    var n := c.(fields := c.fields["name" := name]);
    ItemsAgree(n, c, |c.stack|);
    assert PercentOf(n) == PercentOf(c);
  }

  /** The CSV data sets an include splices into a controller are never
      generated. */
  lemma ControllerCsvIgnored(c: ControllerSpec)
    ensures GenerateController(c.(csv := [])) == GenerateController(c)
  {
    ItemsAgree(c.(csv := []), c, |c.stack|);
  }

  /** Two controllers with the same percentage and the same generated
      items generate the same output. */
  lemma ControllerAgree(c: ControllerSpec, d: ControllerSpec)
    requires PercentOf(c) == PercentOf(d)
    requires GenControllerItems(c, |c.stack|) == GenControllerItems(d, |d.stack|)
    ensures GenerateController(c) == GenerateController(d)
  {
  }

  /** A timer appended to a controller's stack adds no items. */
  lemma ItemsTimerDropped(c: ControllerSpec, t: TimerSpec)
    ensures var e := c.(stack := c.stack + [TimerEntry(t)]);
      GenControllerItems(e, |e.stack|) == GenControllerItems(c, |c.stack|)
  {
    var e := c.(stack := c.stack + [TimerEntry(t)]);
    var n := |c.stack|;
    assert EntryTokens(e.stack[n]) == [];
    assert GenControllerItems(e, n + 1) == GenControllerItems(e, n) + [];
    assert e.stack[..n] == c.stack[..n];
    ItemsAgree(e, c, n);
  }

  /** A timer in a controller's stack is dropped. */
  lemma ControllerTimerDropped(c: ControllerSpec, t: TimerSpec)
    ensures GenerateController(c.(stack := c.stack + [TimerEntry(t)])) == GenerateController(c)
  {
    ItemsTimerDropped(c, t);
    ControllerAgree(c.(stack := c.stack + [TimerEntry(t)]), c);
  }
}
