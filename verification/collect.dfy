/** Collection: the walk over the parsed input that builds the records
    (`GetDataFromTest`, `ProcessTimer`, `ProcessHttpElement`,
    `ProcessControllerElement`, `ProcessCSVElement` and the loop and repeat
    walks of MeterMaid.rb).

    Script includes are resolved through `files`, which maps an (escaped)
    path to the root of the document parsed from it; a path that is absent
    stands for a file that does not exist or does not parse.  `fuel` bounds
    the include depth: the source has no cycle guard, so a cyclic include
    exhausts the stack there and the fuel here, and both runs fail.
 */
module Collect {
  import opened Wrappers
  import opened Text
  import opened Tree
  import opened Plan
  import opened Records
  import opened Folds

  // ---------------------------------------------------------------------
  // Timers
  // ---------------------------------------------------------------------

  lemma TimerKeysKept(kids: seq<Node>)
    ensures "delay" in Harvest(kids, KeepNotTextLike) <==> Names(kids, "delay")
    ensures "range" in Harvest(kids, KeepNotTextLike) <==> Names(kids, "range")
    ensures "name" in Harvest(kids, KeepNotTextLike) <==> Names(kids, "name")
  {
    HarvestKept(kids, "delay");
    HarvestKept(kids, "range");
    HarvestKept(kids, "name");
  }

  /** A timer element.  Its non-text children are copied as escaped flat
      fields; when `delay` or `range` is missing the source's nil check
      reaches an undefined variable and raises, so the timer fails. */
  function ProcessTimer(n: Node): (r: Result<TimerSpec, Fault>)
    ensures r.Success? <==> Names(n.children, "delay") && Names(n.children, "range")
    ensures r.Failure? ==> r.error == TimerIncomplete(n.line)
  {
    var m := Harvest(n.children, KeepNotTextLike);
    TimerKeysKept(n.children);
    if "delay" in m && "range" in m then
      Success(TimerSpec(Lookup(m, "name", "Timer: Undefined Name"), m["delay"], m["range"]))
    else
      Failure(TimerIncomplete(n.line))
  }

  /** A complete timer holds the escaped contents of the last `delay`,
      `range` and `name` children, its name defaulting to "Timer: Undefined
      Name". */
  lemma TimerFields(n: Node)
    requires ProcessTimer(n).Success?
    ensures var t := ProcessTimer(n).value;
      LastKept(n.children, KeepNotTextLike, "delay").Some? &&
      t.delay == SafeStr(LastKept(n.children, KeepNotTextLike, "delay").value.content) &&
      LastKept(n.children, KeepNotTextLike, "range").Some? &&
      t.range == SafeStr(LastKept(n.children, KeepNotTextLike, "range").value.content) &&
      t.name ==
      (if LastKept(n.children, KeepNotTextLike, "name").Some?
       then SafeStr(LastKept(n.children, KeepNotTextLike, "name").value.content)
       else "Timer: Undefined Name")
  {
    HarvestLast(n.children, KeepNotTextLike, "delay");
    HarvestLast(n.children, KeepNotTextLike, "range");
    HarvestLast(n.children, KeepNotTextLike, "name");
  }

  // ---------------------------------------------------------------------
  // HTTP elements
  // ---------------------------------------------------------------------

  /** An `http` element before any child is read. */
  const NoHttp := HttpSpec(map[], [], [], [], map[], None, [], false)

  /** The child names with a branch (or a bookkeeping key) of their own;
      every other child becomes a flat field. */
  predicate HttpSpecial(name: string) {
    name in {"text", "timer", "asserts", "regex", "results", "upload", "data", "assert", "timers", "has_kids"}
  }

  function KeepHttpField(k: Node): bool {
    !HttpSpecial(k.name)
  }

  /** The children that make the sampler's subtree open: an `asserts`,
      `regex` or `results` block with children, or a flat child that
      overwrites the `has_kids` flag with a (truthy) string. */
  predicate SetsHasKids(k: Node) {
    ((k.name == "asserts" || k.name == "regex" || k.name == "results") && HasKids(k)) || k.name == "has_kids"
  }

  /** A child the HTTP processor accepts: not a flat child that would
      overwrite the `assert` or `timers` list, and not an incomplete
      timer. */
  predicate HttpChildOk(k: Node) {
    k.name != "assert" && k.name != "timers" && (k.name == "timer" && HasKids(k) ==> ProcessTimer(k).Success?)
  }

  function IsLiteralKid(k: Node): bool {
    !TextLike(k) && ContainsCI(k.name, "assert")
  }

  function KeepAssertField(k: Node): bool {
    !TextLike(k) && !ContainsCI(k.name, "assert")
  }

  /** The escaped content of a child. */
  function ContentOf(k: Node): string {
    SafeStr(k.content)
  }

  /** The escaped contents of the children matching `/assert/i`: the
      `j`-th literal is the content of the `j`-th such child. */
  function AssertLiterals(kids: seq<Node>): (r: seq<string>)
    ensures |r| == CountWhere(kids, IsLiteralKid) && |r| == |Chosen(kids, IsLiteralKid)|
    ensures forall j :: 0 <= j < |r| ==> r[j] == SafeStr(Chosen(kids, IsLiteralKid)[j].content)
  {
    SelectAt(kids, IsLiteralKid, ContentOf);
    CountChosen(kids, IsLiteralKid);
    Select(kids, IsLiteralKid, ContentOf)
  }

  /** An `asserts` block: its attributes, overwritten by its other non-text
      children, and its literals. */
  function ProcessAsserts(k: Node): AssertSpec {
    AssertSpec(k.attrs + Harvest(k.children, KeepAssertField), AssertLiterals(k.children))
  }

  /** A child of a `data` block that names a request parameter. */
  function HasNameAttr(k: Node): bool {
    "name" in k.attrs
  }

  /** The request parameter such a child names. */
  function VarOf(k: Node): (string, string) {
    (Lookup(k.attrs, "name", ""), SafeStr(k.content))
  }

  /** The request parameters of a `data` block: the `j`-th is the name
      attribute and escaped content of the `j`-th child that has a `name`
      attribute; other children are skipped. */
  function DataVars(kids: seq<Node>): (r: seq<(string, string)>)
    ensures |r| == CountWhere(kids, HasNameAttr) && |r| == |Chosen(kids, HasNameAttr)|
    ensures forall j :: 0 <= j < |r| ==>
      var k := Chosen(kids, HasNameAttr)[j]; "name" in k.attrs && r[j] == (k.attrs["name"], SafeStr(k.content))
  {
    SelectAt(kids, HasNameAttr, VarOf);
    CountChosen(kids, HasNameAttr);
    Select(kids, HasNameAttr, VarOf)
  }

  /** The blocks of an `http` element: a `timer`, `asserts`, `regex`,
      `results` or `upload` child counts only when it has children; a
      `data` child always replaces the request parameters. */
  function TimerBlock(k: Node): bool { k.name == "timer" && HasKids(k) }
  function AssertsBlock(k: Node): bool { k.name == "asserts" && HasKids(k) }
  function RegexBlock(k: Node): bool { k.name == "regex" && HasKids(k) }
  function ResultsBlock(k: Node): bool { k.name == "results" && HasKids(k) }
  function UploadBlock(k: Node): bool { k.name == "upload" && HasKids(k) }
  function DataBlock(k: Node): bool { k.name == "data" }

  /** What each block holds.  A timer that fails has no record (the walk
      fails with it). */
  function TimerOf(k: Node): TimerSpec { ProcessTimer(k).ValueOr(TimerSpec("", "", "")) }
  function RegexOf(k: Node): map<string, string> { Harvest(k.children, KeepAll) }
  function ResultsOf(k: Node): Option<map<string, string>> { Some(Harvest(k.children, KeepAll)) }
  function UploadOf(k: Node): map<string, string> { Harvest(k.children, KeepNotTextLike) }
  function VarsOf(k: Node): seq<(string, string)> { DataVars(k.children) }

  /** A `timer` child of an `http` element: appended when complete. */
  function TimerStep(h: HttpSpec, k: Node): (r: Result<HttpSpec, Fault>)
    requires k.name == "timer"
    ensures r.Success? <==> HttpChildOk(k)
    ensures r.Success? ==> r.value.hasKids == h.hasKids && r.value.fields == h.fields
  {
    if !HasKids(k) then Success(h)
    else
      var t :- ProcessTimer(k);
      Success(h.(timers := h.timers + [t]))
  }

  /** A child of an `http` element with a branch of its own. */
  function BlockStep(h: HttpSpec, k: Node): (r: HttpSpec)
    requires k.name in {"asserts", "regex", "results", "upload", "data"}
    ensures r.hasKids <==> h.hasKids || SetsHasKids(k)
    ensures r.fields == h.fields
  {
    if !HasKids(k) && k.name != "data" then h
    else if k.name == "asserts" then h.(hasKids := true, asserts := h.asserts + [ProcessAsserts(k)])
    else if k.name == "regex" then h.(hasKids := true, regexes := h.regexes + [RegexOf(k)])
    else if k.name == "results" then h.(hasKids := true, results := ResultsOf(k))
    else if k.name == "upload" then h.(upload := UploadOf(k))
    else h.(vars := VarsOf(k))
  }

  /** One child of an `http` element. */
  function HttpStep(h: HttpSpec, k: Node): (r: Result<HttpSpec, Fault>)
    ensures r.Success? <==> HttpChildOk(k)
    ensures r.Success? ==> (r.value.hasKids <==> h.hasKids || SetsHasKids(k))
    ensures r.Success? && KeepHttpField(k) ==> r.value.fields == h.fields[k.name := SafeStr(k.content)]
    ensures r.Success? && !KeepHttpField(k) ==> r.value.fields == h.fields
  {
    if k.name == "text" then Success(h)
    else if k.name == "timer" then TimerStep(h, k)
    else if k.name in {"asserts", "regex", "results", "upload", "data"} then Success(BlockStep(h, k))
    else if k.name == "assert" || k.name == "timers" then Failure(BookkeepingKey(k.name, k.line))
    else if k.name == "has_kids" then Success(h.(hasKids := true))
    else Success(h.(fields := h.fields[k.name := SafeStr(k.content)]))
  }

  /** The first `i` children of an `http` element, read in order. */
  function HttpFold(kids: seq<Node>, i: nat): (r: Result<HttpSpec, Fault>)
    requires i <= |kids|
    ensures r.Success? ==> r.value.fields == Harvest(kids[..i], KeepHttpField)
  {
    if i == 0 then Success(NoHttp)
    else
      var prev :- HttpFold(kids, i - 1);
      assert kids[..i][..i - 1] == kids[..i - 1];
      assert kids[..i][i - 1] == kids[i - 1];
      HttpStep(prev, kids[i - 1])
  }

  /** The walk over the first `i` children fails exactly when one of them
      fails. */
  lemma HttpFoldOk(kids: seq<Node>, i: nat)
    requires i <= |kids|
    ensures HttpFold(kids, i).Success? <==> forall j :: 0 <= j < i ==> HttpChildOk(kids[j])
  {
    var done := (k: nat) => k <= |kids| && HttpFold(kids, k).Success?;
    forall k | 0 < k <= i ensures done(k) <==> done(k - 1) && HttpChildOk(kids[k - 1]) {
      HttpFoldStep(kids, k);
    }
    PrefixAll(kids, HttpChildOk, done, i);
  }

  /** A walk over the first `i` children that succeeds opens the subtree
      exactly when one of them sets the flag. */
  lemma HttpFoldKids(kids: seq<Node>, i: nat)
    requires i <= |kids| && HttpFold(kids, i).Success?
    ensures HttpFold(kids, i).value.hasKids <==> exists j :: 0 <= j < i && SetsHasKids(kids[j])
  {
    var done := (k: nat) => k <= |kids| && HttpFold(kids, k).Success?;
    var flag := (k: nat) => k <= |kids| && HttpFold(kids, k).Success? && HttpFold(kids, k).value.hasKids;
    forall k | 0 < k <= i && done(k)
      ensures done(k - 1) && (flag(k) <==> flag(k - 1) || SetsHasKids(kids[k - 1]))
    {
      HttpFoldStep(kids, k);
    }
    PrefixAny(kids, SetsHasKids, done, flag, i);
  }

  /** One step of the walk over an `http` element's children. */
  lemma HttpFoldStep(kids: seq<Node>, i: nat)
    requires 0 < i <= |kids|
    ensures HttpFold(kids, i).Success? <==> HttpFold(kids, i - 1).Success? && HttpChildOk(kids[i - 1])
    ensures HttpFold(kids, i).Success? ==>
      (HttpFold(kids, i).value.hasKids <==> HttpFold(kids, i - 1).value.hasKids || SetsHasKids(kids[i - 1]))
  {
  }

  /** An `http` element; its flat fields are the escaped contents of the
      children without a branch of their own, the last one winning. */
  function ProcessHttpElement(n: Node): (r: Result<HttpSpec, Fault>)
    ensures r.Success? ==> r.value.fields == Harvest(n.children, KeepHttpField)
  {
    assert n.children[..|n.children|] == n.children;
    HttpFold(n.children, |n.children|)
  }

  /** An `http` element fails exactly when a child fails; its subtree is
      opened exactly when an `asserts`, `regex` or `results` child has
      children (or a `has_kids` child overwrites the flag) -- `timer`,
      `upload` and `data` never open it. */
  lemma HttpElementFacts(n: Node)
    ensures ProcessHttpElement(n).Success? <==> forall j :: 0 <= j < |n.children| ==> HttpChildOk(n.children[j])
    ensures ProcessHttpElement(n).Success? ==>
      (ProcessHttpElement(n).value.hasKids <==> exists j :: 0 <= j < |n.children| && SetsHasKids(n.children[j]))
  {
    assert n.children[..|n.children|] == n.children;
    HttpFoldOk(n.children, |n.children|);
    if ProcessHttpElement(n).Success? {
      HttpFoldKids(n.children, |n.children|);
    }
  }

  /** One child of an `http` element adds to the sampler's timers,
      assertion blocks and extractors as its block says, and leaves them
      alone otherwise. */
  lemma HttpStepAdded(h: HttpSpec, k: Node)
    requires HttpStep(h, k).Success?
    ensures var r := HttpStep(h, k).value;
      r.timers == h.timers + (if TimerBlock(k) then [TimerOf(k)] else []) &&
      r.asserts == h.asserts + (if AssertsBlock(k) then [ProcessAsserts(k)] else []) &&
      r.regexes == h.regexes + (if RegexBlock(k) then [RegexOf(k)] else [])
  {
    assert h.timers + [] == h.timers && h.asserts + [] == h.asserts && h.regexes + [] == h.regexes;
    if k.name == "timer" {
      assert TimerStep(h, k) == HttpStep(h, k);
    } else if k.name in {"asserts", "regex", "results", "upload", "data"} {
      assert HttpStep(h, k).value == BlockStep(h, k);
    }
  }

  /** One child of an `http` element replaces the sampler's result
      collector when it is a `results` block with children, and leaves it
      alone otherwise. */
  lemma HttpStepResults(h: HttpSpec, k: Node)
    requires HttpStep(h, k).Success?
    ensures HttpStep(h, k).value.results == (if ResultsBlock(k) then ResultsOf(k) else h.results)
  {
    if k.name == "timer" {
      assert TimerStep(h, k) == HttpStep(h, k);
    } else if k.name in {"asserts", "regex", "results", "upload", "data"} {
      assert HttpStep(h, k).value == BlockStep(h, k);
    }
  }

  /** Likewise for the upload and an `upload` block with children. */
  lemma HttpStepUpload(h: HttpSpec, k: Node)
    requires HttpStep(h, k).Success?
    ensures HttpStep(h, k).value.upload == (if UploadBlock(k) then UploadOf(k) else h.upload)
  {
    if k.name == "timer" {
      assert TimerStep(h, k) == HttpStep(h, k);
    } else if k.name in {"asserts", "regex", "results", "upload", "data"} {
      assert HttpStep(h, k).value == BlockStep(h, k);
    }
  }

  /** Likewise for the request parameters and a `data` block. */
  lemma HttpStepVars(h: HttpSpec, k: Node)
    requires HttpStep(h, k).Success?
    ensures HttpStep(h, k).value.vars == (if DataBlock(k) then VarsOf(k) else h.vars)
  {
    if k.name == "timer" {
      assert TimerStep(h, k) == HttpStep(h, k);
    } else if k.name in {"asserts", "regex", "results", "upload", "data"} {
      assert HttpStep(h, k).value == BlockStep(h, k);
    }
  }

  /** A walk that succeeds over `i` children succeeded over the first
      `i - 1`, and the last child's step succeeded on its result. */
  lemma HttpFoldShorter(kids: seq<Node>, i: nat)
    requires 0 < i <= |kids| && HttpFold(kids, i).Success?
    ensures HttpFold(kids, i - 1).Success?
    ensures HttpStep(HttpFold(kids, i - 1).value, kids[i - 1]).Success?
    ensures HttpFold(kids, i).value == HttpStep(HttpFold(kids, i - 1).value, kids[i - 1]).value
  {
  }

  /** The sampler's timers are those of its complete `timer` blocks, in
      document order. */
  lemma {:induction false} HttpTimersWalk(kids: seq<Node>, i: nat)
    requires i <= |kids| && HttpFold(kids, i).Success?
    ensures HttpFold(kids, i).value.timers == Select(kids[..i], TimerBlock, TimerOf)
  {
    var any := (k: Node) => true;
    var good := (m: nat) => m <= |kids| &&
      (HttpFold(kids, m).Success? ==> HttpFold(kids, m).value.timers == Select(kids[..m], TimerBlock, TimerOf));
    forall m | 0 < m <= i && good(m - 1) ensures good(m) {
      if HttpFold(kids, m).Success? {
        HttpFoldShorter(kids, m);
        HttpStepAdded(HttpFold(kids, m - 1).value, kids[m - 1]);
        SelectStepAt(kids, m, TimerBlock, TimerOf);
      }
    }
    PrefixKeeps(kids, any, good, i);
  }

  /** The sampler's assertion blocks are its `asserts` blocks with
      children, in document order. */
  lemma {:induction false} HttpAssertsWalk(kids: seq<Node>, i: nat)
    requires i <= |kids| && HttpFold(kids, i).Success?
    ensures HttpFold(kids, i).value.asserts == Select(kids[..i], AssertsBlock, ProcessAsserts)
  {
    var any := (k: Node) => true;
    var good := (m: nat) => m <= |kids| &&
      (HttpFold(kids, m).Success? ==> HttpFold(kids, m).value.asserts == Select(kids[..m], AssertsBlock, ProcessAsserts));
    forall m | 0 < m <= i && good(m - 1) ensures good(m) {
      if HttpFold(kids, m).Success? {
        HttpFoldShorter(kids, m);
        HttpStepAdded(HttpFold(kids, m - 1).value, kids[m - 1]);
        SelectStepAt(kids, m, AssertsBlock, ProcessAsserts);
      }
    }
    PrefixKeeps(kids, any, good, i);
  }

  /** The sampler's extractors are its `regex` blocks with children, in
      document order. */
  lemma {:induction false} HttpRegexesWalk(kids: seq<Node>, i: nat)
    requires i <= |kids| && HttpFold(kids, i).Success?
    ensures HttpFold(kids, i).value.regexes == Select(kids[..i], RegexBlock, RegexOf)
  {
    var any := (k: Node) => true;
    var good := (m: nat) => m <= |kids| &&
      (HttpFold(kids, m).Success? ==> HttpFold(kids, m).value.regexes == Select(kids[..m], RegexBlock, RegexOf));
    forall m | 0 < m <= i && good(m - 1) ensures good(m) {
      if HttpFold(kids, m).Success? {
        HttpFoldShorter(kids, m);
        HttpStepAdded(HttpFold(kids, m - 1).value, kids[m - 1]);
        SelectStepAt(kids, m, RegexBlock, RegexOf);
      }
    }
    PrefixKeeps(kids, any, good, i);
  }

  /** The sampler's result collector is that of its last `results` block
      with children, if any. */
  lemma {:induction false} HttpResultsWalk(kids: seq<Node>, i: nat)
    requires i <= |kids| && HttpFold(kids, i).Success?
    ensures HttpFold(kids, i).value.results == LastOr(Select(kids[..i], ResultsBlock, ResultsOf), None)
  {
    var any := (k: Node) => true;
    var good := (m: nat) => m <= |kids| &&
      (HttpFold(kids, m).Success? ==> HttpFold(kids, m).value.results == LastOr(Select(kids[..m], ResultsBlock, ResultsOf), None));
    forall m | 0 < m <= i && good(m - 1) ensures good(m) {
      if HttpFold(kids, m).Success? {
        HttpFoldShorter(kids, m);
        HttpStepResults(HttpFold(kids, m - 1).value, kids[m - 1]);
        SelectLastAt(kids, m, ResultsBlock, ResultsOf, None);
      }
    }
    PrefixKeeps(kids, any, good, i);
  }

  /** The sampler's upload is that of its last `upload` block with
      children, if any. */
  lemma {:induction false} HttpUploadWalk(kids: seq<Node>, i: nat)
    requires i <= |kids| && HttpFold(kids, i).Success?
    ensures HttpFold(kids, i).value.upload == LastOr(Select(kids[..i], UploadBlock, UploadOf), map[])
  {
    var any := (k: Node) => true;
    var good := (m: nat) => m <= |kids| &&
      (HttpFold(kids, m).Success? ==> HttpFold(kids, m).value.upload == LastOr(Select(kids[..m], UploadBlock, UploadOf), map[]));
    forall m | 0 < m <= i && good(m - 1) ensures good(m) {
      if HttpFold(kids, m).Success? {
        HttpFoldShorter(kids, m);
        HttpStepUpload(HttpFold(kids, m - 1).value, kids[m - 1]);
        SelectLastAt(kids, m, UploadBlock, UploadOf, map[]);
      }
    }
    PrefixKeeps(kids, any, good, i);
  }

  /** The sampler's request parameters are those of its last `data`
      block, if any. */
  lemma {:induction false} HttpVarsWalk(kids: seq<Node>, i: nat)
    requires i <= |kids| && HttpFold(kids, i).Success?
    ensures HttpFold(kids, i).value.vars == LastOr(Select(kids[..i], DataBlock, VarsOf), [])
  {
    var any := (k: Node) => true;
    var good := (m: nat) => m <= |kids| &&
      (HttpFold(kids, m).Success? ==> HttpFold(kids, m).value.vars == LastOr(Select(kids[..m], DataBlock, VarsOf), []));
    forall m | 0 < m <= i && good(m - 1) ensures good(m) {
      if HttpFold(kids, m).Success? {
        HttpFoldShorter(kids, m);
        HttpStepVars(HttpFold(kids, m - 1).value, kids[m - 1]);
        SelectLastAt(kids, m, DataBlock, VarsOf, []);
      }
    }
    PrefixKeeps(kids, any, good, i);
  }

  /** An `http` element's lists, in document order: one timer per complete
      `timer` block, one assertion block per `asserts` block and one
      extractor per `regex` block with children; the result collector and
      upload of the last such `results` and `upload` block; the request
      parameters of the last `data` block. */
  lemma HttpElementLists(n: Node)
    requires ProcessHttpElement(n).Success?
    ensures var h, kids := ProcessHttpElement(n).value, n.children;
      h.timers == Select(kids, TimerBlock, TimerOf) &&
      h.asserts == Select(kids, AssertsBlock, ProcessAsserts) &&
      h.regexes == Select(kids, RegexBlock, RegexOf) &&
      h.results == LastOr(Select(kids, ResultsBlock, ResultsOf), None) &&
      h.upload == LastOr(Select(kids, UploadBlock, UploadOf), map[]) &&
      h.vars == LastOr(Select(kids, DataBlock, VarsOf), [])
  {
    assert n.children[..|n.children|] == n.children;
    var kids := n.children;
    HttpTimersWalk(kids, |kids|);
    HttpAssertsWalk(kids, |kids|);
    HttpRegexesWalk(kids, |kids|);
    HttpResultsWalk(kids, |kids|);
    HttpUploadWalk(kids, |kids|);
    HttpVarsWalk(kids, |kids|);
  }

  /** The record an `http` element processes to (the empty one when it
      fails, which makes every walk over it fail). */
  function HttpOf(k: Node): HttpSpec {
    ProcessHttpElement(k).ValueOr(NoHttp)
  }

  // ---------------------------------------------------------------------
  // Loops
  // ---------------------------------------------------------------------

  /** `name =~ /http/i`: the loop walk's test for a sampler. */
  function HttpLike(k: Node): bool {
    ContainsCI(k.name, "http")
  }

  function KeepLoopField(k: Node): bool {
    !HttpLike(k)
  }

  /** A child the loop walk accepts: a sampler that processes, or a flat
      child other than the one that would overwrite the `tests` list. */
  predicate LoopChildOk(k: Node) {
    if HttpLike(k) then ProcessHttpElement(k).Success? else k.name != "tests"
  }

  /** The walk the loop generator makes over a loop's children: children
      matching `/http/i` become its tests, every other child (text nodes
      included) a flat field. */
  function ProcessLoop(kids: seq<Node>, i: nat): (r: Result<LoopSpec, Fault>)
    requires i <= |kids|
    ensures r.Success? ==> |r.value.tests| == CountWhere(kids[..i], HttpLike)
    ensures r.Success? ==> r.value.fields == Harvest(kids[..i], KeepLoopField)
    ensures r.Success? ==> r.value.tests == Select(kids[..i], HttpLike, HttpOf)
  {
    if i == 0 then Success(LoopSpec(map[], []))
    else
      var l :- ProcessLoop(kids, i - 1);
      var k := kids[i - 1];
      assert kids[..i][..i - 1] == kids[..i - 1];
      assert kids[..i][i - 1] == k;
      if HttpLike(k) then
        var h :- ProcessHttpElement(k);
        Success(l.(tests := l.tests + [h]))
      else if k.name == "tests" then
        Failure(BookkeepingKey(k.name, k.line))
      else
        Success(l.(fields := l.fields[k.name := SafeStr(k.content)]))
  }

  /** The loop walk fails exactly when one of the children it reads
      fails. */
  lemma {:induction false} LoopWalkOk(kids: seq<Node>, i: nat)
    requires i <= |kids|
    ensures ProcessLoop(kids, i).Success? <==> forall j :: 0 <= j < i ==> LoopChildOk(kids[j])
  {
    var done := (k: nat) => LoopReadsTo(kids, k);
    forall k | 0 < k <= i ensures done(k) <==> done(k - 1) && LoopChildOk(kids[k - 1]) {
      LoopStep(kids, k);
    }
    PrefixAll(kids, LoopChildOk, done, i);
  }

  /** The loop walk over the first `k` children succeeds. */
  predicate LoopReadsTo(kids: seq<Node>, k: nat) {
    k <= |kids| && ProcessLoop(kids, k).Success?
  }

  /** One step of the loop walk. */
  lemma LoopStep(kids: seq<Node>, i: nat)
    requires 0 < i <= |kids|
    ensures LoopReadsTo(kids, i) <==> LoopReadsTo(kids, i - 1) && LoopChildOk(kids[i - 1])
  {
  }

  // ---------------------------------------------------------------------
  // CSV data sets
  // ---------------------------------------------------------------------

  /** The children a `repeat` renders: exactly `http` and `loop`. */
  function IsFragmentKid(k: Node): bool {
    k.name == "http" || k.name == "loop"
  }

  /** A child of a `repeat` that renders without raising. */
  predicate FragmentOk(k: Node) {
    k.name != "controller" &&
    (k.name == "http" ==> ProcessHttpElement(k).Success?) &&
    (k.name == "loop" ==> ProcessLoop(k.children, |k.children|).Success?)
  }

  /** The loop record a `loop` element's children walk to (the empty one
      when the walk fails, which makes every walk over it fail). */
  function LoopOf(k: Node): LoopSpec {
    ProcessLoop(k.children, |k.children|).ValueOr(LoopSpec(map[], []))
  }

  /** The fragment a rendered child of a `repeat` stands for: a sampler
      for `http`, a loop for `loop`. */
  function FragOf(k: Node): Fragment {
    if k.name == "http" then HttpPart(HttpOf(k)) else LoopPart(LoopOf(k))
  }

  /** One child of a `repeat` node: an `http` child is processed as a
      sampler and a `loop` child walked as a loop; a `controller` child is
      handed to the controller generator as a raw node, which raises.  Other
      children are ignored. */
  function FragmentOf(k: Node): (r: Result<seq<Fragment>, Fault>)
    ensures r.Success? <==> FragmentOk(k)
    ensures r.Success? ==> |r.value| == (if IsFragmentKid(k) then 1 else 0)
    ensures r.Success? ==> r.value == (if IsFragmentKid(k) then [FragOf(k)] else [])
  {
    if k.name == "http" then
      var h :- ProcessHttpElement(k);
      Success([HttpPart(h)])
    else if k.name == "controller" then
      Failure(ControllerInCsv(k.line))
    else if k.name == "loop" then
      var l :- ProcessLoop(k.children, |k.children|);
      Success([LoopPart(l)])
    else
      Success([])
  }

  /** The walk over the first `i` children of a `repeat` node. */
  function GenericNodeProcess(kids: seq<Node>, i: nat): (r: Result<seq<Fragment>, Fault>)
    requires i <= |kids|
    ensures r.Success? ==> |r.value| == CountWhere(kids[..i], IsFragmentKid)
    ensures r.Success? ==> r.value == Select(kids[..i], IsFragmentKid, FragOf)
  {
    if i == 0 then Success([])
    else
      var frags :- GenericNodeProcess(kids, i - 1);
      assert kids[..i][..i - 1] == kids[..i - 1];
      assert kids[..i][i - 1] == kids[i - 1];
      var f :- FragmentOf(kids[i - 1]);
      Success(frags + f)
  }

  /** The repeat walk fails exactly when one of the children it reads
      fails. */
  lemma {:induction false} RepeatWalkOk(kids: seq<Node>, i: nat)
    requires i <= |kids|
    ensures GenericNodeProcess(kids, i).Success? <==> forall j :: 0 <= j < i ==> FragmentOk(kids[j])
  {
    var done := (k: nat) => k <= |kids| && GenericNodeProcess(kids, k).Success?;
    forall k | 0 < k <= i ensures done(k) <==> done(k - 1) && FragmentOk(kids[k - 1]) {
      FragmentStep(kids, k);
    }
    PrefixAll(kids, FragmentOk, done, i);
  }

  /** One step of the repeat walk. */
  lemma FragmentStep(kids: seq<Node>, i: nat)
    requires 0 < i <= |kids|
    ensures GenericNodeProcess(kids, i).Success? <==> GenericNodeProcess(kids, i - 1).Success? && FragmentOk(kids[i - 1])
  {
  }

  /** `n` copies of `e`. */
  function Copies(e: CsvEntry, n: nat): (r: seq<CsvEntry>)
    ensures |r| == n && forall j :: 0 <= j < n ==> r[j] == e
  {
    if n == 0 then [] else Copies(e, n - 1) + [e]
  }

  /** The fragments a `repeat` element's children render to (none when
      the walk fails, which makes the data set fail). */
  function FragsOf(k: Node): seq<Fragment> {
    GenericNodeProcess(k.children, |k.children|).ValueOr([])
  }

  /** The entries one child of a `csv` element adds: its sampler for
      `http`, a marker for `loop`, and for a `repeat` with children one
      copy of its fragment list per non-text child. */
  function CsvEntriesOf(k: Node): seq<CsvEntry> {
    if k.name == "http" then [CsvHttp(HttpOf(k))]
    else if k.name == "loop" then [CsvLoop]
    else if k.name == "repeat" && HasKids(k) then Copies(CsvRepeat(FragsOf(k)), CountWhere(k.children, KeepNotTextLike))
    else []
  }

  function KeepCsvField(k: Node): bool {
    !(k.name in {"text", "http", "controller", "loop", "repeat", "stack"})
  }

  /** One child of a `csv` element.  A `loop` child is walked (so its
      samplers can fail) and leaves only a marker; a `repeat` child with
      `m` non-text children adds `m` copies of its rendering. */
  function CsvStep(c: CsvItem, k: Node): (r: Result<CsvItem, Fault>)
    requires c.CsvSet?
    ensures r.Success? ==> r.value.CsvSet?
    ensures r.Success? && KeepCsvField(k) ==> r.value.fields == c.fields[k.name := SafeStr(k.content)]
    ensures r.Success? && !KeepCsvField(k) ==> r.value.fields == c.fields
    ensures k.name == "controller" ==> r.Failure?
    ensures r.Success? ==> r.value.entries == c.entries + CsvEntriesOf(k)
  {
    if k.name == "text" then Success(c)
    else if k.name == "http" then
      var h :- ProcessHttpElement(k);
      Success(c.(entries := c.entries + [CsvHttp(h)]))
    else if k.name == "controller" then
      Failure(ControllerInCsv(k.line))
    else if k.name == "loop" then
      var _ :- ProcessLoop(k.children, |k.children|);
      Success(c.(entries := c.entries + [CsvLoop]))
    else if k.name == "repeat" then
      var copies := CountWhere(k.children, KeepNotTextLike);
      assert c.entries + [] == c.entries;
      if !HasKids(k) || copies == 0 then Success(c)
      else
        var frags :- GenericNodeProcess(k.children, |k.children|);
        Success(c.(entries := c.entries + Copies(CsvRepeat(frags), copies)))
    else if k.name == "stack" then
      Failure(BookkeepingKey(k.name, k.line))
    else
      Success(c.(fields := c.fields[k.name := SafeStr(k.content)]))
  }

  /** The first `i` children of a `csv` element, read in order. */
  function CsvFold(kids: seq<Node>, i: nat): (r: Result<CsvItem, Fault>)
    requires i <= |kids|
    ensures r.Success? ==> r.value.CsvSet?
    ensures r.Success? ==> r.value.fields == Harvest(kids[..i], KeepCsvField)
    ensures r.Success? ==> r.value.entries == Gather(kids[..i], CsvEntriesOf)
  {
    if i == 0 then Success(CsvSet(map[], []))
    else
      var c :- CsvFold(kids, i - 1);
      assert kids[..i][..i - 1] == kids[..i - 1];
      assert kids[..i][i - 1] == kids[i - 1];
      CsvStep(c, kids[i - 1])
  }

  /** A `csv` element: nil without children, otherwise its data set.  A
      `controller` child makes it fail. */
  function ProcessCSVElement(n: Node): (r: Result<CsvItem, Fault>)
    ensures r == Success(CsvNil) <==> !HasKids(n)
    ensures r.Success? && HasKids(n) ==> r.value.fields == Harvest(n.children, KeepCsvField)
    ensures r.Success? && HasKids(n) ==> r.value.entries == Gather(n.children, CsvEntriesOf)
  {
    if !HasKids(n) then Success(CsvNil)
    else
      assert n.children[..|n.children|] == n.children;
      CsvFold(n.children, |n.children|)
  }

  /** A `controller` child among the first `i` makes the walk fail. */
  lemma {:induction false} CsvFoldController(kids: seq<Node>, i: nat, j: nat)
    requires j < i <= |kids| && kids[j].name == "controller"
    ensures CsvFold(kids, i).Failure?
  {
    if j < i - 1 {
      CsvFoldController(kids, i - 1, j);
    }
  }

  /** A `csv` element with a `controller` child fails. */
  lemma CsvController(n: Node, j: nat)
    requires j < |n.children| && n.children[j].name == "controller"
    ensures ProcessCSVElement(n).Failure?
  {
    CsvFoldController(n.children, |n.children|, j);
  }

  /** The `repeat` quirk: the repeat node itself (not the child) is
      rendered once per non-text child, so a repeat with `m` non-text
      children adds `m` copies of the same fragment list. */
  lemma RepeatCopies(n: Node, rep: Node)
    requires n.children == [rep] && rep.name == "repeat" && HasKids(rep)
    requires GenericNodeProcess(rep.children, |rep.children|).Success?
    ensures var m := CountWhere(rep.children, KeepNotTextLike);
      var frags := GenericNodeProcess(rep.children, |rep.children|).value;
      ProcessCSVElement(n) == Success(CsvSet(map[], Copies(CsvRepeat(frags), m)))
  {
    var m := CountWhere(rep.children, KeepNotTextLike);
    var frags := GenericNodeProcess(rep.children, |rep.children|).value;
    var c0 := CsvSet(map[], []);
    assert CsvFold(n.children, 0) == Success(c0);
    assert CsvFold(n.children, 1) == CsvStep(c0, rep);
    assert ProcessCSVElement(n) == CsvFold(n.children, 1);
    if m == 0 {
      assert CsvStep(c0, rep) == Success(c0);
      assert Copies(CsvRepeat(frags), m) == [];
    } else {
      assert CsvStep(c0, rep) == Success(c0.(entries := c0.entries + Copies(CsvRepeat(frags), m)));
      assert c0.entries + Copies(CsvRepeat(frags), m) == Copies(CsvRepeat(frags), m);
    }
  }

  // ---------------------------------------------------------------------
  // Controllers, includes and the document walk
  // ---------------------------------------------------------------------

  /** `name =~ /loop/i`, `/controller/i`, `/script/i`. */
  function LoopLike(k: Node): bool { ContainsCI(k.name, "loop") }
  function ControllerLike(k: Node): bool { ContainsCI(k.name, "controller") }
  function ScriptLike(k: Node): bool { ContainsCI(k.name, "script") }

  /** `name =~ /text/` (case-sensitive): the controller walk's skip test. */
  function SkippedByController(k: Node): bool { Contains(k.name, "text") }

  /** A controller child that becomes one stack entry. */
  function IsControllerItem(k: Node): bool {
    !SkippedByController(k) && (HttpLike(k) || LoopLike(k) || ControllerLike(k))
  }

  /** A controller child that includes scripts. */
  function IsControllerScript(k: Node): bool {
    !SkippedByController(k) && !HttpLike(k) && !LoopLike(k) && !ControllerLike(k) && ScriptLike(k)
  }

  /** A controller child that becomes a flat field. */
  function KeepControllerField(k: Node): bool {
    !SkippedByController(k) && !HttpLike(k) && !LoopLike(k) && !ControllerLike(k) && !ScriptLike(k)
  }

  const Nothing := Collected([], [], map[])

  /** Appends the entries and data sets of `b` to those of `a`; `b`'s
      test information overrides `a`'s. */
  function Merge(a: Collected, b: Collected): Collected {
    Collected(a.stack + b.stack, a.csv + b.csv, a.info + b.info)
  }

  /** The includes of one `script` element, for its first `j` children.
      Each non-text child is stored in the script's flat map and then the
      map's `file` is included, so the first non-text child must be the
      `file` one and every later child includes the same file again.  The
      included document's test information is dropped. */
  function IncludeScripts(s: Node, j: nat, line: nat, files: map<string, Node>, fuel: nat): (r: Result<Collected, Fault>)
    requires j <= |s.children|
    decreases fuel, s, 0, j
    ensures r.Success? ==> r.value.info == map[]
  {
    if j == 0 then Success(Nothing)
    else
      var acc :- IncludeScripts(s, j - 1, line, files, fuel);
      var k := s.children[j - 1];
      assert s.children[..j][..j - 1] == s.children[..j - 1];
      assert s.children[..j][j - 1] == k;
      if TextLike(k) then Success(acc)
      else
        var m := Harvest(s.children[..j], KeepNotTextLike);
        NameNotTextLike("file");
        HarvestAt(s.children[..j], KeepNotTextLike, "file");
        if "file" !in m || m["file"] !in files then Failure(IncludeUnresolved(line))
        else if fuel == 0 then Failure(IncludeTooDeep(line))
        else
          var d :- GetDataFromTest(files[m["file"]], files, fuel - 1);
          Success(Collected(acc.stack + d.stack, acc.csv + d.csv, map[]))
  }

  /** One step of an include: a non-text child needs a `file` child at or
      before it and fuel left. */
  lemma IncludeStep(s: Node, m: nat, line: nat, files: map<string, Node>, fuel: nat)
    requires m < |s.children|
    requires IncludeScripts(s, m + 1, line, files, fuel).Success?
    ensures !TextLike(s.children[m]) ==> Names(s.children[..m + 1], "file") && fuel > 0
  {
    if !TextLike(s.children[m]) {
      NameNotTextLike("file");
      HarvestAt(s.children[..m + 1], KeepNotTextLike, "file");
    }
  }

  /** An include that succeeds over `j` children succeeds over one
      fewer. */
  lemma IncludeShorter(s: Node, j: nat, line: nat, files: map<string, Node>, fuel: nat)
    requires 0 < j <= |s.children|
    requires IncludeScripts(s, j, line, files, fuel).Success?
    ensures IncludeScripts(s, j - 1, line, files, fuel).Success?
  {
  }

  /** An include that succeeds over `j` children succeeds over fewer. */
  lemma {:induction false} IncludePrefix(s: Node, j: nat, k: nat, line: nat, files: map<string, Node>, fuel: nat)
    requires k <= j <= |s.children|
    requires IncludeScripts(s, j, line, files, fuel).Success?
    ensures IncludeScripts(s, k, line, files, fuel).Success?
  {
    if k < j {
      IncludeShorter(s, j, line, files, fuel);
      IncludePrefix(s, j - 1, k, line, files, fuel);
    }
  }

  /** An include succeeds only when every non-text child of the script
      has a `file` child at or before it, and only with fuel left. */
  lemma IncludeNeedsFile(s: Node, j: nat, line: nat, files: map<string, Node>, fuel: nat)
    requires j <= |s.children|
    requires IncludeScripts(s, j, line, files, fuel).Success?
    ensures forall m :: 0 <= m < j && !TextLike(s.children[m]) ==> Names(s.children[..m + 1], "file") && fuel > 0
  {
    forall m | 0 <= m < j && !TextLike(s.children[m])
      ensures Names(s.children[..m + 1], "file") && fuel > 0
    {
      IncludeNeedsFileAt(s, j, m, line, files, fuel);
    }
  }

  /** The same for one child `m`. */
  lemma IncludeNeedsFileAt(s: Node, j: nat, m: nat, line: nat, files: map<string, Node>, fuel: nat)
    requires m < j <= |s.children|
    requires IncludeScripts(s, j, line, files, fuel).Success?
    ensures !TextLike(s.children[m]) ==> Names(s.children[..m + 1], "file") && fuel > 0
  {
    IncludePrefix(s, j, m + 1, line, files, fuel);
    IncludeStep(s, m, line, files, fuel);
  }

  /** What the `p`-th child of a script includes: nothing for a text
      child; otherwise the document named by the last `file` child at or
      before it, read with one unit of fuel less, of which the entries and
      data sets are kept.  (A child without a resolvable file, or without
      fuel, makes the include fail, so nothing stands for it here.) */
  function IncludedAt(s: Node, p: nat, files: map<string, Node>, fuel: nat): Collected
    decreases fuel, s, 4, p
  {
    if p >= |s.children| || TextLike(s.children[p]) || fuel == 0 then Nothing
    else
      match LastKept(s.children[..p + 1], KeepNotTextLike, "file")
      case None => Nothing
      case Some(f) =>
        var name := SafeStr(f.content);
        if name in files then GetDataFromTest(files[name], files, fuel - 1).ValueOr(Nothing) else Nothing
  }

  /** What the first `j` children of a script include, one after
      another. */
  function IncludedUpTo(s: Node, j: nat, files: map<string, Node>, fuel: nat): Collected {
    if j == 0 then Nothing
    else
      var acc := IncludedUpTo(s, j - 1, files, fuel);
      var d := IncludedAt(s, j - 1, files, fuel);
      Collected(acc.stack + d.stack, acc.csv + d.csv, map[])
  }

  /** One step of an include adds what its child includes. */
  lemma IncludeStepValue(s: Node, j: nat, line: nat, files: map<string, Node>, fuel: nat)
    requires 0 < j <= |s.children|
    requires IncludeScripts(s, j, line, files, fuel).Success?
    ensures IncludeScripts(s, j - 1, line, files, fuel).Success?
    ensures var acc, r, p := IncludeScripts(s, j - 1, line, files, fuel).value,
      IncludeScripts(s, j, line, files, fuel).value, IncludedAt(s, j - 1, files, fuel);
      r.stack == acc.stack + p.stack && r.csv == acc.csv + p.csv
  {
    var acc := IncludeScripts(s, j - 1, line, files, fuel).value;
    var k := s.children[j - 1];
    assert s.children[..j][..j - 1] == s.children[..j - 1];
    assert s.children[..j][j - 1] == k;
    assert acc.stack + [] == acc.stack && acc.csv + [] == acc.csv;
    if !TextLike(k) {
      NameNotTextLike("file");
      HarvestAt(s.children[..j], KeepNotTextLike, "file");
      HarvestLast(s.children[..j], KeepNotTextLike, "file");
    }
  }

  /** The entries and data sets of an include are those each child
      includes, in document order. */
  lemma {:induction false} IncludeContents(s: Node, j: nat, line: nat, files: map<string, Node>, fuel: nat)
    requires j <= |s.children|
    requires IncludeScripts(s, j, line, files, fuel).Success?
    ensures IncludeScripts(s, j, line, files, fuel).value.stack == IncludedUpTo(s, j, files, fuel).stack
    ensures IncludeScripts(s, j, line, files, fuel).value.csv == IncludedUpTo(s, j, files, fuel).csv
  {
    if j > 0 {
      IncludeStepValue(s, j, line, files, fuel);
      IncludeContents(s, j - 1, line, files, fuel);
    }
  }

  /** The first `i` children of a `controller` element, read in order: the
      tests are case-insensitive and unanchored and are tried in the order
      http, loop, controller, script. */
  function ControllerFold(kids: seq<Node>, i: nat, line: nat, files: map<string, Node>, fuel: nat)
    : (r: Result<ControllerSpec, Fault>)
    requires i <= |kids|
    decreases fuel, kids, 1, i
    ensures r.Success? ==> r.value.fields == Harvest(kids[..i], KeepControllerField)
    ensures r.Success? && CountWhere(kids[..i], IsControllerScript) == 0 ==>
      |r.value.stack| == CountWhere(kids[..i], IsControllerItem) && r.value.csv == []
  {
    if i == 0 then Success(ControllerSpec(map[], [], []))
    else
      var c :- ControllerFold(kids, i - 1, line, files, fuel);
      var k := kids[i - 1];
      assert kids[..i][..i - 1] == kids[..i - 1];
      assert kids[..i][i - 1] == k;
      if SkippedByController(k) then Success(c)
      else if HttpLike(k) then
        var h :- ProcessHttpElement(k);
        Success(c.(stack := c.stack + [HttpEntry(h)]))
      else if LoopLike(k) then
        var l :- ProcessLoop(k.children, |k.children|);
        Success(c.(stack := c.stack + [LoopEntry(l)]))
      else if ControllerLike(k) then
        var d :- ProcessController(k, files, fuel);
        Success(c.(stack := c.stack + [ControllerEntry(d)]))
      else if ScriptLike(k) then
        if !HasKids(k) then Success(c)
        else if "csv_stack" in c.fields && CountWhere(k.children, KeepNotTextLike) > 0 then
          Failure(BookkeepingKey("csv_stack", k.line))
        else
          var d :- IncludeScripts(k, |k.children|, line, files, fuel);
          Success(c.(stack := c.stack + d.stack, csv := c.csv + d.csv))
      else if k.name == "stack" then
        Failure(BookkeepingKey(k.name, k.line))
      else
        Success(c.(fields := c.fields[k.name := SafeStr(k.content)]))
  }

  /** A `controller` element. */
  function ProcessController(n: Node, files: map<string, Node>, fuel: nat): (r: Result<ControllerSpec, Fault>)
    decreases fuel, n, 1, 0
    ensures r.Success? ==> r.value.fields == Harvest(n.children, KeepControllerField)
    ensures r.Success? && CountWhere(n.children, IsControllerScript) == 0 ==>
      |r.value.stack| == CountWhere(n.children, IsControllerItem) && r.value.csv == []
  {
    assert n.children[..|n.children|] == n.children;
    ControllerFold(n.children, |n.children|, n.line, files, fuel)
  }

  /** The entry a controller item becomes: a sampler when its name
      matches `http`, else a loop when it matches `loop`, else a nested
      controller (an empty record stands for a walk that fails, which
      makes the controller fail). */
  function ItemEntry(k: Node, files: map<string, Node>, fuel: nat): (r: StackEntry)
    ensures r.HttpEntry? <==> HttpLike(k)
    ensures r.LoopEntry? <==> !HttpLike(k) && LoopLike(k)
    ensures r.ControllerEntry? <==> !HttpLike(k) && !LoopLike(k)
  {
    if HttpLike(k) then HttpEntry(HttpOf(k))
    else if LoopLike(k) then LoopEntry(LoopOf(k))
    else ControllerEntry(ProcessController(k, files, fuel).ValueOr(ControllerSpec(map[], [], [])))
  }

  /** What one child of a controller adds to its entries and data sets:
      an item adds its entry, a script with children what it includes,
      and every other child nothing. */
  function ChildPart(k: Node, line: nat, files: map<string, Node>, fuel: nat): Collected {
    if IsControllerItem(k) then Collected([ItemEntry(k, files, fuel)], [], map[])
    else if IsControllerScript(k) && HasKids(k) then IncludeScripts(k, |k.children|, line, files, fuel).ValueOr(Nothing)
    else Nothing
  }

  /** One step of the controller walk adds what its child adds. */
  lemma ControllerFoldStep(kids: seq<Node>, i: nat, line: nat, files: map<string, Node>, fuel: nat)
    requires 0 < i <= |kids|
    requires ControllerFold(kids, i, line, files, fuel).Success?
    ensures ControllerFold(kids, i - 1, line, files, fuel).Success?
    ensures var c, d, p := ControllerFold(kids, i - 1, line, files, fuel).value,
      ControllerFold(kids, i, line, files, fuel).value, ChildPart(kids[i - 1], line, files, fuel);
      d.stack == c.stack + p.stack && d.csv == c.csv + p.csv
  {
    var c := ControllerFold(kids, i - 1, line, files, fuel).value;
    var d := ControllerFold(kids, i, line, files, fuel).value;
    var k := kids[i - 1];
    if IsControllerItem(k) {
      assert d.stack == c.stack + [ItemEntry(k, files, fuel)] && d.csv == c.csv;
    } else if IsControllerScript(k) && HasKids(k) {
      assert d.stack == c.stack + IncludeScripts(k, |k.children|, line, files, fuel).value.stack;
    } else {
      assert d.stack == c.stack && d.csv == c.csv;
      assert c.stack + [] == c.stack && c.csv + [] == c.csv;
    }
  }

  /** The controller's entries and data sets are what its children add,
      in document order. */
  lemma {:induction false} ControllerWalk(kids: seq<Node>, i: nat, line: nat, files: map<string, Node>, fuel: nat)
    requires i <= |kids|
    requires ControllerFold(kids, i, line, files, fuel).Success?
    ensures ControllerFold(kids, i, line, files, fuel).value.stack ==
      Gather(kids[..i], (k: Node) => ChildPart(k, line, files, fuel).stack)
    ensures ControllerFold(kids, i, line, files, fuel).value.csv ==
      Gather(kids[..i], (k: Node) => ChildPart(k, line, files, fuel).csv)
  {
    if i > 0 {
      ControllerFoldStep(kids, i, line, files, fuel);
      ControllerWalk(kids, i - 1, line, files, fuel);
      assert kids[..i][..i - 1] == kids[..i - 1];
      assert kids[..i][i - 1] == kids[i - 1];
    }
  }

  /** Without script children the controller's entries are its items, in
      document order, each classified by the first of `http`, `loop`,
      `controller` its name matches. */
  lemma {:induction false} ControllerItemsWalk(kids: seq<Node>, i: nat, line: nat, files: map<string, Node>, fuel: nat)
    requires i <= |kids|
    requires forall j :: 0 <= j < i ==> !IsControllerScript(kids[j])
    requires ControllerFold(kids, i, line, files, fuel).Success?
    ensures ControllerFold(kids, i, line, files, fuel).value.stack ==
      Select(kids[..i], IsControllerItem, (k: Node) => ItemEntry(k, files, fuel))
  {
    if i > 0 {
      ControllerFoldStep(kids, i, line, files, fuel);
      ControllerItemsWalk(kids, i - 1, line, files, fuel);
      assert kids[..i][..i - 1] == kids[..i - 1];
      assert kids[..i][i - 1] == kids[i - 1];
    }
  }

  /** A controller element's entries and data sets are what its children
      add, in document order. */
  lemma ControllerContents(n: Node, files: map<string, Node>, fuel: nat)
    requires ProcessController(n, files, fuel).Success?
    ensures ProcessController(n, files, fuel).value.stack ==
      Gather(n.children, (k: Node) => ChildPart(k, n.line, files, fuel).stack)
    ensures ProcessController(n, files, fuel).value.csv ==
      Gather(n.children, (k: Node) => ChildPart(k, n.line, files, fuel).csv)
  {
    assert n.children[..|n.children|] == n.children;
    ControllerWalk(n.children, |n.children|, n.line, files, fuel);
  }

  /** Without script children, the `j`-th entry of a controller comes from
      its `j`-th item child: a sampler exactly when the name matches
      `http`, a loop exactly when it matches `loop` and not `http`, and a
      nested controller otherwise; no entry is a timer. */
  lemma ControllerEntryKinds(n: Node, files: map<string, Node>, fuel: nat)
    requires forall j :: 0 <= j < |n.children| ==> !IsControllerScript(n.children[j])
    requires ProcessController(n, files, fuel).Success?
    ensures var s, items := ProcessController(n, files, fuel).value.stack, Chosen(n.children, IsControllerItem);
      |s| == |items| &&
      forall j :: 0 <= j < |s| ==>
        s[j] == ItemEntry(items[j], files, fuel) &&
        (s[j].HttpEntry? <==> HttpLike(items[j])) &&
        (s[j].LoopEntry? <==> !HttpLike(items[j]) && LoopLike(items[j])) &&
        (s[j].ControllerEntry? <==> !HttpLike(items[j]) && !LoopLike(items[j]) && ControllerLike(items[j])) &&
        !s[j].TimerEntry?
  {
    var kids := n.children;
    assert kids[..|kids|] == kids;
    ControllerItemsWalk(kids, |kids|, n.line, files, fuel);
    SelectAt(kids, IsControllerItem, (k: Node) => ItemEntry(k, files, fuel));
  }

  /** The top-level element names the walk dispatches on. */
  datatype Kind = TimerKind | LoopKind | ControllerKind | TestinfoKind | HttpKind | CsvKind | ScriptKind | OtherKind

  /** The dispatch compares the name exactly. */
  function KindOf(name: string): (r: Kind)
    ensures r == TimerKind <==> name == "timer"
    ensures r == LoopKind <==> name == "loop"
    ensures r == ControllerKind <==> name == "controller"
    ensures r == TestinfoKind <==> name == "testinfo"
    ensures r == HttpKind <==> name == "http"
    ensures r == CsvKind <==> name == "csv"
    ensures r == ScriptKind <==> name == "script"
    ensures r == OtherKind <==> name !in {"timer", "loop", "controller", "testinfo", "http", "csv", "script"}
  {
    if name == "timer" then TimerKind
    else if name == "loop" then LoopKind
    else if name == "controller" then ControllerKind
    else if name == "testinfo" then TestinfoKind
    else if name == "http" then HttpKind
    else if name == "csv" then CsvKind
    else if name == "script" then ScriptKind
    else OtherKind
  }

  /** What one top-level child adds to the collected data; unknown names
      add nothing. */
  function Contribution(k: Node, files: map<string, Node>, fuel: nat): (r: Result<Collected, Fault>)
    decreases fuel, k, 2, 0
    ensures r.Success? && KindOf(k.name) != TestinfoKind ==> r.value.info == map[]
    ensures r.Success? && KindOf(k.name) != CsvKind && KindOf(k.name) != ScriptKind ==> r.value.csv == []
    ensures KindOf(k.name) == TestinfoKind ==> r.Success? && r.value.info == Harvest(k.children, KeepNotText)
  {
    match KindOf(k.name)
    case TimerKind =>
      if !HasKids(k) then Success(Nothing)
      else
        var t :- ProcessTimer(k);
        Success(Collected([TimerEntry(t)], [], map[]))
    case LoopKind =>
      if !HasKids(k) then Success(Nothing)
      else
        var l :- ProcessLoop(k.children, |k.children|);
        Success(Collected([LoopEntry(l)], [], map[]))
    case ControllerKind =>
      if !HasKids(k) then Success(Nothing)
      else
        var c :- ProcessController(k, files, fuel);
        Success(Collected([ControllerEntry(c)], [], map[]))
    case TestinfoKind =>
      Success(Collected([], [], Harvest(k.children, KeepNotText)))
    case HttpKind =>
      var h :- ProcessHttpElement(k);
      Success(Collected([HttpEntry(h)], [], map[]))
    case CsvKind =>
      var c :- ProcessCSVElement(k);
      Success(Collected([], [c], map[]))
    case ScriptKind =>
      if !HasKids(k) then Success(Nothing)
      else IncludeScripts(k, |k.children|, k.line, files, fuel)
    case OtherKind => Success(Nothing)
  }

  /** The entries and data sets one top-level child adds, by kind: a
      timer, loop or controller with children one entry, a sampler one
      entry, a `csv` element one data set, a script with children what it
      includes, and anything else nothing. */
  lemma ContributionEntries(k: Node, files: map<string, Node>, fuel: nat)
    requires Contribution(k, files, fuel).Success?
    ensures var c := Contribution(k, files, fuel).value;
      match KindOf(k.name)
      case TimerKind => c.stack == (if HasKids(k) then [TimerEntry(TimerOf(k))] else [])
      case LoopKind => c.stack == (if HasKids(k) then [LoopEntry(LoopOf(k))] else [])
      case ControllerKind =>
        c.stack == (if HasKids(k) then [ControllerEntry(ProcessController(k, files, fuel).value)] else [])
      case HttpKind => c.stack == [HttpEntry(HttpOf(k))]
      case CsvKind => c.stack == [] && c.csv == [ProcessCSVElement(k).value]
      case ScriptKind =>
        c.stack == (if HasKids(k) then IncludedUpTo(k, |k.children|, files, fuel).stack else []) &&
        c.csv == (if HasKids(k) then IncludedUpTo(k, |k.children|, files, fuel).csv else [])
      case _ => c.stack == [] && c.csv == []
  {
    if KindOf(k.name) == ScriptKind && HasKids(k) {
      IncludeContents(k, |k.children|, k.line, files, fuel);
    }
  }

  /** The first `i` top-level children, read in order. */
  function CollectFold(kids: seq<Node>, i: nat, files: map<string, Node>, fuel: nat): Result<Collected, Fault>
    requires i <= |kids|
    decreases fuel, kids, 1, i
  {
    if i == 0 then Success(Nothing)
    else
      var prev :- CollectFold(kids, i - 1, files, fuel);
      var c :- Contribution(kids[i - 1], files, fuel);
      Success(Merge(prev, c))
  }

  /** One step of the walk: the data so far merged with the next child's
      contribution; the step fails when either part does. */
  lemma FoldStepOk(kids: seq<Node>, i: nat, files: map<string, Node>, fuel: nat)
    requires 0 < i <= |kids|
    ensures CollectFold(kids, i, files, fuel).Success? <==>
      CollectFold(kids, i - 1, files, fuel).Success? && Contribution(kids[i - 1], files, fuel).Success?
  {
  }

  /** The value of one step of the walk. */
  lemma FoldStep(kids: seq<Node>, i: nat, files: map<string, Node>, fuel: nat)
    requires 0 < i <= |kids|
    requires CollectFold(kids, i, files, fuel).Success?
    ensures CollectFold(kids, i - 1, files, fuel).Success? && Contribution(kids[i - 1], files, fuel).Success?
    ensures
      CollectFold(kids, i, files, fuel).value ==
      Merge(CollectFold(kids, i - 1, files, fuel).value, Contribution(kids[i - 1], files, fuel).value)
  {
  }

  /** The walk fails exactly when one of the children it has read fails. */
  lemma {:induction false} WalkSucceeds(kids: seq<Node>, i: nat, files: map<string, Node>, fuel: nat)
    requires i <= |kids|
    ensures CollectFold(kids, i, files, fuel).Success? <==>
      forall j :: 0 <= j < i ==> Contribution(kids[j], files, fuel).Success?
  {
    var ok := (k: Node) => Contribution(k, files, fuel).Success?;
    var done := (k: nat) => k <= |kids| && CollectFold(kids, k, files, fuel).Success?;
    WalkSteps(kids, i, files, fuel);
    PrefixAll(kids, ok, done, i);
  }

  /** Every step of the walk over the first `i` children. */
  lemma WalkSteps(kids: seq<Node>, i: nat, files: map<string, Node>, fuel: nat)
    requires i <= |kids|
    ensures forall k :: 0 < k <= i ==>
      (CollectFold(kids, k, files, fuel).Success? <==>
       CollectFold(kids, k - 1, files, fuel).Success? && Contribution(kids[k - 1], files, fuel).Success?)
  {
    forall k | 0 < k <= i
      ensures CollectFold(kids, k, files, fuel).Success? <==>
        CollectFold(kids, k - 1, files, fuel).Success? && Contribution(kids[k - 1], files, fuel).Success?
    {
      FoldStepOk(kids, k, files, fuel);
    }
  }

  /** Without a `testinfo` child the walk collects no test information. */
  lemma {:induction false} NoTestinfo(kids: seq<Node>, i: nat, files: map<string, Node>, fuel: nat)
    requires i <= |kids|
    requires forall j :: 0 <= j < i ==> KindOf(kids[j].name) != TestinfoKind
    requires CollectFold(kids, i, files, fuel).Success?
    ensures forall key :: key !in CollectFold(kids, i, files, fuel).value.info
  {
    var plain := (k: Node) => KindOf(k.name) != TestinfoKind;
    var good := (k: nat) => k <= |kids| &&
      (CollectFold(kids, k, files, fuel).Success? ==> forall key :: key !in CollectFold(kids, k, files, fuel).value.info);
    forall k | 0 < k <= i && good(k - 1) && plain(kids[k - 1]) ensures good(k) {
      if CollectFold(kids, k, files, fuel).Success? {
        FoldStep(kids, k, files, fuel);
      }
    }
    PrefixKeeps(kids, plain, good, i);
  }

  /** What one top-level child adds (nothing for a child that fails, which
      makes the walk fail). */
  function Contributed(k: Node, files: map<string, Node>, fuel: nat): Collected {
    Contribution(k, files, fuel).ValueOr(Nothing)
  }

  /** What the first `i` top-level children add, one after another. */
  function ContributedUpTo(kids: seq<Node>, i: nat, files: map<string, Node>, fuel: nat): Collected
    requires i <= |kids|
  {
    if i == 0 then Nothing
    else
      var acc := ContributedUpTo(kids, i - 1, files, fuel);
      var d := Contributed(kids[i - 1], files, fuel);
      Collected(acc.stack + d.stack, acc.csv + d.csv, map[])
  }

  /** One step of the walk adds what its child adds. */
  lemma CollectStepValue(kids: seq<Node>, i: nat, files: map<string, Node>, fuel: nat)
    requires 0 < i <= |kids|
    requires CollectFold(kids, i, files, fuel).Success?
    ensures CollectFold(kids, i - 1, files, fuel).Success?
    ensures var c, d, p := CollectFold(kids, i - 1, files, fuel).value,
      CollectFold(kids, i, files, fuel).value, Contributed(kids[i - 1], files, fuel);
      d.stack == c.stack + p.stack && d.csv == c.csv + p.csv
  {
    FoldStep(kids, i, files, fuel);
  }

  /** A walk that succeeds over `i` children succeeds over one fewer. */
  lemma CollectShorter(kids: seq<Node>, i: nat, files: map<string, Node>, fuel: nat)
    requires 0 < i <= |kids|
    requires CollectFold(kids, i, files, fuel).Success?
    ensures CollectFold(kids, i - 1, files, fuel).Success?
  {
  }

  /** One step of the walk, read against what the children add. */
  lemma CollectUpToStep(kids: seq<Node>, i: nat, files: map<string, Node>, fuel: nat)
    requires 0 < i <= |kids|
    requires CollectFold(kids, i, files, fuel).Success? && CollectFold(kids, i - 1, files, fuel).Success?
    requires CollectFold(kids, i - 1, files, fuel).value.stack == ContributedUpTo(kids, i - 1, files, fuel).stack
    requires CollectFold(kids, i - 1, files, fuel).value.csv == ContributedUpTo(kids, i - 1, files, fuel).csv
    ensures CollectFold(kids, i, files, fuel).value.stack == ContributedUpTo(kids, i, files, fuel).stack
    ensures CollectFold(kids, i, files, fuel).value.csv == ContributedUpTo(kids, i, files, fuel).csv
  {
    CollectStepValue(kids, i, files, fuel);
  }

  /** The walk's entries and data sets are what the children add, in
      document order. */
  lemma {:induction false} CollectContents(kids: seq<Node>, i: nat, files: map<string, Node>, fuel: nat)
    requires i <= |kids|
    requires CollectFold(kids, i, files, fuel).Success?
    ensures CollectFold(kids, i, files, fuel).value.stack == ContributedUpTo(kids, i, files, fuel).stack
    ensures CollectFold(kids, i, files, fuel).value.csv == ContributedUpTo(kids, i, files, fuel).csv
  {
    var any := (k: Node) => true;
    var good := (k: nat) => CollectAgrees(kids, k, files, fuel);
    forall k | 0 < k <= i && good(k - 1) ensures good(k) {
      CollectAgreesStep(kids, k, files, fuel);
    }
    PrefixKeeps(kids, any, good, i);
  }

  /** The walk over the first `k` children, when it succeeds, agrees with
      the reference on the entries and data sets. */
  predicate CollectAgrees(kids: seq<Node>, k: nat, files: map<string, Node>, fuel: nat) {
    k <= |kids| &&
    (CollectFold(kids, k, files, fuel).Success? ==>
      CollectFold(kids, k, files, fuel).value.stack == ContributedUpTo(kids, k, files, fuel).stack &&
      CollectFold(kids, k, files, fuel).value.csv == ContributedUpTo(kids, k, files, fuel).csv)
  }

  /** Agreement carries over one more child. */
  lemma CollectAgreesStep(kids: seq<Node>, k: nat, files: map<string, Node>, fuel: nat)
    requires 0 < k <= |kids| && CollectAgrees(kids, k - 1, files, fuel)
    ensures CollectAgrees(kids, k, files, fuel)
  {
    if CollectFold(kids, k, files, fuel).Success? {
      CollectShorter(kids, k, files, fuel);
      CollectUpToStep(kids, k, files, fuel);
    }
  }

  /** The initial data: the thread count defaults to 1. */
  const Initial := Collected([], [], map["numthreads" := "1"])

  /** The document walk; it always yields a thread count. */
  function GetDataFromTest(root: Node, files: map<string, Node>, fuel: nat): (r: Result<Collected, Fault>)
    decreases fuel, root, 3, 0
    ensures r.Success? ==> "numthreads" in r.value.info
  {
    var body :- CollectFold(root.children, |root.children|, files, fuel);
    Success(Merge(Initial, body))
  }

  /** The document walk fails exactly when one of the top-level children
      fails. */
  lemma DocumentSucceeds(root: Node, files: map<string, Node>, fuel: nat)
    ensures GetDataFromTest(root, files, fuel).Success? <==>
      forall j :: 0 <= j < |root.children| ==> Contribution(root.children[j], files, fuel).Success?
  {
    WalkSucceeds(root.children, |root.children|, files, fuel);
  }

  /** Without a `testinfo` child the only test information is the default
      thread count of 1. */
  lemma DefaultInfo(root: Node, files: map<string, Node>, fuel: nat)
    requires forall j :: 0 <= j < |root.children| ==> root.children[j].name != "testinfo"
    requires GetDataFromTest(root, files, fuel).Success?
    ensures var info := GetDataFromTest(root, files, fuel).value.info;
      "numthreads" in info && info["numthreads"] == "1" && forall key :: key in info ==> key == "numthreads"
  {
    var kids := root.children;
    forall j | 0 <= j < |kids| ensures KindOf(kids[j].name) != TestinfoKind {
    }
    NoTestinfo(kids, |kids|, files, fuel);
  }

  /** The document's entries and data sets are what its top-level children
      add, in document order. */
  lemma DocumentContents(root: Node, files: map<string, Node>, fuel: nat)
    requires GetDataFromTest(root, files, fuel).Success?
    ensures GetDataFromTest(root, files, fuel).value.stack ==
      ContributedUpTo(root.children, |root.children|, files, fuel).stack
    ensures GetDataFromTest(root, files, fuel).value.csv ==
      ContributedUpTo(root.children, |root.children|, files, fuel).csv
  {
    var kids := root.children;
    CollectContents(kids, |kids|, files, fuel);
    var body := CollectFold(kids, |kids|, files, fuel).value;
    assert [] + body.stack == body.stack && [] + body.csv == body.csv;
  }
}
