/** The whole test plan (`GenerateJXM` of MeterMaid.rb) and the run from a
    parsed input document to the plan.

    The plan is the header (the test plan, the assertion listener, the
    main thread group and its cookie manager), the main stack in order,
    the two closing markers of the thread group and the test plan, the
    CSV test runs, and the closing marker of the main tree.  The source
    writes the two closing markers before the CSV runs when there are any
    and after them (where nothing follows) when there are none, so they
    come right after the stack either way.  The output file itself is not
    modelled: a run that raises part-way is a failure here, whatever the
    source had already written.
 */
module Document {
  import opened Wrappers
  import opened Tree
  import opened Plan
  import opened Records
  import opened Generate
  import opened Collect
  import opened Csv
  import opened Folds

  /** The header, read from the test information: the plan's name (default
      empty), the assertion listener's class (default
      `AssertionVisualizer`) and log file (default `assert.log`), and the
      number of threads. */
  function PlanHead(info: map<string, string>): seq<Token> {
    Header(
      TestPlan(Lookup(info, "name", "")),
      AssertionResults(Lookup(info, "asserttype", "AssertionVisualizer"), Lookup(info, "assertlog", "assert.log")),
      ThreadGroup(Lookup(info, "name", ""), Lookup(info, "numthreads", "")))
  }

  /** One entry of the main stack: a sampler, a controller, a loop (nothing
      when the loop has no sampler) or a timer. */
  function StackPiece(e: StackEntry): (r: seq<Token>)
    ensures WellFormed(r)
    ensures r == [] <==> e.LoopEntry? && |e.loop.tests| == 0
  {
    match e
    case HttpEntry(h) => GenerateHttp(h)
    case ControllerEntry(c) => GenerateController(c)
    case LoopEntry(l) => (match GenerateLoop(l) case Some(ts) => ts case None => WellFormedEmpty(); [])
    case TimerEntry(t) => GenerateTimer(t)
  }

  /** The main stack, in order. */
  function StackTokens(stack: seq<StackEntry>): (r: seq<Token>)
    ensures WellFormed(r)
  {
    if |stack| == 0 then WellFormedEmpty(); []
    else
      WellFormedAppend(StackPiece(stack[0]), StackTokens(stack[1..]));
      StackPiece(stack[0]) + StackTokens(stack[1..])
  }

  /** The main stack is each entry's output, one after another in stack
      order; a single entry is its own output. */
  lemma {:induction false} StackGather(stack: seq<StackEntry>)
    ensures StackTokens(stack) == Gather(stack, StackPiece)
    ensures |stack| == 1 ==> StackTokens(stack) == StackPiece(stack[0])
  {
    if |stack| > 0 {
      StackGather(stack[1..]);
      GatherFront(stack, StackPiece);
      assert |stack| == 1 ==> stack[1..] == [];
    }
  }

  /** Two stacks one after the other generate one output after the
      other. */
  lemma StackAppend(a: seq<StackEntry>, b: seq<StackEntry>)
    ensures StackTokens(a + b) == StackTokens(a) + StackTokens(b)
  {
    StackGather(a + b);
    StackGather(a);
    StackGather(b);
    GatherAppend(a, b, StackPiece);
  }

  /** An entry that is not a timer. */
  function NotTimer(e: StackEntry): bool {
    !e.TimerEntry?
  }

  /** Inside a controller an entry generates what it generates on the main
      stack, except a timer, which generates nothing. */
  lemma EntryAsPiece(e: StackEntry)
    ensures EntryTokens(e) == (if NotTimer(e) then StackPiece(e) else [])
  {
  }

  /** A controller's items are what its entries other than timers would
      generate on the main stack, in stack order. */
  lemma ItemsAsStack(c: ControllerSpec)
    ensures GenControllerItems(c, |c.stack|) == StackTokens(Chosen(c.stack, NotTimer))
  {
    ItemsGather(c, |c.stack|);
    assert c.stack[..|c.stack|] == c.stack;
    forall j | 0 <= j < |c.stack|
      ensures EntryTokens(c.stack[j]) == (if NotTimer(c.stack[j]) then StackPiece(c.stack[j]) else [])
    {
      EntryAsPiece(c.stack[j]);
    }
    GatherChosen(c.stack, NotTimer, EntryTokens, StackPiece);
    StackGather(Chosen(c.stack, NotTimer));
  }

  /** The CSV test runs, one data set after another.  The first data set
      that raises ends the run. */
  function CsvTokens(csv: seq<CsvItem>, files: map<string, seq<string>>): (r: Result<seq<Token>, Fault>)
    ensures r.Success? <==> forall j :: 0 <= j < |csv| ==> GenerateCSVData(csv[j], files).Success?
  {
    if |csv| == 0 then Success([])
    else
      var first :- GenerateCSVData(csv[0], files);
      assert forall j :: 1 <= j < |csv| ==> csv[1..][j - 1] == csv[j];
      var rest :- CsvTokens(csv[1..], files);
      Success(first + rest)
  }

  /** The test plan of the collected data.  It fails exactly when one of
      the data sets fails. */
  function GenerateJXM(c: Collected, files: map<string, seq<string>>): (r: Result<seq<Token>, Fault>)
    ensures r.Success? <==> forall j :: 0 <= j < |c.csv| ==> GenerateCSVData(c.csv[j], files).Success?
    ensures r.Success? ==> PlanHead(c.info) <= r.value && r.value[|r.value| - 2..] == [Close, PlanEnd]
    ensures r.Success? ==> |r.value| > 10 && r.value[0] == PlanBegin
    ensures r.Success? ==> var h, m := |PlanHead(c.info)|, |StackTokens(c.stack)|;
      h + m + 4 <= |r.value| &&
      r.value[h..h + m] == StackTokens(c.stack) &&
      r.value[h + m..h + m + 2] == [Close, Close] &&
      r.value[h + m + 2..|r.value| - 2] == CsvTokens(c.csv, files).value
  {
    var csvs :- CsvTokens(c.csv, files);
    PlanParts(PlanHead(c.info), StackTokens(c.stack), csvs);
    Success(PlanHead(c.info) + StackTokens(c.stack) + [Close, Close] + csvs + [Close, PlanEnd])
  }

  /** Where each part of a plan sits. */
  lemma PlanParts(head: seq<Token>, body: seq<Token>, csvs: seq<Token>)
    ensures var r, h, m := head + body + [Close, Close] + csvs + [Close, PlanEnd], |head|, |body|;
      h + m + 4 <= |r| &&
      r[h..h + m] == body && r[h + m..h + m + 2] == [Close, Close] && r[h + m + 2..|r| - 2] == csvs
  {
    var r, h, m := head + body + [Close, Close] + csvs + [Close, PlanEnd], |head|, |body|;
    assert r[h..h + m] == body;
    assert r[h + m..h + m + 2] == [Close, Close];
    assert r[h + m + 2..|r| - 2] == csvs;
  }

  /** The whole run: collection, then generation. */
  function Transform(root: Node, includes: map<string, Node>, csvFiles: map<string, seq<string>>, fuel: nat)
    : (r: Result<seq<Token>, Fault>)
    ensures GetDataFromTest(root, includes, fuel).Failure? ==> r.Failure?
    ensures r.Success? ==> |r.value| > 0 && r.value[0] == PlanBegin
  {
    var c :- GetDataFromTest(root, includes, fuel);
    GenerateJXM(c, csvFiles)
  }

  // ---------------------------------------------------------------------
  // Nesting of the plan
  // ---------------------------------------------------------------------

  /** The same, for the header of any test information. */
  lemma PlanFrame(info: map<string, string>, body: seq<Token>, csvs: seq<Token>)
    requires WellFormed(body) && WellFormed(csvs)
    ensures WellFormed(PlanHead(info) + body + [Close, Close] + csvs + [Close, PlanEnd])
  {
    var h := PlanHead(info);
    FrameWellFormed(h[2], h[4], h[6], body, csvs);
  }

  /** Every data set generates a well-formed run. */
  predicate RunsWell(csv: seq<CsvItem>, files: map<string, seq<string>>) {
    |csv| == 0 ||
    (GenerateCSVData(csv[0], files).Success? && WellFormed(GenerateCSVData(csv[0], files).value) &&
     RunsWell(csv[1..], files))
  }

  /** When every data set generates a well-formed run, the CSV runs
      together are generated and well-formed. */
  lemma {:induction false} CsvTokensWellFormed(csv: seq<CsvItem>, files: map<string, seq<string>>)
    requires RunsWell(csv, files)
    ensures CsvTokens(csv, files).Success? && WellFormed(CsvTokens(csv, files).value)
  {
    if |csv| == 0 {
      WellFormedEmpty();
    } else {
      CsvTokensWellFormed(csv[1..], files);
      WellFormedAppend(GenerateCSVData(csv[0], files).value, CsvTokens(csv[1..], files).value);
    }
  }

  /** The plan is well-formed whenever every data set generates a
      well-formed run; in particular a plan without data sets always is. */
  lemma PlanWellFormed(c: Collected, files: map<string, seq<string>>)
    requires RunsWell(c.csv, files)
    ensures GenerateJXM(c, files).Success? && WellFormed(GenerateJXM(c, files).value)
  {
    CsvTokensWellFormed(c.csv, files);
    PlanFrame(c.info, StackTokens(c.stack), CsvTokens(c.csv, files).value);
  }

  /** A single data set is its own run. */
  lemma CsvTokensOne(item: CsvItem, files: map<string, seq<string>>)
    requires GenerateCSVData(item, files).Success?
    ensures CsvTokens([item], files) == GenerateCSVData(item, files)
  {
    var run := GenerateCSVData(item, files).value;
    assert [item][1..] == [];
    assert run + [] == run;
  }

  /** The nesting of the plan is the nesting of its CSV runs. */
  lemma PlanNet(c: Collected, files: map<string, seq<string>>)
    requires GenerateJXM(c, files).Success?
    ensures Net(GenerateJXM(c, files).value) == Net(CsvTokens(c.csv, files).value)
  {
    var h, body, csvs := PlanHead(c.info), StackTokens(c.stack), CsvTokens(c.csv, files).value;
    var pre := h + body + [Close, Close];
    PlanFrame(c.info, body, []);
    assert pre + [] + [Close, PlanEnd] == pre + [Close, PlanEnd];
    NetAppend(pre, [Close, PlanEnd]);
    NetAppend(pre, csvs);
    NetAppend(pre + csvs, [Close, PlanEnd]);
  }

  /** A data set whose entries are all samplers, `k` of them, leaves the
      whole plan with `k * (k - 1) / 2` more closing than opening markers:
      with two or more samplers the plan does not nest. */
  lemma SamplerDataSetUnbalanced(c: Collected, f: map<string, string>, es: seq<CsvEntry>, files: map<string, seq<string>>)
    requires c.csv == [CsvSet(f, es)]
    requires forall j :: 0 <= j < |es| ==> es[j].CsvHttp?
    ensures GenerateJXM(c, files).Success?
    ensures Net(GenerateJXM(c, files).value) + Pairs(|es|) == 0
  {
    SamplerRunNet(f, es, files);
    CsvTokensOne(CsvSet(f, es), files);
    PlanNet(c, files);
  }

  /** Without a `testinfo` element the plan is unnamed, runs one thread and
      logs assertions with the default listener to `assert.log`. */
  lemma DefaultHeader(root: Node, includes: map<string, Node>, fuel: nat)
    requires forall j :: 0 <= j < |root.children| ==> root.children[j].name != "testinfo"
    requires GetDataFromTest(root, includes, fuel).Success?
    ensures var info := GetDataFromTest(root, includes, fuel).value.info;
      PlanHead(info)[2] == TestPlan("") &&
      PlanHead(info)[4] == AssertionResults("AssertionVisualizer", "assert.log") &&
      PlanHead(info)[6] == ThreadGroup("", "1")
  {
    DefaultInfo(root, includes, fuel);
    HeaderDefaults(GetDataFromTest(root, includes, fuel).value.info);
  }

  /** The header of test information that holds only a thread count of 1. */
  lemma HeaderDefaults(info: map<string, string>)
    requires "numthreads" in info && info["numthreads"] == "1"
    requires forall key :: key in info ==> key == "numthreads"
    ensures PlanHead(info)[2] == TestPlan("")
    ensures PlanHead(info)[4] == AssertionResults("AssertionVisualizer", "assert.log")
    ensures PlanHead(info)[6] == ThreadGroup("", "1")
  {
    assert "name" !in info && "asserttype" !in info && "assertlog" !in info;
  }
}
