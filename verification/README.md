# MeterMaid transformation core in Dafny

MeterMaid turns a simplified XML test description into an Apache JMeter
test plan (a `.jmx` file). This project models its transformation core,
`MeterMaid.rb`, in two stages:

- **Collection** (`GetDataFromTest` and the `Process*` helpers) walks the
  parsed input document. It produces the test information, the main stack
  of samplers, loops, controllers and timers, and the CSV data sets.
- **Generation** (`GenerateJXM` and the `Generate*` helpers) turns the
  collected records into the plan.

The model works on an already-parsed document: a `Node` with a name,
attributes, text content, children and a line number. It produces the
plan as a sequence of `Token`s. A token is either one plan element or one
of the three `hashTree` markers: the opening `<hashTree>`, the closing
`</hashTree>`, and the empty `<hashTree/>`. A Ruby exception becomes a
`Fault`, and every operation that can raise returns a `Result`.

Modules:

- `Wrappers`: `Option` and `Result`.
- `Text`: `SafeStr`, the `=~` scan and `chomp`.
- `Tree`: the input node and the flat key/value copies the collectors make.
- `Plan`: tokens and the nesting discipline, `WellFormed`.
- `Records`: the collected records.
- `Generate`: timer, extractor, assertion, sampler, loop and controller
  generation.
- `Folds`: generic facts about left-to-right walks.
- `Collect`: collection.
- `Csv`: `GenerateCSVData`.
- `Document`: `GenerateJXM` and the whole run.

In these places the code does something other than what it appears to
intend. The model follows the code:

- `SafeStr` replaces `<`, then `>`, then `&`. So `<` becomes `&amp;lt;`, not
  `&lt;`.
- A loop without a `forever` child is not a forever loop: the default
  `false` reads as the text "false", which matches `/false/i`.
- An `upload` child does not open the sampler's subtree. Only `asserts`,
  `regex` and `results` children that have children do.
- A timer missing `delay` or `range` raises, because line 206 names `kid`
  outside its block. So the nil check at line 627 can never fail.
- An include whose `script` element has no `file` child before its first
  other child raises. So does one whose file is missing or does not parse:
  `GetDataFromTest(nil)` fails.
- The attributes of a `data` block are read but never used. Only the last
  `data` child counts.
- In a CSV data set, `new_tg = thread_group` aliases the thread-group
  buffer, and `<<` appends to it in place. Each `http` entry therefore
  writes out every earlier sampler again. The `repeat` buffer is never
  emptied, so each `repeat` entry writes every earlier repeat run again.
  With two or more `http` entries, the CSV runs close more `hashTree`s than
  they open.

## Model

| member | source | states |
|---|---|---|
| Text.ReplaceAll | MeterMaid.rb:92-96 | A one-character `gsub` removes every occurrence of the character when the replacement lacks it. It leaves text without the character unchanged and introduces no other characters. |
| Text.SafeStr | MeterMaid.rb:88-100 | The escaped text holds no `<` or `>`. Text without `<`, `>` or `&` is returned unchanged. |
| Text.SafeStrIsCharwise | MeterMaid.rb:88-100 | The three ordered replace-all passes equal the per-character reference escape: each character is escaped on its own. |
| Text.SafeStrAppend | MeterMaid.rb:88-100 | Escaping a concatenation is the concatenation of the escapes. |
| Text.SafeStrDoubleEscapes | MeterMaid.rb:88-100 | `&` is replaced last, so `<a&b>` becomes `&amp;lt;a&amp;b&amp;gt;`, not `&lt;a&amp;b&gt;`. |
| Text.SafeStrConflates | MeterMaid.rb:88-100 | The escaper is not injective: `s<t` and `s&lt;t` are different inputs with the same escaped text. |
| Text.Occurs | MeterMaid.rb:264-274 | The unanchored scan behind `=~` (optionally with `/i`) is true exactly when the pattern matches at some position. |
| Text.Chomp | MeterMaid.rb:402-404 | `chomp` returns a prefix of the line that is at most two characters shorter. A line that ends in `\n` or `\r` loses its terminator. Any other line, the empty one included, is returned unchanged. |
| Text.ChompRemovesOne | MeterMaid.rb:402-404 | What `chomp` removes is nothing, `\n`, `\r` or `\r\n`, and a trailing `\r\n` goes as a whole. |
| Csv.DataLinesAll | MeterMaid.rb:402-406 | The data-line count equals the number of lines exactly when no line is blank after `chomp`. |
| Tree.HarvestLast | MeterMaid.rb:197-201 | A flat copy holds a key exactly when an accepted child has that name. The value is the escaped content of the last such child. |
| Tree.HarvestKept | MeterMaid.rb:197-201 | Under the `/text/i` filter, a key without the letter t is present exactly when some child has that name. |
| Collect.TimerKeysKept | MeterMaid.rb:197-201 | A timer's `delay`, `range` and `name` are copied exactly when a child of that name exists. |
| Collect.ProcessTimer | MeterMaid.rb:189-215 | A timer is read exactly when it has both a `delay` and a `range` child. Otherwise it raises. |
| Collect.TimerFields | MeterMaid.rb:191-201 | A timer holds the escaped contents of its last `delay`, `range` and `name` children. Its name defaults to `Timer: Undefined Name`. |
| Generate.GenerateTimer | MeterMaid.rb:229-242 | The output is one Gaussian timer with the record's name, delay and range, followed by an empty subtree. |
| Generate.UseHeadersChoice | MeterMaid.rb:864-875 | `useHeaders` is `true` exactly for type `headers` and `URL` exactly for type `url`. Every other type gives `false`. |
| Generate.RegexMerged | MeterMaid.rb:846-892 | The extractor shows the block merged over the defaults. Its name is read from the misspelt key `nane`. |
| Generate.RegexNameIgnored | MeterMaid.rb:879 | The `name` of a regex block has no effect on the output. |
| Generate.AssertTestTypeMeaning | MeterMaid.rb:729-745 | Exactly one of match and contains is selected. Match needs a type naming `matches` but not `contains`. Negation needs `not` to match `/true/i` and the type to name one of the two. |
| Generate.GenerateAsserts | MeterMaid.rb:719-770 | No assertion exactly when the block has no literals. Otherwise one response assertion holds the literals, the test type and the name, which defaults to `!Unnamed Assert!`. |
| Collect.AssertLiterals | MeterMaid.rb:641-650 | There is one literal per child whose name matches `/assert/i` and not `/text/i`. The j-th literal is the escaped content of the j-th such child, in document order. |
| Collect.DataVars | MeterMaid.rb:681-697 | There is one request parameter per `data` child with a `name` attribute. The j-th parameter is the `name` attribute and escaped content of the j-th such child, in document order. |
| Collect.TimerStep | MeterMaid.rb:624-629 | A `timer` child of a sampler is accepted exactly when it is complete. It leaves the subtree flag and the fields alone. |
| Collect.BlockStep | MeterMaid.rb:630-697 | An `asserts`, `regex`, `results`, `upload` or `data` child raises the subtree flag exactly when it opens the subtree, and leaves the flat fields alone. |
| Collect.HttpFold | MeterMaid.rb:617-701 | After the walk over the first i children, the flat fields are the flat copy of those children. |
| Collect.HttpStep | MeterMaid.rb:618-700 | One child is accepted exactly when it is neither an incomplete timer nor a flat child named `assert` or `timers`. The subtree flag is raised exactly when the child raises it. A flat child overwrites its key and any other child leaves the fields alone. |
| Collect.HttpFoldOk | MeterMaid.rb:617-701 | The walk over an `http` element's children fails exactly when one child fails. |
| Collect.HttpFoldKids | MeterMaid.rb:630-672 | After a successful walk, the sampler's subtree is open exactly when some child opened it. |
| Collect.ProcessHttpElement | MeterMaid.rb:608-704 | A sampler's flat fields are the escaped contents of its flat children, last one wins. |
| Collect.HttpElementFacts | MeterMaid.rb:608-704 | An `http` element fails exactly when one of its children does. Its subtree is open exactly when it has an `asserts`, `regex` or `results` child that has children. |
| Collect.HttpElementLists | MeterMaid.rb:617-701 | A sampler's lists in document order: one timer per complete `timer` child, one assertion block per `asserts` child with children, and one extractor per `regex` child with children. Its result collector, upload and request parameters come from the last `results`, `upload` (with children) and `data` child. |
| Collect.HttpTimersWalk | MeterMaid.rb:624-629 | After i children, the timers are those of the complete `timer` children among them, in order. |
| Collect.HttpAssertsWalk | MeterMaid.rb:630-651 | After i children, the assertion blocks are those of the `asserts` children with children, in order. |
| Collect.HttpRegexesWalk | MeterMaid.rb:652-662 | After i children, the extractors are the flat copies of the `regex` children with children, in order. |
| Collect.HttpResultsWalk | MeterMaid.rb:663-671 | After i children, the result collector is the flat copy of the last `results` child with children, or none. |
| Collect.HttpUploadWalk | MeterMaid.rb:672-679 | After i children, the upload is the flat copy of the last `upload` child with children, or empty. |
| Collect.HttpVarsWalk | MeterMaid.rb:681-697 | After i children, the request parameters are those of the last `data` child, or none. |
| Generate.GenerateHttp | MeterMaid.rb:908-1080 | A sampler's output is well-formed and starts with the sampler and its marker. It holds a closing marker exactly when the sampler has kids. |
| Generate.GenRegexes | MeterMaid.rb:988-997 | A sampler's extractors are well-formed, with two tokens per block and no closing marker. |
| Generate.GenTimers | MeterMaid.rb:999-1006 | A sampler's timers are well-formed, with two tokens per timer and no closing marker. |
| Generate.GenAssertList | MeterMaid.rb:1008-1019 | A sampler's assertions are well-formed, with two tokens per block that has literals and no closing marker. |
| Generate.RegexesInOrder | MeterMaid.rb:988-997 | The i-th extractor of the output is the i-th `regex` block, generated. |
| Generate.TimersInOrder | MeterMaid.rb:999-1006 | The i-th timer of the output is the i-th timer record, generated. |
| Generate.AssertTallies | MeterMaid.rb:1008-1019 | The assertion list holds one assertion per block with literals and no other element. |
| Generate.GenResults | MeterMaid.rb:1021-1073 | A `results` block gives one result collector. Its file defaults to `report-result.log` and its name to the sampler's name. Without the block there is nothing. |
| Generate.HttpContents | MeterMaid.rb:988-1073 | A sampler holds one extractor per `regex` block, one timer per timer, one assertion per block with literals, and one collector exactly when there is a `results` block. |
| Generate.HttpRegexPart | MeterMaid.rb:988-997 | Right after the sampler and its marker come the extractors, one pair of tokens per `regex` block. |
| Generate.HttpTimerPart | MeterMaid.rb:999-1006 | The timers come right after the extractors, one pair per timer. |
| Generate.HttpAssertPart | MeterMaid.rb:1008-1019 | The assertions come right after the timers, one pair per block with literals. |
| Generate.HttpResultPart | MeterMaid.rb:1021-1077 | The result collector comes right after the assertions. After it there is only the closing marker, and only when the subtree was opened. |
| Collect.ProcessLoop | MeterMaid.rb:792-799 | A loop's samplers are its children matching `/http/i`, each processed as an `http` element, in document order. Its fields are the escaped contents of the other children. |
| Collect.LoopWalkOk | MeterMaid.rb:792-799 | The loop walk fails exactly when one of its children fails. |
| Generate.LoopFlags | MeterMaid.rb:801-809 | A loop is not forever exactly when `forever` is absent or matches `/false/i`. A forever loop has count -1. Any other loop has the given count, or 0. |
| Generate.GenerateLoop | MeterMaid.rb:784-832 | A loop yields nothing exactly when it has no samplers. Otherwise its output is well-formed. |
| Generate.GenTests | MeterMaid.rb:823-828 | A loop's samplers are well-formed and begin with the first sampler. |
| Generate.TestsGather | MeterMaid.rb:823-828 | A loop body is each test's sampler output, one after another in list order. |
| Generate.TestsAppend | MeterMaid.rb:823-828 | Two lists of tests generate one output after the other, and a single test generates its own sampler output. |
| Generate.LoopShape | MeterMaid.rb:811-831 | A loop's output is the loop controller, an opening marker, the first sampler, …, and a closing marker. |
| Generate.GenerateController | MeterMaid.rb:443-511 | A controller is a simple controller around a throughput controller with the `precent` percentage (default 15.0), closed twice. Between the two openings and the two closings sit exactly the generated stack entries. It is well-formed. |
| Generate.EntryTokens | MeterMaid.rb:488-505 | Each generated entry of a controller's stack is well-formed. It is empty exactly for a timer or a loop without samplers. |
| Generate.GenControllerItems | MeterMaid.rb:488-505 | The generated entries of a controller's stack are well-formed. Their content is stated by Generate.ItemsGather. |
| Generate.ItemsGather | MeterMaid.rb:488-505 | A controller's items are each stack entry's output, one after another in stack order. |
| Document.ItemsAsStack | MeterMaid.rb:488-505 | A controller's items are what its non-timer entries would generate on the main stack, in stack order. |
| Generate.ControllerNameIgnored | MeterMaid.rb:449-453 | A controller's `name` does not change its output. |
| Generate.ControllerCsvIgnored | MeterMaid.rb:488-505 | The CSV data sets an include adds to a controller are never generated. |
| Generate.ControllerTimerDropped | MeterMaid.rb:488-505 | A timer in a controller's stack is dropped. |
| Generate.ControllerAgree | MeterMaid.rb:443-511 | Two controllers with the same percentage and the same generated entries have the same output. |
| Collect.ProcessController | MeterMaid.rb:256-295 | A controller's flat fields are the escaped contents of its unclaimed children. Without includes, it has one stack entry per sampler, loop or controller child. |
| Collect.ControllerFold | MeterMaid.rb:263-292 | After the walk over the first i children, the fields are the flat copy of the unclaimed children. Without includes, there is one stack entry per sampler, loop or controller child and no data set. |
| Collect.ItemEntry | MeterMaid.rb:263-292 | A controller item becomes a sampler exactly when its name matches `/http/i`, a loop exactly when it matches `/loop/i` and not `/http/i`, and a nested controller otherwise. |
| Collect.ControllerWalk | MeterMaid.rb:263-292 | After i children, the entries and data sets are what those children add, in document order. An item adds its entry, a script with children what it includes, and anything else nothing. |
| Collect.ControllerContents | MeterMaid.rb:256-295 | A controller's entries and data sets are what its children add, in document order. |
| Collect.ControllerItemsWalk | MeterMaid.rb:263-292 | Without script children, the entries after i children are the items among them, in order, each classified by its name. |
| Collect.ControllerEntryKinds | MeterMaid.rb:263-292 | Without script children, the j-th entry comes from the j-th item child. It is a sampler exactly when the name matches `/http/i`, a loop exactly when it matches `/loop/i` and not `/http/i`, and otherwise a nested controller. No entry is a timer. |
| Collect.IncludeScripts | MeterMaid.rb:156-169 | An include contributes no test information, only stack entries and data sets. |
| Collect.IncludeContents | MeterMaid.rb:156-169 | An include's entries and data sets are what each child includes, in order. A non-text child includes the document named by the last `file` child at or before it. |
| Collect.IncludeNeedsFile | MeterMaid.rb:274-287 | An include succeeds only when each non-text child of the `script` element has a `file` child at or before it, and the include depth is not exhausted. |
| Collect.GenericNodeProcess | MeterMaid.rb:518-541 | A `repeat` node yields one fragment per `http` or `loop` child, in document order: a processed sampler for `http`, a processed loop for `loop`. |
| Collect.FragmentOf | MeterMaid.rb:523-537 | A child of a `repeat` is accepted exactly when it renders. A `controller` child raises. An `http` or `loop` child gives its one fragment, and any other child gives none. |
| Collect.RepeatWalkOk | MeterMaid.rb:518-541 | The repeat walk fails exactly when one of its children fails. |
| Collect.CsvStep | MeterMaid.rb:565-590 | A `controller` child of a `csv` element raises. A flat child overwrites its key and any other child leaves the fields alone. Each child appends its own entries: a sampler, a loop marker, or the copies of a `repeat`'s fragment list. |
| Collect.ProcessCSVElement | MeterMaid.rb:556-594 | A `csv` element is nil exactly when it has no children. Otherwise its fields are the escaped contents of its flat children, and its entries are each child's entries in document order. |
| Collect.CsvFold | MeterMaid.rb:564-590 | After the walk over the first i children, the fields are the flat copy of its flat children and the entries are each child's entries in document order. |
| Collect.CsvController | MeterMaid.rb:572-574 | A `csv` element with a `controller` child raises. |
| Collect.RepeatCopies | MeterMaid.rb:578-585 | A `repeat` with m non-text children adds m copies of the same fragment list. |
| Collect.KindOf | MeterMaid.rb:126-170 | Each of the seven kinds is chosen exactly when the element name equals its word. Any other name is dispatched to nothing. |
| Collect.Contribution | MeterMaid.rb:126-170 | Only `testinfo` contributes test information: the flat copy of its children not named `text`. Only `csv` and `script` contribute data sets. |
| Collect.ContributionEntries | MeterMaid.rb:126-170 | One top-level child adds, by kind: a timer, loop or controller with children its one entry; a sampler its entry; a `csv` element its data set; a script with children what it includes; anything else nothing. |
| Collect.WalkSucceeds | MeterMaid.rb:121-171 | The walk over the top-level children fails exactly when one of them fails. |
| Collect.CollectContents | MeterMaid.rb:121-171 | After i top-level children, the entries and data sets are what those children add, one after another in document order. |
| Collect.NoTestinfo | MeterMaid.rb:141-149 | Without a `testinfo` child the walk collects no test information. |
| Collect.GetDataFromTest | MeterMaid.rb:114-174 | The collected test information always holds a thread count. |
| Collect.DocumentSucceeds | MeterMaid.rb:114-174 | Collection fails exactly when one top-level child fails. |
| Collect.DocumentContents | MeterMaid.rb:114-174 | The document's entries and data sets are what its top-level children add, in document order. |
| Collect.DefaultInfo | MeterMaid.rb:115-119 | Without a `testinfo` child, the only test information is the thread count 1. |
| Csv.EntryStep | MeterMaid.rb:381-427 | Each entry only appends to the output. A `loop` entry raises. A `repeat` entry raises when the data file cannot be opened. |
| Csv.GenerateCSVData | MeterMaid.rb:336-430 | A data set starts with its data-set element. A nil data set or one with a `loop` entry raises. |
| Csv.Round | MeterMaid.rb:409-416 | One repeat run fails exactly when one of its fragments is missing. |
| Csv.Rounds | MeterMaid.rb:408-417 | The runs for n data lines fail exactly when there is at least one line and some fragment is missing. |
| Csv.RoundGather | MeterMaid.rb:409-416 | A run is each fragment in its own copy of the thread group, closed, in fragment order. |
| Csv.RoundSplit | MeterMaid.rb:409-416 | A run over two lists of fragments is the run over the first followed by the run over the second. |
| Csv.RoundsRepeated | MeterMaid.rb:408-417 | The runs for n data lines are n copies of the same run, line after line. |
| Csv.EntriesFold | MeterMaid.rb:381-427 | The walk over a data set's entries only appends to the output. It raises when an entry is a `loop`, or a `repeat` whose data file cannot be opened. |
| Csv.RoundsWellFormed | MeterMaid.rb:408-417 | Repeat runs over well-formed fragments, each in a fresh thread group, are well-formed. |
| Csv.RepeatOnly | MeterMaid.rb:394-420 | A data set whose only entry is a `repeat` writes one run per data line and is well-formed. |
| Csv.RepeatTwice | MeterMaid.rb:394-420 | A second `repeat` entry writes the first one's runs again before its own. |
| Csv.RoundsGroups | MeterMaid.rb:408-417 | n repeat runs over m fragments write n × m thread groups, one for each line and fragment. |
| Csv.RepeatGroups | MeterMaid.rb:394-420 | A data set whose only entry is a `repeat` of m renderable fragments writes m thread groups per data line that is not blank. |
| Csv.RepeatRuns | MeterMaid.rb:394-420 | A data set whose only entry is a `repeat` writes the data-set element and then, for each data line that is not blank, every fragment in item order, each in its own thread group. |
| Csv.SingleHttp | MeterMaid.rb:381-427 | A data set with one `http` entry writes one thread group holding the sampler, closed once, and is well-formed. |
| Csv.TwoHttp | MeterMaid.rb:381-427 | Two `http` entries write the thread group with the first sampler, then that same group again with the second sampler and one more closing marker. |
| Csv.HttpThenRepeat | MeterMaid.rb:390-426 | A `repeat` after an `http` entry succeeds exactly when its runs do. Its runs copy the thread group that already holds the sampler. After them, that group is closed once more and written again. |
| Csv.HttpEntryNet | MeterMaid.rb:390-426 | An `http` entry always succeeds. The sampler and a closing marker are appended to the thread group in place, the group is marked as appended to, and the grown group is written to the output. The group's depth drops by one. |
| Csv.HttpFoldNet | MeterMaid.rb:381-427 | k `http` entries read from a thread group of depth t always succeed, and they change the output's nesting by k(t-1) - k(k-1)/2. |
| Csv.HttpOnlyNet | MeterMaid.rb:381-427 | A data set of k `http` entries closes k(k-1)/2 more subtrees than it opens. |
| Document.CsvTokens | MeterMaid.rb:1229-1234 | The CSV runs succeed exactly when every data set does. |
| Document.GenerateJXM | MeterMaid.rb:1097-1250 | The plan is generated exactly when every data set is. It starts with the header, then holds the main stack's output, the two closing markers, the CSV runs, and the end of the main tree. |
| Document.PlanWellFormed | MeterMaid.rb:1151-1247 | When every data set generates a well-formed run, the whole plan nests properly. A plan without data sets always does. |
| Document.PlanNet | MeterMaid.rb:1223-1247 | The plan's nesting drift is exactly that of its CSV runs. |
| Document.SamplerDataSetUnbalanced | MeterMaid.rb:1223-1247 | A single data set of k samplers leaves the plan with k(k-1)/2 more closing than opening markers. |
| Document.DefaultHeader | MeterMaid.rb:1103-1113 | Without `testinfo`, the plan is unnamed, runs one thread and logs assertions with `AssertionVisualizer` to `assert.log`. |
| Document.StackPiece | MeterMaid.rb:1203-1220 | Each main-stack entry generates a well-formed piece. The piece is empty exactly for a loop without samplers. |
| Plan.FrameWellFormed | MeterMaid.rb:1151-1247 | The header, a well-formed stack, the two closing markers, well-formed CSV runs and the footer nest properly. |
| Document.StackTokens | MeterMaid.rb:1203-1221 | The main stack's output is well-formed. |
| Document.StackGather | MeterMaid.rb:1203-1221 | The main stack's output is each entry's piece, one after another in stack order. A single entry gives its own piece. |
| Document.StackAppend | MeterMaid.rb:1203-1221 | Two stacks one after the other generate one output after the other. |
| Document.Transform | MeterMaid.rb:61-73 | A run whose collection fails fails. A successful run starts with the plan element. |

## Left out

- Parsing, file access and the output file are not modelled. The parsed
  document is a `Node`, and includes are a map from file name to parsed
  document (an absent name is a missing or unparsable file). CSV data files
  are a map from file name to lines. The run's result is a token sequence,
  not a partly written file, so a run that raises part-way is simply a
  failure.
- The command-line front end and `ParseXML` are not part of this model.
- The output is modelled as elements and `hashTree` markers. XML text,
  whitespace, comments, attribute layout and `Time.now` stamps are not.
  Each assertion literal is named by Ruby's per-process `String#hash` of
  the literal. The model keeps the literal and leaves out the name, which
  is random and not reproducible. The fixed save-configuration properties
  of the result collectors are not modelled.
- The `precent` value is kept as the given text (`GivenPercent`) or the
  default. Ruby's float parse and `to_i` truncation are not modelled.
- Case-insensitive matching folds ASCII letters only.
- The console diagnostics (MeterMaid.rb:205-206, 316-317, 451-456, 1024, 1105-1106) are not modelled. They do not change the plan. Line 206 raises before it prints, which the model treats as the timer's fault.
- Collect.ProcessHttpElement, Collect.ProcessLoop, Collect.ProcessController, Collect.CsvStep: a child whose name collides with one of the source's own bookkeeping keys (`assert`, `timers`, `tests`, `stack`, `csv_stack`) makes the later generation misbehave in ways that depend on Ruby's dynamic typing. The model treats such a child as a fault.
- Collect.IncludeScripts, Collect.GetDataFromTest: include depth is bounded by a `fuel` argument. An include nested deeper than the fuel is a fault, whereas the source would recurse until the stack overflows.
- Which fault a failing run reports is not modelled. Loops are checked while collecting rather than while generating, so only the fact of failure matches the source.
- The thread-group number argument of `GenerateHttp` is never read by it and is not modelled.
- `GenerateController` on the raw node of a `csv` element's `controller` child raises in the source. The model raises while collecting.
- Repeat fragments are rendered while generating rather than while collecting. Both are pure, so the output is the same.
- Document.Transform: only states that collection faults propagate and the plan's first token. What the plan holds is stated by Document.GenerateJXM and Document.PlanWellFormed.
