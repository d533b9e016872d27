/** The in-memory model the collector builds from the input tree and the
    generators consume: the Ruby hashes of MeterMaid.rb as records.

    Ruby keeps most of an element's data in one flat hash keyed by child
    names.  Here the keys the engine treats specially become fields, and the
    rest stays in a `fields` map read through `Tree.Lookup`.
 */
module Records {
  import opened Wrappers
  import opened Plan

  /** A usable timer: all three of name, delay and range are present. */
  datatype TimerSpec = TimerSpec(name: string, delay: string, range: string)

  /** One `asserts` block: its attributes and non-literal children as flat
      fields (`not`, `type`, `name`, ...) and its assertion literals in
      document order. */
  datatype AssertSpec = AssertSpec(fields: map<string, string>, literals: seq<string>)

  /** One `http` element.  `fields` holds the flat children (`name`,
      `domain`, `path`, `method`, ...); `regexes` and `results` are the flat
      copies of the `regex` and `results` blocks; `vars` are the request
      parameters of the last `data` block; `hasKids` decides whether the
      sampler's companion subtree is opened. */
  datatype HttpSpec = HttpSpec(
    fields: map<string, string>,
    asserts: seq<AssertSpec>,
    regexes: seq<map<string, string>>,
    timers: seq<TimerSpec>,
    upload: map<string, string>,
    results: Option<map<string, string>>,
    vars: seq<(string, string)>,
    hasKids: bool)

  /** One `loop`: flat fields (`name`, `count`, `forever`, ...) and the HTTP
      tests it wraps. */
  datatype LoopSpec = LoopSpec(fields: map<string, string>, tests: seq<HttpSpec>)

  /** An entry of a stack, in execution order. */
  datatype StackEntry =
    | HttpEntry(http: HttpSpec)
    | LoopEntry(loop: LoopSpec)
    | ControllerEntry(ctrl: ControllerSpec)
    | TimerEntry(timer: TimerSpec)

  /** One `controller`: flat fields (`name`, `precent`, ...), its nested
      stack, and the CSV data sets spliced into it by script includes. */
  datatype ControllerSpec = ControllerSpec(
    fields: map<string, string>,
    stack: seq<StackEntry>,
    csv: seq<CsvItem>)

  /** A child of a `repeat` element.  The source renders it as soon as it
      is read; rendering is pure and cannot fail, so the model keeps the
      record and renders it when the data set is generated. */
  datatype Fragment =
    | HttpPart(http: HttpSpec)
    | LoopPart(loop: LoopSpec)

  /** An entry of a CSV data set.  A `loop` directly inside a data set is
      kept only as a marker: the source stores its already-rendered text and
      hands that text to the loop generator again, which raises.  A
      `repeat` holds the fragments of its children. */
  datatype CsvEntry =
    | CsvHttp(http: HttpSpec)
    | CsvLoop
    | CsvRepeat(items: seq<Fragment>)

  /** A CSV data set, or the nil the CSV processor returns for a `csv`
      element without children. */
  datatype CsvItem =
    | CsvSet(fields: map<string, string>, entries: seq<CsvEntry>)
    | CsvNil

  /** What the collector returns for one document: the main stack, the CSV
      data sets, and the `testinfo` keys (stored without their `testinfo.`
      prefix). */
  datatype Collected = Collected(
    stack: seq<StackEntry>,
    csv: seq<CsvItem>,
    info: map<string, string>)

  /** The exceptions the source raises, as values.  Any of them ends the
      run. */
  datatype Fault =
    | TimerIncomplete(line: nat)
    | IncludeUnresolved(line: nat)
    | IncludeTooDeep(line: nat)
    | BookkeepingKey(name: string, line: nat)
    | ControllerInCsv(line: nat)
    | CsvMissing
    | LoopInCsv
    | CsvFileUnreadable
    | NilRepeatFragment
}
