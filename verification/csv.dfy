/** Generation of the CSV test runs (`GenerateCSVData` of MeterMaid.rb).

    The source keeps four string buffers while it walks a data set's
    entries, and two of them alias in a way that shapes the output:
    - `tg` is the thread-group text.  An `http` entry appends its sampler
      and a closing marker to it in place, so every later entry starts from
      a thread group that already holds the earlier samplers;
    - `rep` collects the repeat runs and is never emptied, so each `repeat`
      entry writes out the runs of every earlier `repeat` entry again;
    - `shared` records that `tg` has been appended to in place, after which
      a `repeat` entry closes `tg` once more and writes it out again;
    - `out` is the data set's output.

    The data file is read only when a `repeat` entry is reached; `files`
    maps a file name to its lines (terminators included), and a name that
    is absent stands for a file that cannot be opened.
 */
module Csv {
  import opened Wrappers
  import opened Text
  import opened Tree
  import opened Plan
  import opened Records
  import opened Generate
  import opened Folds

  /** The data-set element and its empty companion subtree. */
  function DataSetHeader(fields: map<string, string>): seq<Token> {
    [CsvDataSet(Lookup(fields, "name", ""), Lookup(fields, "filename", ""), Lookup(fields, "varnames", "")), Empty]
  }

  /** A fresh thread group: the element, the opening marker of its subtree
      and the cookie manager with its empty subtree. */
  function GroupHead(fields: map<string, string>): seq<Token> {
    [CsvThreadGroup(Lookup(fields, "name", "")), Open, CookieManager, Empty]
  }

  /** A line that is not blank once its terminator is removed. */
  predicate DataLine(line: string) {
    !BlankLine(line)
  }

  /** The number of lines that are not blank once their terminator is
      removed. */
  function DataLines(lines: seq<string>): (n: nat)
    ensures n <= |lines|
  {
    Counted(lines, DataLine)
  }

  /** Every line is counted exactly when no line is blank. */
  lemma DataLinesAll(lines: seq<string>)
    ensures DataLines(lines) == |lines| <==> forall i :: 0 <= i < |lines| ==> !BlankLine(lines[i])
  {
    CountedAll(lines, DataLine);
  }

  /** The lines of the data file, when the data set names one that can be
      opened. */
  function DataFile(fields: map<string, string>, files: map<string, seq<string>>): Option<seq<string>> {
    if "filename" in fields && fields["filename"] in files then Some(files[fields["filename"]]) else None
  }

  /** A repeat fragment rendered: a sampler, or a loop (nothing when the
      loop has no sampler). */
  function Render(f: Fragment): (r: Option<seq<Token>>)
    ensures r.Some? ==> WellFormed(r.value)
  {
    match f
    case HttpPart(h) => Some(GenerateHttp(h))
    case LoopPart(l) => GenerateLoop(l)
  }

  /** A data-set entry with its samplers and fragments rendered.  The
      source renders them while it walks the entries; rendering is pure and
      cannot raise, so it is done first here and the walk below only moves
      tokens between buffers. */
  datatype Piece =
    | PieceHttp(ts: seq<Token>)
    | PieceLoop
    | PieceRepeat(frags: seq<Option<seq<Token>>>)

  /** Every rendering a piece holds is well-formed. */
  predicate WellRendered(p: Piece) {
    (p.PieceHttp? ==> WellFormed(p.ts)) &&
    (p.PieceRepeat? ==> forall j :: 0 <= j < |p.frags| && p.frags[j].Some? ==> WellFormed(p.frags[j].value))
  }

  function RenderFragments(items: seq<Fragment>): (r: seq<Option<seq<Token>>>)
    ensures |r| == |items|
    ensures forall j :: 0 <= j < |items| ==> r[j] == Render(items[j])
  {
    if |items| == 0 then [] else [Render(items[0])] + RenderFragments(items[1..])
  }

  function RenderEntry(e: CsvEntry): (p: Piece)
    ensures WellRendered(p)
  {
    match e
    case CsvHttp(h) => PieceHttp(GenerateHttp(h))
    case CsvLoop => PieceLoop
    case CsvRepeat(items) => PieceRepeat(RenderFragments(items))
  }

  function RenderEntries(es: seq<CsvEntry>): (r: seq<Piece>)
    ensures |r| == |es|
    ensures forall j :: 0 <= j < |es| ==> r[j] == RenderEntry(es[j])
  {
    if |es| == 0 then [] else [RenderEntry(es[0])] + RenderEntries(es[1..])
  }

  /** One run over a repeat's fragments: each is placed in a copy of the
      thread group and closed.  A fragment without a rendering (a loop
      without samplers) cannot be appended and raises. */
  function Round(tg: seq<Token>, frags: seq<Option<seq<Token>>>): (r: Result<seq<Token>, Fault>)
    ensures r.Success? <==> None !in frags
  {
    if |frags| == 0 then Success([])
    else
      match frags[0]
      case None => Failure(NilRepeatFragment)
      case Some(v) =>
        assert frags == [frags[0]] + frags[1..];
        var rest :- Round(tg, frags[1..]);
        Success(tg + v + [Close] + rest)
  }

  /** `n` runs over a repeat's fragments, one per data line. */
  function Rounds(tg: seq<Token>, frags: seq<Option<seq<Token>>>, n: nat): (r: Result<seq<Token>, Fault>)
    ensures r.Success? <==> n == 0 || None !in frags
  {
    if n == 0 then Success([])
    else
      var prev :- Rounds(tg, frags, n - 1);
      var run :- Round(tg, frags);
      Success(prev + run)
  }

  /** One fragment placed in a copy of the thread group and closed (a
      fragment without a rendering places nothing, but makes the run
      fail). */
  function GroupRun(tg: seq<Token>, o: Option<seq<Token>>): seq<Token> {
    match o
    case Some(v) => tg + v + [Close]
    case None => []
  }

  /** A run is each fragment in its own copy of the thread group, in
      fragment order. */
  lemma {:induction false} RoundGather(tg: seq<Token>, frags: seq<Option<seq<Token>>>)
    requires None !in frags
    ensures Round(tg, frags).value == Gather(frags, (o: Option<seq<Token>>) => GroupRun(tg, o))
  {
    if |frags| > 0 {
      assert frags == [frags[0]] + frags[1..];
      RoundGather(tg, frags[1..]);
      GatherFront(frags, (o: Option<seq<Token>>) => GroupRun(tg, o));
    }
  }

  /** A run over two lists of fragments, one after the other, is the run
      over the first followed by the run over the second. */
  lemma RoundSplit(tg: seq<Token>, a: seq<Option<seq<Token>>>, b: seq<Option<seq<Token>>>)
    requires None !in a && None !in b
    ensures Round(tg, a + b).Success?
    ensures Round(tg, a + b).value == Round(tg, a).value + Round(tg, b).value
  {
    assert None !in a + b;
    RoundGather(tg, a + b);
    RoundGather(tg, a);
    RoundGather(tg, b);
    GatherAppend(a, b, (o: Option<seq<Token>>) => GroupRun(tg, o));
  }

  /** The runs for `n` data lines are `n` copies of the same run: every
      line writes the fragments again, line after line. */
  lemma {:induction false} RoundsRepeated(tg: seq<Token>, frags: seq<Option<seq<Token>>>, n: nat)
    requires None !in frags
    ensures Rounds(tg, frags, n).value == Repeated(Round(tg, frags).value, n)
  {
    if n > 0 {
      RoundsRepeated(tg, frags, n - 1);
    }
  }

  /** The four buffers of the generator. */
  datatype Buffers = Buffers(tg: seq<Token>, shared: bool, rep: seq<Token>, out: seq<Token>)

  /** One entry of a data set.  An `http` entry appends its sampler and a
      closing marker to the thread group in place and writes the whole
      thread group; a `repeat` entry adds its runs to the repeat buffer,
      writes the whole repeat buffer and, once the thread group has been
      appended to, closes it again and writes it again; a `loop` entry
      holds text where a loop node is expected and raises. */
  function EntryStep(b: Buffers, p: Piece, lines: Option<seq<string>>): (r: Result<Buffers, Fault>)
    ensures r.Success? ==> b.out <= r.value.out
    ensures p.PieceLoop? ==> r.Failure?
    ensures p.PieceRepeat? && lines.None? ==> r.Failure?
  {
    match p
    case PieceHttp(v) =>
      var tg := b.tg + v + [Close];
      Success(Buffers(tg, true, b.rep, b.out + tg))
    case PieceLoop => Failure(LoopInCsv)
    case PieceRepeat(frags) =>
      if lines.None? then Failure(CsvFileUnreadable)
      else
        var run :- Rounds(b.tg, frags, DataLines(lines.value));
        var rep := b.rep + run;
        if b.shared then
          var tg := b.tg + [Close];
          Success(Buffers(tg, true, rep, b.out + rep + tg))
        else
          Success(Buffers(b.tg, false, rep, b.out + rep))
  }

  /** Some piece is a `repeat`. */
  predicate AnyRepeat(ps: seq<Piece>) {
    |ps| > 0 && (ps[0].PieceRepeat? || AnyRepeat(ps[1..]))
  }

  /** The entries of a data set, in order. */
  function EntriesFold(b: Buffers, ps: seq<Piece>, lines: Option<seq<string>>): (r: Result<Buffers, Fault>)
    decreases |ps|
    ensures r.Success? ==> b.out <= r.value.out
    ensures PieceLoop in ps ==> r.Failure?
    ensures AnyRepeat(ps) && lines.None? ==> r.Failure?
  {
    if |ps| == 0 then Success(b)
    else
      var b' :- EntryStep(b, ps[0], lines);
      assert ps == [ps[0]] + ps[1..];
      EntriesFold(b', ps[1..], lines)
  }

  /** The buffers a data set starts from. */
  function Start(f: map<string, string>): Buffers {
    Buffers(GroupHead(f), false, [], DataSetHeader(f))
  }

  /** The test runs of one data set: the data-set element followed by what
      the entries write.  A `csv` element without children was collected as
      nil, and generating it raises; so does a `loop` entry, and a `repeat`
      entry when the data file cannot be opened. */
  function GenerateCSVData(item: CsvItem, files: map<string, seq<string>>): (r: Result<seq<Token>, Fault>)
    ensures item.CsvNil? ==> r.Failure?
    ensures r.Success? ==> DataSetHeader(item.fields) <= r.value
    ensures item.CsvSet? && CsvLoop in item.entries ==> r.Failure?
  {
    match item
    case CsvNil => Failure(CsvMissing)
    case CsvSet(fields, entries) =>
      var ps := RenderEntries(entries);
      assert CsvLoop in entries ==> PieceLoop in ps;
      var b :- EntriesFold(Start(fields), ps, DataFile(fields, files));
      Success(b.out)
  }

  // ---------------------------------------------------------------------
  // Nesting of the output
  // ---------------------------------------------------------------------

  /** A thread group around a well-formed fragment, closed once, is
      well-formed. */
  lemma GroupRunWellFormed(f: map<string, string>, v: seq<Token>)
    requires WellFormed(v)
    ensures WellFormed(GroupHead(f) + v + [Close])
  {
    var e := CsvThreadGroup(Lookup(f, "name", ""));
    WellFormedLeaf(CookieManager);
    WellFormedAppend([CookieManager, Empty], v);
    WellFormedSubtree(e, [CookieManager, Empty] + v);
    assert GroupHead(f) + v + [Close] == [e, Open] + ([CookieManager, Empty] + v) + [Close];
  }

  /** Well-formed fragments, each in a fresh thread group, make a
      well-formed run. */
  lemma {:induction false} RoundWellFormed(f: map<string, string>, frags: seq<Option<seq<Token>>>)
    requires None !in frags
    requires forall j :: 0 <= j < |frags| && frags[j].Some? ==> WellFormed(frags[j].value)
    ensures WellFormed(Round(GroupHead(f), frags).value)
  {
    if |frags| == 0 {
      WellFormedEmpty();
    } else {
      assert frags == [frags[0]] + frags[1..];
      var v := frags[0].value;
      RoundWellFormed(f, frags[1..]);
      GroupRunWellFormed(f, v);
      WellFormedAppend(GroupHead(f) + v + [Close], Round(GroupHead(f), frags[1..]).value);
    }
  }

  lemma {:induction false} RoundsWellFormed(f: map<string, string>, frags: seq<Option<seq<Token>>>, n: nat)
    requires None !in frags
    requires forall j :: 0 <= j < |frags| && frags[j].Some? ==> WellFormed(frags[j].value)
    ensures WellFormed(Rounds(GroupHead(f), frags, n).value)
  {
    if n == 0 {
      WellFormedEmpty();
    } else {
      RoundsWellFormed(f, frags, n - 1);
      RoundWellFormed(f, frags);
      WellFormedAppend(Rounds(GroupHead(f), frags, n - 1).value, Round(GroupHead(f), frags).value);
    }
  }

  /** The data-set element followed by a well-formed sequence is
      well-formed. */
  lemma HeaderWellFormed(f: map<string, string>, ts: seq<Token>)
    requires WellFormed(ts)
    ensures WellFormed(DataSetHeader(f) + ts)
  {
    WellFormedLeaf(DataSetHeader(f)[0]);
    WellFormedAppend(DataSetHeader(f), ts);
  }

  /** A walk over a single piece is that piece's step. */
  lemma FoldOne(b: Buffers, p: Piece, lines: Option<seq<string>>)
    ensures EntriesFold(b, [p], lines) == EntryStep(b, p, lines)
  {
    assert [p][1..] == [];
  }

  /** A walk over two pieces is the second piece's step after the first. */
  lemma FoldTwo(b: Buffers, p: Piece, q: Piece, lines: Option<seq<string>>)
    requires EntryStep(b, p, lines).Success?
    ensures EntriesFold(b, [p, q], lines) == EntryStep(EntryStep(b, p, lines).value, q, lines)
  {
    assert [p, q][1..] == [q];
    FoldOne(EntryStep(b, p, lines).value, q, lines);
  }

  /** A `repeat` before any `http` entry adds its runs to the repeat buffer
      and writes the whole repeat buffer. */
  lemma RepeatStep(b: Buffers, frags: seq<Option<seq<Token>>>, lines: seq<string>)
    requires !b.shared && None !in frags
    ensures var run := Rounds(b.tg, frags, DataLines(lines)).value;
      EntryStep(b, PieceRepeat(frags), Some(lines)) == Success(Buffers(b.tg, false, b.rep + run, b.out + (b.rep + run)))
  {
  }

  /** A data set whose only entry is a `repeat` writes the data-set element
      and then one run over the repeat's fragments per data line, each
      fragment in a fresh thread group; when no fragment is missing the
      result is well-formed. */
  lemma RepeatOnly(f: map<string, string>, frags: seq<Option<seq<Token>>>, lines: seq<string>)
    requires None !in frags
    requires forall j :: 0 <= j < |frags| && frags[j].Some? ==> WellFormed(frags[j].value)
    ensures var runs := Rounds(GroupHead(f), frags, DataLines(lines)).value;
      EntriesFold(Start(f), [PieceRepeat(frags)], Some(lines)) ==
        Success(Buffers(GroupHead(f), false, runs, DataSetHeader(f) + runs)) &&
      WellFormed(DataSetHeader(f) + runs)
  {
    var runs := Rounds(GroupHead(f), frags, DataLines(lines)).value;
    FoldOne(Start(f), PieceRepeat(frags), Some(lines));
    RepeatStep(Start(f), frags, lines);
    assert [] + runs == runs;
    RoundsWellFormed(f, frags, DataLines(lines));
    HeaderWellFormed(f, runs);
  }

  /** A rendered fragment holds no thread group of its own. */
  lemma RenderGroups(f: Fragment)
    requires Render(f).Some?
    ensures Tally(Render(f).value, IsGroupToken) == 0
  {
    match f
    case HttpPart(h) => HttpContents(h);
    case LoopPart(l) => LoopGroups(l);
  }

  /** The data-set element holds no thread group; a fresh thread group
      holds one. */
  lemma HeadGroups(f: map<string, string>)
    ensures Tally(DataSetHeader(f), IsGroupToken) == 0 && Tally(GroupHead(f), IsGroupToken) == 1
  {
    var g, h := GroupHead(f), DataSetHeader(f);
    TallyPair(g[0], g[1], [CookieManager, Empty], IsGroupToken);
    TallyPair(CookieManager, Empty, [], IsGroupToken);
    TallyPair(h[0], Empty, [], IsGroupToken);
    assert [CookieManager, Empty] + [] == [CookieManager, Empty];
    assert [h[0], Empty] + [] == h;
  }

  /** One run over `m` fragments that hold no thread group holds `m`
      thread groups: each fragment gets a fresh one. */
  lemma {:induction false} RoundGroups(f: map<string, string>, frags: seq<Option<seq<Token>>>)
    requires None !in frags
    requires forall j :: 0 <= j < |frags| && frags[j].Some? ==> Tally(frags[j].value, IsGroupToken) == 0
    ensures Tally(Round(GroupHead(f), frags).value, IsGroupToken) == |frags|
  {
    if |frags| > 0 {
      var v, tl := frags[0].value, frags[1..];
      assert forall j :: 0 <= j < |tl| ==> tl[j] == frags[j + 1];
      RoundGroups(f, tl);
      var rest := Round(GroupHead(f), tl).value;
      assert Round(GroupHead(f), frags).value == GroupHead(f) + v + [Close] + rest;
      TallyAppend4(GroupHead(f), v, [Close], rest, IsGroupToken);
      HeadGroups(f);
      assert [Close][1..] == [];
    }
  }

  /** `n` runs over `m` such fragments hold `n * m` thread groups. */
  lemma {:induction false} RoundsGroups(f: map<string, string>, frags: seq<Option<seq<Token>>>, n: nat)
    requires None !in frags
    requires forall j :: 0 <= j < |frags| && frags[j].Some? ==> Tally(frags[j].value, IsGroupToken) == 0
    ensures Tally(Rounds(GroupHead(f), frags, n).value, IsGroupToken) == n * |frags|
  {
    if n > 0 {
      RoundsGroups(f, frags, n - 1);
      RoundGroups(f, frags);
      TallyAppend(Rounds(GroupHead(f), frags, n - 1).value, Round(GroupHead(f), frags).value, IsGroupToken);
    }
  }

  /** A data set whose only entry is a `repeat` of `m` fragments that all
      render writes `m` thread groups for each line of its data file that
      is not blank. */
  lemma RepeatGroups(f: map<string, string>, items: seq<Fragment>, files: map<string, seq<string>>)
    requires "filename" in f && f["filename"] in files
    requires forall j :: 0 <= j < |items| ==> Render(items[j]).Some?
    ensures GenerateCSVData(CsvSet(f, [CsvRepeat(items)]), files).Success?
    ensures Tally(GenerateCSVData(CsvSet(f, [CsvRepeat(items)]), files).value, IsGroupToken) ==
      DataLines(files[f["filename"]]) * |items|
  {
    var lines := files[f["filename"]];
    var frags := RenderFragments(items);
    assert None !in frags;
    forall j | 0 <= j < |frags| && frags[j].Some?
      ensures Tally(frags[j].value, IsGroupToken) == 0
    {
      RenderGroups(items[j]);
    }
    RepeatOutput(f, items, files);
    var runs := Rounds(GroupHead(f), frags, DataLines(lines)).value;
    RoundsGroups(f, frags, DataLines(lines));
    HeadGroups(f);
    TallyAppend(DataSetHeader(f), runs, IsGroupToken);
  }

  /** A data set whose only entry is a `repeat` of fragments that all
      render writes the data-set element and then, for each line of its
      data file that is not blank, one run: each fragment in item order,
      in its own copy of the thread group. */
  lemma RepeatRuns(f: map<string, string>, items: seq<Fragment>, files: map<string, seq<string>>)
    requires "filename" in f && f["filename"] in files
    requires forall j :: 0 <= j < |items| ==> Render(items[j]).Some?
    ensures GenerateCSVData(CsvSet(f, [CsvRepeat(items)]), files).Success?
    ensures GenerateCSVData(CsvSet(f, [CsvRepeat(items)]), files).value ==
      DataSetHeader(f) +
      Repeated(Gather(RenderFragments(items), (o: Option<seq<Token>>) => GroupRun(GroupHead(f), o)),
               DataLines(files[f["filename"]]))
  {
    var frags := RenderFragments(items);
    RepeatOutput(f, items, files);
    RoundsRepeated(GroupHead(f), frags, DataLines(files[f["filename"]]));
    RoundGather(GroupHead(f), frags);
  }

  /** The output of a data set whose only entry is a `repeat`: the
      data-set element, then the runs for its data lines. */
  lemma RepeatOutput(f: map<string, string>, items: seq<Fragment>, files: map<string, seq<string>>)
    requires "filename" in f && f["filename"] in files
    requires forall j :: 0 <= j < |items| ==> Render(items[j]).Some?
    ensures None !in RenderFragments(items)
    ensures GenerateCSVData(CsvSet(f, [CsvRepeat(items)]), files).Success?
    ensures GenerateCSVData(CsvSet(f, [CsvRepeat(items)]), files).value ==
      DataSetHeader(f) + Rounds(GroupHead(f), RenderFragments(items), DataLines(files[f["filename"]])).value
  {
    var lines := files[f["filename"]];
    var frags := RenderFragments(items);
    assert None !in frags;
    assert RenderEntries([CsvRepeat(items)]) == [PieceRepeat(frags)];
    FoldOne(Start(f), PieceRepeat(frags), Some(lines));
    RepeatStep(Start(f), frags, lines);
    CsvDataWalk(f, [CsvRepeat(items)], files);
    var runs := Rounds(GroupHead(f), frags, DataLines(lines)).value;
    assert [] + runs == runs;
  }

  /** The repeat buffer is never emptied: a second `repeat` entry writes
      the runs of the first one again before its own. */
  lemma RepeatTwice(f: map<string, string>, a: seq<Option<seq<Token>>>, c: seq<Option<seq<Token>>>, lines: seq<string>)
    requires None !in a && None !in c
    ensures var n := DataLines(lines);
      var ra, rc := Rounds(GroupHead(f), a, n).value, Rounds(GroupHead(f), c, n).value;
      var r := EntriesFold(Start(f), [PieceRepeat(a), PieceRepeat(c)], Some(lines));
      r.Success? && r.value.out == DataSetHeader(f) + ra + (ra + rc)
  {
    var n := DataLines(lines);
    var ra := Rounds(GroupHead(f), a, n).value;
    RepeatStep(Start(f), a, lines);
    assert [] + ra == ra;
    var mid := Buffers(GroupHead(f), false, ra, DataSetHeader(f) + ra);
    RepeatStep(mid, c, lines);
    FoldTwo(Start(f), PieceRepeat(a), PieceRepeat(c), Some(lines));
  }

  /** `k * (k - 1) / 2`: the number of pairs among `k` entries. */
  function Pairs(k: nat): nat {
    if k == 0 then 0 else Pairs(k - 1) + (k - 1)
  }

  /** The drift after `k` entries from the drift after the first entry
      and the drift of the remaining `k - 1`. */
  lemma PairsStep(k: nat, t: int, o: int, o': int, r: int)
    requires k > 0 && o' == o + t - 1
    requires r == o' + (k - 1) * ((t - 1) - 1) - Pairs(k - 1)
    ensures r == o + k * (t - 1) - Pairs(k)
  {
    assert (k - 1) * (t - 2) == k * (t - 1) - (t - 1) - (k - 1);
  }

  /** Only `http` pieces. */
  predicate AllHttp(ps: seq<Piece>) {
    forall j :: 0 <= j < |ps| ==> ps[j].PieceHttp? && WellFormed(ps[j].ts)
  }

  /** One `http` entry appends the thread group, now closing the sampler,
      to the output: the group's depth drops by one. */
  lemma HttpEntryNet(b: Buffers, v: seq<Token>, lines: Option<seq<string>>)
    requires WellFormed(v)
    ensures EntryStep(b, PieceHttp(v), lines).Success?
    ensures var b' := EntryStep(b, PieceHttp(v), lines).value;
      b'.tg == b.tg + v + [Close] && b'.shared && b'.rep == b.rep && b'.out == b.out + b'.tg
    ensures var b' := EntryStep(b, PieceHttp(v), lines).value;
      Net(b'.tg) == Net(b.tg) - 1 && Net(b'.out) == Net(b.out) + Net(b.tg) - 1
  {
    var tg := b.tg + v + [Close];
    NetAppend(b.tg, v);
    NetAppend(b.tg + v, [Close]);
    NetAppend(b.out, tg);
    assert Net([Close]) == -1;
  }

  /** The nesting drift of `k` `http` entries read from a thread group of
      depth `t`: each entry writes the whole thread group, whose depth has
      dropped by one for every earlier entry. */
  lemma {:induction false} HttpFoldNet(b: Buffers, ps: seq<Piece>, lines: Option<seq<string>>)
    requires AllHttp(ps)
    decreases |ps|
    ensures EntriesFold(b, ps, lines).Success?
    ensures Net(EntriesFold(b, ps, lines).value.out) == Net(b.out) + |ps| * (Net(b.tg) - 1) - Pairs(|ps|)
  {
    if |ps| > 0 {
      assert ps[0].PieceHttp? && WellFormed(ps[0].ts);
      HttpEntryNet(b, ps[0].ts, lines);
      var b' := EntryStep(b, ps[0], lines).value;
      assert forall j :: 0 <= j < |ps| - 1 ==> ps[1..][j] == ps[j + 1];
      HttpFoldNet(b', ps[1..], lines);
      var r := EntriesFold(b', ps[1..], lines).value;
      assert EntriesFold(b, ps, lines) == Success(r);
      PairsStep(|ps|, Net(b.tg), Net(b.out), Net(b'.out), Net(r.out));
    }
  }

  lemma StartNet(f: map<string, string>)
    ensures Net(DataSetHeader(f)) == 0 && Net(GroupHead(f)) == 1
  {
    var h, g := DataSetHeader(f), GroupHead(f);
    assert h == [h[0]] + [Empty];
    NetAppend([h[0]], [Empty]);
    NetSingle(h[0]);
    NetSingle(Empty);
    assert g == [g[0]] + [Open] + [CookieManager] + [Empty];
    NetAppend([g[0]], [Open]);
    NetAppend([g[0]] + [Open], [CookieManager]);
    NetAppend([g[0]] + [Open] + [CookieManager], [Empty]);
    NetSingle(g[0]);
    NetSingle(Open);
    NetSingle(CookieManager);
  }

  /** With only `http` entries, the `i`-th entry writes the thread group
      holding all `i` samplers so far with `i` closing markers for its one
      opening marker: `k` entries close `k * (k - 1) / 2` subtrees more than
      they open, so two or more never nest properly. */
  lemma HttpOnlyNet(f: map<string, string>, ps: seq<Piece>, lines: Option<seq<string>>)
    requires AllHttp(ps)
    ensures EntriesFold(Start(f), ps, lines).Success?
    ensures Net(EntriesFold(Start(f), ps, lines).value.out) + Pairs(|ps|) == 0
  {
    HttpFoldNet(Start(f), ps, lines);
    StartNet(f);
  }

  /** A data set with a single `http` entry writes one thread group holding
      the sampler, and is well-formed. */
  lemma SingleHttp(f: map<string, string>, v: seq<Token>, lines: Option<seq<string>>)
    requires WellFormed(v)
    ensures EntriesFold(Start(f), [PieceHttp(v)], lines).Success?
    ensures EntriesFold(Start(f), [PieceHttp(v)], lines).value.out == DataSetHeader(f) + (GroupHead(f) + v + [Close])
    ensures WellFormed(DataSetHeader(f) + (GroupHead(f) + v + [Close]))
  {
    assert [PieceHttp(v)][1..] == [];
    GroupRunWellFormed(f, v);
    HeaderWellFormed(f, GroupHead(f) + v + [Close]);
  }

  /** Two `http` entries: the second writes the thread group that already
      holds the first sampler and its closing marker. */
  lemma TwoHttp(f: map<string, string>, v1: seq<Token>, v2: seq<Token>, lines: Option<seq<string>>)
    ensures var g1 := GroupHead(f) + v1 + [Close];
      var r := EntriesFold(Start(f), [PieceHttp(v1), PieceHttp(v2)], lines);
      r.Success? && r.value.out == DataSetHeader(f) + g1 + (g1 + v2 + [Close])
  {
    var g1 := GroupHead(f) + v1 + [Close];
    assert EntryStep(Start(f), PieceHttp(v1), lines) == Success(Buffers(g1, true, [], DataSetHeader(f) + g1));
    FoldTwo(Start(f), PieceHttp(v1), PieceHttp(v2), lines);
  }

  /** A `repeat` after an `http` entry runs its fragments in copies of the
      thread group that holds the sampler, writes the repeat buffer, then
      closes that thread group once more and writes it again. */
  lemma HttpThenRepeat(f: map<string, string>, v: seq<Token>, frags: seq<Option<seq<Token>>>, lines: seq<string>)
    ensures var g1 := GroupHead(f) + v + [Close];
      var r := EntriesFold(Start(f), [PieceHttp(v), PieceRepeat(frags)], Some(lines));
      (r.Success? <==> Rounds(g1, frags, DataLines(lines)).Success?) &&
      (r.Success? ==> r.value.out == DataSetHeader(f) + g1 + Rounds(g1, frags, DataLines(lines)).value + (g1 + [Close]))
  {
    var g1 := GroupHead(f) + v + [Close];
    var mid := Buffers(g1, true, [], DataSetHeader(f) + g1);
    assert EntryStep(Start(f), PieceHttp(v), Some(lines)) == Success(mid);
    FoldTwo(Start(f), PieceHttp(v), PieceRepeat(frags), Some(lines));
    var rs := Rounds(g1, frags, DataLines(lines));
    if rs.Success? {
      assert [] + rs.value == rs.value;
    }
  }

  /** Generating a data set is the walk over its rendered entries. */
  lemma CsvDataWalk(f: map<string, string>, es: seq<CsvEntry>, files: map<string, seq<string>>)
    ensures var r := EntriesFold(Start(f), RenderEntries(es), DataFile(f, files));
      GenerateCSVData(CsvSet(f, es), files) == (if r.Success? then Success(r.value.out) else Failure(r.error))
  {
  }

  /** A data set whose `k` entries are all samplers generates a run with
      `k * (k - 1) / 2` more closing than opening markers. */
  lemma SamplerRunNet(f: map<string, string>, es: seq<CsvEntry>, files: map<string, seq<string>>)
    requires forall j :: 0 <= j < |es| ==> es[j].CsvHttp?
    ensures GenerateCSVData(CsvSet(f, es), files).Success?
    ensures Net(GenerateCSVData(CsvSet(f, es), files).value) + Pairs(|es|) == 0
  {
    var ps := RenderEntries(es);
    assert AllHttp(ps);
    HttpOnlyNet(f, ps, DataFile(f, files));
    CsvDataWalk(f, es, files);
  }
}
