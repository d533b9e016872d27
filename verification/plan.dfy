/** The generated JMeter test plan, as a sequence of abstract tokens.

    The heredoc text of MeterMaid.rb is abstracted into one token per
    primary element (carrying the values interpolated into it) and three
    markers for the element's companion subtree: `Open` (`<hashTree>`),
    `Close` (`</hashTree>`) and `Empty` (`<hashTree/>`).  The two structural
    rules of the format are stated here:
    - `Balanced`: opens and closes nest properly;
    - `Paired`: every primary element is immediately followed by the
      marker of its companion subtree.
 */
module Plan {

  /** The controller's percentage: the value given by the `precent` field,
      or the default 15.0.  Float parsing and display are not modelled. */
  datatype Percent = DefaultPercent | GivenPercent(text: string)

  datatype Token =
    | Open
    | Close
    | Empty
    | PlanBegin
    | PlanEnd
    | TestPlan(name: string)
    | AssertionResults(guiclass: string, filename: string)
    | ThreadGroup(name: string, threads: string)
    | CsvThreadGroup(name: string)
    | CookieManager
    | CsvDataSet(name: string, filename: string, varnames: string)
    | Sampler(name: string, domain: string, path: string, verb: string,
              fileName: string, fileField: string, mimeType: string,
              args: seq<(string, string)>)
    | GaussianTimer(name: string, delay: string, range: string)
    | RegexExtractor(name: string, matchNumber: string, refName: string,
                     defaultValue: string, template: string, useHeaders: string,
                     regex: string)
    | ResponseAssertion(name: string, testType: int, literals: seq<string>)
    | ResultCollector(guiclass: string, name: string, filename: string)
    | LoopController(name: string, loops: string, forever: bool)
    | GenericController(index: int)
    | ThroughputController(index: int, percent: Percent)

  /** A companion-subtree marker. */
  predicate IsMarker(t: Token) {
    t.Open? || t.Empty?
  }

  /** A primary element: everything that must be followed by a marker. */
  predicate IsElement(t: Token) {
    !(t.Open? || t.Close? || t.Empty? || t.PlanEnd?)
  }

  // ---------------------------------------------------------------------
  // Nesting
  // ---------------------------------------------------------------------

  function Step(t: Token): int {
    if t.Open? then 1 else if t.Close? then -1 else 0
  }

  /** Opens minus closes. */
  function Net(ts: seq<Token>): int {
    if |ts| == 0 then 0 else Step(ts[0]) + Net(ts[1..])
  }

  /** Reading `ts` from depth `d`, the depth never drops below zero. */
  predicate NoDip(ts: seq<Token>, d: int) {
    if |ts| == 0 then true
    else d + Step(ts[0]) >= 0 && NoDip(ts[1..], d + Step(ts[0]))
  }

  predicate Balanced(ts: seq<Token>) {
    NoDip(ts, 0) && Net(ts) == 0
  }

  /** Every primary element is immediately followed by its companion
      subtree marker. */
  predicate Paired(ts: seq<Token>) {
    |ts| == 0 || ((IsElement(ts[0]) ==> |ts| >= 2 && IsMarker(ts[1])) && Paired(ts[1..]))
  }

  predicate WellFormed(ts: seq<Token>) {
    Balanced(ts) && Paired(ts)
  }

  lemma {:induction false} NetAppend(a: seq<Token>, b: seq<Token>)
    ensures Net(a + b) == Net(a) + Net(b)
  {
    if |a| == 0 {
      assert a + b == b;
    } else {
      assert (a + b)[0] == a[0];
      assert (a + b)[1..] == a[1..] + b;
      NetAppend(a[1..], b);
    }
  }

  lemma NetSingle(t: Token)
    ensures Net([t]) == Step(t)
  {
    assert [t][1..] == [];
  }

  lemma {:induction false} NoDipAppend(a: seq<Token>, b: seq<Token>, d: int)
    ensures NoDip(a + b, d) <==> NoDip(a, d) && NoDip(b, d + Net(a))
  {
    if |a| == 0 {
      assert a + b == b;
    } else {
      assert (a + b)[0] == a[0];
      assert (a + b)[1..] == a[1..] + b;
      NoDipAppend(a[1..], b, d + Step(a[0]));
    }
  }

  lemma {:induction false} NoDipRaise(ts: seq<Token>, d: int, e: int)
    requires NoDip(ts, d) && d <= e
    ensures NoDip(ts, e)
  {
    if |ts| > 0 {
      NoDipRaise(ts[1..], d + Step(ts[0]), e + Step(ts[0]));
    }
  }

  lemma {:induction false} PairedAppend(a: seq<Token>, b: seq<Token>)
    requires Paired(a) && Paired(b)
    ensures Paired(a + b)
  {
    if |a| == 0 {
      assert a + b == b;
    } else {
      assert (a + b)[0] == a[0];
      assert (a + b)[1..] == a[1..] + b;
      if |a| >= 2 {
        assert (a + b)[1] == a[1];
      }
      PairedAppend(a[1..], b);
    }
  }

  /** Nesting and pairing are kept by concatenation. */
  lemma WellFormedAppend(a: seq<Token>, b: seq<Token>)
    requires WellFormed(a) && WellFormed(b)
    ensures WellFormed(a + b)
  {
    NetAppend(a, b);
    NoDipAppend(a, b, 0);
    PairedAppend(a, b);
  }

  /** A primary element wrapped around a well-formed subtree
      (`<E/> <hashTree> ... </hashTree>`) is well-formed. */
  lemma WellFormedSubtree(e: Token, body: seq<Token>)
    requires IsElement(e) && WellFormed(body)
    ensures WellFormed([e, Open] + body + [Close])
  {
    var ts := [e, Open] + body + [Close];
    NetAppend([e, Open], body);
    NetAppend([e, Open] + body, [Close]);
    NoDipAppend([e, Open], body, 0);
    NoDipAppend([e, Open] + body, [Close], 0);
    NoDipRaise(body, 0, 1);
    assert Paired([e, Open]);
    assert Paired([Close]);
    PairedAppend([e, Open], body);
    PairedAppend([e, Open] + body, [Close]);
  }

  /** The positions of a wrapped subtree: the element, its opening
      marker, the subtree's first token, and the closing marker last. */
  lemma WrappedAt(e: Token, body: seq<Token>)
    requires |body| > 0
    ensures var ts := [e, Open] + body + [Close];
      |ts| == |body| + 3 && ts[0] == e && ts[1] == Open && ts[2] == body[0] && ts[|ts| - 1] == Close
  {
  }

  /** The first two positions of a token sequence built from a pair. */
  lemma PairAt(x: Token, y: Token, b: seq<Token>, c: seq<Token>)
    ensures var ts := [x, y] + b + c;
      |ts| >= 2 && ts[0] == x && ts[1] == y
  {
  }

  /** Behind a pair and a part without closing markers, a closing marker
      can only come from the last part. */
  lemma CloseFromTail(x: Token, y: Token, b: seq<Token>, c: seq<Token>)
    requires x != Close && y != Close && Close !in b
    ensures Close in [x, y] + b + c <==> Close in c
  {
    var ts := [x, y] + b + c;
    if Close in ts {
      var i :| 0 <= i < |ts| && ts[i] == Close;
      forall j | 0 <= j < 2 + |b| ensures ts[j] != Close {
        if j >= 2 {
          assert ts[j] == b[j - 2];
        }
      }
      assert c[i - 2 - |b|] == Close;
    }
    if Close in c {
      var i :| 0 <= i < |c| && c[i] == Close;
      assert ts[2 + |b| + i] == Close;
    }
  }

  /** In a list of pairs, the pair at index `i` of `head + rest` is `head`
      itself or the pair at index `i - 1` of `rest`. */
  lemma PairOf(whole: seq<Token>, head: seq<Token>, rest: seq<Token>, i: nat, x: seq<Token>)
    requires whole == head + rest && |head| == 2 && 2 * i + 2 <= |whole|
    requires i == 0 ==> x == head
    requires i > 0 ==> rest[2 * (i - 1)..2 * (i - 1) + 2] == x
    ensures whole[2 * i..2 * i + 2] == x
  {
    if i > 0 {
      assert whole[2 * i..2 * i + 2] == rest[2 * (i - 1)..2 * (i - 1) + 2];
    }
  }

  /** `r` read back by position as a pair `p` followed by parts `a`, `b`,
      `c`, `d` (the first three of the given lengths) and `t`. */
  predicate PartsAtLengths(r: seq<Token>, p: seq<Token>, a: seq<Token>, b: seq<Token>, c: seq<Token>, d: seq<Token>, t: seq<Token>,
                           na: nat, nb: nat, nc: nat)
  {
    2 + na + nb + nc + |d| <= |r| &&
    r[2..2 + na] == a && r[2 + na..2 + na + nb] == b && r[2 + na + nb..2 + na + nb + nc] == c &&
    r[2 + na + nb + nc..2 + na + nb + nc + |d|] == d && r[2 + na + nb + nc + |d|..] == t
  }

  /** The parts of `p + (a + b + c + d) + t`, read back by position. */
  lemma PartsAt(r: seq<Token>, p: seq<Token>, a: seq<Token>, b: seq<Token>, c: seq<Token>, d: seq<Token>, t: seq<Token>,
                na: nat, nb: nat, nc: nat)
    requires r == p + (a + b + c + d) + t
    requires |p| == 2 && |a| == na && |b| == nb && |c| == nc
    ensures PartsAtLengths(r, p, a, b, c, d, t, na, nb, nc)
  {
    assert r[2..2 + na + nb + nc + |d|] == a + b + c + d;
  }

  /** A primary element with an empty companion (`<E/> <hashTree/>`). */
  lemma WellFormedLeaf(e: Token)
    requires IsElement(e)
    ensures WellFormed([e, Empty])
  {
    assert [e, Empty][1..] == [Empty];
    assert [Empty][1..] == [];
  }

  lemma WellFormedEmpty()
    ensures WellFormed([])
  {
  }

  lemma {:induction false} NoDipNet(ts: seq<Token>, d: int)
    requires d >= 0 && NoDip(ts, d)
    ensures d + Net(ts) >= 0
  {
    if |ts| > 0 {
      NoDipNet(ts[1..], d + Step(ts[0]));
    }
  }

  // ---------------------------------------------------------------------
  // Counting
  // ---------------------------------------------------------------------

  /** The number of tokens of `ts` that `f` accepts. */
  function Tally(ts: seq<Token>, f: Token -> bool): nat {
    if |ts| == 0 then 0 else (if f(ts[0]) then 1 else 0) + Tally(ts[1..], f)
  }

  lemma {:induction false} TallyAppend(a: seq<Token>, b: seq<Token>, f: Token -> bool)
    ensures Tally(a + b, f) == Tally(a, f) + Tally(b, f)
  {
    if |a| == 0 {
      assert a + b == b;
    } else {
      assert (a + b)[0] == a[0];
      assert (a + b)[1..] == a[1..] + b;
      TallyAppend(a[1..], b, f);
    }
  }

  lemma TallyPair(x: Token, y: Token, rest: seq<Token>, f: Token -> bool)
    ensures Tally([x, y] + rest, f) == (if f(x) then 1 else 0) + (if f(y) then 1 else 0) + Tally(rest, f)
  {
    TallyAppend([x, y], rest, f);
    assert [x, y][1..] == [y];
    assert [y][1..] == [];
  }

  /** Around a part `b`, a pair and a tail that `f` rejects add nothing
      to the count. */
  lemma TallyAround(x: Token, y: Token, b: seq<Token>, c: seq<Token>, f: Token -> bool)
    requires !f(x) && !f(y) && Tally(c, f) == 0
    ensures Tally([x, y] + b + c, f) == Tally(b, f)
  {
    TallyAppend([x, y] + b, c, f);
    TallyPair(x, y, b, f);
  }

  lemma TallyAppend4(a: seq<Token>, b: seq<Token>, c: seq<Token>, d: seq<Token>, f: Token -> bool)
    ensures Tally(a + b + c + d, f) == Tally(a, f) + Tally(b, f) + Tally(c, f) + Tally(d, f)
  {
    TallyAppend(a, b, f);
    TallyAppend(a + b, c, f);
    TallyAppend(a + b + c, d, f);
  }

  // ---------------------------------------------------------------------
  // The frame of a plan
  // ---------------------------------------------------------------------

  /** The opening of a plan around the given test plan, assertion listener
      and main thread group. */
  function Header(plan: Token, listener: Token, group: Token): (r: seq<Token>)
    ensures |r| == 10 && r[0] == PlanBegin
  {
    [PlanBegin, Open, plan, Open, listener, Empty, group, Open, CookieManager, Empty]
  }

  /** The main thread group around a well-formed body. */
  lemma GroupWellFormed(g: Token, body: seq<Token>)
    requires IsElement(g) && WellFormed(body)
    ensures WellFormed([g, Open] + ([CookieManager, Empty] + body) + [Close])
  {
    WellFormedLeaf(CookieManager);
    WellFormedAppend([CookieManager, Empty], body);
    WellFormedSubtree(g, [CookieManager, Empty] + body);
  }

  /** The test plan around the assertion listener and a well-formed
      thread group. */
  lemma PlanTreeWellFormed(p: Token, l: Token, group: seq<Token>)
    requires IsElement(p) && IsElement(l) && WellFormed(group)
    ensures WellFormed([p, Open] + ([l, Empty] + group) + [Close])
  {
    WellFormedLeaf(l);
    WellFormedAppend([l, Empty], group);
    WellFormedSubtree(p, [l, Empty] + group);
  }

  /** The end marker after a well-formed tree. */
  lemma EndWellFormed(main: seq<Token>)
    requires WellFormed(main)
    ensures WellFormed(main + [PlanEnd])
  {
    NetSingle(PlanEnd);
    assert [PlanEnd][1..] == [];
    WellFormedAppend(main, [PlanEnd]);
  }

  /** The plan, regrouped by its nesting. */
  lemma FrameShape(p: Token, l: Token, g: Token, body: seq<Token>, csvs: seq<Token>)
    ensures Header(p, l, g) + body + [Close, Close] + csvs + [Close, PlanEnd] ==
      [PlanBegin, Open] + ([p, Open] + ([l, Empty] + ([g, Open] + ([CookieManager, Empty] + body) + [Close])) + [Close] + csvs) + [Close] + [PlanEnd]
  {
  }

  /** The header, a well-formed stack, the two closing markers, well-formed
      CSV runs and the footer nest properly. */
  lemma FrameWellFormed(p: Token, l: Token, g: Token, body: seq<Token>, csvs: seq<Token>)
    requires IsElement(p) && IsElement(l) && IsElement(g)
    requires WellFormed(body) && WellFormed(csvs)
    ensures WellFormed(Header(p, l, g) + body + [Close, Close] + csvs + [Close, PlanEnd])
  {
    var group := [g, Open] + ([CookieManager, Empty] + body) + [Close];
    GroupWellFormed(g, body);
    var plan := [p, Open] + ([l, Empty] + group) + [Close];
    PlanTreeWellFormed(p, l, group);
    var main := [PlanBegin, Open] + (plan + csvs) + [Close];
    WellFormedAppend(plan, csvs);
    WellFormedSubtree(PlanBegin, plan + csvs);
    EndWellFormed(main);
    FrameShape(p, l, g, body, csvs);
  }
}
