/** Facts about left-to-right walks over a sequence, stated once over an
    abstract step.  A walk is described by what holds after its first `k`
    items; the lemmas turn a fact about one step into a fact about the
    whole prefix. */
module Folds {
  /** A walk that fails as soon as an item fails succeeds over the first
      `i` items exactly when each of them succeeds. */
  lemma {:induction false} PrefixAll<T>(xs: seq<T>, ok: T -> bool, done: nat -> bool, i: nat)
    requires i <= |xs| && done(0)
    requires forall k :: 0 < k <= i ==> (done(k) <==> done(k - 1) && ok(xs[k - 1]))
    ensures done(i) <==> forall j :: 0 <= j < i ==> ok(xs[j])
  {
    if i > 0 {
      PrefixAll(xs, ok, done, i - 1);
    }
  }

  /** A flag the walk raises at an item with property `f` and never lowers
      is up after the first `i` items exactly when one of them has `f`. */
  lemma {:induction false} PrefixAny<T>(xs: seq<T>, f: T -> bool, done: nat -> bool, flag: nat -> bool, i: nat)
    requires i <= |xs| && !flag(0) && done(i)
    requires forall k :: 0 < k <= i && done(k) ==> done(k - 1) && (flag(k) <==> flag(k - 1) || f(xs[k - 1]))
    ensures flag(i) <==> exists j :: 0 <= j < i && f(xs[j])
  {
    if i > 0 {
      PrefixAny(xs, f, done, flag, i - 1);
      if f(xs[i - 1]) {
        assert 0 <= i - 1 < i && f(xs[i - 1]);
      }
    }
  }

  /** A property that holds at the start and survives every step over an
      item with property `f` holds after the first `i` items when each of
      them has `f`. */
  lemma {:induction false} PrefixKeeps<T>(xs: seq<T>, f: T -> bool, good: nat -> bool, i: nat)
    requires i <= |xs| && good(0)
    requires forall j :: 0 <= j < i ==> f(xs[j])
    requires forall k :: 0 < k <= i && good(k - 1) && f(xs[k - 1]) ==> good(k)
    ensures good(i)
  {
    if i > 0 {
      PrefixKeeps(xs, f, good, i - 1);
    }
  }

  /** A walk that stops at the first failure and, at each step that
      succeeds, establishes `p` of the item's position establishes `p` of
      every position it has read. */
  lemma {:induction false} PrefixEach(done: nat -> bool, p: nat -> bool, i: nat)
    requires done(i)
    requires forall k :: 0 < k <= i && done(k) ==> done(k - 1) && p(k - 1)
    ensures forall m :: 0 <= m < i ==> p(m)
  {
    if i > 0 {
      PrefixEach(done, p, i - 1);
    }
  }

  // ---------------------------------------------------------------------
  // What a walk collects
  // ---------------------------------------------------------------------

  /** The items of `xs` that `f` accepts, in order. */
  function Chosen<T>(xs: seq<T>, f: T -> bool): seq<T> {
    if |xs| == 0 then []
    else Chosen(xs[..|xs| - 1], f) + (if f(xs[|xs| - 1]) then [xs[|xs| - 1]] else [])
  }

  /** The images under `g` of the items of `xs` that `f` accepts, in
      order. */
  function Select<T, U>(xs: seq<T>, f: T -> bool, g: T -> U): seq<U> {
    if |xs| == 0 then []
    else Select(xs[..|xs| - 1], f, g) + (if f(xs[|xs| - 1]) then [g(xs[|xs| - 1])] else [])
  }

  /** What `g` gives for each item of `xs`, one after another. */
  function Gather<T, U>(xs: seq<T>, g: T -> seq<U>): seq<U> {
    if |xs| == 0 then [] else Gather(xs[..|xs| - 1], g) + g(xs[|xs| - 1])
  }

  /** The last element of `s`, or `d` when there is none. */
  function LastOr<U>(s: seq<U>, d: U): U {
    if |s| == 0 then d else s[|s| - 1]
  }

  /** The `j`-th selected value is the image of the `j`-th accepted
      item. */
  lemma {:induction false} SelectAt<T, U>(xs: seq<T>, f: T -> bool, g: T -> U)
    ensures |Select(xs, f, g)| == |Chosen(xs, f)|
    ensures forall j :: 0 <= j < |Chosen(xs, f)| ==> f(Chosen(xs, f)[j]) && Select(xs, f, g)[j] == g(Chosen(xs, f)[j])
  {
    if |xs| > 0 {
      SelectAt(xs[..|xs| - 1], f, g);
    }
  }

  /** The last selected value after one more item: its image when it is
      accepted, the last one before it otherwise. */
  lemma SelectLast<T, U>(xs: seq<T>, f: T -> bool, g: T -> U, d: U)
    requires |xs| > 0
    ensures LastOr(Select(xs, f, g), d) ==
      if f(xs[|xs| - 1]) then g(xs[|xs| - 1]) else LastOr(Select(xs[..|xs| - 1], f, g), d)
  {
  }

  /** `Select` over the prefix of the first `i` items, one item at a time. */
  lemma SelectStepAt<T, U>(xs: seq<T>, i: nat, f: T -> bool, g: T -> U)
    requires 0 < i <= |xs|
    ensures Select(xs[..i], f, g) == Select(xs[..i - 1], f, g) + (if f(xs[i - 1]) then [g(xs[i - 1])] else [])
  {
    assert xs[..i][..i - 1] == xs[..i - 1];
    assert xs[..i][i - 1] == xs[i - 1];
  }

  /** `SelectLast` for the prefix of the first `i` items. */
  lemma SelectLastAt<T, U>(xs: seq<T>, i: nat, f: T -> bool, g: T -> U, d: U)
    requires 0 < i <= |xs|
    ensures LastOr(Select(xs[..i], f, g), d) ==
      if f(xs[i - 1]) then g(xs[i - 1]) else LastOr(Select(xs[..i - 1], f, g), d)
  {
    SelectLast(xs[..i], f, g, d);
    assert xs[..i][..i - 1] == xs[..i - 1];
  }

  /** Gathering over two sequences, one after the other. */
  lemma {:induction false} GatherAppend<T, U>(xs: seq<T>, ys: seq<T>, g: T -> seq<U>)
    ensures Gather(xs + ys, g) == Gather(xs, g) + Gather(ys, g)
  {
    if |ys| == 0 {
      assert xs + ys == xs;
    } else {
      var zs := xs + ys;
      assert zs[..|zs| - 1] == xs + ys[..|ys| - 1];
      assert zs[|zs| - 1] == ys[|ys| - 1];
      GatherAppend(xs, ys[..|ys| - 1], g);
    }
  }

  /** A single item gathers to its image. */
  lemma GatherOne<T, U>(x: T, g: T -> seq<U>)
    ensures Gather([x], g) == g(x)
  {
    assert [x][..0] == [];
  }

  /** Gathering from the front: the first item's image, then the rest. */
  lemma GatherFront<T, U>(xs: seq<T>, g: T -> seq<U>)
    requires |xs| > 0
    ensures Gather(xs, g) == g(xs[0]) + Gather(xs[1..], g)
  {
    assert xs == [xs[0]] + xs[1..];
    GatherAppend([xs[0]], xs[1..], g);
    GatherOne(xs[0], g);
  }

  /** When `g` gives `h`'s image for the accepted items and nothing for
      the others, gathering `g` over all items is gathering `h` over the
      accepted ones. */
  lemma {:induction false} GatherChosen<T, U>(xs: seq<T>, f: T -> bool, g: T -> seq<U>, h: T -> seq<U>)
    requires forall j :: 0 <= j < |xs| ==> g(xs[j]) == (if f(xs[j]) then h(xs[j]) else [])
    ensures Gather(xs, g) == Gather(Chosen(xs, f), h)
  {
    if |xs| > 0 {
      var init, x := xs[..|xs| - 1], xs[|xs| - 1];
      assert forall j :: 0 <= j < |init| ==> init[j] == xs[j];
      GatherChosen(init, f, g, h);
      assert g(x) == (if f(x) then h(x) else []);
      assert Gather(xs, g) == Gather(init, g) + g(x);
      if f(x) {
        assert Chosen(xs, f) == Chosen(init, f) + [x];
        GatherAppend(Chosen(init, f), [x], h);
        GatherOne(x, h);
      } else {
        assert Chosen(xs, f) == Chosen(init, f) + [];
        assert Chosen(init, f) + [] == Chosen(init, f);
        assert Gather(init, g) + [] == Gather(init, g);
      }
    }
  }

  /** `n` copies of `s`, one after another. */
  function Repeated<U>(s: seq<U>, n: nat): (r: seq<U>)
    ensures |r| == n * |s|
  {
    if n == 0 then [] else Repeated(s, n - 1) + s
  }

  /** The number of items that satisfy `f`. */
  function Counted<T>(xs: seq<T>, f: T -> bool): (n: nat)
    ensures n <= |xs|
  {
    if |xs| == 0 then 0 else Counted(xs[..|xs| - 1], f) + (if f(xs[|xs| - 1]) then 1 else 0)
  }

  /** Every item is counted exactly when every item satisfies `f`. */
  lemma {:induction false} CountedAll<T>(xs: seq<T>, f: T -> bool)
    ensures Counted(xs, f) == |xs| <==> forall i :: 0 <= i < |xs| ==> f(xs[i])
  {
    if |xs| > 0 {
      var init := xs[..|xs| - 1];
      CountedAll(init, f);
      assert forall i :: 0 <= i < |init| ==> init[i] == xs[i];
    }
  }
}
