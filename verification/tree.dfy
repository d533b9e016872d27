/** The already-parsed input document and the flat key/value copies the
    engine makes of a node's children.

    The XML parser itself is not part of this model: a document is given as
    its root `Node`.  Text and comment nodes are ordinary nodes here (the
    parser names text nodes "text"); every processing step decides for
    itself which of them to skip, because the source does not skip them
    uniformly.
 */
module Tree {
  import opened Wrappers
  import opened Text
  import opened Folds

  /** One node of the parsed simplified input: its element name, ordered
      children, attributes, text content (the concatenation of its text, as
      the parser supplies it) and 1-based source line. */
  datatype Node = Node(
    name: string,
    children: seq<Node>,
    attrs: map<string, string>,
    content: string,
    line: nat)

  /** `node.children?` */
  predicate HasKids(n: Node) {
    |n.children| > 0
  }

  /** `name == "text"`: the exact test used by the collector and the HTTP
      processor. */
  predicate IsText(n: Node) {
    n.name == "text"
  }

  /** `name =~ /text/i`: the looser test used by the timer, script,
      assertion, upload and repeat walks. */
  predicate TextLike(n: Node) {
    ContainsCI(n.name, "text")
  }

  /** `hash[key]` interpolated into a string: a missing key reads as the
      given default (`""` for Ruby's nil). */
  function Lookup(m: map<string, string>, key: string, default: string): string {
    if key in m then m[key] else default
  }

  /** The last of `kids` that `keep` accepts and that is named `key`. */
  function LastKept(kids: seq<Node>, keep: Node -> bool, key: string): (r: Option<Node>)
    ensures r.Some? ==> r.value in kids && keep(r.value) && r.value.name == key
    ensures r.None? <==> forall i :: 0 <= i < |kids| ==> !(keep(kids[i]) && kids[i].name == key)
  {
    if |kids| == 0 then None
    else
      var last := kids[|kids| - 1];
      if keep(last) && last.name == key then Some(last)
      else
        var r := LastKept(kids[..|kids| - 1], keep, key);
        assert forall i :: 0 <= i < |kids| - 1 ==> kids[..|kids| - 1][i] == kids[i];
        r
  }

  /** The flat copy `hash[kid.name] = SafeStr(kid.content)` over the
      children `keep` accepts, in document order: a later child overwrites an
      earlier one with the same name. */
  function Harvest(kids: seq<Node>, keep: Node -> bool): map<string, string> {
    if |kids| == 0 then map[]
    else
      var last := kids[|kids| - 1];
      var m := Harvest(kids[..|kids| - 1], keep);
      if keep(last) then m[last.name := SafeStr(last.content)] else m
  }

  /** A key of the flat copy is present exactly when some accepted child
      has that name, and then holds the escaped content of the last such
      child. */
  lemma {:induction false} HarvestLast(kids: seq<Node>, keep: Node -> bool, key: string)
    ensures key in Harvest(kids, keep) <==> LastKept(kids, keep, key).Some?
    ensures key in Harvest(kids, keep) ==> Harvest(kids, keep)[key] == SafeStr(LastKept(kids, keep, key).value.content)
  {
    if |kids| > 0 {
      HarvestLast(kids[..|kids| - 1], keep, key);
    }
  }

  /** Every child is copied. */
  function KeepAll(n: Node): bool {
    true
  }

  /** Children whose name does not match `/text/i` are copied. */
  function KeepNotTextLike(n: Node): bool {
    !TextLike(n)
  }

  /** Children not named exactly "text" are copied. */
  function KeepNotText(n: Node): bool {
    !IsText(n)
  }

  /** Some child of `kids` is named `key`. */
  predicate Names(kids: seq<Node>, key: string) {
    exists i :: 0 <= i < |kids| && kids[i].name == key
  }

  /** Harvest, read at a key that its filter never rejects: the value is the
      escaped content of the last child with that name, and the key is
      present exactly when such a child exists. */
  lemma HarvestAt(kids: seq<Node>, keep: Node -> bool, key: string)
    requires forall i :: 0 <= i < |kids| && kids[i].name == key ==> keep(kids[i])
    ensures key in Harvest(kids, keep) <==> Names(kids, key)
  {
    HarvestLast(kids, keep, key);
    if Names(kids, key) {
      var i :| 0 <= i < |kids| && kids[i].name == key;
      assert keep(kids[i]) && kids[i].name == key;
    }
  }

  /** A name without the letter t (in either case) never matches
      `/text/i`. */
  lemma NameNotTextLike(x: string)
    requires 't' !in x && 'T' !in x
    ensures !ContainsCI(x, "text")
  {
    forall i: nat ensures !MatchAt(x, "text", i, true) {
      if i < |x| {
        assert x[i] in x;
        assert Lower(x[i]) != 't';
        assert Fold(x[i + 0], true) != "text"[0];
      }
    }
  }

  /** The number of `kids` that `f` accepts. */
  function CountWhere(kids: seq<Node>, f: Node -> bool): nat {
    if |kids| == 0 then 0
    else CountWhere(kids[..|kids| - 1], f) + (if f(kids[|kids| - 1]) then 1 else 0)
  }

  /** The accepted children are counted by the length of their
      selection. */
  lemma {:induction false} CountChosen(kids: seq<Node>, f: Node -> bool)
    ensures CountWhere(kids, f) == |Chosen(kids, f)|
  {
    if |kids| > 0 {
      CountChosen(kids[..|kids| - 1], f);
    }
  }

  /** A key without the letter t is copied by the `/text/i` filter
      exactly when some child has that name. */
  lemma HarvestKept(kids: seq<Node>, key: string)
    requires 't' !in key && 'T' !in key
    ensures key in Harvest(kids, KeepNotTextLike) <==> Names(kids, key)
  {
    NameNotTextLike(key);
    HarvestAt(kids, KeepNotTextLike, key);
  }
}
