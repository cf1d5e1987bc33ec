/** The microdata attributes as both extractors read them, the shared
    tag-to-attribute table, and a document-order walk of a subtree that
    records, for every node, whether it lies inside a boundary the
    extractors do not cross. The walk is the reference against which the
    recursive extractors are proved. */
module Markup {
  import opened Wrappers
  import opened Dom

  /** Where a property's value lives for tags that do not take it from their
      text. Both source files carry this same table. */
  const PropertyAttributes: map<string, string> := map[
    "meta" := "content",
    "audio" := "src",
    "embed" := "src",
    "iframe" := "src",
    "img" := "src",
    "source" := "src",
    "video" := "src",
    "a" := "href",
    "area" := "href",
    "link" := "href",
    "object" := "data",
    "time" := "datetime"
  ]

  /** `_is_itemscope(e)`: the attribute is present, whatever its value. */
  predicate IsItemscope(n: Node)
  {
    Attr(n, "itemscope").Some?
  }

  /** The `itemprop` string when Python's `if itemprop:` accepts it: present
      and non-empty. The whole string is the property name; it is not split
      into tokens. */
  function PropName(n: Node): (r: Option<string>)
    ensures r.Some? <==> n.Element? && "itemprop" in n.attributes && n.attributes["itemprop"] != ""
    ensures r.Some? ==> r.value == n.attributes["itemprop"]
  {
    match Attr(n, "itemprop")
    case Some(p) => if p != "" then Some(p) else None
    case None => None
  }

  /** An element that opens a scope without being any item's property. */
  predicate IsUnlinkedScope(n: Node)
  {
    IsItemscope(n) && PropName(n).None?
  }

  /** A node met by the walk, and whether one of its proper ancestors within
      the walk (or the walk's starting point) is a boundary. */
  datatype Visit = Visit(node: Node, enclosed: bool)

  /** The kinds of element a walk treats as a boundary. */
  datatype Barrier = AnyScope | UnlinkedScope | AnyProp

  predicate Blocks(b: Barrier, n: Node)
  {
    match b
    case AnyScope => IsItemscope(n)
    case UnlinkedScope => IsUnlinkedScope(n)
    case AnyProp => PropName(n).Some?
  }

  /** Every node of the subtree of `n` in document order, each marked with
      whether it is below a `b` boundary. `n` itself is not below its own
      boundary; its descendants are if `n` is one. */
  function Walk(n: Node, enclosed: bool, b: Barrier): (vs: seq<Visit>)
    ensures |vs| >= 1 && vs[0] == Visit(n, enclosed)
    decreases n
  {
    match n
    case Text(_) => [Visit(n, enclosed)]
    case Element(_, _, cs) => [Visit(n, enclosed)] + WalkAll(cs, enclosed || Blocks(b, n), b)
    case Other(cs) => [Visit(n, enclosed)] + WalkAll(cs, enclosed || Blocks(b, n), b)
  }

  /** The walks of a list of siblings, one after another. */
  function WalkAll(cs: seq<Node>, enclosed: bool, b: Barrier): seq<Visit>
    decreases cs
  {
    if cs == [] then [] else Walk(cs[0], enclosed, b) + WalkAll(cs[1..], enclosed, b)
  }

  /** The nodes of a list of visits. */
  function Nodes(vs: seq<Visit>): (ns: seq<Node>)
    ensures |ns| == |vs|
  {
    if vs == [] then [] else [vs[0].node] + Nodes(vs[1..])
  }

  /** The walk visits exactly the nodes of the subtree, in document order,
      whatever the boundary. */
  lemma {:induction false} WalkIsPreorder(n: Node, enclosed: bool, b: Barrier)
    ensures Nodes(Walk(n, enclosed, b)) == Preorder(n)
    decreases n
  {
    match n
    case Text(_) =>
    case Element(_, _, cs) =>
      WalkIsPreorderAll(cs, enclosed || Blocks(b, n), b);
      NodesAppend([Visit(n, enclosed)], WalkAll(cs, enclosed || Blocks(b, n), b));
    case Other(cs) =>
      WalkIsPreorderAll(cs, enclosed || Blocks(b, n), b);
      NodesAppend([Visit(n, enclosed)], WalkAll(cs, enclosed || Blocks(b, n), b));
  }

  lemma {:induction false} WalkIsPreorderAll(cs: seq<Node>, enclosed: bool, b: Barrier)
    ensures Nodes(WalkAll(cs, enclosed, b)) == PreorderAll(cs)
    decreases cs
  {
    if cs != [] {
      WalkIsPreorder(cs[0], enclosed, b);
      WalkIsPreorderAll(cs[1..], enclosed, b);
      NodesAppend(Walk(cs[0], enclosed, b), WalkAll(cs[1..], enclosed, b));
    }
  }

  lemma {:induction false} NodesAppend(a: seq<Visit>, b: seq<Visit>)
    ensures Nodes(a + b) == Nodes(a) + Nodes(b)
  {
    if a == [] {
      assert a + b == b;
    } else {
      assert (a + b)[0] == a[0] && (a + b)[1..] == a[1..] + b;
      NodesAppend(a[1..], b);
    }
  }

  /** Below a boundary everything stays below it. */
  lemma {:induction false} EnclosedStaysEnclosed(cs: seq<Node>, b: Barrier)
    ensures forall i :: 0 <= i < |WalkAll(cs, true, b)| ==> WalkAll(cs, true, b)[i].enclosed
    decreases cs
  {
    if cs != [] {
      var head := Walk(cs[0], true, b);
      match cs[0] {
        case Text(_) =>
        case Element(_, _, ks) =>
          EnclosedStaysEnclosed(ks, b);
          assert head == [Visit(cs[0], true)] + WalkAll(ks, true, b);
        case Other(ks) =>
          EnclosedStaysEnclosed(ks, b);
          assert head == [Visit(cs[0], true)] + WalkAll(ks, true, b);
      }
      assert forall i :: 0 <= i < |head| ==> head[i].enclosed;
      EnclosedStaysEnclosed(cs[1..], b);
      var tail := WalkAll(cs[1..], true, b);
      assert WalkAll(cs, true, b) == head + tail;
    }
  }

  /** Which visited nodes an extractor picks out of a walk. */
  datatype Criterion =
      /** a property element of the scope being filled */
    | Member
      /** an unlinked scope met while filling a scope */
    | UnlinkedRoot
      /** an element `_find_items` (current version) returns an item for */
    | TopLevel
      /** an element `_find_items` (older version) returns an item for */
    | Outermost

  predicate Keeps(k: Criterion, v: Visit)
  {
    match k
    case Member => PropName(v.node).Some? && !v.enclosed
    case UnlinkedRoot => IsUnlinkedScope(v.node) && !v.enclosed
    case TopLevel => IsItemscope(v.node) && (!v.enclosed || PropName(v.node).None?)
    case Outermost => IsItemscope(v.node) && !v.enclosed
  }

  /** What every node a criterion keeps is known to satisfy. */
  predicate Admits(k: Criterion, n: Node)
  {
    match k
    case Member => PropName(n).Some?
    case UnlinkedRoot => IsUnlinkedScope(n)
    case TopLevel => IsItemscope(n)
    case Outermost => IsItemscope(n)
  }

  /** The nodes of the visits `k` keeps, in walk order. */
  function Select(vs: seq<Visit>, k: Criterion): (ns: seq<Node>)
    ensures forall i :: 0 <= i < |ns| ==> Admits(k, ns[i])
    ensures |ns| <= |vs|
  {
    if vs == [] then []
    else (if Keeps(k, vs[0]) then [vs[0].node] else []) + Select(vs[1..], k)
  }

  lemma {:induction false} SelectAppend(a: seq<Visit>, b: seq<Visit>, k: Criterion)
    ensures Select(a + b, k) == Select(a, k) + Select(b, k)
  {
    if a == [] {
      assert a + b == b;
    } else {
      assert (a + b)[0] == a[0] && (a + b)[1..] == a[1..] + b;
      SelectAppend(a[1..], b, k);
    }
  }

  /** The criteria that only keep visits outside every boundary find
      nothing below one. */
  lemma {:induction false} SelectEnclosed(vs: seq<Visit>, k: Criterion)
    requires k != TopLevel
    requires forall i :: 0 <= i < |vs| ==> vs[i].enclosed
    ensures Select(vs, k) == []
  {
    if vs != [] {
      SelectEnclosed(vs[1..], k);
    }
  }

  /** Selecting from a walk that starts below a boundary finds nothing. */
  lemma SelectBelowBoundary(cs: seq<Node>, b: Barrier, k: Criterion)
    requires k != TopLevel
    ensures Select(WalkAll(cs, true, b), k) == []
  {
    EnclosedStaysEnclosed(cs, b);
    SelectEnclosed(WalkAll(cs, true, b), k);
  }

  /** Selecting from one node's walk: the node itself, if kept, then what is
      kept among its children's walks. */
  lemma SelectWalk(n: Node, enclosed: bool, b: Barrier, k: Criterion)
    ensures Select(Walk(n, enclosed, b), k)
         == (if Keeps(k, Visit(n, enclosed)) then [n] else [])
            + Select(WalkAll(ChildNodes(n), enclosed || Blocks(b, n), b), k)
  {
    var rest := WalkAll(ChildNodes(n), enclosed || Blocks(b, n), b);
    assert Walk(n, enclosed, b) == [Visit(n, enclosed)] + rest;
    SelectAppend([Visit(n, enclosed)], rest, k);
  }

  /** Selecting from the walks of siblings: the first sibling's, then the rest's. */
  lemma SelectWalkAll(cs: seq<Node>, enclosed: bool, b: Barrier, k: Criterion)
    requires cs != []
    ensures Select(WalkAll(cs, enclosed, b), k)
         == Select(Walk(cs[0], enclosed, b), k) + Select(WalkAll(cs[1..], enclosed, b), k)
  {
    SelectAppend(Walk(cs[0], enclosed, b), WalkAll(cs[1..], enclosed, b), k);
  }
}
