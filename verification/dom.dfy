/** The document tree the extractor walks, and the small set of DOM
    operations it uses (the W3C-DOM branch of the tree adapter). */
module Dom {
  import opened Wrappers

  /** A parsed node: an element with its tag name, attributes and children,
      a text node, or any other node (the document itself, a comment, a
      doctype), of which only the children matter here. */
  datatype Node =
    | Element(tagName: string, attributes: map<string, string>, childNodes: seq<Node>)
    | Text(data: string)
    | Other(childNodes: seq<Node>)

  /** `attr(e, name)`: the attribute's value, or `None` when `e` is not an
      element or has no such attribute. An attribute present with the empty
      string as value is `Some("")`, which Python treats as false. */
  function Attr(n: Node, name: string): (r: Option<string>)
    ensures r.Some? <==> n.Element? && name in n.attributes
    ensures r.Some? ==> r.value == n.attributes[name]
  {
    if n.Element? && name in n.attributes then Some(n.attributes[name]) else None
  }

  /** `childNodes(e)`: text nodes have none. */
  function ChildNodes(n: Node): seq<Node>
  {
    match n
    case Text(_) => []
    case _ => n.childNodes
  }

  /** `text(e)`: the data of `e` if it is a text node, followed by the text of
      each child in turn. No element is skipped, `script` included. */
  function TextContent(n: Node): string
    decreases n
  {
    match n
    case Text(data) => data
    case Element(_, _, cs) => TextOfAll(cs)
    case Other(cs) => TextOfAll(cs)
  }

  /** The texts of a list of siblings, concatenated. */
  function TextOfAll(cs: seq<Node>): string
    decreases cs
  {
    if cs == [] then "" else TextContent(cs[0]) + TextOfAll(cs[1..])
  }

  /** Every node of the subtree in document order: the node, then the subtree
      of each child in turn. */
  function Preorder(n: Node): (ns: seq<Node>)
    ensures |ns| >= 1 && ns[0] == n
    decreases n
  {
    match n
    case Text(_) => [n]
    case Element(_, _, cs) => [n] + PreorderAll(cs)
    case Other(cs) => [n] + PreorderAll(cs)
  }

  /** The subtrees of a list of siblings, one after another. */
  function PreorderAll(cs: seq<Node>): seq<Node>
    decreases cs
  {
    if cs == [] then [] else Preorder(cs[0]) + PreorderAll(cs[1..])
  }

  /** The data of the text nodes among `ns`, concatenated in order. */
  function TextData(ns: seq<Node>): string
  {
    if ns == [] then ""
    else (if ns[0].Text? then ns[0].data else "") + TextData(ns[1..])
  }

  lemma {:induction false} TextDataAppend(a: seq<Node>, b: seq<Node>)
    ensures TextData(a + b) == TextData(a) + TextData(b)
  {
    if a == [] {
      assert a + b == b;
    } else {
      assert (a + b)[0] == a[0] && (a + b)[1..] == a[1..] + b;
      TextDataAppend(a[1..], b);
    }
  }

  /** The text of a node is the data of all text nodes of its subtree, in
      document order. */
  lemma {:induction false} TextIsDocumentOrder(n: Node)
    ensures TextContent(n) == TextData(Preorder(n))
    decreases n
  {
    match n
    case Text(_) =>
    case Element(_, _, cs) =>
      TextIsDocumentOrderAll(cs);
      TextDataAppend([n], PreorderAll(cs));
    case Other(cs) =>
      TextIsDocumentOrderAll(cs);
      TextDataAppend([n], PreorderAll(cs));
  }

  /** The same for a list of siblings. */
  lemma {:induction false} TextIsDocumentOrderAll(cs: seq<Node>)
    ensures TextOfAll(cs) == TextData(PreorderAll(cs))
    decreases cs
  {
    if cs != [] {
      TextIsDocumentOrder(cs[0]);
      TextIsDocumentOrderAll(cs[1..]);
      TextDataAppend(Preorder(cs[0]), PreorderAll(cs[1..]));
    }
  }

  /** The number of nodes in a subtree; a termination measure. */
  function Size(n: Node): nat
    decreases n
  {
    match n
    case Text(_) => 1
    case Element(_, _, cs) => 1 + SizeAll(cs)
    case Other(cs) => 1 + SizeAll(cs)
  }

  /** The number of nodes in a list of subtrees. */
  function SizeAll(cs: seq<Node>): nat
    decreases cs
  {
    if cs == [] then 0 else Size(cs[0]) + SizeAll(cs[1..])
  }

  lemma {:induction false} SizeAllAppend(a: seq<Node>, b: seq<Node>)
    ensures SizeAll(a + b) == SizeAll(a) + SizeAll(b)
  {
    if a == [] {
      assert a + b == b;
    } else {
      assert (a + b)[0] == a[0] && (a + b)[1..] == a[1..] + b;
      SizeAllAppend(a[1..], b);
    }
  }
}
