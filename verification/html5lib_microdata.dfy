/** The older extractor: no nested items and no unlinked recovery. A scope's
    item collects every property element below it that no other property
    element encloses, whatever scopes lie in between, and a property
    element's value is always a string. */
module Html5libMicrodata {
  import opened Wrappers
  import opened Dom
  import opened Markup
  import MultiMap
  import Microdata
  import MicrodataItems

  /** The older `Item`: the raw `itemtype` attribute (or `None`) and
      string-valued properties. */
  datatype Item = Item(itemtype: Option<string>, props: seq<MultiMap.Entry<string>>)

  /** `item.set(name, value)`. */
  function Set(item: Item, name: string, value: string): (r: Item)
    ensures GetAll(r, name) == GetAll(item, name) + [value]
    ensures forall n :: n != name ==> GetAll(r, n) == GetAll(item, n)
    ensures r.itemtype == item.itemtype
  {
    item.(props := MultiMap.Set(item.props, name, value))
  }

  /** `item.get_all(name)`. */
  function GetAll(item: Item, name: string): (r: seq<string>)
    ensures name !in MultiMap.Names(item.props) ==> r == []
  {
    MultiMap.GetAll(item.props, name)
  }

  /** `item.get(name)`. */
  function Get(item: Item, name: string): (r: Option<string>)
    ensures r.None? <==> GetAll(item, name) == []
    ensures r.Some? ==> r.value == GetAll(item, name)[0]
  {
    MultiMap.Get(item.props, name)
  }

  /** `_text(e)`: the data of every text node of the subtree, in document
      order. */
  function Text(e: Node): (r: string)
    ensures r == TextData(Preorder(e))
  {
    TextIsDocumentOrder(e);
    TextContent(e)
  }

  /** `e.getAttribute(name)` of the DOM: the empty string when missing. */
  function GetAttribute(e: Node, name: string): (r: string)
    requires e.Element?
    ensures name in e.attributes ==> r == e.attributes[name]
    ensures name !in e.attributes ==> r == ""
  {
    if name in e.attributes then e.attributes[name] else ""
  }

  /** `_property_value(e)`: the table attribute for a table tag (empty when
      missing), the text otherwise. Nothing is wrapped as a URI. */
  function PropertyValue(e: Node): (v: string)
    requires e.Element?
    ensures e.tagName in PropertyAttributes && PropertyAttributes[e.tagName] in e.attributes
            ==> v == e.attributes[PropertyAttributes[e.tagName]]
    ensures e.tagName in PropertyAttributes && PropertyAttributes[e.tagName] !in e.attributes ==> v == ""
    ensures e.tagName !in PropertyAttributes ==> v == TextData(Preorder(e))
  {
    if e.tagName in PropertyAttributes then GetAttribute(e, PropertyAttributes[e.tagName])
    else Text(e)
  }

  /** The loop of `_get_item(e, item)`, where `cs` are the child nodes of `e`.
      The item keeps its type. */
  function Fill(cs: seq<Node>, item: Item): (r: Item)
    ensures r.itemtype == item.itemtype
    ensures forall n :: GetAll(item, n) <= GetAll(r, n)
    decreases cs
  {
    if cs == [] then item else Fill(cs[1..], FillChild(cs[0], item))
  }

  /** One child: a property element gives one value and is not looked into;
      anything else, a nested scope included, fills the same item. */
  function FillChild(c: Node, item: Item): (r: Item)
    ensures r.itemtype == item.itemtype
    ensures c.Text? ==> r == item
    ensures c.Element? && PropName(c).Some? ==> r == Set(item, PropName(c).value, PropertyValue(c))
    ensures forall n :: GetAll(item, n) <= GetAll(r, n)
    decreases c
  {
    match c
    case Text(_) => item
    case Other(ks) => Fill(ks, item)
    case Element(_, _, ks) =>
      match PropName(c)
      case Some(name) => Set(item, name, PropertyValue(c))
      case None => Fill(ks, item)
  }

  /** `_get_item(e)`: a fresh item carrying the raw `itemtype` attribute,
      filled from the children of `e`. */
  function GetItem(e: Node): (r: Item)
    ensures r.itemtype == Attr(e, "itemtype")
  {
    Fill(ChildNodes(e), Item(Attr(e, "itemtype"), []))
  }

  /** `_find_items(e)`: exactly one item for a scope, whose subtree is not
      searched for further items; the items of the children otherwise. */
  function FindItems(n: Node): (items: seq<Item>)
    ensures IsItemscope(n) ==> items == [GetItem(n)]
    decreases n
  {
    if IsItemscope(n) then [GetItem(n)]
    else match n
      case Text(_) => []
      case Element(_, _, ks) => FindAll(ks)
      case Other(ks) => FindAll(ks)
  }

  function FindAll(ns: seq<Node>): seq<Item>
    decreases ns
  {
    if ns == [] then [] else FindItems(ns[0]) + FindAll(ns[1..])
  }

  /** The `set` calls a list of property elements makes, in order. */
  function Log(ds: seq<Node>): (log: seq<(string, string)>)
    requires forall i :: 0 <= i < |ds| ==> PropName(ds[i]).Some?
    ensures |log| == |ds|
  {
    if ds == [] then [] else [(PropName(ds[0]).value, PropertyValue(ds[0]))] + Log(ds[1..])
  }

  lemma {:induction false} LogAppend(a: seq<Node>, b: seq<Node>)
    requires forall i :: 0 <= i < |a| ==> PropName(a[i]).Some?
    requires forall i :: 0 <= i < |b| ==> PropName(b[i]).Some?
    ensures Log(a + b) == Log(a) + Log(b)
  {
    if a == [] {
      assert a + b == b;
    } else {
      assert (a + b)[0] == a[0] && (a + b)[1..] == a[1..] + b;
      LogAppend(a[1..], b);
    }
  }

  /** The property elements the older version collects below `cs`: elements
      with an itemprop, in document order, that no other such element
      encloses. Scopes are no boundary. */
  function Members(cs: seq<Node>): seq<Node>
  {
    Select(WalkAll(cs, false, AnyProp), Member)
  }

  /** `_get_item` makes one `set` per collected property element, in
      document order. */
  lemma {:induction false} FillProperties(cs: seq<Node>, item: Item)
    ensures Fill(cs, item) == item.(props := MultiMap.Replay(item.props, Log(Members(cs))))
    decreases cs
  {
    if cs == [] {
      assert Members(cs) == [];
    } else {
      var first := FillChild(cs[0], item);
      var head := Select(Walk(cs[0], false, AnyProp), Member);
      var tail := Members(cs[1..]);
      FillChildProperties(cs[0], item);
      FillProperties(cs[1..], first);
      SelectWalkAll(cs, false, AnyProp, Member);
      LogAppend(head, tail);
      MultiMap.ReplayAppend(item.props, Log(head), Log(tail));
    }
  }

  lemma {:induction false} FillChildProperties(c: Node, item: Item)
    ensures FillChild(c, item) == item.(props := MultiMap.Replay(item.props, Log(Select(Walk(c, false, AnyProp), Member))))
    decreases c
  {
    SelectWalk(c, false, AnyProp, Member);
    match c
    case Text(_) =>
    case Other(ks) =>
      FillProperties(ks, item);
      assert Select(Walk(c, false, AnyProp), Member) == Members(ks);
    case Element(_, _, ks) =>
      if PropName(c).Some? {
        SelectBelowBoundary(ks, AnyProp, Member);
        assert Select(Walk(c, false, AnyProp), Member) == [c];
      } else {
        FillProperties(ks, item);
        assert Select(Walk(c, false, AnyProp), Member) == Members(ks);
      }
  }

  /** Per name: the item's values are those of the collected property
      elements with that name, in document order; a nested scope's
      properties are among them. */
  lemma GetItemGetAll(e: Node, name: string)
    ensures GetAll(GetItem(e), name) == MultiMap.Logged(Log(Members(ChildNodes(e))), name)
  {
    FillProperties(ChildNodes(e), Item(Attr(e, "itemtype"), []));
    MultiMap.ReplayGetAll([], Log(Members(ChildNodes(e))), name);
  }

  /** The scopes the older `_find_items` returns items for: those inside no
      other scope, in document order. */
  function OutermostOf(n: Node): (ds: seq<Node>)
    ensures forall i :: 0 <= i < |ds| ==> IsItemscope(ds[i])
  {
    Select(Walk(n, false, AnyScope), Outermost)
  }

  function OutermostOfAll(ns: seq<Node>): (ds: seq<Node>)
    ensures forall i :: 0 <= i < |ds| ==> IsItemscope(ds[i])
  {
    if ns == [] then [] else OutermostOf(ns[0]) + OutermostOfAll(ns[1..])
  }

  /** The items of a list of scopes. */
  function ItemsOf(ds: seq<Node>): (items: seq<Item>)
    ensures |items| == |ds|
  {
    if ds == [] then [] else [GetItem(ds[0])] + ItemsOf(ds[1..])
  }

  lemma {:induction false} ItemsOfAppend(a: seq<Node>, b: seq<Node>)
    ensures ItemsOf(a + b) == ItemsOf(a) + ItemsOf(b)
  {
    if a == [] {
      assert a + b == b;
    } else {
      assert (a + b)[0] == a[0] && (a + b)[1..] == a[1..] + b;
      ItemsOfAppend(a[1..], b);
    }
  }

  lemma {:induction false} OutermostOutside(cs: seq<Node>)
    ensures Select(WalkAll(cs, false, AnyScope), Outermost) == OutermostOfAll(cs)
  {
    if cs != [] {
      SelectWalkAll(cs, false, AnyScope, Outermost);
      OutermostOutside(cs[1..]);
    }
  }

  /** The older `_find_items` returns one item per outermost scope, in
      document order. */
  lemma {:induction false} FindItemsOutermost(n: Node)
    ensures FindItems(n) == ItemsOf(OutermostOf(n))
    decreases n
  {
    SelectWalk(n, false, AnyScope, Outermost);
    if IsItemscope(n) {
      SelectBelowBoundary(n.childNodes, AnyScope, Outermost);
      assert OutermostOf(n) == [n];
    } else {
      match n
      case Text(_) =>
      case Element(_, _, ks) =>
        FindAllOutermost(ks);
        OutermostOutside(ks);
        assert OutermostOf(n) == Select(WalkAll(ks, false, AnyScope), Outermost);
      case Other(ks) =>
        FindAllOutermost(ks);
        OutermostOutside(ks);
        assert OutermostOf(n) == Select(WalkAll(ks, false, AnyScope), Outermost);
    }
  }

  lemma {:induction false} FindAllOutermost(ns: seq<Node>)
    ensures FindAll(ns) == ItemsOf(OutermostOfAll(ns))
    decreases ns
  {
    if ns != [] {
      FindItemsOutermost(ns[0]);
      FindAllOutermost(ns[1..]);
      ItemsOfAppend(OutermostOf(ns[0]), OutermostOfAll(ns[1..]));
    }
  }

  /** Where both versions read an attribute that is present, they read the
      same string; the current version wraps `href` and `src` values as
      URIs. For a tag outside the table both take the text. */
  lemma PropertyValueVersions(e: Node)
    requires e.Element?
    ensures e.tagName in PropertyAttributes && PropertyAttributes[e.tagName] in e.attributes
            ==> Microdata.PropertyValue(e)
                == (var v := PropertyValue(e);
                    if PropertyAttributes[e.tagName] in {"href", "src"}
                    then MicrodataItems.Link(MicrodataItems.URI(Some(v)))
                    else MicrodataItems.Str(v))
    ensures e.tagName !in PropertyAttributes ==> Microdata.PropertyValue(e) == MicrodataItems.Str(PropertyValue(e))
  {
  }
}
