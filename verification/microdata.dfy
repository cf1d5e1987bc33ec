/** The extractor of the current version: the `Microdata` class over a
    W3C-DOM tree. `_extract` is modelled as a function that threads the item
    being filled and returns it with the list of unlinked elements. */
module Microdata {
  import opened Wrappers
  import opened Dom
  import opened Markup
  import opened MicrodataItems

  /** `_property_value(e)`. A tag whose table attribute is `href` or `src`
      gives a URI of that attribute (of `None` when it is missing); another
      table tag gives the attribute's raw string (or `None`); any other tag
      gives the element's text. A missing attribute never falls back to text. */
  function PropertyValue(e: Node): (v: Value)
    requires e.Element?
    ensures v.Link? <==> e.tagName in {"audio", "embed", "iframe", "img", "source", "video", "a", "area", "link"}
    ensures e.tagName in {"a", "area", "link"} ==> v == Link(URI(Attr(e, "href")))
    ensures e.tagName in {"audio", "embed", "iframe", "img", "source", "video"} ==> v == Link(URI(Attr(e, "src")))
    ensures e.tagName == "meta" ==> v == StrOrNull(Attr(e, "content"))
    ensures e.tagName == "object" ==> v == StrOrNull(Attr(e, "data"))
    ensures e.tagName == "time" ==> v == StrOrNull(Attr(e, "datetime"))
    ensures e.tagName !in PropertyAttributes ==> v == Str(TextData(Preorder(e)))
  {
    TextIsDocumentOrder(e);
    if e.tagName in PropertyAttributes then
      var attrib := PropertyAttributes[e.tagName];
      if attrib == "href" || attrib == "src" then Link(URI(Attr(e, attrib)))
      else StrOrNull(Attr(e, attrib))
    else Str(TextContent(e))
  }

  /** `_make_item(e)`: raises on an element without `itemscope`, otherwise
      builds an empty item from its `itemtype` and `itemid` attributes. */
  function MakeItem(e: Node): (r: Result<Item, string>)
    ensures r.Failure? <==> !IsItemscope(e)
    ensures r.Success? ==> r.value == NewItem(Attr(e, "itemtype"), Attr(e, "itemid"))
  {
    if !IsItemscope(e) then Failure("element is not an Item")
    else Success(NewItem(Attr(e, "itemtype"), Attr(e, "itemid")))
  }

  /** The item being filled and the unlinked elements met on the way. */
  datatype Extraction = Extraction(item: Item, unlinked: seq<Node>)

  /** `_extract(e, item)`, where `cs` are the child nodes of `e`: each child
      in turn updates the item, and the unlinked lists are concatenated.
      Every unlinked element opens a scope without being a property, the
      unlinked subtrees together are no larger than the children, the
      item keeps its type and id, and values are only ever appended. */
  function Extract(cs: seq<Node>, item: Item): (r: Extraction)
    ensures forall i :: 0 <= i < |r.unlinked| ==> IsUnlinkedScope(r.unlinked[i])
    ensures SizeAll(r.unlinked) <= SizeAll(cs)
    ensures r.item.itemtype == item.itemtype && r.item.itemid == item.itemid
    ensures forall n :: GetAll(item, n) <= GetAll(r.item, n)
    decreases cs, 2
  {
    if cs == [] then Extraction(item, [])
    else
      var first := ExtractChild(cs[0], item);
      var rest := Extract(cs[1..], first.item);
      SizeAllAppend(first.unlinked, rest.unlinked);
      Extraction(rest.item, first.unlinked + rest.unlinked)
  }

  /** The body of the loop of `_extract` for one child: a property that is
      also a scope becomes one nested item; a plain property sets its value
      and then lets its descendants fill the same item; a scope that is not
      a property is set aside as unlinked; anything else is looked through.
      Values are only ever appended. */
  function ExtractChild(c: Node, item: Item): (r: Extraction)
    ensures forall i :: 0 <= i < |r.unlinked| ==> IsUnlinkedScope(r.unlinked[i])
    ensures SizeAll(r.unlinked) <= Size(c)
    ensures r.item.itemtype == item.itemtype && r.item.itemid == item.itemid
    ensures forall n :: GetAll(item, n) <= GetAll(r.item, n)
    ensures c.Text? ==> r == Extraction(item, [])
    ensures IsUnlinkedScope(c) ==> r == Extraction(item, [c])
    ensures c.Element? && PropName(c).None? && !IsItemscope(c) ==> r == Extract(c.childNodes, item)
    ensures c.Other? ==> r == Extract(c.childNodes, item)
    ensures PropName(c).Some? && IsItemscope(c)
            ==> r.item == Set(item, PropName(c).value, Nested(Scope(c).item)) && r.unlinked == Scope(c).unlinked
    ensures PropName(c).Some? && !IsItemscope(c)
            ==> GetAll(item, PropName(c).value) + [PropertyValue(c)] <= GetAll(r.item, PropName(c).value)
    decreases c, 1
  {
    match c
    case Text(_) => Extraction(item, [])
    case Other(ks) => Extract(ks, item)
    case Element(_, _, ks) =>
      var itemprop := PropName(c);
      if itemprop.Some? && IsItemscope(c) then
        var nested := Scope(c);
        Extraction(Set(item, itemprop.value, Nested(nested.item)), nested.unlinked)
      else if itemprop.Some? then
        Extract(ks, Set(item, itemprop.value, PropertyValue(c)))
      else if IsItemscope(c) then
        Extraction(item, [c])
      else
        Extract(ks, item)
  }

  /** `_make_item(e)` followed by `_extract(e, item)`: the item of a scope,
      filled from its subtree only, and the unlinked elements found there. */
  function Scope(e: Node): (r: Extraction)
    requires IsItemscope(e)
    ensures forall i :: 0 <= i < |r.unlinked| ==> IsUnlinkedScope(r.unlinked[i])
    ensures SizeAll(r.unlinked) < Size(e)
    ensures r.item.itemtype == MakeItem(e).value.itemtype && r.item.itemid == MakeItem(e).value.itemid
    decreases e, 0
  {
    Extract(e.childNodes, MakeItem(e).value)
  }

  /** `_find_items(e)`: for a scope, its own item first and then the items
      of its unlinked elements, each found the same way; for any other node,
      the items of its children in order. */
  function FindItems(n: Node): (items: seq<Item>)
    ensures IsItemscope(n) ==> |items| >= 1 && items[0] == Scope(n).item
    ensures IsItemscope(n) ==> items[0].itemtype == MakeItem(n).value.itemtype
                               && items[0].itemid == MakeItem(n).value.itemid
    decreases Size(n), 0
  {
    if IsItemscope(n) then
      var s := Scope(n);
      [s.item] + FindAll(s.unlinked)
    else
      FindAll(ChildNodes(n))
  }

  /** The items of a list of nodes, one node after another. */
  function FindAll(ns: seq<Node>): seq<Item>
    decreases SizeAll(ns), 1
  {
    if ns == [] then [] else FindItems(ns[0]) + FindAll(ns[1..])
  }
}
