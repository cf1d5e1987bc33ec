/** Two small documents on which `json_dict`, as written, does not describe
    the item it serialises, next to the corrected serialisation. */
module JsonFindings {
  import opened Wrappers
  import opened Dom
  import opened Markup
  import opened MicrodataItems
  import opened Microdata

  /** `<div itemscope><a itemprop="itemid" href="http://example.com/x"></a></div>` */
  function LinkNamedItemid(): Node
  {
    Element("div", map["itemscope" := ""],
      [Element("a", map["itemprop" := "itemid", "href" := "http://example.com/x"], [])])
  }

  /** `<div itemscope><span itemprop="itemtype">Person</span></div>` */
  function TextNamedItemtype(): Node
  {
    Element("div", map["itemscope" := ""],
      [Element("span", map["itemprop" := "itemtype"], [Text("Person")])])
  }

  /** The item of a scope whose only child is one plain property element
      holding at most one text node. */
  lemma OnePropertyScope(e: Node)
    requires IsItemscope(e) && |e.childNodes| == 1
    requires PropName(e.childNodes[0]).Some? && !IsItemscope(e.childNodes[0])
    requires e.childNodes[0].Element? && |e.childNodes[0].childNodes| <= 1
    requires forall k :: 0 <= k < |e.childNodes[0].childNodes| ==> e.childNodes[0].childNodes[k].Text?
    ensures Scope(e).item
         == MicrodataItems.Set(MakeItem(e).value, PropName(e.childNodes[0]).value, PropertyValue(e.childNodes[0]))
  {
    var c := e.childNodes[0];
    var made := MakeItem(e).value;
    var filled := MicrodataItems.Set(made, PropName(c).value, PropertyValue(c));
    assert e.childNodes[1..] == [];
    assert Extract(e.childNodes, made).item == Extract([], ExtractChild(c, made).item).item;
    assert ExtractChild(c, made) == Extract(c.childNodes, filled);
    if c.childNodes != [] {
      assert c.childNodes[1..] == [];
      assert ExtractChild(c.childNodes[0], filled) == Extraction(filled, []);
    }
  }

  /** The item has no `itemid`, yet `json_dict` as written emits the link's
      address as its `id`; the corrected serialisation emits none. */
  lemma SpuriousIdFromProperty()
    ensures var item := Scope(LinkNamedItemid()).item;
            && item.itemid.None?
            && IdKeyAsWritten(item) == Success(Some(Str("http://example.com/x")))
            && JsonDict(item).id.None?
  {
    var e := LinkNamedItemid();
    var c := e.childNodes[0];
    assert Attr(e, "itemid").None?;
    OnePropertyScope(e);
    var item := Scope(e).item;
    assert PropertyValue(c) == Link(URI(Some("http://example.com/x")));
    assert Get(item, "itemid") == Some(Link(URI(Some("http://example.com/x"))));
  }

  /** The item has no `itemtype`; `json_dict` as written raises on it, while
      the corrected serialisation simply omits `type`. */
  lemma TypePropertyRaises()
    ensures var item := Scope(TextNamedItemtype()).item;
            && item.itemtype.None?
            && TypeKeyAsWritten(item).Failure?
            && JsonDict(item).types.None?
  {
    var e := TextNamedItemtype();
    var c := e.childNodes[0];
    var made := MakeItem(e).value;
    assert made.itemtype.None? && made.props == [] by {
      assert Attr(e, "itemtype").None?;
    }
    assert PropertyValue(c) == Str("Person") by {
      assert c.childNodes == [Text("Person")];
      assert TextOfAll(c.childNodes) == TextContent(Text("Person")) + TextOfAll([]);
      assert c.tagName !in PropertyAttributes;
    }
    OnePropertyScope(e);
    var item := Scope(e).item;
    assert item == MicrodataItems.Set(made, "itemtype", Str("Person"));
    assert GetAll(item, "itemtype") == [Str("Person")];
  }
}
