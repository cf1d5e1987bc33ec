/** A small document of our own on which the older extractor's test
    assertions hold: a person with a name and two colleagues. The test's own
    example.html is not part of this model. */
module SampleDocuments {
  import opened Wrappers
  import opened Dom
  import opened Markup
  import opened Html5libMicrodata

  const Alice := "http://www.xyz.edu/students/alicejones.html"
  const Bob := "http://www.xyz.edu/students/bobsmith.html"

  /** `<span itemprop="name">Jane Doe</span>` */
  function Name(): Node
  {
    Element("span", map["itemprop" := "name"], [Text("Jane Doe")])
  }

  /** `<a itemprop="colleagues" href=...>...</a>` */
  function Colleague(href: string, caption: string): Node
  {
    Element("a", map["itemprop" := "colleagues", "href" := href], [Text(caption)])
  }

  /** `<div itemscope>` holding the name, a blank and two colleagues. */
  function Div(): Node
  {
    Element("div", map["itemscope" := ""], [Name(), Text(" "), Colleague(Alice, "Alice"), Colleague(Bob, "Bob")])
  }

  /** The document: the scope inside a body. */
  function Person(): Node
  {
    Other([Element("body", map[], [Div()])])
  }

  function Filled(): Item
  {
    Set(Set(Set(Item(None, []), "name", "Jane Doe"), "colleagues", Alice), "colleagues", Bob)
  }

  /** The older `_find_items` returns the item of the one scope. */
  lemma PersonFound()
    ensures FindItems(Person()) == [GetItem(Div())]
  {
    var body := Element("body", map[], [Div()]);
    assert Person() == Other([body]);
    assert !IsItemscope(Person()) && !IsItemscope(body) by {
      assert "itemscope" !in body.attributes;
    }
    assert FindItems(Person()) == FindAll([body]);
    assert FindAll([body]) == FindItems(body) + FindAll([]);
    assert FindItems(body) == FindAll([Div()]);
    assert FindAll([Div()]) == FindItems(Div()) + FindAll([]);
    assert IsItemscope(Div());
  }

  /** The name element sets its text. */
  lemma NameSets(item: Item)
    ensures FillChild(Name(), item) == Set(item, "name", "Jane Doe")
  {
    assert PropName(Name()) == Some("name");
    assert TextContent(Name()) == "Jane Doe" + TextOfAll([]);
    TextIsDocumentOrder(Name());
    assert Name().tagName !in PropertyAttributes;
    assert PropertyValue(Name()) == "Jane Doe";
  }

  /** A colleague link sets its address. */
  lemma ColleagueSets(href: string, caption: string, item: Item)
    ensures FillChild(Colleague(href, caption), item) == Set(item, "colleagues", href)
  {
    assert PropName(Colleague(href, caption)) == Some("colleagues");
    assert PropertyValue(Colleague(href, caption)) == href;
  }

  /** Filling from a list of children is filling from the first, then the rest. */
  lemma FillStep(cs: seq<Node>, item: Item)
    requires cs != []
    ensures Fill(cs, item) == Fill(cs[1..], FillChild(cs[0], item))
  {
  }

  /** The scope's children make three `set` calls, in document order. */
  lemma PersonFilled()
    ensures GetItem(Div()) == Filled()
  {
    var cs := [Name(), Text(" "), Colleague(Alice, "Alice"), Colleague(Bob, "Bob")];
    var i0 := Item(None, []);
    var i1 := Set(i0, "name", "Jane Doe");
    var i2 := Set(i1, "colleagues", Alice);
    assert Div().childNodes == cs;
    assert GetItem(Div()) == Fill(cs, i0) by {
      assert Attr(Div(), "itemtype") == None;
    }
    FillStep(cs, i0);
    NameSets(i0);
    FillStep(cs[1..], i1);
    assert FillChild(cs[1], i1) == i1;
    FillStep(cs[2..], i1);
    ColleagueSets(Alice, "Alice", i1);
    FillStep(cs[3..], i2);
    ColleagueSets(Bob, "Bob", i2);
    assert cs[3..][1..] == [];
  }

  /** One item; `get` gives the name and the first colleague, `get_all`
      both colleagues in document order. */
  lemma PersonItem()
    ensures |FindItems(Person())| == 1
    ensures Get(FindItems(Person())[0], "name") == Some("Jane Doe")
    ensures Get(FindItems(Person())[0], "colleagues") == Some(Alice)
    ensures GetAll(FindItems(Person())[0], "colleagues") == [Alice, Bob]
  {
    PersonFound();
    PersonFilled();
    var i1 := Set(Item(None, []), "name", "Jane Doe");
    assert GetAll(i1, "colleagues") == [];
    assert GetAll(Filled(), "name") == ["Jane Doe"];
  }
}
