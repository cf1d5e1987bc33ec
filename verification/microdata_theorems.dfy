/** What the current extractor computes, stated against document-order
    walks of the tree rather than against its own recursion. */
module MicrodataTheorems {
  import opened Dom
  import opened Markup
  import opened MicrodataItems
  import opened Microdata
  import MultiMap

  /** The value a property element contributes: a nested item when it is
      also a scope, its property value otherwise. */
  function ValueOf(d: Node): Value
    requires PropName(d).Some?
  {
    if IsItemscope(d) then Nested(Scope(d).item) else PropertyValue(d)
  }

  /** The `set` calls a list of property elements makes, in order. */
  function Log(ds: seq<Node>): (log: seq<(string, Value)>)
    requires forall i :: 0 <= i < |ds| ==> PropName(ds[i]).Some?
    ensures |log| == |ds|
  {
    if ds == [] then [] else [(PropName(ds[0]).value, ValueOf(ds[0]))] + Log(ds[1..])
  }

  lemma {:induction false} LogAppend(a: seq<Node>, b: seq<Node>)
    requires forall i :: 0 <= i < |a| ==> PropName(a[i]).Some?
    requires forall i :: 0 <= i < |b| ==> PropName(b[i]).Some?
    ensures Log(a + b) == Log(a) + Log(b)
  {
    if a == [] {
      assert a + b == b;
    } else {
      assert (a + b)[0] == a[0] && (a + b)[1..] == a[1..] + b;
      LogAppend(a[1..], b);
    }
  }

  /** The property elements of the scope whose children are `cs`: elements
      with an itemprop, in document order, that no itemscope element
      separates from the scope. */
  function Members(cs: seq<Node>): seq<Node>
  {
    Select(WalkAll(cs, false, AnyScope), Member)
  }

  /** The unlinked elements of the scope whose children are `cs`: elements
      with itemscope and no itemprop, in document order, that no other such
      element separates from the scope. */
  function UnlinkedOf(cs: seq<Node>): seq<Node>
  {
    Select(WalkAll(cs, false, UnlinkedScope), UnlinkedRoot)
  }

  /** The unlinked list `_extract` returns is the same whatever item it
      fills: exactly the unlinked elements of the scope, in document order,
      including those inside nested items. */
  lemma {:induction false} ExtractUnlinked(cs: seq<Node>, item: Item)
    ensures Extract(cs, item).unlinked == UnlinkedOf(cs)
    decreases cs, 2
  {
    if cs != [] {
      var first := ExtractChild(cs[0], item);
      ExtractChildUnlinked(cs[0], item);
      ExtractUnlinked(cs[1..], first.item);
      SelectWalkAll(cs, false, UnlinkedScope, UnlinkedRoot);
    }
  }

  lemma {:induction false} ExtractChildUnlinked(c: Node, item: Item)
    ensures ExtractChild(c, item).unlinked == Select(Walk(c, false, UnlinkedScope), UnlinkedRoot)
    decreases c, 1
  {
    SelectWalk(c, false, UnlinkedScope, UnlinkedRoot);
    match c
    case Text(_) =>
    case Other(ks) =>
      ExtractUnlinked(ks, item);
    case Element(_, _, ks) =>
      var itemprop := PropName(c);
      if itemprop.Some? && IsItemscope(c) {
        ExtractUnlinked(ks, MakeItem(c).value);
      } else if itemprop.Some? {
        ExtractUnlinked(ks, MicrodataItems.Set(item, itemprop.value, PropertyValue(c)));
      } else if IsItemscope(c) {
        SelectBelowBoundary(ks, UnlinkedScope, UnlinkedRoot);
      } else {
        ExtractUnlinked(ks, item);
      }
  }

  /** `_extract` fills the item with exactly one `set` per property element
      of the scope, in document order, after whatever it already held; its
      type and id are untouched. */
  lemma {:induction false} ExtractProperties(cs: seq<Node>, item: Item)
    ensures Extract(cs, item).item == item.(props := MultiMap.Replay(item.props, Log(Members(cs))))
    decreases cs, 2
  {
    if cs == [] {
      assert Members(cs) == [];
    } else {
      var first := ExtractChild(cs[0], item);
      var head := Select(Walk(cs[0], false, AnyScope), Member);
      var tail := Members(cs[1..]);
      ExtractChildProperties(cs[0], item);
      ExtractProperties(cs[1..], first.item);
      SelectWalkAll(cs, false, AnyScope, Member);
      LogAppend(head, tail);
      MultiMap.ReplayAppend(item.props, Log(head), Log(tail));
    }
  }

  lemma {:induction false} ExtractChildProperties(c: Node, item: Item)
    ensures ExtractChild(c, item).item
         == item.(props := MultiMap.Replay(item.props, Log(Select(Walk(c, false, AnyScope), Member))))
    decreases c, 1
  {
    SelectWalk(c, false, AnyScope, Member);
    match c
    case Text(_) =>
    case Other(ks) =>
      ExtractProperties(ks, item);
      assert Select(Walk(c, false, AnyScope), Member) == Members(ks);
    case Element(_, _, ks) =>
      if PropName(c).Some? && IsItemscope(c) {
        SelectBelowBoundary(ks, AnyScope, Member);
        assert Select(Walk(c, false, AnyScope), Member) == [c];
      } else if PropName(c).Some? {
        PropertyChildProperties(c, item);
      } else if IsItemscope(c) {
        SelectBelowBoundary(ks, AnyScope, Member);
      } else {
        ExtractProperties(ks, item);
        assert Select(Walk(c, false, AnyScope), Member) == Members(ks);
      }
  }

  /** The plain-property case of the lemma above. */
  lemma {:induction false} PropertyChildProperties(c: Node, item: Item)
    requires c.Element? && PropName(c).Some? && !IsItemscope(c)
    ensures ExtractChild(c, item).item
         == item.(props := MultiMap.Replay(item.props, Log(Select(Walk(c, false, AnyScope), Member))))
    decreases c, 0
  {
    var ks := c.childNodes;
    var entry := (PropName(c).value, PropertyValue(c));
    var filled := MicrodataItems.Set(item, entry.0, entry.1);
    assert ExtractChild(c, item) == Extract(ks, filled);
    ExtractProperties(ks, filled);
    SelectWalk(c, false, AnyScope, Member);
    assert Select(Walk(c, false, AnyScope), Member) == [c] + Members(ks);
    LogAppend([c], Members(ks));
    var rest := Log(Members(ks));
    assert Log([c] + Members(ks)) == [entry] + rest;
    assert ([entry] + rest)[0] == entry && ([entry] + rest)[1..] == rest;
    assert MultiMap.Replay(item.props, [entry] + rest) == MultiMap.Replay(filled.props, rest);
  }

  /** Per name: after `_extract`, `get_all(name)` is the old list followed by
      the values of the scope's property elements with that name, in
      document order. */
  lemma ExtractGetAll(cs: seq<Node>, item: Item, name: string)
    ensures GetAll(Extract(cs, item).item, name) == GetAll(item, name) + MultiMap.Logged(Log(Members(cs)), name)
  {
    ExtractProperties(cs, item);
    MultiMap.ReplayGetAll(item.props, Log(Members(cs)), name);
  }

  /** The item of a scope holds the values of its own property elements and
      nothing else. */
  lemma ScopeGetAll(e: Node, name: string)
    requires IsItemscope(e)
    ensures GetAll(Scope(e).item, name) == MultiMap.Logged(Log(Members(e.childNodes)), name)
  {
    ExtractGetAll(e.childNodes, MakeItem(e).value, name);
  }

  /** Every scope's item has the shape of a Python dict of lists. */
  lemma ScopeWellFormed(e: Node)
    requires IsItemscope(e)
    ensures MultiMap.WellFormed(Scope(e).item.props)
  {
    ExtractProperties(e.childNodes, MakeItem(e).value);
    MultiMap.ReplayWellFormed([], Log(Members(e.childNodes)));
  }

  /** A child that is both a property and a scope adds exactly one value,
      under its whole itemprop string: a nested item filled from that
      child's subtree alone. Its unlinked elements are passed up. */
  lemma DualRoleChild(c: Node, item: Item)
    requires PropName(c).Some? && IsItemscope(c)
    ensures GetAll(ExtractChild(c, item).item, PropName(c).value) == GetAll(item, PropName(c).value) + [Nested(Scope(c).item)]
    ensures forall n :: n != PropName(c).value ==> GetAll(ExtractChild(c, item).item, n) == GetAll(item, n)
    ensures ExtractChild(c, item).unlinked == UnlinkedOf(c.childNodes)
  {
    ExtractUnlinked(c.childNodes, MakeItem(c).value);
  }

  /** A child that is a property but not a scope puts its own value first;
      the values its descendants add to the same item come after it. */
  lemma PropertyChild(c: Node, item: Item, name: string)
    requires PropName(c).Some? && !IsItemscope(c)
    ensures GetAll(ExtractChild(c, item).item, name)
         == GetAll(item, name)
            + (if name == PropName(c).value then [PropertyValue(c)] else [])
            + MultiMap.Logged(Log(Members(c.childNodes)), name)
  {
    var filled := MicrodataItems.Set(item, PropName(c).value, PropertyValue(c));
    ExtractGetAll(c.childNodes, filled, name);
  }

  /** A scope that is not a property changes nothing in the current item and
      is handed back whole, its subtree unvisited. */
  lemma UnlinkedChild(c: Node, item: Item)
    requires IsUnlinkedScope(c)
    ensures ExtractChild(c, item) == Extraction(item, [c])
  {
  }

  /** The elements `_find_items` makes items for, in document order: every
      scope that is not inside another scope, and every scope inside one
      that is not a property. */
  function TopLevelOf(n: Node): (ds: seq<Node>)
    ensures forall i :: 0 <= i < |ds| ==> IsItemscope(ds[i])
  {
    Select(Walk(n, false, AnyScope), TopLevel)
  }

  function TopLevelOfAll(ns: seq<Node>): (ds: seq<Node>)
    ensures forall i :: 0 <= i < |ds| ==> IsItemscope(ds[i])
  {
    if ns == [] then [] else TopLevelOf(ns[0]) + TopLevelOfAll(ns[1..])
  }

  lemma {:induction false} TopLevelOfAllAppend(a: seq<Node>, b: seq<Node>)
    ensures TopLevelOfAll(a + b) == TopLevelOfAll(a) + TopLevelOfAll(b)
  {
    if a == [] {
      assert a + b == b;
    } else {
      assert (a + b)[0] == a[0] && (a + b)[1..] == a[1..] + b;
      TopLevelOfAllAppend(a[1..], b);
    }
  }

  /** The items of a list of scopes. */
  function ItemsOf(ds: seq<Node>): (items: seq<Item>)
    requires forall i :: 0 <= i < |ds| ==> IsItemscope(ds[i])
    ensures |items| == |ds|
  {
    if ds == [] then [] else [Scope(ds[0]).item] + ItemsOf(ds[1..])
  }

  lemma {:induction false} ItemsOfAppend(a: seq<Node>, b: seq<Node>)
    requires forall i :: 0 <= i < |a| ==> IsItemscope(a[i])
    requires forall i :: 0 <= i < |b| ==> IsItemscope(b[i])
    ensures ItemsOf(a + b) == ItemsOf(a) + ItemsOf(b)
  {
    if a == [] {
      assert a + b == b;
    } else {
      assert (a + b)[0] == a[0] && (a + b)[1..] == a[1..] + b;
      ItemsOfAppend(a[1..], b);
    }
  }

  /** Outside every scope, the top-level scopes of siblings are theirs in turn. */
  lemma {:induction false} TopLevelOutside(cs: seq<Node>)
    ensures Select(WalkAll(cs, false, AnyScope), TopLevel) == TopLevelOfAll(cs)
  {
    if cs != [] {
      SelectWalkAll(cs, false, AnyScope, TopLevel);
      TopLevelOutside(cs[1..]);
    }
  }

  /** Inside a scope, the top-level scopes are those of its unlinked
      elements, each followed by the top-level scopes of its own subtree. */
  lemma {:induction false} TopLevelInside(cs: seq<Node>)
    ensures Select(WalkAll(cs, true, AnyScope), TopLevel) == TopLevelOfAll(UnlinkedOf(cs))
  {
    if cs != [] {
      var c := cs[0];
      SelectWalkAll(cs, true, AnyScope, TopLevel);
      SelectWalkAll(cs, false, UnlinkedScope, UnlinkedRoot);
      TopLevelInside(cs[1..]);
      var head := Select(Walk(c, false, UnlinkedScope), UnlinkedRoot);
      TopLevelOfAllAppend(head, UnlinkedOf(cs[1..]));
      SelectWalk(c, true, AnyScope, TopLevel);
      SelectWalk(c, false, UnlinkedScope, UnlinkedRoot);
      match c {
        case Text(_) =>
        case Other(ks) =>
          TopLevelInside(ks);
          assert head == UnlinkedOf(ks);
          assert Select(Walk(c, true, AnyScope), TopLevel) == Select(WalkAll(ks, true, AnyScope), TopLevel);
        case Element(_, _, ks) =>
          if IsUnlinkedScope(c) {
            SelectBelowBoundary(ks, UnlinkedScope, UnlinkedRoot);
            SelectWalk(c, false, AnyScope, TopLevel);
            assert head == [c];
            assert TopLevelOfAll(head) == TopLevelOf(c);
          } else {
            TopLevelInside(ks);
            assert head == UnlinkedOf(ks);
            assert Select(Walk(c, true, AnyScope), TopLevel) == Select(WalkAll(ks, true, AnyScope), TopLevel);
          }
      }
    }
  }

  /** `_find_items` returns one item per top-level scope, in document order:
      the scope's own item, filled from its subtree. */
  lemma {:induction false} FindItemsTopLevel(n: Node)
    ensures FindItems(n) == ItemsOf(TopLevelOf(n))
    decreases Size(n), 0
  {
    SelectWalk(n, false, AnyScope, TopLevel);
    if IsItemscope(n) {
      var s := Scope(n);
      ExtractUnlinked(n.childNodes, MakeItem(n).value);
      FindAllTopLevel(s.unlinked);
      TopLevelInside(n.childNodes);
      ItemsOfAppend([n], TopLevelOfAll(s.unlinked));
    } else {
      FindAllTopLevel(ChildNodes(n));
      TopLevelOutside(ChildNodes(n));
      assert TopLevelOf(n) == Select(WalkAll(ChildNodes(n), false, AnyScope), TopLevel);
    }
  }

  lemma {:induction false} FindAllTopLevel(ns: seq<Node>)
    ensures FindAll(ns) == ItemsOf(TopLevelOfAll(ns))
    decreases SizeAll(ns), 1
  {
    if ns != [] {
      FindItemsTopLevel(ns[0]);
      FindAllTopLevel(ns[1..]);
      ItemsOfAppend(TopLevelOf(ns[0]), TopLevelOfAll(ns[1..]));
    }
  }

  /** Every item `_find_items` returns has the shape of a Python dict of
      lists, so its `json_dict` lists are exactly its `get_all` lists. */
  lemma FoundItemsWellFormed(n: Node)
    ensures forall i :: 0 <= i < |FindItems(n)| ==> MultiMap.WellFormed(FindItems(n)[i].props)
  {
    FindItemsTopLevel(n);
    ItemsOfWellFormed(TopLevelOf(n));
  }

  lemma {:induction false} ItemsOfWellFormed(ds: seq<Node>)
    requires forall i :: 0 <= i < |ds| ==> IsItemscope(ds[i])
    ensures forall i :: 0 <= i < |ItemsOf(ds)| ==> MultiMap.WellFormed(ItemsOf(ds)[i].props)
  {
    if ds != [] {
      ScopeWellFormed(ds[0]);
      ItemsOfWellFormed(ds[1..]);
    }
  }
}
