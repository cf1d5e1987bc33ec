/** The `Item` and `URI` classes of the current extractor, and the
    structured form `json_dict` produces. */
module MicrodataItems {
  import opened Wrappers
  import Strings
  import MultiMap

  /** A string wrapper compared by its string. `URI(None)` arises when a
      link-valued tag lacks its attribute. */
  datatype URI = URI(str: Option<string>)

  /** A property value: a nested item, a URI, a string, or `None` (a
      `meta`, `object` or `time` element without its attribute). */
  datatype Value = Nested(item: Item) | Link(uri: URI) | Str(s: string) | Null

  /** An item: `itemtype` and `itemid` are only set by the constructor when
      their attributes are non-empty; `props` is the ordered multimap. */
  datatype Item = Item(itemtype: Option<seq<URI>>, itemid: Option<URI>, props: seq<MultiMap.Entry<Value>>)

  /** The strings inside a list of URIs that all carry one. */
  function Spellings(us: seq<URI>): (ss: seq<string>)
    requires forall i :: 0 <= i < |us| ==> us[i].str.Some?
    ensures |ss| == |us|
  {
    if us == [] then [] else [us[0].str.value] + Spellings(us[1..])
  }

  /** The URIs of an `itemtype` attribute: the pieces between single spaces. */
  function TypeURIs(itemtype: string): (us: seq<URI>)
    ensures |us| >= 1
    ensures forall i :: 0 <= i < |us| ==> us[i].str.Some? && ' ' !in us[i].str.value
    ensures Strings.Join(Spellings(us), ' ') == itemtype
  {
    var parts := Strings.Split(itemtype, ' ');
    var us := seq(|parts|, i requires 0 <= i < |parts| => URI(Some(parts[i])));
    assert Spellings(us) == parts by {
      SpellingsOf(parts, us);
    }
    us
  }

  lemma {:induction false} SpellingsOf(parts: seq<string>, us: seq<URI>)
    requires |us| == |parts|
    requires forall i :: 0 <= i < |us| ==> us[i] == URI(Some(parts[i]))
    ensures Spellings(us) == parts
  {
    if us != [] {
      SpellingsOf(parts[1..], us[1..]);
    }
  }

  /** `Item(itemtype, itemid)`: no properties yet; the type list only when
      the attribute is non-empty, split on single spaces in order; the id,
      wrapped as a URI, only when the attribute is non-empty. */
  function NewItem(itemtype: Option<string>, itemid: Option<string>): (r: Item)
    ensures r.props == []
    ensures r.itemtype.Some? <==> itemtype.Some? && itemtype.value != ""
    ensures r.itemtype.Some? ==> r.itemtype.value == TypeURIs(itemtype.value)
    ensures r.itemid.Some? <==> itemid.Some? && itemid.value != ""
    ensures r.itemid.Some? ==> r.itemid.value.str == itemid
  {
    Item(
      if itemtype.Some? && itemtype.value != "" then Some(TypeURIs(itemtype.value)) else None,
      if itemid.Some? && itemid.value != "" then Some(URI(itemid)) else None,
      [])
  }

  /** `item.set(name, value)`. */
  function Set(item: Item, name: string, value: Value): (r: Item)
    ensures GetAll(r, name) == GetAll(item, name) + [value]
    ensures forall n :: n != name ==> GetAll(r, n) == GetAll(item, n)
    ensures r.itemtype == item.itemtype && r.itemid == item.itemid
  {
    item.(props := MultiMap.Set(item.props, name, value))
  }

  /** `item.get_all(name)`. */
  function GetAll(item: Item, name: string): (r: seq<Value>)
    ensures name !in MultiMap.Names(item.props) ==> r == []
  {
    MultiMap.GetAll(item.props, name)
  }

  /** `item.get(name)`. */
  function Get(item: Item, name: string): (r: Option<Value>)
    ensures r.None? <==> GetAll(item, name) == []
    ensures r.Some? ==> r.value == GetAll(item, name)[0]
  {
    MultiMap.Get(item.props, name)
  }

  /** A Python `str` or `None`, as a value. */
  function StrOrNull(s: Option<string>): (v: Value)
    ensures v.Str? <==> s.Some?
    ensures s.Some? ==> v.s == s.value
    ensures s.None? ==> v == Null
    ensures Serialize(v) == OfString(s)
  {
    match s
    case Some(t) => Str(t)
    case None => Null
  }

  /** Python's truth value of a property value: items and URIs are always
      true, strings when non-empty, `None` never. */
  predicate Truthy(v: Value)
  {
    match v
    case Nested(_) => true
    case Link(_) => true
    case Str(s) => s != ""
    case Null => false
  }

  /** The `type` key exactly as `json_dict` computes it: the list of URI
      strings, absent, or the exception raised. Reading `self.itemtype` on
      an item whose constructor did not set it goes through `__getattr__`
      to `self.get("itemtype")`; a true value found there is then iterated
      as if it were the list of type URIs. */
  function TypeKeyAsWritten(item: Item): (r: Result<Option<seq<Plain>>, string>)
    ensures item.itemtype.Some? && item.itemtype.value == [] ==> r == Success(None)
    ensures item.itemtype.Some? && item.itemtype.value != [] ==>
              r.Success? && r.value.Some? && |r.value.value| == |item.itemtype.value|
              && forall i :: 0 <= i < |r.value.value| ==> r.value.value[i] == OfString(item.itemtype.value[i].str)
    ensures item.itemtype.None? && GetAll(item, "itemtype") == [] ==> r == Success(None)
    ensures item.itemtype.None? && Get(item, "itemtype").Some? && Truthy(Get(item, "itemtype").value) ==> r.Failure?
  {
    match item.itemtype
    case Some(us) =>
      if us == [] then Success(None)
      else Success(Some(seq(|us|, i requires 0 <= i < |us| => OfString(us[i].str))))
    case None =>
      match Get(item, "itemtype")
      case None => Success(None)
      case Some(v) =>
        if !Truthy(v) then Success(None)
        else if v.Str? then Failure("AttributeError: 'str' object has no attribute 'string'")
        else Failure("TypeError: object is not iterable")
  }

  /** The `id` key exactly as `json_dict` computes it: the object stored
      under `id`, absent, or the exception raised. On an item without an
      `itemid`, `self.itemid` is `self.get("itemid")`: a URI value lends its
      string, an item value answers `.string` with its own `get("string")`,
      and a non-empty string raises. The stored object is kept as a `Value`,
      since it may be an item that `json_dict` does not convert;
      `Serialize` maps it to the corrected form. */
  function IdKeyAsWritten(item: Item): (r: Result<Option<Value>, string>)
    ensures item.itemid.Some? ==> r == Success(Some(StrOrNull(item.itemid.value.str)))
    ensures item.itemid.None? && GetAll(item, "itemid") == [] ==> r == Success(None)
    ensures item.itemid.None? && Get(item, "itemid").Some? && Get(item, "itemid").value.Link?
            ==> r == Success(Some(StrOrNull(Get(item, "itemid").value.uri.str)))
    ensures item.itemid.None? && Get(item, "itemid").Some? && Get(item, "itemid").value.Str? && Get(item, "itemid").value.s != ""
            ==> r.Failure?
  {
    match item.itemid
    case Some(u) => Success(Some(StrOrNull(u.str)))
    case None =>
      match Get(item, "itemid")
      case None => Success(None)
      case Some(v) =>
        if !Truthy(v) then Success(None)
        else match v
          case Str(_) => Failure("AttributeError: 'str' object has no attribute 'string'")
          case Link(u) => Success(Some(StrOrNull(u.str)))
          case Nested(it) => Success(Some(match Get(it, "string") case Some(w) => w case None => Null))
          case Null => Success(None)
  }

  /** The two readings agree as long as no property is named `itemtype` or
      `itemid`: the as-written header raises nothing, its `type` list is the
      corrected one, and its `id` object serialises to the corrected `id`. */
  lemma HeaderAgreesWithoutShadowing(item: Item)
    requires GetAll(item, "itemtype") == [] && GetAll(item, "itemid") == []
    ensures TypeKeyAsWritten(item) == Success(JsonDict(item).types)
    ensures IdKeyAsWritten(item).Success?
    ensures IdKeyAsWritten(item).value.Some? <==> JsonDict(item).id.Some?
    ensures IdKeyAsWritten(item).value.Some? ==> Serialize(IdKeyAsWritten(item).value.value) == JsonDict(item).id.value
  {
  }

  /** A value of the dictionaries `json_dict` builds: a string, `None`, or a
      nested dictionary. */
  datatype Plain = PStr(s: string) | PNone | PDict(dict: Dict)

  /** The dictionary of one item: the `type` key (`types`), the `id` key,
      and the `properties` key, each present or absent. */
  datatype Dict = Dict(types: Option<seq<Plain>>, id: Option<Plain>, properties: seq<MultiMap.Entry<Plain>>)

  /** A Python `str` or `None`, as a value of the dictionaries; the
      serialised form of `StrOrNull`. */
  function OfString(s: Option<string>): (p: Plain)
    ensures p.PStr? <==> s.Some?
    ensures s.Some? ==> p.s == s.value
  {
    match s
    case Some(t) => PStr(t)
    case None => PNone
  }

  /** `json_dict()`, with the `type` and `id` keys decided by the item's own
      `itemtype` and `itemid`. */
  function JsonDict(item: Item): (d: Dict)
    ensures d.types.Some? <==> item.itemtype.Some? && item.itemtype.value != []
    ensures d.types.Some? ==> |d.types.value| == |item.itemtype.value|
    ensures d.types.Some? ==> forall i :: 0 <= i < |d.types.value| ==> d.types.value[i] == OfString(item.itemtype.value[i].str)
    ensures d.id.Some? <==> item.itemid.Some?
    ensures d.id.Some? ==> d.id.value == OfString(item.itemid.value.str)
    decreases item
  {
    Dict(
      match item.itemtype
      case Some(us) => if us != [] then Some(seq(|us|, i requires 0 <= i < |us| => OfString(us[i].str))) else None
      case None => None,
      match item.itemid
      case Some(u) => Some(OfString(u.str))
      case None => None,
      SerializeEntries(item.props))
  }

  /** The `properties` dictionary: one key per name that has values, in the
      item's order. */
  function SerializeEntries(es: seq<MultiMap.Entry<Value>>): (r: seq<MultiMap.Entry<Plain>>)
    decreases es
  {
    if es == [] then []
    else if es[0].values == [] then SerializeEntries(es[1..])
    else [MultiMap.Entry(es[0].name, SerializeAll(es[0].values))] + SerializeEntries(es[1..])
  }

  /** A list of values, each serialised. */
  function SerializeAll(vs: seq<Value>): (r: seq<Plain>)
    ensures |r| == |vs|
    decreases vs
  {
    if vs == [] then [] else [Serialize(vs[0])] + SerializeAll(vs[1..])
  }

  /** One value: nested items recursively, URIs as their string, the rest
      as they are. */
  function Serialize(v: Value): (p: Plain)
    ensures p.PDict? <==> v.Nested?
    ensures v.Nested? ==> p.dict == JsonDict(v.item)
    ensures v.Link? ==> p == OfString(v.uri.str)
    ensures v.Str? ==> p == PStr(v.s)
    ensures v.Null? ==> p == PNone
    decreases v
  {
    match v
    case Nested(it) => PDict(JsonDict(it))
    case Link(u) => OfString(u.str)
    case Str(s) => PStr(s)
    case Null => PNone
  }

  /** Each property list of `json_dict` has the values of `get_all`, in the
      same order, each serialised. */
  lemma {:induction false} JsonDictProperties(item: Item, name: string)
    requires MultiMap.NoEmptyLists(item.props)
    ensures MultiMap.GetAll(JsonDict(item).properties, name) == SerializeAll(GetAll(item, name))
  {
    SerializeEntriesGetAll(item.props, name);
  }

  lemma {:induction false} SerializeEntriesGetAll(es: seq<MultiMap.Entry<Value>>, name: string)
    requires MultiMap.NoEmptyLists(es)
    ensures MultiMap.GetAll(SerializeEntries(es), name) == SerializeAll(MultiMap.GetAll(es, name))
  {
    if es != [] {
      assert MultiMap.NoEmptyLists(es[1..]);
      SerializeEntriesGetAll(es[1..], name);
      var rest := SerializeEntries(es[1..]);
      var r := [MultiMap.Entry(es[0].name, SerializeAll(es[0].values))] + rest;
      assert SerializeEntries(es) == r;
      assert r[0].name == es[0].name && r[1..] == rest;
    }
  }

  /** The first serialised value under a name is the serialised `get(name)`. */
  lemma JsonDictGet(item: Item, name: string)
    requires MultiMap.NoEmptyLists(item.props)
    ensures MultiMap.Get(JsonDict(item).properties, name)
         == (match Get(item, name) case Some(v) => Some(Serialize(v)) case None => None)
  {
    JsonDictProperties(item, name);
  }
}
