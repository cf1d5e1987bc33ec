# microdata extraction, modelled in Dafny

The `microdata` library reads HTML microdata out of a parsed document. An
element with an `itemscope` attribute opens an item. Elements below it with
a non-empty `itemprop` attribute give that item named property values. The
result is a list of `Item` objects that can be turned into JSON-ready
dictionaries.

The repository has two extractors, and both are modelled:

- `microdata.py` is the current version. Nested items are built when an
  element has both `itemprop` and `itemscope`. Scopes that are nobody's
  property are handed back as "unlinked" elements and become top-level
  items of their own. Link-like tags give `URI` values. `Item` keeps
  `itemtype` (split on single spaces) and `itemid`, and has `json_dict`.
- `html5lib_microdata.py` is the older version. Every outermost scope gives
  one item. That item collects every property element below it that no
  other property element encloses. Nested scopes are not built; their
  properties merge into the enclosing item. All values are plain strings.

The document is an immutable tree (`Dom.Node`): elements with a tag name, an
attribute map and child nodes; text nodes; and other nodes such as the
document or a comment, which only have children. Python's mutable `Item`
objects become values. The in-place `_extract(e, item)` becomes a function
that takes the item being filled and returns it with the unlinked list
(`Microdata.Extraction`). A property dict of lists becomes an association
list in insertion order (`MultiMap`). Python's truth tests on attribute
values are written out: an `itemprop` counts only when present and
non-empty (`Markup.PropName`), while `itemscope` counts whenever it is
present (`Markup.IsItemscope`).

Each extractor's recursive code is tied to a separate reference definition.
`Markup.Walk` lists every node of a subtree in document order, and marks
whether the node lies below a boundary element. `Markup.Select` keeps the
visits that a criterion picks. From these come the scope's property
elements, its unlinked elements, and the scopes that `_find_items` returns
items for. The theorems say that the recursion computes exactly these
lists, in this order.

Modules, one per file: `Wrappers` (`Option`, `Result`), `Strings` (split
and join), `MultiMap` (the property dict), `Dom` (the DOM adapter),
`Markup` (the property table, attribute tests, walks), `MicrodataItems`
(`Item`, `URI`, `json_dict`), `Microdata` (the current extractor),
`MicrodataTheorems` (what the current extractor computes), `Html5libMicrodata`
(the older extractor and its theorems), `JsonFindings` (the `json_dict`
finding below), `SampleDocuments` (a small document of our own on which the older extractor's test assertions hold).

## Where the code differs from the usual description

The model follows the code in each of these places:

- Text content concatenates every text node, including those inside
  `script` and `style` (microdata.py:70-76, html5lib_microdata.py:87-93).
- A table tag without its attribute does not fall back to text. The current
  version gives `URI(None)` for `href`/`src` tags and `None` for the others
  (microdata.py:139-142). The older version gives `""`, which is what the
  DOM's `getAttribute` returns for a missing attribute
  (html5lib_microdata.py:81-82).
- Only `href` and `src` values are wrapped as URIs. `meta`, `object` and
  `time` values stay plain strings (microdata.py:139-142).
- `itemprop` is not split into several names. The whole attribute string is
  one property name (microdata.py:114-122).
- `itemtype` is split on single spaces, so doubled spaces give empty type
  strings (microdata.py:185-186).
- The older `Item` has no `itemid` (html5lib_microdata.py:8-10).

## Model

| member | source | states |
|---|---|---|
| Dom.Attr | microdata.py:62-65 | an attribute is read only from an element that has it; otherwise there is no value. The older `_attr` (html5lib_microdata.py:73-76) is the same function and is modelled by this member too |
| Dom.TextIsDocumentOrder | microdata.py:70-76 | the recursive text of a node is the data of the text nodes of its subtree, concatenated in document order |
| Markup.PropName | microdata.py:114-116 | an element is a property exactly when its `itemprop` is present and non-empty, and the name is the whole attribute value |
| Strings.Split | microdata.py:185-186 | splitting on one character gives at least one piece, no piece contains the separator, and joining the pieces back gives the input |
| Strings.SplitJoin | microdata.py:186 | splitting the join of separator-free pieces gives those pieces back, so split and join are inverse |
| MultiMap.Set | microdata.py:196-202 | `set` appends the value to the list of its name only, and adds the name at the end of the key order when it is new |
| MultiMap.SetWellFormed | microdata.py:196-202 | after `set`, each name still appears once and no list is empty |
| MultiMap.GetAll | microdata.py:214-221 | an unset name gives `[]`; in a dict built by `set`, the list is empty exactly when the name was never set |
| MultiMap.Get | microdata.py:204-212 | `get` is `None` exactly when `get_all` is empty, and otherwise is the first value of `get_all` |
| MultiMap.GetAfterSet | microdata.py:204-212 | setting a name never changes its first value, except that a first `set` provides one |
| MultiMap.ReplayGetAll | microdata.py:196-221 | after any sequence of `set` calls, `get_all(name)` is the old list followed by the values set under that name, in the order they were set |
| MultiMap.ReplayWellFormed | microdata.py:196-202 | any sequence of `set` calls keeps each name once and every list non-empty |
| MicrodataItems.TypeURIs | microdata.py:185-186 | the type URIs are the pieces of the attribute between single spaces, in order; there is at least one, none contains a space, and their strings join back to the attribute |
| MicrodataItems.NewItem | microdata.py:181-191 | a new item has no properties; it has a type list exactly when the `itemtype` attribute is non-empty, and an id URI exactly when `itemid` is non-empty |
| MicrodataItems.Set | microdata.py:196-202 | setting appends to that name's values only, and the item keeps its type and id |
| MicrodataItems.Get | microdata.py:204-212 | `get` is `None` exactly when `get_all` is empty, and otherwise is its first value |
| MicrodataItems.StrOrNull | microdata.py:141-142 | a present attribute becomes a string value holding it, and a missing one becomes `None`; serialised, it is the same string or `None` |
| MicrodataItems.TypeKeyAsWritten | microdata.py:235-236 | the `type` key as written: for an item with a non-empty type list, present and holding one string per URI in order; absent for an empty list, and when there is no type list and no property named `itemtype`; an exception when only a true `itemtype` property stands in for it |
| MicrodataItems.IdKeyAsWritten | microdata.py:237-238 | the `id` key as written: the id's string for an item with an id; absent when there is no id and no `itemid` property; when only an `itemid` property stands in for it, that URI's string if it is a URI, and an exception if it is a non-empty string |
| MicrodataItems.HeaderAgreesWithoutShadowing | microdata.py:193-194 | without properties named `itemtype` or `itemid`, the header as written raises nothing, its `type` list equals the corrected one, and its `id` is present exactly when the corrected `id` is and serialises to it |
| MicrodataItems.JsonDict | microdata.py:229-238 | the corrected dictionary has a `type` list exactly when the item has a non-empty type list, one string per URI in order, and an `id` exactly when the item has an id |
| MicrodataItems.Serialize | microdata.py:243-249 | a value becomes a nested dictionary exactly when it is an item, and that dictionary is the item's own; a URI becomes its string (or `None`); a string and `None` pass through unchanged |
| MicrodataItems.JsonDictProperties | microdata.py:240-249 | for every name, the `properties` list of the dictionary holds that name's `get_all` values, in the same order, each serialised |
| MicrodataItems.JsonDictGet | microdata.py:240-249 | the first serialised value under a name is the serialised `get(name)`, and there is none when `get` is `None` |
| Microdata.PropertyValue | microdata.py:136-145 | link and media tags give a URI of `href` or `src`; `meta`, `object` and `time` give their attribute's string or `None`; any other tag gives its text in document order |
| Microdata.MakeItem | microdata.py:148-153 | making an item fails with "element is not an Item" exactly when the element has no `itemscope`; otherwise the item is built from `itemtype` and `itemid` |
| Microdata.Extract | microdata.py:107-129 | every unlinked element has `itemscope` and no property name, the unlinked subtrees are no larger than the children, the item keeps its type and id, and every name's earlier values stay as a prefix of its values, since `set` only appends |
| Microdata.ExtractChild | microdata.py:113-127 | one child adds only unlinked scopes no larger than itself, keeps the item's type and id, and only appends values. A child that is both property and scope sets exactly one nested item, its own scope's item, and passes up that scope's unlinked elements. A plain property child sets its own value before anything its descendants add. A scope that is not a property is returned whole and changes nothing. Any other element, and any non-element node with children, is looked through into the same item. A text node changes nothing |
| Microdata.Scope | microdata.py:116-118 | a scope's unlinked elements are strictly smaller than the scope, and its item has the type and id `_make_item` gives |
| Microdata.FindItems | microdata.py:91-104 | for a scope element, the first item returned is that element's own item, filled from its subtree, with the type and id `_make_item` gives |
| MicrodataTheorems.ExtractUnlinked | microdata.py:107-129 | the unlinked list does not depend on the item being filled: it is the unlinked scopes of the subtree in document order, not looking inside any of them |
| MicrodataTheorems.ExtractProperties | microdata.py:107-129 | `_extract` is one `set` per property element of the scope, in document order, where no scope element separates the property from the scope |
| MicrodataTheorems.ExtractGetAll | microdata.py:107-129 | after `_extract`, each name's values are the old ones followed by those of the scope's property elements with that name, in document order |
| MicrodataTheorems.ScopeGetAll | microdata.py:95-96 | the item of a scope holds the values of its own property elements and nothing else |
| MicrodataTheorems.ScopeWellFormed | microdata.py:95-96 | the properties of every scope's item have each name once and no empty list |
| MicrodataTheorems.DualRoleChild | microdata.py:116-119 | a child that is both property and scope adds exactly one value, a nested item filled only from its own subtree, under its whole `itemprop`; its unlinked scopes are passed up |
| MicrodataTheorems.PropertyChild | microdata.py:120-123 | a plain property child adds its own value first, then the values of its descendants, to the same item |
| MicrodataTheorems.UnlinkedChild | microdata.py:124-125 | a scope that is not a property leaves the item unchanged and is returned whole, unvisited |
| MicrodataTheorems.FindItemsTopLevel | microdata.py:91-104 | `_find_items` returns one item per scope that is either inside no scope or not a property, in document order, each filled from its own subtree |
| MicrodataTheorems.FoundItemsWellFormed | microdata.py:91-104 | every item `_find_items` returns has each property name once and no empty list |
| Html5libMicrodata.Set | html5lib_microdata.py:15-19 | setting appends to that name's values only and keeps the raw `itemtype` |
| Html5libMicrodata.GetAll | html5lib_microdata.py:27-31 | an unset name gives `[]` |
| Html5libMicrodata.Get | html5lib_microdata.py:21-25 | `get` is `None` exactly when `get_all` is empty, and otherwise is its first value |
| Html5libMicrodata.Text | html5lib_microdata.py:87-93 | the text of a node is the data of its subtree's text nodes in document order |
| Html5libMicrodata.GetAttribute | html5lib_microdata.py:82 | a missing attribute reads as the empty string |
| Html5libMicrodata.PropertyValue | html5lib_microdata.py:78-85 | a table tag gives its attribute as a plain string, or `""` when the attribute is missing; any other tag gives its text |
| Html5libMicrodata.Fill | html5lib_microdata.py:59-65 | filling from the children keeps the item's type and only appends values |
| Html5libMicrodata.FillChild | html5lib_microdata.py:60-65 | one child never changes the item's type and only appends values; a property element makes exactly one `set`, of its own value, and is not entered; a text node changes nothing |
| Html5libMicrodata.FillChildProperties | html5lib_microdata.py:60-65 | one child makes one `set` per property element in its subtree that no other property element encloses: a property child sets its own value and is not entered, and any other child, a nested scope included, is looked through |
| Html5libMicrodata.GetItem | html5lib_microdata.py:55-57 | the item carries the raw `itemtype` attribute, or `None` |
| Html5libMicrodata.FindItems | html5lib_microdata.py:44-53 | a scope element gives exactly one item, its own, and its subtree is not searched further |
| Html5libMicrodata.FillProperties | html5lib_microdata.py:59-65 | `_get_item` makes one `set` per property element that no other property element encloses, in document order, nested scopes included |
| Html5libMicrodata.GetItemGetAll | html5lib_microdata.py:55-67 | each name's values are those of the collected property elements with that name, in document order |
| Html5libMicrodata.FindItemsOutermost | html5lib_microdata.py:44-53 | `_find_items` returns one item per scope that is inside no other scope, in document order |
| Html5libMicrodata.PropertyValueVersions | html5lib_microdata.py:78-85 | where the table attribute is present, both versions read the same string, and only the current one wraps `href` and `src` as URIs; outside the table both give the text |
| SampleDocuments.PersonItem | test.py:7-21 | on a small person document of our own, built so that the test's assertions apply, the older extractor gives one item; `get` gives the name and the first colleague, and `get_all` gives both colleagues in document order |
| JsonFindings.SpuriousIdFromProperty | microdata.py:237-238 | an item with no `itemid` but a link property named `itemid` gets that link as its `id` as written, and no `id` when corrected |
| JsonFindings.TypePropertyRaises | microdata.py:235-236 | an item with no `itemtype` but a text property named `itemtype` makes the header as written raise, and has no `type` when corrected |

## Left out

- Parsing HTML into a tree (`get_items`, microdata.py:156-171 and 268-272, html5lib_microdata.py:38-42): the model starts from the parsed tree. Parsers are foreign code.
- The lxml tree adapter (microdata.py:40-59): only the DOM adapter is modelled. Both adapters expose the same five operations.
- `is_element`, `childNodes` and `tagName` of the DOM adapter (microdata.py:67-68, 78-79, 81-82): these are the `Element?` test, `Dom.ChildNodes` and the `tagName` field. They compute nothing worth a contract.
- Tag-name case and namespaces: tag names are compared as given, the way the Python dict lookup does.
- `Item.json` (microdata.py:223-227): JSON text formatting is left out. It prints `json_dict` as written, whose header is `MicrodataItems.TypeKeyAsWritten` and `MicrodataItems.IdKeyAsWritten` and whose properties are those of `MicrodataItems.SerializeEntries` at the top level only; `MicrodataItems.JsonDict` is the corrected form.
- The older `Item.__repr__` (html5lib_microdata.py:33-35): printing only. It dumps the raw `itemtype` string and the older item's string-valued properties, and is not modelled.
- `URI.__repr__` (microdata.py:264-265): printing only.
- `URI.__eq__` (microdata.py:259-262): this is the structural equality of the `URI` datatype, and a URI never equals a value of another kind.
- `__getattr__` (microdata.py:193-194, html5lib_microdata.py:12-13): attribute-style access is `Get`. Its one effect on behaviour, inside `json_dict`, is modelled by `TypeKeyAsWritten` and `IdKeyAsWritten`.
- The command-line entry point (microdata.py:275-294) and setup.py: I/O and packaging.
- The contents of example.html, which test.py reads: that file is not part of this model, so its markup is unknown. `SampleDocuments` is a small document of our own on which the three assertions of test.py:13-21 hold.
- Key order of the property dict: the model keeps names in first-`set` order, which is the order of a Python 3.7+ dict. The older file uses `dict.has_key` (html5lib_microdata.py:16, 28), which exists only in Python 2, and the current file also supports Python 2 (microdata.py:164); there the order of keys is arbitrary. Only the order of keys in the JSON output depends on this; the values under each name keep their order.
- Python's recursion limit on deep documents, and object identity of items: the model is a pure function of the tree.
- Microdata.FindItems: its own contract only says that a scope comes first. The full list it returns is stated by `MicrodataTheorems.FindItemsTopLevel`.
- Microdata.Extract: its own contract does not say which properties are set, nor which unlinked elements it returns. These are stated by `MicrodataTheorems.ExtractProperties`, `ExtractGetAll` and `ExtractUnlinked`.
- MicrodataItems.Serialize: it is the corrected recursion. A nested item becomes `MicrodataItems.JsonDict` of that item, whereas microdata.py:245 calls the as-written `json_dict` on it, so the header fallback of the findings below recurs inside every nested item; such an item can make the outer `json_dict` raise (for example `<div itemscope><div itemprop="address" itemscope><span itemprop="itemtype">Person</span></div></div>`). The as-written header is modelled for one item at a time only.
- Microdata.ExtractChild: its own contract says a plain property child's value comes before its descendants' values, and that a wrapper child is looked through, but not what the descendants of a wrapper or plain property child add or pass up. That is stated by `MicrodataTheorems.PropertyChild`, `ExtractChildProperties` and `ExtractChildUnlinked`.
- Microdata.Scope: its own contract does not say which properties the scope's item gets, nor which unlinked elements it returns. These are stated by `MicrodataTheorems.ScopeGetAll`, `ExtractProperties` and `ExtractUnlinked`.
- Html5libMicrodata.FillChild: its own contract does not say which values a child that is not a property collects from its subtree. That is stated by `Html5libMicrodata.FillChildProperties`.
- Html5libMicrodata.Fill: its own contract only says the type is kept. The properties are stated by `Html5libMicrodata.FillProperties`.

## Findings

| source | as written | input that shows it | evidently intended | confidence | as-written member | corrected member |
|---|---|---|---|---|---|---|
| microdata.py:237-238 | On an item without an `itemid` attribute, `self.itemid` falls back through `__getattr__` to `self.get("itemid")`, so a property named `itemid` becomes the item's `id`. Line 245 calls the same `json_dict` on every nested item, so the fallback recurs at every depth | `<div itemscope><a itemprop="itemid" href="http://example.com/x"></a></div>` gives `id` = `http://example.com/x` | `id` only when the element has a non-empty `itemid` attribute | not executed; high | JsonFindings.SpuriousIdFromProperty | MicrodataItems.JsonDict |
| microdata.py:235-236 | On an item without an `itemtype` attribute, `self.itemtype` falls back to `self.get("itemtype")`, and a string found there is iterated as if it were a list of URIs. Line 245 calls the same `json_dict` on every nested item, so a nested item like this makes the outer call raise too | `<div itemscope><span itemprop="itemtype">Person</span></div>` raises `AttributeError` in `json_dict` | no `type` key when the element has no `itemtype` attribute | not executed; high | JsonFindings.TypePropertyRaises | MicrodataItems.JsonDict |
