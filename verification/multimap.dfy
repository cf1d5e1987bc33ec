/** The property store both Item classes keep in `self.props`: a dict from
    property name to the list of its values, in insertion order. It is held
    as an association list so that the order of names is explicit. */
module MultiMap {
  import opened Wrappers

  /** One key of the dict together with its list of values. */
  datatype Entry<V> = Entry(name: string, values: seq<V>)

  /** The keys, in the order they were first set. */
  function Names<V>(ps: seq<Entry<V>>): (ns: seq<string>)
    ensures |ns| == |ps|
  {
    if ps == [] then [] else [ps[0].name] + Names(ps[1..])
  }

  /** No name is repeated. */
  predicate Distinct(ns: seq<string>)
  {
    forall i, j :: 0 <= i < j < |ns| ==> ns[i] != ns[j]
  }

  /** Every name has at least one value. */
  predicate NoEmptyLists<V>(ps: seq<Entry<V>>)
  {
    forall i :: 0 <= i < |ps| ==> ps[i].values != []
  }

  /** What a Python dict of lists built only by `set` looks like: each name
      once, and no name with an empty list. */
  predicate WellFormed<V>(ps: seq<Entry<V>>)
  {
    Distinct(Names(ps)) && NoEmptyLists(ps)
  }

  /** `get_all(name)`: every value set under `name`, or `[]`. */
  function GetAll<V>(ps: seq<Entry<V>>, name: string): (r: seq<V>)
    ensures name !in Names(ps) ==> r == []
    ensures NoEmptyLists(ps) ==> (r == [] <==> name !in Names(ps))
  {
    if ps == [] then []
    else if ps[0].name == name then ps[0].values
    else GetAll(ps[1..], name)
  }

  /** `get(name)`: the first value set under `name`, or `None`. */
  function Get<V>(ps: seq<Entry<V>>, name: string): (r: Option<V>)
    ensures r.None? <==> GetAll(ps, name) == []
    ensures r.Some? ==> r.value == GetAll(ps, name)[0]
  {
    var values := GetAll(ps, name);
    if |values| > 0 then Some(values[0]) else None
  }

  /** `set(name, value)`: appends `value` to the list of `name`, creating the
      key at the end of the dict when it is new. */
  function Set<V>(ps: seq<Entry<V>>, name: string, value: V): (r: seq<Entry<V>>)
    ensures GetAll(r, name) == GetAll(ps, name) + [value]
    ensures forall n :: n != name ==> GetAll(r, n) == GetAll(ps, n)
    ensures Names(r) == if name in Names(ps) then Names(ps) else Names(ps) + [name]
  {
    if ps == [] then [Entry(name, [value])]
    else if ps[0].name == name then
      var r := [Entry(name, ps[0].values + [value])] + ps[1..];
      assert r[1..] == ps[1..];
      r
    else
      var rest := Set(ps[1..], name, value);
      var r := [ps[0]] + rest;
      assert r[0] == ps[0] && r[1..] == rest;
      r
  }

  /** `set` keeps the dict shape: a new name is added once, with one value. */
  lemma {:induction false} SetWellFormed<V>(ps: seq<Entry<V>>, name: string, value: V)
    requires WellFormed(ps)
    ensures WellFormed(Set(ps, name, value))
  {
    var r := Set(ps, name, value);
    SetKeepsLists(ps, name, value);
    if name !in Names(ps) {
      assert Names(r) == Names(ps) + [name];
    }
  }

  lemma {:induction false} SetKeepsLists<V>(ps: seq<Entry<V>>, name: string, value: V)
    requires NoEmptyLists(ps)
    ensures NoEmptyLists(Set(ps, name, value))
  {
    if ps != [] && ps[0].name != name {
      SetKeepsLists(ps[1..], name, value);
      assert Set(ps, name, value) == [ps[0]] + Set(ps[1..], name, value);
    }
  }

  /** The dict after a sequence of `set` calls, in order. */
  function Replay<V>(ps: seq<Entry<V>>, log: seq<(string, V)>): seq<Entry<V>>
    decreases |log|
  {
    if log == [] then ps else Replay(Set(ps, log[0].0, log[0].1), log[1..])
  }

  /** The values a log sets under `name`, in order. */
  function Logged<V>(log: seq<(string, V)>, name: string): seq<V>
  {
    if log == [] then []
    else (if log[0].0 == name then [log[0].1] else []) + Logged(log[1..], name)
  }

  /** The multimap is a faithful log: after any sequence of `set` calls,
      `get_all(name)` is the old list followed by exactly the values set
      under `name`, in the order they were set. */
  lemma {:induction false} ReplayGetAll<V>(ps: seq<Entry<V>>, log: seq<(string, V)>, name: string)
    ensures GetAll(Replay(ps, log), name) == GetAll(ps, name) + Logged(log, name)
    decreases |log|
  {
    if log != [] {
      ReplayGetAll(Set(ps, log[0].0, log[0].1), log[1..], name);
    }
  }

  /** Any sequence of `set` calls keeps the dict shape. */
  lemma {:induction false} ReplayWellFormed<V>(ps: seq<Entry<V>>, log: seq<(string, V)>)
    requires WellFormed(ps)
    ensures WellFormed(Replay(ps, log))
    decreases |log|
  {
    if log != [] {
      SetWellFormed(ps, log[0].0, log[0].1);
      ReplayWellFormed(Set(ps, log[0].0, log[0].1), log[1..]);
    }
  }

  /** Replaying two logs one after the other is replaying their concatenation. */
  lemma {:induction false} ReplayAppend<V>(ps: seq<Entry<V>>, a: seq<(string, V)>, b: seq<(string, V)>)
    ensures Replay(ps, a + b) == Replay(Replay(ps, a), b)
    decreases |a|
  {
    if a == [] {
      assert a + b == b;
    } else {
      assert (a + b)[0] == a[0] && (a + b)[1..] == a[1..] + b;
      var next := Set(ps, a[0].0, a[0].1);
      assert Replay(ps, a + b) == Replay(next, a[1..] + b);
      ReplayAppend(next, a[1..], b);
    }
  }

  /** `set` never changes the first value of a name: `get(name)` after
      setting is the earlier first value, or the new value if there was none. */
  lemma GetAfterSet<V>(ps: seq<Entry<V>>, name: string, value: V)
    ensures Get(Set(ps, name, value), name) == if Get(ps, name).None? then Some(value) else Get(ps, name)
  {
  }
}
