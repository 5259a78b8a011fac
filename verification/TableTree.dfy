/**
  Table definitions of the TOML parser (util/toml.hpp): headers, key-value pairs and inline
  tables, over nodes with identities. The grammar has already been read: a statement carries
  its keys and its value.
 */
module TableTree {
  import opened Wrappers

  type Key = string
  type Id = nat

  datatype Keys = Keys(parents: seq<Key>, last: Key)
  datatype Value = Scalar(text: string) | Array(elements: seq<Value>) | Inline(pairs: seq<Pair>)
  datatype Pair = Pair(keys: Keys, value: Value)
  datatype Statement = Header(keys: Keys, isArray: bool) | KeyValue(pair: Pair)

  datatype Node = Leaf(text: string) | List(elements: seq<Id>) | Table(children: map<Key, Id>, inline: bool)

  const EMPTY_TABLE := Table(map[], false)
  const ROOT: Id := 0

  /** A node's identity is its place in order of creation. */
  datatype Doc = Doc(nodes: seq<Node>, implicit: seq<Id>, dotted: seq<Id>, tableArrays: seq<Id>, open: seq<Id>)

  predicate IsTable(d: Doc, t: Id) { t < |d.nodes| && d.nodes[t].Table? }

  predicate IsPlainTable(d: Doc, t: Id) { IsTable(d, t) && !d.nodes[t].inline }

  predicate IsArrayOfTables(d: Doc, a: Id) {
    a < |d.nodes| && d.nodes[a].List? && d.nodes[a].elements != []
    && forall i :: 0 <= i < |d.nodes[a].elements| ==> IsTable(d, d.nodes[a].elements[i])
  }

  ghost predicate Kid(n: Node, c: Id) {
    match n
    case Leaf(_) => false
    case List(elements) => c in elements
    case Table(children, _) => c in children.Values
  }

  ghost predicate Linked(n: Node, size: nat) { forall c: Id :: Kid(n, c) ==> c < size }

  ghost predicate Valid(d: Doc) {
    IsPlainTable(d, ROOT)
    && (forall i: Id :: i < |d.nodes| ==> Linked(d.nodes[i], |d.nodes|))
    && (forall i <- d.implicit :: IsPlainTable(d, i))
    && (forall i <- d.dotted :: IsPlainTable(d, i))
    && (forall a <- d.tableArrays :: ListsTables(d, a))
    && Distinct(d.implicit)
  }

  predicate Distinct(s: seq<Id>) { forall i, j :: 0 <= i < j < |s| ==> s[i] != s[j] }

  /** An array made by a header: not empty, and of tables that are not inline. */
  ghost predicate ListsTables(d: Doc, a: Id) {
    a < |d.nodes| && d.nodes[a].List? && d.nodes[a].elements != []
    && forall c: Id :: Kid(d.nodes[a], c) ==> IsPlainTable(d, c)
  }

  // ---------------------------------------------------------------------------------------
  // Growth
  // ---------------------------------------------------------------------------------------

  /** A node with more children, or the same node. */
  ghost predicate Wider(a: Node, b: Node) {
    match a
    case Leaf(_) => a == b
    case List(elements) => b.List? && elements <= b.elements
    case Table(children, inline) =>
      b.Table? && b.inline == inline && forall k <- children :: k in b.children && b.children[k] == children[k]
  }

  /** Nothing is removed or overwritten. */
  ghost predicate Grows(d: Doc, r: Doc) {
    |d.nodes| <= |r.nodes| && forall i: Id :: i < |d.nodes| ==> Wider(d.nodes[i], r.nodes[i])
  }

  /** The nodes from s on refer to one another only. */
  ghost predicate Apart(d: Doc, s: Id) {
    forall i: Id, c: Id :: s <= i < |d.nodes| && Kid(d.nodes[i], c) ==> s <= c
  }

  /** A node that no later statement may enter: a scalar, an array written as a value, an inline table. */
  ghost predicate Settled(d: Doc, c: Id) {
    c < |d.nodes|
    && match d.nodes[c]
       case Leaf(_) => true
       case List(_) => c !in d.tableArrays
       case Table(_, inline) => inline
  }

  /** A set of nodes whose children are in it, and that can only be entered through a settled node. */
  ghost predicate Sealed(d: Doc, s: set<Id>) {
    (forall i: Id :: i in s ==> i < |d.nodes|)
    && (forall i: Id, c: Id :: i in s && Kid(d.nodes[i], c) ==> c in s)
    && (forall i: Id, c: Id :: i < |d.nodes| && i !in s && Kid(d.nodes[i], c) && c in s ==> Settled(d, c))
  }

  ghost predicate Same(d: Doc, r: Doc, s: set<Id>) {
    forall i: Id :: i in s ==> i < |d.nodes| && i < |r.nodes| && r.nodes[i] == d.nodes[i]
  }

  /** The nodes from one identity up to, and without, another. */
  function Span(lo: Id, hi: Id): (s: set<Id>)
    ensures forall i: Id :: i in s <==> lo <= i < hi
  {
    if hi <= lo then {} else Span(lo, hi - 1) + {hi - 1}
  }

  // ---------------------------------------------------------------------------------------
  // Steps on one node
  // ---------------------------------------------------------------------------------------

  function Create(d: Doc, n: Node): (r: Doc)
    requires Valid(d) && forall c: Id :: !Kid(n, c)
    ensures Valid(r) && Grows(d, r)
  {
    var r := d.(nodes := d.nodes + [n]);
    assert forall i: Id :: i < |d.nodes| ==> r.nodes[i] == d.nodes[i] && Linked(d.nodes[i], |d.nodes|);
    assert forall a <- d.tableArrays :: ListsTables(d, a) && r.nodes[a] == d.nodes[a];
    r
  }

  function Attach(d: Doc, t: Id, key: Key, c: Id): (r: Doc)
    requires Valid(d) && IsTable(d, t) && key !in d.nodes[t].children && c < |d.nodes|
    ensures Valid(r) && Grows(d, r)
  {
    var n := Table(d.nodes[t].children[key := c], d.nodes[t].inline);
    var r := d.(nodes := d.nodes[t := n]);
    assert forall k: Id :: Kid(n, k) ==> k == c || Kid(d.nodes[t], k);
    assert Linked(d.nodes[t], |d.nodes|);
    assert forall a <- d.tableArrays :: ListsTables(d, a) && r.nodes[a] == d.nodes[a];
    r
  }

  /** Insertion into a map leaves a key that is there alone. */
  function Emplace(d: Doc, t: Id, key: Key, c: Id): (r: Doc)
    requires Valid(d) && IsTable(d, t) && c < |d.nodes|
    ensures Valid(r) && Grows(d, r)
  {
    if key in d.nodes[t].children then d else Attach(d, t, key, c)
  }

  function Append(d: Doc, a: Id, c: Id): (r: Doc)
    requires Valid(d) && a < |d.nodes| && d.nodes[a].List? && c < |d.nodes|
    requires a in d.tableArrays ==> IsPlainTable(d, c)
    ensures Valid(r) && Grows(d, r)
  {
    var n := List(d.nodes[a].elements + [c]);
    var r := d.(nodes := d.nodes[a := n]);
    assert forall k: Id :: Kid(n, k) ==> k == c || Kid(d.nodes[a], k);
    assert Linked(d.nodes[a], |d.nodes|);
    assert forall b <- d.tableArrays :: ListsTables(d, b) && (b != a ==> r.nodes[b] == d.nodes[b]);
    r
  }

  /** A new, empty table under a key. */
  function Spawn(d: Doc, t: Id, key: Key): (r: Doc)
    requires Valid(d) && IsTable(d, t) && key !in d.nodes[t].children
    ensures Valid(r) && Grows(d, r) && |r.nodes| == |d.nodes| + 1 && r.nodes[|d.nodes|] == EMPTY_TABLE
  {
    Attach(Create(d, EMPTY_TABLE), t, key, |d.nodes|)
  }

  // ---------------------------------------------------------------------------------------
  // Headers
  // ---------------------------------------------------------------------------------------

  datatype Place = Place(doc: Doc, table: Id)

  function LastOf(d: Doc, a: Id): Id
    requires a < |d.nodes| && d.nodes[a].List? && d.nodes[a].elements != []
  {
    var e := d.nodes[a].elements;
    e[|e| - 1]
  }

  /** From a table through existing tables and the last elements of table arrays, making implicit tables where none
      is. */
  function Walk(d: Doc, t: Id, parents: seq<Key>): (r: Option<Place>)
    requires Valid(d) && IsTable(d, t)
    ensures r.Some? ==> Valid(r.value.doc) && Grows(d, r.value.doc) && IsTable(r.value.doc, r.value.table)
    decreases |parents|
  {
    if parents == [] then Some(Place(d, t))
    else if parents[0] in d.nodes[t].children then
      var c := d.nodes[t].children[parents[0]];
      assert Kid(d.nodes[t], c);
      if d.nodes[c].Table? then
        if d.nodes[c].inline && c !in d.open then None else Walk(d, c, parents[1..])
      else if d.nodes[c].List? && c in d.tableArrays then
        assert Kid(d.nodes[c], LastOf(d, c));
        Walk(d, LastOf(d, c), parents[1..])
      else None
    else
      var r := Spawn(d, t, parents[0]);
      Walk(Implied(r, |d.nodes|), |d.nodes|, parents[1..])
  }

  function Implied(d: Doc, t: Id): (r: Doc)
    requires Valid(d) && IsPlainTable(d, t) && t !in d.implicit
    ensures Valid(r)
  {
    d.(implicit := d.implicit + [t])
  }

  function Without(s: seq<Id>, x: Id): seq<Id> {
    if s == [] then [] else if s[0] == x then s[1..] else [s[0]] + Without(s[1..], x)
  }

  /** The children of an implicit table that may still get a header of its own. */
  predicate OnlyTables(d: Doc, t: Id)
    requires Valid(d) && IsTable(d, t)
  {
    forall k <- d.nodes[t].children :: IsTable(d, d.nodes[t].children[k]) || IsArrayOfTables(d, d.nodes[t].children[k])
  }

  /** A header's table, and the document with it. */
  function Define(d: Doc, keys: Keys, isArray: bool): (r: Option<Place>)
    requires Valid(d)
    ensures r.Some? ==> Valid(r.value.doc) && Grows(d, r.value.doc) && IsTable(r.value.doc, r.value.table)
  {
    match Walk(d, ROOT, keys.parents)
    case None => None
    case Some(p) =>
      var r := DefineIn(p.doc, p.table, keys.last, isArray);
      if r.Some? then GrowsOn(d, p.doc, r.value.doc); r else r
  }

  lemma GrowsOn(d: Doc, r: Doc, q: Doc)
    requires Grows(d, r) && Grows(r, q)
    ensures Grows(d, q)
  {
  }

  function DefineIn(d: Doc, t: Id, key: Key, isArray: bool): (r: Option<Place>)
    requires Valid(d) && IsTable(d, t)
    ensures r.Some? ==> Valid(r.value.doc) && Grows(d, r.value.doc) && IsTable(r.value.doc, r.value.table)
  {
    if key in d.nodes[t].children then Redefine(d, t, key, isArray)
    else if isArray then Some(FirstElement(d, t, key))
    else Some(Place(Spawn(d, t, key), |d.nodes|))
  }

  /** The one way to define what is there: another element, or the header of an implicit table. */
  function Redefine(d: Doc, t: Id, key: Key, isArray: bool): (r: Option<Place>)
    requires Valid(d) && IsTable(d, t) && key in d.nodes[t].children
    ensures r.Some? ==> Valid(r.value.doc) && Grows(d, r.value.doc) && IsTable(r.value.doc, r.value.table)
  {
    var c := d.nodes[t].children[key];
    assert Kid(d.nodes[t], c);
    if isArray && d.nodes[c].List? && c in d.tableArrays then
      Some(Place(Append(Create(d, EMPTY_TABLE), c, |d.nodes|), |d.nodes|))
    else if !isArray && d.nodes[c].Table? && c in d.implicit && OnlyTables(d, c) then
      Some(Place(Promoted(d, c), c))
    else None
  }

  function Promoted(d: Doc, c: Id): (r: Doc)
    requires Valid(d) && c in d.implicit
    ensures Valid(r) && r.nodes == d.nodes
  {
    RemovesOnce(d.implicit, c);
    d.(implicit := Without(d.implicit, c))
  }

  lemma {:induction false} RemovesOnce(s: seq<Id>, x: Id)
    requires Distinct(s)
    ensures Distinct(Without(s, x))
    ensures forall y :: y in Without(s, x) <==> y in s && y != x
  {
    if s != [] {
      var tail := s[1..];
      assert s == [s[0]] + tail && s[0] !in tail;
      RemovesOnce(tail, x);
      if s[0] != x {
        assert s[0] !in Without(tail, x);
      }
    }
  }

  function FirstElement(d: Doc, t: Id, key: Key): (r: Place)
    requires Valid(d) && IsTable(d, t) && key !in d.nodes[t].children
    ensures Valid(r.doc) && Grows(d, r.doc) && IsTable(r.doc, r.table)
  {
    FirstOf(NewList(d, t, key), |d.nodes|)
  }

  function NewList(d: Doc, t: Id, key: Key): (r: Doc)
    requires Valid(d) && IsTable(d, t) && key !in d.nodes[t].children
    ensures Valid(r) && Grows(d, r) && |r.nodes| == |d.nodes| + 1 && r.nodes[|d.nodes|] == List([])
    ensures |d.nodes| !in r.tableArrays
  {
    assert forall b <- d.tableArrays :: ListsTables(d, b);
    Attach(Create(d, List([])), t, key, |d.nodes|)
  }

  function FirstOf(d: Doc, a: Id): (r: Place)
    requires Valid(d) && a < |d.nodes| && d.nodes[a] == List([]) && a !in d.tableArrays
    ensures Valid(r.doc) && Grows(d, r.doc) && IsTable(r.doc, r.table)
  {
    Place(Arrayed(Append(Create(d, EMPTY_TABLE), a, |d.nodes|), a), |d.nodes|)
  }

  function Arrayed(d: Doc, a: Id): (r: Doc)
    requires Valid(d) && ListsTables(d, a)
    ensures Valid(r) && r.nodes == d.nodes
  {
    d.(tableArrays := d.tableArrays + [a])
  }

  // ---------------------------------------------------------------------------------------
  // Key-value pairs and values
  // ---------------------------------------------------------------------------------------

  /** From a table through dotted and implicit tables, making dotted ones where none is. */
  function Enter(d: Doc, t: Id, parents: seq<Key>): (r: Option<Place>)
    requires Valid(d) && IsTable(d, t)
    ensures r.Some? ==> Valid(r.value.doc) && Grows(d, r.value.doc) && IsTable(r.value.doc, r.value.table)
    ensures r.Some? ==> r.value.doc.tableArrays == d.tableArrays && d.dotted <= r.value.doc.dotted
    decreases |parents|
  {
    if parents == [] then Some(Place(d, t))
    else if parents[0] in d.nodes[t].children then
      var c := d.nodes[t].children[parents[0]];
      assert Kid(d.nodes[t], c);
      if d.nodes[c].Table? && (c in d.dotted || c in d.implicit) then Enter(d, c, parents[1..]) else None
    else
      var r := Spawn(d, t, parents[0]);
      Enter(Dotted(r, |d.nodes|), |d.nodes|, parents[1..])
  }

  function Dotted(d: Doc, t: Id): (r: Doc)
    requires Valid(d) && IsPlainTable(d, t)
    ensures Valid(r)
  {
    d.(dotted := d.dotted + [t])
  }

  /** A pair in a table that is inside so many values. */
  function Insert(d: Doc, t: Id, pair: Pair, depth: nat): (r: Option<Doc>)
    requires Valid(d) && IsTable(d, t)
    ensures r.Some? ==> Valid(r.value) && Grows(d, r.value)
    ensures r.Some? ==> r.value.tableArrays == d.tableArrays && d.dotted <= r.value.dotted
    decreases pair, 1
  {
    match Enter(d, t, pair.keys.parents)
    case None => None
    case Some(p) =>
      if pair.keys.last in p.doc.nodes[p.table].children then None
      else
        match Build(p.doc, pair.value, depth)
        case None => None
        case Some(r) =>
          GrowsOn(d, p.doc, r);
          GrowsOn(d, r, Emplace(r, p.table, pair.keys.last, |p.doc.nodes|));
          Some(Emplace(r, p.table, pair.keys.last, |p.doc.nodes|))
  }

  const MAX_NESTED_VALUES := 256

  /** The nodes of a value that is inside so many others; the first of them is the value's own. Values nested too deep
      are an error. */
  function Build(d: Doc, v: Value, depth: nat): (r: Option<Doc>)
    requires Valid(d)
    ensures r.Some? ==> Valid(r.value) && Grows(d, r.value)
    ensures r.Some? ==> r.value.tableArrays == d.tableArrays && d.dotted <= r.value.dotted
    ensures r.Some? ==> |d.nodes| < |r.value.nodes|
    decreases v, 0
  {
    if depth + 1 > MAX_NESTED_VALUES then None
    else
      match v
      case Scalar(text) => Some(Create(d, Leaf(text)))
      case Array(elements) => BuildAll(Create(d, List([])), |d.nodes|, elements, depth + 1)
      case Inline(pairs) =>
        match InsertAll(Opened(Create(d, Table(map[], true)), |d.nodes|), |d.nodes|, pairs, depth + 1)
        case None => None
        case Some(r) => Some(r.(open := if r.open == [] then [] else r.open[..|r.open| - 1]))
  }

  function Opened(d: Doc, t: Id): (r: Doc)
    requires Valid(d)
    ensures Valid(r)
  {
    d.(open := d.open + [t])
  }

  function BuildAll(d: Doc, a: Id, elements: seq<Value>, depth: nat): (r: Option<Doc>)
    requires Valid(d) && a < |d.nodes| && d.nodes[a].List? && a !in d.tableArrays
    ensures r.Some? ==> Valid(r.value) && Grows(d, r.value)
    ensures r.Some? ==> r.value.tableArrays == d.tableArrays && d.dotted <= r.value.dotted
    decreases elements, 0
  {
    if elements == [] then Some(d)
    else
      match Build(d, elements[0], depth)
      case None => None
      case Some(r) =>
        GrowsOn(d, r, Append(r, a, |d.nodes|));
        BuildAll(Append(r, a, |d.nodes|), a, elements[1..], depth)
  }

  function InsertAll(d: Doc, t: Id, pairs: seq<Pair>, depth: nat): (r: Option<Doc>)
    requires Valid(d) && IsTable(d, t)
    ensures r.Some? ==> Valid(r.value) && Grows(d, r.value)
    ensures r.Some? ==> r.value.tableArrays == d.tableArrays && d.dotted <= r.value.dotted
    decreases pairs, 0
  {
    if pairs == [] then Some(d)
    else
      match Insert(d, t, pairs[0], depth)
      case None => None
      case Some(r) =>
        var q := InsertAll(r, t, pairs[1..], depth);
        if q.Some? then GrowsOn(d, r, q.value); q else q
  }

  // ---------------------------------------------------------------------------------------
  // Reading back
  // ---------------------------------------------------------------------------------------

  function Path(keys: Keys): seq<Key> { keys.parents + [keys.last] }

  /** Where keys lead through tables. */
  function Lookup(d: Doc, t: Id, keys: seq<Key>): Option<Id>
    decreases |keys|
  {
    if keys == [] then Some(t)
    else if IsTable(d, t) && keys[0] in d.nodes[t].children then Lookup(d, d.nodes[t].children[keys[0]], keys[1..])
    else None
  }

  /** A node stands for a value. */
  ghost predicate Denotes(d: Doc, id: Id, v: Value)
    decreases v
  {
    id < |d.nodes|
    && match v
       case Scalar(text) => d.nodes[id] == Leaf(text)
       case Array(elements) =>
         d.nodes[id].List? && |d.nodes[id].elements| == |elements|
         && forall i :: 0 <= i < |elements| ==> Denotes(d, d.nodes[id].elements[i], elements[i])
       case Inline(pairs) =>
         d.nodes[id].Table? && d.nodes[id].inline && forall i :: 0 <= i < |pairs| ==> Holds(d, id, pairs[i])
  }

  /** Below a table, a pair's keys lead to its value. */
  ghost predicate Holds(d: Doc, t: Id, pair: Pair)
    decreases pair
  {
    var x := Lookup(d, t, Path(pair.keys));
    x.Some? && Denotes(d, x.value, pair.value)
  }

  lemma {:induction false} LookupGrows(d: Doc, r: Doc, t: Id, keys: seq<Key>)
    requires Grows(d, r) && Lookup(d, t, keys).Some?
    ensures Lookup(r, t, keys) == Lookup(d, t, keys)
    decreases |keys|
  {
    if keys != [] {
      assert Wider(d.nodes[t], r.nodes[t]);
      LookupGrows(d, r, d.nodes[t].children[keys[0]], keys[1..]);
    }
  }

  lemma {:induction false} LookupAppend(d: Doc, t: Id, keys: seq<Key>, last: Key)
    requires Lookup(d, t, keys).Some?
    requires var p := Lookup(d, t, keys).value; IsTable(d, p) && last in d.nodes[p].children
    ensures Lookup(d, t, keys + [last]) == Some(d.nodes[Lookup(d, t, keys).value].children[last])
    decreases |keys|
  {
    if keys != [] {
      assert (keys + [last])[1..] == keys[1..] + [last];
      LookupAppend(d, d.nodes[t].children[keys[0]], keys[1..], last);
    }
  }

  lemma {:induction false} LookupInside(d: Doc, r: Doc, t: Id, keys: seq<Key>, s: set<Id>)
    requires Sealed(d, s) && Same(d, r, s) && t in s && Lookup(d, t, keys).Some?
    ensures Lookup(r, t, keys) == Lookup(d, t, keys) && Lookup(d, t, keys).value in s
    decreases |keys|
  {
    if keys != [] {
      assert Kid(d.nodes[t], d.nodes[t].children[keys[0]]);
      LookupInside(d, r, d.nodes[t].children[keys[0]], keys[1..], s);
    }
  }

  /** What a sealed node stands for does not change. */
  lemma {:induction false} DenotesStays(d: Doc, r: Doc, id: Id, v: Value, s: set<Id>)
    requires Sealed(d, s) && Same(d, r, s) && id in s && Denotes(d, id, v)
    ensures Denotes(r, id, v)
    decreases v
  {
    match v
    case Scalar(_) =>
    case Array(elements) =>
      forall i | 0 <= i < |elements|
        ensures Denotes(r, r.nodes[id].elements[i], elements[i])
      {
        assert Kid(d.nodes[id], d.nodes[id].elements[i]);
        DenotesStays(d, r, d.nodes[id].elements[i], elements[i], s);
      }
    case Inline(pairs) =>
      forall i | 0 <= i < |pairs|
        ensures Holds(r, id, pairs[i])
      {
        assert Holds(d, id, pairs[i]);
        LookupInside(d, r, id, Path(pairs[i].keys), s);
        DenotesStays(d, r, Lookup(d, id, Path(pairs[i].keys)).value, pairs[i].value, s);
      }
  }

  // ---------------------------------------------------------------------------------------
  // What stays sealed
  // ---------------------------------------------------------------------------------------

  lemma CreateSealed(d: Doc, n: Node, s: set<Id>, from: Id)
    requires Valid(d) && Sealed(d, s) && Apart(d, from) && forall c: Id :: !Kid(n, c)
    ensures var r := Create(d, n); Sealed(r, s) && Same(d, r, s) && Apart(r, from)
  {
    var r := Create(d, n);
    assert forall i: Id :: i < |d.nodes| ==> r.nodes[i] == d.nodes[i];
  }

  lemma AttachSealed(d: Doc, t: Id, key: Key, c: Id, s: set<Id>, from: Id)
    requires Valid(d) && IsTable(d, t) && key !in d.nodes[t].children && c < |d.nodes|
    requires Sealed(d, s) && t !in s && (c in s ==> Settled(d, c)) && Apart(d, from) && from <= c
    ensures var r := Attach(d, t, key, c); Sealed(r, s) && Same(d, r, s) && Apart(r, from)
  {
    var r := Attach(d, t, key, c);
    assert forall k: Id :: Kid(r.nodes[t], k) ==> k == c || Kid(d.nodes[t], k);
    assert forall i: Id :: i < |d.nodes| && i != t ==> r.nodes[i] == d.nodes[i];
  }

  lemma AppendSealed(d: Doc, a: Id, c: Id, s: set<Id>, from: Id)
    requires Valid(d) && a < |d.nodes| && d.nodes[a].List? && c < |d.nodes|
    requires a in d.tableArrays ==> IsPlainTable(d, c)
    requires Sealed(d, s) && a !in s && (c in s ==> Settled(d, c)) && Apart(d, from) && from <= c
    ensures var r := Append(d, a, c); Sealed(r, s) && Same(d, r, s) && Apart(r, from)
  {
    var r := Append(d, a, c);
    assert forall k: Id :: Kid(r.nodes[a], k) ==> k == c || Kid(d.nodes[a], k);
    assert forall i: Id :: i < |d.nodes| && i != a ==> r.nodes[i] == d.nodes[i];
  }

  lemma SpawnSealed(d: Doc, t: Id, key: Key, s: set<Id>, from: Id)
    requires Valid(d) && IsTable(d, t) && key !in d.nodes[t].children
    requires Sealed(d, s) && t !in s && Apart(d, from) && from <= t
    ensures var r := Spawn(d, t, key); Sealed(r, s) && Same(d, r, s) && Apart(r, from) && |d.nodes| !in s
  {
    CreateSealed(d, EMPTY_TABLE, s, from);
    AttachSealed(Create(d, EMPTY_TABLE), t, key, |d.nodes|, s, from);
  }

  /** Entering dotted tables leaves sealed nodes alone and never goes into one. */
  lemma {:induction false} EnterSealed(d: Doc, t: Id, parents: seq<Key>, s: set<Id>, from: Id)
    requires Valid(d) && IsTable(d, t) && Enter(d, t, parents).Some?
    requires Sealed(d, s) && t !in s && Apart(d, from) && from <= t
    ensures var p := Enter(d, t, parents).value;
            Sealed(p.doc, s) && Same(d, p.doc, s) && p.table !in s && Apart(p.doc, from) && from <= p.table
    decreases |parents|
  {
    if parents != [] {
      var key := parents[0];
      if key in d.nodes[t].children {
        var c := d.nodes[t].children[key];
        assert Kid(d.nodes[t], c);
        EnterSealed(d, c, parents[1..], s, from);
      } else {
        SpawnSealed(d, t, key, s, from);
        var r := Spawn(d, t, key);
        DottedSealed(r, |d.nodes|, s, from);
        EnterSealed(Dotted(r, |d.nodes|), |d.nodes|, parents[1..], s, from);
      }
    }
  }

  lemma DottedSealed(d: Doc, t: Id, s: set<Id>, from: Id)
    requires Valid(d) && IsPlainTable(d, t) && Sealed(d, s) && Apart(d, from)
    ensures Sealed(Dotted(d, t), s) && Apart(Dotted(d, t), from)
  {
    assert forall c: Id :: Settled(d, c) ==> Settled(Dotted(d, t), c);
  }

  /** The keys then lead to the table entered. */
  lemma {:induction false} EnterFinds(d: Doc, t: Id, parents: seq<Key>)
    requires Valid(d) && IsTable(d, t) && Enter(d, t, parents).Some?
    ensures var p := Enter(d, t, parents).value; Lookup(p.doc, t, parents) == Some(p.table)
    decreases |parents|
  {
    if parents != [] {
      var key, p := parents[0], Enter(d, t, parents).value;
      if key in d.nodes[t].children {
        var c := d.nodes[t].children[key];
        assert Kid(d.nodes[t], c);
        EnterFinds(d, c, parents[1..]);
        assert Wider(d.nodes[t], p.doc.nodes[t]);
      } else {
        var r := Dotted(Spawn(d, t, key), |d.nodes|);
        EnterFinds(r, |d.nodes|, parents[1..]);
        assert Wider(r.nodes[t], p.doc.nodes[t]);
      }
    }
  }

  /** Only dotted tables are new. */
  lemma {:induction false} EnterAdds(d: Doc, t: Id, parents: seq<Key>)
    requires Valid(d) && IsTable(d, t) && Enter(d, t, parents).Some?
    ensures var r := Enter(d, t, parents).value.doc;
            r.implicit == d.implicit && r.open == d.open
            && forall i: Id :: |d.nodes| <= i < |r.nodes| ==> IsPlainTable(r, i)
    decreases |parents|
  {
    if parents != [] {
      var key, q := parents[0], Enter(d, t, parents).value.doc;
      if key in d.nodes[t].children {
        assert Kid(d.nodes[t], d.nodes[t].children[key]);
        EnterAdds(d, d.nodes[t].children[key], parents[1..]);
      } else {
        var r := Dotted(Spawn(d, t, key), |d.nodes|);
        EnterAdds(r, |d.nodes|, parents[1..]);
        assert Wider(r.nodes[|d.nodes|], q.nodes[|d.nodes|]);
      }
    }
  }

  // ---------------------------------------------------------------------------------------
  // Values
  // ---------------------------------------------------------------------------------------

  /** The nodes made after d refer to one another only, and the older ones are as they were. */
  ghost predicate Beside(d: Doc, r: Doc) {
    |d.nodes| <= |r.nodes| && Apart(r, |d.nodes|) && r.tableArrays == d.tableArrays
    && forall i: Id :: i < |d.nodes| ==> r.nodes[i] == d.nodes[i]
  }

  lemma SealedBeside(d: Doc, r: Doc, s: set<Id>, from: Id)
    requires Valid(d) && Valid(r) && Sealed(d, s) && Beside(d, r) && Apart(d, from) && from <= |d.nodes|
    ensures Sealed(r, s + Span(|d.nodes|, |r.nodes|)) && Same(d, r, s) && Apart(r, from)
  {
    var n := s + Span(|d.nodes|, |r.nodes|);
    forall i: Id, c: Id | i < |r.nodes| && Kid(r.nodes[i], c)
      ensures i in n ==> c in n
      ensures i !in n && c in n ==> Settled(r, c)
      ensures from <= i ==> from <= c
    {
      assert Linked(r.nodes[i], |r.nodes|);
      if i < |d.nodes| {
        assert Linked(d.nodes[i], |d.nodes|);
      }
    }
  }

  /** A new node without children stands beside all others, which together are sealed. */
  lemma FreshSealed(d: Doc, n: Node)
    requires Valid(d) && forall c: Id :: !Kid(n, c)
    ensures var r := Create(d, n); Sealed(r, Span(0, |d.nodes|)) && Apart(r, |d.nodes|)
  {
    var r := Create(d, n);
    forall i: Id, c: Id | i < |r.nodes| && Kid(r.nodes[i], c)
      ensures i < |d.nodes| && c < |d.nodes|
    {
      assert Linked(d.nodes[i], |d.nodes|);
    }
  }

  lemma SameIsBeside(d: Doc, n: Node, r: Doc)
    requires Valid(d) && (forall c: Id :: !Kid(n, c)) && Same(Create(d, n), r, Span(0, |d.nodes|))
    requires Apart(r, |d.nodes|) && |d.nodes| < |r.nodes| && r.tableArrays == d.tableArrays
    ensures Beside(d, r)
  {
    forall i: Id | i < |d.nodes|
      ensures r.nodes[i] == d.nodes[i]
    {
      assert i in Span(0, |d.nodes|);
    }
  }

  /** A value built: its nodes stand beside the others, and it is what was written. */
  ghost predicate Built(d: Doc, v: Value, r: Doc) {
    Beside(d, r) && Settled(r, |d.nodes|) && Denotes(r, |d.nodes|, v) && r.implicit == d.implicit && r.open == d.open
  }

  lemma {:induction false} BuildIs(d: Doc, v: Value, depth: nat)
    requires Valid(d) && Build(d, v, depth).Some?
    ensures Built(d, v, Build(d, v, depth).value)
    decreases v, 0
  {
    match v
    case Scalar(text) => FreshSealed(d, Leaf(text));
    case Array(elements) => ArrayIs(d, elements, depth);
    case Inline(pairs) => InlineIs(d, pairs, depth);
  }

  lemma {:induction false} ArrayIs(d: Doc, elements: seq<Value>, depth: nat)
    requires Valid(d) && Build(d, Array(elements), depth).Some?
    ensures Built(d, Array(elements), Build(d, Array(elements), depth).value)
    decreases elements, 1
  {
    var id, a := |d.nodes|, Create(d, List([]));
    var r := BuildAll(a, id, elements, depth + 1).value;
    FreshSealed(d, List([]));
    assert id !in d.tableArrays by {
      assert forall b <- d.tableArrays :: ListsTables(d, b);
    }
    var n := BuildAllAre(a, id, elements, depth + 1, Span(0, id), id);
    SameIsBeside(d, List([]), r);
  }

  lemma {:induction false} InlineIs(d: Doc, pairs: seq<Pair>, depth: nat)
    requires Valid(d) && Build(d, Inline(pairs), depth).Some?
    ensures Built(d, Inline(pairs), Build(d, Inline(pairs), depth).value)
    decreases pairs, 1
  {
    var id, table := |d.nodes|, Table(map[], true);
    var t := Opened(Create(d, table), id);
    FreshSealed(d, table);
    OpenChangesNoNode(Create(d, table), t, Span(0, id), id);
    var r := InsertAll(t, id, pairs, depth + 1).value;
    var n := InsertAllHold(t, id, pairs, depth + 1, Span(0, id), id);
    assert Wider(t.nodes[id], r.nodes[id]);
    SameIsBeside(d, table, r);
    ClosingKeeps(d, r, Build(d, Inline(pairs), depth).value, Inline(pairs));
  }

  lemma OpenChangesNoNode(d: Doc, r: Doc, s: set<Id>, from: Id)
    requires Sealed(d, s) && Apart(d, from) && r == d.(open := r.open)
    ensures Sealed(r, s) && Apart(r, from)
  {
    assert forall c: Id :: Settled(d, c) ==> Settled(r, c);
  }

  lemma ClosingKeeps(d: Doc, r: Doc, q: Doc, v: Value)
    requires Beside(d, r) && Settled(r, |d.nodes|) && Denotes(r, |d.nodes|, v) && q == r.(open := q.open)
    ensures Beside(d, q) && Settled(q, |d.nodes|) && Denotes(q, |d.nodes|, v)
  {
    DenotesOnNodes(r, q, |d.nodes|, v);
  }

  lemma {:induction false} DenotesOnNodes(d: Doc, r: Doc, id: Id, v: Value)
    requires d.nodes == r.nodes && Denotes(d, id, v)
    ensures Denotes(r, id, v)
    decreases v
  {
    match v
    case Scalar(_) =>
    case Array(elements) =>
      forall i | 0 <= i < |elements|
        ensures Denotes(r, r.nodes[id].elements[i], elements[i])
      {
        DenotesOnNodes(d, r, d.nodes[id].elements[i], elements[i]);
      }
    case Inline(pairs) =>
      forall i | 0 <= i < |pairs|
        ensures Holds(r, id, pairs[i])
      {
        assert Holds(d, id, pairs[i]);
        LookupOnNodes(d, r, id, Path(pairs[i].keys));
        DenotesOnNodes(d, r, Lookup(d, id, Path(pairs[i].keys)).value, pairs[i].value);
      }
  }

  lemma {:induction false} LookupOnNodes(d: Doc, r: Doc, t: Id, keys: seq<Key>)
    requires d.nodes == r.nodes
    ensures Lookup(r, t, keys) == Lookup(d, t, keys)
    decreases |keys|
  {
    if keys != [] && IsTable(d, t) && keys[0] in d.nodes[t].children {
      LookupOnNodes(d, r, d.nodes[t].children[keys[0]], keys[1..]);
    }
  }

  /** The elements of an array from the k-th on stand for these values. */
  ghost predicate DenoteFrom(d: Doc, a: Id, k: nat, elements: seq<Value>) {
    a < |d.nodes| && d.nodes[a].List? && |d.nodes[a].elements| == k + |elements|
    && forall i :: 0 <= i < |elements| ==> Denotes(d, d.nodes[a].elements[k + i], elements[i])
  }

  lemma {:induction false} BuildAllAre(d: Doc, a: Id, elements: seq<Value>, depth: nat, s: set<Id>, from: Id)
    returns (n: set<Id>)
    requires Valid(d) && a < |d.nodes| && d.nodes[a].List? && a !in d.tableArrays
             && BuildAll(d, a, elements, depth).Some?
    requires Sealed(d, s) && a !in s && Apart(d, from) && from <= a
    ensures var r := BuildAll(d, a, elements, depth).value;
            s <= n && Sealed(r, n) && Same(d, r, s) && Apart(r, from) && r.implicit == d.implicit && r.open == d.open
            && DenoteFrom(r, a, |d.nodes[a].elements|, elements)
    decreases elements, 0
  {
    n := s;
    if elements != [] {
      var r, k := BuildAll(d, a, elements, depth).value, |d.nodes[a].elements|;
      var c := Append(Build(d, elements[0], depth).value, a, |d.nodes|);
      n := ElementIs(d, a, elements[0], depth, s, from);
      var n0 := n;
      n := BuildAllAre(c, a, elements[1..], depth, n0, from);
      DenotesStays(c, r, |d.nodes|, elements[0], n0);
      FirstAndRest(c, r, a, k, elements);
    }
  }

  lemma FirstAndRest(c: Doc, r: Doc, a: Id, k: nat, elements: seq<Value>)
    requires Grows(c, r) && elements != [] && a < |c.nodes| && c.nodes[a].List? && |c.nodes[a].elements| == k + 1
    requires Denotes(r, c.nodes[a].elements[k], elements[0]) && DenoteFrom(r, a, k + 1, elements[1..])
    ensures DenoteFrom(r, a, k, elements)
  {
    assert Wider(c.nodes[a], r.nodes[a]);
    forall i | 0 <= i < |elements|
      ensures Denotes(r, r.nodes[a].elements[k + i], elements[i])
    {
      if i > 0 {
        var j := i - 1;
        assert elements[i] == elements[1..][j] && r.nodes[a].elements[k + i] == r.nodes[a].elements[k + 1 + j];
      }
    }
  }

  /** One element built and appended. */
  lemma {:induction false} ElementIs(d: Doc, a: Id, v: Value, depth: nat, s: set<Id>, from: Id) returns (n: set<Id>)
    requires Valid(d) && a < |d.nodes| && d.nodes[a].List? && a !in d.tableArrays && Build(d, v, depth).Some?
    requires Sealed(d, s) && a !in s && Apart(d, from) && from <= a
    ensures var r := Append(Build(d, v, depth).value, a, |d.nodes|);
            s <= n && Sealed(r, n) && a !in n && Same(d, r, s) && Apart(r, from)
            && r.implicit == d.implicit && r.open == d.open && r.tableArrays == d.tableArrays
            && r.nodes[a] == List(d.nodes[a].elements + [|d.nodes|]) && |d.nodes| in n && Denotes(r, |d.nodes|, v)
    decreases v, 1
  {
    var id, b := |d.nodes|, Build(d, v, depth).value;
    BuildIs(d, v, depth);
    SealedBeside(d, b, s, from);
    n := s + Span(id, |b.nodes|);
    AppendSealed(b, a, id, n, from);
    DenotesStays(b, Append(b, a, id), id, v, n);
  }

  lemma {:induction false} InsertHolds(d: Doc, t: Id, pair: Pair, depth: nat, s: set<Id>, from: Id) returns (n: set<Id>)
    requires Valid(d) && IsTable(d, t) && Insert(d, t, pair, depth).Some?
    requires Sealed(d, s) && t !in s && Apart(d, from) && from <= t
    ensures var r := Insert(d, t, pair, depth).value;
            s <= n && Sealed(r, n) && t !in n && Same(d, r, s) && Apart(r, from) && r.implicit == d.implicit
              && r.open == d.open
            && Holds(r, t, pair) && Lookup(r, t, Path(pair.keys)).value in n
            && n == s + Span(|Enter(d, t, pair.keys.parents).value.doc.nodes|, |r.nodes|)
            && Settled(r, Lookup(r, t, Path(pair.keys)).value)
    decreases pair, 1
  {
    var p := Enter(d, t, pair.keys.parents).value;
    EnterSealed(d, t, pair.keys.parents, s, from);
    EnterFinds(d, t, pair.keys.parents);
    EnterAdds(d, t, pair.keys.parents);
    var id, b := |p.doc.nodes|, Build(p.doc, pair.value, depth).value;
    BuildIs(p.doc, pair.value, depth);
    SealedBeside(p.doc, b, s, from);
    n := s + Span(id, |b.nodes|);
    AttachSealed(b, p.table, pair.keys.last, id, n, from);
    var r := Attach(b, p.table, pair.keys.last, id);
    DenotesStays(b, r, id, pair.value, n);
    LookupGrows(p.doc, r, t, pair.keys.parents);
    LookupAppend(r, t, pair.keys.parents, pair.keys.last);
  }

  lemma {:induction false} InsertAllHold(d: Doc, t: Id, pairs: seq<Pair>, depth: nat, s: set<Id>, from: Id)
    returns (n: set<Id>)
    requires Valid(d) && IsTable(d, t) && InsertAll(d, t, pairs, depth).Some?
    requires Sealed(d, s) && t !in s && Apart(d, from) && from <= t
    ensures var r := InsertAll(d, t, pairs, depth).value;
            s <= n && Sealed(r, n) && Same(d, r, s) && Apart(r, from) && r.implicit == d.implicit && r.open == d.open
            && forall i :: 0 <= i < |pairs| ==> Holds(r, t, pairs[i])
    decreases pairs, 0
  {
    n := s;
    if pairs != [] {
      var r, b := InsertAll(d, t, pairs, depth).value, Insert(d, t, pairs[0], depth).value;
      n := InsertHolds(d, t, pairs[0], depth, s, from);
      var n0 := n;
      n := InsertAllHold(b, t, pairs[1..], depth, n0, from);
      HoldsStays(b, r, t, pairs[0], n0);
    }
  }

  lemma HoldsStays(d: Doc, r: Doc, t: Id, pair: Pair, s: set<Id>)
    requires Grows(d, r) && Sealed(d, s) && Same(d, r, s) && Holds(d, t, pair)
             && Lookup(d, t, Path(pair.keys)).value in s
    ensures Holds(r, t, pair) && Lookup(r, t, Path(pair.keys)) == Lookup(d, t, Path(pair.keys))
  {
    LookupGrows(d, r, t, Path(pair.keys));
    DenotesStays(d, r, Lookup(d, t, Path(pair.keys)).value, pair.value, s);
  }

  // ---------------------------------------------------------------------------------------
  // Headers
  // ---------------------------------------------------------------------------------------

  ghost predicate Arrives(d: Doc, p: Id, c: Id) {
    p == c || (p < |d.nodes| && d.nodes[p].List? && c in d.nodes[p].elements)
  }

  /** Keys lead from a table to a node, through tables and elements of arrays. */
  ghost predicate Reaches(d: Doc, t: Id, keys: seq<Key>, x: Id)
    decreases |keys|
  {
    if keys == [] then t == x
    else
      IsTable(d, t) && keys[0] in d.nodes[t].children
      && exists c: Id :: Arrives(d, d.nodes[t].children[keys[0]], c) && Reaches(d, c, keys[1..], x)
  }

  lemma {:induction false} ReachesGrows(d: Doc, r: Doc, t: Id, keys: seq<Key>, x: Id)
    requires Grows(d, r) && Reaches(d, t, keys, x)
    ensures Reaches(r, t, keys, x)
    decreases |keys|
  {
    if keys != [] {
      var k := d.nodes[t].children[keys[0]];
      var c: Id :| Arrives(d, k, c) && Reaches(d, c, keys[1..], x);
      assert Wider(d.nodes[t], r.nodes[t]);
      if k < |d.nodes| {
        assert Wider(d.nodes[k], r.nodes[k]);
      }
      assert Arrives(r, k, c);
      ReachesGrows(d, r, c, keys[1..], x);
    }
  }

  lemma {:induction false} ReachesAppend(d: Doc, t: Id, keys: seq<Key>, p: Id, last: Key, x: Id)
    requires Reaches(d, t, keys, p) && Reaches(d, p, [last], x)
    ensures Reaches(d, t, keys + [last], x)
    decreases |keys|
  {
    if keys == [] {
      assert keys + [last] == [last];
    } else {
      var c: Id :| Arrives(d, d.nodes[t].children[keys[0]], c) && Reaches(d, c, keys[1..], p);
      ReachesAppend(d, c, keys[1..], p, last, x);
      assert (keys + [last])[1..] == keys[1..] + [last];
    }
  }

  lemma ImpliedSealed(d: Doc, t: Id, s: set<Id>)
    requires Valid(d) && IsPlainTable(d, t) && t !in d.implicit && Sealed(d, s)
    ensures Sealed(Implied(d, t), s)
  {
    assert forall c: Id :: Settled(d, c) ==> Settled(Implied(d, t), c);
  }

  lemma NotSealed(d: Doc, i: Id, c: Id, s: set<Id>)
    requires Sealed(d, s) && i < |d.nodes| && i !in s && Kid(d.nodes[i], c) && !Settled(d, c)
    ensures c !in s
  {
  }

  /** Walking to a header's place leaves sealed nodes alone and never goes into one. */
  lemma {:induction false} WalkSealed(d: Doc, t: Id, parents: seq<Key>, s: set<Id>)
    requires Valid(d) && IsTable(d, t) && Walk(d, t, parents).Some?
    requires Sealed(d, s) && t !in s && d.open == []
    ensures var p := Walk(d, t, parents).value; Sealed(p.doc, s) && Same(d, p.doc, s) && p.table !in s
    decreases |parents|
  {
    if parents != [] {
      var key := parents[0];
      if key in d.nodes[t].children {
        var c := d.nodes[t].children[key];
        assert Kid(d.nodes[t], c);
        NotSealed(d, t, c, s);
        if d.nodes[c].Table? {
          WalkSealed(d, c, parents[1..], s);
        } else {
          assert ListsTables(d, c) && Kid(d.nodes[c], LastOf(d, c));
          NotSealed(d, c, LastOf(d, c), s);
          WalkSealed(d, LastOf(d, c), parents[1..], s);
        }
      } else {
        var r := Spawn(d, t, key);
        SpawnSealed(d, t, key, s, 0);
        ImpliedSealed(r, |d.nodes|, s);
        WalkSealed(Implied(r, |d.nodes|), |d.nodes|, parents[1..], s);
      }
    }
  }

  /** What a walk adds: implicit tables only. */
  ghost predicate AddsImplicit(d: Doc, r: Doc) {
    r.tableArrays == d.tableArrays && r.open == d.open
    && (forall i: Id :: |d.nodes| <= i < |r.nodes| ==> IsPlainTable(r, i))
    && (forall i: Id :: i in r.implicit ==> i in d.implicit || |d.nodes| <= i)
  }

  lemma {:induction false} WalkAdds(d: Doc, t: Id, parents: seq<Key>)
    requires Valid(d) && IsTable(d, t) && Walk(d, t, parents).Some?
    ensures AddsImplicit(d, Walk(d, t, parents).value.doc)
    decreases |parents|
  {
    if parents != [] {
      if parents[0] in d.nodes[t].children {
        var e := WalkOld(d, t, parents);
        WalkAdds(d, e, parents[1..]);
      } else {
        var r := Implied(Spawn(d, t, parents[0]), |d.nodes|);
        WalkAdds(r, |d.nodes|, parents[1..]);
        AddsOneMore(d, r, Walk(d, t, parents).value.doc);
      }
    }
  }

  /** An existing key leads on to a table, or to the last element of a table array. */
  lemma WalkOld(d: Doc, t: Id, parents: seq<Key>) returns (e: Id)
    requires Valid(d) && IsTable(d, t) && parents != [] && parents[0] in d.nodes[t].children
             && Walk(d, t, parents).Some?
    ensures IsTable(d, e) && Walk(d, t, parents) == Walk(d, e, parents[1..])
  {
    e := d.nodes[t].children[parents[0]];
    assert Kid(d.nodes[t], e);
    if d.nodes[e].List? {
      assert ListsTables(d, e) && Kid(d.nodes[e], LastOf(d, e));
      e := LastOf(d, e);
    }
  }

  lemma AddsOneMore(d: Doc, r: Doc, q: Doc)
    requires |r.nodes| == |d.nodes| + 1 && IsPlainTable(r, |d.nodes|) && r.tableArrays == d.tableArrays
             && r.open == d.open
    requires r.implicit == d.implicit + [|d.nodes|] && Grows(r, q) && AddsImplicit(r, q)
    ensures AddsImplicit(d, q)
  {
    assert Wider(r.nodes[|d.nodes|], q.nodes[|d.nodes|]);
  }

  lemma {:induction false} WalkReaches(d: Doc, t: Id, parents: seq<Key>)
    requires Valid(d) && IsTable(d, t) && Walk(d, t, parents).Some?
    ensures var p := Walk(d, t, parents).value; Reaches(p.doc, t, parents, p.table)
    decreases |parents|
  {
    if parents != [] {
      var key, p := parents[0], Walk(d, t, parents).value;
      if key in d.nodes[t].children {
        var c := d.nodes[t].children[key];
        assert Kid(d.nodes[t], c);
        assert Wider(d.nodes[t], p.doc.nodes[t]) && Wider(d.nodes[c], p.doc.nodes[c]);
        var e := if d.nodes[c].Table? then c else LastOf(d, c);
        if d.nodes[c].List? {
          assert ListsTables(d, c) && Kid(d.nodes[c], e);
        }
        WalkReaches(d, e, parents[1..]);
        assert Arrives(p.doc, c, e);
      } else {
        var r := Implied(Spawn(d, t, key), |d.nodes|);
        WalkReaches(r, |d.nodes|, parents[1..]);
        assert Wider(r.nodes[t], p.doc.nodes[t]);
        assert Arrives(p.doc, |d.nodes|, |d.nodes|);
      }
    }
  }

  lemma DefineInSealed(d: Doc, t: Id, key: Key, isArray: bool, s: set<Id>)
    requires Valid(d) && IsTable(d, t) && DefineIn(d, t, key, isArray).Some?
    requires Sealed(d, s) && t !in s
    ensures var p := DefineIn(d, t, key, isArray).value; Sealed(p.doc, s) && Same(d, p.doc, s) && p.table !in s
  {
    if key in d.nodes[t].children {
      var c := d.nodes[t].children[key];
      assert Kid(d.nodes[t], c);
      if isArray {
        CreateSealed(d, EMPTY_TABLE, s, 0);
        AppendSealed(Create(d, EMPTY_TABLE), c, |d.nodes|, s, 0);
      } else {
        PromotedSealed(d, c, s);
      }
    } else if isArray {
      FirstElementSealed(d, t, key, s);
    } else {
      SpawnSealed(d, t, key, s, 0);
    }
  }

  lemma PromotedSealed(d: Doc, c: Id, s: set<Id>)
    requires Valid(d) && c in d.implicit && Sealed(d, s)
    ensures Sealed(Promoted(d, c), s)
  {
    assert forall i: Id :: Settled(d, i) ==> Settled(Promoted(d, c), i);
  }

  lemma FirstElementSealed(d: Doc, t: Id, key: Key, s: set<Id>)
    requires Valid(d) && IsTable(d, t) && key !in d.nodes[t].children && Sealed(d, s) && t !in s
    ensures var p := FirstElement(d, t, key); Sealed(p.doc, s) && Same(d, p.doc, s) && p.table !in s
  {
    CreateSealed(d, List([]), s, 0);
    AttachSealed(Create(d, List([])), t, key, |d.nodes|, s, 0);
    FirstOfSealed(NewList(d, t, key), |d.nodes|, s);
  }

  lemma FirstOfSealed(d: Doc, a: Id, s: set<Id>)
    requires Valid(d) && a < |d.nodes| && d.nodes[a] == List([]) && a !in d.tableArrays && Sealed(d, s) && a !in s
    ensures var p := FirstOf(d, a); Sealed(p.doc, s) && Same(d, p.doc, s) && p.table !in s
  {
    CreateSealed(d, EMPTY_TABLE, s, 0);
    AppendSealed(Create(d, EMPTY_TABLE), a, |d.nodes|, s, 0);
    ArrayedSealed(Append(Create(d, EMPTY_TABLE), a, |d.nodes|), a, s);
  }

  lemma ArrayedSealed(d: Doc, a: Id, s: set<Id>)
    requires Valid(d) && ListsTables(d, a) && Sealed(d, s) && a !in s
    ensures Sealed(Arrayed(d, a), s)
  {
    assert forall i: Id :: Settled(d, i) && i != a ==> Settled(Arrayed(d, a), i);
  }

  /** A header's table is new, or was implicit; it is not implicit any more. */
  ghost predicate Targets(d: Doc, p: Place) {
    p.table !in p.doc.implicit && (p.table in d.implicit || |d.nodes| <= p.table)
    && (forall i: Id :: i in p.doc.implicit ==> i in d.implicit || |d.nodes| <= i)
    && p.doc.open == d.open
    && forall i: Id :: Settled(p.doc, i) ==> Settled(d, i)
  }

  lemma DefineInTargets(d: Doc, t: Id, key: Key, isArray: bool)
    requires Valid(d) && IsTable(d, t) && DefineIn(d, t, key, isArray).Some?
    ensures Targets(d, DefineIn(d, t, key, isArray).value)
  {
    if key in d.nodes[t].children {
      var c := d.nodes[t].children[key];
      assert Kid(d.nodes[t], c);
      if !isArray {
        RemovesOnce(d.implicit, c);
      }
    }
  }

  lemma DefineInReaches(d: Doc, t: Id, key: Key, isArray: bool)
    requires Valid(d) && IsTable(d, t) && DefineIn(d, t, key, isArray).Some?
    ensures var p := DefineIn(d, t, key, isArray).value; Reaches(p.doc, t, [key], p.table)
  {
    var p := DefineIn(d, t, key, isArray).value;
    assert [key][1..] == [];
    assert Reaches(p.doc, p.table, [], p.table);
    if key in d.nodes[t].children {
      var c := d.nodes[t].children[key];
      assert Kid(d.nodes[t], c);
      assert Arrives(p.doc, c, p.table);
    } else if isArray {
      assert Arrives(p.doc, |d.nodes|, p.table);
    } else {
      assert Arrives(p.doc, |d.nodes|, |d.nodes|);
    }
  }

  // ---------------------------------------------------------------------------------------
  // Statements
  // ---------------------------------------------------------------------------------------

  datatype State = State(doc: Doc, current: Id)

  const START := State(Doc([EMPTY_TABLE], [], [], [], []), ROOT)

  ghost predicate Sound(s: State) { Valid(s.doc) && IsTable(s.doc, s.current) }

  function Step(s: State, st: Statement): (r: Option<State>)
    requires Sound(s)
    ensures r.Some? ==> Sound(r.value) && Grows(s.doc, r.value.doc)
  {
    match st
    case Header(keys, isArray) =>
      (match Define(s.doc, keys, isArray)
       case None => None
       case Some(p) => Some(State(p.doc, p.table)))
    case KeyValue(pair) =>
      match Insert(s.doc, s.current, pair, 0)
      case None => None
      case Some(d) => Some(State(d, s.current))
  }

  /** A run of accepted statements and the states before, between and after them. */
  ghost predicate Accepted(run: seq<Statement>, states: seq<State>) {
    |states| == |run| + 1 && states[0] == START && forall i: nat :: i < |run| ==> Follows(run, states, i)
  }

  ghost predicate Follows(run: seq<Statement>, states: seq<State>, i: nat)
    requires i < |run| < |states|
  {
    Sound(states[i]) && Step(states[i], run[i]) == Some(states[i + 1])
  }

  /** Between statements every settled node is sealed, and the current table can still be added to. */
  ghost predicate Inv(s: State, sealed: set<Id>) {
    Sound(s) && Sealed(s.doc, sealed) && s.current !in sealed && ROOT !in sealed && s.doc.open == []
    && forall i: Id :: Settled(s.doc, i) ==> i in sealed
  }

  lemma StartInv()
    ensures Inv(START, {})
  {
  }

  lemma HeaderStep(s: State, keys: Keys, isArray: bool, sealed: set<Id>)
    requires Inv(s, sealed) && Step(s, Header(keys, isArray)).Some?
    ensures var r := Step(s, Header(keys, isArray)).value;
            Inv(r, sealed) && Same(s.doc, r.doc, sealed) && Targets(s.doc, Place(r.doc, r.current))
  {
    var p := Walk(s.doc, ROOT, keys.parents).value;
    WalkSealed(s.doc, ROOT, keys.parents, sealed);
    WalkAdds(s.doc, ROOT, keys.parents);
    DefineInSealed(p.doc, p.table, keys.last, isArray, sealed);
    DefineInTargets(p.doc, p.table, keys.last, isArray);
    SettledBefore(s.doc, p.doc);
  }

  lemma HeaderReaches(s: State, keys: Keys, isArray: bool)
    requires Sound(s) && Step(s, Header(keys, isArray)).Some?
    ensures var r := Step(s, Header(keys, isArray)).value; Reaches(r.doc, ROOT, Path(keys), r.current)
  {
    var p := Walk(s.doc, ROOT, keys.parents).value;
    WalkReaches(s.doc, ROOT, keys.parents);
    DefineInReaches(p.doc, p.table, keys.last, isArray);
    var q := DefineIn(p.doc, p.table, keys.last, isArray).value;
    ReachesGrows(p.doc, q.doc, ROOT, keys.parents, p.table);
    ReachesAppend(q.doc, ROOT, keys.parents, p.table, keys.last, q.table);
  }

  lemma SettledBefore(d: Doc, r: Doc)
    requires Grows(d, r) && AddsImplicit(d, r)
    ensures forall i: Id :: Settled(r, i) ==> Settled(d, i)
  {
    forall i: Id | Settled(r, i)
      ensures Settled(d, i)
    {
      assert !IsPlainTable(r, i);
      assert Wider(d.nodes[i], r.nodes[i]);
    }
  }

  lemma PairStep(s: State, pair: Pair, sealed: set<Id>) returns (n: set<Id>)
    requires Inv(s, sealed) && Step(s, KeyValue(pair)).Some?
    ensures var r := Step(s, KeyValue(pair)).value;
            sealed <= n && Inv(r, n) && Same(s.doc, r.doc, sealed) && r.current == s.current
            && r.doc.implicit == s.doc.implicit
            && Holds(r.doc, s.current, pair) && Lookup(r.doc, s.current, Path(pair.keys)).value in n
            && Settled(r.doc, Lookup(r.doc, s.current, Path(pair.keys)).value)
  {
    n := InsertHolds(s.doc, s.current, pair, 0, sealed, 0);
    var p, r := Enter(s.doc, s.current, pair.keys.parents).value.doc, Step(s, KeyValue(pair)).value.doc;
    EnterAdds(s.doc, s.current, pair.keys.parents);
    GrowsOnward(s.doc, p, r, pair, s.current);
    SettledAfter(s.doc, p, r, sealed);
  }

  lemma SettledAfter(d: Doc, p: Doc, r: Doc, sealed: set<Id>)
    requires Grows(d, p) && Grows(p, r) && d.tableArrays == r.tableArrays
    requires forall i: Id :: Settled(d, i) ==> i in sealed
    requires forall i: Id :: |d.nodes| <= i < |p.nodes| ==> IsPlainTable(p, i)
    ensures forall i: Id :: Settled(r, i) ==> i in sealed + Span(|p.nodes|, |r.nodes|)
  {
    forall i: Id | Settled(r, i)
      ensures i in sealed + Span(|p.nodes|, |r.nodes|)
    {
      if i < |p.nodes| {
        assert Wider(p.nodes[i], r.nodes[i]) && !IsPlainTable(p, i);
        assert Wider(d.nodes[i], p.nodes[i]) && Settled(d, i);
      }
    }
  }

  lemma GrowsOnward(d: Doc, p: Doc, r: Doc, pair: Pair, t: Id)
    requires Valid(d) && IsTable(d, t) && Insert(d, t, pair, 0) == Some(r)
             && p == Enter(d, t, pair.keys.parents).value.doc
    ensures Grows(p, r)
  {
    var place, b := Enter(d, t, pair.keys.parents).value, Build(p, pair.value, 0).value;
    GrowsOn(p, b, Emplace(b, place.table, pair.keys.last, |p.nodes|));
  }

  // ---------------------------------------------------------------------------------------
  // Runs
  // ---------------------------------------------------------------------------------------

  lemma StepInv(s: State, st: Statement, sealed: set<Id>) returns (n: set<Id>)
    requires Inv(s, sealed) && Step(s, st).Some?
    ensures var r := Step(s, st).value;
            sealed <= n && Inv(r, n) && Same(s.doc, r.doc, sealed)
            && forall i: Id :: i in r.doc.implicit ==> i in s.doc.implicit || |s.doc.nodes| <= i
  {
    match st
    case Header(keys, isArray) =>
      HeaderStep(s, keys, isArray, sealed);
      n := sealed;
    case KeyValue(pair) =>
      n := PairStep(s, pair, sealed);
  }

  /** What holds from one point of a run to a later one. */
  ghost predicate Onward(s: State, r: State, sealed: set<Id>) {
    Grows(s.doc, r.doc) && Same(s.doc, r.doc, sealed)
    && forall i: Id :: i in r.doc.implicit ==> i in s.doc.implicit || |s.doc.nodes| <= i
  }

  lemma {:induction false} RunOnward(run: seq<Statement>, states: seq<State>, n: nat, k: nat, sealed: set<Id>)
    returns (m: set<Id>)
    requires Accepted(run, states) && n <= k <= |run| && Inv(states[n], sealed)
    ensures sealed <= m && Inv(states[k], m) && Onward(states[n], states[k], sealed)
    decreases k - n
  {
    m := sealed;
    if n < k {
      assert Follows(run, states, n);
      var m0 := StepInv(states[n], run[n], sealed);
      m := RunOnward(run, states, n + 1, k, m0);
      OnwardOn(states[n], states[n + 1], states[k], sealed, m0);
    }
  }

  lemma OnwardOn(s: State, r: State, q: State, sealed: set<Id>, m: set<Id>)
    requires Onward(s, r, sealed) && Onward(r, q, m) && sealed <= m
    ensures Onward(s, q, sealed)
  {
    GrowsOn(s.doc, r.doc, q.doc);
  }

  lemma RunInv(run: seq<Statement>, states: seq<State>, k: nat) returns (sealed: set<Id>)
    requires Accepted(run, states) && k <= |run|
    ensures Inv(states[k], sealed)
  {
    StartInv();
    sealed := RunOnward(run, states, 0, k, {});
  }

  ghost predicate Unchanged(d: Doc, r: Doc, i: Id) { i < |d.nodes| && i < |r.nodes| && r.nodes[i] == d.nodes[i] }

  /** Over a run nothing is removed or overwritten, and scalars, plain arrays and inline tables never change again. */
  lemma DocumentOnlyGrows(run: seq<Statement>, states: seq<State>, n: nat, k: nat)
    requires Accepted(run, states) && n <= k <= |run|
    ensures Grows(states[n].doc, states[k].doc)
    ensures forall i: Id, keys: seq<Key> :: Settled(states[n].doc, i) && Lookup(states[n].doc, i, keys).Some?
              ==> Lookup(states[k].doc, i, keys) == Lookup(states[n].doc, i, keys)
                  && Unchanged(states[n].doc, states[k].doc, Lookup(states[n].doc, i, keys).value)
  {
    var sealed := RunInv(run, states, n);
    var m := RunOnward(run, states, n, k, sealed);
    forall i: Id, keys: seq<Key> | Settled(states[n].doc, i) && Lookup(states[n].doc, i, keys).Some?
      ensures Lookup(states[k].doc, i, keys) == Lookup(states[n].doc, i, keys)
              && Unchanged(states[n].doc, states[k].doc, Lookup(states[n].doc, i, keys).value)
    {
      LookupInside(states[n].doc, states[k].doc, i, keys, sealed);
    }
  }

  /** A pair that was accepted can be read ever after, where its statement put it, with its value. */
  lemma PairsStayReadable(run: seq<Statement>, states: seq<State>, n: nat, k: nat)
    requires Accepted(run, states) && n < k <= |run| && run[n].KeyValue?
    ensures Holds(states[k].doc, states[n].current, run[n].pair)
    ensures Settled(states[n + 1].doc, Lookup(states[k].doc, states[n].current, Path(run[n].pair.keys)).value)
  {
    var m := PairAccepted(run, states, n);
    var l := RunOnward(run, states, n + 1, k, m);
    HoldsStays(states[n + 1].doc, states[k].doc, states[n].current, run[n].pair, m);
  }

  lemma PairAccepted(run: seq<Statement>, states: seq<State>, n: nat) returns (m: set<Id>)
    requires Accepted(run, states) && n < |run| && run[n].KeyValue?
    ensures Inv(states[n + 1], m) && Holds(states[n + 1].doc, states[n].current, run[n].pair)
    ensures var x := Lookup(states[n + 1].doc, states[n].current, Path(run[n].pair.keys)).value;
            x in m && Settled(states[n + 1].doc, x)
  {
    assert Follows(run, states, n);
    var sealed := RunInv(run, states, n);
    m := PairStep(states[n], run[n].pair, sealed);
  }

  /** A header's keys lead from the root to its table ever after. */
  lemma HeadersStayReachable(run: seq<Statement>, states: seq<State>, n: nat, k: nat)
    requires Accepted(run, states) && n < k <= |run| && run[n].Header?
    ensures Reaches(states[k].doc, ROOT, Path(run[n].keys), states[n + 1].current)
  {
    assert Follows(run, states, n);
    HeaderReaches(states[n], run[n].keys, run[n].isArray);
    DocumentOnlyGrows(run, states, n + 1, k);
    ReachesGrows(states[n + 1].doc, states[k].doc, ROOT, Path(run[n].keys), states[n + 1].current);
  }

  /** No table is the target of two headers. */
  lemma TargetsDiffer(run: seq<Statement>, states: seq<State>, i: nat, j: nat)
    requires Accepted(run, states) && i < j < |run| && run[i].Header? && run[j].Header?
    ensures states[i + 1].current != states[j + 1].current
  {
    HeaderTargets(run, states, i);
    HeaderTargets(run, states, j);
    var sealed := RunInv(run, states, i + 1);
    var m := RunOnward(run, states, i + 1, j, sealed);
  }

  lemma HeaderTargets(run: seq<Statement>, states: seq<State>, i: nat)
    requires Accepted(run, states) && i < |run| && run[i].Header?
    ensures var s, r := states[i], states[i + 1];
            r.current < |r.doc.nodes| && r.current !in r.doc.implicit
            && (r.current in s.doc.implicit || |s.doc.nodes| <= r.current)
  {
    assert Follows(run, states, i);
    var sealed := RunInv(run, states, i);
    HeaderStep(states[i], run[i].keys, run[i].isArray, sealed);
  }

  // ---------------------------------------------------------------------------------------
  // No key is defined twice
  // ---------------------------------------------------------------------------------------

  /** A scalar, a plain array or an inline table is in the way of longer keys, and any node of the same keys. */
  lemma {:induction false} Blocks(d: Doc, t: Id, pair: Pair, depth: nat, keys: seq<Key>)
    requires Valid(d) && IsTable(d, t) && Lookup(d, t, keys).Some?
    requires keys != [] && keys <= Path(pair.keys)
    requires keys == Path(pair.keys) || Settled(d, Lookup(d, t, keys).value)
    ensures Insert(d, t, pair, depth).None?
  {
    var parents := pair.keys.parents;
    if Enter(d, t, parents).Some? {
      if keys == Path(pair.keys) {
        EnteredLeads(d, t, parents, pair.keys.last);
      } else {
        assert keys <= parents;
        NoEntry(d, t, parents, keys);
      }
    }
  }

  lemma {:induction false} EnteredLeads(d: Doc, t: Id, parents: seq<Key>, last: Key)
    requires Valid(d) && IsTable(d, t) && Enter(d, t, parents).Some? && Lookup(d, t, parents + [last]).Some?
    ensures var p := Enter(d, t, parents).value; last in p.doc.nodes[p.table].children
    decreases |parents|
  {
    if parents == [] {
      assert parents + [last] == [last];
    } else {
      var c := d.nodes[t].children[parents[0]];
      assert (parents + [last])[1..] == parents[1..] + [last];
      assert Kid(d.nodes[t], c);
      EnteredLeads(d, c, parents[1..], last);
    }
  }

  lemma {:induction false} NoEntry(d: Doc, t: Id, parents: seq<Key>, keys: seq<Key>)
    requires Valid(d) && IsTable(d, t) && Lookup(d, t, keys).Some? && keys != [] && keys <= parents
    requires Settled(d, Lookup(d, t, keys).value)
    ensures Enter(d, t, parents).None?
    decreases |keys|
  {
    var c := d.nodes[t].children[keys[0]];
    assert Kid(d.nodes[t], c);
    if |keys| == 1 {
      assert keys[1..] == [] && Lookup(d, c, []) == Some(c);
    } else if d.nodes[c].Table? {
      NoEntry(d, c, parents[1..], keys[1..]);
    }
  }

  lemma {:induction false} LookupOfPrefix(d: Doc, t: Id, keys: seq<Key>, more: seq<Key>)
    requires keys <= more && Lookup(d, t, more).Some?
    ensures Lookup(d, t, keys).Some?
    decreases |keys|
  {
    if keys != [] {
      LookupOfPrefix(d, d.nodes[t].children[keys[0]], keys[1..], more[1..]);
    }
  }

  /** In one table no pair's keys are the same as, or continue, those of another. */
  lemma NoKeyTwice(run: seq<Statement>, states: seq<State>, i: nat, j: nat)
    requires Accepted(run, states) && i < j < |run| && run[i].KeyValue? && run[j].KeyValue?
    requires states[i].current == states[j].current
    ensures var p, q := Path(run[i].pair.keys), Path(run[j].pair.keys); !(p <= q) && !(q <= p)
  {
    var p, q, r := Path(run[i].pair.keys), Path(run[j].pair.keys), states[j];
    assert Follows(run, states, j);
    PairsStayReadable(run, states, i, j);
    SettledStays(run, states, i + 1, j, Lookup(r.doc, r.current, p).value);
    if p <= q {
      Blocks(r.doc, r.current, run[j].pair, 0, p);
    }
    if q <= p {
      LookupOfPrefix(r.doc, r.current, q, p);
      Blocks(r.doc, r.current, run[j].pair, 0, q);
    }
  }

  lemma StepSettled(s: State, st: Statement, i: Id)
    requires Sound(s) && Step(s, st).Some? && Settled(s.doc, i)
    ensures Settled(Step(s, st).value.doc, i)
  {
    var d, r := s.doc, Step(s, st).value.doc;
    assert Wider(d.nodes[i], r.nodes[i]);
    if st.Header? {
      var p := Walk(d, ROOT, st.keys.parents).value;
      WalkAdds(d, ROOT, st.keys.parents);
      assert Wider(d.nodes[i], p.doc.nodes[i]);
      ArraysAdded(p.doc, p.table, st.keys.last, st.isArray);
    }
  }

  lemma ArraysAdded(d: Doc, t: Id, key: Key, isArray: bool)
    requires Valid(d) && IsTable(d, t) && DefineIn(d, t, key, isArray).Some?
    ensures forall a: Id :: a in DefineIn(d, t, key, isArray).value.doc.tableArrays ==>
              a in d.tableArrays || |d.nodes| <= a
  {
  }

  lemma {:induction false} SettledStays(run: seq<Statement>, states: seq<State>, n: nat, k: nat, i: Id)
    requires Accepted(run, states) && n <= k <= |run| && Settled(states[n].doc, i)
    ensures Settled(states[k].doc, i)
    decreases k - n
  {
    if n < k {
      SettledNext(run, states, n, i);
      SettledStays(run, states, n + 1, k, i);
    }
  }

  lemma SettledNext(run: seq<Statement>, states: seq<State>, n: nat, i: Id)
    requires Accepted(run, states) && n < |run| && Settled(states[n].doc, i)
    ensures Settled(states[n + 1].doc, i)
  {
    assert Follows(run, states, n);
    StepSettled(states[n], run[n], i);
  }
}
