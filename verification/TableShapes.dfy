/**
  Which documents the TOML parser accepts (util/toml.hpp, parse_table_header and
  parse_key_value_pair_and_insert), told from the statements alone: what the keys of the earlier
  statements stand for decides whether the next one is accepted.
 */
module TableShapes {
  import opened Wrappers
  import opened TableTree
  import opened TableAcceptance
  import opened TableParser

  /** What a path of keys stands for. A path through a table array leads into its last element. */
  datatype Kind =
    | ByHeaders          // a table that headers below it have made
    | ByDots             // a table that dotted keys have made
    | Defined            // a table with a header, and the root
    | Elements           // a table array
    | Given(tables: bool)  // a value; an inline table or an array of such passes for a table

  type Shape = map<seq<Key>, Kind>

  datatype Shaped = Shaped(shape: Shape, current: seq<Key>)

  const NOTHING := Shaped(map[[] := Defined], [])

  // ---------------------------------------------------------------------------------------
  // Statements
  // ---------------------------------------------------------------------------------------

  /** Headers go through every table, dotted keys only through those without a header. */
  predicate Passable(k: Kind, header: bool) { if header then !k.Given? else k.ByHeaders? || k.ByDots? }

  /** The tables on the way of some keys, made where there are none. */
  function Through(s: Shape, q: seq<Key>, parents: seq<Key>, header: bool): Option<Shape>
    decreases |parents|
  {
    if parents == [] then Some(s)
    else
      var p := q + [parents[0]];
      if p !in s then Through(s[p := if header then ByHeaders else ByDots], p, parents[1..], header)
      else if Passable(s[p], header) then Through(s, p, parents[1..], header)
      else None
  }

  /** Nothing below a path, but for what passes for a table. */
  predicate TablesBelow(s: Shape, p: seq<Key>) { forall q <- s :: q != [] && Front(q) == p ==> s[q] != Given(false) }

  predicate Below(p: seq<Key>, q: seq<Key>) { p <= q && p != q }

  /** A new element begins empty. */
  function Cleared(s: Shape, p: seq<Key>): Shape { map q | q in s && !Below(p, q) :: s[q] }

  /** What a last key comes to, after its parents. */
  function HeadedLast(w: Shape, p: seq<Key>, isArray: bool): Option<Shape> {
    if p !in w then Some(w[p := if isArray then Elements else Defined])
    else if isArray && w[p].Elements? then Some(Cleared(w, p))
    else if !isArray && w[p].ByHeaders? && TablesBelow(w, p) then Some(w[p := Defined])
    else None
  }

  function Headed(s: Shape, keys: Keys, isArray: bool): Option<Shape> {
    match Through(s, [], keys.parents, true)
    case None => None
    case Some(w) => HeadedLast(w, Path(keys), isArray)
  }

  function Paired(s: Shape, current: seq<Key>, pair: Pair): Option<Shape> {
    match Through(s, current, pair.keys.parents, false)
    case None => None
    case Some(w) =>
      var p := current + pair.keys.parents + [pair.keys.last];
      if p in w || !Acceptable(pair.value, 0) then None else Some(w[p := Given(TablesOnly(pair.value))])
  }

  /** Inline tables, and arrays of nothing else. */
  predicate TablesOnly(v: Value) {
    match v
    case Scalar(_) => false
    case Array(elements) => elements != [] && forall i :: 0 <= i < |elements| ==> elements[i].Inline?
    case Inline(_) => true
  }

  function ShapeStep(x: Shaped, st: Statement): Option<Shaped> {
    match st
    case Header(keys, isArray) =>
      (match Headed(x.shape, keys, isArray)
       case None => None
       case Some(w) => Some(Shaped(w, Path(keys))))
    case KeyValue(pair) =>
      match Paired(x.shape, x.current, pair)
      case None => None
      case Some(w) => Some(x.(shape := w))
  }

  function ShapeOf(x: Shaped, run: seq<Statement>): Option<Shaped>
    decreases |run|
  {
    if run == [] then Some(x)
    else
      match ShapeStep(x, run[0])
      case None => None
      case Some(y) => ShapeOf(y, run[1..])
  }

  // ---------------------------------------------------------------------------------------
  // When a statement is accepted
  // ---------------------------------------------------------------------------------------

  /** On the way from one path to a longer one, the longer one included. */
  predicate OnTheWay(q: seq<Key>, p: seq<Key>, all: seq<Key>) { Below(q, p) && p <= all }

  /** A way is free if nothing on it is in the way, and then all that was missing is made. */
  lemma {:induction false} ThroughMeans(s: Shape, q: seq<Key>, parents: seq<Key>, header: bool)
    ensures Through(s, q, parents, header).Some?
            <==> forall p <- s :: OnTheWay(q, p, q + parents) ==> Passable(s[p], header)
    ensures Through(s, q, parents, header).Some? ==>
              var w := Through(s, q, parents, header).value;
              (forall p :: p in w <==> p in s || OnTheWay(q, p, q + parents))
              && forall p <- w :: w[p] == if p in s then s[p] else if header then ByHeaders else ByDots
    decreases |parents|
  {
    if parents == [] {
      forall p | OnTheWay(q, p, q + parents)
        ensures false
      {
        BothPrefixes(p, q);
      }
    } else {
      var next := q + [parents[0]];
      forall p
        ensures OnTheWay(q, p, q + parents) <==> p == next || OnTheWay(next, p, next + parents[1..])
      {
        WayFirst(q, p, parents);
      }
      var s' := if next in s then s else s[next := if header then ByHeaders else ByDots];
      ThroughMeans(s', next, parents[1..], header);
      assert !OnTheWay(next, next, next + parents[1..]);
    }
  }

  lemma WayFirst(q: seq<Key>, p: seq<Key>, parents: seq<Key>)
    requires parents != []
    ensures OnTheWay(q, p, q + parents)
            <==> p == q + [parents[0]] || OnTheWay(q + [parents[0]], p, q + [parents[0]] + parents[1..])
  {
    if p != q {
      NextKey(q, p, parents);
    }
  }

  /** A header is accepted exactly if no value is among its parents and its last key is new, or names a table array of
      which it is another element, or a table that only headers below it have made, with nothing but tables in it. */
  lemma HeaderAccepted(s: Shape, keys: Keys, isArray: bool)
    ensures Headed(s, keys, isArray).Some?
            <==> (forall p <- s :: OnTheWay([], p, keys.parents) ==> !s[p].Given?)
                 && var all := Path(keys);
                    all in s ==> if isArray then s[all].Elements? else s[all].ByHeaders? && TablesBelow(s, all)
  {
    var all := Path(keys);
    ThroughMeans(s, [], keys.parents, true);
    assert [] + keys.parents == keys.parents;
    if Through(s, [], keys.parents, true).Some? {
      var w := Through(s, [], keys.parents, true).value;
      assert !OnTheWay([], all, keys.parents);
      if all in s {
        SameBelow(s, w, keys);
      }
    }
  }

  lemma SameBelow(s: Shape, w: Shape, keys: Keys)
    requires (forall p :: p in w <==> p in s || OnTheWay([], p, keys.parents)) && forall p <- s :: w[p] == s[p]
    ensures TablesBelow(w, Path(keys)) <==> TablesBelow(s, Path(keys))
  {
    forall q | q in w && q != [] && Front(q) == Path(keys)
      ensures q in s && w[q] == s[q]
    {
      assert |q| > |keys.parents|;
    }
  }

  /** A pair is accepted exactly if its value is, its keys are new below the current table, and among its parents are
      only tables without a header. */
  lemma PairAccepted(s: Shape, current: seq<Key>, pair: Pair)
    ensures Paired(s, current, pair).Some?
            <==> Acceptable(pair.value, 0) && current + Path(pair.keys) !in s
                 && forall p <- s ::
                      OnTheWay(current, p, current + pair.keys.parents) ==> s[p].ByHeaders? || s[p].ByDots?
  {
    var all := current + Path(pair.keys);
    assert all == current + pair.keys.parents + [pair.keys.last];
    ThroughMeans(s, current, pair.keys.parents, false);
    assert !OnTheWay(current, all, current + pair.keys.parents);
  }

  // ---------------------------------------------------------------------------------------
  // What a shape says of a document
  // ---------------------------------------------------------------------------------------

  /** In neither list of the parser's. */
  predicate Unlisted(d: Doc, t: Id) { t !in d.implicit && t !in d.dotted }

  /** A child of some kind; e is the table one enters there. */
  ghost predicate OfKind(d: Doc, k: Kind, c: Id, e: Id) {
    match k
    case ByHeaders => c == e && IsPlainTable(d, c) && c in d.implicit && c !in d.dotted
    case ByDots => c == e && IsPlainTable(d, c) && c in d.dotted && c !in d.implicit
    case Defined => c == e && IsPlainTable(d, c) && Unlisted(d, c)
    case Elements => c in d.tableArrays && ListsTables(d, c) && e == LastOf(d, c) && IsPlainTable(d, e)
                     && Unlisted(d, e)
    case Given(tables) => Settled(d, c) && (tables <==> IsTable(d, c) || IsArrayOfTables(d, c))
  }

  /** The tables that a shape's paths lead to. */
  ghost predicate Tracks(d: Doc, s: Shape, m: map<seq<Key>, Id>) {
    Rooted(d, s, m) && (forall q :: q in m <==> q in s && !s[q].Given?) && Once(m) && AllPlain(d, m)
    && AllHung(d, s, m) && AllTold(d, s, m)
  }

  ghost predicate Rooted(d: Doc, s: Shape, m: map<seq<Key>, Id>) {
    Valid(d) && d.open == [] && [] in m && m[[]] == ROOT && [] in s && s[[]] == Defined && Unlisted(d, ROOT)
  }

  ghost predicate AllPlain(d: Doc, m: map<seq<Key>, Id>) { forall q <- m :: IsPlainTable(d, m[q]) }

  /** The table one enters at a path, if any. */
  function EnteredAt(m: map<seq<Key>, Id>, q: seq<Key>): Id { if q in m then m[q] else ROOT }

  ghost predicate AllHung(d: Doc, s: Shape, m: map<seq<Key>, Id>) {
    forall q {:trigger HungAt(d, s, m, q)} :: q in s && q != [] ==> HungAt(d, s, m, q)
  }

  ghost predicate HungAt(d: Doc, s: Shape, m: map<seq<Key>, Id>, q: seq<Key>)
    requires q in s && q != []
  {
    Front(q) in m && HasKey(d, m[Front(q)], Last(q))
    && OfKind(d, s[q], d.nodes[m[Front(q)]].children[Last(q)], EnteredAt(m, q))
  }

  ghost predicate AllTold(d: Doc, s: Shape, m: map<seq<Key>, Id>) {
    forall q, k :: q in m && HasKey(d, m[q], k) ==> q + [k] in s
  }

  // ---------------------------------------------------------------------------------------
  // Something new under a key
  // ---------------------------------------------------------------------------------------

  /** The older nodes are as they were, in the same lists, but that t has a child more. */
  ghost predicate Hangs(d: Doc, r: Doc, t: Id, k: Key, c: Id) {
    IsTable(d, t) && k !in d.nodes[t].children && |d.nodes| <= c < |r.nodes|
    && r.nodes[t] == Table(d.nodes[t].children[k := c], d.nodes[t].inline)
    && (forall i: Id :: i < |d.nodes| && i != t ==> r.nodes[i] == d.nodes[i])
    && SameLists(d, r)
  }

  /** Older nodes are in the same lists. */
  ghost predicate SameLists(d: Doc, r: Doc) {
    |d.nodes| <= |r.nodes|
    && forall i: Id :: i < |d.nodes| ==>
         (i in r.implicit <==> i in d.implicit) && (i in r.dotted <==> i in d.dotted)
         && (i in r.tableArrays <==> i in d.tableArrays)
  }

  lemma KindStays(d: Doc, r: Doc, k: Kind, c: Id, e: Id, t: Id)
    requires Valid(d) && OfKind(d, k, c, e) && SameLists(d, r) && IsPlainTable(d, t) && e < |d.nodes|
    requires forall i: Id :: i < |d.nodes| && i != t ==> r.nodes[i] == d.nodes[i]
    requires IsPlainTable(r, t)
    ensures OfKind(r, k, c, e)
  {
    assert c < |d.nodes|;
    assert Linked(d.nodes[c], |d.nodes|);
    if k.Elements? {
      assert forall x: Id :: Kid(d.nodes[c], x) ==> IsPlainTable(r, x);
    }
    if k.Given? && d.nodes[c].List? {
      forall i | 0 <= i < |d.nodes[c].elements|
        ensures IsTable(d, d.nodes[c].elements[i]) <==> IsTable(r, d.nodes[c].elements[i])
      {
        assert Kid(d.nodes[c], d.nodes[c].elements[i]);
      }
    }
  }

  /** What is new under a key is new in the shape. */
  lemma Hung(d: Doc, r: Doc, s: Shape, m: map<seq<Key>, Id>, q: seq<Key>, k: Key, kind: Kind, c: Id, e: Id)
      returns (s': Shape, m': map<seq<Key>, Id>)
    requires Tracks(d, s, m) && q in m && Valid(r) && r.open == [] && Hangs(d, r, m[q], k, c) && OfKind(r, kind, c, e)
    requires !kind.Given? ==> |d.nodes| <= e < |r.nodes| && r.nodes[e] == EMPTY_TABLE
    ensures q + [k] !in s && s' == s[q + [k] := kind] && Tracks(r, s', m')
    ensures m' == if kind.Given? then m else m[q + [k] := e]
  {
    FrontLast(q, k);
    s', m' := s[q + [k] := kind], if kind.Given? then m else m[q + [k] := e];
    assert q + [k] !in s by {
      assert q + [k] in s ==> HungAt(d, s, m, q + [k]);
    }
    TablesStill(d, r, s, m, q, k, kind, c, e);
    OthersHung(d, r, s, m, q, k, s', m');
    AllToldStill(d, r, s, m, q, k, s', m');
  }

  lemma TablesStill(d: Doc, r: Doc, s: Shape, m: map<seq<Key>, Id>, q: seq<Key>, k: Key, kind: Kind, c: Id, e: Id)
    requires Tracks(d, s, m) && q in m && q + [k] !in s && Valid(r) && r.open == [] && Hangs(d, r, m[q], k, c)
    requires !kind.Given? ==> |d.nodes| <= e < |r.nodes| && r.nodes[e] == EMPTY_TABLE
    ensures var s', m' := s[q + [k] := kind], if kind.Given? then m else m[q + [k] := e];
            Rooted(r, s', m') && (forall u :: u in m' <==> u in s' && !s'[u].Given?) && Once(m') && AllPlain(r, m')
  {
    assert forall u <- m :: IsPlainTable(r, m[u]) && m[u] < |d.nodes|;
  }

  lemma OthersHung(d: Doc, r: Doc, s: Shape, m: map<seq<Key>, Id>, q: seq<Key>, k: Key, s': Shape,
                   m': map<seq<Key>, Id>)
    requires Tracks(d, s, m) && q in m && q + [k] !in s && q + [k] in s' && s' == s[q + [k] := s'[q + [k]]]
    requires m' == m || (q + [k] in m' && m' == m[q + [k] := m'[q + [k]]])
    requires q + [k] in m' <==> !s'[q + [k]].Given?
    requires IsTable(r, m[q]) && k in r.nodes[m[q]].children
    requires var c := r.nodes[m[q]].children[k];
             Hangs(d, r, m[q], k, c) && OfKind(r, s'[q + [k]], c, EnteredAt(m', q + [k]))
    ensures AllHung(r, s', m')
  {
    FrontLast(q, k);
    forall u <- s' | u != []
      ensures HungAt(r, s', m', u)
    {
      if u != q + [k] {
        assert HungAt(d, s, m, u);
        assert EnteredAt(m', u) == EnteredAt(m, u) && EnteredAt(m, u) < |d.nodes|;
        KindStays(d, r, s[u], d.nodes[m[Front(u)]].children[Last(u)], EnteredAt(m, u), m[q]);
      }
    }
  }

  lemma AllToldStill(d: Doc, r: Doc, s: Shape, m: map<seq<Key>, Id>, q: seq<Key>, k: Key, s': Shape,
                     m': map<seq<Key>, Id>)
    requires Tracks(d, s, m) && q in m && q + [k] in s' && (forall u <- s :: u in s')
    requires m' == m || (q + [k] in m' && m' == m[q + [k] := m'[q + [k]]] && m'[q + [k]] < |r.nodes|
                         && r.nodes[m'[q + [k]]] == EMPTY_TABLE)
    requires IsTable(r, m[q]) && k in r.nodes[m[q]].children && Hangs(d, r, m[q], k, r.nodes[m[q]].children[k])
    ensures AllTold(r, s', m')
  {
    forall u, j | u in m' && HasKey(r, m'[u], j)
      ensures u + [j] in s'
    {
      assert u in m && m'[u] == m[u];
      if HasKey(d, m[u], j) {
        assert u + [j] in s;
      } else {
        assert m[u] == m[q] && j == k;
        assert u == q;
      }
    }
  }

  // ---------------------------------------------------------------------------------------
  // Headers
  // ---------------------------------------------------------------------------------------

  lemma SpawnHangs(d: Doc, t: Id, k: Key)
    requires Valid(d) && IsPlainTable(d, t) && k !in d.nodes[t].children
    ensures var r := Spawn(d, t, k);
            Hangs(d, r, t, k, |d.nodes|) && r.open == d.open && OfKind(r, Defined, |d.nodes|, |d.nodes|)
            && OfKind(Implied(r, |d.nodes|), ByHeaders, |d.nodes|, |d.nodes|)
            && OfKind(Dotted(r, |d.nodes|), ByDots, |d.nodes|, |d.nodes|)
            && Hangs(d, Implied(r, |d.nodes|), t, k, |d.nodes|) && Hangs(d, Dotted(r, |d.nodes|), t, k, |d.nodes|)
  {
  }

  /** A path in the shape is a child; one that is not, is none. */
  lemma ChildOf(d: Doc, s: Shape, m: map<seq<Key>, Id>, q: seq<Key>, k: Key)
    requires Tracks(d, s, m) && q in m
    ensures IsPlainTable(d, m[q]) && (q + [k] in s <==> k in d.nodes[m[q]].children)
    ensures q + [k] in s ==> OfKind(d, s[q + [k]], d.nodes[m[q]].children[k], EnteredAt(m, q + [k]))
  {
    FrontLast(q, k);
    assert q + [k] in s ==> HungAt(d, s, m, q + [k]);
    assert HasKey(d, m[q], k) ==> q + [k] in s;
  }

  /** What walking a first key comes to. */
  lemma WalkFirst(d: Doc, s: Shape, m: map<seq<Key>, Id>, q: seq<Key>, parents: seq<Key>)
    requires Tracks(d, s, m) && q in m && parents != []
    ensures var p := q + [parents[0]];
            if p !in s then
              parents[0] !in d.nodes[m[q]].children
              && Walk(d, m[q], parents) == Walk(Implied(Spawn(d, m[q], parents[0]), |d.nodes|), |d.nodes|, parents[1..])
            else if s[p].Given? then Walk(d, m[q], parents).None?
            else p in m && Walk(d, m[q], parents) == Walk(d, m[p], parents[1..])
  {
    ChildOf(d, s, m, q, parents[0]);
    if q + [parents[0]] in s {
      var c := d.nodes[m[q]].children[parents[0]];
      assert Kid(d.nodes[m[q]], c);
      assert d.nodes[c].List? && c in d.tableArrays ==> ListsTables(d, c);
    }
  }

  /** A header's parents can be walked exactly if no value is in the way. */
  lemma {:induction false} WalkIsThrough(d: Doc, s: Shape, m: map<seq<Key>, Id>, q: seq<Key>, parents: seq<Key>)
      returns (s': Shape, m': map<seq<Key>, Id>)
    requires Tracks(d, s, m) && q in m
    ensures Walk(d, m[q], parents).Some? <==> Through(s, q, parents, true).Some?
    ensures Walk(d, m[q], parents).Some? ==>
              var p := Walk(d, m[q], parents).value;
              Through(s, q, parents, true) == Some(s') && Tracks(p.doc, s', m')
              && q + parents in m' && m'[q + parents] == p.table
    decreases |parents|
  {
    s', m' := s, m;
    if parents == [] {
      assert q + parents == q;
    } else {
      var k, n := parents[0], |d.nodes|;
      var p := q + [k];
      assert p + parents[1..] == q + parents;
      WalkFirst(d, s, m, q, parents);
      if p !in s {
        var r := Implied(Spawn(d, m[q], k), n);
        s', m' := HungByHeader(d, s, m, q, k);
        s', m' := WalkIsThrough(r, s', m', p, parents[1..]);
      } else if !s[p].Given? {
        s', m' := WalkIsThrough(d, s, m, p, parents[1..]);
      }
    }
  }

  lemma HungByHeader(d: Doc, s: Shape, m: map<seq<Key>, Id>, q: seq<Key>, k: Key)
      returns (s': Shape, m': map<seq<Key>, Id>)
    requires Tracks(d, s, m) && q in m && q + [k] !in s
    ensures IsPlainTable(d, m[q]) && k !in d.nodes[m[q]].children
    ensures s' == s[q + [k] := ByHeaders] && m' == m[q + [k] := |d.nodes|]
    ensures Tracks(Implied(Spawn(d, m[q], k), |d.nodes|), s', m')
  {
    ChildOf(d, s, m, q, k);
    SpawnHangs(d, m[q], k);
    s', m' := Hung(d, Implied(Spawn(d, m[q], k), |d.nodes|), s, m, q, k, ByHeaders, |d.nodes|, |d.nodes|);
  }

  lemma HungByDots(d: Doc, s: Shape, m: map<seq<Key>, Id>, q: seq<Key>, k: Key)
      returns (s': Shape, m': map<seq<Key>, Id>)
    requires Tracks(d, s, m) && q in m && q + [k] !in s
    ensures IsPlainTable(d, m[q]) && k !in d.nodes[m[q]].children
    ensures s' == s[q + [k] := ByDots] && m' == m[q + [k] := |d.nodes|]
    ensures Tracks(Dotted(Spawn(d, m[q], k), |d.nodes|), s', m')
  {
    ChildOf(d, s, m, q, k);
    SpawnHangs(d, m[q], k);
    s', m' := Hung(d, Dotted(Spawn(d, m[q], k), |d.nodes|), s, m, q, k, ByDots, |d.nodes|, |d.nodes|);
  }

  // ---------------------------------------------------------------------------------------
  // A header's last key
  // ---------------------------------------------------------------------------------------

  lemma FirstElementHangs(d: Doc, t: Id, k: Key)
    requires Valid(d) && IsPlainTable(d, t) && k !in d.nodes[t].children
    ensures var n, r := |d.nodes|, FirstElement(d, t, k).doc;
            Hangs(d, r, t, k, n) && r.open == d.open && |r.nodes| == n + 2 && r.nodes[n + 1] == EMPTY_TABLE
            && r.nodes[n] == List([n + 1]) && n in r.tableArrays && FirstElement(d, t, k).table == n + 1
            && r.implicit == d.implicit && r.dotted == d.dotted
  {
  }

  lemma NewHeader(d: Doc, s: Shape, m: map<seq<Key>, Id>, q: seq<Key>, k: Key, isArray: bool)
      returns (m': map<seq<Key>, Id>)
    requires Tracks(d, s, m) && q in m && q + [k] !in s
    ensures var r, p := DefineIn(d, m[q], k, isArray), q + [k];
            r.Some? && Tracks(r.value.doc, s[p := if isArray then Elements else Defined], m')
            && p in m' && m'[p] == r.value.table
  {
    ChildOf(d, s, m, q, k);
    var n, s' := |d.nodes|, s;
    if isArray {
      FirstElementHangs(d, m[q], k);
      var r := FirstElement(d, m[q], k).doc;
      s', m' := Hung(d, r, s, m, q, k, Elements, n, n + 1);
    } else {
      SpawnHangs(d, m[q], k);
      s', m' := Hung(d, Spawn(d, m[q], k), s, m, q, k, Defined, n, n);
    }
  }

  /** The paths that stay when a table array gets a new element. */
  function Shortened(m: map<seq<Key>, Id>, p: seq<Key>, e: Id): map<seq<Key>, Id> {
    (map q | q in m && !Below(p, q) :: m[q])[p := e]
  }

  /** One more element: nothing else changes, but what was below the last one is out of reach. */
  ghost predicate Lengthened(d: Doc, r: Doc, a: Id) {
    a < |d.nodes| && d.nodes[a].List? && |r.nodes| == |d.nodes| + 1 && r.nodes[|d.nodes|] == EMPTY_TABLE
    && r.nodes[a] == List(d.nodes[a].elements + [|d.nodes|])
    && (forall i: Id :: i < |d.nodes| && i != a ==> r.nodes[i] == d.nodes[i])
    && r == d.(nodes := r.nodes)
  }

  lemma NextElement(d: Doc, s: Shape, m: map<seq<Key>, Id>, q: seq<Key>, k: Key, r: Doc)
      returns (m': map<seq<Key>, Id>)
    requires Tracks(d, s, m) && q in m && q + [k] in s && s[q + [k]] == Elements && Valid(r)
    requires k in d.nodes[m[q]].children && Lengthened(d, r, d.nodes[m[q]].children[k])
    ensures m' == Shortened(m, q + [k], |d.nodes|) && Tracks(r, Cleared(s, q + [k]), m')
  {
    var p := q + [k];
    m' := Shortened(m, p, |d.nodes|);
    ShortenedTables(d, s, m, p, r, d.nodes[m[q]].children[k]);
    forall u <- Cleared(s, p) | u != []
      ensures HungAt(r, Cleared(s, p), m', u)
    {
      LengthenedHung(d, s, m, q, k, r, u);
    }
    LengthenedTold(d, s, m, p, r);
  }

  lemma ShortenedTables(d: Doc, s: Shape, m: map<seq<Key>, Id>, p: seq<Key>, r: Doc, a: Id)
    requires Tracks(d, s, m) && p in s && p != [] && s[p] == Elements && Valid(r) && Lengthened(d, r, a)
    ensures var s', m' := Cleared(s, p), Shortened(m, p, |d.nodes|);
            Rooted(r, s', m') && (forall u :: u in m' <==> u in s' && !s'[u].Given?) && Once(m') && AllPlain(r, m')
    ensures forall u <- m :: m[u] < |d.nodes| && r.nodes[m[u]] == d.nodes[m[u]]
  {
    assert forall u <- m :: IsPlainTable(d, m[u]) && m[u] < |d.nodes| && r.nodes[m[u]] == d.nodes[m[u]];
    ShortenedKeys(s, m, p, |d.nodes|);
  }

  lemma ShortenedKeys(s: Shape, m: map<seq<Key>, Id>, p: seq<Key>, e: Id)
    requires (forall u :: u in m <==> u in s && !s[u].Given?) && Once(m) && (forall u <- m :: m[u] < e)
    requires p in s && p != [] && s[p] == Elements
    ensures var s', m' := Cleared(s, p), Shortened(m, p, e);
            (forall u :: u in m' <==> u in s' && !s'[u].Given?) && Once(m')
            && (forall u <- m' :: m'[u] == e || (u in m && m'[u] == m[u]))
            && ([] in m ==> [] in m' && m'[[]] == m[[]]) && ([] in s ==> [] in s' && s'[[]] == s[[]])
  {
  }

  lemma LengthenedHung(d: Doc, s: Shape, m: map<seq<Key>, Id>, q: seq<Key>, k: Key, r: Doc, u: seq<Key>)
    requires Tracks(d, s, m) && q in m && q + [k] in s && s[q + [k]] == Elements && Valid(r)
    requires k in d.nodes[m[q]].children && Lengthened(d, r, d.nodes[m[q]].children[k])
    requires u in Cleared(s, q + [k]) && u != []
    ensures HungAt(r, Cleared(s, q + [k]), Shortened(m, q + [k], |d.nodes|), u)
  {
    var p, a := q + [k], d.nodes[m[q]].children[k];
    FrontLast(q, k);
    FrontStays(p, u);
    assert HungAt(d, s, m, u) && HungAt(d, s, m, p);
    if u == p {
      NewLast(d, r, a, EnteredAt(m, p));
    } else {
      OtherChild(d, s, m, p, u, a);
      ElsewhereKindStays(d, r, s[u], d.nodes[m[Front(u)]].children[Last(u)], EnteredAt(m, u), a);
    }
  }

  lemma FrontStays(p: seq<Key>, u: seq<Key>)
    requires u != [] && !Below(p, u)
    ensures !(p <= Front(u))
  {
    assert p <= Front(u) ==> p <= u;
  }

  lemma NewLast(d: Doc, r: Doc, a: Id, e: Id)
    requires Valid(d) && Lengthened(d, r, a) && OfKind(d, Elements, a, e)
    ensures OfKind(r, Elements, a, |d.nodes|)
  {
    assert forall x: Id :: Kid(r.nodes[a], x) ==> x == |d.nodes| || Kid(d.nodes[a], x);
    assert Unlisted(r, |d.nodes|);
  }

  lemma OtherChild(d: Doc, s: Shape, m: map<seq<Key>, Id>, p: seq<Key>, u: seq<Key>, a: Id)
    requires Tracks(d, s, m) && p in s && u in s && p != [] && u != [] && u != p && s[p] == Elements
    requires HungAt(d, s, m, p) && HungAt(d, s, m, u) && a == d.nodes[m[Front(p)]].children[Last(p)]
    ensures d.nodes[m[Front(u)]].children[Last(u)] != a
  {
    assert m[p] == LastOf(d, a);
  }

  lemma ElsewhereKindStays(d: Doc, r: Doc, k: Kind, c: Id, e: Id, a: Id)
    requires Valid(d) && OfKind(d, k, c, e) && Lengthened(d, r, a) && c != a && e < |d.nodes|
    ensures OfKind(r, k, c, e)
  {
    assert c < |d.nodes|;
    assert Linked(d.nodes[c], |d.nodes|);
    if k.Elements? {
      assert forall x: Id :: Kid(d.nodes[c], x) ==> IsPlainTable(d, x) && x < |d.nodes|;
    }
    if k.Given? && d.nodes[c].List? {
      forall i | 0 <= i < |d.nodes[c].elements|
        ensures IsTable(d, d.nodes[c].elements[i]) <==> IsTable(r, d.nodes[c].elements[i])
      {
        assert Kid(d.nodes[c], d.nodes[c].elements[i]);
      }
    }
  }

  lemma LengthenedTold(d: Doc, s: Shape, m: map<seq<Key>, Id>, p: seq<Key>, r: Doc)
    requires Tracks(d, s, m) && p in s && |r.nodes| == |d.nodes| + 1 && r.nodes[|d.nodes|] == EMPTY_TABLE
    requires forall u <- m :: m[u] < |d.nodes| && r.nodes[m[u]] == d.nodes[m[u]]
    ensures AllTold(r, Cleared(s, p), Shortened(m, p, |d.nodes|))
  {
    var s', m' := Cleared(s, p), Shortened(m, p, |d.nodes|);
    forall u, j | u in m' && HasKey(r, m'[u], j)
      ensures u + [j] in s'
    {
      assert u != p && u in m && !Below(p, u);
      assert HasKey(d, m[u], j);
      FrontLast(u, j);
      if Below(p, u + [j]) {
        ProperPrefix(p, u + [j]);
      }
    }
  }

  /** A header for a table that headers below it have made. */
  lemma Promotes(d: Doc, s: Shape, m: map<seq<Key>, Id>, p: seq<Key>)
    requires Tracks(d, s, m) && p in s && s[p] == ByHeaders && p != [] && m[p] in d.implicit
    ensures Tracks(Promoted(d, m[p]), s[p := Defined], m)
  {
    var r, s' := Promoted(d, m[p]), s[p := Defined];
    RemovesOnce(d.implicit, m[p]);
    forall u <- s' | u != []
      ensures HungAt(r, s', m, u)
    {
      assert HungAt(d, s, m, u) && HungAt(d, s, m, p);
      PromotedKind(d, s[u], d.nodes[m[Front(u)]].children[Last(u)], EnteredAt(m, u), m[p]);
    }
    assert AllTold(r, s', m) by {
      assert forall u, j :: u in m && HasKey(r, m[u], j) ==> HasKey(d, m[u], j);
    }
  }

  lemma PromotedKind(d: Doc, k: Kind, c: Id, e: Id, x: Id)
    requires Valid(d) && x in d.implicit && OfKind(d, k, c, e)
    ensures k.ByHeaders? && c == x ==> OfKind(Promoted(d, x), Defined, c, e)
    ensures !(k.ByHeaders? && c == x) ==> OfKind(Promoted(d, x), k, c, e)
  {
    RemovesOnce(d.implicit, x);
  }

  lemma OnlyTablesMeans(d: Doc, s: Shape, m: map<seq<Key>, Id>, p: seq<Key>)
    requires Tracks(d, s, m) && p in m
    ensures IsPlainTable(d, m[p]) && (OnlyTables(d, m[p]) <==> TablesBelow(s, p))
  {
    var children := d.nodes[m[p]].children;
    forall k | k in children
      ensures p + [k] in s && Front(p + [k]) == p && p + [k] != []
      ensures s[p + [k]] != Given(false) <==> IsTable(d, children[k]) || IsArrayOfTables(d, children[k])
    {
      TablesAtPath(d, s, m, p, k);
    }
    if OnlyTables(d, m[p]) {
      forall q <- s | q != [] && Front(q) == p
        ensures s[q] != Given(false)
      {
        assert HungAt(d, s, m, q) && q == p + [Last(q)];
      }
    }
  }

  lemma TablesAtPath(d: Doc, s: Shape, m: map<seq<Key>, Id>, p: seq<Key>, k: Key)
    requires Tracks(d, s, m) && p in m && IsTable(d, m[p]) && k in d.nodes[m[p]].children
    ensures p + [k] in s && Front(p + [k]) == p && p + [k] != []
    ensures var c := d.nodes[m[p]].children[k];
            s[p + [k]] != Given(false) <==> IsTable(d, c) || IsArrayOfTables(d, c)
  {
    ChildOf(d, s, m, p, k);
    FrontLast(p, k);
    TablesAtKind(d, s[p + [k]], d.nodes[m[p]].children[k], EnteredAt(m, p + [k]));
  }

  lemma TablesAtKind(d: Doc, k: Kind, c: Id, e: Id)
    requires OfKind(d, k, c, e)
    ensures k != Given(false) <==> IsTable(d, c) || IsArrayOfTables(d, c)
  {
    if k.Elements? {
      assert forall i :: 0 <= i < |d.nodes[c].elements| ==> Kid(d.nodes[c], d.nodes[c].elements[i]);
    }
  }

  lemma OldHeader(d: Doc, s: Shape, m: map<seq<Key>, Id>, q: seq<Key>, k: Key, isArray: bool)
      returns (m': map<seq<Key>, Id>)
    requires Tracks(d, s, m) && q in m && q + [k] in s
    ensures var r, p := DefineIn(d, m[q], k, isArray), q + [k];
            (r.Some? <==> HeadedLast(s, p, isArray).Some?)
            && (r.Some? ==> Tracks(r.value.doc, HeadedLast(s, p, isArray).value, m')
                            && p in m' && m'[p] == r.value.table)
  {
    var p := q + [k];
    RedefineMeans(d, s, m, q, k, isArray);
    m' := m;
    if isArray && s[p].Elements? {
      var c := d.nodes[m[q]].children[k];
      m' := NextElement(d, s, m, q, k, Append(Create(d, EMPTY_TABLE), c, |d.nodes|));
    } else if !isArray && s[p].ByHeaders? && TablesBelow(s, p) {
      Promotes(d, s, m, p);
    }
  }

  lemma RedefineMeans(d: Doc, s: Shape, m: map<seq<Key>, Id>, q: seq<Key>, k: Key, isArray: bool)
    requires Tracks(d, s, m) && q in m && q + [k] in s
    ensures IsTable(d, m[q]) && k in d.nodes[m[q]].children
    ensures var r, p, c := DefineIn(d, m[q], k, isArray), q + [k], d.nodes[m[q]].children[k];
            if isArray && s[p].Elements? then
              c < |d.nodes| && d.nodes[c].List? && r.Some? && r.value.table == |d.nodes|
                && Lengthened(d, r.value.doc, c)
              && r.value.doc == Append(Create(d, EMPTY_TABLE), c, |d.nodes|)
            else if !isArray && s[p].ByHeaders? && TablesBelow(s, p) then
              p in m && m[p] in d.implicit && r == Some(Place(Promoted(d, m[p]), m[p]))
            else r.None?
  {
    ChildOf(d, s, m, q, k);
    assert Kid(d.nodes[m[q]], d.nodes[m[q]].children[k]);
    if s[q + [k]].ByHeaders? {
      OnlyTablesMeans(d, s, m, q + [k]);
    }
  }

  /** A header is accepted as its keys and the shape say, and so the shape goes on. */
  lemma HeaderIsHeaded(d: Doc, s: Shape, m: map<seq<Key>, Id>, keys: Keys, isArray: bool)
      returns (m': map<seq<Key>, Id>)
    requires Tracks(d, s, m)
    ensures var r, p := Define(d, keys, isArray), Path(keys);
            (r.Some? <==> Headed(s, keys, isArray).Some?)
            && (r.Some? ==> Tracks(r.value.doc, Headed(s, keys, isArray).value, m')
                            && p in m' && m'[p] == r.value.table)
  {
    var s';
    s', m' := WalkIsThrough(d, s, m, [], keys.parents);
    assert [] + keys.parents == keys.parents;
    var w := Walk(d, ROOT, keys.parents);
    if w.Some? {
      if Path(keys) in s' {
        m' := OldHeader(w.value.doc, s', m', keys.parents, keys.last, isArray);
      } else {
        m' := NewHeader(w.value.doc, s', m', keys.parents, keys.last, isArray);
      }
    }
  }

  // ---------------------------------------------------------------------------------------
  // Key-value pairs
  // ---------------------------------------------------------------------------------------

  lemma EnterFirst(d: Doc, s: Shape, m: map<seq<Key>, Id>, q: seq<Key>, parents: seq<Key>)
    requires Tracks(d, s, m) && q in m && parents != []
    ensures var p := q + [parents[0]];
            if p !in s then
              parents[0] !in d.nodes[m[q]].children
              && Enter(d, m[q], parents)
                == Enter(Dotted(Spawn(d, m[q], parents[0]), |d.nodes|), |d.nodes|, parents[1..])
            else if !Passable(s[p], false) then Enter(d, m[q], parents).None?
            else p in m && Enter(d, m[q], parents) == Enter(d, m[p], parents[1..])
  {
    ChildOf(d, s, m, q, parents[0]);
    if q + [parents[0]] in s {
      assert Kid(d.nodes[m[q]], d.nodes[m[q]].children[parents[0]]);
    }
  }

  /** A dotted key's parents can be entered exactly if no value, array or table with a header is in the way. */
  lemma {:induction false} EnterIsThrough(d: Doc, s: Shape, m: map<seq<Key>, Id>, q: seq<Key>, parents: seq<Key>,
                                          from: seq<Key>)
      returns (s': Shape, m': map<seq<Key>, Id>)
    requires Tracks(d, s, m) && q in m && from in m
    ensures Enter(d, m[q], parents).Some? <==> Through(s, q, parents, false).Some?
    ensures Enter(d, m[q], parents).Some? ==>
              var p := Enter(d, m[q], parents).value;
              Through(s, q, parents, false) == Some(s') && Tracks(p.doc, s', m')
              && q + parents in m' && m'[q + parents] == p.table && from in m' && m'[from] == m[from]
    decreases |parents|
  {
    s', m' := s, m;
    if parents == [] {
      assert q + parents == q;
    } else {
      var p := q + [parents[0]];
      assert p + parents[1..] == q + parents;
      EnterFirst(d, s, m, q, parents);
      if p !in s {
        var r := Dotted(Spawn(d, m[q], parents[0]), |d.nodes|);
        s', m' := HungByDots(d, s, m, q, parents[0]);
        s', m' := EnterIsThrough(r, s', m', p, parents[1..], from);
      } else if Passable(s[p], false) {
        s', m' := EnterIsThrough(d, s, m, p, parents[1..], from);
      }
    }
  }

  /** Only new tables are made by dots. */
  ghost predicate DotsAreNew(d: Doc, r: Doc) {
    |d.nodes| <= |r.nodes| && (forall i <- d.dotted :: i in r.dotted)
    && forall i <- r.dotted :: i in d.dotted || |d.nodes| <= i
  }

  lemma {:induction false} EnterDots(d: Doc, t: Id, parents: seq<Key>)
    requires Valid(d) && IsTable(d, t) && Enter(d, t, parents).Some?
    ensures DotsAreNew(d, Enter(d, t, parents).value.doc)
    decreases |parents|
  {
    if parents != [] {
      if parents[0] in d.nodes[t].children {
        var c := d.nodes[t].children[parents[0]];
        assert Kid(d.nodes[t], c);
        EnterDots(d, c, parents[1..]);
      } else {
        EnterDots(Dotted(Spawn(d, t, parents[0]), |d.nodes|), |d.nodes|, parents[1..]);
      }
    }
  }

  lemma {:induction false} InsertDots(d: Doc, t: Id, pair: Pair, depth: nat)
    requires Valid(d) && IsTable(d, t) && Insert(d, t, pair, depth).Some?
    ensures DotsAreNew(d, Insert(d, t, pair, depth).value)
    decreases pair, 1
  {
    var p := Enter(d, t, pair.keys.parents).value;
    EnterDots(d, t, pair.keys.parents);
    BuildDots(p.doc, pair.value, depth);
  }

  lemma {:induction false} BuildDots(d: Doc, v: Value, depth: nat)
    requires Valid(d) && Build(d, v, depth).Some?
    ensures DotsAreNew(d, Build(d, v, depth).value)
    decreases v, 0
  {
    match v
    case Scalar(_) =>
    case Array(elements) => BuildAllDots(Create(d, List([])), |d.nodes|, elements, depth + 1);
    case Inline(pairs) => InsertAllDots(Opened(Create(d, Table(map[], true)), |d.nodes|), |d.nodes|, pairs, depth + 1);
  }

  lemma {:induction false} BuildAllDots(d: Doc, a: Id, elements: seq<Value>, depth: nat)
    requires Valid(d) && a < |d.nodes| && d.nodes[a].List? && a !in d.tableArrays
    requires BuildAll(d, a, elements, depth).Some?
    ensures DotsAreNew(d, BuildAll(d, a, elements, depth).value)
    decreases elements, 0
  {
    if elements != [] {
      BuildDots(d, elements[0], depth);
      BuildAllDots(Append(Build(d, elements[0], depth).value, a, |d.nodes|), a, elements[1..], depth);
    }
  }

  lemma {:induction false} InsertAllDots(d: Doc, t: Id, pairs: seq<Pair>, depth: nat)
    requires Valid(d) && IsTable(d, t) && InsertAll(d, t, pairs, depth).Some?
    ensures DotsAreNew(d, InsertAll(d, t, pairs, depth).value)
    decreases pairs, 0
  {
    if pairs != [] {
      InsertDots(d, t, pairs[0], depth);
      InsertAllDots(Insert(d, t, pairs[0], depth).value, t, pairs[1..], depth);
    }
  }

  /** A value is hung as what it is. */
  lemma ValueHangs(d: Doc, t: Id, k: Key, v: Value)
    requires Valid(d) && d.open == [] && IsPlainTable(d, t) && k !in d.nodes[t].children && Build(d, v, 0).Some?
    ensures var r := Emplace(Build(d, v, 0).value, t, k, |d.nodes|);
            Hangs(d, r, t, k, |d.nodes|) && r.open == [] && OfKind(r, Given(TablesOnly(v)), |d.nodes|, ROOT)
  {
    var b := Build(d, v, 0).value;
    BuildIs(d, v, 0);
    BuildDots(d, v, 0);
    assert b.nodes[t] == d.nodes[t];
    PassesForTable(b, |d.nodes|, v);
    TablesAttached(b, t, k, |d.nodes|);
  }

  lemma PassesForTable(d: Doc, id: Id, v: Value)
    requires Denotes(d, id, v)
    ensures TablesOnly(v) <==> IsTable(d, id) || IsArrayOfTables(d, id)
  {
    if v.Array? {
      forall i | 0 <= i < |v.elements|
        ensures v.elements[i].Inline? <==> IsTable(d, d.nodes[id].elements[i])
      {
        assert Denotes(d, d.nodes[id].elements[i], v.elements[i]);
      }
    }
  }

  lemma TablesAttached(d: Doc, t: Id, k: Key, c: Id)
    requires Valid(d) && IsPlainTable(d, t) && k !in d.nodes[t].children && c < |d.nodes| && Settled(d, c)
    ensures var r := Attach(d, t, k, c);
            Settled(r, c) && r.nodes[c] == d.nodes[c]
            && (IsTable(r, c) || IsArrayOfTables(r, c) <==> IsTable(d, c) || IsArrayOfTables(d, c))
  {
  }

  /** A value after its keys' parents. */
  lemma ValueIsGiven(d: Doc, s: Shape, m: map<seq<Key>, Id>, q: seq<Key>, k: Key, v: Value)
    requires Tracks(d, s, m) && q in m
    ensures IsTable(d, m[q]) && (k in d.nodes[m[q]].children <==> q + [k] in s)
    ensures Build(d, v, 0).Some? <==> Acceptable(v, 0)
    ensures Build(d, v, 0).Some? && q + [k] !in s ==>
              Tracks(Emplace(Build(d, v, 0).value, m[q], k, |d.nodes|), s[q + [k] := Given(TablesOnly(v))], m)
  {
    ChildOf(d, s, m, q, k);
    BuildAccepts(d, v, 0);
    if Build(d, v, 0).Some? && q + [k] !in s {
      ValueHangs(d, m[q], k, v);
      var r := Emplace(Build(d, v, 0).value, m[q], k, |d.nodes|);
      var s', m' := Hung(d, r, s, m, q, k, Given(TablesOnly(v)), |d.nodes|, ROOT);
    }
  }

  /** A pair is accepted as its keys, its value and the shape say, and so the shape goes on. */
  lemma PairIsPaired(d: Doc, s: Shape, m: map<seq<Key>, Id>, q: seq<Key>, pair: Pair)
      returns (m': map<seq<Key>, Id>)
    requires Tracks(d, s, m) && q in m
    ensures IsTable(d, m[q])
    ensures var r := Insert(d, m[q], pair, 0);
            (r.Some? <==> Paired(s, q, pair).Some?)
            && (r.Some? ==> Tracks(r.value, Paired(s, q, pair).value, m') && q in m' && m'[q] == m[q])
  {
    var s';
    s', m' := EnterIsThrough(d, s, m, q, pair.keys.parents, q);
    if Enter(d, m[q], pair.keys.parents).Some? {
      PairAfterParents(d, m[q], s, q, pair, s', m');
    }
  }

  lemma PairAfterParents(d: Doc, t: Id, s: Shape, q: seq<Key>, pair: Pair, w: Shape, m: map<seq<Key>, Id>)
    requires Valid(d) && IsTable(d, t) && Enter(d, t, pair.keys.parents).Some?
    requires var e := Enter(d, t, pair.keys.parents).value;
             Tracks(e.doc, w, m) && q + pair.keys.parents in m && m[q + pair.keys.parents] == e.table
    requires Through(s, q, pair.keys.parents, false) == Some(w)
    ensures var r := Insert(d, t, pair, 0);
            (r.Some? <==> Paired(s, q, pair).Some?) && (r.Some? ==> Tracks(r.value, Paired(s, q, pair).value, m))
  {
    var e := Enter(d, t, pair.keys.parents).value;
    ValueIsGiven(e.doc, w, m, q + pair.keys.parents, pair.keys.last, pair.value);
    InsertEntered(d, t, pair);
  }

  lemma InsertEntered(d: Doc, t: Id, pair: Pair)
    requires Valid(d) && IsTable(d, t) && Enter(d, t, pair.keys.parents).Some?
    ensures var e := Enter(d, t, pair.keys.parents).value;
            var b := Build(e.doc, pair.value, 0);
            (b.Some? ==> IsTable(b.value, e.table) && |e.doc.nodes| < |b.value.nodes|)
            && Insert(d, t, pair, 0) == if pair.keys.last in e.doc.nodes[e.table].children || b.None? then None
                                        else Some(Emplace(b.value, e.table, pair.keys.last, |e.doc.nodes|))
  {
  }

  // ---------------------------------------------------------------------------------------
  // Documents
  // ---------------------------------------------------------------------------------------

  lemma StatementIsShaped(st: State, x: Shaped, m: map<seq<Key>, Id>, statement: Statement)
      returns (m': map<seq<Key>, Id>)
    requires Sound(st) && Tracks(st.doc, x.shape, m) && x.current in m && m[x.current] == st.current
    ensures var r, y := Step(st, statement), ShapeStep(x, statement);
            (r.Some? <==> y.Some?)
            && (r.Some? ==> Tracks(r.value.doc, y.value.shape, m') && y.value.current in m'
                            && m'[y.value.current] == r.value.current)
  {
    match statement
    case Header(keys, isArray) => m' := HeaderIsHeaded(st.doc, x.shape, m, keys, isArray);
    case KeyValue(pair) => m' := PairIsPaired(st.doc, x.shape, m, x.current, pair);
  }

  lemma {:induction false} RunIsShaped(st: State, x: Shaped, m: map<seq<Key>, Id>, run: seq<Statement>)
    requires Sound(st) && Tracks(st.doc, x.shape, m) && x.current in m && m[x.current] == st.current
    ensures RunFrom(st, run).Some? <==> ShapeOf(x, run).Some?
    decreases |run|
  {
    if run != [] {
      var m' := StatementIsShaped(st, x, m, run[0]);
      if Step(st, run[0]).Some? {
        RunIsShaped(Step(st, run[0]).value, ShapeStep(x, run[0]).value, m', run[1..]);
      }
    }
  }

  /** The parser accepts a document exactly if, statement by statement, the keys before allow it. */
  lemma DocumentsAccepted(run: seq<Statement>)
    ensures RunFrom(START, run).Some? <==> ShapeOf(NOTHING, run).Some?
  {
    var m: map<seq<Key>, Id> := map[[] := ROOT];
    assert Tracks(START.doc, NOTHING.shape, m);
    RunIsShaped(START, NOTHING, m, run);
  }

  const IN_C := Header(Keys(["a", "b"], "c"), false)
  const IN_A := Header(Keys([], "a"), false)

  const AFTER_C: Shape := map[[] := Defined, ["a"] := ByHeaders, ["a", "b"] := ByHeaders, ["a", "b", "c"] := Defined]

  lemma AfterC()
    ensures Headed(NOTHING.shape, IN_C.keys, false) == Some(AFTER_C) && Path(IN_C.keys) == ["a", "b", "c"]
  {
    var s := NOTHING.shape[["a"] := ByHeaders];
    var w := s[["a", "b"] := ByHeaders];
    assert [] + ["a"] == ["a"] && ["a"] + ["b"] == ["a", "b"] && ["a", "b"] + ["c"] == ["a", "b", "c"];
    assert ["a", "b"][1..] == ["b"] && ["b"][1..] == [];
    assert Through(w, ["a", "b"], [], true) == Some(w);
    assert Through(s, ["a"], ["b"], true) == Some(w);
    assert Through(NOTHING.shape, [], ["a", "b"], true) == Some(w);
    assert HeadedLast(w, ["a", "b", "c"], false) == Some(w[["a", "b", "c"] := Defined]);
    assert w[["a", "b", "c"] := Defined] == AFTER_C;
  }

  lemma AfterA()
    ensures Headed(AFTER_C, IN_A.keys, false) == Some(AFTER_C[["a"] := Defined]) && Path(IN_A.keys) == ["a"]
  {
    assert [] + ["a"] == ["a"];
    assert Through(AFTER_C, [], [], true) == Some(AFTER_C);
    assert AFTER_C[["a"]] == ByHeaders && TablesBelow(AFTER_C, ["a"]);
    assert HeadedLast(AFTER_C, ["a"], false) == Some(AFTER_C[["a"] := Defined]);
  }

  lemma InB(v: Value)
    requires Acceptable(v, 0)
    ensures Paired(AFTER_C[["a"] := Defined], ["a"], Pair(Keys(["b"], "x"), v)).Some?
  {
    var s := AFTER_C[["a"] := Defined];
    assert ["a"] + ["b"] == ["a", "b"] && ["b"][1..] == [];
    assert s[["a", "b"]] == ByHeaders;
    var x := ["a", "b"] + ["x"];
    assert |x| == 3 && x[2] == "x" && x != ["a", "b", "c"];
  }

  lemma ShapeOfFirst(x: Shaped, st: Statement, y: Shaped, rest: seq<Statement>)
    requires ShapeStep(x, st) == Some(y)
    ensures ShapeOf(x, [st] + rest) == ShapeOf(y, rest)
  {
    assert ([st] + rest)[1..] == rest;
  }

  /** Dotted keys go on into a table that a header of another table has made: after [a.b.c] and [a], b.x is accepted. */
  lemma DotsGoThroughHeaders(v: Value)
    requires Acceptable(v, 0)
    ensures RunFrom(START, [IN_C, IN_A, KeyValue(Pair(Keys(["b"], "x"), v))]).Some?
  {
    var third := KeyValue(Pair(Keys(["b"], "x"), v));
    AfterC();
    AfterA();
    InB(v);
    var x := Shaped(AFTER_C[["a"] := Defined], ["a"]);
    ShapeOfFirst(x, third, ShapeStep(x, third).value, []);
    ShapeOfFirst(Shaped(AFTER_C, ["a", "b", "c"]), IN_A, x, [third]);
    ShapeOfFirst(NOTHING, IN_C, Shaped(AFTER_C, ["a", "b", "c"]), [IN_A, third]);
    assert [IN_C] + [IN_A, third] == [IN_C, IN_A, third];
    DocumentsAccepted([IN_C, IN_A, third]);
  }
}
