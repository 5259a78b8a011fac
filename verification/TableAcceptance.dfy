/**
  Which values the TOML parser accepts (util/toml.hpp, parse_inline_table and
  parse_key_value_pair_and_insert): exactly those in whose inline tables no key is defined twice, and
  that are not nested too deep.
 */
module TableAcceptance {
  import opened Wrappers
  import opened TableTree

  /** Neither path is the other, or continues it. */
  predicate Diverge(p: seq<Key>, q: seq<Key>) { !(p <= q) && !(q <= p) }

  /** In every inline table no pair's keys repeat, continue or cut short those of another pair. */
  predicate WellFormed(v: Value)
    decreases v
  {
    match v
    case Scalar(_) => true
    case Array(elements) => forall i :: 0 <= i < |elements| ==> WellFormed(elements[i])
    case Inline(pairs) =>
      (forall i :: 0 <= i < |pairs| ==> WellFormed(pairs[i].value))
      && forall i, j :: 0 <= i < j < |pairs| ==> Diverge(Path(pairs[i].keys), Path(pairs[j].keys))
  }

  /** How deep a value's own values are nested, itself included. */
  function Depth(v: Value): (n: nat)
    ensures n > 0
    decreases v
  {
    match v
    case Scalar(_) => 1
    case Array(elements) => 1 + DepthOfAll(elements)
    case Inline(pairs) => 1 + DepthOfPairs(pairs)
  }

  function DepthOfAll(elements: seq<Value>): (n: nat)
    decreases elements
  {
    if elements == [] then 0 else Larger(Depth(elements[0]), DepthOfAll(elements[1..]))
  }

  function DepthOfPairs(pairs: seq<Pair>): (n: nat)
    decreases pairs
  {
    if pairs == [] then 0 else Larger(DepthOfPair(pairs[0]), DepthOfPairs(pairs[1..]))
  }

  function DepthOfPair(pair: Pair): nat
    decreases pair
  {
    Depth(pair.value)
  }

  function Larger(a: nat, b: nat): nat { if a < b then b else a }

  /** A value that may stand inside so many others. */
  predicate Acceptable(v: Value, depth: nat) { WellFormed(v) && depth + Depth(v) <= MAX_NESTED_VALUES }

  function Front(q: seq<Key>): seq<Key>
    requires q != []
  {
    q[..|q| - 1]
  }

  function Last(q: seq<Key>): Key
    requires q != []
  {
    q[|q| - 1]
  }

  /** The child of a table that a longer path leads to. */
  ghost predicate Leads(d: Doc, t: Id, key: Key, c: Id) {
    IsTable(d, t) && key in d.nodes[t].children && d.nodes[t].children[key] == c
  }

  /** The tables below t that dotted keys have made, by their paths, and the paths of the values below them: nothing
      else is there. */
  ghost predicate Skeleton(d: Doc, t: Id, m: map<seq<Key>, Id>, paths: set<seq<Key>>) {
    [] in m && m[[]] == t && Tables(d, m) && Chained(d, m) && Once(m) && Hung(d, m, paths) && AllAccounted(d, m, paths)
  }

  ghost predicate Tables(d: Doc, m: map<seq<Key>, Id>) {
    forall q <- m :: IsTable(d, m[q]) && (q == [] || m[q] in d.dotted)
  }

  ghost predicate Chained(d: Doc, m: map<seq<Key>, Id>) {
    forall q <- m :: q != [] ==> Front(q) in m && Leads(d, m[Front(q)], Last(q), m[q])
  }

  ghost predicate Once(m: map<seq<Key>, Id>) { forall q <- m, r <- m :: m[q] == m[r] ==> q == r }

  ghost predicate Hung(d: Doc, m: map<seq<Key>, Id>, paths: set<seq<Key>>) {
    forall p <- paths :: p != [] && p !in m && Front(p) in m && HasKey(d, m[Front(p)], Last(p))
  }

  predicate HasKey(d: Doc, t: Id, k: Key) { IsTable(d, t) && k in d.nodes[t].children }

  ghost predicate AllAccounted(d: Doc, m: map<seq<Key>, Id>, paths: set<seq<Key>>) {
    forall q, k :: q in m && HasKey(d, m[q], k) ==> Accounted(d, m, paths, q + [k], d.nodes[m[q]].children[k])
  }

  ghost predicate Accounted(d: Doc, m: map<seq<Key>, Id>, paths: set<seq<Key>>, q: seq<Key>, c: Id) {
    (q in m && m[q] == c) || (q in paths && Settled(d, c))
  }

  /** Dotted tables were made on the way to something. */
  ghost predicate Covered(m: map<seq<Key>, Id>, paths: set<seq<Key>>) {
    forall q <- m :: q != [] ==> exists p <- paths :: q <= p
  }

  lemma {:induction false} PrefixesAreTables(d: Doc, t: Id, m: map<seq<Key>, Id>, paths: set<seq<Key>>, q: seq<Key>,
                                             r: seq<Key>)
    requires Skeleton(d, t, m, paths) && q in m && r <= q
    ensures r in m
    decreases |q|
  {
    if |r| < |q| {
      assert r <= Front(q);
      PrefixesAreTables(d, t, m, paths, Front(q), r);
    } else {
      assert r == q;
    }
  }

  lemma FrontLast(q: seq<Key>, k: Key)
    ensures Front(q + [k]) == q && Last(q + [k]) == k
  {
  }

  /** Nodes added elsewhere leave the skeleton alone. */
  lemma SkeletonStays(d: Doc, r: Doc, t: Id, m: map<seq<Key>, Id>, paths: set<seq<Key>>)
    requires Skeleton(d, t, m, paths) && |d.nodes| <= |r.nodes| && r.tableArrays == d.tableArrays
    requires forall i: Id :: i < |d.nodes| ==> r.nodes[i] == d.nodes[i]
    requires d.dotted <= r.dotted
    ensures Skeleton(r, t, m, paths)
  {
    AccountedStays(d, r, m, paths);
  }

  lemma AccountedStays(d: Doc, r: Doc, m: map<seq<Key>, Id>, paths: set<seq<Key>>)
    requires Tables(d, m) && AllAccounted(d, m, paths) && |d.nodes| <= |r.nodes| && r.tableArrays == d.tableArrays
    requires forall i: Id :: i < |d.nodes| ==> r.nodes[i] == d.nodes[i]
    ensures AllAccounted(r, m, paths)
  {
    forall q, k | q in m && HasKey(r, m[q], k)
      ensures Accounted(r, m, paths, q + [k], r.nodes[m[q]].children[k])
    {
      assert HasKey(d, m[q], k) && Accounted(d, m, paths, q + [k], d.nodes[m[q]].children[k]);
    }
  }

  lemma NewKey(d: Doc, t: Id, m: map<seq<Key>, Id>, paths: set<seq<Key>>, q: seq<Key>, k: Key)
    requires Skeleton(d, t, m, paths) && q in m && k !in d.nodes[m[q]].children
    ensures q + [k] !in m && q + [k] !in paths
  {
    FrontLast(q, k);
  }

  lemma AttachedNodes(d: Doc, t: Id, k: Key, c: Id)
    requires Valid(d) && IsTable(d, t) && k !in d.nodes[t].children && c < |d.nodes|
    ensures var r := Attach(d, t, k, c);
            (forall i: Id :: IsTable(d, i) ==> IsTable(r, i))
            && (forall i: Id, j :: HasKey(r, i, j) <==> HasKey(d, i, j) || (i == t && j == k))
            && (forall i: Id, j :: HasKey(d, i, j) ==> r.nodes[i].children[j] == d.nodes[i].children[j])
            && r.nodes[t].children[k] == c
            && (forall i: Id :: Settled(d, i) ==> Settled(r, i))
  {
  }

  /** A value hung under a table of the skeleton. */
  lemma ValueHung(d: Doc, t: Id, m: map<seq<Key>, Id>, paths: set<seq<Key>>, q: seq<Key>, k: Key, c: Id)
    requires Valid(d) && Skeleton(d, t, m, paths) && q in m && k !in d.nodes[m[q]].children && Settled(d, c)
    ensures q + [k] !in m && Skeleton(Attach(d, m[q], k, c), t, m, paths + {q + [k]})
  {
    var r, all := Attach(d, m[q], k, c), paths + {q + [k]};
    NewKey(d, t, m, paths, q, k);
    FrontLast(q, k);
    AttachedNodes(d, m[q], k, c);
    assert Chained(r, m) by {
      forall u <- m | u != []
        ensures Leads(r, m[Front(u)], Last(u), m[u])
      {
        assert Leads(d, m[Front(u)], Last(u), m[u]) && HasKey(d, m[Front(u)], Last(u));
      }
    }
    forall u, j | u in m && HasKey(r, m[u], j)
      ensures Accounted(r, m, all, u + [j], r.nodes[m[u]].children[j])
    {
      if HasKey(d, m[u], j) {
        assert Accounted(d, m, paths, u + [j], d.nodes[m[u]].children[j]);
      }
    }
  }

  lemma StillChained(d: Doc, r: Doc, m: map<seq<Key>, Id>, q: seq<Key>, k: Key, c: Id)
    requires Tables(d, m) && Chained(d, m) && q in m && q + [k] !in m && Leads(r, m[q], k, c)
    requires forall i: Id, j :: HasKey(d, i, j) ==> HasKey(r, i, j) && r.nodes[i].children[j] == d.nodes[i].children[j]
    ensures Chained(r, m[q + [k] := c])
  {
    var all := m[q + [k] := c];
    FrontLast(q, k);
    forall u <- all | u != []
      ensures Front(u) in all && Leads(r, all[Front(u)], Last(u), all[u])
    {
      if u != q + [k] {
        assert Leads(d, m[Front(u)], Last(u), m[u]) && HasKey(d, m[Front(u)], Last(u));
      }
    }
  }

  /** A dotted table made under a table of the skeleton. */
  lemma TableHung(d: Doc, t: Id, m: map<seq<Key>, Id>, paths: set<seq<Key>>, q: seq<Key>, k: Key, c: Id)
    requires Valid(d) && Skeleton(d, t, m, paths) && q in m && k !in d.nodes[m[q]].children
    requires c < |d.nodes| && (forall r <- m :: m[r] != c) && d.nodes[c] == EMPTY_TABLE && c in d.dotted
    ensures q + [k] !in m && q + [k] !in paths && Skeleton(Attach(d, m[q], k, c), t, m[q + [k] := c], paths)
  {
    var r, all := Attach(d, m[q], k, c), m[q + [k] := c];
    NewKey(d, t, m, paths, q, k);
    FrontLast(q, k);
    AttachedNodes(d, m[q], k, c);
    StillChained(d, r, m, q, k, c);
    StillAccounted(d, r, m, paths, q, k, c);
  }

  lemma StillAccounted(d: Doc, r: Doc, m: map<seq<Key>, Id>, paths: set<seq<Key>>, q: seq<Key>, k: Key, c: Id)
    requires Tables(d, m) && AllAccounted(d, m, paths) && q in m && q + [k] !in m
    requires c < |d.nodes| && d.nodes[c] == EMPTY_TABLE && (forall u <- m :: m[u] == m[q] ==> u == q)
    requires forall i: Id, j :: HasKey(r, i, j) <==> HasKey(d, i, j) || (i == m[q] && j == k)
    requires forall i: Id, j :: HasKey(d, i, j) ==> HasKey(r, i, j) && r.nodes[i].children[j] == d.nodes[i].children[j]
    requires Leads(r, m[q], k, c) && forall i: Id :: Settled(d, i) ==> Settled(r, i)
    requires c != m[q]
    ensures AllAccounted(r, m[q + [k] := c], paths)
  {
    var all := m[q + [k] := c];
    forall u, j | u in all && HasKey(r, all[u], j)
      ensures Accounted(r, all, paths, u + [j], r.nodes[all[u]].children[j])
    {
      if u in m && HasKey(d, m[u], j) {
        assert Accounted(d, m, paths, u + [j], d.nodes[m[u]].children[j]);
      }
    }
  }

  /** A dotted table made, as entering makes it. */
  lemma TableMade(d: Doc, t: Id, m: map<seq<Key>, Id>, paths: set<seq<Key>>, q: seq<Key>, k: Key)
    requires Valid(d) && Skeleton(d, t, m, paths) && q in m && k !in d.nodes[m[q]].children
    ensures q + [k] !in m && q + [k] !in paths
    ensures Skeleton(Dotted(Spawn(d, m[q], k), |d.nodes|), t, m[q + [k] := |d.nodes|], paths)
  {
    var c := |d.nodes|;
    var x := Dotted(Create(d, EMPTY_TABLE), c);
    SkeletonStays(d, x, t, m, paths);
    TableHung(x, t, m, paths, q, k, c);
    assert Dotted(Spawn(d, m[q], k), c) == Attach(x, m[q], k, c);
  }

  lemma NoPathIsTable(d: Doc, t: Id, m: map<seq<Key>, Id>, paths: set<seq<Key>>, q: seq<Key>)
    requires Skeleton(d, t, m, paths) && q in m
    ensures forall p <- paths :: !(q <= p && p <= q)
  {
    forall p <- paths
      ensures !(q <= p && p <= q)
    {
      BothPrefixes(p, q);
    }
  }

  lemma BothPrefixes(p: seq<Key>, q: seq<Key>)
    ensures p <= q && q <= p ==> p == q
  {
  }

  lemma ProperPrefix(q: seq<Key>, p: seq<Key>)
    requires q <= p && q != p
    ensures p != [] && q <= Front(p)
  {
    if |q| == |p| {
      BothPrefixes(p, q);
    }
  }

  lemma NextKey(q: seq<Key>, p: seq<Key>, parents: seq<Key>)
    requires parents != [] && q != p
    ensures q <= p <= q + parents <==> q + [parents[0]] <= p <= q + [parents[0]] + parents[1..]
  {
    assert q + parents == q + [parents[0]] + parents[1..];
    if q <= p <= q + parents {
      ProperPrefix(q, p);
      assert p[|q|] == (q + parents)[|q|] == parents[0];
    }
  }

  /** What is not there has nothing below it. */
  lemma NothingBelow(d: Doc, t: Id, m: map<seq<Key>, Id>, paths: set<seq<Key>>, q: seq<Key>)
    requires Skeleton(d, t, m, paths) && q !in m && q !in paths
    ensures forall p <- paths :: !(q <= p)
  {
    forall p <- paths
      ensures !(q <= p)
    {
      if q <= p {
        ProperPrefix(q, p);
        PrefixesAreTables(d, t, m, paths, Front(p), q);
      }
    }
  }

  /** Entering stops exactly at a value: when a part of the keys is a value's path. */
  lemma {:induction false} EnterAccepts(d: Doc, t: Id, m: map<seq<Key>, Id>, paths: set<seq<Key>>, q: seq<Key>,
                                        parents: seq<Key>)
      returns (m': map<seq<Key>, Id>)
    requires Valid(d) && Skeleton(d, t, m, paths) && q in m
    ensures Enter(d, m[q], parents).Some? <==> forall p <- paths :: !(q <= p <= q + parents)
    ensures Enter(d, m[q], parents).Some? ==>
              var e := Enter(d, m[q], parents).value;
              Skeleton(e.doc, t, m', paths) && q + parents in m' && e.table == m'[q + parents]
              && (forall r <- m' :: r in m || r <= q + parents) && forall r <- m :: r in m'
    decreases |parents|, 1
  {
    m' := m;
    if parents == [] {
      assert q + parents == q;
      NoPathIsTable(d, t, m, paths, q);
    } else {
      OnePrefix(paths, q, parents);
      if parents[0] in d.nodes[m[q]].children {
        m' := EnterOld(d, t, m, paths, q, parents);
      } else {
        m' := EnterNew(d, t, m, paths, q, parents);
      }
    }
  }

  lemma OnePrefix(paths: set<seq<Key>>, q: seq<Key>, parents: seq<Key>)
    requires q !in paths && parents != []
    ensures q + parents == q + [parents[0]] + parents[1..]
    ensures forall p <- paths :: q <= p <= q + parents <==> q + [parents[0]] <= p <= q + [parents[0]] + parents[1..]
  {
    forall p <- paths
      ensures q <= p <= q + parents <==> q + [parents[0]] <= p <= q + [parents[0]] + parents[1..]
    {
      NextKey(q, p, parents);
    }
  }

  lemma {:induction false} EnterOld(d: Doc, t: Id, m: map<seq<Key>, Id>, paths: set<seq<Key>>, q: seq<Key>,
                                    parents: seq<Key>)
      returns (m': map<seq<Key>, Id>)
    requires Valid(d) && Skeleton(d, t, m, paths) && q in m && parents != [] && parents[0] in d.nodes[m[q]].children
    ensures Enter(d, m[q], parents).Some?
            <==> forall p <- paths :: !(q + [parents[0]] <= p <= q + [parents[0]] + parents[1..])
    ensures Enter(d, m[q], parents).Some? ==>
              var e := Enter(d, m[q], parents).value;
              Skeleton(e.doc, t, m', paths) && q + [parents[0]] + parents[1..] in m'
              && e.table == m'[q + [parents[0]] + parents[1..]]
              && (forall r <- m' :: r in m || r <= q + [parents[0]] + parents[1..]) && forall r <- m :: r in m'
    decreases |parents|, 0
  {
    m' := m;
    var next := q + [parents[0]];
    TableOrValue(d, t, m, paths, q, parents[0]);
    if next in m {
      EntersTable(d, m[q], parents);
      m' := EnterAccepts(d, t, m, paths, next, parents[1..]);
    } else {
      StopsAtValue(d, m[q], parents);
      assert next <= next + parents[1..];
    }
  }

  lemma TableOrValue(d: Doc, t: Id, m: map<seq<Key>, Id>, paths: set<seq<Key>>, q: seq<Key>, k: Key)
    requires Skeleton(d, t, m, paths) && q in m && k in d.nodes[m[q]].children
    ensures var c := d.nodes[m[q]].children[k];
            if q + [k] in m then m[q + [k]] == c && c in d.dotted else q + [k] in paths && Settled(d, c)
  {
    assert HasKey(d, m[q], k) && Accounted(d, m, paths, q + [k], d.nodes[m[q]].children[k]);
  }

  lemma EntersTable(d: Doc, t: Id, parents: seq<Key>)
    requires Valid(d) && parents != [] && HasKey(d, t, parents[0]) && d.nodes[t].children[parents[0]] in d.dotted
    ensures Enter(d, t, parents) == Enter(d, d.nodes[t].children[parents[0]], parents[1..])
  {
    assert Kid(d.nodes[t], d.nodes[t].children[parents[0]]);
  }

  lemma StopsAtValue(d: Doc, t: Id, parents: seq<Key>)
    requires Valid(d) && parents != [] && HasKey(d, t, parents[0]) && Settled(d, d.nodes[t].children[parents[0]])
    ensures Enter(d, t, parents).None?
  {
    assert Kid(d.nodes[t], d.nodes[t].children[parents[0]]);
  }

  lemma {:induction false} EnterNew(d: Doc, t: Id, m: map<seq<Key>, Id>, paths: set<seq<Key>>, q: seq<Key>,
                                    parents: seq<Key>)
      returns (m': map<seq<Key>, Id>)
    requires Valid(d) && Skeleton(d, t, m, paths) && q in m && parents != [] && parents[0] !in d.nodes[m[q]].children
    ensures Enter(d, m[q], parents).Some?
    ensures forall p <- paths :: !(q + [parents[0]] <= p)
    ensures var e := Enter(d, m[q], parents).value;
            Skeleton(e.doc, t, m', paths) && q + [parents[0]] + parents[1..] in m'
            && e.table == m'[q + [parents[0]] + parents[1..]]
            && (forall r <- m' :: r in m || r <= q + [parents[0]] + parents[1..]) && forall r <- m :: r in m'
    decreases |parents|, 0
  {
    var next := q + [parents[0]];
    TableMade(d, t, m, paths, q, parents[0]);
    NothingBelow(d, t, m, paths, next);
    m' := EnterAccepts(Dotted(Spawn(d, m[q], parents[0]), |d.nodes|), t, m[next := |d.nodes|], paths, next,
                       parents[1..]);
    assert next <= next + parents[1..];
  }

  /** A path is taken, by a table or a value, exactly if a value's path is it or continues it. */
  lemma Taken(d: Doc, t: Id, m: map<seq<Key>, Id>, paths: set<seq<Key>>, q: seq<Key>)
    requires Skeleton(d, t, m, paths) && Covered(m, paths) && q != []
    ensures q in m || q in paths <==> exists p <- paths :: q <= p
  {
    if q !in m && q !in paths {
      NothingBelow(d, t, m, paths, q);
    }
  }

  /** A pair is accepted exactly if its keys do not clash with those of the pairs before, and its value is accepted. */
  lemma {:induction false} InsertAccepts(d: Doc, t: Id, pair: Pair, depth: nat, m: map<seq<Key>, Id>,
                                         paths: set<seq<Key>>)
      returns (m': map<seq<Key>, Id>)
    requires Valid(d) && Skeleton(d, t, m, paths) && Covered(m, paths)
    ensures Insert(d, t, pair, depth).Some?
            <==> Acceptable(pair.value, depth) && forall p <- paths :: Diverge(Path(pair.keys), p)
    ensures Insert(d, t, pair, depth).Some? ==>
              var now := paths + {Path(pair.keys)};
              Skeleton(Insert(d, t, pair, depth).value, t, m', now) && Covered(m', now)
    decreases pair, 1
  {
    var parents, last, all := pair.keys.parents, pair.keys.last, Path(pair.keys);
    m' := EnterAccepts(d, t, m, paths, [], parents);
    assert [] + parents == parents;
    Taken(d, t, m, paths, all);
    Prefixes(paths, parents, last);
    var e := Enter(d, t, parents);
    if e.Some? {
      KeyIsTaken(e.value.doc, t, m', paths, parents, last);
      NotNew(m, m', parents, last);
      BuildAccepts(e.value.doc, pair.value, depth);
      if Insert(d, t, pair, depth).Some? {
        InsertedValue(e.value.doc, t, pair, depth, m', paths);
        StillCovered(m, m', paths, all);
      }
    }
  }

  lemma NotNew(m: map<seq<Key>, Id>, m': map<seq<Key>, Id>, parents: seq<Key>, last: Key)
    requires (forall r <- m' :: r in m || r <= parents) && forall r <- m :: r in m'
    ensures parents + [last] in m' <==> parents + [last] in m
  {
  }

  lemma StillCovered(m: map<seq<Key>, Id>, m': map<seq<Key>, Id>, paths: set<seq<Key>>, all: seq<Key>)
    requires Covered(m, paths) && all != [] && forall r <- m' :: r in m || r <= Front(all)
    ensures Covered(m', paths + {all})
  {
    forall q <- m' | q != []
      ensures exists p <- paths + {all} :: q <= p
    {
      if q in m {
        var p :| p in paths && q <= p;
        assert p in paths + {all};
      } else {
        assert q <= all && all in paths + {all};
      }
    }
  }

  lemma Prefixes(paths: set<seq<Key>>, parents: seq<Key>, last: Key)
    ensures (forall p <- paths :: Diverge(parents + [last], p))
            <==> (forall p <- paths :: !([] <= p <= parents)) && !(exists p <- paths :: parents + [last] <= p)
  {
    var all := parents + [last];
    forall p <- paths
      ensures p <= all <==> p <= parents || p == all
    {
      if p <= all && |p| <= |parents| {
        assert p <= parents;
      }
      if p <= all && |p| > |parents| {
        assert p == all;
      }
    }
  }

  lemma KeyIsTaken(d: Doc, t: Id, m: map<seq<Key>, Id>, paths: set<seq<Key>>, q: seq<Key>, k: Key)
    requires Skeleton(d, t, m, paths) && q in m
    ensures k in d.nodes[m[q]].children <==> q + [k] in m || q + [k] in paths
  {
    FrontLast(q, k);
    if k in d.nodes[m[q]].children {
      assert HasKey(d, m[q], k) && Accounted(d, m, paths, q + [k], d.nodes[m[q]].children[k]);
    }
    if q + [k] in m {
      assert Leads(d, m[Front(q + [k])], Last(q + [k]), m[q + [k]]);
    }
  }

  lemma InsertedValue(d: Doc, t: Id, pair: Pair, depth: nat, m: map<seq<Key>, Id>, paths: set<seq<Key>>)
    requires Valid(d) && Skeleton(d, t, m, paths) && pair.keys.parents in m
    requires pair.keys.last !in d.nodes[m[pair.keys.parents]].children && Build(d, pair.value, depth).Some?
    ensures var b := Build(d, pair.value, depth).value;
            Skeleton(Emplace(b, m[pair.keys.parents], pair.keys.last, |d.nodes|), t, m, paths + {Path(pair.keys)})
  {
    var b := Build(d, pair.value, depth).value;
    BuiltBeside(d, pair.value, depth);
    SkeletonStays(d, b, t, m, paths);
    ValueHung(b, t, m, paths, pair.keys.parents, pair.keys.last, |d.nodes|);
  }

  lemma BuiltBeside(d: Doc, v: Value, depth: nat)
    requires Valid(d) && Build(d, v, depth).Some?
    ensures Beside(d, Build(d, v, depth).value) && Settled(Build(d, v, depth).value, |d.nodes|)
  {
    BuildIs(d, v, depth);
  }

  ghost predicate NoClash(pairs: seq<Pair>, depth: nat, paths: set<seq<Key>>) {
    (forall i :: 0 <= i < |pairs| ==> Acceptable(pairs[i].value, depth))
    && (forall i, p :: 0 <= i < |pairs| && p in paths ==> Diverge(Path(pairs[i].keys), p))
    && forall i, j :: 0 <= i < j < |pairs| ==> Diverge(Path(pairs[i].keys), Path(pairs[j].keys))
  }

  lemma {:induction false} InsertAllAccepts(d: Doc, t: Id, pairs: seq<Pair>, depth: nat, m: map<seq<Key>, Id>,
                                                 paths: set<seq<Key>>)
    requires Valid(d) && IsTable(d, t) && Skeleton(d, t, m, paths) && Covered(m, paths)
    ensures InsertAll(d, t, pairs, depth).Some? <==> NoClash(pairs, depth, paths)
    decreases pairs, 0
  {
    if pairs != [] {
      var m' := InsertAccepts(d, t, pairs[0], depth, m, paths);
      FirstClash(pairs, depth, paths);
      var r := Insert(d, t, pairs[0], depth);
      if r.Some? {
        InsertAllAccepts(r.value, t, pairs[1..], depth, m', paths + {Path(pairs[0].keys)});
      }
    }
  }

  lemma FirstClash(pairs: seq<Pair>, depth: nat, paths: set<seq<Key>>)
    requires pairs != []
    ensures NoClash(pairs, depth, paths)
            <==> Acceptable(pairs[0].value, depth) && (forall p <- paths :: Diverge(Path(pairs[0].keys), p))
                 && NoClash(pairs[1..], depth, paths + {Path(pairs[0].keys)})
  {
    var first, rest := Path(pairs[0].keys), pairs[1..];
    assert forall i :: 0 < i < |pairs| ==> pairs[i] == rest[i - 1];
    if NoClash(rest, depth, paths + {first}) && Acceptable(pairs[0].value, depth)
       && (forall p <- paths :: Diverge(first, p)) {
      forall i, p | 0 <= i < |pairs| && p in paths
        ensures Diverge(Path(pairs[i].keys), p)
      {
        if i > 0 {
          assert Diverge(Path(rest[i - 1].keys), p);
        }
      }
      forall i, j | 0 <= i < j < |pairs|
        ensures Diverge(Path(pairs[i].keys), Path(pairs[j].keys))
      {
        if i == 0 {
          assert Diverge(Path(rest[j - 1].keys), first);
        } else {
          assert Diverge(Path(rest[i - 1].keys), Path(rest[j - 1].keys));
        }
      }
    }
  }

  lemma {:induction false} BuildAllAccepts(d: Doc, a: Id, elements: seq<Value>, depth: nat)
    requires Valid(d) && a < |d.nodes| && d.nodes[a].List? && a !in d.tableArrays
    ensures BuildAll(d, a, elements, depth).Some?
            <==> forall i :: 0 <= i < |elements| ==> Acceptable(elements[i], depth)
    decreases elements, 0
  {
    if elements != [] {
      BuildAccepts(d, elements[0], depth);
      var r := Build(d, elements[0], depth);
      assert forall i :: 0 < i < |elements| ==> elements[i] == elements[1..][i - 1];
      if r.Some? {
        BuildAllAccepts(Append(r.value, a, |d.nodes|), a, elements[1..], depth);
      }
    }
  }

  /** Whatever the document, a value is accepted exactly if it is well-formed and not nested too deep. */
  lemma {:induction false} BuildAccepts(d: Doc, v: Value, depth: nat)
    requires Valid(d)
    ensures Build(d, v, depth).Some? <==> Acceptable(v, depth)
    decreases v, 0
  {
    match v
    case Scalar(_) =>
    case Array(elements) => ArrayAccepts(d, elements, depth);
    case Inline(pairs) => InlineAccepts(d, pairs, depth);
  }

  lemma {:induction false} ArrayAccepts(d: Doc, elements: seq<Value>, depth: nat)
    requires Valid(d)
    ensures Build(d, Array(elements), depth).Some? <==> Acceptable(Array(elements), depth)
    decreases elements, 1
  {
    if depth < MAX_NESTED_VALUES {
      assert |d.nodes| !in d.tableArrays by {
        assert forall b <- d.tableArrays :: ListsTables(d, b);
      }
      BuildAllAccepts(Create(d, List([])), |d.nodes|, elements, depth + 1);
      DeepestElement(elements, depth + 1);
    }
  }

  lemma {:induction false} InlineAccepts(d: Doc, pairs: seq<Pair>, depth: nat)
    requires Valid(d)
    ensures Build(d, Inline(pairs), depth).Some? <==> Acceptable(Inline(pairs), depth)
    decreases pairs, 1
  {
    InlineIsAcceptable(pairs, depth);
    if depth < MAX_NESTED_VALUES {
      var t, r := |d.nodes|, Opened(Create(d, Table(map[], true)), |d.nodes|);
      NewSkeleton(d);
      InsertAllAccepts(r, t, pairs, depth + 1, map[[] := t], {});
    }
  }

  lemma NewSkeleton(d: Doc)
    requires Valid(d)
    ensures var t, r := |d.nodes|, Opened(Create(d, Table(map[], true)), |d.nodes|);
            Valid(r) && IsTable(r, t) && Skeleton(r, t, map[[] := t], {}) && Covered(map[[] := t], {})
  {
  }

  lemma InlineIsAcceptable(pairs: seq<Pair>, depth: nat)
    ensures Acceptable(Inline(pairs), depth) <==> depth < MAX_NESTED_VALUES && NoClash(pairs, depth + 1, {})
  {
    DeepestPair(pairs, depth + 1);
    if Acceptable(Inline(pairs), depth) {
      forall i | 0 <= i < |pairs|
        ensures Acceptable(pairs[i].value, depth + 1)
      {
        assert WellFormed(pairs[i].value) && depth + 1 + Depth(pairs[i].value) <= MAX_NESTED_VALUES;
      }
    }
    if depth < MAX_NESTED_VALUES && NoClash(pairs, depth + 1, {}) {
      forall i | 0 <= i < |pairs|
        ensures WellFormed(pairs[i].value) && depth + 1 + Depth(pairs[i].value) <= MAX_NESTED_VALUES
      {
        assert Acceptable(pairs[i].value, depth + 1);
      }
      assert pairs == [] ==> DepthOfPairs(pairs) == 0;
      assert depth + Depth(Inline(pairs)) <= MAX_NESTED_VALUES;
      assert WellFormed(Inline(pairs));
    }
  }

  /** All of the elements fit exactly if the deepest does. */
  lemma {:induction false} DeepestElement(elements: seq<Value>, depth: nat)
    ensures (elements != [] ==> depth + DepthOfAll(elements) <= MAX_NESTED_VALUES)
            <==> forall i :: 0 <= i < |elements| ==> depth + Depth(elements[i]) <= MAX_NESTED_VALUES
  {
    if elements != [] {
      DeepestElement(elements[1..], depth);
      assert forall i :: 0 < i < |elements| ==> elements[i] == elements[1..][i - 1];
    }
  }

  lemma {:induction false} DeepestPair(pairs: seq<Pair>, depth: nat)
    ensures (pairs != [] ==> depth + DepthOfPairs(pairs) <= MAX_NESTED_VALUES)
            <==> forall i :: 0 <= i < |pairs| ==> depth + Depth(pairs[i].value) <= MAX_NESTED_VALUES
  {
    if pairs != [] {
      DeepestPair(pairs[1..], depth);
      assert forall i :: 0 < i < |pairs| ==> pairs[i] == pairs[1..][i - 1];
    }
  }

  // ---------------------------------------------------------------------------------------
  // The nesting limit
  // ---------------------------------------------------------------------------------------

  /** A number in so many brackets. */
  function Nested(brackets: nat): Value { if brackets == 0 then Scalar("1") else Array([Nested(brackets - 1)]) }

  lemma {:induction false} NestedDepth(brackets: nat)
    ensures WellFormed(Nested(brackets)) && Depth(Nested(brackets)) == brackets + 1
  {
    if brackets > 0 {
      NestedDepth(brackets - 1);
      var inner := [Nested(brackets - 1)];
      assert inner[1..] == [] && DepthOfAll(inner) == Larger(Depth(inner[0]), DepthOfAll([]));
    }
  }

  /** TOML has no such limit: with 256 brackets or more a well-formed document of one pair is refused. */
  lemma TooManyBrackets(brackets: nat)
    ensures var st := KeyValue(Pair(Keys([], "a"), Nested(brackets)));
            Step(START, st).Some? <==> brackets < 256
  {
    NestedDepth(brackets);
    BuildAccepts(START.doc, Nested(brackets), 0);
  }
}
