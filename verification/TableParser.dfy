/**
  The table-building part of the TOML parser (util/toml.hpp) as an object that changes its document
  in place, proved to do what TableTree says.
 */
module TableParser {
  import opened Wrappers
  import opened TableTree

  /** All statements, one after the other; none when one of them is an error. */
  function RunFrom(s: State, run: seq<Statement>): (r: Option<State>)
    requires Sound(s)
    ensures r.Some? ==> Sound(r.value)
    decreases |run|
  {
    if run == [] then Some(s)
    else
      match Step(s, run[0])
      case None => None
      case Some(t) => RunFrom(t, run[1..])
  }

  /** The parser accepts exactly the runs the theorems speak of. */
  lemma AcceptedRuns(run: seq<Statement>)
    ensures RunFrom(START, run).Some? <==> exists states :: Accepted(run, states)
    ensures forall states :: Accepted(run, states) ==> RunFrom(START, run) == Some(states[|run|])
  {
    forall states | Accepted(run, states)
      ensures RunFrom(START, run) == Some(states[|run|])
    {
      RestOfRun(run, states, 0);
      assert run[0..] == run;
    }
    if RunFrom(START, run).Some? {
      var states := StatesOf(run, START);
      assert Accepted(run, states);
    }
  }

  lemma {:induction false} RestOfRun(run: seq<Statement>, states: seq<State>, n: nat)
    requires Accepted(run, states) && n <= |run| && Sound(states[n])
    ensures RunFrom(states[n], run[n..]) == Some(states[|run|])
    decreases |run| - n
  {
    if n < |run| {
      assert Follows(run, states, n);
      assert run[n..][0] == run[n] && run[n..][1..] == run[n + 1..];
      RestOfRun(run, states, n + 1);
    }
  }

  lemma {:induction false} StatesOf(run: seq<Statement>, s: State) returns (states: seq<State>)
    requires Sound(s) && RunFrom(s, run).Some?
    ensures |states| == |run| + 1 && states[0] == s && forall i: nat :: i < |run| ==> Follows(run, states, i)
    decreases |run|
  {
    if run == [] {
      states := [s];
    } else {
      var rest := StatesOf(run[1..], Step(s, run[0]).value);
      states := [s] + rest;
      forall i: nat | i < |run|
        ensures Follows(run, states, i)
      {
        if i > 0 {
          assert Follows(run[1..], rest, i - 1);
        }
      }
    }
  }

  class Parser {
    var nodes: seq<Node>
    var implicit: seq<Id>
    var dotted: seq<Id>
    var tableArrays: seq<Id>
    var open: seq<Id>
    var nestedValues: nat

    ghost function Contents(): Doc
      reads this
    {
      Doc(nodes, implicit, dotted, tableArrays, open)
    }

    constructor ()
      ensures Contents() == START.doc && nestedValues == 0
    {
      nodes, implicit, dotted, tableArrays, open, nestedValues := [EMPTY_TABLE], [], [], [], [], 0;
    }

    method SetChild(t: Id, key: Key, c: Id)
      requires Valid(Contents()) && IsTable(Contents(), t) && key !in nodes[t].children && c < |nodes|
      modifies this`nodes
      ensures Contents() == Attach(old(Contents()), t, key, c)
    {
      nodes := nodes[t := Table(nodes[t].children[key := c], nodes[t].inline)];
    }

    method NewTable(t: Id, key: Key) returns (c: Id)
      requires Valid(Contents()) && IsTable(Contents(), t) && key !in nodes[t].children
      modifies this`nodes
      ensures c == |old(nodes)| && Contents() == Spawn(old(Contents()), t, key)
    {
      c := |nodes|;
      nodes := nodes + [EMPTY_TABLE];
      assert Contents() == Create(old(Contents()), EMPTY_TABLE);
      SetChild(t, key, c);
    }

    /** One key of a header's parents. */
    method StepInto(parent: Id, key: Key, ghost keys: seq<Key>) returns (r: Option<Id>)
      requires Valid(Contents()) && IsTable(Contents(), parent) && keys != [] && keys[0] == key
      modifies this`nodes, this`implicit
      ensures match r
              case None => Walk(old(Contents()), parent, keys) == None
              case Some(t) =>
                Valid(Contents()) && IsTable(Contents(), t)
                && Walk(old(Contents()), parent, keys) == Walk(Contents(), t, keys[1..])
    {
      if key in nodes[parent].children {
        var c := nodes[parent].children[key];
        assert Kid(nodes[parent], c);
        if nodes[c].Table? {
          if nodes[c].inline && c !in open {
            return None;
          }
          return Some(c);
        } else if nodes[c].List? && c in tableArrays {
          assert ListsTables(Contents(), c) && Kid(nodes[c], LastOf(Contents(), c));
          return Some(nodes[c].elements[|nodes[c].elements| - 1]);
        } else {
          return None;
        }
      }
      var t := NewTable(parent, key);
      ghost var made := Contents();
      implicit := implicit + [t];
      assert Contents() == Implied(made, t);
      return Some(t);
    }

    /** The parents of a header's table, made where they are missing. */
    method WalkTo(parents: seq<Key>) returns (r: Option<Id>)
      requires Valid(Contents())
      modifies this`nodes, this`implicit
      ensures match r
              case None => Walk(old(Contents()), ROOT, parents) == None
              case Some(t) => Walk(old(Contents()), ROOT, parents) == Some(Place(Contents(), t))
    {
      var parent, i := ROOT, 0;
      while i < |parents|
        invariant 0 <= i <= |parents| && Valid(Contents()) && IsTable(Contents(), parent)
        invariant Walk(old(Contents()), ROOT, parents) == Walk(Contents(), parent, parents[i..])
      {
        assert parents[i..][1..] == parents[i + 1..];
        var t := StepInto(parent, parents[i], parents[i..]);
        if t.None? {
          return None;
        }
        parent, i := t.value, i + 1;
      }
      return Some(parent);
    }

    /** Takes a table off the implicit ones. */
    method Promote(c: Id)
      requires Valid(Contents()) && c in implicit
      modifies this`implicit
      ensures Contents() == Promoted(old(Contents()), c)
    {
      var s, i := implicit, 0;
      while s[i] != c
        invariant 0 <= i < |s| && c in s[i..]
        invariant Without(s, c) == s[..i] + Without(s[i..], c)
        decreases |s| - i
      {
        NotThere(s, i, c);
        i := i + 1;
      }
      assert Without(s[i..], c) == s[i + 1..];
      implicit := s[..i] + s[i + 1..];
      assert implicit == Without(s, c);
    }

    method NewElement(a: Id) returns (t: Id)
      requires Valid(Contents()) && a < |nodes| && nodes[a].List?
      modifies this`nodes
      ensures t == |old(nodes)| && Contents() == Append(Create(old(Contents()), EMPTY_TABLE), a, t)
    {
      t := |nodes|;
      nodes := nodes + [EMPTY_TABLE];
      nodes := nodes[a := List(nodes[a].elements + [t])];
    }

    /** A header: its table, in the document. */
    method ParseTableHeader(keys: Keys, isArray: bool) returns (r: Option<Id>)
      requires Valid(Contents())
      modifies this`nodes, this`implicit, this`tableArrays
      ensures match r
              case None => Define(old(Contents()), keys, isArray) == None
              case Some(t) => Define(old(Contents()), keys, isArray) == Some(Place(Contents(), t))
    {
      var place := WalkTo(keys.parents);
      if place.None? {
        return None;
      }
      r := DefineLast(place.value, keys.last, isArray);
    }

    method DefineLast(parent: Id, key: Key, isArray: bool) returns (r: Option<Id>)
      requires Valid(Contents()) && IsTable(Contents(), parent)
      modifies this`nodes, this`implicit, this`tableArrays
      ensures match r
              case None => DefineIn(old(Contents()), parent, key, isArray) == None
              case Some(t) => DefineIn(old(Contents()), parent, key, isArray) == Some(Place(Contents(), t))
    {
      if key in nodes[parent].children {
        var c := nodes[parent].children[key];
        assert Kid(nodes[parent], c);
        if isArray && nodes[c].List? && c in tableArrays {
          var t := NewElement(c);
          return Some(t);
        } else if !isArray && nodes[c].Table? && implicit != [] {
          if c in implicit {
            if OnlyTables(Doc(nodes, implicit, dotted, tableArrays, open), c) {
              Promote(c);
              return Some(c);
            }
          }
        }
        return None;
      } else if isArray {
        var a := NewArray(parent, key);
        var t := NewElement(a);
        tableArrays := tableArrays + [a];
        return Some(t);
      } else {
        var t := NewTable(parent, key);
        return Some(t);
      }
    }

    method NewArray(parent: Id, key: Key) returns (a: Id)
      requires Valid(Contents()) && IsTable(Contents(), parent) && key !in nodes[parent].children
      modifies this`nodes
      ensures a == |old(nodes)| && Contents() == NewList(old(Contents()), parent, key)
    {
      a := |nodes|;
      nodes := nodes + [List([])];
      assert Contents() == Create(old(Contents()), List([]));
      SetChild(parent, key, a);
    }

    /** One key of a dotted key's parents. */
    method EnterOne(tbl: Id, key: Key, ghost keys: seq<Key>) returns (r: Option<Id>)
      requires Valid(Contents()) && IsTable(Contents(), tbl) && keys != [] && keys[0] == key
      modifies this`nodes, this`dotted
      ensures match r
              case None => Enter(old(Contents()), tbl, keys) == None
              case Some(t) =>
                Valid(Contents()) && IsTable(Contents(), t)
                && Enter(old(Contents()), tbl, keys) == Enter(Contents(), t, keys[1..])
    {
      if key in nodes[tbl].children {
        var c := nodes[tbl].children[key];
        assert Kid(nodes[tbl], c);
        if !nodes[c].Table? || !(c in dotted || c in implicit) {
          return None;
        }
        return Some(c);
      }
      var t := NewTable(tbl, key);
      ghost var made := Contents();
      dotted := dotted + [t];
      assert Contents() == Dotted(made, t);
      return Some(t);
    }

    /** The parents of a dotted key, made where they are missing. */
    method EnterDotted(start: Id, parents: seq<Key>) returns (r: Option<Id>)
      requires Valid(Contents()) && IsTable(Contents(), start)
      modifies this`nodes, this`dotted
      ensures match r
              case None => Enter(old(Contents()), start, parents) == None
              case Some(t) => Enter(old(Contents()), start, parents) == Some(Place(Contents(), t))
    {
      var tbl, i := start, 0;
      while i < |parents|
        invariant 0 <= i <= |parents| && Valid(Contents()) && IsTable(Contents(), tbl)
        invariant Enter(old(Contents()), start, parents) == Enter(Contents(), tbl, parents[i..])
      {
        assert parents[i..][1..] == parents[i + 1..];
        var t := EnterOne(tbl, parents[i], parents[i..]);
        if t.None? {
          return None;
        }
        tbl, i := t.value, i + 1;
      }
      return Some(tbl);
    }

    method ParseKeyValuePairAndInsert(t: Id, pair: Pair) returns (ok: bool)
      requires Valid(Contents()) && IsTable(Contents(), t)
      modifies this
      ensures Insert(old(Contents()), t, pair, nestedValues) == if ok then Some(Contents()) else None
      ensures nestedValues == old(nestedValues)
      decreases pair, 1
    {
      var place := EnterDotted(t, pair.keys.parents);
      if place.None? || pair.keys.last in nodes[place.value].children {
        return false;
      }
      var val := ParseValue(pair.value);
      if val.None? {
        return false;
      }
      if pair.keys.last !in nodes[place.value].children {
        SetChild(place.value, pair.keys.last, val.value);
      }
      return true;
    }

    method ParseValue(v: Value) returns (id: Option<Id>)
      requires Valid(Contents())
      modifies this
      ensures Build(old(Contents()), v, old(nestedValues)) == if id.Some? then Some(Contents()) else None
      ensures nestedValues == old(nestedValues)
      ensures id.Some? ==> id.value == |old(nodes)|
      decreases v, 0
    {
      nestedValues := nestedValues + 1;
      if nestedValues > MAX_NESTED_VALUES {
        nestedValues := nestedValues - 1;
        return None;
      }
      match v {
        case Scalar(text) =>
          nodes := nodes + [Leaf(text)];
          id := Some(|nodes| - 1);
        case Array(elements) =>
          id := ParseArray(elements);
        case Inline(pairs) =>
          id := ParseInlineTable(pairs);
      }
      nestedValues := nestedValues - 1;
    }

    method ParseArray(elements: seq<Value>) returns (id: Option<Id>)
      requires Valid(Contents()) && 0 < nestedValues <= MAX_NESTED_VALUES
      modifies this
      ensures Build(old(Contents()), Array(elements), old(nestedValues) - 1)
              == if id.Some? then Some(Contents()) else None
      ensures nestedValues == old(nestedValues)
      ensures id.Some? ==> id.value == |old(nodes)|
      decreases elements, 1
    {
      var a := |nodes|;
      nodes := nodes + [List([])];
      ghost var first := Contents();
      assert first == Create(old(Contents()), List([]));
      NotAmong(old(Contents()), a);
      var i := 0;
      while i < |elements|
        invariant 0 <= i <= |elements| && Valid(Contents()) && a < |nodes| && nodes[a].List? && a !in tableArrays
        invariant BuildAll(first, a, elements, nestedValues) == BuildAll(Contents(), a, elements[i..], nestedValues)
        invariant nestedValues == old(nestedValues)
      {
        assert elements[i..][1..] == elements[i + 1..];
        var val := ParseValue(elements[i]);
        if val.None? {
          return None;
        }
        nodes := nodes[a := List(nodes[a].elements + [val.value])];
        i := i + 1;
      }
      return Some(a);
    }

    method ParseInlineTable(pairs: seq<Pair>) returns (id: Option<Id>)
      requires Valid(Contents()) && 0 < nestedValues <= MAX_NESTED_VALUES
      modifies this
      ensures Build(old(Contents()), Inline(pairs), old(nestedValues) - 1)
              == if id.Some? then Some(Contents()) else None
      ensures nestedValues == old(nestedValues)
      ensures id.Some? ==> id.value == |old(nodes)|
      decreases pairs, 1
    {
      var t := |nodes|;
      nodes := nodes + [Table(map[], true)];
      open := open + [t];
      ghost var first := Contents();
      assert first == Opened(Create(old(Contents()), Table(map[], true)), t);
      var i := 0;
      while i < |pairs|
        invariant 0 <= i <= |pairs| && Valid(Contents()) && IsTable(Contents(), t)
        invariant InsertAll(first, t, pairs, nestedValues) == InsertAll(Contents(), t, pairs[i..], nestedValues)
        invariant nestedValues == old(nestedValues)
      {
        assert pairs[i..][1..] == pairs[i + 1..];
        var ok := ParseKeyValuePairAndInsert(t, pairs[i]);
        if !ok {
          return None;
        }
        i := i + 1;
      }
      if open != [] {
        open := open[..|open| - 1];
      }
      return Some(t);
    }

    /** The document of a run of statements, accepted exactly when every statement is. */
    method ParseDocument(run: seq<Statement>) returns (current: Option<Id>)
      requires Contents() == START.doc && nestedValues == 0
      modifies this
      ensures RunFrom(START, run) == if current.Some? then Some(State(Contents(), current.value)) else None
    {
      var table, i := ROOT, 0;
      while i < |run|
        invariant 0 <= i <= |run| && Sound(State(Contents(), table)) && nestedValues == 0
        invariant RunFrom(START, run) == RunFrom(State(Contents(), table), run[i..])
      {
        assert run[i..][1..] == run[i + 1..];
        var t := ParseStatement(table, run[i]);
        if t.None? {
          return None;
        }
        table, i := t.value, i + 1;
      }
      return Some(table);
    }

    /** One statement; the table that is then current. */
    method ParseStatement(table: Id, st: Statement) returns (current: Option<Id>)
      requires Sound(State(Contents(), table)) && nestedValues == 0
      modifies this
      ensures nestedValues == 0
      ensures Step(State(old(Contents()), table), st)
              == if current.Some? then Some(State(Contents(), current.value)) else None
    {
      match st {
        case Header(keys, isArray) =>
          current := ParseTableHeader(keys, isArray);
        case KeyValue(pair) =>
          var ok := ParseKeyValuePairAndInsert(table, pair);
          return if ok then Some(table) else None;
      }
    }
  }

  lemma NotThere(s: seq<Id>, i: nat, x: Id)
    requires i < |s| && s[i] != x && x in s[i..]
    ensures i + 1 < |s| && x in s[i + 1..]
    ensures s[..i] + Without(s[i..], x) == s[..i + 1] + Without(s[i + 1..], x)
  {
    assert s[i..] == [s[i]] + s[i + 1..];
    assert s[..i + 1] == s[..i] + [s[i]];
  }

  lemma NotAmong(d: Doc, a: Id)
    requires Valid(d) && |d.nodes| <= a
    ensures a !in d.tableArrays
  {
    assert forall b <- d.tableArrays :: ListsTables(d, b);
  }
}
