/**
  array::flatten of the TOML library (util/toml.hpp), in place: nested arrays replaced by their
  leaves. An element that was moved away leaves a null behind.
 */
module Flatten {
  import opened Wrappers

  /** An element: an array, or anything else, told apart by a number. */
  datatype Node = Leaf(id: nat) | Array(elements: seq<Node>)

  /** The leaves from left to right. */
  function Leaves(nodes: seq<Node>): (r: seq<Node>)
    ensures forall k :: 0 <= k < |r| ==> r[k].Leaf?
  {
    if nodes == [] then []
    else (match nodes[0] case Leaf(_) => [nodes[0]] case Array(elements) => Leaves(elements)) + Leaves(nodes[1..])
  }

  function Owned(nodes: seq<Node>): (r: seq<Option<Node>>)
    ensures |r| == |nodes| && forall k :: 0 <= k < |r| ==> r[k] == Some(nodes[k])
  {
    seq(|nodes|, k requires 0 <= k < |nodes| => Some(nodes[k]))
  }

  function Nulls(n: nat): (r: seq<Option<Node>>)
    ensures |r| == n && forall k :: 0 <= k < n ==> r[k] == None
  {
    seq(n, _ => None)
  }

  lemma {:induction false} LeavesConcat(a: seq<Node>, b: seq<Node>)
    ensures Leaves(a + b) == Leaves(a) + Leaves(b)
    decreases |a|
  {
    if a == [] {
      assert a + b == b;
    } else {
      assert (a + b)[1..] == a[1..] + b;
      LeavesConcat(a[1..], b);
    }
  }

  lemma {:induction false} LeavesOfLeaves(nodes: seq<Node>)
    requires forall k :: 0 <= k < |nodes| ==> nodes[k].Leaf?
    ensures Leaves(nodes) == nodes
  {
    if nodes != [] {
      LeavesOfLeaves(nodes[1..]);
    }
  }

  /** In the order they stand: the leaves of an element come after those of all elements before it; a leaf is its own,
      and an array has those of its elements. */
  lemma LeavesInOrder(nodes: seq<Node>, n: Node)
    ensures Leaves([]) == [] && Leaves(nodes + [n]) == Leaves(nodes) + if n.Leaf? then [n] else Leaves(n.elements)
  {
    LeavesConcat(nodes, [n]);
    assert [n][1..] == [] && Leaves([n][1..]) == [];
  }

  /** The leaves are the leaves: flattening again changes nothing. */
  lemma FlattenTwice(nodes: seq<Node>)
    ensures Leaves(Leaves(nodes)) == Leaves(nodes)
  {
    LeavesOfLeaves(Leaves(nodes));
  }

  method TotalLeafCount(nodes: seq<Node>) returns (leaves: nat)
    ensures leaves == |Leaves(nodes)|
  {
    leaves := 0;
    var i := 0;
    assert nodes[..0] == [];
    while i < |nodes|
      invariant 0 <= i <= |nodes| && leaves == |Leaves(nodes[..i])|
    {
      assert nodes[..i + 1] == nodes[..i] + [nodes[i]];
      LeavesConcat(nodes[..i], [nodes[i]]);
      match nodes[i] {
        case Leaf(_) => leaves := leaves + 1;
        case Array(elements) =>
          var n := TotalLeafCount(elements);
          leaves := leaves + n;
      }
      i := i + 1;
    }
    assert nodes[..i] == nodes;
  }

  class Elements {
    var elems: seq<Option<Node>>

    constructor (nodes: seq<Node>)
      ensures elems == Owned(nodes)
    {
      elems := Owned(nodes);
    }

    /** Room for more elements at a place, the later ones moved up from the back. */
    method PreinsertionResize(idx: nat, count: nat)
      requires idx <= |elems| && count >= 1
      modifies this
      ensures elems == old(elems[..idx]) + Nulls(count) + old(elems[idx..])
    {
      ghost var was := elems;
      var oldSize, newSize := |elems|, |elems| + count;
      elems := elems + Nulls(count);
      if idx != oldSize {
        var left, right := oldSize, newSize - 1;
        while left > idx
          invariant idx <= left <= oldSize && right == left + count - 1 && Shifted(elems, was, left, count)
        {
          left := left - 1;
          ShiftOne(elems, was, left, count);
          elems := elems[right := elems[left]];
          elems := elems[left := None];
          right := right - 1;
        }
      }
      ShiftedFrom(elems, was, idx, count);
    }

    /** The leaves of a child, into the nulls from a place on; the place after them. */
    method FlattenChild(child: seq<Node>, dest: nat) returns (next: nat)
      requires dest + |Leaves(child)| <= |elems|
      requires forall k :: dest <= k < dest + |Leaves(child)| ==> elems[k] == None
      modifies this
      ensures next == dest + |Leaves(child)|
      ensures Filled(elems, old(elems), dest, Leaves(child))
      decreases child, 0
    {
      ghost var was := elems;
      next := dest;
      var i := 0;
      assert child[..0] == [];
      FilledNone(was, dest);
      while i < |child|
        invariant 0 <= i <= |child| && next == dest + |Leaves(child[..i])| <= dest + |Leaves(child)|
        invariant Filled(elems, was, dest, Leaves(child[..i]))
      {
        LeavesSoFar(child, i);
        next := FlattenNext(child[i], next, was, dest, Leaves(child[..i]));
        i := i + 1;
      }
      assert child[..i] == child;
    }

    /** One more element, after those whose leaves are in place. */
    method FlattenNext(n: Node, at: nat, ghost was: seq<Option<Node>>, ghost dest: nat, ghost leaves: seq<Node>)
      returns (next: nat)
      requires Filled(elems, was, dest, leaves) && at == dest + |leaves| && at + |Leaves([n])| <= |was|
      requires forall k :: at <= k < at + |Leaves([n])| ==> was[k] == None
      modifies this
      ensures next == at + |Leaves([n])| && Filled(elems, was, dest, leaves + Leaves([n]))
      decreases n, 1
    {
      FilledKeeps(elems, was, dest, leaves);
      ghost var before := elems;
      next := FlattenElement(n, at);
      FilledMore(elems, before, was, dest, leaves, Leaves([n]));
    }

    method FlattenElement(n: Node, dest: nat) returns (next: nat)
      requires dest + |Leaves([n])| <= |elems|
      requires forall k :: dest <= k < dest + |Leaves([n])| ==> elems[k] == None
      modifies this
      ensures next == dest + |Leaves([n])| && Filled(elems, old(elems), dest, Leaves([n]))
      decreases n, 0
    {
      match n {
        case Leaf(_) =>
          assert Leaves([n]) == [n] && elems[dest] == None;
          elems := elems[dest := Some(n)];
          next := dest + 1;
        case Array(elements) =>
          assert Leaves([n]) == Leaves(elements);
          next := dest;
          if elements != [] {
            next := FlattenChild(elements, dest);
          }
      }
    }

    /** Arrays without leaves are erased; how many elements there will be, and whether arrays are left. */
    method EraseEmpty() returns (size: nat, flattening: bool)
      requires forall k :: 0 <= k < |elems| ==> elems[k].Some?
      modifies this
      ensures forall k :: 0 <= k < |elems| ==> elems[k].Some?
      ensures Leaves(Plain(elems)) == Leaves(Plain(old(elems))) && size == |Leaves(Plain(elems))|
      ensures AllFull(Plain(elems)) && (flattening <==> HasArray(Plain(elems)))
    {
      ghost var nodes := Plain(elems);
      ghost var kept: seq<Node> := [];
      flattening, size := false, |elems|;
      var i := |elems|;
      assert nodes[i..] == [];
      while i > 0
        invariant 0 <= i <= |nodes| && elems == Owned(nodes[..i] + kept) && Leaves(kept) == Leaves(nodes[i..])
        invariant size == i + |Leaves(kept)| && AllFull(kept) && (flattening <==> HasArray(kept))
      {
        i := i - 1;
        size, flattening, kept := KeepOrErase(i, size, flattening, nodes, kept);
      }
      assert nodes[..0] + kept == kept && nodes[0..] == nodes;
      assert Plain(elems) == kept;
    }

    /** One element from the back: kept, or erased when it is an array without leaves. */
    method KeepOrErase(i: nat, before: nat, found: bool, ghost nodes: seq<Node>, ghost kept: seq<Node>)
      returns (size: nat, flattening: bool, ghost now: seq<Node>)
      requires i < |nodes| && elems == Owned(nodes[..i + 1] + kept) && Leaves(kept) == Leaves(nodes[i + 1..])
      requires before == i + 1 + |Leaves(kept)| && AllFull(kept) && (found <==> HasArray(kept))
      modifies this
      ensures elems == Owned(nodes[..i] + now) && Leaves(now) == Leaves(nodes[i..])
      ensures size == i + |Leaves(now)| && AllFull(now) && (flattening <==> HasArray(now))
    {
      size, flattening, now := before, found, kept;
      assert elems[i].value == nodes[i];
      KeptOne(nodes, i, kept);
      ErasedOne(nodes, i, kept);
      Prepended(nodes[i], kept);
      match elems[i].value {
        case Leaf(_) => now := [nodes[i]] + kept;
        case Array(elements) =>
          size := size - 1;
          var leaves := TotalLeafCount(elements);
          if leaves > 0 {
            flattening, size, now := true, size + leaves, [nodes[i]] + kept;
          } else {
            elems := elems[..i] + elems[i + 1..];
          }
      }
    }

    method Flatten()
      requires forall k :: 0 <= k < |elems| ==> elems[k].Some?
      modifies this
      ensures elems == Owned(Leaves(Plain(old(elems))))
    {
      if elems == [] {
        return;
      }
      var capacity, flattening := EraseEmpty();
      ghost var leaves := Leaves(Plain(elems));
      if !flattening {
        forall k | 0 <= k < |elems|
          ensures elems[k].value.Leaf?
        {
          assert elems[k].value in Plain(elems);
        }
        LeavesOfLeaves(Plain(elems));
        return;
      }
      ghost var done: seq<Node>, todo: seq<Node> := [], Plain(elems);
      assert [] + todo == todo;
      NoFewerLeaves(todo);
      var i := 0;
      while i < |elems|
        invariant i == |done| && elems == Owned(done + todo) && done + Leaves(todo) == leaves
        invariant AllFull(todo)
        invariant |elems| <= capacity == |leaves|
        decreases |todo|
      {
        i := FlattenAt(i, done, todo);
        FirstDone(done, todo);
        done, todo := done + Leaves([todo[0]]), todo[1..];
      }
    }

    /** One element: passed over, or replaced by its leaves. */
    method FlattenAt(i: nat, ghost done: seq<Node>, ghost todo: seq<Node>) returns (next: nat)
      requires i == |done| && todo != [] && NotEmpty(todo[0]) && elems == Owned(done + todo)
      modifies this
      ensures next == i + |Leaves([todo[0]])|
      ensures elems == Owned(done + Leaves([todo[0]]) + todo[1..])
    {
      OwnedAround(done, todo);
      match elems[i].value {
        case Leaf(_) =>
          assert Leaves([todo[0]]) == [todo[0]];
          OwnedParts(done, [todo[0]], todo[1..]);
          next := i + 1;
        case Array(elements) =>
          assert Leaves([todo[0]]) == Leaves(elements);
          var count := TotalLeafCount(elements);
          MakeRoom(i, count, Owned(done), Owned(todo[1..]));
          ghost var room := elems;
          next := FlattenChild(elements, i);
          assert room[..i] == Owned(done) && room[i + count..] == Owned(todo[1..]);
          OwnedParts(done, Leaves(elements), todo[1..]);
      }
    }

    /** The array at a place is taken out, and room made for its leaves. */
    method MakeRoom(i: nat, count: nat, ghost before: seq<Option<Node>>, ghost after: seq<Option<Node>>)
      requires i == |before| && i < |elems| && count >= 1 && elems == before + [elems[i]] + after
      modifies this
      ensures elems == before + Nulls(count) + after
    {
      elems := elems[i := None];
      assert elems == before + Nulls(1) + after;
      if count > 1 {
        assert elems[..i + 1] == before + Nulls(1) && elems[i + 1..] == after;
        PreinsertionResize(i + 1, count - 1);
        assert before + Nulls(1) + Nulls(count - 1) == before + Nulls(count);
      }
    }
  }

  lemma OwnedAround(done: seq<Node>, todo: seq<Node>)
    requires todo != []
    ensures Owned(done + todo) == Owned(done) + [Some(todo[0])] + Owned(todo[1..])
  {
  }

  lemma FirstDone(done: seq<Node>, todo: seq<Node>)
    requires todo != [] && AllFull(todo)
    ensures NotEmpty(todo[0]) && AllFull(todo[1..]) && |todo[1..]| <= |Leaves(todo[1..])|
    ensures done + Leaves([todo[0]]) + Leaves(todo[1..]) == done + Leaves(todo)
  {
    assert todo[0] in todo && todo == [todo[0]] + todo[1..];
    LeavesConcat([todo[0]], todo[1..]);
    NoFewerLeaves(todo[1..]);
  }

  lemma OwnedParts(a: seq<Node>, b: seq<Node>, c: seq<Node>)
    ensures Owned(a) + Owned(b) + Owned(c) == Owned(a + b + c)
  {
  }

  /** Leaves stand where nulls were; everything else is as it was. */
  predicate Filled(e: seq<Option<Node>>, was: seq<Option<Node>>, dest: nat, leaves: seq<Node>) {
    dest + |leaves| <= |was| && e == was[..dest] + Owned(leaves) + was[dest + |leaves|..]
  }

  lemma FilledNone(was: seq<Option<Node>>, dest: nat)
    requires dest <= |was|
    ensures Filled(was, was, dest, [])
  {
  }

  lemma FilledKeeps(e: seq<Option<Node>>, was: seq<Option<Node>>, dest: nat, leaves: seq<Node>)
    requires Filled(e, was, dest, leaves)
    ensures |e| == |was| && forall k :: dest + |leaves| <= k < |was| ==> e[k] == was[k]
  {
  }

  lemma FilledMore(e: seq<Option<Node>>, before: seq<Option<Node>>, was: seq<Option<Node>>, dest: nat,
                   leaves: seq<Node>,
                   more: seq<Node>)
    requires Filled(before, was, dest, leaves) && dest + |leaves| + |more| <= |was|
    requires Filled(e, before, dest + |leaves|, more)
    ensures Filled(e, was, dest, leaves + more)
  {
    var n := dest + |leaves|;
    assert before[..n] == was[..dest] + Owned(leaves);
    assert before[n + |more|..] == was[n + |more|..];
    assert Owned(leaves + more) == Owned(leaves) + Owned(more);
  }

  function Plain(e: seq<Option<Node>>): (r: seq<Node>)
    requires forall k :: 0 <= k < |e| ==> e[k].Some?
    ensures |r| == |e| && Owned(r) == e
  {
    seq(|e|, k requires 0 <= k < |e| => e[k].value)
  }

  lemma KeptOne(nodes: seq<Node>, i: nat, kept: seq<Node>)
    requires i < |nodes| && Leaves(kept) == Leaves(nodes[i + 1..])
    ensures Leaves([nodes[i]] + kept) == Leaves([nodes[i]]) + Leaves(kept) == Leaves(nodes[i..])
    ensures Leaves([nodes[i]]) == if nodes[i].Leaf? then [nodes[i]] else Leaves(nodes[i].elements)
  {
    assert nodes[i..] == [nodes[i]] + nodes[i + 1..];
    LeavesConcat([nodes[i]], kept);
    LeavesConcat([nodes[i]], nodes[i + 1..]);
  }

  lemma ErasedOne(nodes: seq<Node>, i: nat, kept: seq<Node>)
    requires i < |nodes|
    ensures nodes[..i + 1] + kept == nodes[..i] + ([nodes[i]] + kept)
    ensures var e := Owned(nodes[..i + 1] + kept); e[..i] + e[i + 1..] == Owned(nodes[..i] + kept)
  {
    assert nodes[..i + 1] == nodes[..i] + [nodes[i]];
  }

  /** As every array has leaves, there are at least as many leaves as elements. */
  lemma {:induction false} NoFewerLeaves(nodes: seq<Node>)
    requires AllFull(nodes)
    ensures |nodes| <= |Leaves(nodes)|
  {
    if nodes != [] {
      assert nodes[0] in nodes;
      NoFewerLeaves(nodes[1..]);
    }
  }

  predicate NotEmpty(n: Node) { n.Array? ==> Leaves(n.elements) != [] }

  predicate AllFull(nodes: seq<Node>) { forall n <- nodes :: NotEmpty(n) }

  predicate HasArray(nodes: seq<Node>) { exists n <- nodes :: n.Array? }

  lemma Prepended(n: Node, nodes: seq<Node>)
    ensures AllFull([n] + nodes) <==> NotEmpty(n) && AllFull(nodes)
    ensures HasArray([n] + nodes) <==> n.Array? || HasArray(nodes)
  {
    assert forall m :: m in [n] + nodes <==> m == n || m in nodes;
    assert n in [n] + nodes;
  }

  lemma LeavesSoFar(child: seq<Node>, i: nat)
    requires i < |child|
    ensures Leaves(child[..i + 1]) == Leaves(child[..i]) + Leaves([child[i]])
    ensures |Leaves(child[..i + 1])| <= |Leaves(child)|
  {
    assert child[..i + 1] == child[..i] + [child[i]];
    LeavesConcat(child[..i], [child[i]]);
    assert child == child[..i + 1] + child[i + 1..];
    LeavesConcat(child[..i + 1], child[i + 1..]);
  }

  /** The elements from one on have been moved up, and left nulls behind. */
  predicate Shifted(e: seq<Option<Node>>, was: seq<Option<Node>>, from: nat, count: nat) {
    from <= |was| && |e| == |was| + count
    && (forall k :: 0 <= k < from ==> e[k] == was[k])
    && (forall k :: from <= k < from + count ==> e[k] == None)
    && (forall k :: from + count <= k < |e| ==> e[k] == was[k - count])
  }

  lemma ShiftOne(e: seq<Option<Node>>, was: seq<Option<Node>>, left: nat, count: nat)
    requires Shifted(e, was, left + 1, count) && count >= 1
    ensures Shifted(e[left + count := e[left]][left := None], was, left, count)
  {
  }

  lemma ShiftedFrom(e: seq<Option<Node>>, was: seq<Option<Node>>, from: nat, count: nat)
    requires Shifted(e, was, from, count)
    ensures e == was[..from] + Nulls(count) + was[from..]
  {
  }
}
