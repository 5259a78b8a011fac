/**
  Paths in numbers: what dots, brackets and blanks do in a path string, and where each component
  leads (util/toml.hpp, parse_path, at_path and path::print_to).
 */
module PathLaws {
  import opened Wrappers
  import opened Utf8
  import opened IntegerText
  import opened Path

  /** Without a dot, 0x2E, and the brackets 0x5B and 0x5D. */
  predicate Plain(t: Text) { forall k :: 0 <= k < |t| ==> t[k] != 0x2E && t[k] != 0x5B && t[k] != 0x5D }

  predicate Space(t: Text) { forall k :: 0 <= k < |t| ==> t[k] == 0x20 || t[k] == 0x09 }

  predicate Decimal(t: Text) { t != [] && forall k :: 0 <= k < |t| ==> 0x30 <= t[k] <= 0x39 }

  // ---------------------------------------------------------------------------------------
  // Keys and dots
  // ---------------------------------------------------------------------------------------

  /** A round that yields a component, or none. */
  lemma Yields(path: Text, s: Scan, next: Scan, c: Component, acc: seq<Component>)
    requires s.pos < |path| && OneRound(path, s) == Go(next, Some(c))
    ensures Drive(path, s, acc, Collect) == Drive(path, next, acc + [c], Collect)
  {
  }

  lemma YieldsNothing(path: Text, s: Scan, next: Scan, acc: seq<Component>)
    requires s.pos < |path| && OneRound(path, s) == Go(next, None)
    ensures Drive(path, s, acc, Collect) == Drive(path, next, acc, Collect)
  {
  }

  lemma KeyAt(path: Text, pos: nat, a: Text, dot: bool)
    requires Plain(a) && a != [] && pos + |a| <= |path| && path[pos..pos + |a|] == a
    requires pos + |a| < |path| ==> path[pos + |a|] == 0x2E || path[pos + |a|] == 0x5B
    ensures OneRound(path, Scan(pos, false, dot)) == Go(Scan(pos + |a|, false, false), Some(Key(a)))
  {
    forall k | pos <= k < pos + |a|
      ensures !IsSpecial(path[k])
    {
      assert path[k] == a[k - pos];
    }
    KeyEndIs(path, pos + 1, pos + |a|);
  }

  /** A text without dots and brackets is one key, the empty text too. */
  lemma OneKey(a: Text)
    requires Plain(a)
    ensures Components(a) == Some([Key(a)])
  {
    assert [] + [Key(a)] == [Key(a)];
    if a != [] {
      KeyAt(a, 0, a, true);
      Yields(a, Path.START, Scan(|a|, false, false), Key(a), []);
    }
  }

  /** A dot stands between two keys, empty ones too. */
  lemma DotSplits(a: Text, b: Text)
    requires Plain(a) && Plain(b)
    ensures Components(a + [0x2E] + b) == Some([Key(a), Key(b)])
  {
    var path, n := a + [0x2E] + b, |a| + 1;
    assert path[|a|] == 0x2E && path[..|a|] == a && path[n..] == b && path[n..n + |b|] == b;
    assert [] + [Key(a)] == [Key(a)] && [Key(a)] + [Key(b)] == [Key(a), Key(b)];
    if a == [] {
      Yields(path, Path.START, Scan(1, false, true), Key([]), []);
    } else {
      KeyAt(path, 0, a, true);
      Yields(path, Path.START, Scan(|a|, false, false), Key(a), []);
      YieldsNothing(path, Scan(|a|, false, false), Scan(n, false, true), [Key(a)]);
    }
    if b != [] {
      KeyAt(path, n, b, true);
      Yields(path, Scan(n, false, true), Scan(|path|, false, false), Key(b), [Key(a)]);
    }
  }

  // ---------------------------------------------------------------------------------------
  // Indices
  // ---------------------------------------------------------------------------------------

  lemma {:induction false} SpaceEnds(path: Text, pos: nat, end: nat)
    requires pos <= end <= |path| && Space(path[pos..end]) && (end < |path| ==> path[end] != 0x20 && path[end] != 0x09)
    ensures Blanks(path, pos) == end
    decreases end - pos
  {
    if pos < end {
      assert path[pos..end][0] == path[pos] && path[pos..end][1..] == path[pos + 1..end];
      SpaceEnds(path, pos + 1, end);
    }
  }

  /** Digits between brackets, with blanks around them, are the index they denote, if it fits 64 bits. */
  lemma IndexMeans(w: Text, d: Text, v: Text)
    requires Space(w) && Decimal(d) && Space(v)
    ensures AllDigits(10, d)
    ensures Components([0x5B] + w + d + v + [0x5D])
            == if Value(10, d) < 0x1_0000_0000_0000_0000 then Some([Index(Value(10, d))]) else None
  {
    assert AllDigits(10, d);
    var path := [0x5B] + w + d + v + [0x5D];
    var start := 1 + |w|;
    var end := start + |d|;
    var stop := end + |v|;
    BracketParts(path, w, d, v);
    SpaceEnds(path, 1, start);
    AfterDigits(path, start, end, d, v);
    SpaceEnds(path, end, stop);
    IndexIs(path, 0, start, end, stop, d);
    if Value(10, d) < 0x1_0000_0000_0000_0000 {
      Yields(path, Path.START, Scan(|path|, true, false), Index(Value(10, d)), []);
      assert [] + [Index(Value(10, d))] == [Index(Value(10, d))];
    }
  }

  /** The closing bracket may be left out at the end. */
  lemma OpenIndexMeans(d: Text)
    requires Decimal(d)
    ensures AllDigits(10, d)
    ensures Components([0x5B] + d)
            == if Value(10, d) < 0x1_0000_0000_0000_0000 then Some([Index(Value(10, d))]) else None
  {
    assert AllDigits(10, d);
    var path := [0x5B] + d;
    assert path[1..|path|] == d && path[1] == d[0] && path[1..1] == [];
    SpaceEnds(path, 1, 1);
    forall k | 1 <= k < |path|
      ensures IsDigit(10, path[k])
    {
      assert path[k] == d[k - 1];
    }
    DigitsEndIs(path, 2, |path|);
    IndexIs(path, 0, 1, |path|, |path|, d);
    if Value(10, d) < 0x1_0000_0000_0000_0000 {
      Yields(path, Path.START, Scan(|path|, true, false), Index(Value(10, d)), []);
      assert [] + [Index(Value(10, d))] == [Index(Value(10, d))];
    }
  }

  /** After an index only blanks, a dot or another index may stand. */
  lemma AfterIndex(d: Text, k: Text)
    requires Decimal(d) && Value10(d) < 0x1_0000_0000_0000_0000 && k != [] && Plain(k)
    ensures Components([0x5B] + d + [0x5D] + k) == if Space(k) then Some([Index(Value10(d))]) else None
  {
    var path, n := [0x5B] + d + [0x5D] + k, |d| + 2;
    assert path[1..1 + |d|] == d && path[1] == d[0] && path[1 + |d|] == 0x5D && path[n..] == k && path[1..1] == [];
    SpaceEnds(path, 1, 1);
    AfterDigits(path, 1, 1 + |d|, d, []);
    assert path[1 + |d|..1 + |d|] == [];
    SpaceEnds(path, 1 + |d|, 1 + |d|);
    IndexIs(path, 0, 1, 1 + |d|, 1 + |d|, d);
    Yields(path, Path.START, Scan(n, true, false), Index(Value10(d)), []);
    assert [] + [Index(Value10(d))] == [Index(Value10(d))];
    TextAfterIndex(path, n, k);
    if Space(k) {
      YieldsNothing(path, Scan(n, true, false), Scan(|path|, false, false), [Index(Value10(d))]);
    }
  }

  function Value10(d: Text): nat
    requires Decimal(d)
  {
    assert AllDigits(10, d);
    Value(10, d)
  }

  lemma TextAfterIndex(path: Text, n: nat, k: Text)
    requires n + |k| == |path| && path[n..] == k && k != [] && Plain(k)
    ensures OneRound(path, Scan(n, true, false)) == if Space(k) then Go(Scan(|path|, false, false), None) else Bad
  {
    forall i | n <= i < |path|
      ensures !IsSpecial(path[i])
    {
      assert path[i] == k[i - n];
    }
    KeyEndIs(path, n + 1, |path|);
    assert path[n..|path|] == k;
    assert AllBlank(k) <==> Space(k);
  }

  /** What an index comes to, once its parts are known. */
  lemma IndexIs(path: Text, pos: nat, start: nat, end: nat, stop: nat, d: Text)
    requires pos < |path| && path[pos] == OPEN && start == Blanks(path, pos + 1)
    requires start < |path| && IsDigit(10, path[start]) && end == Path.DigitsEnd(path, start + 1)
    requires stop == Blanks(path, end) && path[start..end] == d && AllDigits(10, d)
    ensures OneRound(path, Scan(pos, false, true))
            == if (stop < |path| && !IsSpecial(path[stop])) || Value(10, d) > MAX_INDEX then Bad
               else Go(Scan(if stop < |path| && path[stop] == CLOSE then stop + 1 else stop, true, false),
                       Some(Index(Value(10, d))))
  {
  }

  lemma BracketParts(path: Text, w: Text, d: Text, v: Text)
    requires path == [0x5B] + w + d + v + [0x5D] && d != []
    ensures var start := 1 + |w|;
            var end := start + |d|;
            var stop := end + |v|;
            path[0] == 0x5B && path[1..start] == w && path[start..end] == d && path[start] == d[0]
            && path[end..stop] == v && path[stop] == 0x5D && stop + 1 == |path|
            && path[end] == if v == [] then 0x5D else v[0]
  {
  }

  lemma AfterDigits(path: Text, start: nat, end: nat, d: Text, v: Text)
    requires start < end < |path| && path[start..end] == d && Decimal(d) && Space(v)
    requires path[end] == if v == [] then 0x5D else v[0]
    ensures Path.DigitsEnd(path, start + 1) == end
  {
    forall k | start <= k < end
      ensures IsDigit(10, path[k])
    {
      assert path[k] == d[k - start];
    }
    DigitsEndIs(path, start + 1, end);
  }

  /** A closing bracket that closes nothing, and an opening one without a digit, are no path. */
  lemma BracketsFail(w: Text, c: Scalar, t: Text)
    requires Space(w) && c != 0x20 && c != 0x09 && !(0x30 <= c <= 0x39)
    ensures Components([0x5D] + t) == None && Components([0x5B] + w + [c] + t) == None && Components([0x5B] + w) == None
  {
    var path, open := [0x5B] + w + [c] + t, [0x5B] + w;
    assert path[1..1 + |w|] == w && path[1 + |w|] == c && open[1..] == w;
    SpaceEnds(path, 1, 1 + |w|);
    SpaceEnds(open, 1, |open|);
    assert ([0x5D] + t)[0] == 0x5D;
  }

  // ---------------------------------------------------------------------------------------
  // Printing and navigating
  // ---------------------------------------------------------------------------------------

  /** One more component: a key after a dot unless it is the first, an index in brackets, in decimal digits. */
  lemma PrintedInNumbers(cs: seq<Component>, c: Component)
    ensures c.Key? ==> Printed(cs + [c]) == if cs == [] then c.key else Printed(cs) + ([0x2E] + c.key)
    ensures c.Index? ==> Printed(cs + [c]) == Printed(cs) + ([0x5B] + Shown(10, c.index) + [0x5D])
    ensures c.Index? ==> AllDigits(10, Shown(10, c.index)) && Value(10, Shown(10, c.index)) == c.index
  {
    if c.Index? {
      ShownValue(10, c.index);
    }
    if cs == [] {
      assert [c][1..] == [] && [] + [c] == [c];
      NothingAfter(if c.Key? then c.key else Shown1(c));
    } else {
      assert (cs + [c])[1..] == cs[1..] + [c] && (cs + [c])[0] == cs[0];
      TailMore(cs[1..], c);
      Together(if cs[0].Key? then cs[0].key else Shown1(cs[0]), Path.Tail(cs[1..]), Shown1(c));
    }
  }

  lemma NothingAfter(t: Text)
    ensures t + Path.Tail([]) == t && [] + t == t
  {
  }

  lemma Together(a: Text, b: Text, c: Text)
    ensures a + (b + c) == a + b + c
  {
  }

  lemma {:induction false} TailMore(cs: seq<Component>, c: Component)
    ensures Path.Tail(cs + [c]) == Path.Tail(cs) + Shown1(c)
  {
    if cs == [] {
      assert [] + [c] == [c] && [c][1..] == [];
      NothingAfter(Shown1(c));
    } else {
      assert (cs + [c])[1..] == cs[1..] + [c];
      TailMore(cs[1..], c);
      Together(Shown1(cs[0]), Path.Tail(cs[1..]), Shown1(c));
    }
  }

  /** In a value or an empty container there is nothing to be found, not even it. */
  lemma NothingInside(root: Node, cs: seq<Component>)
    ensures AtPath(root, cs) == None
            <== root.Leaf? || (root.Table? && root.children == map[]) || (root.Array? && root.elements == [])
    ensures AtPath(root, []) == None
            ==> root.Leaf? || (root.Table? && root.children == map[]) || (root.Array? && root.elements == [])
  {
  }

  /** No component leads nowhere; one more leads from a table to the child of that key and from an array to the element
      at that place, counted from zero. */
  lemma NavigationSteps(root: Node, cs: seq<Component>, k: Text, i: nat)
    requires !Bare(root)
    ensures AtPath(root, []) == Some(root)
    ensures AtPath(root, cs + [Key(k)])
            == match AtPath(root, cs)
               case Some(Table(_, children)) => if k in children then Some(children[k]) else None
               case _ => None
    ensures AtPath(root, cs + [Index(i)])
            == match AtPath(root, cs)
               case Some(Array(_, elements)) => if i < |elements| then Some(elements[i]) else None
               case _ => None
  {
    FoldOne(cs, Key(k), root, Down);
    FoldOne(cs, Index(i), root, Down);
  }
}
