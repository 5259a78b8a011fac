/**
  Paths of the TOML library (util/toml.hpp): parse_path with its callbacks, the printer, and
  at_path by string and by path.
 */
module Path {
  import opened Wrappers
  import opened Utf8
  import opened IntegerText

  datatype Component = Key(key: Text) | Index(index: nat)

  const DOT: Scalar := '.' as int
  const OPEN: Scalar := '[' as int
  const CLOSE: Scalar := ']' as int
  const MAX_INDEX := 0xFFFF_FFFF_FFFF_FFFF

  predicate IsBlank(c: Scalar) { c == ' ' as int || c == '\t' as int }

  predicate IsSpecial(c: Scalar) { c == DOT || c == OPEN || c == CLOSE }

  // ---------------------------------------------------------------------------------------
  // One round of the parser
  // ---------------------------------------------------------------------------------------

  /** Where a run of blanks ends. */
  function Blanks(path: Text, pos: nat): (end: nat)
    requires pos <= |path|
    ensures pos <= end <= |path|
    decreases |path| - pos
  {
    if pos < |path| && IsBlank(path[pos]) then Blanks(path, pos + 1) else pos
  }

  /** Where a run of digits ends. */
  function DigitsEnd(path: Text, pos: nat): (end: nat)
    requires pos <= |path|
    ensures pos <= end <= |path| && forall k :: pos <= k < end ==> IsDigit(10, path[k])
    decreases |path| - pos
  {
    if pos < |path| && IsDigit(10, path[pos]) then DigitsEnd(path, pos + 1) else pos
  }

  /** Where a run without dots and brackets ends. */
  function KeyEnd(path: Text, pos: nat): (end: nat)
    requires pos <= |path|
    ensures pos <= end <= |path| && forall k :: pos <= k < end ==> !IsSpecial(path[k])
    decreases |path| - pos
  {
    if pos < |path| && !IsSpecial(path[pos]) then KeyEnd(path, pos + 1) else pos
  }

  predicate AllBlank(t: Text) { forall k :: 0 <= k < |t| ==> IsBlank(t[k]) }

  /** Where the scan stands, and whether it has just passed an index or a dot. */
  datatype Scan = Scan(pos: nat, indexer: bool, dot: bool)
  datatype Round = Bad | Go(next: Scan, out: Option<Component>)

  /** An index: blanks, digits, blanks, and a closing bracket that may be left out. */
  function IndexRound(path: Text, pos: nat): (r: Round)
    requires pos < |path| && path[pos] == OPEN
    ensures r.Go? ==> pos < r.next.pos <= |path| && r.out.Some? && r.out.value.Index? && r.out.value.index <= MAX_INDEX
  {
    var start := Blanks(path, pos + 1);
    if start == |path| || !IsDigit(10, path[start]) then Bad
    else
      var end := DigitsEnd(path, start + 1);
      var stop := Blanks(path, end);
      if stop < |path| && !IsSpecial(path[stop]) then Bad
      else
        assert AllDigits(10, path[start..end]);
        var index := Value(10, path[start..end]);
        if index > MAX_INDEX then Bad
        else Go(Scan(if stop < |path| && path[stop] == CLOSE then stop + 1 else stop, true, false), Some(Index(index)))
  }

  function OneRound(path: Text, s: Scan): (r: Round)
    requires s.pos < |path|
    ensures r.Go? ==> s.pos < r.next.pos <= |path|
  {
    var c := path[s.pos];
    if c == OPEN then IndexRound(path, s.pos)
    else if c == DOT then Go(Scan(s.pos + 1, false, true), if s.dot then Some(Key([])) else None)
    else if c == CLOSE then Bad
    else
      var end := KeyEnd(path, s.pos + 1);
      if s.indexer then if AllBlank(path[s.pos..end]) then Go(Scan(end, false, false), None) else Bad
      else Go(Scan(end, false, false), Some(Key(path[s.pos..end])))
  }

  /** The parser, handing each component to a callback until one refuses. */
  function Drive<S>(path: Text, scan: Scan, state: S, on: (S, Component) -> Option<S>): Option<S>
    requires scan.pos <= |path|
    decreases |path| - scan.pos
  {
    if scan.pos == |path| then if scan.dot then on(state, Key([])) else Some(state)
    else
      match OneRound(path, scan)
      case Bad => None
      case Go(next, out) =>
        if out.None? then Drive(path, next, state, on)
        else
          match on(state, out.value)
          case None => None
          case Some(t) => Drive(path, next, t, on)
  }

  const START := Scan(0, false, true)

  function ParsePath<S>(path: Text, state: S, on: (S, Component) -> Option<S>): Option<S> {
    if path == [] then on(state, Key([])) else Drive(path, START, state, on)
  }

  /** The components of a path string, if it is one. */
  function Collect(cs: seq<Component>, c: Component): Option<seq<Component>> { Some(cs + [c]) }

  function Components(path: Text): Option<seq<Component>> { ParsePath(path, [], Collect) }

  // ---------------------------------------------------------------------------------------
  // Callbacks see the components in order
  // ---------------------------------------------------------------------------------------

  function Fold<S>(cs: seq<Component>, state: S, on: (S, Component) -> Option<S>): Option<S> {
    if cs == [] then Some(state)
    else
      match Fold(cs[..|cs| - 1], state, on)
      case None => None
      case Some(t) => on(t, cs[|cs| - 1])
  }

  lemma FoldOne<S>(cs: seq<Component>, c: Component, state: S, on: (S, Component) -> Option<S>)
    ensures Fold(cs + [c], state, on) == match Fold(cs, state, on) case None => None case Some(t) => on(t, c)
  {
    assert (cs + [c])[..|cs|] == cs;
  }

  lemma {:induction false} FoldStops<S>(a: seq<Component>, b: seq<Component>, state: S, on: (S, Component) -> Option<S>)
    requires a <= b && Fold(a, state, on).None?
    ensures Fold(b, state, on).None?
    decreases |b|
  {
    if |a| < |b| {
      FoldStops(a, b[..|b| - 1], state, on);
    } else {
      assert a == b;
    }
  }

  lemma {:induction false} DriveCollects(path: Text, scan: Scan, acc: seq<Component>)
    requires scan.pos <= |path|
    ensures var r := Drive(path, scan, acc, Collect); r.Some? ==> acc <= r.value
    decreases |path| - scan.pos
  {
    if scan.pos < |path| {
      var r := OneRound(path, scan);
      if r.Go? {
        DriveCollects(path, r.next, if r.out.None? then acc else acc + [r.out.value]);
      }
    }
  }

  lemma {:induction false} DriveFolds<S>(path: Text, scan: Scan, acc: seq<Component>, first: S, state: S,
                                         on: (S, Component) -> Option<S>)
    requires scan.pos <= |path| && Fold(acc, first, on) == Some(state)
    ensures Drive(path, scan, state, on)
            == match Drive(path, scan, acc, Collect) case None => None case Some(cs) => Fold(cs, first, on)
    decreases |path| - scan.pos
  {
    if scan.pos == |path| {
      FoldOne(acc, Key([]), first, on);
    } else {
      var r := OneRound(path, scan);
      if r.Go? {
        if r.out.None? {
          DriveFolds(path, r.next, acc, first, state, on);
        } else {
          FoldOne(acc, r.out.value, first, on);
          var t := on(state, r.out.value);
          if t.Some? {
            DriveFolds(path, r.next, acc + [r.out.value], first, t.value, on);
          } else {
            DriveCollects(path, r.next, acc + [r.out.value]);
            var all := Drive(path, r.next, acc + [r.out.value], Collect);
            if all.Some? {
              FoldStops(acc + [r.out.value], all.value, first, on);
            }
          }
        }
      }
    }
  }

  /** Parsing with a callback is parsing first and then handing over the components, for any callback. */
  lemma CallbacksSeeTheComponents<S>(path: Text, state: S, on: (S, Component) -> Option<S>)
    ensures ParsePath(path, state, on)
            == match Components(path) case None => None case Some(cs) => Fold(cs, state, on)
  {
    if path == [] {
      FoldOne([], Key([]), state, on);
      assert [] + [Key([])] == [Key([])];
    } else {
      DriveFolds(path, START, [], state, state, on);
    }
  }

  // ---------------------------------------------------------------------------------------
  // Navigation
  // ---------------------------------------------------------------------------------------

  datatype Node = Leaf(id: nat) | Table(id: nat, children: map<Text, Node>) | Array(id: nat, elements: seq<Node>)

  /** One step down, if there is something. */
  function Down(n: Node, c: Component): Option<Node> {
    match c
    case Key(k) => if n.Table? && k in n.children then Some(n.children[k]) else None
    case Index(i) => if n.Array? && i < |n.elements| then Some(n.elements[i]) else None
  }

  /** Values and empty containers are not entered. */
  predicate Bare(root: Node) {
    root.Leaf? || (root.Table? && root.children == map[]) || (root.Array? && root.elements == [])
  }

  function AtPathString(root: Node, path: Text): Option<Node> {
    if Bare(root) then None else ParsePath(path, root, Down)
  }

  function AtPath(root: Node, path: seq<Component>): Option<Node> {
    if Bare(root) then None else Fold(path, root, Down)
  }

  /** The path object made from a string: it has no components when the string is not a path. */
  function PathOf(path: Text): seq<Component> { match Components(path) case None => [] case Some(cs) => cs }

  /** Both ways of navigating reach the same node, exactly if the string is a path or the root is not entered at all. */
  lemma NavigationAgrees(root: Node, path: Text)
    ensures AtPathString(root, path) == AtPath(root, PathOf(path)) <==> Components(path).Some? || Bare(root)
    ensures Components(path).None? && !Bare(root)
            ==> AtPathString(root, path).None? && AtPath(root, PathOf(path)) == Some(root)
  {
    CallbacksSeeTheComponents(path, root, Down);
  }

  // ---------------------------------------------------------------------------------------
  // Printing
  // ---------------------------------------------------------------------------------------

  function Shown1(c: Component): Text { if c.Key? then [DOT] + c.key else [OPEN] + Shown(10, c.index) + [CLOSE] }

  /** The components after the first. */
  function Tail(cs: seq<Component>): Text { if cs == [] then [] else Shown1(cs[0]) + Tail(cs[1..]) }

  function Printed(cs: seq<Component>): Text {
    if cs == [] then [] else (if cs[0].Key? then cs[0].key else Shown1(cs[0])) + Tail(cs[1..])
  }

  predicate CleanKey(k: Text) { forall i :: 0 <= i < |k| ==> !IsSpecial(k[i]) }

  predicate Clean(c: Component) { if c.Key? then CleanKey(c.key) else c.index <= MAX_INDEX }

  predicate AllClean(cs: seq<Component>) { forall c <- cs :: Clean(c) }

  /** An empty key with an index after it. */
  predicate Lost(cs: seq<Component>, i: nat) { i + 1 < |cs| && cs[i] == Key([]) && cs[i + 1].Index? }

  /** The components without the empty keys that stand before an index. */
  function Kept(cs: seq<Component>): seq<Component> {
    if cs == [] then [] else if Lost(cs, 0) then Kept(cs[1..]) else [cs[0]] + Kept(cs[1..])
  }

  // ---------------------------------------------------------------------------------------
  // Round trip
  // ---------------------------------------------------------------------------------------

  lemma {:induction false} DigitsEndIs(path: Text, pos: nat, end: nat)
    requires pos <= end <= |path| && (end < |path| ==> !IsDigit(10, path[end]))
    requires forall k :: pos <= k < end ==> IsDigit(10, path[k])
    ensures DigitsEnd(path, pos) == end
    decreases end - pos
  {
    if pos < end {
      DigitsEndIs(path, pos + 1, end);
    }
  }

  lemma {:induction false} KeyEndIs(path: Text, pos: nat, end: nat)
    requires pos <= end <= |path| && (end < |path| ==> IsSpecial(path[end]))
    requires forall k :: pos <= k < end ==> !IsSpecial(path[k])
    ensures KeyEnd(path, pos) == end
    decreases end - pos
  {
    if pos < end {
      KeyEndIs(path, pos + 1, end);
    }
  }

  /** Digits between brackets are an index. */
  lemma IndexReads(path: Text, pos: nat, end: nat, d: Text)
    requires pos + 1 < end < |path| && path[pos] == OPEN && path[pos + 1..end] == d && path[end] == CLOSE
    requires AllDigits(10, d) && Value(10, d) <= MAX_INDEX
    ensures IndexRound(path, pos) == Go(Scan(end + 1, true, false), Some(Index(Value(10, d))))
  {
    DigitsStand(path, pos + 1, end, d);
    NoBlank(path, pos + 1);
    NoBlank(path, end);
  }

  lemma DigitsStand(path: Text, start: nat, end: nat, d: Text)
    requires start < end < |path| && path[start..end] == d && path[end] == CLOSE && AllDigits(10, d)
    ensures IsDigit(10, path[start]) && DigitsEnd(path, start + 1) == end
  {
    forall k | start <= k < end
      ensures IsDigit(10, path[k])
    {
      assert path[k] == d[k - start];
    }
    DigitsEndIs(path, start + 1, end);
  }

  lemma NoBlank(path: Text, pos: nat)
    requires pos < |path| && (IsDigit(10, path[pos]) || IsSpecial(path[pos]))
    ensures Blanks(path, pos) == pos
  {
  }

  /** The text from a position on. */
  predicate Rest(path: Text, pos: nat, t: Text) { pos <= |path| && path[pos..] == t }

  lemma RestOf(path: Text, pos: nat, a: Text, b: Text)
    requires Rest(path, pos, a + b)
    ensures Rest(path, pos + |a|, b) && path[pos..pos + |a|] == a && |path| == pos + |a| + |b|
  {
    assert path[pos..][..|a|] == a && path[pos..][|a|..] == b;
    assert path[pos..pos + |a|] == path[pos..][..|a|];
  }

  lemma IndexShown(path: Text, pos: nat, d: Text, rest: Text)
    requires d != [] && AllDigits(10, d) && Value(10, d) <= MAX_INDEX && Rest(path, pos, [OPEN] + d + [CLOSE] + rest)
    ensures var n := pos + 2 + |d|;
            n <= |path| && path[pos] == OPEN
            && IndexRound(path, pos) == Go(Scan(n, true, false), Some(Index(Value(10, d)))) && Rest(path, n, rest)
  {
    Bracketed(path, pos, d, rest);
    IndexReads(path, pos, pos + 1 + |d|, d);
  }

  lemma Bracketed(path: Text, pos: nat, d: Text, rest: Text)
    requires Rest(path, pos, [OPEN] + d + [CLOSE] + rest)
    ensures pos + 2 + |d| <= |path| && path[pos] == OPEN && path[pos + 1..pos + 1 + |d|] == d
    ensures path[pos + 1 + |d|] == CLOSE && Rest(path, pos + 2 + |d|, rest)
  {
    RestOf(path, pos, [OPEN] + d + [CLOSE], rest);
    var t := path[pos..pos + 2 + |d|];
    assert t == [OPEN] + d + [CLOSE];
    assert t[0] == OPEN && t[1 + |d|] == CLOSE && t[1..1 + |d|] == d;
    assert path[pos + 1..pos + 1 + |d|] == t[1..1 + |d|];
  }

  /** What follows a component in print begins with a dot or a bracket, or is nothing. */
  lemma TailStarts(cs: seq<Component>)
    ensures Tail(cs) == [] <==> cs == []
    ensures Tail(cs) != [] ==> IsSpecial(Tail(cs)[0])
  {
  }

  lemma KeyReads(path: Text, pos: nat, k: Text, rest: seq<Component>, dot: bool)
    requires k != [] && CleanKey(k) && Rest(path, pos, k + Tail(rest))
    ensures pos < |path| && OneRound(path, Scan(pos, false, dot)) == Go(Scan(pos + |k|, false, false), Some(Key(k)))
    ensures Rest(path, pos + |k|, Tail(rest))
  {
    var end := pos + |k|;
    RestOf(path, pos, k, Tail(rest));
    if rest != [] {
      TailStarts(rest);
      assert path[end] == path[end..][0];
    }
    KeyStands(path, pos, end, k);
  }

  lemma KeyStands(path: Text, pos: nat, end: nat, k: Text)
    requires pos < end <= |path| && path[pos..end] == k && CleanKey(k) && (end < |path| ==> IsSpecial(path[end]))
    ensures !IsSpecial(path[pos]) && KeyEnd(path, pos + 1) == end
  {
    forall i | pos <= i < end
      ensures !IsSpecial(path[i])
    {
      assert path[i] == k[i - pos];
    }
    KeyEndIs(path, pos + 1, end);
  }

  /** One round, with what it yields. */
  lemma DriveOne(path: Text, scan: Scan, next: Scan, out: seq<Component>, acc: seq<Component>)
    requires scan.pos < |path| && |out| <= 1
             && OneRound(path, scan) == Go(next, if out == [] then None else Some(out[0]))
    ensures Drive(path, scan, acc, Collect) == Drive(path, next, acc + out, Collect)
  {
    if out == [] {
      assert acc + out == acc;
    } else {
      assert out == [out[0]];
    }
  }

  lemma KeepsFirst(cs: seq<Component>, acc: seq<Component>)
    requires cs != [] && !Lost(cs, 0)
    ensures acc + [cs[0]] + Kept(cs[1..]) == acc + Kept(cs)
  {
  }

  lemma DotReads(path: Text, pos: nat, scan: Scan, k: Text, rest: Text)
    requires scan.pos == pos && Rest(path, pos, [DOT] + k + rest)
    ensures pos < |path| && Rest(path, pos + 1, k + rest)
    ensures OneRound(path, scan) == Go(Scan(pos + 1, false, true), if scan.dot then Some(Key([])) else None)
  {
    assert [DOT] + k + rest == [DOT] + (k + rest);
    RestOf(path, pos, [DOT], k + rest);
    assert path[pos] == path[pos..pos + 1][0];
  }

  /** Reading on after a component. */
  lemma {:induction false} TailReads(path: Text, pos: nat, indexer: bool, cs: seq<Component>, acc: seq<Component>)
    requires AllClean(cs) && Rest(path, pos, Tail(cs))
    ensures Drive(path, Scan(pos, indexer, false), acc, Collect) == Some(acc + Kept(cs))
    decreases |cs|, 3
  {
    var scan := Scan(pos, indexer, false);
    if cs == [] {
      assert acc + Kept(cs) == acc;
    } else if cs[0].Index? {
      IndexTailReads(path, pos, scan, cs, acc);
    } else {
      KeyTailReads(path, pos, scan, cs, acc);
    }
  }

  lemma {:induction false} KeyTailReads(path: Text, pos: nat, scan: Scan, cs: seq<Component>, acc: seq<Component>)
    requires cs != [] && cs[0].Key? && AllClean(cs) && Rest(path, pos, [DOT] + cs[0].key + Tail(cs[1..]))
    requires scan.pos == pos && !scan.dot
    ensures Drive(path, scan, acc, Collect) == Some(acc + Kept(cs))
    decreases |cs|, 2
  {
    DotReads(path, pos, scan, cs[0].key, Tail(cs[1..]));
    DriveOne(path, scan, Scan(pos + 1, false, true), [], acc);
    assert acc + [] == acc;
    AfterDotReads(path, pos + 1, cs, acc);
  }

  lemma {:induction false} IndexTailReads(path: Text, pos: nat, scan: Scan, cs: seq<Component>, acc: seq<Component>)
    requires cs != [] && cs[0].Index? && AllClean(cs) && Rest(path, pos, Tail(cs)) && scan.pos == pos
    ensures Drive(path, scan, acc, Collect) == Some(acc + Kept(cs))
    decreases |cs|, 1
  {
    assert cs[0] in cs;
    ShownValue(10, cs[0].index);
    DigitsTailRead(path, pos, scan, cs, acc, Shown(10, cs[0].index));
  }

  lemma {:induction false} DigitsTailRead(path: Text, pos: nat, scan: Scan, cs: seq<Component>, acc: seq<Component>,
                                          d: Text)
    requires cs != [] && AllClean(cs) && scan.pos == pos && Rest(path, pos, [OPEN] + d + [CLOSE] + Tail(cs[1..]))
    requires d != [] && AllDigits(10, d) && Value(10, d) <= MAX_INDEX && cs[0] == Index(Value(10, d))
    ensures Drive(path, scan, acc, Collect) == Some(acc + Kept(cs))
    decreases |cs|, 0
  {
    IndexShown(path, pos, d, Tail(cs[1..]));
    var next := Scan(pos + 2 + |d|, true, false);
    DriveOne(path, scan, next, [cs[0]], acc);
    TailReads(path, next.pos, true, cs[1..], acc + [cs[0]]);
    KeepsFirst(cs, acc);
  }

  /** Reading on after a dot, or at the start, where a key is due. */
  lemma {:induction false} AfterDotReads(path: Text, pos: nat, cs: seq<Component>, acc: seq<Component>)
    requires cs != [] && cs[0].Key? && AllClean(cs) && Rest(path, pos, cs[0].key + Tail(cs[1..]))
    ensures Drive(path, Scan(pos, false, true), acc, Collect) == Some(acc + Kept(cs))
    decreases |cs|, 1
  {
    if cs[0].key == [] {
      NothingBefore(cs[0].key, Tail(cs[1..]));
      EmptyKeyReads(path, pos, cs, acc);
    } else {
      FullKeyReads(path, pos, cs, acc);
    }
  }

  lemma NothingBefore(a: Text, b: Text)
    requires a == []
    ensures a + b == b
  {
  }

  lemma {:induction false} FullKeyReads(path: Text, pos: nat, cs: seq<Component>, acc: seq<Component>)
    requires cs != [] && cs[0].Key? && cs[0].key != [] && AllClean(cs) && Rest(path, pos, cs[0].key + Tail(cs[1..]))
    ensures Drive(path, Scan(pos, false, true), acc, Collect) == Some(acc + Kept(cs))
    decreases |cs|, 0
  {
    assert cs[0] in cs && [cs[0]][0] == Key(cs[0].key);
    var scan, next := Scan(pos, false, true), Scan(pos + |cs[0].key|, false, false);
    KeyReads(path, pos, cs[0].key, cs[1..], true);
    DriveOne(path, scan, next, [cs[0]], acc);
    TailReads(path, next.pos, false, cs[1..], acc + [cs[0]]);
    KeepsFirst(cs, acc);
  }

  /** An empty key is read at the next dot or at the end; an index hides it. */
  lemma {:induction false} EmptyKeyReads(path: Text, pos: nat, cs: seq<Component>, acc: seq<Component>)
    requires cs != [] && cs[0] == Key([]) && AllClean(cs) && Rest(path, pos, Tail(cs[1..]))
    ensures Drive(path, Scan(pos, false, true), acc, Collect) == Some(acc + Kept(cs))
    decreases |cs|, 0
  {
    var rest, scan := cs[1..], Scan(pos, false, true);
    if rest == [] {
      assert Kept(cs) == [cs[0]] + Kept(rest) == [Key([])];
    } else if rest[0].Index? {
      IndexTailReads(path, pos, scan, rest, acc);
    } else {
      DotReads(path, pos, scan, rest[0].key, Tail(rest[1..]));
      DriveOne(path, scan, scan.(pos := pos + 1), [cs[0]], acc);
      AfterDotReads(path, pos + 1, rest, acc + [cs[0]]);
      KeepsFirst(cs, acc);
    }
  }

  /** A printed path is read back, but for the empty keys that stand before an index. */
  lemma PrintedReads(cs: seq<Component>)
    requires cs != [] && AllClean(cs)
    ensures Components(Printed(cs)) == Some(Kept(cs))
  {
    var path := Printed(cs);
    assert path[0..] == path && [] + Kept(cs) == Kept(cs);
    TailStarts(cs);
    if cs[0].Index? {
      assert path == Tail(cs);
      IndexTailReads(path, 0, START, cs, []);
    } else if path == [] {
      TailStarts(cs[1..]);
      OnlyEmptyKey(cs);
    } else {
      AfterDotReads(path, 0, cs, []);
    }
  }

  lemma OnlyEmptyKey(cs: seq<Component>)
    requires |cs| == 1 && cs[0] == Key([])
    ensures Components([]) == Some(cs) && Kept(cs) == cs
  {
    assert [] + [Key([])] == cs;
  }

  /** The parser only yields keys without dots and brackets, and indices in range. */
  lemma {:induction false} DriveIsClean(path: Text, scan: Scan, acc: seq<Component>)
    requires scan.pos <= |path| && AllClean(acc)
    ensures var r := Drive(path, scan, acc, Collect); r.Some? ==> AllClean(r.value)
    decreases |path| - scan.pos
  {
    if scan.pos < |path| {
      var r := OneRound(path, scan);
      if r.Go? {
        DriveIsClean(path, r.next, if r.out.None? then acc else acc + [r.out.value]);
      }
    }
  }

  lemma {:induction false} KeptIsShorter(cs: seq<Component>)
    ensures |Kept(cs)| <= |cs|
    ensures Kept(cs) == cs <==> forall i :: 0 <= i < |cs| ==> !Lost(cs, i)
  {
    if cs != [] {
      KeptIsShorter(cs[1..]);
      assert forall i :: 0 <= i < |cs| - 1 ==> (Lost(cs[1..], i) <==> Lost(cs, i + 1));
      if Kept(cs) == cs {
        assert Kept(cs[1..]) == cs[1..];
        assert forall i :: 0 < i < |cs| ==> (Lost(cs, i) <==> Lost(cs[1..], i - 1));
      }
    }
  }

  /** A path survives printing and parsing exactly when it is not empty, its keys have no dots or brackets, its indices
      fit, and no empty key stands before an index. */
  lemma PathRoundTrip(cs: seq<Component>)
    ensures Components(Printed(cs)) == Some(cs)
            <==> cs != [] && AllClean(cs) && forall i :: 0 <= i < |cs| ==> !Lost(cs, i)
  {
    if cs != [] && AllClean(cs) {
      PrintedReads(cs);
      KeptIsShorter(cs);
    } else {
      DriveIsClean(Printed(cs), START, []);
    }
  }

  // ---------------------------------------------------------------------------------------
  // The parser, with its loops
  // ---------------------------------------------------------------------------------------

  method SkipBlanks(path: Text, pos: nat) returns (end: nat)
    requires pos <= |path|
    ensures end == Blanks(path, pos)
  {
    end := pos;
    while end < |path| && IsBlank(path[end])
      invariant pos <= end <= |path| && Blanks(path, pos) == Blanks(path, end)
    {
      end := end + 1;
    }
  }

  method SkipDigits(path: Text, pos: nat) returns (end: nat)
    requires pos <= |path|
    ensures end == DigitsEnd(path, pos)
  {
    end := pos;
    while end < |path| && IsDigit(10, path[end])
      invariant pos <= end <= |path| && DigitsEnd(path, pos) == DigitsEnd(path, end)
    {
      end := end + 1;
    }
  }

  /** An index, and where the scan goes on. */
  method ParseIndex(path: Text, pos: nat) returns (r: Round)
    requires pos < |path| && path[pos] == OPEN
    ensures r == IndexRound(path, pos)
  {
    var start := SkipBlanks(path, pos + 1);
    if start == |path| || !IsDigit(10, path[start]) {
      return Bad;
    }
    var end := SkipDigits(path, start + 1);
    var stop := SkipBlanks(path, end);
    if stop < |path| {
      if path[stop] == CLOSE {
        stop := stop + 1;
      } else if path[stop] != DOT && path[stop] != OPEN {
        return Bad;
      }
    }
    r := IndexNumber(path[start..end], stop);
  }

  method IndexNumber(digits: Text, stop: nat) returns (r: Round)
    requires digits != [] && AllDigits(10, digits)
    ensures r == if Value(10, digits) > MAX_INDEX then Bad
                 else Go(Scan(stop, true, false), Some(Index(Value(10, digits))))
  {
    var index, i := 0, 0;
    assert digits[..0] == [];
    while i < |digits|
      invariant 0 <= i <= |digits| && index == Value(10, digits[..i])
    {
      assert digits[..i + 1] == digits[..i] + [digits[i]];
      ValueAppend(10, digits[..i], digits[i]);
      index, i := index * 10 + DigitValue(10, digits[i]), i + 1;
    }
    assert digits[..i] == digits;
    return if index > MAX_INDEX then Bad else Go(Scan(stop, true, false), Some(Index(index)));
  }

  method ParseKey(path: Text, s: Scan) returns (r: Round)
    requires s.pos < |path| && !IsSpecial(path[s.pos])
    ensures r == OneRound(path, s)
  {
    var end := s.pos + 1;
    while end < |path| && !IsSpecial(path[end])
      invariant s.pos < end <= |path| && KeyEnd(path, s.pos + 1) == KeyEnd(path, end)
    {
      end := end + 1;
    }
    var key := path[s.pos..end];
    if s.indexer {
      var i := 0;
      while i < |key| && IsBlank(key[i])
        invariant 0 <= i <= |key| && forall k :: 0 <= k < i ==> IsBlank(key[k])
      {
        i := i + 1;
      }
      return if i == |key| then Go(Scan(end, false, false), None) else Bad;
    }
    return Go(Scan(end, false, false), Some(Key(key)));
  }

  method Parse<S>(path: Text, start: S, on: (S, Component) -> Option<S>) returns (r: Option<S>)
    ensures r == ParsePath(path, start, on)
  {
    if path == [] {
      return on(start, Key([]));
    }
    var state, scan := start, START;
    while scan.pos < |path|
      invariant scan.pos <= |path| && Drive(path, START, start, on) == Drive(path, scan, state, on)
      decreases |path| - scan.pos
    {
      var round: Round;
      if path[scan.pos] == OPEN {
        round := ParseIndex(path, scan.pos);
      } else if path[scan.pos] == DOT {
        round := Go(Scan(scan.pos + 1, false, true), if scan.dot then Some(Key([])) else None);
      } else if path[scan.pos] == CLOSE {
        return None;
      } else {
        round := ParseKey(path, scan);
      }
      if round.Bad? {
        return None;
      }
      if round.out.Some? {
        var t := on(state, round.out.value);
        if t.None? {
          return None;
        }
        state := t.value;
      }
      scan := round.next;
    }
    return if scan.dot then on(state, Key([])) else Some(state);
  }

  method Print(cs: seq<Component>) returns (out: Text)
    ensures out == Printed(cs)
  {
    out := [];
    var i := 0;
    while i < |cs|
      invariant 0 <= i <= |cs| && (i == 0 ==> out == []) && (i > 0 ==> Printed(cs) == out + Tail(cs[i..]))
    {
      var c := PrintComponent(cs[i], i == 0);
      PrintedNext(cs, i, out, c);
      out := out + c;
      i := i + 1;
    }
  }

  method PrintComponent(c: Component, root: bool) returns (out: Text)
    ensures out == if root && c.Key? then c.key else Shown1(c)
  {
    if c.Key? {
      return if root then c.key else [DOT] + c.key;
    }
    var digits := PrintIntegerToStream(c.index, NO_FORMAT, 0);
    NoPadding(Shown(10, c.index));
    out := [OPEN] + digits + [CLOSE];
  }

  lemma PrintedNext(cs: seq<Component>, i: nat, out: Text, c: Text)
    requires i < |cs| && c == if i == 0 && cs[i].Key? then cs[i].key else Shown1(cs[i])
    requires if i == 0 then out == [] else Printed(cs) == out + Tail(cs[i..])
    ensures Printed(cs) == out + c + Tail(cs[i + 1..])
  {
    if i == 0 {
      assert out + c == c;
    } else {
      TailStep(cs, i);
      Regroup(out, c, Tail(cs[i + 1..]));
    }
  }

  lemma TailStep(cs: seq<Component>, i: nat)
    requires i < |cs|
    ensures Tail(cs[i..]) == Shown1(cs[i]) + Tail(cs[i + 1..])
  {
    assert cs[i..][0] == cs[i] && cs[i..][1..] == cs[i + 1..];
  }

  lemma Regroup(a: Text, b: Text, c: Text)
    ensures a + (b + c) == a + b + c
  {
  }

  /** Step by step down the components of a path. */
  method Navigate(root: Node, path: seq<Component>) returns (r: Option<Node>)
    ensures r == AtPath(root, path)
  {
    if Bare(root) {
      return None;
    }
    var current, i := root, 0;
    assert path[..0] == [];
    while i < |path|
      invariant 0 <= i <= |path| && Fold(path[..i], root, Down) == Some(current)
    {
      assert path[..i + 1] == path[..i] + [path[i]];
      FoldOne(path[..i], path[i], root, Down);
      var next := Down(current, path[i]);
      if next.None? {
        FoldStops(path[..i + 1], path, root, Down);
        return None;
      }
      current, i := next.value, i + 1;
    }
    assert path[..i] == path;
    return Some(current);
  }
}
