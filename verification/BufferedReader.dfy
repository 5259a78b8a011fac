/**
  The look-back buffer over the code point reader (util/toml.hpp, utf8_buffered_reader): a
  ring of the last 127 code points before the head, and an offset that counts how far back
  the parser has stepped. It behaves as a plain cursor over the code points.
 */
module BufferedReader {
  import opened Wrappers

  const MAX_HISTORY_LENGTH := 128
  const HISTORY_BUFFER_SIZE := MAX_HISTORY_LENGTH - 1

  // ---------------------------------------------------------------------------------------
  // The plain cursor
  // ---------------------------------------------------------------------------------------

  datatype Op = ReadNext | StepBack(count: nat)

  /** The cursor starts before the first element and stays one past the last at the end. */
  function Moved(op: Op, cursor: int, length: nat): int {
    match op
    case ReadNext => if cursor < length then cursor + 1 else cursor
    case StepBack(n) => cursor - n
  }

  function At<T>(source: seq<T>, cursor: int): Option<T> {
    if 0 <= cursor < |source| then Some(source[cursor]) else None
  }

  function CursorAfter(ops: seq<Op>, length: nat): int {
    if ops == [] then -1 else Moved(ops[|ops| - 1], CursorAfter(ops[..|ops| - 1], length), length)
  }

  /** What each operation of a run returns when the reader is a plain cursor. */
  ghost function CursorResults<T>(source: seq<T>, ops: seq<Op>): (results: seq<Option<T>>)
    ensures |results| == |ops|
  {
    seq(|ops|, k requires 0 <= k < |ops| => At(source, CursorAfter(ops[..k + 1], |source|)))
  }

  /** The furthest the cursor has been: the index of the head. */
  function Furthest(ops: seq<Op>, length: nat): int {
    if ops == [] then -1
    else
      var before, now := Furthest(ops[..|ops| - 1], length), CursorAfter(ops, length);
      if now > before then now else before
  }

  /** What step_back demands: something in the ring, and no more than the ring holds. */
  predicate MayStepBack(ops: seq<Op>, n: nat, length: nat) {
    var furthest := Furthest(ops, length);
    0 < furthest
    && furthest - CursorAfter(ops, length) + n
       <= (if furthest < HISTORY_BUFFER_SIZE then furthest else HISTORY_BUFFER_SIZE)
  }

  function Reads(n: nat): seq<Op> { seq(n, _ => ReadNext) }

  lemma {:induction false} AfterReads(ops: seq<Op>, n: nat, length: nat)
    requires CursorAfter(ops, length) + n <= length
    ensures CursorAfter(ops + Reads(n), length) == CursorAfter(ops, length) + n
    ensures var f := Furthest(ops, length);
            Furthest(ops + Reads(n), length)
            == if n > 0 && CursorAfter(ops, length) + n > f then CursorAfter(ops, length) + n else f
  {
    if n == 0 {
      assert ops + Reads(0) == ops;
    } else {
      AfterReads(ops, n - 1, length);
      var all := ops + Reads(n);
      assert all[..|all| - 1] == ops + Reads(n - 1);
    }
  }

  /** Reading from the start gives the elements in order, and then nothing. */
  lemma {:induction false} PlainReading<T>(source: seq<T>, n: nat)
    ensures CursorAfter(Reads(n), |source|) == if n <= |source| then n - 1 else |source|
    ensures n > 0 ==> At(source, CursorAfter(Reads(n), |source|)) == if n <= |source| then Some(source[n - 1]) else None
  {
    if n > 0 {
      PlainReading(source, n - 1);
      assert Reads(n)[..n - 1] == Reads(n - 1);
    }
  }

  lemma {:induction false} CursorIsBehind(ops: seq<Op>, length: nat)
    ensures CursorAfter(ops, length) <= Furthest(ops, length) <= length
  {
    if ops != [] {
      CursorIsBehind(ops[..|ops| - 1], length);
    }
  }

  /** Scanning n code points ahead and stepping back n is allowed exactly when the head is then within the ring,
      and it leaves the cursor where it was. */
  lemma StepBackUndoesReads(ops: seq<Op>, n: nat, length: nat)
    requires 0 <= CursorAfter(ops, length) && CursorAfter(ops, length) + n <= length && n > 0
    ensures var c, f := CursorAfter(ops, length), Furthest(ops, length);
            MayStepBack(ops + Reads(n), n, length) <==> (if c + n > f then n else f - c) <= 127
    ensures CursorAfter(ops + Reads(n) + [StepBack(n)], length) == CursorAfter(ops, length)
  {
    AfterReads(ops, n, length);
    CursorIsBehind(ops, length);
    var all := ops + Reads(n) + [StepBack(n)];
    assert all[..|all| - 1] == ops + Reads(n);
  }

  // ---------------------------------------------------------------------------------------
  // The ring
  // ---------------------------------------------------------------------------------------

  class Reader<T(0)> {
    const source: seq<T>      // what the underlying reader delivers, one element a call
    var taken: nat
    const buffer: array<T>
    var count: nat
    var first: nat
    var head: Option<T>
    var negativeOffset: nat
    ghost var ops: seq<Op>    // the run so far, and what it returned
    ghost var results: seq<Option<T>>

    ghost function Cursor(): int
      reads this
    {
      CursorAfter(ops, |source|)
    }

    ghost predicate Valid()
      reads this, buffer
    {
      var h := first + count;
      && buffer.Length == HISTORY_BUFFER_SIZE && count <= HISTORY_BUFFER_SIZE
      && (first > 0 ==> count == HISTORY_BUFFER_SIZE)
      && negativeOffset <= count && h <= |source|
      && (forall e :: first <= e < h ==> buffer[e % HISTORY_BUFFER_SIZE] == source[e])
      && (if Furthest(ops, |source|) < 0 then h == taken == 0 && head == None && Cursor() == -1
          else Furthest(ops, |source|) == h && Cursor() == h - negativeOffset && head == At(source, h)
               && taken == (if h < |source| then h + 1 else h))
      && results == CursorResults(source, ops)
    }

    constructor (source: seq<T>)
      ensures Valid() && fresh(buffer) && this.source == source && ops == []
    {
      this.source := source;
      buffer := new T[HISTORY_BUFFER_SIZE];
      taken, count, first, negativeOffset := 0, 0, 0, 0;
      head := None;
      ops, results := [], [];
    }

    /** The underlying reader. */
    method Take() returns (next: Option<T>)
      modifies this`taken
      ensures next == At(source, old(taken))
      ensures taken == if old(taken) < |source| then old(taken) + 1 else old(taken)
    {
      if taken < |source| {
        next := Some(source[taken]);
        taken := taken + 1;
      } else {
        next := None;
      }
    }

    /** Appends an operation and its result to the run. */
    ghost method Record(op: Op, result: Option<T>)
      requires results == CursorResults(source, ops)
      requires result == At(source, Moved(op, Cursor(), |source|))
      modifies this`ops, this`results
      ensures ops == old(ops) + [op] && results == old(results) + [result]
      ensures results == CursorResults(source, ops)
      ensures Cursor() == Moved(op, old(Cursor()), |source|)
      ensures Furthest(ops, |source|) == if Cursor() > old(Furthest(ops, |source|)) then Cursor()
              else old(Furthest(ops, |source|))
    {
      ghost var before := ops;
      ops := ops + [op];
      assert ops[..|before|] == before;
      results := results + [result];
      assert ops[..|before| + 1] == ops;
      forall k | 0 <= k < |before|
        ensures results[k] == CursorResults(source, ops)[k]
      {
        assert ops[..k + 1] == before[..k + 1];
      }
    }

    /** The head moves into the ring, over the oldest entry once the ring is full. */
    method PushHead()
      requires Valid() && head.Some? && negativeOffset == 0
      modifies this`count, this`first, buffer
      ensures first + count == old(first + count) + 1 && count <= HISTORY_BUFFER_SIZE
              && (first > 0 ==> count == HISTORY_BUFFER_SIZE)
      ensures forall e :: first <= e < first + count ==> buffer[e % HISTORY_BUFFER_SIZE] == source[e]
    {
      if count < HISTORY_BUFFER_SIZE {
        buffer[count] := head.value;
        count := count + 1;
      } else {
        buffer[(first + HISTORY_BUFFER_SIZE) % HISTORY_BUFFER_SIZE] := head.value;
        first := first + 1;
      }
    }

    method ReadNext() returns (next: Option<T>)
      requires Valid()
      modifies this, buffer
      ensures Valid() && ops == old(ops) + [Op.ReadNext] && results == old(results) + [next]
      ensures next == At(source, Cursor())
    {
      if negativeOffset > 0 {
        next := ReadAgain();
      } else {
        next := ReadOn();
      }
    }

    /** After a step back, a code point of the ring or the head is read again. */
    method ReadAgain() returns (next: Option<T>)
      requires Valid() && negativeOffset > 0
      modifies this`negativeOffset, this`ops, this`results
      ensures Valid() && ops == old(ops) + [Op.ReadNext] && results == old(results) + [next]
      ensures next == At(source, Cursor())
    {
      negativeOffset := negativeOffset - 1;
      if negativeOffset == 0 {
        next := head;
      } else {
        next := Some(buffer[(first + count - negativeOffset) % HISTORY_BUFFER_SIZE]);
      }
      Record(Op.ReadNext, next);
    }

    /** At the head, the underlying reader is asked for the next one. */
    method ReadOn() returns (next: Option<T>)
      requires Valid() && negativeOffset == 0
      modifies this, buffer
      ensures Valid() && ops == old(ops) + [Op.ReadNext] && results == old(results) + [next]
      ensures next == At(source, Cursor())
    {
      if count == 0 && head.None? {
        head := Take();
      } else if head.Some? {
        PushHead();
        head := Take();
      }
      next := head;
      Record(Op.ReadNext, next);
    }

    /** Stepping back is legal up to the number of code points in the ring: 127, or all that were read. */
    method StepBack(n: nat) returns (now: Option<T>)
      requires Valid() && MayStepBack(ops, n, |source|)
      modifies this`negativeOffset, this`ops, this`results
      ensures Valid() && ops == old(ops) + [Op.StepBack(n)] && results == old(results) + [now]
      ensures now == At(source, Cursor())
    {
      negativeOffset := negativeOffset + n;
      now := if negativeOffset > 0 then Some(buffer[(first + count - negativeOffset) % HISTORY_BUFFER_SIZE]) else head;
      Record(Op.StepBack(n), now);
    }
  }
}
