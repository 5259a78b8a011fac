/** Messages of the network layer (net/message.hpp): a header, and a body used as a stack of bytes. */
module Messages {

  type Byte = b: int | 0 <= b < 256
  type Word = n: int | 0 <= n < 0x1_0000_0000

  const TWO_32 := 0x1_0000_0000

  datatype Header = Header(id: Word, size: Word)
  datatype Message = Message(header: Header, body: seq<Byte>)

  /** The size field tells the length of the body. */
  predicate Consistent(m: Message) { m.header.size == |m.body| }

  // ---------------------------------------------------------------------------------------
  // The header's bytes
  // ---------------------------------------------------------------------------------------

  const HEADER_LENGTH := 8

  /** A word in memory, least significant byte first. */
  function WordBytes(n: Word): (b: seq<Byte>)
    ensures |b| == 4
  {
    var n1, n2, n3 := n / 256, n / 256 / 256, n / 256 / 256 / 256;
    [n % 256, n1 % 256, n2 % 256, n3]
  }

  function WordOf(b: seq<Byte>): Word
    requires |b| == 4
  {
    var b0: int, b1: int, b2: int, b3: int := b[0], b[1], b[2], b[3];
    b0 + 256 * (b1 + 256 * (b2 + 256 * b3))
  }

  function HeaderBytes(h: Header): (b: seq<Byte>)
    ensures |b| == HEADER_LENGTH
  {
    WordBytes(h.id) + WordBytes(h.size)
  }

  function HeaderOf(b: seq<Byte>): Header
    requires |b| == HEADER_LENGTH
  {
    Header(WordOf(b[..4]), WordOf(b[4..]))
  }

  lemma WordRoundTrip(n: Word, b: seq<Byte>)
    requires |b| == 4
    ensures WordOf(WordBytes(n)) == n && WordBytes(WordOf(b)) == b
  {
    BytesOfWord(WordOf(b), b[0], b[1], b[2], b[3]);
  }

  lemma BytesOfWord(n: int, b0: Byte, b1: Byte, b2: Byte, b3: Byte)
    requires n == b0 + 256 * (b1 + 256 * (b2 + 256 * b3))
    ensures n % 256 == b0 && n / 256 % 256 == b1 && n / 256 / 256 % 256 == b2 && n / 256 / 256 / 256 == b3
  {
    assert n / 256 == b1 + 256 * (b2 + 256 * b3);
    assert n / 256 / 256 == b2 + 256 * b3;
  }

  lemma HeaderRoundTrip(h: Header, b: seq<Byte>)
    requires |b| == HEADER_LENGTH
    ensures HeaderOf(HeaderBytes(h)) == h && HeaderBytes(HeaderOf(b)) == b
  {
    WordRoundTrip(h.id, b[..4]);
    WordRoundTrip(h.size, b[4..]);
    assert HeaderBytes(h)[..4] == WordBytes(h.id) && HeaderBytes(h)[4..] == WordBytes(h.size);
    assert b == b[..4] + b[4..];
  }

  // ---------------------------------------------------------------------------------------
  // The body as a stack
  // ---------------------------------------------------------------------------------------

  /** Data is appended; the size field keeps the low 32 bits of the length. */
  function Push(m: Message, data: seq<Byte>): Message {
    Message(m.header.(size := (|m.body| + |data|) % TWO_32), m.body + data)
  }

  /** Data is taken off the end, as much as the reader's type has. */
  function Pull(m: Message, count: nat): (r: (Message, seq<Byte>))
    requires count <= |m.body|
  {
    var rest := |m.body| - count;
    (Message(m.header.(size := rest % TWO_32), m.body[..rest]), m.body[rest..])
  }

  function PushAll(m: Message, items: seq<seq<Byte>>): Message {
    if items == [] then m else Push(PushAll(m, items[..|items| - 1]), items[|items| - 1])
  }

  /** Takes data off, for these lengths in this order. */
  function PullAll(m: Message, counts: seq<nat>): (r: (Message, seq<seq<Byte>>))
    requires Total(counts) <= |m.body|
    ensures |r.1| == |counts|
    decreases |counts|
  {
    if counts == [] then (m, [])
    else
      var first := Pull(m, counts[0]);
      var rest := PullAll(first.0, counts[1..]);
      (rest.0, [first.1] + rest.1)
  }

  function Total(counts: seq<nat>): nat
    decreases |counts|
  {
    if counts == [] then 0 else counts[0] + Total(counts[1..])
  }

  /** The lengths of what was pushed, last first. */
  function Lengths(items: seq<seq<Byte>>): seq<nat> {
    if items == [] then [] else [|items[|items| - 1]|] + Lengths(items[..|items| - 1])
  }

  function Reversed(items: seq<seq<Byte>>): seq<seq<Byte>> {
    if items == [] then [] else [items[|items| - 1]] + Reversed(items[..|items| - 1])
  }

  lemma {:induction false} PushedBody(m: Message, items: seq<seq<Byte>>)
    ensures |PushAll(m, items).body| == |m.body| + Total(Lengths(items))
    ensures Consistent(m) && |PushAll(m, items).body| < TWO_32 ==> Consistent(PushAll(m, items))
  {
    if items != [] {
      PushedBody(m, items[..|items| - 1]);
      assert Lengths(items)[1..] == Lengths(items[..|items| - 1]);
    }
  }

  /** What was pushed comes back last first, and the message is what it was before. */
  lemma {:induction false} PullsWhatWasPushed(m: Message, items: seq<seq<Byte>>)
    requires Consistent(m)
    ensures Total(Lengths(items)) <= |PushAll(m, items).body|
    ensures PullAll(PushAll(m, items), Lengths(items)) == (m, Reversed(items))
  {
    PushedBody(m, items);
    if items != [] {
      var front, last := items[..|items| - 1], items[|items| - 1];
      var before := PushAll(m, front);
      PushedBody(m, front);
      PullsWhatWasPushed(m, front);
      assert Lengths(items)[1..] == Lengths(front);
      assert Push(before, last).body[..|before.body|] == before.body;
      PulledOnce(m, before, last, front);
    }
  }

  lemma {:induction false} PulledOnce(m: Message, before: Message, last: seq<Byte>, front: seq<seq<Byte>>)
    requires before == PushAll(m, front)
    ensures Pull(Push(before, last), |last|).1 == last && Pull(Push(before, last), |last|).0.body == before.body
    ensures Consistent(m) ==> Pull(Push(before, last), |last|).0 == before
  {
  }

  function FromLeast(b0: int, b1: int, b2: int, b3: int): int { b0 + 0x100 * b1 + 0x1_0000 * b2 + 0x100_0000 * b3 }

  /** The header is the id and then the size, each least significant byte first. */
  lemma HeaderInNumbers(b: seq<Byte>)
    requires |b| == 8
    ensures HeaderOf(b).id == FromLeast(b[0], b[1], b[2], b[3]) && HeaderOf(b).size == FromLeast(b[4], b[5], b[6], b[7])
    ensures HeaderBytes(HeaderOf(b)) == b
  {
    HeaderRoundTrip(HeaderOf(b), b);
    assert b[..4][0] == b[0] && b[..4][1] == b[1] && b[..4][2] == b[2] && b[..4][3] == b[3];
    assert b[4..][0] == b[4] && b[4..][1] == b[5] && b[4..][2] == b[6] && b[4..][3] == b[7];
  }

  /** A message being written and read in place. */
  class Open {
    var header: Header
    var body: seq<Byte>

    ghost function Contents(): Message
      reads this
    {
      Message(header, body)
    }

    constructor (m: Message)
      ensures Contents() == m
    {
      header, body := m.header, m.body;
    }

    method Append(data: seq<Byte>)
      modifies this
      ensures Contents() == Push(old(Contents()), data) && body == old(body) + data
    {
      body := body + data;
      header := header.(size := |body| % TWO_32);
    }

    method Extract(count: nat) returns (data: seq<Byte>)
      requires count <= |body|
      modifies this
      ensures (Contents(), data) == Pull(old(Contents()), count)
      ensures |data| == count && old(body) == body + data
    {
      var i := |body| - count;
      data := body[i..];
      body := body[..i];
      header := header.(size := |body| % TWO_32);
    }
  }
}
