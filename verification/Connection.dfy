/**
  One direction of a connection (net/connection.hpp): the writing half of one endpoint, a byte
  stream, and the reading half of the other. The stream keeps order and may carry any number of
  bytes at a time; posted work is run in order by the one context thread.
 */
module Connection {
  import opened Messages

  // ---------------------------------------------------------------------------------------
  // The writing half
  // ---------------------------------------------------------------------------------------

  datatype Part = HeaderPart | BodyPart

  /** A write under way: which buffer of the front message, and how much of it the stream has taken. */
  datatype Write = Write(part: Part, done: nat)

  /** `wire` is all that was ever handed to the stream. */
  datatype Sender = Sender(posted: seq<Message>, out: seq<Message>, writes: seq<Write>, wire: seq<Byte>, failed: bool)

  function PartBytes(m: Message, part: Part): seq<Byte> { if part.HeaderPart? then HeaderBytes(m.header) else m.body }

  function WriteHeader(s: Sender): Sender { s.(writes := s.writes + [Write(HeaderPart, 0)]) }

  function WriteBody(s: Sender): Sender { s.(writes := s.writes + [Write(BodyPart, 0)]) }

  function Posted(s: Sender, m: Message): Sender { s.(posted := s.posted + [m]) }

  /** The posted half of send. */
  function Enqueued(s: Sender): Sender
    requires s.posted != []
  {
    var q := s.(posted := s.posted[1..], out := s.out + [s.posted[0]]);
    if s.out == [] then WriteHeader(q) else q
  }

  /** The stream takes some bytes of a write. */
  function Transferred(s: Sender, i: nat, k: nat): Sender
    requires i < |s.writes| && s.out != [] && s.writes[i].done + k <= |PartBytes(s.out[0], s.writes[i].part)|
  {
    var w := s.writes[i];
    s.(wire := s.wire + PartBytes(s.out[0], w.part)[w.done..w.done + k],
       writes := s.writes[i := w.(done := w.done + k)])
  }

  function Removed(writes: seq<Write>, i: nat): seq<Write>
    requires i < |writes|
  {
    writes[..i] + writes[i + 1..]
  }

  /** The front message is out; on to the next. */
  function Popped(s: Sender): Sender
    requires s.out != []
  {
    var q := s.(out := s.out[1..]);
    if q.out != [] then WriteHeader(q) else q
  }

  /** A write is complete: its handler. */
  function Written(s: Sender, i: nat): Sender
    requires i < |s.writes| && s.out != []
  {
    var q := s.(writes := Removed(s.writes, i));
    if s.writes[i].part.HeaderPart? && |s.out[0].body| > 0 then WriteBody(q) else Popped(q)
  }

  /** A write failed: its handler closes the socket. */
  function WriteFailed(s: Sender, i: nat): Sender
    requires i < |s.writes|
  {
    s.(writes := Removed(s.writes, i), failed := true)
  }

  // ---------------------------------------------------------------------------------------
  // The reading half
  // ---------------------------------------------------------------------------------------

  datatype Reading = NotStarted | AwaitHeader | AwaitBody | Stopped

  /** `got` is what a read under way has filled of its buffer; `taken` counts all bytes taken off the stream. */
  datatype Receiver = Receiver(temp: Message, reading: Reading, got: seq<Byte>, taken: nat, delivered: seq<Message>)

  function Wanted(r: Receiver): nat {
    match r.reading
    case AwaitHeader => HEADER_LENGTH
    case AwaitBody => |r.temp.body|
    case _ => 0
  }

  /** A read is under way. */
  predicate Reads(r: Receiver) { r.reading.AwaitHeader? || r.reading.AwaitBody? }

  function ReadHeader(r: Receiver): Receiver { r.(reading := AwaitHeader, got := []) }

  function ReadBody(r: Receiver): Receiver { r.(reading := AwaitBody, got := []) }

  /** A vector resized: the bytes it had stay, new ones are zero. */
  function Resized(body: seq<Byte>, size: nat): (b: seq<Byte>)
    ensures |b| == size
  {
    if size <= |body| then body[..size] else body + seq(size - |body|, _ => 0)
  }

  function Delivered(r: Receiver): Receiver { ReadHeader(r.(delivered := r.delivered + [r.temp])) }

  function Arrived(r: Receiver, bytes: seq<Byte>): Receiver {
    r.(got := r.got + bytes, taken := r.taken + |bytes|)
  }

  /** A read is complete: its handler. A message of size 0 keeps whatever body the last one had. */
  function ReadDone(r: Receiver): Receiver
    requires Reads(r) && |r.got| == Wanted(r)
  {
    if r.reading.AwaitHeader? then
      var q := r.(temp := r.temp.(header := HeaderOf(r.got)));
      if q.temp.header.size > 0 then ReadBody(q.(temp := q.temp.(body := Resized(q.temp.body, q.temp.header.size))))
      else Delivered(q)
    else Delivered(r.(temp := r.temp.(body := r.got)))
  }

  function ReadFailed(r: Receiver): Receiver { r.(reading := Stopped) }

  // ---------------------------------------------------------------------------------------
  // Steps of the whole
  // ---------------------------------------------------------------------------------------

  datatype Link = Link(sent: seq<Message>, sender: Sender, receiver: Receiver)

  const EMPTY_MESSAGE := Message(Header(0, 0), [])
  const SILENT := Link([], Sender([], [], [], [], false), Receiver(EMPTY_MESSAGE, NotStarted, [], 0, []))

  datatype Action =
    | Send(m: Message)
    | RunPosted
    | Transfer(write: nat, count: nat)
    | CompleteWrite(write: nat)
    | FailWrite(write: nat)
    | StartReading
    | Arrive(count: nat)
    | CompleteRead
    | FailRead

  predicate Enabled(l: Link, a: Action) {
    match a
    case Send(_) => true
    case RunPosted => l.sender.posted != []
    case Transfer(i, k) =>
      i < |l.sender.writes| && l.sender.out != []
      && l.sender.writes[i].done + k <= |PartBytes(l.sender.out[0], l.sender.writes[i].part)|
    case CompleteWrite(i) =>
      i < |l.sender.writes| && l.sender.out != []
      && l.sender.writes[i].done == |PartBytes(l.sender.out[0], l.sender.writes[i].part)|
    case FailWrite(i) => i < |l.sender.writes|
    case StartReading => l.receiver.reading.NotStarted?
    case Arrive(k) =>
      Reads(l.receiver) && l.receiver.taken + k <= |l.sender.wire| && |l.receiver.got| + k <= Wanted(l.receiver)
    case CompleteRead => Reads(l.receiver) && |l.receiver.got| == Wanted(l.receiver)
    case FailRead => Reads(l.receiver)
  }

  function Next(l: Link, a: Action): Link
    requires Enabled(l, a)
  {
    match a
    case Send(m) => l.(sent := l.sent + [m], sender := Posted(l.sender, m))
    case RunPosted => l.(sender := Enqueued(l.sender))
    case Transfer(i, k) => l.(sender := Transferred(l.sender, i, k))
    case CompleteWrite(i) => l.(sender := Written(l.sender, i))
    case FailWrite(i) => l.(sender := WriteFailed(l.sender, i))
    case StartReading => l.(receiver := ReadHeader(l.receiver))
    case Arrive(k) => l.(receiver := Arrived(l.receiver, l.sender.wire[l.receiver.taken..l.receiver.taken + k]))
    case CompleteRead => l.(receiver := ReadDone(l.receiver))
    case FailRead => l.(receiver := ReadFailed(l.receiver))
  }

  /** Any interleaving of these steps, with the states between them. */
  ghost predicate Run(actions: seq<Action>, links: seq<Link>) {
    |links| == |actions| + 1 && links[0] == SILENT && forall i: nat :: i < |actions| ==> Follows(actions, links, i)
  }

  ghost predicate Follows(actions: seq<Action>, links: seq<Link>, i: nat)
    requires i < |actions| < |links|
  {
    Enabled(links[i], actions[i]) && links[i + 1] == Next(links[i], actions[i])
  }

  // ---------------------------------------------------------------------------------------
  // The stream's contents
  // ---------------------------------------------------------------------------------------

  function Frame(m: Message): seq<Byte> { HeaderBytes(m.header) + m.body }

  function Frames(ms: seq<Message>): seq<Byte> { if ms == [] then [] else Frames(ms[..|ms| - 1]) + Frame(ms[|ms| - 1]) }

  /** A delivered message up to the size its header gives. */
  function Cut(m: Message): Message {
    Message(m.header, if m.header.size <= |m.body| then m.body[..m.header.size] else m.body)
  }

  function Cuts(ms: seq<Message>): (r: seq<Message>)
    ensures |r| == |ms| && forall i :: 0 <= i < |ms| ==> r[i] == Cut(ms[i])
  {
    seq(|ms|, i requires 0 <= i < |ms| => Cut(ms[i]))
  }

  // ---------------------------------------------------------------------------------------
  // What every step of the writing half keeps
  // ---------------------------------------------------------------------------------------

  /** How far the front message is out. */
  function Progress(s: Sender): nat {
    if s.writes == [] then 0
    else s.writes[0].done + if s.writes[0].part.HeaderPart? then 0 else HEADER_LENGTH
  }

  /** How many messages are completely out. */
  function Gone(s: Sender, sent: seq<Message>): int { |sent| - |s.out| - |s.posted| }

  /** Exactly one write is under way when the queue is not empty, until one has failed. */
  predicate OneWrite(s: Sender) {
    |s.writes| == (if s.out != [] && !s.failed then 1 else 0)
    && (s.failed ==> s.out != [])
    && (s.writes != [] ==>
          s.writes[0].done <= |PartBytes(s.out[0], s.writes[0].part)|
            && (s.writes[0].part.BodyPart? ==> s.out[0].body != []))
  }

  /** What was sent and has not gone out waits in order. */
  predicate Waiting(s: Sender, sent: seq<Message>) {
    0 <= Gone(s, sent) && sent[Gone(s, sent)..] == s.out + s.posted
  }

  /** The stream was handed the frames of what has gone out, and then a part of the next one. */
  predicate Handed(s: Sender, gone: seq<Message>) {
    Frames(gone) <= s.wire
    && var rest := s.wire[|Frames(gone)|..];
       if s.out == [] then rest == []
       else rest <= Frame(s.out[0]) && (s.writes != [] ==> |rest| == Progress(s))
  }

  predicate SenderInv(s: Sender, sent: seq<Message>) {
    OneWrite(s) && Waiting(s, sent) && Handed(s, sent[..Gone(s, sent)])
  }

  lemma PostKeeps(s: Sender, sent: seq<Message>, m: Message)
    requires SenderInv(s, sent)
    ensures SenderInv(Posted(s, m), sent + [m])
  {
    var g := Gone(s, sent);
    assert (sent + [m])[..g] == sent[..g];
    assert (sent + [m])[g..] == sent[g..] + [m] == s.out + (s.posted + [m]);
  }

  lemma EnqueueKeeps(s: Sender, sent: seq<Message>)
    requires SenderInv(s, sent) && s.posted != []
    ensures SenderInv(Enqueued(s), sent)
  {
    assert s.out + s.posted == (s.out + [s.posted[0]]) + s.posted[1..];
  }

  lemma TransferKeeps(s: Sender, sent: seq<Message>, i: nat, k: nat)
    requires SenderInv(s, sent) && i < |s.writes| && s.writes[i].done + k <= |PartBytes(s.out[0], s.writes[i].part)|
    ensures SenderInv(Transferred(s, i, k), sent)
  {
    var gone, w, f := sent[..Gone(s, sent)], s.writes[0], Frame(s.out[0]);
    var n, p, t := |Frames(gone)|, Progress(s), Transferred(s, i, k);
    PartOfFrame(s.out[0], w, k);
    TakesMore(s.wire, n, f, p, k);
    assert t.wire == s.wire + f[p..p + k];
  }

  lemma PartOfFrame(m: Message, w: Write, k: nat)
    requires w.done + k <= |PartBytes(m, w.part)|
    ensures var p := w.done + if w.part.HeaderPart? then 0 else HEADER_LENGTH;
            p + k <= |Frame(m)| && PartBytes(m, w.part)[w.done..w.done + k] == Frame(m)[p..p + k]
  {
  }

  lemma TakesMore(wire: seq<Byte>, n: nat, f: seq<Byte>, p: nat, k: nat)
    requires n <= |wire| && p + k <= |f| && wire[n..] <= f && |wire[n..]| == p
    ensures var t := wire + f[p..p + k]; wire[..n] == t[..n] && t[n..] <= f && |t[n..]| == p + k
  {
    var t := wire + f[p..p + k];
    assert t[n..] == wire[n..] + f[p..p + k] == f[..p] + f[p..p + k] == f[..p + k];
  }

  lemma WrittenKeeps(s: Sender, sent: seq<Message>, i: nat)
    requires SenderInv(s, sent) && i < |s.writes| && s.writes[i].done == |PartBytes(s.out[0], s.writes[i].part)|
    ensures SenderInv(Written(s, i), sent)
  {
    if !(s.writes[0].part.HeaderPart? && s.out[0].body != []) {
      assert s.wire[|Frames(sent[..Gone(s, sent)])|..] == Frame(s.out[0]);
      PopKeeps(s.(writes := []), sent);
    }
  }

  lemma PopKeeps(s: Sender, sent: seq<Message>)
    requires s.out != [] && s.writes == [] && !s.failed && Waiting(s, sent)
    requires s.wire == Frames(sent[..Gone(s, sent)]) + Frame(s.out[0])
    ensures SenderInv(Popped(s), sent)
  {
    NextGone(sent, Gone(s, sent), s.out, s.posted);
    assert s.wire[|s.wire|..] == [];
  }

  lemma NextGone(sent: seq<Message>, g: nat, out: seq<Message>, posted: seq<Message>)
    requires g <= |sent| && sent[g..] == out + posted && out != []
    ensures g < |sent| && Frames(sent[..g + 1]) == Frames(sent[..g]) + Frame(out[0])
    ensures sent[g + 1..] == out[1..] + posted
  {
    assert sent[g] == (out + posted)[0] == out[0];
    assert sent[..g + 1][..g] == sent[..g];
    assert sent[g + 1..] == (out + posted)[1..] == out[1..] + posted;
  }

  lemma FailKeeps(s: Sender, sent: seq<Message>, i: nat)
    requires SenderInv(s, sent) && i < |s.writes|
    ensures SenderInv(WriteFailed(s, i), sent)
  {
  }

  // ---------------------------------------------------------------------------------------
  // What every step of the reading half keeps
  // ---------------------------------------------------------------------------------------

  /** A delivered message has the bytes its header announces, and no others unless it announces none. */
  predicate Announced(m: Message) { m.header.size > 0 ==> |m.body| == m.header.size }

  /** The bytes of a read under way, with the header that came before. */
  function Pending(r: Receiver): seq<Byte> {
    match r.reading
    case AwaitHeader => r.got
    case AwaitBody => HeaderBytes(r.temp.header) + r.got
    case _ => []
  }

  /** The body a message of size 0 is delivered with. */
  function LastBody(ms: seq<Message>): seq<Byte> { if ms == [] then [] else ms[|ms| - 1].body }

  predicate StaleOrAnnounced(ms: seq<Message>) {
    forall i :: 0 <= i < |ms| ==> Announced(ms[i]) && (ms[i].header.size == 0 ==> ms[i].body == LastBody(ms[..i]))
  }

  /** What was taken off the stream is the frames of what was delivered, and then the bytes of the read under way. */
  predicate ReceiverInv(r: Receiver, wire: seq<Byte>) {
    r.taken <= |wire| && StaleOrAnnounced(r.delivered)
    && (Reads(r) ==> |r.got| <= Wanted(r))
    && (r.reading.NotStarted? ==> r.taken == 0 && r.delivered == [])
    && (r.reading.NotStarted? || r.reading.AwaitHeader? ==> r.temp.body == LastBody(r.delivered))
    && (r.reading.AwaitBody? ==> r.temp.header.size > 0 && |r.temp.body| == r.temp.header.size)
    && Frames(Cuts(r.delivered)) + Pending(r) <= wire[..r.taken]
    && (Reads(r) ==> Frames(Cuts(r.delivered)) + Pending(r) == wire[..r.taken])
  }

  lemma ArriveKeeps(r: Receiver, wire: seq<Byte>, k: nat)
    requires ReceiverInv(r, wire) && Reads(r) && r.taken + k <= |wire| && |r.got| + k <= Wanted(r)
    ensures ReceiverInv(Arrived(r, wire[r.taken..r.taken + k]), wire)
  {
    var q := Arrived(r, wire[r.taken..r.taken + k]);
    assert Pending(q) == Pending(r) + wire[r.taken..r.taken + k];
    TakenSoFar(wire, r.taken, k, Frames(Cuts(r.delivered)), Pending(r));
  }

  lemma TakenSoFar(wire: seq<Byte>, n: nat, k: nat, f: seq<Byte>, p: seq<Byte>)
    requires n + k <= |wire| && f + p == wire[..n]
    ensures f + (p + wire[n..n + k]) == wire[..n + k]
  {
    assert wire[..n + k] == wire[..n] + wire[n..n + k];
  }

  lemma MoreWireKeeps(r: Receiver, wire: seq<Byte>, more: seq<Byte>)
    requires ReceiverInv(r, wire) && wire <= more
    ensures ReceiverInv(r, more)
  {
    assert more[..r.taken] == wire[..r.taken];
  }

  lemma CutsAppend(ms: seq<Message>, m: Message)
    ensures Frames(Cuts(ms + [m])) == Frames(Cuts(ms)) + Frame(Cut(m))
  {
    assert Cuts(ms + [m]) == Cuts(ms) + [Cut(m)];
  }

  lemma DeliverKeeps(ms: seq<Message>, m: Message)
    requires StaleOrAnnounced(ms) && Announced(m) && (m.header.size == 0 ==> m.body == LastBody(ms))
    ensures StaleOrAnnounced(ms + [m])
  {
    var all := ms + [m];
    assert all[..|ms|] == ms;
    forall i | 0 <= i < |ms|
      ensures Announced(all[i]) && (all[i].header.size == 0 ==> all[i].body == LastBody(all[..i]))
    {
      assert all[..i] == ms[..i];
    }
  }

  lemma ReadDoneKeeps(r: Receiver, wire: seq<Byte>)
    requires ReceiverInv(r, wire) && Reads(r) && |r.got| == Wanted(r)
    ensures ReceiverInv(ReadDone(r), wire)
  {
    if r.reading.AwaitHeader? {
      HeaderRoundTrip(HeaderOf(r.got), r.got);
      var q := r.(temp := r.temp.(header := HeaderOf(r.got)));
      if q.temp.header.size == 0 {
        DeliveredKeeps(r, q, wire);
      }
    } else {
      DeliveredKeeps(r, r.(temp := r.temp.(body := r.got)), wire);
    }
  }

  lemma DeliveredKeeps(r: Receiver, q: Receiver, wire: seq<Byte>)
    requires ReceiverInv(r, wire) && Reads(r) && q == r.(temp := q.temp) && Announced(q.temp)
    requires q.temp.header.size == 0 ==> q.temp.body == LastBody(r.delivered)
    requires Pending(r) == Frame(Cut(q.temp))
    ensures ReceiverInv(Delivered(q), wire)
  {
    CutsAppend(r.delivered, q.temp);
    DeliverKeeps(r.delivered, q.temp);
  }

  lemma ReadFailedKeeps(r: Receiver, wire: seq<Byte>)
    requires ReceiverInv(r, wire) && Reads(r)
    ensures ReceiverInv(ReadFailed(r), wire)
  {
  }

  // ---------------------------------------------------------------------------------------
  // What holds in every reachable state
  // ---------------------------------------------------------------------------------------

  predicate LinkInv(l: Link) { SenderInv(l.sender, l.sent) && ReceiverInv(l.receiver, l.sender.wire) }

  lemma TransferStep(l: Link, i: nat, k: nat)
    requires LinkInv(l) && Enabled(l, Transfer(i, k))
    ensures LinkInv(Next(l, Transfer(i, k)))
  {
    TransferKeeps(l.sender, l.sent, i, k);
    MoreWireKeeps(l.receiver, l.sender.wire, Transferred(l.sender, i, k).wire);
  }

  lemma WriteStep(l: Link, a: Action)
    requires LinkInv(l) && Enabled(l, a) && (a.Send? || a.RunPosted? || a.CompleteWrite? || a.FailWrite?)
    ensures LinkInv(Next(l, a))
  {
    match a
    case Send(m) => PostKeeps(l.sender, l.sent, m);
    case RunPosted => EnqueueKeeps(l.sender, l.sent);
    case CompleteWrite(i) => WrittenKeeps(l.sender, l.sent, i);
    case FailWrite(i) => FailKeeps(l.sender, l.sent, i);
  }

  lemma StartKeeps(r: Receiver, wire: seq<Byte>)
    requires ReceiverInv(r, wire) && r.reading.NotStarted?
    ensures ReceiverInv(ReadHeader(r), wire)
  {
  }

  lemma ReadStep(l: Link, a: Action, r: Receiver)
    requires LinkInv(l) && Enabled(l, a) && Next(l, a) == l.(receiver := r) && ReceiverInv(r, l.sender.wire)
    ensures LinkInv(Next(l, a))
  {
  }

  lemma ArriveStep(l: Link, k: nat)
    requires LinkInv(l) && Enabled(l, Arrive(k))
    ensures LinkInv(Next(l, Arrive(k)))
  {
    var r, wire := l.receiver, l.sender.wire;
    ArriveKeeps(r, wire, k);
    ReadStep(l, Arrive(k), Arrived(r, wire[r.taken..r.taken + k]));
  }

  lemma NextKeeps(l: Link, a: Action)
    requires LinkInv(l) && Enabled(l, a)
    ensures LinkInv(Next(l, a))
  {
    match a
    case Transfer(i, k) => TransferStep(l, i, k);
    case Send(_) => WriteStep(l, a);
    case RunPosted => WriteStep(l, a);
    case CompleteWrite(_) => WriteStep(l, a);
    case FailWrite(_) => WriteStep(l, a);
    case StartReading =>
      StartKeeps(l.receiver, l.sender.wire);
      ReadStep(l, a, ReadHeader(l.receiver));
    case Arrive(k) => ArriveStep(l, k);
    case CompleteRead =>
      ReadDoneKeeps(l.receiver, l.sender.wire);
      ReadStep(l, a, ReadDone(l.receiver));
    case FailRead =>
      ReadFailedKeeps(l.receiver, l.sender.wire);
      ReadStep(l, a, ReadFailed(l.receiver));
  }

  lemma {:induction false} RunKeeps(actions: seq<Action>, links: seq<Link>, n: nat)
    requires Run(actions, links) && n <= |actions|
    ensures LinkInv(links[n])
  {
    if n > 0 {
      RunKeeps(actions, links, n - 1);
      assert Follows(actions, links, n - 1);
      NextKeeps(links[n - 1], actions[n - 1]);
    }
  }

  /** While no write has failed exactly one write is under way if, and only if, the queue is not empty. */
  lemma OneWriteUnderWay(actions: seq<Action>, links: seq<Link>, n: nat)
    requires Run(actions, links) && n <= |actions|
    ensures var s := links[n].sender;
            if s.failed then s.writes == [] && s.out != []
            else (|s.writes| == 1 <==> s.out != []) && (s.writes == [] <==> s.out == [])
  {
    RunKeeps(actions, links, n);
  }

  // ---------------------------------------------------------------------------------------
  // Framing
  // ---------------------------------------------------------------------------------------

  lemma {:induction false} FramesConcat(a: seq<Message>, b: seq<Message>)
    ensures Frames(a + b) == Frames(a) + Frames(b)
    decreases |b|
  {
    if b == [] {
      assert a + b == a;
    } else {
      assert (a + b)[..|a + b| - 1] == a + b[..|b| - 1];
      FramesConcat(a, b[..|b| - 1]);
    }
  }

  lemma FirstFrame(ms: seq<Message>)
    requires ms != []
    ensures Frames(ms) == Frame(ms[0]) + Frames(ms[1..])
  {
    assert ms == [ms[0]] + ms[1..];
    FramesConcat([ms[0]], ms[1..]);
    assert Frames([ms[0]]) == Frames([]) + Frame(ms[0]);
  }

  predicate AllConsistent(ms: seq<Message>) { forall i :: 0 <= i < |ms| ==> Consistent(ms[i]) }

  lemma SameFrame(a: Message, b: Message, x: seq<Byte>, y: seq<Byte>)
    requires Consistent(a) && Consistent(b) && Frame(a) + x <= Frame(b) + y
    ensures a == b && x <= y
  {
    var p, q := Frame(a) + x, Frame(b) + y;
    HeaderRoundTrip(a.header, HeaderBytes(b.header));
    HeaderRoundTrip(b.header, HeaderBytes(a.header));
    assert p[..HEADER_LENGTH] == HeaderBytes(a.header) && q[..HEADER_LENGTH] == HeaderBytes(b.header);
    assert p[..HEADER_LENGTH] == q[..HEADER_LENGTH];
    var n := HEADER_LENGTH + |a.body|;
    assert a.body == p[HEADER_LENGTH..n] == q[HEADER_LENGTH..n] == b.body;
    assert x == p[n..] && y == q[n..];
  }

  /** The messages that come at the places of the first k ones are consistent, as far as there are any. */
  predicate FirstConsistent(ms: seq<Message>, k: nat) { forall i :: 0 <= i < k && i < |ms| ==> Consistent(ms[i]) }

  /** Frames of consistent messages can be told apart, so a prefix of bytes comes from a prefix of messages; what
      follows that prefix does not matter. */
  lemma {:induction false} FramesPrefix(a: seq<Message>, b: seq<Message>)
    requires AllConsistent(a) && FirstConsistent(b, |a|) && Frames(a) <= Frames(b)
    ensures a <= b
    decreases |a|
  {
    if a != [] {
      FirstFrame(a);
      if b != [] {
        FirstFrame(b);
        SameFrame(a[0], b[0], Frames(a[1..]), Frames(b[1..]));
        FramesPrefix(a[1..], b[1..]);
        assert a == [a[0]] + a[1..] && b == [b[0]] + b[1..];
      }
    }
  }

  lemma WireIsFrames(s: Sender, sent: seq<Message>)
    requires SenderInv(s, sent)
    ensures s.wire <= Frames(sent)
    ensures s.out == [] && s.posted == [] ==> s.wire == Frames(sent)
  {
    var g := Gone(s, sent);
    assert sent == sent[..g] + sent[g..];
    FramesConcat(sent[..g], sent[g..]);
    OnTheWire(s, sent[..g]);
    if s.out == [] && s.posted == [] {
      assert sent[g..] == [];
    }
  }

  lemma OnTheWire(s: Sender, gone: seq<Message>)
    requires Handed(s, gone)
    ensures s.wire <= Frames(gone) + Frames(s.out + s.posted)
    ensures s.out == [] ==> s.wire == Frames(gone)
  {
    var n := |Frames(gone)|;
    assert s.wire == Frames(gone) + s.wire[n..];
    if s.out != [] {
      FirstFrame(s.out + s.posted);
      PartThenRest(Frames(gone), s.wire[n..], Frame(s.out[0]), Frames((s.out + s.posted)[1..]));
    }
  }

  lemma PartThenRest(gone: seq<Byte>, part: seq<Byte>, frame: seq<Byte>, rest: seq<Byte>)
    requires part <= frame
    ensures gone + part <= gone + (frame + rest)
  {
  }

  /** The same header, and the body its header announces. */
  predicate Agrees(received: Message, sent: Message) {
    received.header == sent.header && received.header.size <= |received.body|
    && received.body[..received.header.size] == sent.body
  }

  /** The delivered messages are a prefix of the sent ones. */
  predicate InStep(delivered: seq<Message>, sent: seq<Message>) {
    |delivered| <= |sent| && forall i :: 0 <= i < |delivered| ==> Agrees(delivered[i], sent[i])
  }

  /** In every reachable state the delivered messages are a prefix of the sent ones exactly if the messages sent at
      their places tell the length of their bodies. */
  lemma DeliveredIsPrefixOfSent(actions: seq<Action>, links: seq<Link>, n: nat)
    requires Run(actions, links) && n <= |actions|
    ensures var sent, delivered := links[n].sent, links[n].receiver.delivered;
            InStep(delivered, sent) <==> FirstConsistent(sent, |delivered|)
  {
    var l := links[n];
    RunKeeps(actions, links, n);
    if FirstConsistent(l.sent, |l.receiver.delivered|) {
      DeliveredIsPrefix(l);
      forall i | 0 <= i < |l.receiver.delivered|
        ensures Agrees(l.receiver.delivered[i], l.sent[i])
      {
        CutAgrees(l.receiver.delivered[i], l.sent[i]);
      }
    }
    forall i | 0 <= i < |l.receiver.delivered| && i < |l.sent| && InStep(l.receiver.delivered, l.sent)
      ensures Consistent(l.sent[i])
    {
      assert Agrees(l.receiver.delivered[i], l.sent[i]);
    }
  }

  lemma DeliveredIsPrefix(l: Link)
    requires LinkInv(l) && FirstConsistent(l.sent, |l.receiver.delivered|)
    ensures Cuts(l.receiver.delivered) <= l.sent
  {
    var d, wire := Frames(Cuts(l.receiver.delivered)), l.sender.wire;
    WireIsFrames(l.sender, l.sent);
    assert d <= d + Pending(l.receiver) <= wire[..l.receiver.taken] <= wire;
    FramesPrefix(Cuts(l.receiver.delivered), l.sent);
  }

  lemma CutAgrees(received: Message, sent: Message)
    requires Cut(received) == sent && Consistent(sent)
    ensures Agrees(received, sent)
  {
  }

  lemma WholeFramePending(r: Receiver, m: Message, x: seq<Byte>)
    requires Reads(r) && Consistent(m) && Pending(r) == Frame(m) + x
    requires r.reading.AwaitBody? ==> |r.temp.body| == r.temp.header.size
    ensures |r.got| >= Wanted(r)
  {
    if r.reading.AwaitBody? {
      var p := Pending(r);
      assert p[..HEADER_LENGTH] == HeaderBytes(m.header) && p[..HEADER_LENGTH] == HeaderBytes(r.temp.header);
      HeaderRoundTrip(m.header, HeaderBytes(m.header));
      HeaderRoundTrip(r.temp.header, HeaderBytes(m.header));
    }
  }

  /** All is written, all of it is read, and no read is waiting for its handler. */
  predicate Drained(l: Link) {
    var s, r := l.sender, l.receiver;
    s.out == [] && s.posted == [] && Reads(r) && |r.got| < Wanted(r) && r.taken == |s.wire|
  }

  /** When all is written and read, and nothing failed, every sent message has been delivered as it was, exactly if
      every one told the length of its body. */
  lemma NothingIsLost(actions: seq<Action>, links: seq<Link>, n: nat)
    requires Run(actions, links) && n <= |actions| && Drained(links[n])
    ensures var sent, delivered := links[n].sent, links[n].receiver.delivered;
            |delivered| == |sent| && InStep(delivered, sent) <==> AllConsistent(sent)
  {
    var s, r, sent := links[n].sender, links[n].receiver, links[n].sent;
    DeliveredIsPrefixOfSent(actions, links, n);
    RunKeeps(actions, links, n);
    if AllConsistent(sent) {
      DeliveredIsPrefix(links[n]);
      WireIsFrames(s, sent);
      assert s.wire[..r.taken] == s.wire;
      NoneMissing(r, sent, |r.delivered|);
    }
  }

  lemma SameTail(a: seq<Byte>, x: seq<Byte>, y: seq<Byte>)
    requires a + x == a + y
    ensures x == y
  {
    assert x == (a + x)[|a|..] && y == (a + y)[|a|..];
  }

  lemma PendingIsRest(sent: seq<Message>, k: nat, pending: seq<Byte>)
    requires k <= |sent| && Frames(sent[..k]) + pending == Frames(sent)
    ensures pending == Frames(sent[k..])
  {
    assert sent == sent[..k] + sent[k..];
    FramesConcat(sent[..k], sent[k..]);
    SameTail(Frames(sent[..k]), pending, Frames(sent[k..]));
  }

  lemma NoneMissing(r: Receiver, sent: seq<Message>, k: nat)
    requires Reads(r) && |r.got| < Wanted(r) && (r.reading.AwaitBody? ==> |r.temp.body| == r.temp.header.size)
    requires AllConsistent(sent) && k == |r.delivered| <= |sent| && Cuts(r.delivered) == sent[..k]
    requires Frames(Cuts(r.delivered)) + Pending(r) == Frames(sent)
    ensures k == |sent|
  {
    PendingIsRest(sent, k, Pending(r));
    if k < |sent| {
      FirstFrame(sent[k..]);
      WholeFramePending(r, sent[k], Frames(sent[k..][1..]));
    }
  }

  // ---------------------------------------------------------------------------------------
  // Stale bodies
  // ---------------------------------------------------------------------------------------

  /** A message announcing no body is delivered with the last body that was announced before it, if any. */
  lemma StaleBody(actions: seq<Action>, links: seq<Link>, n: nat, i: nat)
    requires Run(actions, links) && n <= |actions| && i < |links[n].receiver.delivered|
    requires links[n].receiver.delivered[i].header.size == 0
    ensures links[n].receiver.delivered[i].body == LastBody(links[n].receiver.delivered[..i])
    ensures Consistent(links[n].receiver.delivered[i])
            <==> forall j :: 0 <= j < i ==> links[n].receiver.delivered[j].header.size == 0
  {
    RunKeeps(actions, links, n);
    NoBodyBefore(links[n].receiver.delivered, i);
  }

  lemma {:induction false} NoBodyBefore(ms: seq<Message>, i: nat)
    requires StaleOrAnnounced(ms) && i <= |ms|
    ensures LastBody(ms[..i]) == [] <==> forall j :: 0 <= j < i ==> ms[j].header.size == 0
  {
    if i > 0 {
      NoBodyBefore(ms, i - 1);
      assert LastBody(ms[..i]) == ms[i - 1].body;
      assert Announced(ms[i - 1]);
    }
  }

  /** A ping whose header announces nothing, with a byte left over from an earlier message. */
  const STALE := Message(Header(1, 0), [7])
  const REPLY := Message(Header(1, 0), [])
  const PING_BYTES: seq<Byte> := [1, 0, 0, 0, 0, 0, 0, 0]

  /** A run and the state it ends in. */
  ghost predicate Reached(actions: seq<Action>, links: seq<Link>, l: Link) {
    Run(actions, links) && links[|actions|] == l
  }

  lemma Step(actions: seq<Action>, links: seq<Link>, l: Link, a: Action) returns (more: seq<Action>, longer: seq<Link>)
    requires Reached(actions, links, l) && Enabled(l, a)
    ensures Reached(more, longer, Next(l, a))
  {
    more, longer := actions + [a], links + [Next(l, a)];
    forall i: nat | i < |more|
      ensures Follows(more, longer, i)
    {
      if i < |actions| {
        assert Follows(actions, links, i);
      }
    }
  }

  /** Nothing is queued or under way on the writing half. */
  predicate AtRest(s: Sender) { s == Sender([], [], [], s.wire, false) }

  /** From rest any message can be sent and written in full. */
  lemma SendOne(actions: seq<Action>, links: seq<Link>, l: Link, m: Message)
    returns (more: seq<Action>, longer: seq<Link>)
    requires Reached(actions, links, l) && AtRest(l.sender)
    ensures Reached(more, longer, l.(sent := l.sent + [m], sender := l.sender.(wire := l.sender.wire + Frame(m))))
  {
    var h, w := HeaderBytes(m.header), l.sender.wire;
    assert h[0..0 + 8] == h && m.body[0..0 + |m.body|] == m.body;
    more, longer := Step(actions, links, l, Send(m));
    var l1 := l.(sent := l.sent + [m], sender := Sender([m], [], [], w, false));
    more, longer := Step(more, longer, l1, RunPosted);
    var l2 := l1.(sender := Sender([], [m], [Write(HeaderPart, 0)], w, false));
    assert Next(l1, RunPosted) == l2;
    more, longer := Step(more, longer, l2, Transfer(0, 8));
    var l3 := l1.(sender := Sender([], [m], [Write(HeaderPart, 8)], w + h, false));
    assert Next(l2, Transfer(0, 8)) == l3;
    more, longer := Step(more, longer, l3, CompleteWrite(0));
    if m.body == [] {
      assert w + h == w + Frame(m);
    } else {
      more, longer := WriteOut(more, longer, Next(l3, CompleteWrite(0)), m, w + h);
      assert w + h + m.body == w + Frame(m);
    }
  }

  lemma WriteOut(actions: seq<Action>, links: seq<Link>, l: Link, m: Message, w: seq<Byte>)
    returns (more: seq<Action>, longer: seq<Link>)
    requires Reached(actions, links, l) && l.sender == Sender([], [m], [Write(BodyPart, 0)], w, false)
    ensures Reached(more, longer, l.(sender := Sender([], [], [], w + m.body, false)))
  {
    assert m.body[0..0 + |m.body|] == m.body;
    more, longer := Step(actions, links, l, Transfer(0, |m.body|));
    var l1 := l.(sender := Sender([], [m], [Write(BodyPart, |m.body|)], w + m.body, false));
    assert Next(l, Transfer(0, |m.body|)) == l1;
    more, longer := Step(more, longer, l1, CompleteWrite(0));
  }

  /** From rest a header that announces no body can be read and its message delivered. */
  lemma ReceiveOne(actions: seq<Action>, links: seq<Link>, l: Link, h: seq<Byte>)
    returns (more: seq<Action>, longer: seq<Link>)
    requires Reached(actions, links, l) && l.receiver.reading.AwaitHeader? && l.receiver.got == []
             && |h| == HEADER_LENGTH
    requires l.receiver.taken + 8 <= |l.sender.wire| && l.sender.wire[l.receiver.taken..l.receiver.taken + 8] == h
    requires HeaderOf(h).size == 0
    ensures var r, m := l.receiver, l.receiver.temp.(header := HeaderOf(h));
            Reached(more, longer, l.(receiver := Receiver(m, AwaitHeader, [], r.taken + 8, r.delivered + [m])))
  {
    assert [] + h == h;
    more, longer := Step(actions, links, l, Arrive(8));
    more, longer := Step(more, longer, Next(l, Arrive(8)), CompleteRead);
  }

  /** Both messages written, nothing read yet. */
  function StaleSent(): Link {
    var s := Sender([], [], [], PING_BYTES + [7] + PING_BYTES, false);
    Link([STALE, REPLY], s, ReadHeader(SILENT.receiver))
  }

  lemma SendsStale() returns (actions: seq<Action>, links: seq<Link>)
    ensures Reached(actions, links, StaleSent())
  {
    actions, links := Step([], [SILENT], SILENT, StartReading);
    var l := Next(SILENT, StartReading);
    actions, links := SendOne(actions, links, l, STALE);
    var l1 := l.(sent := [STALE], sender := Sender([], [], [], Frame(STALE), false));
    assert l.sent + [STALE] == [STALE] && [] + Frame(STALE) == Frame(STALE);
    actions, links := SendOne(actions, links, l1, REPLY);
    StaleBytes();
    assert l1.sent + [REPLY] == [STALE, REPLY];
  }

  /** A stale ping sent back as it was received leaves a byte in the stream that is taken for the next header: there
      is a run in which the second message delivered is not the second one sent. */
  lemma StaleEchoBreaksFraming() returns (actions: seq<Action>, links: seq<Link>)
    ensures Run(actions, links)
    ensures var l := links[|actions|];
            l.sent == [STALE, REPLY] && |l.receiver.delivered| == 2 && !InStep(l.receiver.delivered, l.sent)
            && l.receiver.delivered[0].header == STALE.header && l.receiver.delivered[1].header.id == 263
  {
    actions, links := SendsStale();
    StaleBytes();
    var l := StaleSent();
    var wire := l.sender.wire;
    assert wire[0..0 + 8] == PING_BYTES && wire[8..8 + 8] == [7, 1, 0, 0, 0, 0, 0, 0];
    actions, links := ReceiveOne(actions, links, l, PING_BYTES);
    var l1 := l.(receiver := Receiver(REPLY, AwaitHeader, [], 8, [REPLY]));
    actions, links := ReceiveOne(actions, links, l1, [7, 1, 0, 0, 0, 0, 0, 0]);
    assert !Agrees(links[|actions|].receiver.delivered[1], REPLY);
  }

  lemma StaleBytes()
    ensures Frame(STALE) == PING_BYTES + [7] && Frame(STALE) + Frame(REPLY) == PING_BYTES + [7] + PING_BYTES
    ensures HeaderOf(PING_BYTES) == STALE.header && HeaderOf([7, 1, 0, 0, 0, 0, 0, 0]) == Header(263, 0)
  {
    assert HeaderBytes(Header(1, 0)) == PING_BYTES;
    HeaderRoundTrip(STALE.header, PING_BYTES);
    var b: seq<Byte> := [7, 1, 0, 0, 0, 0, 0, 0];
    assert b[..4] == [7, 1, 0, 0] && b[4..] == [0, 0, 0, 0];
  }

  // ---------------------------------------------------------------------------------------
  // Both halves go on
  // ---------------------------------------------------------------------------------------

  ghost predicate Started(actions: seq<Action>, n: nat) {
    exists i :: 0 <= i < n && i < |actions| && actions[i].StartReading?
  }

  ghost predicate ReadFails(actions: seq<Action>, n: nat) {
    exists i :: 0 <= i < n && i < |actions| && actions[i].FailRead?
  }

  ghost predicate WriteFails(actions: seq<Action>, n: nat) {
    exists i :: 0 <= i < n && i < |actions| && actions[i].FailWrite?
  }

  /** Once started a receiver has a read under way, after any delivery too, until a read fails; and writing has failed
      only if a write has. */
  lemma {:induction false} HalvesGoOn(actions: seq<Action>, links: seq<Link>, n: nat)
    requires Run(actions, links) && n <= |actions|
    ensures var r := links[n].receiver;
            (r.reading.NotStarted? <==> !Started(actions, n)) && (r.reading.Stopped? <==> ReadFails(actions, n))
            && (Reads(r) <==> Started(actions, n) && !ReadFails(actions, n))
    ensures links[n].sender.failed <==> WriteFails(actions, n)
  {
    if n > 0 {
      HalvesGoOn(actions, links, n - 1);
      assert Follows(actions, links, n - 1);
      OneMoreAction(actions, n);
    }
  }

  lemma OneMoreAction(actions: seq<Action>, n: nat)
    requires 0 < n <= |actions|
    ensures Started(actions, n) <==> Started(actions, n - 1) || actions[n - 1].StartReading?
    ensures ReadFails(actions, n) <==> ReadFails(actions, n - 1) || actions[n - 1].FailRead?
    ensures WriteFails(actions, n) <==> WriteFails(actions, n - 1) || actions[n - 1].FailWrite?
  {
  }

  /** Nothing has failed and reading has begun. */
  predicate Healthy(l: Link) { Reads(l.receiver) && !l.sender.failed }

  /** The same messages, further on. */
  predicate Onward(l: Link, r: Link) { r.sent == l.sent && Healthy(r) }

  /** From any state in which nothing has failed the run can go on, without another message, until all is written and
      read, and then every message has been delivered, if all told the length of their bodies. */
  lemma CanAlwaysDrain(actions: seq<Action>, links: seq<Link>, l: Link)
    returns (more: seq<Action>, longer: seq<Link>)
    requires Reached(actions, links, l) && Healthy(l)
    ensures Run(more, longer) && actions <= more && links <= longer
    ensures var r := longer[|more|]; Onward(l, r) && Drained(r)
    ensures var r := longer[|more|];
            AllConsistent(l.sent) ==> |r.receiver.delivered| == |l.sent| && InStep(r.receiver.delivered, l.sent)
  {
    var l1, l2, l3;
    more, longer, l1 := RunAllPosted(actions, links, l);
    more, longer, l2 := WriteAll(more, longer, l1);
    more, longer, l3 := ReadAll(more, longer, l2);
    NothingIsLost(more, longer, |more|);
  }

  lemma GoOn(actions: seq<Action>, links: seq<Link>, l: Link, a: Action)
    returns (more: seq<Action>, longer: seq<Link>)
    requires Reached(actions, links, l) && Enabled(l, a)
    ensures Reached(more, longer, Next(l, a)) && actions <= more && links <= longer && LinkInv(Next(l, a))
  {
    more, longer := actions + [a], links + [Next(l, a)];
    forall i: nat | i < |more|
      ensures Follows(more, longer, i)
    {
      if i < |actions| {
        assert Follows(actions, links, i);
      }
    }
    RunKeeps(more, longer, |more|);
  }

  lemma {:induction false} RunAllPosted(actions: seq<Action>, links: seq<Link>, l: Link)
    returns (more: seq<Action>, longer: seq<Link>, r: Link)
    requires Reached(actions, links, l) && Healthy(l)
    ensures Reached(more, longer, r) && actions <= more && links <= longer && Onward(l, r) && r.sender.posted == []
    decreases |l.sender.posted|
  {
    more, longer, r := actions, links, l;
    if l.sender.posted != [] {
      more, longer := GoOn(actions, links, l, RunPosted);
      more, longer, r := RunAllPosted(more, longer, Next(l, RunPosted));
    }
  }

  /** The parts of messages that are still to be written. */
  function PartsLeft(s: Sender): nat {
    2 * |s.out| + if s.writes != [] && s.writes[0].part.HeaderPart? then 1 else 0
  }

  lemma {:induction false} WriteAll(actions: seq<Action>, links: seq<Link>, l: Link)
    returns (more: seq<Action>, longer: seq<Link>, r: Link)
    requires Reached(actions, links, l) && Healthy(l) && l.sender.posted == []
    ensures Reached(more, longer, r) && actions <= more && links <= longer && Onward(l, r)
    ensures r.sender.posted == [] && r.sender.out == []
    decreases PartsLeft(l.sender)
  {
    more, longer, r := actions, links, l;
    RunKeeps(actions, links, |actions|);
    if l.sender.out != [] {
      more, longer, r := WritePart(actions, links, l);
      more, longer, r := WriteAll(more, longer, r);
    }
  }

  /** What is left of the write under way, and its handler. */
  lemma WritePart(actions: seq<Action>, links: seq<Link>, l: Link)
    returns (more: seq<Action>, longer: seq<Link>, r: Link)
    requires Reached(actions, links, l) && Healthy(l) && l.sender.posted == [] && l.sender.out != [] && LinkInv(l)
    ensures Reached(more, longer, r) && actions <= more && links <= longer && Onward(l, r)
    ensures r.sender.posted == [] && PartsLeft(r.sender) < PartsLeft(l.sender)
  {
    var w := l.sender.writes[0];
    var k := |PartBytes(l.sender.out[0], w.part)| - w.done;
    more, longer := GoOn(actions, links, l, Transfer(0, k));
    var l1 := Next(l, Transfer(0, k));
    more, longer := GoOn(more, longer, l1, CompleteWrite(0));
    r := Next(l1, CompleteWrite(0));
  }

  /** The bytes still to be taken, and the handler of a read that is complete. */
  function ReadsLeft(l: Link): int {
    2 * (|l.sender.wire| - l.receiver.taken) + if |l.receiver.got| == Wanted(l.receiver) then 1 else 0
  }

  lemma {:induction false} ReadAll(actions: seq<Action>, links: seq<Link>, l: Link)
    returns (more: seq<Action>, longer: seq<Link>, r: Link)
    requires Reached(actions, links, l) && Healthy(l) && l.sender.posted == [] && l.sender.out == []
    ensures Reached(more, longer, r) && actions <= more && links <= longer && Onward(l, r) && Drained(r)
    decreases if LinkInv(l) then ReadsLeft(l) else 0
  {
    more, longer, r := actions, links, l;
    RunKeeps(actions, links, |actions|);
    if !Drained(l) {
      more, longer, r := ReadPart(actions, links, l);
      more, longer, r := ReadAll(more, longer, r);
    }
  }

  /** A read's handler, or what there is of its bytes. */
  lemma ReadPart(actions: seq<Action>, links: seq<Link>, l: Link)
    returns (more: seq<Action>, longer: seq<Link>, r: Link)
    requires Reached(actions, links, l) && Healthy(l) && LinkInv(l) && !Drained(l)
    requires l.sender.posted == [] && l.sender.out == []
    ensures Reached(more, longer, r) && actions <= more && links <= longer && Onward(l, r) && LinkInv(r)
    ensures r.sender == l.sender && 0 <= ReadsLeft(r) < ReadsLeft(l)
  {
    var left, room := |l.sender.wire| - l.receiver.taken, Wanted(l.receiver) - |l.receiver.got|;
    var a := if room == 0 then CompleteRead else Arrive(if left < room then left else room);
    more, longer := GoOn(actions, links, l, a);
    r := Next(l, a);
    if room > 0 {
      ArrivesAsWanted(l, a.count);
    } else {
      WantsMore(l.receiver);
    }
  }

  lemma ArrivesAsWanted(l: Link, k: nat)
    requires Enabled(l, Arrive(k)) && k > 0 && |l.receiver.got| < Wanted(l.receiver)
    ensures var r := Next(l, Arrive(k)); Healthy(r) == Healthy(l) && ReadsLeft(r) < ReadsLeft(l)
  {
  }

  /** After a read's handler the next read is under way and has nothing yet. */
  lemma WantsMore(r: Receiver)
    requires Reads(r) && |r.got| == Wanted(r)
    ensures var q := ReadDone(r); Reads(q) && q.got == [] && Wanted(q) > 0 && q.taken == r.taken
  {
  }

  // ---------------------------------------------------------------------------------------
  // An endpoint and its handlers
  // ---------------------------------------------------------------------------------------

  class Endpoint {
    var posted: seq<Message>
    var messagesOut: seq<Message>
    var writes: seq<Write>
    var wire: seq<Byte>
    var failed: bool

    var temporaryIn: Message
    var reading: Reading
    var got: seq<Byte>
    var taken: nat
    var messagesIn: seq<Message>

    ghost function Sending(): Sender
      reads this
    {
      Sender(posted, messagesOut, writes, wire, failed)
    }

    ghost function Receiving(): Receiver
      reads this
    {
      Receiver(temporaryIn, reading, got, taken, messagesIn)
    }

    constructor ()
      ensures Sending() == SILENT.sender && Receiving() == SILENT.receiver
    {
      posted, messagesOut, writes, wire, failed := [], [], [], [], false;
      temporaryIn, reading, got, taken, messagesIn := EMPTY_MESSAGE, NotStarted, [], 0, [];
    }

    method SendMessage(m: Message)
      modifies this
      ensures Sending() == Posted(old(Sending()), m) && Receiving() == old(Receiving())
    {
      posted := posted + [m];
    }

    method RunPostedSend()
      requires posted != []
      modifies this
      ensures Sending() == Enqueued(old(Sending())) && Receiving() == old(Receiving())
    {
      var writingMessage := messagesOut != [];
      messagesOut, posted := messagesOut + [posted[0]], posted[1..];
      if !writingMessage {
        StartHeader();
      }
    }

    method StartHeader()
      modifies this
      ensures Sending() == WriteHeader(old(Sending())) && Receiving() == old(Receiving())
    {
      writes := writes + [Write(HeaderPart, 0)];
    }

    method StartBody()
      modifies this
      ensures Sending() == WriteBody(old(Sending())) && Receiving() == old(Receiving())
    {
      writes := writes + [Write(BodyPart, 0)];
    }

    method OnHeaderWritten(i: nat, error: bool)
      requires i < |writes| && writes[i].part.HeaderPart? && messagesOut != []
      modifies this
      ensures Sending() == if error then WriteFailed(old(Sending()), i) else Written(old(Sending()), i)
      ensures Receiving() == old(Receiving())
    {
      writes := Removed(writes, i);
      if error {
        failed := true;
      } else if |messagesOut[0].body| > 0 {
        StartBody();
      } else {
        messagesOut := messagesOut[1..];
        if messagesOut != [] {
          StartHeader();
        }
      }
    }

    method OnBodyWritten(i: nat, error: bool)
      requires i < |writes| && writes[i].part.BodyPart? && messagesOut != []
      modifies this
      ensures Sending() == if error then WriteFailed(old(Sending()), i) else Written(old(Sending()), i)
      ensures Receiving() == old(Receiving())
    {
      writes := Removed(writes, i);
      if error {
        failed := true;
      } else {
        messagesOut := messagesOut[1..];
        if messagesOut != [] {
          StartHeader();
        }
      }
    }

    method StartReadHeader()
      modifies this
      ensures Receiving() == ReadHeader(old(Receiving())) && Sending() == old(Sending())
    {
      reading, got := AwaitHeader, [];
    }

    method OnHeaderRead(error: bool)
      requires reading.AwaitHeader? && (!error ==> |got| == HEADER_LENGTH)
      modifies this
      ensures Receiving() == if error then ReadFailed(old(Receiving())) else ReadDone(old(Receiving()))
      ensures Sending() == old(Sending())
    {
      if error {
        reading := Stopped;
        return;
      }
      temporaryIn := temporaryIn.(header := HeaderOf(got));
      if temporaryIn.header.size > 0 {
        temporaryIn := temporaryIn.(body := Resized(temporaryIn.body, temporaryIn.header.size));
        reading, got := AwaitBody, [];
      } else {
        AddToIncomingMessageQueue();
      }
    }

    method OnBodyRead(error: bool)
      requires reading.AwaitBody? && (!error ==> |got| == |temporaryIn.body|)
      modifies this
      ensures Receiving() == if error then ReadFailed(old(Receiving())) else ReadDone(old(Receiving()))
      ensures Sending() == old(Sending())
    {
      if error {
        reading := Stopped;
        return;
      }
      temporaryIn := temporaryIn.(body := got);
      AddToIncomingMessageQueue();
    }

    method AddToIncomingMessageQueue()
      modifies this
      ensures Receiving() == Delivered(old(Receiving())) && Sending() == old(Sending())
    {
      messagesIn := messagesIn + [temporaryIn];
      StartReadHeader();
    }
  }
}
