/**
  The football server's replies (net/football_server.hpp, net/server.hpp): clients connect, their
  messages arrive in one queue, and the server answers them one by one.
 */
module Replies {
  import opened Wrappers
  import opened Messages

  // Event types (net/event.hpp).
  const ACCEPT: Word := 0
  const PING: Word := 1
  const NEW_CHAMPIONSHIP: Word := 2
  const NEW_CLUB: Word := 3
  const NEW_SEASON: Word := 4
  const NEW_SEASON_CLUB: Word := 5

  const FIRST_ID := 10000

  predicate IsRequest(id: Word) {
    id == NEW_CHAMPIONSHIP || id == NEW_CLUB || id == NEW_SEASON || id == NEW_SEASON_CLUB
  }

  /** Requests and pings are answered; everything else is ignored. */
  predicate IsAnswered(m: Message) { m.header.id == PING || IsRequest(m.header.id) }

  /** The size of a request's record in memory, with four-byte wide characters, and where its type field is. */
  function RecordSize(id: Word): nat
    requires IsRequest(id)
  {
    if id == NEW_SEASON then 56 else if id == NEW_SEASON_CLUB then 24 else 412
  }

  function TypeAt(id: Word): nat
    requires IsRequest(id)
  {
    if id == NEW_SEASON then 48 else if id == NEW_SEASON_CLUB then 16 else 408
  }

  const RESPONSE_SIZE := 16

  /** Long enough for its record to be pulled. */
  predicate LongEnough(m: Message) { IsRequest(m.header.id) ==> RecordSize(m.header.id) <= |m.body| }

  /** The type field of the record at the end of a request. */
  function EmbeddedType(m: Message): Word
    requires IsRequest(m.header.id) && LongEnough(m)
  {
    var record := Pull(m, RecordSize(m.header.id)).1;
    WordOf(record[TypeAt(m.header.id)..TypeAt(m.header.id) + 4])
  }

  predicate WellFormed(m: Message) { LongEnough(m) && (IsRequest(m.header.id) ==> EmbeddedType(m) == m.header.id) }

  const ACCEPTED := Message(Header(ACCEPT, 0), [])

  /** A ping comes back as it is; a request is answered with its record's type and the response of its action. */
  function Reply(m: Message, response: seq<Byte>): Option<Message>
    requires LongEnough(m)
  {
    if m.header.id == PING then Some(m)
    else if IsRequest(m.header.id) then Some(Push(Message(Header(EmbeddedType(m), 0), []), response))
    else None
  }

  // ---------------------------------------------------------------------------------------
  // Steps of the server
  // ---------------------------------------------------------------------------------------

  datatype Owned = Owned(client: nat, msg: Message)

  /** What one client was sent, what it sent, and how much of that has been handled. */
  datatype Client = Client(id: Word, out: seq<Message>, requests: seq<Message>, handled: nat)

  datatype Server = Server(clients: seq<Client>, queue: seq<Owned>, nextId: Word)

  const IDLE := Server([], [], FIRST_ID)

  datatype Action = Connect | Receive(client: nat, msg: Message) | Handle(response: seq<Byte>)

  predicate Enabled(s: Server, a: Action) {
    match a
    case Connect => true
    case Receive(c, m) => c < |s.clients| && LongEnough(m)
    case Handle(response) =>
      s.queue != [] && s.queue[0].client < |s.clients| && LongEnough(s.queue[0].msg) && |response| == RESPONSE_SIZE
  }

  /** The accept message is queued before the client gets its id and is read from. */
  function Connected(s: Server): Server {
    s.(clients := s.clients + [Client(s.nextId, [ACCEPTED], [], 0)], nextId := (s.nextId + 1) % TWO_32)
  }

  function Received(s: Server, c: nat, m: Message): Server
    requires c < |s.clients|
  {
    s.(clients := s.clients[c := s.clients[c].(requests := s.clients[c].requests + [m])],
       queue := s.queue + [Owned(c, m)])
  }

  function Handled(s: Server, response: seq<Byte>): Server
    requires s.queue != [] && s.queue[0].client < |s.clients| && LongEnough(s.queue[0].msg)
  {
    var c, reply := s.queue[0].client, Reply(s.queue[0].msg, response);
    var client := s.clients[c];
    s.(clients := s.clients[c := client.(out := client.out + (if reply.Some? then [reply.value] else []),
                                         handled := client.handled + 1)],
       queue := s.queue[1..])
  }

  function Next(s: Server, a: Action): Server
    requires Enabled(s, a)
  {
    match a
    case Connect => Connected(s)
    case Receive(c, m) => Received(s, c, m)
    case Handle(response) => Handled(s, response)
  }

  ghost predicate Run(actions: seq<Action>, states: seq<Server>) {
    |states| == |actions| + 1 && states[0] == IDLE && forall i: nat :: i < |actions| ==> Follows(actions, states, i)
  }

  ghost predicate Follows(actions: seq<Action>, states: seq<Server>, i: nat)
    requires i < |actions| < |states|
  {
    Enabled(states[i], actions[i]) && states[i + 1] == Next(states[i], actions[i])
  }

  // ---------------------------------------------------------------------------------------
  // What every step keeps
  // ---------------------------------------------------------------------------------------

  /** The messages of one client that are waiting in the queue. */
  function Waiting(queue: seq<Owned>, c: nat): seq<Message> {
    if queue == [] then []
    else Waiting(queue[..|queue| - 1], c) + if queue[|queue| - 1].client == c then [queue[|queue| - 1].msg] else []
  }

  lemma {:induction false} WaitingFirst(queue: seq<Owned>, c: nat)
    requires queue != []
    ensures Waiting(queue, c) == (if queue[0].client == c then [queue[0].msg] else []) + Waiting(queue[1..], c)
  {
    var n := |queue| - 1;
    if n > 0 {
      WaitingFirst(queue[..n], c);
      assert queue[..n][1..] == queue[1..][..n - 1] && queue[1..][n - 1] == queue[n];
    }
  }

  lemma WaitingLast(queue: seq<Owned>, o: Owned, c: nat)
    ensures Waiting(queue + [o], c) == Waiting(queue, c) + if o.client == c then [o.msg] else []
  {
    assert (queue + [o])[..|queue|] == queue;
  }

  function Answered(ms: seq<Message>): (r: seq<Message>)
    ensures |r| <= |ms|
  {
    if ms == [] then []
    else Answered(ms[..|ms| - 1]) + if IsAnswered(ms[|ms| - 1]) then [ms[|ms| - 1]] else []
  }

  /** Of the responses given to some messages, those to the ones that are answered. */
  function AnsweredWith(ms: seq<Message>, given: seq<seq<Byte>>): (r: seq<seq<Byte>>)
    requires |given| == |ms|
    ensures |r| == |Answered(ms)|
  {
    if ms == [] then []
    else
      var n := |ms| - 1;
      AnsweredWith(ms[..n], given[..n]) + if IsAnswered(ms[n]) then [given[n]] else []
  }

  /** An answer is the ping itself, or carries the type of the request's record and the response. */
  predicate Answers(reply: Message, m: Message, response: seq<Byte>) {
    if m.header.id == PING then reply == m
    else IsRequest(m.header.id) && LongEnough(m) && reply.header == Header(EmbeddedType(m), RESPONSE_SIZE)
         && reply.body == response && |response| == RESPONSE_SIZE
  }

  /** The accept message, and then one answer for each message that is answered, in order. */
  predicate InOrder(out: seq<Message>, handled: seq<Message>, given: seq<seq<Byte>>) {
    |given| == |handled| && |out| == 1 + |Answered(handled)| && out[0] == ACCEPTED
    && forall i :: 0 <= i < |Answered(handled)| ==>
         Answers(out[i + 1], Answered(handled)[i], AnsweredWith(handled, given)[i])
  }

  predicate ClientInv(client: Client, waiting: seq<Message>, given: seq<seq<Byte>>) {
    client.handled <= |client.requests| && client.requests[client.handled..] == waiting
    && InOrder(client.out, client.requests[..client.handled], given)
    && forall m <- client.requests :: LongEnough(m)
  }

  /** `given` is what the actions answered so far, client by client. */
  predicate Inv(s: Server, given: seq<seq<seq<Byte>>>) {
    |given| == |s.clients|
    && (forall c :: 0 <= c < |s.clients| ==> ClientInv(s.clients[c], Waiting(s.queue, c), given[c]))
    && QueueInv(s)
  }

  /** The responses of a run's actions, each for the client whose message was at the front of the queue. */
  ghost function Given(actions: seq<Action>, states: seq<Server>, n: nat): seq<seq<seq<Byte>>>
    requires n <= |actions| && n < |states|
  {
    if n == 0 then []
    else
      var before := Given(actions, states, n - 1);
      match actions[n - 1]
      case Connect => before + [[]]
      case Receive(_, _) => before
      case Handle(response) => After(before, states[n - 1].queue, response)
  }

  function After(given: seq<seq<seq<Byte>>>, queue: seq<Owned>, response: seq<Byte>): seq<seq<seq<Byte>>> {
    if queue != [] && queue[0].client < |given|
    then given[queue[0].client := given[queue[0].client] + [response]] else given
  }

  predicate QueueInv(s: Server) { forall o <- s.queue :: o.client < |s.clients| && LongEnough(o.msg) }

  lemma NobodyWaits(queue: seq<Owned>, c: nat)
    requires forall o <- queue :: o.client < c
    ensures Waiting(queue, c) == []
  {
  }

  lemma ConnectKeeps(s: Server, given: seq<seq<seq<Byte>>>)
    requires Inv(s, given)
    ensures Inv(Connected(s), given + [[]])
  {
    NobodyWaits(s.queue, |s.clients|);
  }

  lemma ReceiveKeeps(s: Server, c: nat, m: Message, given: seq<seq<seq<Byte>>>)
    requires Inv(s, given) && c < |s.clients| && LongEnough(m)
    ensures Inv(Received(s, c, m), given)
  {
    forall d | 0 <= d < |s.clients|
      ensures ClientInv(Received(s, c, m).clients[d], Waiting(s.queue + [Owned(c, m)], d), given[d])
    {
      WaitingLast(s.queue, Owned(c, m), d);
      MoreRequests(s.clients[d], Waiting(s.queue, d), m, given[d]);
    }
  }

  lemma MoreRequests(client: Client, waiting: seq<Message>, m: Message, given: seq<seq<Byte>>)
    requires ClientInv(client, waiting, given) && LongEnough(m)
    ensures ClientInv(client.(requests := client.requests + [m]), waiting + [m], given)
  {
    assert (client.requests + [m])[..client.handled] == client.requests[..client.handled];
  }

  lemma AnswerKeeps(out: seq<Message>, handled: seq<Message>, m: Message, given: seq<seq<Byte>>, response: seq<Byte>)
    requires InOrder(out, handled, given) && LongEnough(m) && |response| == RESPONSE_SIZE
    ensures var reply := Reply(m, response);
            InOrder(out + (if reply.Some? then [reply.value] else []), handled + [m], given + [response])
  {
    assert (handled + [m])[..|handled|] == handled && (given + [response])[..|handled|] == given;
    assert Reply(m, response).Some? ==> Answers(Reply(m, response).value, m, response);
  }

  lemma HandleKeeps(s: Server, response: seq<Byte>, given: seq<seq<seq<Byte>>>)
    requires Inv(s, given) && s.queue != [] && |response| == RESPONSE_SIZE
    ensures Enabled(s, Handle(response)) && Inv(Handled(s, response), After(given, s.queue, response))
  {
    var o, r, after := s.queue[0], Handled(s, response), After(given, s.queue, response);
    assert o in s.queue;
    forall d | 0 <= d < |s.clients|
      ensures ClientInv(r.clients[d], Waiting(r.queue, d), after[d])
    {
      WaitingFirst(s.queue, d);
      if d == o.client {
        HandledOne(s.clients[d], o.msg, Waiting(r.queue, d), given[d], response);
      }
    }
  }

  lemma HandledOne(client: Client, m: Message, waiting: seq<Message>, given: seq<seq<Byte>>, response: seq<Byte>)
    requires ClientInv(client, [m] + waiting, given) && LongEnough(m) && |response| == RESPONSE_SIZE
    ensures var reply := Reply(m, response);
            ClientInv(client.(out := client.out + (if reply.Some? then [reply.value] else []),
                              handled := client.handled + 1), waiting, given + [response])
  {
    var h := client.handled;
    assert client.requests[h] == client.requests[h..][0] == m;
    assert client.requests[h + 1..] == client.requests[h..][1..];
    assert client.requests[..h + 1] == client.requests[..h] + [m];
    AnswerKeeps(client.out, client.requests[..h], m, given, response);
  }

  lemma {:induction false} RunKeeps(actions: seq<Action>, states: seq<Server>, n: nat)
    requires Run(actions, states) && n <= |actions|
    ensures Inv(states[n], Given(actions, states, n))
  {
    if n > 0 {
      var given := Given(actions, states, n - 1);
      RunKeeps(actions, states, n - 1);
      assert Follows(actions, states, n - 1);
      match actions[n - 1]
      case Connect => ConnectKeeps(states[n - 1], given);
      case Receive(c, m) => ReceiveKeeps(states[n - 1], c, m, given);
      case Handle(response) => HandleKeeps(states[n - 1], response, given);
    }
  }

  // ---------------------------------------------------------------------------------------
  // What holds over every run
  // ---------------------------------------------------------------------------------------

  /** The replies queued for a client are the accept message and then, in the order of its messages, one reply to each
      ping and each request that has been handled: the ping itself, or the response that the action gave when the
      request was at the front of the queue, under the request's id if its record carries it. */
  lemma RepliesFollowRequests(actions: seq<Action>, states: seq<Server>, n: nat, c: nat)
    requires Run(actions, states) && n <= |actions| && c < |states[n].clients|
    ensures |Given(actions, states, n)| == |states[n].clients|
    ensures var client, given := states[n].clients[c], Given(actions, states, n)[c];
            client.handled <= |client.requests| && |given| == client.handled
            && var asked := Answered(client.requests[..client.handled]);
               var with := AnsweredWith(client.requests[..client.handled], given);
               |client.out| == 1 + |asked| && client.out[0] == Message(Header(0, 0), [])
               && forall i :: 0 <= i < |asked| ==>
                    if asked[i].header.id == 1 then client.out[i + 1] == asked[i]
                    else client.out[i + 1].body == with[i] && client.out[i + 1].header.size == |with[i]|
                         && (client.out[i + 1].header.id == asked[i].header.id <==> WellFormed(asked[i]))
  {
    RunKeeps(actions, states, n);
    var client, given := states[n].clients[c], Given(actions, states, n)[c];
    var asked := Answered(client.requests[..client.handled]);
    forall i | 0 <= i < |asked|
      ensures Answers(client.out[i + 1], asked[i], AnsweredWith(client.requests[..client.handled], given)[i])
    {
    }
  }

  /** Events 1 to 5 are answered: the ping and the four requests. */
  lemma WhatIsAnswered(m: Message, response: seq<Byte>)
    requires LongEnough(m)
    ensures Reply(m, response).Some? <==> 1 <= m.header.id <= 5
    ensures IsAnswered(m) <==> 1 <= m.header.id <= 5
  {
  }

  /** The type is the word four bytes before the end of a championship's or a club's record, and eight bytes before the
      end of a season's or a season's club's; records have 412, 56 and 24 bytes. */
  lemma EmbeddedInNumbers(m: Message)
    requires 2 <= m.header.id <= 5
    ensures LongEnough(m) <==> |m.body| >= if m.header.id <= 3 then 412 else if m.header.id == 4 then 56 else 24
    ensures LongEnough(m) ==>
              var i, b := |m.body| - (if m.header.id <= 3 then 4 else 8), m.body;
              EmbeddedType(m) == FromLeast(b[i], b[i + 1], b[i + 2], b[i + 3])
  {
    if LongEnough(m) {
      var size, at := RecordSize(m.header.id), TypeAt(m.header.id);
      var record, i := Pull(m, size).1, |m.body| - size + at;
      assert record == m.body[|m.body| - size..] && record[at..at + 4] == m.body[i..i + 4];
    }
  }

  /** Clients are numbered from 10000 in the order they come, in 32 bits. */
  lemma {:induction false} ClientIds(actions: seq<Action>, states: seq<Server>, n: nat)
    requires Run(actions, states) && n <= |actions|
    ensures states[n].nextId == (10000 + |states[n].clients|) % 0x1_0000_0000
    ensures forall c :: 0 <= c < |states[n].clients| ==> states[n].clients[c].id == (10000 + c) % 0x1_0000_0000
  {
    if n > 0 {
      ClientIds(actions, states, n - 1);
      assert Follows(actions, states, n - 1);
    }
  }

  /** When the queue is empty every message has been handled. */
  lemma EmptyQueueMeansAllHandled(actions: seq<Action>, states: seq<Server>, n: nat, c: nat)
    requires Run(actions, states) && n <= |actions| && c < |states[n].clients| && states[n].queue == []
    ensures states[n].clients[c].handled == |states[n].clients[c].requests|
  {
    RunKeeps(actions, states, n);
  }

  /** A reply to a request always tells the length of its body; a ping's does if the ping did. */
  lemma RepliesAreConsistent(m: Message, response: seq<Byte>)
    requires LongEnough(m) && IsAnswered(m) && |response| == RESPONSE_SIZE
    ensures Consistent(Reply(m, response).value) <==> IsRequest(m.header.id) || Consistent(m)
  {
  }

  // ---------------------------------------------------------------------------------------
  // The server, in place
  // ---------------------------------------------------------------------------------------

  predicate AllResponses(rs: seq<seq<Byte>>) { forall i :: 0 <= i < |rs| ==> |rs[i]| == RESPONSE_SIZE }

  /** Messages handled one after the other, with the responses their actions give. */
  function HandledAll(s: Server, from: nat, count: nat, responses: seq<seq<Byte>>): Server
    requires QueueInv(s) && count <= |s.queue| && from + count <= |responses| && AllResponses(responses)
    decreases count
  {
    if count == 0 then s
    else
      HandleNeedsQueue(s, responses[from]);
      HandledAll(Handled(s, responses[from]), from + 1, count - 1, responses)
  }

  lemma HandleNeedsQueue(s: Server, response: seq<Byte>)
    requires QueueInv(s) && s.queue != [] && |response| == RESPONSE_SIZE
    ensures Enabled(s, Handle(response)) && QueueInv(Handled(s, response))
  {
    assert s.queue[0] in s.queue;
  }

  class FootballServer {
    var clients: seq<Client>
    var queue: seq<Owned>
    var idCounter: Word

    function Contents(): Server
      reads this
    {
      Server(clients, queue, idCounter)
    }

    constructor ()
      ensures Contents() == IDLE
    {
      clients, queue, idCounter := [], [], FIRST_ID;
    }

    /** A client is accepted: it is sent the accept message, and then gets its id. */
    method OnConnection()
      modifies this
      ensures Contents() == Connected(old(Contents()))
    {
      var client := Client(idCounter, [], [], 0);
      client := client.(out := client.out + [ACCEPTED]);
      assert client.out == [ACCEPTED];
      clients := clients + [client];
      idCounter := (idCounter + 1) % TWO_32;
    }

    /** The record is pulled off the message, and the reply built from its type. */
    method ExecuteAction(m: Message, response: seq<Byte>) returns (reply: Message)
      requires IsRequest(m.header.id) && LongEnough(m)
      ensures Some(reply) == Reply(m, response) && reply.body == response
    {
      var msg := new Open(m);
      var record := msg.Extract(RecordSize(m.header.id));
      assert record == Pull(m, RecordSize(m.header.id)).1;
      var at := TypeAt(m.header.id);
      var res := new Open(Message(Header(WordOf(record[at..at + 4]), 0), []));
      res.Append(response);
      reply := Message(res.header, res.body);
    }

    method OnMessage(m: Message, response: seq<Byte>) returns (reply: Option<Message>)
      requires LongEnough(m)
      ensures reply == Reply(m, response)
    {
      if m.header.id == PING {
        return Some(m);
      } else if IsRequest(m.header.id) {
        var res := ExecuteAction(m, response);
        return Some(res);
      }
      return None;
    }

    /** At most so many messages off the queue; how many it was. */
    method Update(maxMessages: nat, responses: seq<seq<Byte>>) returns (count: nat)
      requires QueueInv(Contents()) && |responses| >= |queue| && AllResponses(responses)
      modifies this
      ensures count == if maxMessages < |old(queue)| then maxMessages else |old(queue)|
      ensures Contents() == HandledAll(old(Contents()), 0, count, responses)
    {
      count := 0;
      ghost var total := if maxMessages < |queue| then maxMessages else |queue|;
      while count < maxMessages && queue != []
        invariant 0 <= count <= total && |queue| == |old(queue)| - count && QueueInv(Contents())
        invariant HandledAll(old(Contents()), 0, total, responses)
                  == HandledAll(Contents(), count, total - count, responses)
        decreases |queue|
      {
        HandleNext(count, total, responses);
        count := count + 1;
      }
    }

    method HandleNext(i: nat, ghost total: nat, responses: seq<seq<Byte>>)
      requires QueueInv(Contents()) && queue != [] && AllResponses(responses)
      requires i < total <= |responses| && total - i <= |queue|
      modifies this
      ensures QueueInv(Contents()) && |queue| == |old(queue)| - 1
      ensures HandledAll(old(Contents()), i, total - i, responses)
              == HandledAll(Contents(), i + 1, total - i - 1, responses)
    {
      HandleNeedsQueue(Contents(), responses[i]);
      HandleFront(responses[i]);
    }

    /** The front message off the queue, and its reply queued for its client. */
    method HandleFront(response: seq<Byte>)
      requires Enabled(Contents(), Handle(response))
      modifies this
      ensures Contents() == Handled(old(Contents()), response)
    {
      var o := queue[0];
      queue := queue[1..];
      var reply := OnMessage(o.msg, response);
      var client := clients[o.client];
      clients := clients[o.client := client.(out := client.out + (if reply.Some? then [reply.value] else []),
                                             handled := client.handled + 1)];
    }
  }
}
