/**
  A client's messages on their way to the football server and the answers on their way back: the two
  directions of a connection (net/connection.hpp) with the server between them (net/server.hpp,
  net/football_server.hpp).
 */
module Conversation {
  import opened Messages
  import C = Connection
  import R = Replies

  /** What the client has sent and what of it has arrived, how the server has dealt with it, what its actions gave for
      each message, and what has come back. */
  datatype Exchange = Exchange(up: C.Link, client: R.Client, given: seq<seq<Byte>>, down: C.Link)

  ghost predicate Served(actions: seq<R.Action>, states: seq<R.Server>, c: nat, client: R.Client,
                         given: seq<seq<Byte>>) {
    R.Run(actions, states) && c < |states[|actions|].clients| && states[|actions|].clients[c] == client
    && c < |R.Given(actions, states, |actions|)| && R.Given(actions, states, |actions|)[c] == given
  }

  /** Any moment of any three runs: what is delivered is put into the server's queue, and its replies are sent. */
  ghost predicate Possible(e: Exchange) {
    (exists actions, links :: C.Reached(actions, links, e.up))
    && (exists actions, links :: C.Reached(actions, links, e.down))
    && (exists actions, states, c :: Served(actions, states, c, e.client, e.given))
    && e.client.requests == e.up.receiver.delivered && e.down.sent == e.client.out
  }

  function Sent(e: Exchange): seq<Message> { e.up.sent }

  function Arrived(e: Exchange): seq<Message> { e.client.requests }

  function Handled(e: Exchange): nat { e.client.handled }

  function Replies(e: Exchange): seq<Message> { e.client.out }

  function Got(e: Exchange): seq<Message> { e.down.receiver.delivered }

  /** A ping that announces no body, after a message that did announce one. */
  predicate StalePing(sent: seq<Message>, j: nat)
    requires j < |sent|
  {
    sent[j].header.id == R.PING && sent[j].header.size == 0 && exists i :: 0 <= i < j && sent[i].header.size > 0
  }

  /** Where among the replies the one to a message is: after the accept message and the earlier replies. */
  function ReplyAt(sent: seq<Message>, j: nat): (k: nat)
    requires j < |sent|
    ensures k > 0
  {
    1 + |R.Answered(sent[..j])|
  }

  // ---------------------------------------------------------------------------------------
  // What the parts guarantee
  // ---------------------------------------------------------------------------------------

  lemma Delivery(l: C.Link)
    requires exists actions, links :: C.Reached(actions, links, l)
    ensures C.InStep(l.receiver.delivered, l.sent) <==> C.FirstConsistent(l.sent, |l.receiver.delivered|)
  {
    var actions, links :| C.Reached(actions, links, l);
    C.DeliveredIsPrefixOfSent(actions, links, |actions|);
  }

  /** A delivered message tells the length of its body unless it announces none and an earlier one announced one. */
  lemma WhenConsistent(l: C.Link, i: nat)
    requires (exists actions, links :: C.Reached(actions, links, l)) && i < |l.receiver.delivered|
    ensures var d := l.receiver.delivered;
            Consistent(d[i]) <==> d[i].header.size > 0 || forall j :: 0 <= j < i ==> d[j].header.size == 0
  {
    var actions, links :| C.Reached(actions, links, l);
    if l.receiver.delivered[i].header.size == 0 {
      C.StaleBody(actions, links, |actions|, i);
    } else {
      C.RunKeeps(actions, links, |actions|);
      assert C.Announced(l.receiver.delivered[i]);
    }
  }

  lemma Service(e: Exchange)
    requires Possible(e)
    ensures Handled(e) <= |Arrived(e)| && R.InOrder(Replies(e), Arrived(e)[..Handled(e)], e.given)
  {
    var actions, states, c :| Served(actions, states, c, e.client, e.given);
    R.RunKeeps(actions, states, |actions|);
  }

  // ---------------------------------------------------------------------------------------
  // Which reply belongs to which message
  // ---------------------------------------------------------------------------------------

  lemma {:induction false} AnsweredAt(ms: seq<Message>, given: seq<seq<Byte>>, j: nat)
    requires j < |ms| == |given| && R.IsAnswered(ms[j])
    ensures var i := |R.Answered(ms[..j])|;
            i < |R.Answered(ms)| && R.Answered(ms)[i] == ms[j] && R.AnsweredWith(ms, given)[i] == given[j]
  {
    var n := |ms| - 1;
    if j < n {
      AnsweredAt(ms[..n], given[..n], j);
      assert ms[..n][..j] == ms[..j];
    }
  }

  lemma {:induction false} AnsweredFrom(ms: seq<Message>, given: seq<seq<Byte>>, i: nat) returns (j: nat)
    requires i < |R.Answered(ms)| && |given| == |ms|
    ensures j < |ms| && R.IsAnswered(ms[j]) && |R.Answered(ms[..j])| == i
    ensures R.Answered(ms)[i] == ms[j] && R.AnsweredWith(ms, given)[i] == given[j]
  {
    var n := |ms| - 1;
    if i < |R.Answered(ms[..n])| {
      j := AnsweredFrom(ms[..n], given[..n], i);
      assert ms[..n][..j] == ms[..j];
    } else {
      j := n;
    }
  }

  lemma {:induction false} SameAnswers(a: seq<Message>, b: seq<Message>, j: nat)
    requires j <= |a| && j <= |b| && forall i :: 0 <= i < j ==> a[i].header == b[i].header
    ensures |R.Answered(a[..j])| == |R.Answered(b[..j])|
  {
    if j > 0 {
      SameAnswers(a, b, j - 1);
      assert a[..j][..j - 1] == a[..j - 1] && b[..j][..j - 1] == b[..j - 1];
    }
  }

  /** The reply to a handled message. */
  lemma ReplyTo(e: Exchange, j: nat)
    requires Possible(e) && C.InStep(Arrived(e), Sent(e)) && j < Handled(e)
    ensures |e.given| == Handled(e) <= |Arrived(e)| <= |Sent(e)|
    ensures R.IsAnswered(Sent(e)[j]) ==>
              var k := ReplyAt(Sent(e), j);
              k < |Replies(e)| && R.Answers(Replies(e)[k], Arrived(e)[j], e.given[j])
  {
    Service(e);
    var handled := Arrived(e)[..Handled(e)];
    assert C.Agrees(Arrived(e)[j], Sent(e)[j]);
    if R.IsAnswered(Sent(e)[j]) {
      assert handled[..j] == Arrived(e)[..j];
      AnsweredAt(handled, e.given, j);
      SameHeaders(e);
      SameAnswers(Arrived(e), Sent(e), j);
    }
  }

  lemma SameHeaders(e: Exchange)
    requires C.InStep(Arrived(e), Sent(e))
    ensures forall i :: 0 <= i < |Arrived(e)| ==> Arrived(e)[i].header == Sent(e)[i].header
  {
    assert forall i :: 0 <= i < |Arrived(e)| ==> C.Agrees(Arrived(e)[i], Sent(e)[i]);
  }

  /** The message a reply belongs to. */
  lemma RepliedTo(e: Exchange, k: nat) returns (j: nat)
    requires Possible(e) && C.InStep(Arrived(e), Sent(e)) && 0 < k < |Replies(e)|
    ensures j < |e.given| == Handled(e) <= |Arrived(e)| <= |Sent(e)|
    ensures R.IsAnswered(Sent(e)[j]) && ReplyAt(Sent(e), j) == k
    ensures R.Answers(Replies(e)[k], Arrived(e)[j], e.given[j])
  {
    Service(e);
    var handled := Arrived(e)[..Handled(e)];
    j := AnsweredFrom(handled, e.given, k - 1);
    assert handled[..j] == Arrived(e)[..j];
    SameHeaders(e);
    SameAnswers(Arrived(e), Sent(e), j);
  }

  // ---------------------------------------------------------------------------------------
  // There and back
  // ---------------------------------------------------------------------------------------

  /** None of the first n replies is to a stale ping. */
  predicate NoneStale(e: Exchange, n: nat) {
    forall j :: 0 <= j < Handled(e) && j < |Sent(e)| && ReplyAt(Sent(e), j) < n ==> !StalePing(Sent(e), j)
  }

  /** None of the answers that have come back is to a stale ping. */
  predicate NoStaleAnswer(e: Exchange) { NoneStale(e, |Got(e)|) }

  lemma StaleWhenArrived(e: Exchange, j: nat)
    requires Possible(e) && C.InStep(Arrived(e), Sent(e)) && j < |Arrived(e)| && Sent(e)[j].header.id == R.PING
    ensures Consistent(Arrived(e)[j]) <==> !StalePing(Sent(e), j)
  {
    SameHeaders(e);
    WhenConsistent(e.up, j);
    assert Arrived(e)[j].header == Sent(e)[j].header;
  }

  lemma ReplyIsConsistent(e: Exchange, k: nat, n: nat)
    requires Possible(e) && C.InStep(Arrived(e), Sent(e)) && NoneStale(e, n) && k < |Replies(e)| && k < n
    ensures Consistent(Replies(e)[k])
  {
    Service(e);
    if k > 0 {
      var j := RepliedTo(e, k);
      SameHeaders(e);
      if Sent(e)[j].header.id == R.PING {
        StaleWhenArrived(e, j);
      }
    }
  }

  lemma StaleAnswerShows(e: Exchange, j: nat)
    requires Possible(e) && C.InStep(Arrived(e), Sent(e)) && C.InStep(Got(e), Replies(e))
    requires j < Handled(e) && j < |Sent(e)| && ReplyAt(Sent(e), j) < |Got(e)|
    ensures !StalePing(Sent(e), j)
  {
    if StalePing(Sent(e), j) {
      ReplyTo(e, j);
      Delivery(e.down);
      StaleWhenArrived(e, j);
    }
  }

  /** What the client sends arrives as sent, and what the server replies comes back as replied, exactly if the client's
      messages tell the length of their bodies and no answer is to a stale ping. */
  lemma BothWaysInStep(e: Exchange)
    requires Possible(e)
    ensures C.InStep(Arrived(e), Sent(e)) && C.InStep(Got(e), Replies(e))
            <==> C.FirstConsistent(Sent(e), |Arrived(e)|) && NoStaleAnswer(e)
  {
    Delivery(e.up);
    Delivery(e.down);
    if C.InStep(Arrived(e), Sent(e)) {
      if C.InStep(Got(e), Replies(e)) {
        forall j | 0 <= j < Handled(e) && j < |Sent(e)| && ReplyAt(Sent(e), j) < |Got(e)|
          ensures !StalePing(Sent(e), j)
        {
          StaleAnswerShows(e, j);
        }
      }
      if NoStaleAnswer(e) {
        forall k | 0 <= k < |Got(e)| && k < |Replies(e)|
          ensures Consistent(Replies(e)[k])
        {
          ReplyIsConsistent(e, k, |Got(e)|);
        }
      }
    }
  }

  /** Then the client receives the accept message and, in the order of what it sent, its pings as it sent them and the
      responses that the server's actions gave for its requests; nothing else, and none too early. */
  lemma AnswersComeBack(e: Exchange)
    requires Possible(e) && C.FirstConsistent(Sent(e), |Arrived(e)|) && NoStaleAnswer(e)
    ensures |e.given| == Handled(e) <= |Arrived(e)| <= |Sent(e)|
    ensures |Got(e)| <= 1 + |R.Answered(Sent(e)[..Handled(e)])|
    ensures Got(e) != [] ==> C.Agrees(Got(e)[0], R.ACCEPTED)
    ensures forall j :: 0 <= j < Handled(e) && R.IsAnswered(Sent(e)[j]) && ReplyAt(Sent(e), j) < |Got(e)| ==>
              Answer(Got(e)[ReplyAt(Sent(e), j)], Sent(e)[j], e.given[j])
  {
    BothWaysInStep(e);
    Service(e);
    SameHeaders(e);
    SameAnswers(Arrived(e), Sent(e), Handled(e));
    assert Got(e) != [] ==> C.Agrees(Got(e)[0], Replies(e)[0]);
    forall j | 0 <= j < Handled(e) && R.IsAnswered(Sent(e)[j]) && ReplyAt(Sent(e), j) < |Got(e)|
      ensures Answer(Got(e)[ReplyAt(Sent(e), j)], Sent(e)[j], e.given[j])
    {
      AnswerComesBack(e, j);
    }
  }

  /** A ping, or the response to a request, under the type that is in the request. */
  predicate Answer(received: Message, sent: Message, response: seq<Byte>) {
    if sent.header.id == R.PING then C.Agrees(received, sent)
    else received.body == response && received.header.size == |response| == 16
         && (sent.header.size > 0 ==>
               R.LongEnough(sent) && (R.IsRequest(sent.header.id) ==> received.header.id == R.EmbeddedType(sent)))
  }

  lemma AnswerComesBack(e: Exchange, j: nat)
    requires Possible(e) && C.InStep(Arrived(e), Sent(e)) && C.InStep(Got(e), Replies(e)) && j < Handled(e)
    requires C.FirstConsistent(Sent(e), |Arrived(e)|) && NoStaleAnswer(e)
    requires j < |Sent(e)| && R.IsAnswered(Sent(e)[j]) && ReplyAt(Sent(e), j) < |Got(e)|
    ensures j < |e.given| && Answer(Got(e)[ReplyAt(Sent(e), j)], Sent(e)[j], e.given[j])
  {
    var k := ReplyAt(Sent(e), j);
    ReplyTo(e, j);
    assert C.Agrees(Got(e)[k], Replies(e)[k]) && C.Agrees(Arrived(e)[j], Sent(e)[j]);
    WhenConsistent(e.up, j);
    if Sent(e)[j].header.id == R.PING {
      StaleWhenArrived(e, j);
      SameMessage(Arrived(e)[j], Sent(e)[j]);
    } else {
      WhenConsistent(e.down, k);
      SameMessage(Got(e)[k], Replies(e)[k]);
      if Sent(e)[j].header.size > 0 {
        SameMessage(Arrived(e)[j], Sent(e)[j]);
      }
    }
  }

  lemma SameMessage(received: Message, sent: Message)
    requires C.Agrees(received, sent) && Consistent(received)
    ensures received == sent
  {
  }

  /** When everything has been written, read and handled, every message has arrived and every answer has come back,
      exactly if the client's messages tell the length of their bodies and no ping is stale. */
  lemma EverythingIsAnswered(e: Exchange)
    requires Possible(e) && C.Drained(e.up) && C.Drained(e.down) && Handled(e) == |Arrived(e)|
    ensures |Arrived(e)| == |Sent(e)| && C.InStep(Arrived(e), Sent(e))
            && |Got(e)| == 1 + |R.Answered(Sent(e))| && C.InStep(Got(e), Replies(e))
            <==> C.AllConsistent(Sent(e)) && forall j :: 0 <= j < |Sent(e)| ==> !StalePing(Sent(e), j)
  {
    AllDelivered(e.up);
    AllDelivered(e.down);
    if |Arrived(e)| == |Sent(e)| && C.InStep(Arrived(e), Sent(e)) {
      NumberOfReplies(e);
      BothWaysInStep(e);
      if C.AllConsistent(Sent(e)) && forall j :: 0 <= j < |Sent(e)| ==> !StalePing(Sent(e), j) {
        AllRepliesConsistent(e);
      }
      if |Got(e)| == |Replies(e)| && NoStaleAnswer(e) {
        NoPingIsStale(e);
      }
    }
  }

  lemma NumberOfReplies(e: Exchange)
    requires Possible(e) && C.InStep(Arrived(e), Sent(e)) && |Arrived(e)| == |Sent(e)| == Handled(e)
    ensures |Replies(e)| == 1 + |R.Answered(Sent(e))|
  {
    Service(e);
    SameHeaders(e);
    SameAnswers(Arrived(e), Sent(e), |Sent(e)|);
    assert Arrived(e)[..|Sent(e)|] == Arrived(e) && Sent(e)[..|Sent(e)|] == Sent(e);
  }

  lemma AllRepliesConsistent(e: Exchange)
    requires Possible(e) && C.InStep(Arrived(e), Sent(e))
    requires forall j :: 0 <= j < |Sent(e)| ==> !StalePing(Sent(e), j)
    ensures C.AllConsistent(Replies(e))
  {
    forall k | 0 <= k < |Replies(e)|
      ensures Consistent(Replies(e)[k])
    {
      ReplyIsConsistent(e, k, |Replies(e)|);
    }
  }

  lemma NoPingIsStale(e: Exchange)
    requires Possible(e) && C.InStep(Arrived(e), Sent(e)) && |Arrived(e)| == |Sent(e)| == Handled(e)
    requires |Got(e)| == |Replies(e)| && NoStaleAnswer(e)
    ensures forall j :: 0 <= j < |Sent(e)| ==> !StalePing(Sent(e), j)
  {
    forall j | 0 <= j < |Sent(e)|
      ensures !StalePing(Sent(e), j)
    {
      if Sent(e)[j].header.id == R.PING {
        ReplyTo(e, j);
      }
    }
  }

  lemma AllDelivered(l: C.Link)
    requires (exists actions, links :: C.Reached(actions, links, l)) && C.Drained(l)
    ensures |l.receiver.delivered| == |l.sent| && C.InStep(l.receiver.delivered, l.sent) <==> C.AllConsistent(l.sent)
  {
    var actions, links :| C.Reached(actions, links, l);
    C.NothingIsLost(actions, links, |actions|);
  }
}
