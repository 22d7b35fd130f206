/**
 * A connection as a whole: a socket whose completion handler of the body calls the request
 * handler (SQLiteSocket.cpp), among all the others of the server's run. The bytes it sends are
 * the answers the server records for its requests, in order.
 */
module Session {
  import opened Wrappers
  import opened Framing
  import opened Pipeline
  import opened Store
  import opened Handler
  import Server
  import ServerTheorems

  /** Parsing of requests and printing of responses. */
  datatype Codec = Codec(parse: seq<byte> -> Server.Request, dump: Server.Answer -> seq<byte>)

  /** What a socket's call of the handler meets is here the response that the handler returns. */
  function Echo(s: (), response: seq<byte>, request: seq<byte>): ((), seq<byte>) {
    (s, response)
  }

  /** The responses to these requests, as the server has recorded their answers. */
  function Responses(codec: Codec, answers: map<RequestId, Server.Answer>, requests: seq<RequestId>)
    : (responses: seq<seq<byte>>)
    requires forall r :: r in requests ==> r in answers
    ensures |responses| == |requests|
  {
    seq(|requests|, i requires 0 <= i < |requests| => codec.dump(answers[requests[i]]))
  }

  /** The requests among the events of a connection. */
  ghost function Receipts(calls: seq<Server.Event>): seq<Server.Event> {
    if calls == [] then [] else
    Receipts(calls[..|calls| - 1]) + (if calls[|calls| - 1].Receive? then [calls[|calls| - 1]] else [])
  }

  lemma {:induction false} ReceiptsOfReceived(before: seq<Server.Event>, after: seq<Server.Event>, e: Server.Event)
    requires ReceivedFirst(before, after, e) && e.Receive?
    ensures Receipts(after) == Receipts(before) + [e]
    decreases |after|
  {
    var front := after[..|after| - 1];
    if |after| == |before| + 1 {
      assert after == before + [e] && front == before;
    } else {
      assert before + [e] <= front;
      ReceiptsOfReceived(before, front, e);
    }
  }

  lemma {:induction false} EchoAnswers(calls: seq<Call<seq<byte>>>)
    ensures Answers(Echo, (), calls) == seq(|calls|, i requires 0 <= i < |calls| => calls[i].world)
  {
    if calls != [] {
      EchoAnswers(calls[1..]);
    }
  }

  /** A response for every request, each the recorded answer, and every request received in order. */
  ghost predicate Served(
    codec: Codec, c: ConnId, answers: map<RequestId, Server.Answer>, calls: seq<Call<seq<byte>>>,
    requests: seq<RequestId>, receipts: seq<Server.Event>)
  {
    && |requests| == |calls| == |receipts|
    && (forall i :: 0 <= i < |requests| ==>
          && requests[i] in answers
          && calls[i].world == codec.dump(answers[requests[i]])
          && receipts[i] == Server.Receive(c, requests[i], codec.parse(calls[i].request)))
  }

  lemma ServedOneMore(
    codec: Codec, c: ConnId, answers: map<RequestId, Server.Answer>, calls: seq<Call<seq<byte>>>,
    requests: seq<RequestId>, receipts: seq<Server.Event>, r: RequestId, request: seq<byte>)
    requires Served(codec, c, answers, calls, requests, receipts) && r in answers
    ensures Served(codec, c, answers, calls + [Call(codec.dump(answers[r]), request)], requests + [r],
                   receipts + [Server.Receive(c, r, codec.parse(request))])
  {
  }

  lemma StillServed(
    config: Server.Config, before: seq<Server.Event>, after: seq<Server.Event>,
    codec: Codec, c: ConnId, calls: seq<Call<seq<byte>>>, requests: seq<RequestId>, receipts: seq<Server.Event>)
    requires Server.Run(config, Server.START, after).Some? && before <= after
    requires Server.Run(config, Server.START, before).Some?
    requires Served(codec, c, Server.Run(config, Server.START, before).value.answers, calls, requests, receipts)
    ensures Served(codec, c, Server.Run(config, Server.START, after).value.answers, calls, requests, receipts)
  {
    hide Server.Run;
    forall i | 0 <= i < |requests|
      ensures requests[i] in Server.Run(config, Server.START, after).value.answers
      ensures calls[i].world == codec.dump(Server.Run(config, Server.START, after).value.answers[requests[i]])
    {
      ServerTheorems.AnswersStay(config, before, after, requests[i]);
    }
  }

  lemma ServedResponses(
    codec: Codec, c: ConnId, answers: map<RequestId, Server.Answer>, calls: seq<Call<seq<byte>>>,
    requests: seq<RequestId>, receipts: seq<Server.Event>)
    requires Served(codec, c, answers, calls, requests, receipts)
    ensures forall r :: r in requests ==> r in answers
    ensures Answers(Echo, (), calls) == Responses(codec, answers, requests)
  {
    EchoAnswers(calls);
  }

  /** What a handled request adds. */
  lemma ServedOnce(
    config: Server.Config, before: seq<Server.Event>, after: seq<Server.Event>, codec: Codec, c: ConnId,
    calls: seq<Call<seq<byte>>>, requests: seq<RequestId>, earlier: seq<Server.Event>, r: RequestId, request: seq<byte>)
    requires Server.Run(config, Server.START, after).Some? && before <= after
    requires Server.Run(config, Server.START, before).Some?
    requires ReceivedFirst(Calls(before, c), Calls(after, c), Server.Receive(c, r, codec.parse(request)))
    requires earlier <= Receipts(Calls(before, c))
    requires Served(codec, c, Server.Run(config, Server.START, before).value.answers, calls, requests,
                    Receipts(Calls(before, c))[|earlier|..])
    requires r in Server.Run(config, Server.START, after).value.answers
    ensures earlier <= Receipts(Calls(after, c))
    ensures var answers := Server.Run(config, Server.START, after).value.answers;
            Served(codec, c, answers, calls + [Call(codec.dump(answers[r]), request)], requests + [r],
                   Receipts(Calls(after, c))[|earlier|..])
  {
    hide Served, Server.Run, Receipts, Calls, ReceivedFirst;
    var e := Server.Receive(c, r, codec.parse(request));
    var receipts := Receipts(Calls(before, c));
    ReceiptsOfReceived(Calls(before, c), Calls(after, c), e);
    DropOfAppend(earlier, receipts, e);
    StillServed(config, before, after, codec, c, calls, requests, receipts[|earlier|..]);
    ServedOneMore(codec, c, Server.Run(config, Server.START, after).value.answers, calls, requests,
                  receipts[|earlier|..], r, request);
  }

  lemma DropOfAppend(earlier: seq<Server.Event>, receipts: seq<Server.Event>, e: Server.Event)
    requires earlier <= receipts
    ensures earlier <= receipts + [e] && (receipts + [e])[|earlier|..] == receipts[|earlier|..] + [e]
  {
  }

  /** A read that is complete does not depend on the response to come. */
  lemma AnyResponse(st: SocketState<(), seq<byte>>, response: seq<byte>)
    requires Pipeline.Enabled(st, ReadDone([]))
    ensures Pipeline.Enabled(st, ReadDone(response))
  {
  }

  lemma NothingHandled(maxPacket: nat, st: SocketState<(), seq<byte>>, e: Pipeline.Event<seq<byte>>)
    requires Pipeline.Enabled(st, e) && !(e.ReadDone? && st.reading.ReadingBody?)
    ensures Pipeline.Step(Echo, maxPacket, st, e).calls == st.calls
  {
  }

  lemma {:induction false} RunAppend(
    maxPacket: nat, st: SocketState<(), seq<byte>>, events: seq<Pipeline.Event<seq<byte>>>,
    e: Pipeline.Event<seq<byte>>)
    requires Pipeline.Run(Echo, maxPacket, st, events).Some?
    requires Pipeline.Enabled(Pipeline.Run(Echo, maxPacket, st, events).value, e)
    ensures Pipeline.Run(Echo, maxPacket, st, events + [e])
            == Some(Pipeline.Step(Echo, maxPacket, Pipeline.Run(Echo, maxPacket, st, events).value, e))
    decreases |events|
  {
    hide Pipeline.Step, Pipeline.Enabled;
    if events == [] {
      assert ([] + [e])[0] == e && ([] + [e])[1..] == [];
      assert Pipeline.Run(Echo, maxPacket, Pipeline.Step(Echo, maxPacket, st, e), [])
          == Some(Pipeline.Step(Echo, maxPacket, st, e));
    } else {
      assert (events + [e])[1..] == events[1..] + [e];
      RunAppend(maxPacket, Pipeline.Step(Echo, maxPacket, st, events[0]), events[1..], e);
    }
  }

  lemma SocketRunAppend(
    maxPacket: nat, input: seq<byte>, events: seq<Pipeline.Event<seq<byte>>>, st: SocketState<(), seq<byte>>,
    e: Pipeline.Event<seq<byte>>)
    requires Pipeline.Run(Echo, maxPacket, Initial((), input), events) == Some(st) && Pipeline.Enabled(st, e)
    ensures Pipeline.Run(Echo, maxPacket, Initial((), input), events + [e])
            == Some(Pipeline.Step(Echo, maxPacket, st, e))
  {
    RunAppend(maxPacket, Initial((), input), events, e);
  }

  lemma HandledInOrder(calls: seq<Call<seq<byte>>>, requests: seq<seq<byte>>)
    requires Handled(calls) <= requests
    ensures |calls| <= |requests| && forall i :: 0 <= i < |calls| ==> calls[i].request == requests[i]
  {
    forall i | 0 <= i < |calls| ensures calls[i].request == requests[i] {
      assert Handled(calls)[i] == requests[i];
    }
  }

  class Session {
    const world: World
    const handler: RequestHandler
    const socket: SQLiteSocket<(), seq<byte>>
    const codec: Codec
    ghost const input: seq<byte>                                // all that the peer sends
    ghost const earlier: seq<Server.Event>                      // requests of former connections of this name
    ghost var requests: seq<RequestId>                          // the requests of this connection
    ghost var events: seq<Pipeline.Event<seq<byte>>>            // what the socket has done

    constructor (world: World, conn: ConnId, codec: Codec, maxPacket: nat, input: seq<byte>)
      requires world.Valid() && conn !in world.state.conns
      modifies world
      ensures Valid() && this.world == world && handler.conn == conn && this.codec == codec
      ensures this.input == input && socket.maxPacket == maxPacket && requests == []
      ensures fresh(handler) && fresh(socket)
    {
      var h := new RequestHandler(world, conn);
      var s := new SQLiteSocket<(), seq<byte>>(Echo, maxPacket, (), input);
      this.world, this.codec, this.input, handler, socket := world, codec, input, h, s;
      earlier, requests, events := Receipts(Calls(world.trace, conn)), [], [];
    }

    ghost predicate Valid()
      reads this, world, handler, socket
    {
      && handler.world == world && handler.Valid() && world.state.conns[handler.conn].progress.Idle?
      && socket.Valid() && socket.handleRequest == Echo
      && Pipeline.Run(Echo, socket.maxPacket, Initial((), input), events) == Some(socket.View())
      && earlier <= Receipts(Calls(world.trace, handler.conn))
      && Served(codec, handler.conn, world.state.answers, socket.calls, requests,
                Receipts(Calls(world.trace, handler.conn))[|earlier|..])
    }

    /** Other connections run for a while; what this one was answered stays. */
    method OthersRun()
      requires Valid()
      modifies world
      ensures Valid()
    {
      hide Served;
      ghost var before := world.trace;
      world.Others(handler.conn);
      StillServed(world.config, before, world.trace, codec, handler.conn, socket.calls, requests,
                  Receipts(Calls(before, handler.conn))[|earlier|..]);
    }

    method BytesArrive(n: nat)
      requires Valid() && Pipeline.Enabled(socket.View(), Arrive(n))
      modifies socket, this`events
      ensures Valid() && requests == old(requests)
      ensures socket.View() == Pipeline.Step(Echo, socket.maxPacket, old(socket.View()), Arrive(n))
    {
      hide Served, Pipeline.Run, Pipeline.Step, Pipeline.Enabled, Server.Run, Calls, Receipts;
      SocketRunAppend(socket.maxPacket, input, events, socket.View(), Arrive(n));
      socket.BytesArrive(n);
      events := events + [Arrive(n)];
    }

    method HeaderCompleted(ok: bool)
      requires Valid() && socket.phase == HeaderRead
      requires Pipeline.Enabled(socket.View(), if ok then ReadDone([]) else ReadFailed)
      modifies socket, this`events
      ensures Valid() && requests == old(requests)
      ensures socket.View() == Pipeline.Step(Echo, socket.maxPacket, old(socket.View()),
                                             if ok then ReadDone([]) else ReadFailed)
    {
      hide Served, Pipeline.Run, Pipeline.Step, Pipeline.Enabled, Server.Run, Calls, Receipts;
      ghost var e := if ok then ReadDone([]) else ReadFailed;
      NothingHandled(socket.maxPacket, socket.View(), e);
      SocketRunAppend(socket.maxPacket, input, events, socket.View(), e);
      socket.HeaderCompleted(ok, []);
      events := events + [e];
    }

    /** The body is complete: the request is handled, and its answer is the response. */
    method BodyCompleted(r: RequestId)
      requires Valid() && socket.phase == BodyRead && world.Reserved(handler.conn, r)
      requires Pipeline.Enabled(socket.View(), ReadDone([]))
      requires Server.TextFields(codec.parse(socket.readBuffer[HEADER_SIZE..]))
      modifies this`requests, this`events, world, handler, socket
      ensures Valid() && requests == old(requests) + [r] && r in world.state.answers
      ensures socket.View() == Pipeline.Step(Echo, socket.maxPacket, old(socket.View()),
                                             ReadDone(codec.dump(world.state.answers[r])))
    {
      hide Served, Pipeline.Run, Pipeline.Step, Pipeline.Enabled, Server.Run, Server.Step;
      hide Receipts, Calls, ReceivedFirst;
      var request := socket.readBuffer[HEADER_SIZE..];
      ghost var before := world.trace;
      var answer := handler.HandleRequest(r, codec.parse(request));
      ServedOnce(world.config, before, world.trace, codec, handler.conn, socket.calls, requests, earlier, r, request);
      var response := codec.dump(answer);
      AnyResponse(socket.View(), response);
      SocketRunAppend(socket.maxPacket, input, events, socket.View(), ReadDone(response));
      BodyDoneShape(Echo, socket.maxPacket, socket.View(), response);
      socket.BodyCompleted(true, response);
      events, requests := events + [ReadDone(response)], requests + [r];
    }

    method BodyFailed()
      requires Valid() && socket.phase == BodyRead && Pipeline.Enabled(socket.View(), ReadFailed)
      modifies socket, this`events
      ensures Valid() && requests == old(requests)
      ensures socket.View() == Pipeline.Step(Echo, socket.maxPacket, old(socket.View()), ReadFailed)
    {
      hide Served, Pipeline.Run, Pipeline.Step, Pipeline.Enabled, Server.Run, Calls, Receipts;
      NothingHandled(socket.maxPacket, socket.View(), ReadFailed);
      SocketRunAppend(socket.maxPacket, input, events, socket.View(), ReadFailed);
      socket.BodyCompleted(false, []);
      events := events + [ReadFailed];
    }

    method BytesDepart(n: nat)
      requires Valid() && Pipeline.Enabled(socket.View(), Depart(n))
      modifies socket, this`events
      ensures Valid() && requests == old(requests)
      ensures socket.View() == Pipeline.Step(Echo, socket.maxPacket, old(socket.View()), Depart(n))
    {
      hide Served, Pipeline.Run, Pipeline.Step, Pipeline.Enabled, Server.Run, Calls, Receipts;
      SocketRunAppend(socket.maxPacket, input, events, socket.View(), Depart(n));
      socket.BytesDepart(n);
      events := events + [Depart(n)];
    }

    method WriteCompleted(ok: bool)
      requires Valid() && Pipeline.Enabled(socket.View(), if ok then WriteDone else WriteFailed)
      modifies socket, this`events
      ensures Valid() && requests == old(requests)
      ensures socket.View() == Pipeline.Step(Echo, socket.maxPacket, old(socket.View()),
                                             if ok then WriteDone else WriteFailed)
    {
      hide Served, Pipeline.Run, Pipeline.Step, Pipeline.Enabled, Server.Run, Calls, Receipts;
      ghost var e := if ok then WriteDone else WriteFailed;
      NothingHandled(socket.maxPacket, socket.View(), e);
      SocketRunAppend(socket.maxPacket, input, events, socket.View(), e);
      socket.WriteCompleted(ok);
      events := events + [e];
    }

    /**
     * At every moment the server has received the requests of this connection's bytes, parsed and
     * in order, as far as they were handled, and the bytes sent are a prefix of the frames of the
     * answers it has recorded for them; they are all of these when the queue is empty.
     */
    lemma SentBytesAreRecordedAnswers()
      requires Valid()
      ensures var received := Receipts(Calls(world.trace, handler.conn))[|earlier|..];
              && |received| == |requests| <= |Requests(input, socket.maxPacket)|
              && forall i :: 0 <= i < |requests| ==>
                   received[i] == Server.Receive(handler.conn, requests[i],
                                                 codec.parse(Requests(input, socket.maxPacket)[i]))
      ensures forall r :: r in requests ==> r in world.state.answers
      ensures var frames := Frames(Responses(codec, world.state.answers, requests));
              && socket.wire <= frames
              && (socket.wire == frames <==> socket.outPackets == [] || WholeQueueSent(socket.View()))
    {
      SentBytesArePrefixOfAnswers(Echo, socket.maxPacket, (), input, events);
      ServedResponses(codec, handler.conn, world.state.answers, socket.calls, requests,
                      Receipts(Calls(world.trace, handler.conn))[|earlier|..]);
      hide Pipeline.Run, Frames, Requests, Answers, Server.Run, Receipts, Calls;
      HandledInOrder(socket.calls, Requests(input, socket.maxPacket));
    }

    /** When nothing but a failure can happen any more and none did, every request has its answer. */
    lemma RestMeansAllServed()
      requires Valid() && AtRest(socket.View()) && !socket.readFailed && !socket.writeFailed
      ensures |requests| == |Requests(input, socket.maxPacket)|
      ensures forall r :: r in requests ==> r in world.state.answers
      ensures socket.open ==> socket.wire == Frames(Responses(codec, world.state.answers, requests))
    {
      RestMeansAllAnswered(Echo, socket.maxPacket, (), input, events, []);
      ServedResponses(codec, handler.conn, world.state.answers, socket.calls, requests,
                      Receipts(Calls(world.trace, handler.conn))[|earlier|..]);
      hide Pipeline.Run, Frames, Requests, Answers, Server.Run, Receipts, Calls, AtRest;
    }
  }
}
