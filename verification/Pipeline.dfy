/**
 * The connection pipeline of SQLiteSocket.cpp: framed asynchronous reads, one handler call
 * per request, and a queue of responses with at most one asynchronous write outstanding.
 *
 * `SocketState` and `Step` describe a socket and its completion handlers as a state machine;
 * the class `SQLiteSocket` is the code and is proved to take exactly these steps.
 */
module Pipeline {
  import opened Wrappers
  import opened Framing

  /** One call of handle_request: the request and the shared state it met. */
  datatype Call<+W> = Call(world: W, request: seq<byte>)

  /** The outstanding async_read with the bytes received so far (the header included). */
  datatype Reading =
    | ReadingHeader(got: seq<byte>)
    | ReadingBody(got: seq<byte>)
    | Stopped(got: seq<byte>)

  datatype SocketState<+S, +W> = SocketState(
    open: bool,
    reading: Reading,
    outPackets: seq<seq<byte>>,  // encoded responses, the head first
    writing: bool,               // an async_write of the head is outstanding
    headSent: nat,               // bytes of the head that reached the wire
    writeFailed: bool,           // a write completed with an error
    readFailed: bool,            // a read completed with an error
    handler: S,
    calls: seq<Call<W>>,         // every call of the handler so far
    incoming: seq<byte>,         // bytes the peer sent that were not read yet
    wire: seq<byte>)             // bytes sent to the peer

  datatype Event<+W> =
    | Arrive(n: nat)         // n more bytes reach the buffer of the outstanding read
    | ReadDone(world: W)     // the read is complete and its completion handler runs
    | ReadFailed             // the read's completion handler runs with an error
    | Depart(n: nat)         // n more bytes of the outstanding write reach the wire
    | WriteDone              // the write is complete and its completion handler runs
    | WriteFailed            // the write's completion handler runs with an error

  type HandleRequest<!S, !W> = (S, W, seq<byte>) -> (S, seq<byte>)

  function Initial<S, W>(handler: S, input: seq<byte>): SocketState<S, W> {
    SocketState(true, ReadingHeader([]), [], false, 0, false, false, handler, [], input, [])
  }

  /** The number of bytes the outstanding read has to receive in all. */
  function Wanted(reading: Reading): nat {
    match reading
    case ReadingHeader(_) => HEADER_SIZE
    case ReadingBody(got) =>
      HEADER_SIZE + FromLittleEndian(got[..if |got| < HEADER_SIZE then |got| else HEADER_SIZE])
    case Stopped(got) => |got|
  }

  predicate Enabled<S, W>(st: SocketState<S, W>, e: Event<W>) {
    match e
    case Arrive(n) =>
      st.open && !st.reading.Stopped? && 0 < n <= |st.incoming| && |st.reading.got| + n <= Wanted(st.reading)
    case ReadDone(_) =>
      !st.reading.Stopped? && |st.reading.got| >= HEADER_SIZE && |st.reading.got| == Wanted(st.reading)
    case ReadFailed => !st.reading.Stopped? && |st.reading.got| < Wanted(st.reading)
    case Depart(n) =>
      st.open && st.writing && st.outPackets != [] && 0 < n && st.headSent + n <= |st.outPackets[0]|
    case WriteDone => st.writing && st.outPackets != [] && st.headSent == |st.outPackets[0]|
    case WriteFailed => st.writing && st.outPackets != [] && st.headSent < |st.outPackets[0]|
  }

  /** send_response: queue the packet; start a write only if the queue was empty. */
  function Sending<S, W>(st: SocketState<S, W>, packet: seq<byte>): SocketState<S, W> {
    var st' := st.(outPackets := st.outPackets + [packet]);
    if st.outPackets == [] then st'.(writing := true, headSent := 0) else st'
  }

  function Step<S, W>(h: HandleRequest<S, W>, maxPacket: nat, st: SocketState<S, W>, e: Event<W>): SocketState<S, W>
    requires Enabled(st, e)
  {
    match e
    case Arrive(n) =>
      st.(reading := st.reading.(got := st.reading.got + st.incoming[..n]), incoming := st.incoming[n..])
    case ReadDone(world) =>
      if st.reading.ReadingHeader? then
        if FromLittleEndian(st.reading.got) > maxPacket
        then st.(open := false, reading := Stopped(st.reading.got))
        else st.(reading := ReadingBody(st.reading.got))
      else
        var request := st.reading.got[HEADER_SIZE..];
        var (handler, answer) := h(st.handler, world, request);
        Sending(st.(handler := handler, calls := st.calls + [Call(world, request)]), Frame(answer))
          .(reading := ReadingHeader([]))
    case ReadFailed => st.(reading := Stopped(st.reading.got), readFailed := true)
    case Depart(n) =>
      st.(headSent := st.headSent + n, wire := st.wire + st.outPackets[0][st.headSent..st.headSent + n])
    case WriteDone =>
      st.(outPackets := st.outPackets[1..], headSent := 0, writing := |st.outPackets| > 1)
    case WriteFailed => st.(writing := false, writeFailed := true)
  }

  /** The state after a run, if every event was possible when it happened. */
  function Run<S, W>(h: HandleRequest<S, W>, maxPacket: nat, st: SocketState<S, W>, events: seq<Event<W>>)
    : Option<SocketState<S, W>>
    decreases |events|
  {
    if events == [] then Some(st)
    else if !Enabled(st, events[0]) then None
    else Run(h, maxPacket, Step(h, maxPacket, st, events[0]), events[1..])
  }

  // ----- What a sequential server would do -----

  /** The requests a byte stream holds: its complete frames up to the first oversized header. */
  function Requests(input: seq<byte>, maxPacket: nat): seq<seq<byte>> {
    if |input| < HEADER_SIZE then [] else
    var size := FromLittleEndian(input[..HEADER_SIZE]);
    if size > maxPacket || |input| - HEADER_SIZE < size then []
    else [input[HEADER_SIZE..HEADER_SIZE + size]] + Requests(input[HEADER_SIZE + size..], maxPacket)
  }

  /** The answers a handler gives to a list of calls, one after another. */
  function Answers<S, W>(h: HandleRequest<S, W>, s: S, calls: seq<Call<W>>): (answers: seq<seq<byte>>)
    ensures |answers| == |calls|
  {
    if calls == [] then [] else
    var (s', answer) := h(s, calls[0].world, calls[0].request);
    [answer] + Answers(h, s', calls[1..])
  }

  function HandlerAfter<S, W>(h: HandleRequest<S, W>, s: S, calls: seq<Call<W>>): S {
    if calls == [] then s else HandlerAfter(h, h(s, calls[0].world, calls[0].request).0, calls[1..])
  }

  function Handled<W>(calls: seq<Call<W>>): (requests: seq<seq<byte>>)
    ensures |requests| == |calls|
  {
    seq(|calls|, i requires 0 <= i < |calls| => calls[i].request)
  }

  lemma {:induction false} AnswersAppend<S, W>(h: HandleRequest<S, W>, s: S, calls: seq<Call<W>>, call: Call<W>)
    ensures var (s', answer) := h(HandlerAfter(h, s, calls), call.world, call.request);
            HandlerAfter(h, s, calls + [call]) == s' && Answers(h, s, calls + [call]) == Answers(h, s, calls) + [answer]
  {
    if calls == [] {
      assert [call][1..] == [];
    } else {
      AnswersAppend(h, h(s, calls[0].world, calls[0].request).0, calls[1..], call);
      assert (calls + [call])[1..] == calls[1..] + [call];
    }
  }

  // ----- The invariant of every run -----

  function Unparsed<S, W>(st: SocketState<S, W>): seq<byte> {
    st.reading.got + st.incoming
  }

  /** The read side: the calls made so far and the unread bytes account for the whole input. */
  ghost predicate ReadsInOrder<S, W>(maxPacket: nat, input: seq<byte>, st: SocketState<S, W>) {
    && Requests(input, maxPacket) == Handled(st.calls) + Requests(Unparsed(st), maxPacket)
    && |st.reading.got| <= Wanted(st.reading)
    && (st.reading.ReadingBody? ==>
          |st.reading.got| >= HEADER_SIZE && FromLittleEndian(st.reading.got[..HEADER_SIZE]) <= maxPacket)
    && (st.reading.Stopped? ==> st.readFailed || Requests(Unparsed(st), maxPacket) == [])
    && (st.readFailed || !st.open ==> st.reading.Stopped?)
  }

  /** The number of responses that were sent in full. */
  function Completed<S, W>(st: SocketState<S, W>): int {
    |st.calls| - |st.outPackets|
  }

  ghost predicate QueueHoldsAnswers<S, W>(h: HandleRequest<S, W>, s: S, st: SocketState<S, W>) {
    && |st.outPackets| <= |st.calls|
    && st.handler == HandlerAfter(h, s, st.calls)
    && forall i :: 0 <= i < |st.outPackets| ==>
         st.outPackets[i] == Frame(Answers(h, s, st.calls)[Completed(st) + i])
  }

  /** The write side: the wire holds the completed responses and the sent part of the head. */
  ghost predicate WireInOrder<S, W>(h: HandleRequest<S, W>, s: S, st: SocketState<S, W>) {
    && QueueHoldsAnswers(h, s, st)
    && st.headSent <= (if st.outPackets == [] then 0 else |st.outPackets[0]|)
    && st.wire == Frames(Answers(h, s, st.calls)[..Completed(st)])
                + (if st.outPackets == [] then [] else st.outPackets[0][..st.headSent])
  }

  /** One write is outstanding exactly while responses are queued, until a write fails. */
  ghost predicate OneWrite<S, W>(st: SocketState<S, W>) {
    if st.writeFailed then !st.writing && st.outPackets != [] else st.writing == (st.outPackets != [])
  }

  ghost predicate Inv<S, W>(h: HandleRequest<S, W>, maxPacket: nat, s: S, input: seq<byte>, st: SocketState<S, W>) {
    ReadsInOrder(maxPacket, input, st) && WireInOrder(h, s, st) && OneWrite(st)
  }

  lemma InitialInv<S, W>(h: HandleRequest<S, W>, maxPacket: nat, s: S, input: seq<byte>)
    ensures Inv(h, maxPacket, s, input, Initial<S, W>(s, input))
  {
    assert Unparsed(Initial<S, W>(s, input)) == input;
  }

  lemma ArriveKeepsReads<S, W>(h: HandleRequest<S, W>, maxPacket: nat, input: seq<byte>, st: SocketState<S, W>, n: nat)
    requires ReadsInOrder(maxPacket, input, st) && Enabled(st, Arrive(n))
    ensures ReadsInOrder(maxPacket, input, Step(h, maxPacket, st, Arrive(n)))
  {
    var st' := Step(h, maxPacket, st, Arrive(n));
    assert Unparsed(st') == Unparsed(st);
    if st.reading.ReadingBody? {
      assert st'.reading.got[..HEADER_SIZE] == st.reading.got[..HEADER_SIZE];
    }
  }

  lemma HeaderDoneKeepsReads<S, W>(
    h: HandleRequest<S, W>, maxPacket: nat, input: seq<byte>, st: SocketState<S, W>, world: W)
    requires ReadsInOrder(maxPacket, input, st) && Enabled(st, ReadDone(world)) && st.reading.ReadingHeader?
    ensures ReadsInOrder(maxPacket, input, Step(h, maxPacket, st, ReadDone(world)))
  {
    var got := st.reading.got;
    assert got[..HEADER_SIZE] == got;
    assert (got + st.incoming)[..HEADER_SIZE] == got;
  }

  /** A complete body in front of other bytes is the first request. */
  lemma RequestsOfBody(got: seq<byte>, incoming: seq<byte>, maxPacket: nat)
    requires |got| >= HEADER_SIZE && |got| == HEADER_SIZE + FromLittleEndian(got[..HEADER_SIZE])
    requires FromLittleEndian(got[..HEADER_SIZE]) <= maxPacket
    ensures Requests(got + incoming, maxPacket) == [got[HEADER_SIZE..]] + Requests(incoming, maxPacket)
  {
    hide FromLittleEndian;
    var unparsed, size := got + incoming, FromLittleEndian(got[..HEADER_SIZE]);
    assert unparsed[..HEADER_SIZE] == got[..HEADER_SIZE];
    assert unparsed[HEADER_SIZE..HEADER_SIZE + size] == got[HEADER_SIZE..];
    assert unparsed[HEADER_SIZE + size..] == incoming;
  }

  lemma BodyDoneShape<S, W>(h: HandleRequest<S, W>, maxPacket: nat, st: SocketState<S, W>, world: W)
    requires Enabled(st, ReadDone(world)) && st.reading.ReadingBody?
    ensures var st' := Step(h, maxPacket, st, ReadDone(world));
            && st'.open == st.open && st'.readFailed == st.readFailed && st'.incoming == st.incoming
            && st'.reading == ReadingHeader([]) && st'.calls == st.calls + [Call(world, st.reading.got[HEADER_SIZE..])]
  {
    hide Frame, FromLittleEndian;
  }

  lemma BodyDoneKeepsReads<S, W>(
    h: HandleRequest<S, W>, maxPacket: nat, input: seq<byte>, st: SocketState<S, W>, world: W)
    requires ReadsInOrder(maxPacket, input, st) && Enabled(st, ReadDone(world)) && st.reading.ReadingBody?
    ensures ReadsInOrder(maxPacket, input, Step(h, maxPacket, st, ReadDone(world)))
  {
    hide Step, Frame, FromLittleEndian, Requests;
    var st' := Step(h, maxPacket, st, ReadDone(world));
    BodyDoneShape(h, maxPacket, st, world);
    var got := st.reading.got;
    RequestsOfBody(got, st.incoming, maxPacket);
    assert [] + st.incoming == st.incoming;
    assert Handled(st'.calls) == Handled(st.calls) + [got[HEADER_SIZE..]];
  }

  lemma ReadStepKeepsOrder<S, W>(
    h: HandleRequest<S, W>, maxPacket: nat, input: seq<byte>, st: SocketState<S, W>, e: Event<W>)
    requires ReadsInOrder(maxPacket, input, st) && Enabled(st, e)
    ensures ReadsInOrder(maxPacket, input, Step(h, maxPacket, st, e))
  {
    match e
    case Arrive(n) => ArriveKeepsReads(h, maxPacket, input, st, n);
    case ReadDone(world) =>
      if st.reading.ReadingHeader? {
        HeaderDoneKeepsReads(h, maxPacket, input, st, world);
      } else {
        BodyDoneKeepsReads(h, maxPacket, input, st, world);
      }
    case _ =>
  }

  lemma SendingKeepsOrder<S, W>(h: HandleRequest<S, W>, s: S, st: SocketState<S, W>, call: Call<W>)
    requires WireInOrder(h, s, st) && OneWrite(st)
    ensures var (handler, answer) := h(st.handler, call.world, call.request);
            var st' := Sending(st.(handler := handler, calls := st.calls + [call]), Frame(answer));
            WireInOrder(h, s, st') && OneWrite(st')
  {
    hide Frame, Frames, Answers, HandlerAfter;
    AnswersAppend(h, s, st.calls, call);
    var answers, answers' := Answers(h, s, st.calls), Answers(h, s, st.calls + [call]);
    var k := Completed(st);
    assert answers'[..k] == answers[..k];
    if st.outPackets == [] {
      assert Frame(answers'[k])[..0] == [];
    }
  }

  lemma DepartKeepsOrder<S, W>(h: HandleRequest<S, W>, maxPacket: nat, s: S, st: SocketState<S, W>, n: nat)
    requires WireInOrder(h, s, st) && Enabled(st, Depart(n))
    ensures WireInOrder(h, s, Step(h, maxPacket, st, Depart(n)))
  {
    hide Frame, Frames, Answers, HandlerAfter;
    var head := st.outPackets[0];
    assert head[..st.headSent] + head[st.headSent..st.headSent + n] == head[..st.headSent + n];
  }

  lemma WriteDoneKeepsOrder<S, W>(h: HandleRequest<S, W>, maxPacket: nat, s: S, st: SocketState<S, W>)
    requires WireInOrder(h, s, st) && Enabled(st, WriteDone)
    ensures WireInOrder(h, s, Step(h, maxPacket, st, WriteDone))
  {
    var st' := Step(h, maxPacket, st, WriteDone);
    var answers, k := Answers(h, s, st.calls), Completed(st);
    FramesAppend(answers[..k], answers[k]);
    assert answers[..k + 1] == answers[..k] + [answers[k]];
    assert st.outPackets[0][..st.headSent] == st.outPackets[0] == Frame(answers[k]);
    assert st'.wire == Frames(answers[..k + 1]) + [];
    if st'.outPackets != [] {
      assert st'.outPackets[0][..0] == [];
    }
  }

  lemma AnswerKeepsOrder<S, W>(h: HandleRequest<S, W>, maxPacket: nat, s: S, st: SocketState<S, W>, world: W)
    requires WireInOrder(h, s, st) && OneWrite(st) && Enabled(st, ReadDone(world)) && st.reading.ReadingBody?
    ensures WireInOrder(h, s, Step(h, maxPacket, st, ReadDone(world)))
    ensures OneWrite(Step(h, maxPacket, st, ReadDone(world)))
  {
    var call := Call(world, st.reading.got[HEADER_SIZE..]);
    SendingKeepsOrder(h, s, st, call);
    var (handler, answer) := h(st.handler, call.world, call.request);
    var sending := Sending(st.(handler := handler, calls := st.calls + [call]), Frame(answer));
    assert Step(h, maxPacket, st, ReadDone(world)) == sending.(reading := ReadingHeader([]));
  }

  /** The write side does not depend on the read side. */
  lemma SameWriteSide<S, W>(h: HandleRequest<S, W>, s: S, st: SocketState<S, W>, st': SocketState<S, W>)
    requires WireInOrder(h, s, st)
    requires st'.handler == st.handler && st'.calls == st.calls && st'.outPackets == st.outPackets
    requires st'.headSent == st.headSent && st'.wire == st.wire
    ensures WireInOrder(h, s, st')
  {
  }

  lemma WriteStepKeepsOrder<S, W>(h: HandleRequest<S, W>, maxPacket: nat, s: S, st: SocketState<S, W>, e: Event<W>)
    requires WireInOrder(h, s, st) && OneWrite(st) && Enabled(st, e)
    ensures WireInOrder(h, s, Step(h, maxPacket, st, e)) && OneWrite(Step(h, maxPacket, st, e))
  {
    match e
    case Depart(n) => DepartKeepsOrder(h, maxPacket, s, st, n);
    case WriteDone => WriteDoneKeepsOrder(h, maxPacket, s, st);
    case ReadDone(world) =>
      if st.reading.ReadingBody? {
        AnswerKeepsOrder(h, maxPacket, s, st, world);
      } else {
        SameWriteSide(h, s, st, Step(h, maxPacket, st, e));
      }
    case _ => SameWriteSide(h, s, st, Step(h, maxPacket, st, e));
  }

  lemma StepKeepsInv<S, W>(
    h: HandleRequest<S, W>, maxPacket: nat, s: S, input: seq<byte>, st: SocketState<S, W>, e: Event<W>)
    requires Inv(h, maxPacket, s, input, st) && Enabled(st, e)
    ensures Inv(h, maxPacket, s, input, Step(h, maxPacket, st, e))
  {
    ReadStepKeepsOrder(h, maxPacket, input, st, e);
    WriteStepKeepsOrder(h, maxPacket, s, st, e);
  }

  /** Every run keeps the invariant. */
  lemma {:induction false} RunKeepsInv<S, W>(
    h: HandleRequest<S, W>, maxPacket: nat, s: S, input: seq<byte>, st: SocketState<S, W>, events: seq<Event<W>>)
    requires Inv(h, maxPacket, s, input, st)
    requires Run(h, maxPacket, st, events).Some?
    ensures Inv(h, maxPacket, s, input, Run(h, maxPacket, st, events).value)
    decreases |events|
  {
    if events != [] {
      StepKeepsInv(h, maxPacket, s, input, st, events[0]);
      RunKeepsInv(h, maxPacket, s, input, Step(h, maxPacket, st, events[0]), events[1..]);
    }
  }

  // ----- The main results -----

  /**
   * In every run, for every chunking of the input and every order of completions, the handler
   * has been called with the first requests of the input in order, and the bytes sent are a
   * prefix of the frames of its answers; they are all of these when the queue is empty.
   */
  lemma SentBytesArePrefixOfAnswers<S, W>(
    h: HandleRequest<S, W>, maxPacket: nat, s: S, input: seq<byte>, events: seq<Event<W>>)
    requires Run(h, maxPacket, Initial<S, W>(s, input), events).Some?
    ensures var st := Run(h, maxPacket, Initial<S, W>(s, input), events).value;
            && Handled(st.calls) <= Requests(input, maxPacket)
            && st.wire <= Frames(Answers(h, s, st.calls))
            && (st.wire == Frames(Answers(h, s, st.calls)) <==> st.outPackets == [] || WholeQueueSent(st))
  {
    InitialInv<S, W>(h, maxPacket, s, input);
    RunKeepsInv(h, maxPacket, s, input, Initial<S, W>(s, input), events);
    WireIsPrefix(h, s, Run(h, maxPacket, Initial<S, W>(s, input), events).value);
  }

  lemma WireIsPrefix<S, W>(h: HandleRequest<S, W>, s: S, st: SocketState<S, W>)
    requires WireInOrder(h, s, st)
    ensures st.wire <= Frames(Answers(h, s, st.calls))
    ensures st.wire == Frames(Answers(h, s, st.calls)) <==> st.outPackets == [] || WholeQueueSent(st)
  {
    hide Frame, Answers, HandlerAfter;
    var answers := Answers(h, s, st.calls);
    var done, queued := answers[..Completed(st)], answers[Completed(st)..];
    assert answers == done + queued;
    FramesConcat(done, queued);
    if st.outPackets != [] {
      var head := st.outPackets[0];
      assert queued[0] == answers[Completed(st)];
      var others: seq<seq<byte>> := queued[1..];
      assert Frames(queued) == head + Frames(others);
      assert head == head[..st.headSent] + head[st.headSent..];
      assert |Frames(others)| > 0 <==> |st.outPackets| > 1 by {
        FramesAreLonger(others);
      }
    }
  }

  lemma FramesAreLonger(bodies: seq<seq<byte>>)
    ensures |Frames(bodies)| > 0 <==> |bodies| > 0
  {
  }

  /** The last queued response has been sent, only its completion handler has not run yet. */
  predicate WholeQueueSent<S, W>(st: SocketState<S, W>) {
    |st.outPackets| == 1 && st.headSent == |st.outPackets[0]|
  }

  /** Nothing but a failure can happen any more. */
  ghost predicate AtRest<S, W(!new)>(st: SocketState<S, W>) {
    forall e: Event<W> :: Enabled(st, e) ==> e.ReadFailed? || e.WriteFailed?
  }

  /**
   * A socket comes to rest without a failure only when every request of the input has been
   * handled, and, unless an oversized header closed it, every answer has been sent in full.
   */
  lemma RestMeansAllAnswered<S, W(!new)>(
    h: HandleRequest<S, W>, maxPacket: nat, s: S, input: seq<byte>, events: seq<Event<W>>, world: W)
    requires Run(h, maxPacket, Initial<S, W>(s, input), events).Some?
    requires var st := Run(h, maxPacket, Initial<S, W>(s, input), events).value;
             AtRest(st) && !st.readFailed && !st.writeFailed
    ensures var st := Run(h, maxPacket, Initial<S, W>(s, input), events).value;
            && Handled(st.calls) == Requests(input, maxPacket)
            && (st.open ==> st.wire == Frames(Answers(h, s, st.calls)))
  {
    InitialInv<S, W>(h, maxPacket, s, input);
    RunKeepsInv(h, maxPacket, s, input, Initial<S, W>(s, input), events);
    hide Inv, AtRest, Run, Requests, Frames, Answers, Handled;
    AtRestMeansAnswered(h, maxPacket, s, input, Run(h, maxPacket, Initial<S, W>(s, input), events).value, world);
  }

  lemma AtRestMeansAnswered<S, W(!new)>(
    h: HandleRequest<S, W>, maxPacket: nat, s: S, input: seq<byte>, st: SocketState<S, W>, world: W)
    requires Inv(h, maxPacket, s, input, st) && AtRest(st) && !st.readFailed && !st.writeFailed
    ensures Handled(st.calls) == Requests(input, maxPacket)
    ensures st.open ==> st.wire == Frames(Answers(h, s, st.calls))
  {
    hide FromLittleEndian, Frame, Frames, Answers, HandlerAfter, Handled;
    assert !Enabled(st, ReadDone(world)) && !Enabled(st, Arrive(1));
    assert !Enabled(st, WriteDone) && !Enabled(st, Depart(1));
    if !st.reading.Stopped? {
      assert st.incoming == [];
      assert Unparsed(st) == st.reading.got;
      assert st.reading.ReadingBody? ==> Unparsed(st)[..HEADER_SIZE] == st.reading.got[..HEADER_SIZE];
    }
    assert Answers(h, s, st.calls)[..|st.calls|] == Answers(h, s, st.calls);
  }

  // ----- Closing -----

  /** Reading stops, unless a read fails, exactly when the socket is closed: by a header over the limit. */
  ghost predicate ClosedByHeader<S, W>(maxPacket: nat, st: SocketState<S, W>) {
    && (st.readFailed ==> st.reading.Stopped?)
    && (st.reading.Stopped? && !st.readFailed ==> !st.open)
    && (!st.open ==>
          && st.reading.Stopped? && !st.readFailed
          && |st.reading.got| >= HEADER_SIZE && FromLittleEndian(st.reading.got[..HEADER_SIZE]) > maxPacket)
  }

  /** The input is the frames of the requests handled so far, and what was not handled yet. */
  ghost predicate InputIsSplit<S, W>(input: seq<byte>, st: SocketState<S, W>) {
    input == Frames(Handled(st.calls)) + Unparsed(st)
  }

  lemma StepKeepsClosed<S, W>(h: HandleRequest<S, W>, maxPacket: nat, st: SocketState<S, W>, e: Event<W>)
    requires ClosedByHeader(maxPacket, st) && Enabled(st, e)
    ensures ClosedByHeader(maxPacket, Step(h, maxPacket, st, e))
  {
    hide FromLittleEndian, Frame;
    if e.ReadDone? && st.reading.ReadingHeader? {
      assert st.reading.got[..HEADER_SIZE] == st.reading.got;
    }
  }

  lemma BodyKeepsSplit<S, W>(h: HandleRequest<S, W>, maxPacket: nat, input: seq<byte>, st: SocketState<S, W>, world: W)
    requires InputIsSplit(input, st) && Enabled(st, ReadDone(world)) && st.reading.ReadingBody?
    ensures InputIsSplit(input, Step(h, maxPacket, st, ReadDone(world)))
  {
    var got := st.reading.got;
    BodyDoneShape(h, maxPacket, st, world);
    FrameOfRead(got);
    hide Step, Frame, Frames, FromLittleEndian;
    var calls' := st.calls + [Call(world, got[HEADER_SIZE..])];
    assert Handled(calls') == Handled(st.calls) + [got[HEADER_SIZE..]];
    FramesAppend(Handled(st.calls), got[HEADER_SIZE..]);
    hide Handled;
    BytesAssociate(Frames(Handled(st.calls)), got, st.incoming);
    assert [] + st.incoming == st.incoming;
  }

  lemma StepKeepsSplit<S, W>(
    h: HandleRequest<S, W>, maxPacket: nat, input: seq<byte>, st: SocketState<S, W>, e: Event<W>)
    requires InputIsSplit(input, st) && Enabled(st, e)
    ensures InputIsSplit(input, Step(h, maxPacket, st, e))
  {
    if e.ReadDone? && st.reading.ReadingBody? {
      BodyKeepsSplit(h, maxPacket, input, st, e.world);
      hide Step, Enabled;
    } else {
      hide Frames, FromLittleEndian;
      assert Unparsed(Step(h, maxPacket, st, e)) == Unparsed(st);
    }
  }

  lemma {:induction false} RunKeepsClosed<S, W>(
    h: HandleRequest<S, W>, maxPacket: nat, input: seq<byte>, st: SocketState<S, W>, events: seq<Event<W>>)
    requires ClosedByHeader(maxPacket, st) && InputIsSplit(input, st) && Run(h, maxPacket, st, events).Some?
    ensures ClosedByHeader(maxPacket, Run(h, maxPacket, st, events).value)
    ensures InputIsSplit(input, Run(h, maxPacket, st, events).value)
    decreases |events|
  {
    hide Step, Enabled, ClosedByHeader, InputIsSplit;
    if events != [] {
      StepKeepsClosed(h, maxPacket, st, events[0]);
      StepKeepsSplit(h, maxPacket, input, st, events[0]);
      RunKeepsClosed(h, maxPacket, input, Step(h, maxPacket, st, events[0]), events[1..]);
    }
  }

  /**
   * In every run: the socket stops reading without a failure only by closing, and it is closed
   * only when the bytes behind the requests it has handled begin with a header over the limit.
   */
  lemma ClosedOnlyByHeader<S, W>(h: HandleRequest<S, W>, maxPacket: nat, s: S, input: seq<byte>, events: seq<Event<W>>)
    requires Run(h, maxPacket, Initial<S, W>(s, input), events).Some?
    ensures var st := Run(h, maxPacket, Initial<S, W>(s, input), events).value;
            var handled := Frames(Handled(st.calls));
            && handled <= input
            && (st.reading.Stopped? && !st.readFailed ==> !st.open)
            && (!st.open ==> IsOversized(input[|handled|..], maxPacket))
  {
    var start := Initial<S, W>(s, input);
    assert Handled(start.calls) == [] && [] + input == input;
    RunKeepsClosed(h, maxPacket, input, start, events);
    var st := Run(h, maxPacket, start, events).value;
    hide Run, Handled, Frames;
    UnhandledInput(input, st);
    if !st.open {
      assert Unparsed(st)[..HEADER_SIZE] == st.reading.got[..HEADER_SIZE];
    }
  }

  /** The bytes begin with a complete header that announces more than the limit. */
  predicate IsOversized(bytes: seq<byte>, maxPacket: nat) {
    |bytes| >= HEADER_SIZE && FromLittleEndian(bytes[..HEADER_SIZE]) > maxPacket
  }

  lemma UnhandledInput<S, W>(input: seq<byte>, st: SocketState<S, W>)
    requires InputIsSplit(input, st)
    ensures Frames(Handled(st.calls)) <= input && input[|Frames(Handled(st.calls))|..] == Unparsed(st)
  {
  }

  /** At rest without a failure the socket is closed exactly when the first bytes not handled are such a header. */
  lemma RestIsClosedByHeader<S, W(!new)>(
    h: HandleRequest<S, W>, maxPacket: nat, s: S, input: seq<byte>, events: seq<Event<W>>, world: W)
    requires Run(h, maxPacket, Initial<S, W>(s, input), events).Some?
    requires var st := Run(h, maxPacket, Initial<S, W>(s, input), events).value;
             AtRest(st) && !st.readFailed && !st.writeFailed
    ensures var st := Run(h, maxPacket, Initial<S, W>(s, input), events).value;
            var handled := Frames(Handled(st.calls));
            handled <= input && (!st.open <==> IsOversized(input[|handled|..], maxPacket))
  {
    ClosedOnlyByHeader(h, maxPacket, s, input, events);
    InitialInv<S, W>(h, maxPacket, s, input);
    RunKeepsInv(h, maxPacket, s, input, Initial<S, W>(s, input), events);
    var start := Initial<S, W>(s, input);
    assert Handled(start.calls) == [] && [] + input == input;
    RunKeepsClosed(h, maxPacket, input, start, events);
    var st := Run(h, maxPacket, start, events).value;
    hide Run, Handled, Frames, Inv, AtRest;
    UnhandledInput(input, st);
    if st.open {
      OpenRestIsShort(h, maxPacket, s, input, st, world);
    }
  }

  lemma OpenRestIsShort<S, W(!new)>(
    h: HandleRequest<S, W>, maxPacket: nat, s: S, input: seq<byte>, st: SocketState<S, W>, world: W)
    requires Inv(h, maxPacket, s, input, st) && ClosedByHeader(maxPacket, st)
    requires AtRest(st) && !st.readFailed && st.open
    ensures !IsOversized(Unparsed(st), maxPacket)
  {
    hide FromLittleEndian, WireInOrder, OneWrite, Requests;
    assert !Enabled(st, ReadDone(world)) && !Enabled(st, Arrive(1));
    assert st.incoming == [];
    assert Unparsed(st) == st.reading.got;
    if st.reading.ReadingBody? {
      assert Unparsed(st)[..HEADER_SIZE] == st.reading.got[..HEADER_SIZE];
    }
  }

  /** The bodies a server accepts: all of them up to the first that exceeds the limit. */
  function Accepted(bodies: seq<seq<byte>>, maxPacket: nat): seq<seq<byte>> {
    if bodies == [] || |bodies[0]| > maxPacket then [] else [bodies[0]] + Accepted(bodies[1..], maxPacket)
  }

  /** The requests in a client's frames are its bodies, cut before the first oversized one. */
  lemma {:induction false} RequestsOfFrames(bodies: seq<seq<byte>>, maxPacket: nat)
    requires forall body :: body in bodies ==> |body| < UINT32_RANGE
    ensures Requests(Frames(bodies), maxPacket) == Accepted(bodies, maxPacket)
  {
    if bodies != [] {
      var body, rest := bodies[0], Frames(bodies[1..]);
      HeaderIsPrefix(body, rest);
      HeaderRoundTrip(|body|);
      if |body| <= maxPacket {
        RequestsOfFrames(bodies[1..], maxPacket);
        hide FromLittleEndian, LittleEndian;
        var got := Frame(body);
        assert got + [] == got;
        HeaderIsPrefix(body, []);
        assert body + [] == body;
        RequestsOfBody(got, rest, maxPacket);
      }
    }
  }

  /**
   * The whole conversation: a client that sends its requests as frames, of which none exceeds
   * the limit, has them handled in order, and receives from a socket at rest exactly the answers.
   */
  lemma ConversationIsComplete<S, W(!new)>(
    h: HandleRequest<S, W>, maxPacket: nat, s: S, bodies: seq<seq<byte>>, events: seq<Event<W>>, world: W)
    requires forall body :: body in bodies ==> |body| < UINT32_RANGE && |body| <= maxPacket
    requires Run(h, maxPacket, Initial<S, W>(s, Frames(bodies)), events).Some?
    requires var st := Run(h, maxPacket, Initial<S, W>(s, Frames(bodies)), events).value;
             && AtRest(st) && !st.readFailed && !st.writeFailed && st.open
             && forall answer :: answer in Answers(h, s, st.calls) ==> |answer| < UINT32_RANGE
    ensures var st := Run(h, maxPacket, Initial<S, W>(s, Frames(bodies)), events).value;
            && Handled(st.calls) == bodies
            && ReceiveMany(st.wire, |bodies|) == (Deliveries(Answers(h, s, st.calls)), [])
  {
    RestMeansAllAnswered(h, maxPacket, s, Frames(bodies), events, world);
    RequestsOfFrames(bodies, maxPacket);
    AllAccepted(bodies, maxPacket);
    var st := Run(h, maxPacket, Initial<S, W>(s, Frames(bodies)), events).value;
    hide Run;
    var answers := Answers(h, s, st.calls);
    FramesRoundTrip(answers, []);
    assert Frames(answers) + [] == Frames(answers);
  }

  lemma {:induction false} AllAccepted(bodies: seq<seq<byte>>, maxPacket: nat)
    requires forall body :: body in bodies ==> |body| <= maxPacket
    ensures Accepted(bodies, maxPacket) == bodies
  {
    if bodies != [] {
      AllAccepted(bodies[1..], maxPacket);
    }
  }

  /** Once a write has failed, or the socket was closed, no later event puts a byte on the wire. */
  lemma {:induction false} SilentAfterFailure<S, W>(
    h: HandleRequest<S, W>, maxPacket: nat, st: SocketState<S, W>, events: seq<Event<W>>)
    requires OneWrite(st) && (st.writeFailed || !st.open)
    requires Run(h, maxPacket, st, events).Some?
    ensures Run(h, maxPacket, st, events).value.wire == st.wire
    decreases |events|
  {
    if events != [] {
      SilentAfterFailure(h, maxPacket, Step(h, maxPacket, st, events[0]), events[1..]);
    }
  }

  // ----- Runs end -----

  function Backlog(packets: seq<seq<byte>>): nat {
    if packets == [] then 0 else |packets[0]| + 1 + Backlog(packets[1..])
  }

  /** Read-side work that needs no more input. */
  function ReadRank<S, W>(st: SocketState<S, W>): nat {
    match st.reading
    case ReadingHeader(got) => if |got| >= HEADER_SIZE then 2 else 0
    case ReadingBody(_) => 1
    case Stopped(_) => 0
  }

  function WriteRank<S, W>(st: SocketState<S, W>): int {
    Backlog(st.outPackets) - st.headSent + (if st.writing then 1 else 0)
  }

  /**
   * Every event uses up input, read work or write work (in this lexicographic order), a
   * failed read aside, which can happen once.
   */
  lemma EveryEventIsProgress<S, W>(
    h: HandleRequest<S, W>, maxPacket: nat, s: S, input: seq<byte>, st: SocketState<S, W>, e: Event<W>)
    requires Inv(h, maxPacket, s, input, st) && Enabled(st, e)
    ensures var st' := Step(h, maxPacket, st, e);
            || |st'.incoming| < |st.incoming|
            || (|st'.incoming| == |st.incoming|
                && (ReadRank(st') < ReadRank(st)
                    || (ReadRank(st') == ReadRank(st) && 0 <= WriteRank(st') < WriteRank(st))
                    || (e.ReadFailed? && st'.readFailed && !st.readFailed)))
  {
    var st' := Step(h, maxPacket, st, e);
    WriteStepKeepsOrder(h, maxPacket, s, st, e);
    ReadStepKeepsOrder(h, maxPacket, input, st, e);
    if st'.outPackets != [] {
      assert Backlog(st'.outPackets) >= |st'.outPackets[0]|;
    }
  }

  /** What the events of a run add up to: every event makes it grow. */
  function Done<S, W>(input: seq<byte>, st: SocketState<S, W>): int {
    |input| - |st.incoming| + 2 * |st.calls|
    + (match st.reading case ReadingHeader(_) => 0 case ReadingBody(_) => 1 case Stopped(_) => 2)
    + |st.wire| + Completed(st) + (if st.writeFailed then 1 else 0)
  }

  lemma EveryEventCounts<S, W>(
    h: HandleRequest<S, W>, maxPacket: nat, s: S, input: seq<byte>, st: SocketState<S, W>, e: Event<W>)
    requires Inv(h, maxPacket, s, input, st) && Enabled(st, e)
    ensures Done(input, Step(h, maxPacket, st, e)) >= Done(input, st) + 1
  {
    hide Frame, Frames, FromLittleEndian, ReadsInOrder, WireInOrder;
  }

  lemma {:induction false} EventsAreCounted<S, W>(
    h: HandleRequest<S, W>, maxPacket: nat, s: S, input: seq<byte>, st: SocketState<S, W>, events: seq<Event<W>>)
    requires Inv(h, maxPacket, s, input, st) && Run(h, maxPacket, st, events).Some?
    ensures Done(input, Run(h, maxPacket, st, events).value) >= Done(input, st) + |events|
    decreases |events|
  {
    hide Inv, Done, Step, Enabled;
    if events != [] {
      EveryEventCounts(h, maxPacket, s, input, st, events[0]);
      StepKeepsInv(h, maxPacket, s, input, st, events[0]);
      EventsAreCounted(h, maxPacket, s, input, Step(h, maxPacket, st, events[0]), events[1..]);
    }
  }

  lemma {:induction false} RequestsTakeInput(input: seq<byte>, maxPacket: nat)
    ensures HEADER_SIZE * |Requests(input, maxPacket)| <= |input|
    decreases |input|
  {
    if |input| >= HEADER_SIZE {
      var size := FromLittleEndian(input[..HEADER_SIZE]);
      if size <= maxPacket && |input| - HEADER_SIZE >= size {
        RequestsTakeInput(input[HEADER_SIZE + size..], maxPacket);
      }
    }
  }

  /**
   * Runs are finite: for a given input the number of events is bounded by the input and the
   * answers, and there is at most one answer for four bytes of input.
   */
  lemma RunsAreFinite<S, W>(h: HandleRequest<S, W>, maxPacket: nat, s: S, input: seq<byte>, events: seq<Event<W>>)
    requires Run(h, maxPacket, Initial<S, W>(s, input), events).Some?
    ensures var calls := Run(h, maxPacket, Initial<S, W>(s, input), events).value.calls;
            && |events| <= |input| + 3 * |calls| + |Frames(Answers(h, s, calls))| + 3
            && HEADER_SIZE * |calls| <= |input|
  {
    InitialInv<S, W>(h, maxPacket, s, input);
    EventsAreCounted(h, maxPacket, s, input, Initial<S, W>(s, input), events);
    SentBytesArePrefixOfAnswers(h, maxPacket, s, input, events);
    RequestsTakeInput(input, maxPacket);
    hide Run, Requests, Answers, Frames, Handled;
  }

  // ----- The code -----

  class SQLiteSocket<S(!new), W(!new)> {
    const handleRequest: HandleRequest<S, W>  // m_handler->handle_request
    const maxPacket: nat                      // client_max_packet_size
    // m_socket and the operations outstanding on it
    var open: bool
    var incoming: seq<byte>
    var wire: seq<byte>
    var readBuffer: seq<byte>                 // bytes received by the outstanding read
    var phase: Phase
    var writing: Response?                    // whose buffer the outstanding write uses
    var written: nat
    // the fields of SQLiteSocket.h
    var packetSize: nat
    var request: seq<byte>
    var handler: S
    var outPackets: seq<Response>
    // what happened
    var calls: seq<Call<W>>
    var readFailed: bool
    var writeFailed: bool

    constructor (handleRequest: HandleRequest<S, W>, maxPacket: nat, handler: S, input: seq<byte>)
      ensures Valid() && View() == Initial(handler, input)
      ensures this.handleRequest == handleRequest && this.maxPacket == maxPacket
    {
      this.handleRequest, this.maxPacket, this.handler := handleRequest, maxPacket, handler;
      incoming, wire, open := input, [], true;
      packetSize, request, outPackets := 0, [], [];
      writing, written, calls := null, 0, [];
      readFailed, writeFailed := false, false;
      readBuffer, phase := [], NoRead;
      new;
      DoRead();
    }

    ghost function View(): SocketState<S, W>
      reads this
    {
      SocketState(
        open,
        match phase
        case NoRead => Stopped(readBuffer)
        case HeaderRead => ReadingHeader(readBuffer)
        case BodyRead => ReadingBody(readBuffer),
        Packets(outPackets), writing != null, written, writeFailed, readFailed, handler, calls, incoming, wire)
    }

    /**
     * An outstanding write uses the buffer of the queue's head (which is released only by
     * WriteCompleted), and the size of the body being read was checked against the limit.
     */
    ghost predicate Valid()
      reads this
    {
      && (writing != null ==> outPackets != [] && writing == outPackets[0])
      && (outPackets == [] ==> written == 0)
      && (outPackets != [] && writing == null ==> writeFailed)
      && (phase == BodyRead ==>
            |readBuffer| >= HEADER_SIZE && packetSize == FromLittleEndian(readBuffer[..HEADER_SIZE]) <= maxPacket)
    }

    /** Starts the read of the next header. */
    method DoRead()
      requires Valid() && phase == NoRead
      modifies this`readBuffer, this`phase
      ensures Valid()
      ensures View() == old(View()).(reading := ReadingHeader([]))
    {
      readBuffer, phase := [], HeaderRead;
    }

    /** The network fills n more bytes of the outstanding read's buffer. */
    method BytesArrive(n: nat)
      requires Valid() && Enabled(View(), Arrive(n))
      modifies this`readBuffer, this`incoming
      ensures Valid() && View() == Step(handleRequest, maxPacket, old(View()), Arrive(n))
    {
      readBuffer, incoming := readBuffer + incoming[..n], incoming[n..];
      assert phase == BodyRead ==> readBuffer[..HEADER_SIZE] == old(readBuffer)[..HEADER_SIZE];
    }

    /** The completion handler of the header's async_read. */
    method HeaderCompleted(ok: bool, world: W)
      requires Valid() && phase == HeaderRead
      requires Enabled(View(), if ok then ReadDone(world) else ReadFailed)
      modifies this
      ensures Valid()
      ensures View() == Step(handleRequest, maxPacket, old(View()), if ok then ReadDone(world) else ReadFailed)
      ensures if ok && FromLittleEndian(old(readBuffer)) > maxPacket then !open && phase == NoRead
              else open == old(open) && phase == if ok then BodyRead else NoRead
    {
      if ok {
        packetSize := FromLittleEndian(readBuffer);
        if packetSize > maxPacket {
          open, phase := false, NoRead;
          return;
        }
        assert readBuffer[..HEADER_SIZE] == readBuffer;
        phase := BodyRead;
      } else {
        phase, readFailed := NoRead, true;
      }
    }

    /** The completion handler of the body's async_read. */
    method BodyCompleted(ok: bool, world: W)
      requires Valid() && phase == BodyRead
      requires Enabled(View(), if ok then ReadDone(world) else ReadFailed)
      modifies this
      ensures Valid()
      ensures View() == Step(handleRequest, maxPacket, old(View()), if ok then ReadDone(world) else ReadFailed)
      ensures ok ==> |request| == packetSize
    {
      if ok {
        request := readBuffer[HEADER_SIZE..];
        Respond(world);
      } else {
        phase, readFailed := NoRead, true;
      }
    }

    /** The request is handled, the response queued, and the next read started. */
    method Respond(world: W)
      requires Valid() && phase == BodyRead && request == readBuffer[HEADER_SIZE..]
      requires Enabled(View(), ReadDone(world))
      modifies this
      ensures Valid() && request == old(request) && packetSize == old(packetSize)
      ensures View() == Step(handleRequest, maxPacket, old(View()), ReadDone(world))
    {
      hide FromLittleEndian, Frame;
      phase := NoRead;
      var (handler', answer) := handleRequest(handler, world, request);
      handler, calls := handler', calls + [Call(world, request)];
      var response := new Response(answer);
      SendResponse(response);
      DoRead();
    }

    method SendResponse(response: Response)
      requires Valid()
      modifies this`outPackets, this`writing, this`written
      ensures Valid()
      ensures View() == Sending(old(View()), response.data)
    {
      var writeInProgress := outPackets != [];
      outPackets := outPackets + [response];
      if !writeInProgress {
        DoWrite(outPackets[0]);
      }
    }

    /** Starts the write of a response's buffer. */
    method DoWrite(response: Response)
      requires writing == null && outPackets != [] && response == outPackets[0]
      modifies this`writing, this`written
      ensures writing == response && written == 0
    {
      writing, written := response, 0;
    }

    /** n more bytes of the outstanding write's buffer reach the wire. */
    method BytesDepart(n: nat)
      requires Valid() && Enabled(View(), Depart(n))
      modifies this`wire, this`written
      ensures Valid() && View() == Step(handleRequest, maxPacket, old(View()), Depart(n))
    {
      wire := wire + writing.data[written..written + n];
      written := written + n;
    }

    /** The completion handler of async_write. */
    method WriteCompleted(ok: bool)
      requires Valid() && Enabled(View(), if ok then WriteDone else WriteFailed)
      modifies this
      ensures Valid()
      ensures View() == Step(handleRequest, maxPacket, old(View()), if ok then WriteDone else WriteFailed)
    {
      writing := null;
      if ok {
        outPackets, written := outPackets[1..], 0;
        assert Packets(outPackets) == Packets(old(outPackets))[1..];
        if outPackets != [] {
          DoWrite(outPackets[0]);
        }
      } else {
        writeFailed := true;
      }
    }
  }

  datatype Phase = NoRead | HeaderRead | BodyRead

  function Packets(responses: seq<Response>): seq<seq<byte>> {
    seq(|responses|, i requires 0 <= i < |responses| => responses[i].data)
  }
}
