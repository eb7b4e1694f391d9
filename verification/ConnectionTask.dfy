/**
 The connection object. Each poll is a loop of rounds; between two rounds the other tasks
 and the server may act, which `turns` says.
 */
module ConnectionTask {
  import opened Wrappers
  import opened Bytes
  import opened Sequences
  import opened Framing
  import opened Routing
  import opened Connection

  datatype ReadTurn = ReadTurn(before: seq<EnvStep>, socket: SocketPoll, answers: Answers)

  datatype WriteTurn = WriteTurn(before: seq<EnvStep>, sink: SinkPoll)

  datatype ClosePoll = CloseReady | ClosePending | CloseError

  datatype MessageResult = Pending | Message(message: Frame) | End | Error(failure: Failure)

  /** What the tasks do during one poll. */
  datatype Surroundings =
    Surroundings(readTurns: seq<ReadTurn>, writeTurns: seq<WriteTurn>, flushed: bool, close: ClosePoll)

  function EnvRun(c: Conn, steps: seq<EnvStep>): Conn
    decreases |steps|
  {
    if steps == [] then c else EnvRun(EnvNext(c, steps[0]), steps[1..])
  }

  /** A loop that runs out of turns is suspended. */
  function ReadLoop(c: Conn, turns: seq<ReadTurn>): (Conn, ReadResult)
    decreases |turns|
  {
    if turns == [] then (c, Nothing)
    else
      var r := ReadRound(EnvRun(c, turns[0].before), turns[0].socket, turns[0].answers);
      if r.1.Return? then (r.0, r.1.value) else ReadLoop(r.0, turns[1..])
  }

  function WriteLoop(c: Conn, turns: seq<WriteTurn>): (Conn, WriteResult)
    decreases |turns|
  {
    if turns == [] then (c, Flush(false))
    else
      var r := WriteRound(EnvRun(c, turns[0].before), turns[0].sink);
      if r.1.Return? then (r.0, r.1.value) else WriteLoop(r.0, turns[1..])
  }

  function Shutdown(c: Conn, close: ClosePoll): MessageResult {
    if c.state != Closing then Pending
    else match close
      case CloseReady => End
      case ClosePending => Pending
      case CloseError => Error(InputOutput)
  }

  function PollParts(c: Conn, s: Surroundings): (Conn, MessageResult) {
    var (c1, message) := ReadLoop(c, s.readTurns);
    if message.ReadFailed? then (c1, Error(message.failure))
    else
      var (c2, written) := WriteLoop(c1, s.writeTurns);
      if written.WriteFailed? then (c2, Error(written.failure))
      else if written.want && !s.flushed then (c2, Error(InputOutput))
      else if message.Report? then (c2, Message(message.message))
      else (c2, Shutdown(c2, s.close))
  }

  /** A final result also closes the request queue. */
  function PollOnce(c: Conn, s: Surroundings): (Conn, MessageResult) {
    var (c', r) := PollParts(c, s);
    (if r.End? || r.Error? then c'.(closed := true) else c', r)
  }

  // ---------------------------------------------------------------------------
  // Polling is a run
  // ---------------------------------------------------------------------------

  ghost predicate Reachable(delayed: seq<Frame>, c: Conn) {
    exists labels :: c == Run(delayed, labels)
  }

  lemma NextReachable(delayed: seq<Frame>, c: Conn, l: Label)
    requires Reachable(delayed, c)
    ensures Reachable(delayed, Next(c, l))
  {
    var labels :| c == Run(delayed, labels);
    assert Front(labels + [l]) == labels;
    assert Next(c, l) == Run(delayed, labels + [l]);
  }

  lemma {:induction false} EnvReachable(delayed: seq<Frame>, c: Conn, steps: seq<EnvStep>)
    requires Reachable(delayed, c)
    ensures Reachable(delayed, EnvRun(c, steps))
    decreases |steps|
  {
    if steps != [] {
      NextReachable(delayed, c, Env(steps[0]));
      EnvReachable(delayed, EnvNext(c, steps[0]), steps[1..]);
    }
  }

  lemma {:induction false} ReadReachable(delayed: seq<Frame>, c: Conn, turns: seq<ReadTurn>)
    requires Reachable(delayed, c)
    ensures Reachable(delayed, ReadLoop(c, turns).0)
    decreases |turns|
  {
    if turns != [] {
      var t := turns[0];
      EnvReachable(delayed, c, t.before);
      NextReachable(delayed, EnvRun(c, t.before), Read(t.socket, t.answers));
      var r := ReadRound(EnvRun(c, t.before), t.socket, t.answers);
      if !r.1.Return? {
        ReadReachable(delayed, r.0, turns[1..]);
      }
    }
  }

  lemma {:induction false} WriteReachable(delayed: seq<Frame>, c: Conn, turns: seq<WriteTurn>)
    requires Reachable(delayed, c)
    ensures Reachable(delayed, WriteLoop(c, turns).0)
    decreases |turns|
  {
    if turns != [] {
      var t := turns[0];
      EnvReachable(delayed, c, t.before);
      NextReachable(delayed, EnvRun(c, t.before), Write(t.sink));
      var r := WriteRound(EnvRun(c, t.before), t.sink);
      if !r.1.Return? {
        WriteReachable(delayed, r.0, turns[1..]);
      }
    }
  }

  lemma PartsReachable(delayed: seq<Frame>, c: Conn, s: Surroundings)
    requires Reachable(delayed, c)
    ensures Reachable(delayed, PollParts(c, s).0)
  {
    var c1 := ReadLoop(c, s.readTurns).0;
    ReadReachable(delayed, c, s.readTurns);
    WriteReachable(delayed, c1, s.writeTurns);
  }

  /** The state in which the connection reports its end. */
  ghost predicate Finished(c: Conn) {
    && c.wire != [] && Last(c.wire) == Terminate && c.closed
    && Answered(c) == c.polled == |c.sources|
  }

  lemma ClosingIsFinished(delayed: seq<Frame>, c: Conn)
    requires AllNotices(delayed) && Reachable(delayed, c) && c.state == Closing
    ensures Finished(c)
  {
    var labels :| c == Run(delayed, labels);
    WireIsExact(delayed, labels);
  }

  lemma EndIsClosing(c: Conn, s: Surroundings)
    requires PollParts(c, s).1.End?
    ensures PollParts(c, s).0.state == Closing
  {}

  lemma PollIsParts(c: Conn, s: Surroundings, c': Conn, r: MessageResult)
    requires (c', r) == PollParts(c, s)
    ensures PollOnce(c, s) == (if r.End? || r.Error? then c'.(closed := true) else c', r)
    ensures Next(c', Env(CloseRequests)) == c'.(closed := true)
  {}

  /**
   A poll is a sequence of the connection's steps, so whatever holds over all runs holds
   after any number of polls. The connection ends only after Terminate, with every
   request written and answered.
   */
  lemma PollingIsRunning(delayed: seq<Frame>, c: Conn, s: Surroundings)
    requires AllNotices(delayed) && Reachable(delayed, c)
    ensures Reachable(delayed, PollOnce(c, s).0)
    ensures PollOnce(c, s).1.End? ==> Finished(PollOnce(c, s).0)
  {
    var (c', r) := PollParts(c, s);
    PollIsParts(c, s, c', r);
    PartsReachable(delayed, c, s);
    NextReachable(delayed, c', Env(CloseRequests));
    if r.End? {
      EndIsClosing(c, s);
      ClosingIsFinished(delayed, c');
    }
  }

  // ---------------------------------------------------------------------------
  // What a poll returns
  // ---------------------------------------------------------------------------

  /** The other tasks and the server change these parts only. */
  lemma EnvTouches(c: Conn, e: EnvStep)
    ensures var c' := EnvNext(c, e);
            c' == c.(stream := c'.stream, arrived := c'.arrived, sources := c'.sources,
                     channels := c'.channels, closed := c'.closed)
  {}

  /** What the read loop's result says about the messages reported. */
  function ReportedBy(r: ReadResult): seq<Frame> { if r.Report? then [r.message] else [] }

  function ReturnedBy(r: MessageResult): seq<Frame> { if r.Message? then [r.message] else [] }

  /** What neither the other tasks nor writing change. */
  ghost predicate SameReports(c: Conn, c': Conn) { c'.reported == c.reported && c'.processed == c.processed }

  lemma {:induction false} EnvRunTouches(c: Conn, steps: seq<EnvStep>)
    ensures var c' := EnvRun(c, steps);
            SameReports(c, c') && c'.failure == c.failure && c'.state == c.state
    decreases |steps|
  {
    if steps != [] {
      EnvTouches(c, steps[0]);
      EnvRunTouches(EnvNext(c, steps[0]), steps[1..]);
    }
  }

  lemma PollTouches(c: Conn, socket: SocketPoll)
    ensures var c' := Connection.PollResponse(c, socket).0;
            SameReports(c, c') && c'.failure == c.failure && c'.state == c.state
  {}

  lemma HandlingReports(c: Conn, item: Item, answers: Answers)
    requires c.failure.None?
    ensures var (c', r) := if item.Async? then HandleAsync(c, item, answers) else Route(c, item, answers);
            && c'.reported == c.reported + (if r.Return? then ReportedBy(r.value) else [])
            && (c'.failure.Some? <==> r.Return? && r.value.ReadFailed?)
            && (r.Return? && r.value.ReadFailed? ==> c'.failure == Some(r.value.failure))
            && c'.state == c.state
  {}

  /** A round reports what it returns, and fails exactly when it returns a failure. */
  lemma RoundReports(c: Conn, socket: SocketPoll, answers: Answers)
    requires c.failure.None?
    ensures var (c', r) := ReadRound(c, socket, answers);
            && c'.reported == c.reported + (if r.Return? then ReportedBy(r.value) else [])
            && (c'.failure.Some? <==> r.Return? && r.value.ReadFailed?)
            && (r.Return? && r.value.ReadFailed? ==> c'.failure == Some(r.value.failure))
            && c'.state == c.state
  {
    if c.state == Active {
      var p := Connection.PollResponse(c, socket);
      PollTouches(c, socket);
      if p.1.GotItem? {
        HandlingReports(p.0, p.1.item, answers);
      }
    }
  }

  lemma {:induction false} ReadLoopReports(c: Conn, turns: seq<ReadTurn>)
    requires c.failure.None?
    ensures var (c', r) := ReadLoop(c, turns);
            && c'.reported == c.reported + ReportedBy(r)
            && c'.failure == (if r.ReadFailed? then Some(r.failure) else None)
            && c'.state == c.state
    decreases |turns|
  {
    if turns != [] {
      var t := turns[0];
      var e := EnvRun(c, t.before);
      EnvRunTouches(c, t.before);
      RoundReports(e, t.socket, t.answers);
      var r := ReadRound(e, t.socket, t.answers);
      if !r.1.Return? {
        AppendEmpty(c.reported);
        ReadLoopReports(r.0, turns[1..]);
      }
    }
  }

  /** The sink's answer in the round that ended the write loop; none when the loop was suspended. */
  function LastSink(c: Conn, turns: seq<WriteTurn>): Option<SinkPoll>
    decreases |turns|
  {
    if turns == [] then None
    else
      var r := WriteRound(EnvRun(c, turns[0].before), turns[0].sink);
      if r.1.Return? then Some(turns[0].sink) else LastSink(r.0, turns[1..])
  }

  /** The connection could use a ready socket no further. */
  predicate NothingToSend(c: Conn) {
    WaitsForCopy(c) || (c.pendingRequest.None? && c.polled >= |c.sources| && !(c.closed && c.responses == [] && c.state == Active))
    || (c.pendingRequest.Some? && c.pendingRequest.value >= |c.sources|)
  }

  lemma WriteRoundReturns(c: Conn, sink: SinkPoll)
    requires c.failure.None?
    ensures var (c', r) := WriteRound(c, sink);
            && SameReports(c, c')
            && (c'.failure.Some? <==> r.Return? && r.value.WriteFailed?)
            && (c'.failure.Some? ==> c'.failure == Some(InputOutput) && r.value == WriteFailed(InputOutput) && sink.SinkError?)
            && (r.Return? ==> r.value.WriteFailed? || (r.value.want <==> c'.state != Closing && sink.SinkReady?))
            && (r.Return? && r.value == Flush(true) ==> NothingToSend(c'))
            && (r.Return? && c'.state != Closing && sink.SinkError? ==> r.value.WriteFailed?)
  {}

  lemma {:induction false} WriteLoopReturns(c: Conn, turns: seq<WriteTurn>)
    requires c.failure.None?
    ensures var (c', r) := WriteLoop(c, turns);
            && SameReports(c, c')
            && c'.failure == (if r.WriteFailed? then Some(InputOutput) else None)
            && (r.WriteFailed? ==> r.failure == InputOutput)
            && (r.WriteFailed? <==> c'.state != Closing && LastSink(c, turns) == Some(SinkError))
            && (r == Flush(true) <==> c'.state != Closing && LastSink(c, turns) == Some(SinkReady))
            && (r == Flush(true) ==> NothingToSend(c'))
    decreases |turns|
  {
    if turns != [] {
      var t := turns[0];
      var e := EnvRun(c, t.before);
      EnvRunTouches(c, t.before);
      WriteRoundReturns(e, t.sink);
      var r := WriteRound(e, t.sink);
      if !r.1.Return? {
        WriteLoopReturns(r.0, turns[1..]);
      }
    }
  }

  /** The socket refuses what has been written: no room was left to be used, and flushing fails. */
  predicate FlushFails(c: Conn, s: Surroundings, c': Conn) {
    !s.flushed && c'.state != Closing && LastSink(ReadLoop(c, s.readTurns).0, s.writeTurns) == Some(SinkReady)
  }

  /** The result of a poll says exactly what the poll did to the connection. */
  ghost predicate SaysWhatHappened(c: Conn, s: Surroundings, c': Conn, r: MessageResult) {
    var grew := c'.reported != c.reported;
    && (r.Message? <==> c'.failure.None? && !FlushFails(c, s, c') && grew)
    && (r.End? <==> c'.failure.None? && !grew && c'.state == Closing && s.close.CloseReady?)
    && (r.Pending? <==>
          c'.failure.None? && !FlushFails(c, s, c') && !grew && !(c'.state == Closing && !s.close.ClosePending?))
    && (r.Error? ==> if c'.failure.Some? then r.failure == c'.failure.value else r.failure == InputOutput)
    && (r.Error? <==>
          || c'.failure.Some? || FlushFails(c, s, c')
          || (!grew && c'.state == Closing && s.close.CloseError?))
  }

  lemma GrewExactly(a: seq<Frame>, b: seq<Frame>, r: ReadResult)
    requires b == a + ReportedBy(r)
    ensures b != a <==> r.Report?
  {
    AppendEmpty(a);
  }

  lemma PartsReport(c: Conn, s: Surroundings, c': Conn, r: MessageResult)
    requires c.failure.None? && (c', r) == PollParts(c, s)
    ensures c'.reported == c.reported + ReportedBy(ReadLoop(c, s.readTurns).1)
    ensures r.Message? ==> ReadLoop(c, s.readTurns).1 == Report(r.message)
    ensures SaysWhatHappened(c, s, c', r)
  {
    var (c1, message) := ReadLoop(c, s.readTurns);
    ReadLoopReports(c, s.readTurns);
    GrewExactly(c.reported, c1.reported, message);
    if !message.ReadFailed? {
      WriteLoopReturns(c1, s.writeTurns);
    }
  }

  /**
   For every poll of a connection that has not failed: a message is returned exactly when one
   was read and the socket took everything, and it is that message; the end exactly when the
   connection is closing and the socket has closed; an error exactly when reading or writing
   failed or the socket could not be flushed or closed; and otherwise nothing yet.
   */
  lemma PollReturnsExactly(c: Conn, s: Surroundings)
    requires c.failure.None?
    ensures var (c', r) := PollOnce(c, s);
            && SaysWhatHappened(c, s, c', r)
            && (!r.Error? ==> c'.reported == c.reported + ReturnedBy(r) && c'.failure.None?)
            && (r.End? || r.Error? ==> c'.closed)
  {
    var (c', r) := PollParts(c, s);
    PollIsParts(c, s, c', r);
    PartsReport(c, s, c', r);
    AppendEmpty(c.reported);
  }

  /** One poll after the other. */
  function PollAll(c: Conn, polls: seq<Surroundings>): (Conn, seq<MessageResult>)
    decreases |polls|
  {
    if polls == [] then (c, [])
    else
      var (c', r) := PollOnce(c, polls[0]);
      var (end, rs) := PollAll(c', polls[1..]);
      (end, [r] + rs)
  }

  function Returned(rs: seq<MessageResult>): seq<Frame> {
    if rs == [] then [] else ReturnedBy(rs[0]) + Returned(rs[1..])
  }

  ghost predicate NoError(rs: seq<MessageResult>) { forall i :: 0 <= i < |rs| ==> !rs[i].Error? }

  /** Over any polls without an error, what is returned is what was reported meanwhile, in order. */
  lemma {:induction false} PollsReturnReports(c: Conn, polls: seq<Surroundings>)
    requires c.failure.None? && NoError(PollAll(c, polls).1)
    ensures PollAll(c, polls).0.reported == c.reported + Returned(PollAll(c, polls).1)
    ensures PollAll(c, polls).0.failure.None?
    decreases |polls|
  {
    if polls == [] {
      AppendEmpty(c.reported);
    } else {
      var (c', r) := PollOnce(c, polls[0]);
      var (end, rs) := PollAll(c', polls[1..]);
      assert ([r] + rs)[0] == r && ([r] + rs)[1..] == rs;
      assert forall i :: 0 <= i < |rs| ==> rs[i] == ([r] + rs)[i + 1];
      PollReturnsExactly(c, polls[0]);
      PollsReturnReports(c', polls[1..]);
      AppendAssoc(c.reported, ReturnedBy(r), Returned(rs));
    }
  }

  lemma {:induction false} PollsReachable(delayed: seq<Frame>, c: Conn, polls: seq<Surroundings>)
    requires AllNotices(delayed) && Reachable(delayed, c)
    ensures Reachable(delayed, PollAll(c, polls).0)
    decreases |polls|
  {
    if polls != [] {
      PollingIsRunning(delayed, c, polls[0]);
      PollsReachable(delayed, PollOnce(c, polls[0]).0, polls[1..]);
    }
  }

  /**
   From the start of a connection, over any polls without an error: the messages returned are
   the notices and notifications among the messages processed, each once and in order; and of
   all that arrived when the connection has caught up.
   */
  lemma PollsReturnNotices(delayed: seq<Frame>, polls: seq<Surroundings>)
    requires AllNotices(delayed) && NoError(PollAll(Initial(delayed), polls).1)
    ensures var (c, rs) := PollAll(Initial(delayed), polls);
            && Returned(rs) == Filter(IsReported, c.processed) && c.processed <= delayed + Parse(c.arrived).frames
            && (CaughtUp(c) ==> Returned(rs) == Filter(IsReported, delayed + Parse(c.arrived).frames))
  {
    var c := PollAll(Initial(delayed), polls).0;
    assert Initial(delayed) == Run(delayed, []);
    PollsReachable(delayed, Initial(delayed), polls);
    PollsReturnReports(Initial(delayed), polls);
    AppendEmpty(Returned(PollAll(Initial(delayed), polls).1));
    var labels :| c == Run(delayed, labels);
    ReadSideIsSound(delayed, labels);
    ProcessedIsPrefix(delayed, c);
    if CaughtUp(c) {
      CaughtUpProcessed(delayed, labels, c);
    }
  }

  lemma CaughtUpProcessed(delayed: seq<Frame>, labels: seq<Label>, c: Conn)
    requires AllNotices(delayed) && c == Run(delayed, labels) && CaughtUp(c)
    ensures c.processed == delayed + Parse(c.arrived).frames
  {
    ReadSideIsSound(delayed, labels);
    AppendEmpty(c.processed);
    AppendEmpty(Delivered(c.stream.items));
  }

  // ---------------------------------------------------------------------------
  // Why a poll fails
  // ---------------------------------------------------------------------------

  /** The batch to be handled next, if there is one. */
  function NextItem(c: Conn): Option<Item> {
    if c.pendingResponses != [] then Some(c.pendingResponses[0])
    else match Decode(c.stream.buf)
      case Got(item, _) => Some(item)
      case Failed => None
      case NeedMore => None
  }

  ghost predicate Fails(c: Conn, socket: SocketPoll, answers: Answers, f: Failure) {
    ReadRound(c, socket, answers).1 == Return(ReadFailed(f))
  }

  /**
   Reading reports a closed connection exactly when the server has closed it with nothing left
   to be read; a broken one when the socket fails, or closes inside a message, or a message is
   broken; and the others by the message that came.
   */
  lemma ReadFailsExactly(c: Conn, socket: SocketPoll, answers: Answers)
    requires !Stopped(c)
    ensures Fails(c, socket, answers, Closed) <==> c.pendingResponses == [] && c.stream.buf == [] && socket.EndOfFile?
    ensures Fails(c, socket, answers, InputOutput) <==>
              c.pendingResponses == [] &&
              (Decode(c.stream.buf).Failed? || (Decode(c.stream.buf).NeedMore? &&
                 (socket.SocketError? || (socket.EndOfFile? && c.stream.buf != []))))
    ensures Fails(c, socket, answers, ParseError) <==>
              NextItem(c).Some? && !answers.readable && (NextItem(c).value.Async? || c.responses == [])
    ensures Fails(c, socket, answers, DatabaseError) <==>
              NextItem(c).Some? && answers.readable && NextItem(c).value.Normal? && c.responses == []
              && IsErrorResponse(NextItem(c).value.messages)
    ensures Fails(c, socket, answers, UnexpectedMessage) <==>
              NextItem(c).Some? && answers.readable && NextItem(c).value.Normal? && c.responses == []
              && !IsErrorResponse(NextItem(c).value.messages)
  {}

  predicate IsErrorResponse(messages: seq<byte>) { messages != [] && messages[0] == ERROR_RESPONSE_TAG }

  /** One round of reading and one of writing. */
  function Once(sink: SinkPoll): Surroundings {
    Surroundings([ReadTurn([], WouldBlock, WELL)], [WriteTurn([], sink)], true, ClosePending)
  }

  lemma NoticeIsRead(c: Conn, f: Frame)
    requires !Stopped(c) && c.pendingResponses == [] && c.stream.buf == f && IsFrame(f) && f[0] == NOTICE_RESPONSE_TAG
    ensures ReadLoop(c, [ReadTurn([], WouldBlock, WELL)]).1 == Report(f)
  {
    assert EnvRun(c, []) == c;
    assert f[..|f|] == f;
  }

  /**
   A notice is returned by the poll that reads it; but when writing fails in the same poll,
   the error is returned in its place, and no later poll returns it.
   */
  lemma NoticeIsReturnedUnlessWritingFails(c: Conn, f: Frame, sink: SinkPoll)
    requires !Stopped(c) && c.pendingResponses == [] && c.stream.buf == f && IsFrame(f) && f[0] == NOTICE_RESPONSE_TAG
    ensures PollOnce(c, Once(sink)).1 == if sink.SinkError? then Error(InputOutput) else Message(f)
    ensures PollOnce(c, Once(sink)).0.reported == c.reported + [f]
  {
    var c1 := ReadLoop(c, Once(sink).readTurns).0;
    NoticeIsRead(c, f);
    ReadLoopReports(c, Once(sink).readTurns);
    OneWrite(c1, sink);
    PollReturnsExactly(c, Once(sink));
    PollIsParts(c, Once(sink), PollParts(c, Once(sink)).0, PollParts(c, Once(sink)).1);
    PartsReport(c, Once(sink), PollParts(c, Once(sink)).0, PollParts(c, Once(sink)).1);
  }

  lemma OneWrite(c: Conn, sink: SinkPoll)
    requires !Stopped(c)
    ensures WriteLoop(c, [WriteTurn([], sink)]).1.WriteFailed? <==> sink.SinkError?
    ensures WriteLoop(c, [WriteTurn([], sink)]).1.WriteFailed? ==> WriteLoop(c, [WriteTurn([], sink)]).1.failure == InputOutput
  {
    assert EnvRun(c, []) == c;
    WriteRoundReturns(c, sink);
  }

  // ---------------------------------------------------------------------------
  // The object
  // ---------------------------------------------------------------------------

  datatype RequestPoll = Requested(id: nat) | QueueEnded | QueueEmpty

  /** A request that is being retried is one of those enqueued. */
  predicate Known(c: Conn) { c.pendingRequest.Some? ==> c.pendingRequest.value < |c.sources| }

  lemma {:induction false} EnvKeepsKnown(c: Conn, steps: seq<EnvStep>)
    requires Known(c)
    ensures Known(EnvRun(c, steps))
    decreases |steps|
  {
    if steps != [] {
      EnvIsClientSteps(c, steps[0]);
      EnvKeepsKnown(EnvNext(c, steps[0]), steps[1..]);
    }
  }

  lemma {:induction false} ReadKeepsKnown(c: Conn, turns: seq<ReadTurn>)
    requires Known(c)
    ensures Known(ReadLoop(c, turns).0)
    decreases |turns|
  {
    if turns != [] {
      var t := turns[0];
      EnvKeepsKnown(c, t.before);
      ReadIsSameWrite(EnvRun(c, t.before), t.socket, t.answers);
      var r := ReadRound(EnvRun(c, t.before), t.socket, t.answers);
      if !r.1.Return? {
        ReadKeepsKnown(r.0, turns[1..]);
      }
    }
  }

  lemma WriteKeepsKnown(c: Conn, sink: SinkPoll)
    requires Known(c)
    ensures Known(WriteRound(c, sink).0)
  {}

  /** Sending decides anew whether the request is to be retried. */
  lemma SendIgnoresPending(c: Conn, id: nat)
    requires id < |c.sources|
    ensures Send(c, id) == Send(c.(pendingRequest := None), id)
  {}

  class ConnectionObject {
    var stream: Stream
    var pendingResponses: seq<Item>
    var responses: seq<nat>
    var pendingRequest: Option<nat>
    var state: State
    var polled: nat
    var wire: seq<WireItem>
    var reported: seq<Frame>
    var parameters: seq<Frame>
    var processed: seq<Frame>
    var failure: Option<Failure>
    // what other tasks and the server change
    var arrived: seq<byte>
    var sources: seq<Source>
    var channels: seq<Channel>
    var closed: bool

    function Abstract(): Conn
      reads this
    {
      Conn(stream, arrived, pendingResponses, responses, pendingRequest, state, sources, channels, polled, closed,
           wire, reported, parameters, processed, failure)
    }

    constructor (delayed: seq<Frame>)
      ensures Abstract() == Initial(delayed)
    {
      stream, arrived, pendingResponses := Stream([], [], false), [], Delay(delayed);
      responses, pendingRequest, state := [], None, Active;
      sources, channels, polled, closed := [], [], 0, false;
      wire, reported, parameters, processed, failure := [], [], [], [], None;
    }

    /** The other tasks and the server act. */
    method Yield(steps: seq<EnvStep>)
      modifies `stream, `arrived, `sources, `channels, `closed
      ensures Abstract() == EnvRun(old(Abstract()), steps)
    {
      for i := 0 to |steps|
        invariant EnvRun(Abstract(), steps[i..]) == EnvRun(old(Abstract()), steps)
        invariant steps[0..] == steps
      {
        assert steps[i..][1..] == steps[i + 1..];
        Act(steps[i]);
      }
    }

    method Act(step: EnvStep)
      modifies `stream, `arrived, `sources, `channels, `closed
      ensures Abstract() == EnvNext(old(Abstract()), step)
    {
      var c := EnvNext(Abstract(), step);
      EnvTouches(Abstract(), step);
      stream, arrived, sources, channels, closed := c.stream, c.arrived, c.sources, c.channels, c.closed;
    }

    method PollResponse(socket: SocketPoll) returns (p: Polled)
      modifies `stream, `pendingResponses
      ensures (Abstract(), p) == Connection.PollResponse(old(Abstract()), socket)
    {
      if pendingResponses != [] {
        p := GotItem(pendingResponses[0]);
        pendingResponses := pendingResponses[1..];
        return;
      }
      var d := Decode(stream.buf);
      stream := StreamStep(stream, Poll);
      match d
      case Got(item, _) => p := GotItem(item);
      case Failed => p := Broken(InputOutput);
      case NeedMore =>
        match socket {
          case WouldBlock => p := NoItem;
          case EndOfFile => p := Broken(if stream.buf == [] then Closed else InputOutput);
          case SocketError => p := Broken(InputOutput);
        }
    }

    method DeliverAsync(message: Frame, answers: Answers) returns (r: Control<ReadResult>)
      modifies `processed, `parameters, `reported, `failure
      ensures (Abstract(), r) == HandleAsync(old(Abstract()), Async(message), answers)
    {
      if !answers.readable {
        failure := Some(ParseError);
        return Return(ReadFailed(ParseError));
      }
      processed := processed + [message];
      if IsParameter(message) {
        parameters := parameters + [message];
        return Continue;
      }
      reported := reported + [message];
      return Return(Report(message));
    }

    method DeliverBatch(item: Item, answers: Answers) returns (r: Control<ReadResult>)
      requires item.Normal?
      modifies `responses, `pendingResponses, `channels, `processed, `failure
      ensures (Abstract(), r) == Route(old(Abstract()), item, answers)
    {
      if responses == [] {
        var f := StrayFailure(item, answers);
        failure := Some(f);
        return Return(ReadFailed(f));
      }
      var response := responses[0];
      assert [responses[0]] + responses[1..] == responses;
      responses := responses[1..];
      var alive := response < |channels| && channels[response].alive;
      if alive && !answers.room {
        responses := [response] + responses;
        pendingResponses := pendingResponses + [item];
        return Return(Nothing);
      }
      if alive {
        var ch := channels[response];
        channels := channels[response := ch.(queue := ch.queue + [item])];
      }
      if !item.requestComplete {
        responses := [response] + responses;
      }
      processed := processed + Messages(item);
      return Continue;
    }

    method PollRead(turns: seq<ReadTurn>) returns (r: ReadResult)
      modifies this
      ensures (Abstract(), r) == ReadLoop(old(Abstract()), turns)
    {
      var i := 0;
      assert turns[0..] == turns;
      while i < |turns|
        invariant i <= |turns|
        invariant ReadLoop(Abstract(), turns[i..]) == ReadLoop(old(Abstract()), turns)
      {
        var turn := turns[i];
        assert turns[i..][1..] == turns[i + 1..];
        var control := PollReadRound(turn);
        if control.Return? {
          return control.value;
        }
        i := i + 1;
      }
      return Nothing;
    }

    method PollReadRound(turn: ReadTurn) returns (r: Control<ReadResult>)
      modifies this
      ensures (Abstract(), r) == ReadRound(EnvRun(old(Abstract()), turn.before), turn.socket, turn.answers)
    {
      Yield(turn.before);
      if state != Active || failure.Some? {
        return Return(Nothing);
      }
      var p := PollResponse(turn.socket);
      match p
      case NoItem => return Return(Nothing);
      case Broken(f) =>
        failure := Some(f);
        return Return(ReadFailed(f));
      case GotItem(item) =>
        if item.Async? {
          r := DeliverAsync(item.message, turn.answers);
        } else {
          r := DeliverBatch(item, turn.answers);
        }
    }

    /** The next request to write: one that is being retried, or the next in the queue. */
    method PollRequest() returns (p: RequestPoll)
      requires Known(Abstract())
      modifies `pendingRequest, `polled, `responses
      ensures match p
              case Requested(id) =>
                && id < |sources|
                && if old(pendingRequest).Some? then
                     id == old(pendingRequest).value && Abstract() == old(Abstract()).(pendingRequest := None)
                   else
                     id == old(polled) && Abstract() == TakeRequest(old(Abstract()))
              case QueueEnded => closed && Abstract() == old(Abstract()) && pendingRequest.None? && polled >= |sources|
              case QueueEmpty => !closed && Abstract() == old(Abstract()) && pendingRequest.None? && polled >= |sources|
    {
      if pendingRequest.Some? {
        p := Requested(pendingRequest.value);
        pendingRequest := None;
      } else if polled < |sources| {
        p := Requested(polled);
        responses := responses + [polled];
        polled := polled + 1;
      } else if closed {
        p := QueueEnded;
      } else {
        p := QueueEmpty;
      }
    }

    method StartSend(id: nat) returns (r: Control<WriteResult>)
      requires id < |sources| && pendingRequest.None?
      modifies `wire, `sources, `pendingRequest
      ensures (Abstract(), r) == Send(old(Abstract()), id)
    {
      match sources[id]
      case Single(message) =>
        wire := wire + [FromRequest(id, message)];
        return Continue;
      case Copy(queue, ended, emitted) =>
        if queue != [] {
          sources := sources[id := Copy(queue[1..], ended, emitted + [queue[0]])];
          wire := wire + [FromRequest(id, queue[0])];
          pendingRequest := Some(id);
          return Continue;
        }
        if ended {
          return Continue;
        }
        pendingRequest := Some(id);
        return Return(Flush(true));
    }

    /** With the socket ready: writes one message, or says why there is none. */
    method WriteNext() returns (r: Control<WriteResult>)
      requires Known(Abstract()) && failure.None? && state != Closing
      modifies `pendingRequest, `polled, `responses, `wire, `sources, `state
      ensures (Abstract(), r) == WriteRound(old(Abstract()), SinkReady)
    {
      ghost var c := Abstract();
      var p := PollRequest();
      match p
      case Requested(id) =>
        SendIgnoresPending(c, id);
        r := StartSend(id);
      case QueueEmpty => return Return(Flush(true));
      case QueueEnded =>
        if responses != [] || state != Active {
          return Return(Flush(true));
        }
        wire := wire + [Terminate];
        state := Closing;
        return Continue;
    }

    method PollWriteRound(turn: WriteTurn) returns (r: Control<WriteResult>)
      requires Known(Abstract())
      modifies this
      ensures (Abstract(), r) == WriteRound(EnvRun(old(Abstract()), turn.before), turn.sink)
      ensures Known(Abstract())
    {
      EnvKeepsKnown(Abstract(), turn.before);
      Yield(turn.before);
      WriteKeepsKnown(Abstract(), turn.sink);
      if failure.Some? || state == Closing {
        return Return(Flush(false));
      }
      match turn.sink
      case SinkError =>
        failure := Some(InputOutput);
        return Return(WriteFailed(InputOutput));
      case SinkPending => return Return(Flush(false));
      case SinkReady => r := WriteNext();
    }

    method PollWrite(turns: seq<WriteTurn>) returns (r: WriteResult)
      requires Known(Abstract())
      modifies this
      ensures (Abstract(), r) == WriteLoop(old(Abstract()), turns)
      ensures Known(Abstract())
    {
      var i := 0;
      assert turns[0..] == turns;
      while i < |turns|
        invariant i <= |turns| && Known(Abstract())
        invariant WriteLoop(Abstract(), turns[i..]) == WriteLoop(old(Abstract()), turns)
      {
        assert turns[i..][1..] == turns[i + 1..];
        var control := PollWriteRound(turns[i]);
        if control.Return? {
          return control.value;
        }
        i := i + 1;
      }
      return Flush(false);
    }

    method PollInner(s: Surroundings) returns (r: MessageResult)
      requires Known(Abstract())
      modifies this
      ensures (Abstract(), r) == PollParts(old(Abstract()), s)
    {
      ReadKeepsKnown(Abstract(), s.readTurns);
      var message := PollRead(s.readTurns);
      if message.ReadFailed? {
        return Error(message.failure);
      }
      var written := PollWrite(s.writeTurns);
      if written.WriteFailed? {
        return Error(written.failure);
      }
      if written.want && !s.flushed {
        return Error(InputOutput);
      }
      if message.Report? {
        return Message(message.message);
      }
      return Shutdown(Abstract(), s.close);
    }

    method PollMessage(s: Surroundings) returns (r: MessageResult)
      requires Known(Abstract())
      modifies this
      ensures (Abstract(), r) == PollOnce(old(Abstract()), s)
    {
      r := PollInner(s);
      if r.End? || r.Error? {
        closed := true;
      }
    }
  }

  // ---------------------------------------------------------------------------
  // The client's end of a response channel
  // ---------------------------------------------------------------------------

  datatype NextMessage = Got(message: Frame) | ServerError(message: Frame) | NoMessage | Gone

  class Responses {
    var cur: seq<byte>
    var queue: seq<Item>
    var senderGone: bool
    ghost var received: seq<Frame>

    /** The client's end of a live channel. */
    ghost function View(): Channel
      reads this
    {
      Channel(queue, cur, received, true)
    }

    constructor ()
      ensures View() == Channel([], [], [], true) && !senderGone
    {
      cur, queue, senderGone, received := [], [], false, [];
    }

    /** One poll of the channel: the next message it has not yet handed out. */
    method PollNext() returns (r: NextMessage)
      modifies `cur, `queue, `received
      ensures View() == ClientPoll(old(View())).0
      ensures match ClientPoll(old(View())).1
              case Some(m) => m != [] && r == if m[0] == ERROR_RESPONSE_TAG then ServerError(m) else NextMessage.Got(m)
              case None => r == if senderGone then Gone else NoMessage
    {
      while true
        invariant ClientPoll(View()) == ClientPoll(old(View()))
        decreases |queue|
      {
        var n := FrameSize(cur);
        if n > 0 {
          var message := cur[..n];
          cur, received := cur[n..], received + [message];
          return if message[0] == ERROR_RESPONSE_TAG then ServerError(message) else NextMessage.Got(message);
        }
        if queue == [] {
          return if senderGone then Gone else NoMessage;
        }
        cur, queue := BytesOf(queue[0]), queue[1..];
      }
    }
  }
}
