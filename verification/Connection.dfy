/**
 The connection task: it routes the server's messages to the outstanding requests and
 writes the clients' requests to the wire. Clients, the socket and the connection's own
 read and write turns interleave freely.
 */
module Connection {
  import opened Wrappers
  import opened Bytes
  import opened Sequences
  import opened Framing
  import opened Routing

  // ---------------------------------------------------------------------------
  // State
  // ---------------------------------------------------------------------------

  const ERROR_RESPONSE_TAG: byte := 69

  datatype State = Active | Terminating | Closing

  /**
   Both ends of a request's response channel: the batches in it, and on the client's side the
   rest `cur` of the batch being read and the messages polled so far. A receiver that hangs
   up drops what it holds.
   */
  datatype Channel = Channel(queue: seq<Item>, cur: seq<byte>, received: seq<Frame>, alive: bool)

  /** The client polls its receiver once: the next message, across batch borders. */
  function ClientPoll(ch: Channel): (Channel, Option<Frame>)
    decreases |ch.queue|
  {
    var n := FrameSize(ch.cur);
    if n > 0 then (ch.(cur := ch.cur[n..], received := ch.received + [ch.cur[..n]]), Some(ch.cur[..n]))
    else if ch.queue == [] then (ch, None)
    else ClientPoll(ch.(cur := BytesOf(ch.queue[0]), queue := ch.queue[1..]))
  }

  /** What the client can still read. */
  function Unread(ch: Channel): seq<Frame> { Parse(ch.cur).frames + Delivered(ch.queue) }

  /** What a request has to write: one message, or the messages a COPY sink hands over. */
  datatype Source =
    | Single(message: seq<byte>)
    | Copy(queue: seq<seq<byte>>, ended: bool, emitted: seq<seq<byte>>)

  datatype WireItem = FromRequest(id: nat, message: seq<byte>) | Terminate

  datatype Failure = Closed | InputOutput | ParseError | DatabaseError | UnexpectedMessage

  /**
   Requests are numbered in the order in which clients enqueue them; `polled` of them have
   been taken from the request queue. `processed` records the messages that have left the
   read side, in order.
   */
  datatype Conn = Conn(
    stream: Stream, arrived: seq<byte>,
    pendingResponses: seq<Item>, responses: seq<nat>, pendingRequest: Option<nat>, state: State,
    sources: seq<Source>, channels: seq<Channel>, polled: nat, closed: bool,
    wire: seq<WireItem>,
    reported: seq<Frame>, parameters: seq<Frame>, processed: seq<Frame>,
    failure: Option<Failure>)

  function Initial(delayed: seq<Frame>): Conn {
    Conn(Stream([], [], false), [], Delay(delayed), [], None, Active, [], [], 0, false, [], [], [], [], None)
  }

  /** The notices kept back during login. */
  function Delay(delayed: seq<Frame>): (items: seq<Item>)
    ensures |items| == |delayed|
    ensures forall i :: 0 <= i < |items| ==> items[i] == Async(delayed[i])
  {
    seq(|delayed|, i requires 0 <= i < |delayed| => Async(delayed[i]))
  }

  // ---------------------------------------------------------------------------
  // The environment
  // ---------------------------------------------------------------------------

  datatype EnvStep =
    | Arrival(chunk: seq<byte>)
    | Enqueue(source: Source)
    | CloseRequests
    | CopyMessage(id: nat, message: seq<byte>) | CopyEnd(id: nat)
    | ClientPolls(id: nat) | HangUp(id: nat)

  function UpdateCopy(c: Conn, id: nat, source: Source): Conn
    requires id < |c.sources|
  {
    c.(sources := c.sources[id := source])
  }

  function EnvNext(c: Conn, e: EnvStep): Conn {
    match e
    case Arrival(chunk) => c.(stream := StreamStep(c.stream, Arrive(chunk)), arrived := c.arrived + chunk)
    case Enqueue(source) =>
      if c.closed || (source.Copy? && source != Copy([], false, [])) then c
      else c.(sources := c.sources + [source], channels := c.channels + [Channel([], [], [], true)])
    case CloseRequests => c.(closed := true)
    case CopyMessage(id, message) =>
      if id < |c.sources| && c.sources[id].Copy? && !c.sources[id].ended
      then UpdateCopy(c, id, c.sources[id].(queue := c.sources[id].queue + [message])) else c
    case CopyEnd(id) =>
      if id < |c.sources| && c.sources[id].Copy? then UpdateCopy(c, id, c.sources[id].(ended := true)) else c
    case ClientPolls(id) =>
      if id < |c.channels| && c.channels[id].alive then c.(channels := c.channels[id := ClientPoll(c.channels[id]).0]) else c
    case HangUp(id) =>
      if id < |c.channels| then c.(channels := c.channels[id := c.channels[id].(queue := [], cur := [], alive := false)]) else c
  }

  // ---------------------------------------------------------------------------
  // One round of the read loop
  // ---------------------------------------------------------------------------

  /** What the socket does when the decoder needs more bytes. */
  datatype SocketPoll = WouldBlock | EndOfFile | SocketError

  /** Whether the request's channel has room, and whether the message's text can be read. */
  datatype Answers = Answers(room: bool, readable: bool)

  datatype ReadResult = Nothing | Report(message: Frame) | ReadFailed(failure: Failure)

  datatype Control<T> = Continue | Return(value: T)

  /** The next batch: a kept one first, then the decoder. */
  datatype Polled = GotItem(item: Item) | NoItem | Broken(failure: Failure)

  function PollResponse(c: Conn, socket: SocketPoll): (Conn, Polled) {
    if c.pendingResponses != [] then
      (c.(pendingResponses := c.pendingResponses[1..]), GotItem(c.pendingResponses[0]))
    else
      match Decode(c.stream.buf)
      case Got(item, _) => (c.(stream := StreamStep(c.stream, Poll)), GotItem(item))
      case Failed => (c.(stream := StreamStep(c.stream, Poll)), Broken(InputOutput))
      case NeedMore =>
        match socket
        case WouldBlock => (c, NoItem)
        case EndOfFile => (c, Broken(if c.stream.buf == [] then Closed else InputOutput))
        case SocketError => (c, Broken(InputOutput))
  }

  function Fail<T>(c: Conn, failure: Failure, value: T): (Conn, Control<T>) {
    (c.(failure := Some(failure)), Return(value))
  }

  /** The failure for a batch nobody waits for, by its first message. */
  function StrayFailure(item: Item, answers: Answers): Failure
    requires item.Normal?
  {
    if !answers.readable then ParseError
    else if item.messages != [] && item.messages[0] == ERROR_RESPONSE_TAG then DatabaseError
    else UnexpectedMessage
  }

  /** Hands a batch to the oldest outstanding request; `answers.room` is its channel's answer. */
  function Route(c: Conn, item: Item, answers: Answers): (Conn, Control<ReadResult>)
    requires item.Normal?
  {
    if c.responses == [] then
      var failure := StrayFailure(item, answers);
      Fail(c, failure, ReadFailed(failure))
    else
      var id := c.responses[0];
      var alive := id < |c.channels| && c.channels[id].alive;
      if alive && !answers.room then (c.(pendingResponses := c.pendingResponses + [item]), Return(Nothing))
      else
        var rest := if item.requestComplete then c.responses[1..] else c.responses;
        var channels := if alive then c.channels[id := c.channels[id].(queue := c.channels[id].queue + [item])] else c.channels;
        (c.(responses := rest, channels := channels, processed := c.processed + Messages(item)), Continue)
  }

  predicate IsParameter(f: Frame) { f != [] && f[0] == PARAMETER_STATUS_TAG }

  function HandleAsync(c: Conn, item: Item, answers: Answers): (Conn, Control<ReadResult>)
    requires item.Async?
  {
    var m := item.message;
    if !answers.readable then Fail(c, ParseError, ReadFailed(ParseError)) else
    var c' := c.(processed := c.processed + [m]);
    if IsParameter(m) then (c'.(parameters := c.parameters + [m]), Continue)
    else (c'.(reported := c.reported + [m]), Return(Report(m)))
  }

  function ReadRound(c: Conn, socket: SocketPoll, answers: Answers): (Conn, Control<ReadResult>) {
    if c.state != Active || c.failure.Some? then (c, Return(Nothing))
    else
      var (c', polled) := PollResponse(c, socket);
      match polled
      case NoItem => (c', Return(Nothing))
      case Broken(f) => Fail(c', f, ReadFailed(f))
      case GotItem(item) => if item.Async? then HandleAsync(c', item, answers) else Route(c', item, answers)
  }

  // ---------------------------------------------------------------------------
  // One round of the write loop
  // ---------------------------------------------------------------------------

  datatype SinkPoll = SinkReady | SinkPending | SinkError

  /** The result of the write loop: whether to flush. */
  datatype WriteResult = Flush(want: bool) | WriteFailed(failure: Failure)

  /** Writes what the COPY request `id` has to offer. */
  function WriteCopy(c: Conn, id: nat): (Conn, Control<WriteResult>)
    requires id < |c.sources| && c.sources[id].Copy?
  {
    var s := c.sources[id];
    if s.queue != [] then
      (UpdateCopy(c, id, s.(queue := s.queue[1..], emitted := s.emitted + [s.queue[0]]))
         .(wire := c.wire + [FromRequest(id, s.queue[0])], pendingRequest := Some(id)), Continue)
    else if s.ended then (c.(pendingRequest := None), Continue)
    else (c.(pendingRequest := Some(id)), Return(Flush(true)))
  }

  /** Writes the next message of the request `id`. */
  function Send(c: Conn, id: nat): (Conn, Control<WriteResult>)
    requires id < |c.sources|
  {
    if c.sources[id].Copy? then WriteCopy(c, id)
    else (c.(wire := c.wire + [FromRequest(id, c.sources[id].message)], pendingRequest := None), Continue)
  }

  /** Takes the next request off the queue; its response channel starts waiting. */
  function TakeRequest(c: Conn): Conn {
    c.(polled := c.polled + 1, responses := c.responses + [c.polled])
  }

  function WriteRound(c: Conn, sink: SinkPoll): (Conn, Control<WriteResult>) {
    if c.failure.Some? || c.state == Closing then (c, Return(Flush(false)))
    else if sink.SinkError? then Fail(c, InputOutput, WriteFailed(InputOutput))
    else if sink.SinkPending? then (c, Return(Flush(false)))
    else if c.pendingRequest.Some? then
      if c.pendingRequest.value < |c.sources| then Send(c, c.pendingRequest.value) else (c, Return(Flush(true)))
    else if c.polled < |c.sources| then
      Send(TakeRequest(c), c.polled)
    else if c.closed && c.responses == [] && c.state == Active then
      (c.(wire := c.wire + [Terminate], state := Closing), Continue)
    else (c, Return(Flush(true)))
  }

  // ---------------------------------------------------------------------------
  // Runs
  // ---------------------------------------------------------------------------

  datatype Label = Env(step: EnvStep) | Read(socket: SocketPoll, answers: Answers) | Write(sink: SinkPoll)

  function Next(c: Conn, l: Label): Conn {
    match l
    case Env(e) => EnvNext(c, e)
    case Read(socket, answers) => ReadRound(c, socket, answers).0
    case Write(sink) => WriteRound(c, sink).0
  }

  /** The state after the labels, the last one coming last. */
  function Run(delayed: seq<Frame>, labels: seq<Label>): Conn {
    if labels == [] then Initial(delayed) else Next(Run(delayed, Front(labels)), Last(labels))
  }

  // ---------------------------------------------------------------------------
  // What every step keeps: the read side
  // ---------------------------------------------------------------------------

  /** What login kept back: complete notices. */
  ghost predicate AllNotices(fs: seq<Frame>) {
    forall i :: 0 <= i < |fs| ==> IsFrame(fs[i]) && fs[i][0] == NOTICE_RESPONSE_TAG
  }

  ghost predicate GoodItems(items: seq<Item>) {
    forall i :: 0 <= i < |items| ==> GoodItem(items[i])
  }

  /** The batches produced so far and the buffer are exactly what arrived. */
  ghost predicate StreamKept(c: Conn) {
    && Parse(c.arrived) == Prepend(Delivered(c.stream.items), Parse(c.stream.buf))
    && GoodItems(c.stream.items)
    && (c.stream.failed ==> c.failure.Some?)
  }

  /** A batch came although no request was waiting. */
  predicate Unrequested(c: Conn) {
    c.failure == Some(DatabaseError) || c.failure == Some(UnexpectedMessage)
  }

  /** The last batch taken could not be processed. */
  predicate LostOne(c: Conn) { Unrequested(c) || c.failure == Some(ParseError) }

  /** There are messages for a request after the first `n`. */
  predicate Excess(fs: seq<Frame>, n: nat) { Segment(Filter(IsNormal, fs), n) != [] }

  /** Messages leave the read side in the order they came in, the delayed notices first. */
  ghost predicate OrderKept(delayed: seq<Frame>, c: Conn) {
    if LostOne(c) then
      && c.processed <= delayed + Delivered(c.stream.items)
      && (Unrequested(c) ==> Excess(delayed + Delivered(c.stream.items), c.polled))
    else c.processed + Delivered(c.pendingResponses) == delayed + Delivered(c.stream.items)
  }

  /** The retry queue holds delayed notices nobody has overtaken. */
  ghost predicate HoldsNotices(delayed: seq<Frame>, c: Conn) {
    && c.stream.items == [] && |c.pendingResponses| <= |delayed|
    && c.pendingResponses == Delay(delayed[|delayed| - |c.pendingResponses|..])
  }

  /** The retry queue holds the one batch whose request has no room. */
  ghost predicate HoldsBatch(c: Conn) {
    && |c.pendingResponses| == 1 && c.pendingResponses[0].Normal?
    && GoodItem(c.pendingResponses[0]) && c.responses != []
  }

  ghost predicate RetryKept(delayed: seq<Frame>, c: Conn) {
    HoldsNotices(delayed, c) || HoldsBatch(c) || c.pendingResponses == []
  }

  /** Notices and notifications. */
  predicate IsReported(f: Frame) {
    f != [] && (f[0] == NOTICE_RESPONSE_TAG || f[0] == NOTIFICATION_RESPONSE_TAG)
  }

  predicate IsSetting(f: Frame) { f != [] && f[0] == PARAMETER_STATUS_TAG }

  ghost predicate AsyncKept(c: Conn) {
    c.reported == Filter(IsReported, c.processed) && c.parameters == Filter(IsSetting, c.processed)
  }

  /** The requests `a`, ..., `b - 1`. */
  function Outstanding(a: nat, b: nat): seq<nat>
    requires a <= b
  {
    seq(b - a, i requires 0 <= i < b - a => a + i)
  }

  lemma OutstandingShifts(a: nat, b: nat)
    requires a <= b
    ensures Outstanding(a, b) + [b] == Outstanding(a, b + 1)
    ensures a == b <==> Outstanding(a, b) == []
    ensures a < b ==> Outstanding(a, b)[0] == a && Outstanding(a, b)[1..] == Outstanding(a + 1, b)
  {}

  ghost predicate ChannelKept(ch: Channel, segment: seq<Frame>) {
    ch.alive ==> ch.received + Unread(ch) == segment
  }

  /** The requests the server has finished. */
  function Answered(c: Conn): nat { ReadyCount(Filter(IsNormal, c.processed)) }

  /** The waiting requests are those polled and not answered, oldest first. */
  ghost predicate QueueKept(c: Conn) {
    && Answered(c) <= c.polled <= |c.sources| == |c.channels|
    && c.responses == Outstanding(Answered(c), c.polled)
    && Segment(Filter(IsNormal, c.processed), c.polled) == []
  }

  /** Every live request has been handed exactly its own segment. */
  ghost predicate RouteKept(c: Conn) {
    forall k :: 0 <= k < |c.channels| ==> ChannelKept(c.channels[k], Segment(Filter(IsNormal, c.processed), k))
  }

  ghost predicate ReadInvariant(delayed: seq<Frame>, c: Conn) {
    StreamKept(c) && OrderKept(delayed, c) && RetryKept(delayed, c) && AsyncKept(c) && QueueKept(c) && RouteKept(c)
  }

  lemma {:induction false} DeliveredAppend(xs: seq<Item>, ys: seq<Item>)
    ensures Delivered(xs + ys) == Delivered(xs) + Delivered(ys)
  {
    if ys == [] {
      AppendEmpty(xs);
    } else {
      var front, last := Front(ys), Last(ys);
      assert ys == front + [last];
      DeliveredAppend(xs, front);
      DeliveredAppendLast(xs, front, last, ys);
    }
  }

  lemma DeliveredAppendLast(xs: seq<Item>, front: seq<Item>, last: Item, ys: seq<Item>)
    requires ys == front + [last] && Delivered(xs + front) == Delivered(xs) + Delivered(front)
    ensures Delivered(xs + ys) == Delivered(xs) + Delivered(ys)
  {
    AppendAssoc(xs, front, [last]);
    DeliveredPush(xs + front, last);
    DeliveredPush(front, last);
    AppendAssoc(Delivered(xs), Delivered(front), Messages(last));
  }

  lemma DeliveredOne(item: Item)
    ensures Delivered([item]) == Messages(item)
  {
    DeliveredPush([], item);
    AppendEmpty([item]);
    AppendEmpty(Messages(item));
  }

  lemma DeliveredTail(items: seq<Item>)
    requires items != []
    ensures Delivered(items) == Messages(items[0]) + Delivered(items[1..])
  {
    assert items == [items[0]] + items[1..];
    DeliveredAppend([items[0]], items[1..]);
    DeliveredOne(items[0]);
  }

  lemma {:induction false} DeliveredDelay(fs: seq<Frame>)
    requires AllNotices(fs)
    ensures Delivered(Delay(fs)) == fs
  {
    if fs == [] {
    } else {
      DeliveredDelay(Front(fs));
      OneFrame(Last(fs));
      assert Front(fs) + [Last(fs)] == fs;
      assert Delay(fs) == Delay(Front(fs)) + [Async(Last(fs))];
      DeliveredPush(Delay(Front(fs)), Async(Last(fs)));
    }
  }

  lemma AsyncMessages(item: Item)
    requires GoodItem(item) && item.Async?
    ensures Messages(item) == [item.message] && IsAsync(item.message)
  {
    ConcatCons(Messages(item)[0], []);
    AppendEmpty(Messages(item)[0]);
  }

  lemma InitialIsSound(delayed: seq<Frame>)
    requires AllNotices(delayed)
    ensures ReadInvariant(delayed, Initial(delayed))
  {
    InitialStream(delayed, Initial(delayed));
    InitialOrder(delayed, Initial(delayed));
    InitialQueue(delayed);
  }

  lemma InitialStream(delayed: seq<Frame>, c: Conn)
    requires c == Initial(delayed)
    ensures StreamKept(c)
  {
    ParseHere([]);
    PrependTwice([], [], Parse([]));
  }

  lemma InitialOrder(delayed: seq<Frame>, c: Conn)
    requires AllNotices(delayed) && c == Initial(delayed)
    ensures OrderKept(delayed, c) && RetryKept(delayed, c)
  {
    DeliveredDelay(delayed);
    AppendEmpty(delayed);
    assert delayed[0..] == delayed;
    assert HoldsNotices(delayed, c);
  }

  lemma InitialQueue(delayed: seq<Frame>)
    ensures QueueKept(Initial(delayed)) && RouteKept(Initial(delayed)) && AsyncKept(Initial(delayed))
  {}

  /** The two states agree on what the read side looks at. */
  ghost predicate SameReadSide(c: Conn, c': Conn) {
    && c'.arrived == c.arrived && c'.stream.buf == c.stream.buf && c'.stream.items == c.stream.items
    && (c'.stream.failed ==> c'.failure.Some?) && (Unrequested(c') <==> Unrequested(c)) && (LostOne(c') <==> LostOne(c))
    && c'.pendingResponses == c.pendingResponses && c'.processed == c.processed
    && c'.reported == c.reported && c'.parameters == c.parameters
    && c'.channels == c.channels && |c'.sources| == |c.sources|
    && c'.responses == c.responses && c'.polled == c.polled
  }

  lemma SameKeeps(delayed: seq<Frame>, c: Conn, c': Conn)
    requires ReadInvariant(delayed, c) && SameReadSide(c, c')
    ensures ReadInvariant(delayed, c')
  {
    assert Answered(c') == Answered(c);
    assert RetryKept(delayed, c');
  }

  // the environment

  lemma ArrivalKeeps(delayed: seq<Frame>, c: Conn, chunk: seq<byte>)
    requires ReadInvariant(delayed, c)
    ensures ReadInvariant(delayed, EnvNext(c, Arrival(chunk)))
  {
    PrependAppended(Delivered(c.stream.items), c.stream.buf, chunk, c.arrived);
  }

  lemma NothingForUnpolled(c: Conn, k: nat)
    requires QueueKept(c) && k >= c.polled
    ensures Segment(Filter(IsNormal, c.processed), k) == []
  {
    if k > c.polled {
      NothingBeyond(Filter(IsNormal, c.processed), k);
    }
  }

  lemma EnqueueKeepsRoute(c: Conn, source: Source)
    requires QueueKept(c) && RouteKept(c)
    ensures RouteKept(EnvNext(c, Enqueue(source))) && QueueKept(EnvNext(c, Enqueue(source)))
  {
    var c' := EnvNext(c, Enqueue(source));
    NothingForUnpolled(c, |c.sources|);
    forall k | 0 <= k < |c'.channels| ensures ChannelKept(c'.channels[k], Segment(Filter(IsNormal, c.processed), k)) {
      if k < |c.channels| {
        assert ChannelKept(c.channels[k], Segment(Filter(IsNormal, c.processed), k));
      }
    }
  }

  lemma EnqueueKeeps(delayed: seq<Frame>, c: Conn, source: Source)
    requires ReadInvariant(delayed, c)
    ensures ReadInvariant(delayed, EnvNext(c, Enqueue(source)))
  {
    EnqueueKeepsRoute(c, source);
    assert RetryKept(delayed, EnvNext(c, Enqueue(source)));
  }

  lemma HangUpKeeps(delayed: seq<Frame>, c: Conn, id: nat)
    requires ReadInvariant(delayed, c)
    ensures ReadInvariant(delayed, EnvNext(c, HangUp(id)))
  {
    if id < |c.channels| {
      var ch := c.channels[id].(queue := [], cur := [], alive := false);
      ChannelKeeps(delayed, c, id, ch, c.(channels := c.channels[id := ch]));
    } else {
      assert EnvNext(c, HangUp(id)) == c;
    }
  }

  /** A poll of the client hands out the next unread message, if there is one. */
  lemma {:induction false} PollingReadsNext(ch: Channel)
    ensures var (ch', m) := ClientPoll(ch);
            && ch'.alive == ch.alive && ch.received + Unread(ch) == ch'.received + Unread(ch')
            && (m.None? <==> Unread(ch) == [])
            && ch'.received == ch.received + (if m.Some? then [m.value] else [])
    decreases |ch.queue|
  {
    ParseHere(ch.cur);
    AppendEmpty(ch.received);
    if FrameSize(ch.cur) > 0 {
      var n := FrameSize(ch.cur);
      var more := Parse(ch.cur[n..]).frames;
      AppendAssoc([ch.cur[..n]], more, Delivered(ch.queue));
      AppendAssoc(ch.received, [ch.cur[..n]], more + Delivered(ch.queue));
    } else {
      AppendEmpty(Delivered(ch.queue));
      if ch.queue != [] {
        DeliveredTail(ch.queue);
        PollingReadsNext(ch.(cur := BytesOf(ch.queue[0]), queue := ch.queue[1..]));
      }
    }
  }

  lemma ChannelKeeps(delayed: seq<Frame>, c: Conn, id: nat, ch: Channel, c': Conn)
    requires ReadInvariant(delayed, c) && id < |c.channels|
    requires ChannelKept(ch, Segment(Filter(IsNormal, c.processed), id))
    requires c' == c.(channels := c.channels[id := ch])
    ensures ReadInvariant(delayed, c')
  {
    assert Answered(c') == Answered(c);
    assert RetryKept(delayed, c');
  }

  lemma ClientKeeps(delayed: seq<Frame>, c: Conn, id: nat)
    requires ReadInvariant(delayed, c)
    ensures ReadInvariant(delayed, EnvNext(c, ClientPolls(id)))
  {
    if id < |c.channels| && c.channels[id].alive {
      var c' := EnvNext(c, ClientPolls(id));
      PollingReadsNext(c.channels[id]);
      ChannelKeeps(delayed, c, id, ClientPoll(c.channels[id]).0, c');
    }
  }

  lemma QuietEnvIsSame(c: Conn, e: EnvStep)
    requires e.CloseRequests? || e.CopyMessage? || e.CopyEnd?
    requires c.stream.failed ==> c.failure.Some?
    ensures SameReadSide(c, EnvNext(c, e))
  {}

  lemma QuietEnvKeeps(delayed: seq<Frame>, c: Conn, e: EnvStep)
    requires e.CloseRequests? || e.CopyMessage? || e.CopyEnd?
    requires ReadInvariant(delayed, c)
    ensures ReadInvariant(delayed, EnvNext(c, e))
  {
    QuietEnvIsSame(c, e);
    SameKeeps(delayed, c, EnvNext(c, e));
  }

  lemma EnvKeeps(delayed: seq<Frame>, c: Conn, e: EnvStep)
    requires ReadInvariant(delayed, c)
    ensures ReadInvariant(delayed, EnvNext(c, e))
  {
    match e
    case Arrival(chunk) => ArrivalKeeps(delayed, c, chunk);
    case Enqueue(source) => EnqueueKeeps(delayed, c, source);
    case ClientPolls(id) => ClientKeeps(delayed, c, id);
    case HangUp(id) => HangUpKeeps(delayed, c, id);
    case _ => QuietEnvKeeps(delayed, c, e);
  }

  // the next batch

  /** `c` has given up `item`, which is processed next. */
  ghost predicate Holding(delayed: seq<Frame>, c: Conn, item: Item) {
    && c.failure.None?
    && StreamKept(c) && AsyncKept(c) && QueueKept(c) && RouteKept(c)
    && GoodItem(item)
    && c.processed + Messages(item) + Delivered(c.pendingResponses) == delayed + Delivered(c.stream.items)
    && (if item.Async? then RetryKept(delayed, c) else c.pendingResponses == [])
  }

  lemma NoticeIsNext(delayed: seq<Frame>, c: Conn, n: nat)
    requires AllNotices(delayed) && n < |delayed| && c.pendingResponses == Delay(delayed[n..])
    ensures c.pendingResponses[0] == Async(delayed[n]) && GoodItem(c.pendingResponses[0])
    ensures c.pendingResponses[1..] == Delay(delayed[n + 1..])
  {
    OneFrame(delayed[n]);
  }

  lemma KeptItemInOrder(delayed: seq<Frame>, c: Conn)
    requires OrderKept(delayed, c) && !LostOne(c) && c.pendingResponses != []
    ensures c.processed + Messages(c.pendingResponses[0]) + Delivered(c.pendingResponses[1..]) ==
            delayed + Delivered(c.stream.items)
  {
    DeliveredTail(c.pendingResponses);
    AppendAssoc(c.processed, Messages(c.pendingResponses[0]), Delivered(c.pendingResponses[1..]));
  }

  /** Taking the head of the retry queue leaves what it should leave. */
  lemma KeptRest(delayed: seq<Frame>, c: Conn, rest: Conn)
    requires AllNotices(delayed) && RetryKept(delayed, c) && c.pendingResponses != []
    requires rest == c.(pendingResponses := c.pendingResponses[1..])
    ensures GoodItem(c.pendingResponses[0])
    ensures if c.pendingResponses[0].Async? then RetryKept(delayed, rest) else rest.pendingResponses == []
  {
    if HoldsNotices(delayed, c) {
      NoticeIsNext(delayed, c, |delayed| - |c.pendingResponses|);
      assert HoldsNotices(delayed, rest);
    }
  }

  /** Taking an item touches the stream and the retry queue only. */
  lemma TakingKeepsRest(c: Conn, rest: Conn)
    requires AsyncKept(c) && QueueKept(c) && RouteKept(c)
    requires rest == c.(stream := rest.stream, pendingResponses := rest.pendingResponses)
    ensures AsyncKept(rest) && QueueKept(rest) && RouteKept(rest)
  {
    assert Answered(rest) == Answered(c);
  }

  lemma KeptItemIsNext(delayed: seq<Frame>, c: Conn, item: Item, rest: Conn)
    requires AllNotices(delayed) && ReadInvariant(delayed, c) && c.failure.None? && c.pendingResponses != []
    requires item == c.pendingResponses[0] && rest == c.(pendingResponses := c.pendingResponses[1..])
    ensures Holding(delayed, rest, item)
  {
    KeptItemInOrder(delayed, c);
    KeptRest(delayed, c, rest);
    TakingKeepsRest(c, rest);
  }

  lemma DecodedItemInOrder(delayed: seq<Frame>, c: Conn, item: Item)
    requires OrderKept(delayed, c) && !LostOne(c) && c.pendingResponses == []
    ensures c.processed + Messages(item) + Delivered([]) == delayed + Delivered(c.stream.items + [item])
  {
    DeliveredPush(c.stream.items, item);
    AppendEmpty(c.processed);
    AppendEmpty(c.processed + Messages(item));
    AppendAssoc(delayed, Delivered(c.stream.items), Messages(item));
  }

  lemma DecodedIsKept(c: Conn, rest: Conn, item: Item)
    requires StreamKept(c) && c.failure.None? && Decode(c.stream.buf).Got? && item == Decode(c.stream.buf).item
    requires rest == c.(stream := StreamStep(c.stream, Poll))
    ensures StreamKept(rest) && GoodItem(item) && rest.stream.items == c.stream.items + [item]
  {
    DecodeMeaning(c.stream.buf);
    PollIsExact(c.stream, c.arrived);
  }

  lemma DecodedItemIsNext(delayed: seq<Frame>, c: Conn, item: Item, rest: Conn)
    requires ReadInvariant(delayed, c) && c.failure.None? && c.pendingResponses == []
    requires Decode(c.stream.buf).Got? && item == Decode(c.stream.buf).item
    requires rest == c.(stream := StreamStep(c.stream, Poll))
    ensures Holding(delayed, rest, item)
  {
    DecodedIsKept(c, rest, item);
    DecodedItemInOrder(delayed, c, item);
    TakingKeepsRest(c, rest);
  }

  // handling it

  lemma UnreadableKeeps(delayed: seq<Frame>, c: Conn, item: Item)
    requires Holding(delayed, c, item)
    ensures ReadInvariant(delayed, c.(failure := Some(ParseError)))
  {
    var c' := c.(failure := Some(ParseError));
    AppendAssoc(c.processed, Messages(item), Delivered(c.pendingResponses));
    assert Answered(c') == Answered(c);
    assert RetryKept(delayed, c');
  }

  lemma AsyncKeeps(delayed: seq<Frame>, c: Conn, item: Item, answers: Answers)
    requires Holding(delayed, c, item) && item.Async? && answers.readable
    ensures ReadInvariant(delayed, HandleAsync(c, item, answers).0)
  {
    var m, c' := item.message, HandleAsync(c, item, answers).0;
    AsyncMessages(item);
    FilterPush(IsNormal, c.processed, m);
    FilterPush(IsReported, c.processed, m);
    FilterPush(IsSetting, c.processed, m);
    AppendEmpty(Filter(IsNormal, c.processed));
    AppendEmpty(c.reported);
    AppendEmpty(c.parameters);
    assert Answered(c') == Answered(c);
  }

  lemma BatchIsNormal(item: Item)
    requires GoodItem(item) && item.Normal?
    ensures Filter(IsNormal, Messages(item)) == Messages(item)
    ensures Filter(IsReported, Messages(item)) == Filter(IsSetting, Messages(item)) == []
  {
    var fs := Messages(item);
    forall i | 0 <= i < |fs| ensures IsNormal(fs[i]) {
      assert item.requestComplete && i < |fs| - 1 ==> fs[..|fs| - 1][i] == fs[i];
    }
    FilterAll(IsNormal, fs, true);
    FilterAll(IsReported, fs, false);
    FilterAll(IsSetting, fs, false);
  }

  lemma BatchLeavesAsync(c: Conn, item: Item, c': Conn)
    requires AsyncKept(c) && GoodItem(item) && item.Normal?
    requires c'.reported == c.reported && c'.parameters == c.parameters && c'.processed == c.processed + Messages(item)
    ensures AsyncKept(c') && Filter(IsNormal, c'.processed) == Filter(IsNormal, c.processed) + Messages(item)
  {
    BatchIsNormal(item);
    FilterAppend(IsNormal, c.processed, Messages(item));
    FilterAppend(IsReported, c.processed, Messages(item));
    FilterAppend(IsSetting, c.processed, Messages(item));
    AppendEmpty(c.reported);
    AppendEmpty(c.parameters);
  }

  /** The batch advances the oldest waiting request, and completes it or not. */
  lemma BatchKeepsQueue(c: Conn, item: Item, c': Conn)
    requires QueueKept(c) && GoodItem(item) && item.Normal? && c.responses != []
    requires Filter(IsNormal, c'.processed) == Filter(IsNormal, c.processed) + Messages(item)
    requires |c'.sources| == |c.sources| && |c'.channels| == |c.channels| && c'.polled == c.polled
    requires c'.responses == if item.requestComplete then c.responses[1..] else c.responses
    ensures c.responses[0] == Answered(c) && QueueKept(c')
  {
    OutstandingShifts(Answered(c), c.polled);
    SegmentBatch(Filter(IsNormal, c.processed), Messages(item), item.requestComplete, c.polled);
    assert Segment(Filter(IsNormal, c'.processed), c'.polled) == [];
  }

  lemma BatchKeepsRoute(c: Conn, item: Item, c': Conn)
    requires QueueKept(c) && RouteKept(c) && GoodItem(item) && item.Normal? && c.responses != []
    requires Filter(IsNormal, c'.processed) == Filter(IsNormal, c.processed) + Messages(item)
    requires var id := Answered(c);
             var ch := c.channels[id];
             c'.channels == if ch.alive then c.channels[id := ch.(queue := ch.queue + [item])] else c.channels
    ensures RouteKept(c')
  {
    var n, id := Filter(IsNormal, c.processed), Answered(c);
    forall k | 0 <= k < |c'.channels| ensures ChannelKept(c'.channels[k], Segment(n + Messages(item), k)) {
      SegmentBatch(n, Messages(item), item.requestComplete, k);
      AppendEmpty(Segment(n, k));
      assert ChannelKept(c.channels[k], Segment(n, k));
      if k == id {
        var ch := c.channels[id];
        DeliveredPush(ch.queue, item);
        AppendAssoc(Parse(ch.cur).frames, Delivered(ch.queue), Messages(item));
        AppendAssoc(ch.received, Unread(ch), Messages(item));
      }
    }
  }

  lemma BatchIsExcess(c: Conn, item: Item)
    requires QueueKept(c) && c.responses == [] && GoodItem(item) && item.Normal?
    ensures Excess(c.processed + Messages(item), c.polled)
  {
    BatchIsNormal(item);
    FilterAppend(IsNormal, c.processed, Messages(item));
    SegmentBatch(Filter(IsNormal, c.processed), Messages(item), item.requestComplete, c.polled);
    assert Answered(c) == c.polled;
  }

  lemma UnrequestedKeeps(delayed: seq<Frame>, c: Conn, item: Item, answers: Answers)
    requires Holding(delayed, c, item) && item.Normal? && c.responses == [] && answers.readable
    ensures ReadInvariant(delayed, Route(c, item, answers).0)
  {
    AppendEmpty(c.processed + Messages(item));
    BatchIsExcess(c, item);
  }

  lemma NoRoomKeeps(delayed: seq<Frame>, c: Conn, item: Item)
    requires Holding(delayed, c, item) && item.Normal? && c.responses != []
    ensures ReadInvariant(delayed, c.(pendingResponses := c.pendingResponses + [item]))
  {
    DeliveredOne(item);
    AppendEmpty([item]);
    AppendEmpty(c.processed + Messages(item));
  }

  lemma RoutedKeeps(delayed: seq<Frame>, c: Conn, item: Item, answers: Answers)
    requires Holding(delayed, c, item) && item.Normal? && c.responses != []
    requires answers.room || !c.channels[c.responses[0]].alive
    ensures ReadInvariant(delayed, Route(c, item, answers).0)
  {
    var c' := Route(c, item, answers).0;
    BatchLeavesAsync(c, item, c');
    BatchKeepsQueue(c, item, c');
    BatchKeepsRoute(c, item, c');
  }

  lemma RouteKeeps(delayed: seq<Frame>, c: Conn, item: Item, answers: Answers)
    requires Holding(delayed, c, item) && item.Normal?
    ensures ReadInvariant(delayed, Route(c, item, answers).0)
  {
    if c.responses == [] && answers.readable {
      UnrequestedKeeps(delayed, c, item, answers);
    } else if c.responses == [] {
      UnreadableKeeps(delayed, c, item);
    } else if c.channels[c.responses[0]].alive && !answers.room {
      NoRoomKeeps(delayed, c, item);
    } else {
      RoutedKeeps(delayed, c, item, answers);
    }
  }

  lemma ItemIsNext(delayed: seq<Frame>, c: Conn, socket: SocketPoll)
    requires AllNotices(delayed) && ReadInvariant(delayed, c) && c.failure.None?
    requires PollResponse(c, socket).1.GotItem?
    ensures Holding(delayed, PollResponse(c, socket).0, PollResponse(c, socket).1.item)
  {
    var p := PollResponse(c, socket);
    if c.pendingResponses != [] {
      KeptItemIsNext(delayed, c, p.1.item, p.0);
    } else {
      DecodedItemIsNext(delayed, c, p.1.item, p.0);
    }
  }

  lemma NoItemIsSame(c: Conn, socket: SocketPoll, answers: Answers)
    requires c.state == Active && c.failure.None? && !c.stream.failed && !PollResponse(c, socket).1.GotItem?
    ensures SameReadSide(c, ReadRound(c, socket, answers).0)
  {}

  lemma ItemKeeps(delayed: seq<Frame>, c: Conn, item: Item, answers: Answers)
    requires Holding(delayed, c, item)
    ensures ReadInvariant(delayed, if item.Async? then HandleAsync(c, item, answers).0 else Route(c, item, answers).0)
  {
    if item.Async? && answers.readable {
      AsyncKeeps(delayed, c, item, answers);
    } else if item.Async? {
      UnreadableKeeps(delayed, c, item);
    } else {
      RouteKeeps(delayed, c, item, answers);
    }
  }

  lemma ReadKeeps(delayed: seq<Frame>, c: Conn, socket: SocketPoll, answers: Answers)
    requires AllNotices(delayed) && ReadInvariant(delayed, c)
    ensures ReadInvariant(delayed, ReadRound(c, socket, answers).0)
  {
    if c.state == Active && c.failure.None? {
      var p := PollResponse(c, socket);
      if p.1.GotItem? {
        ItemIsNext(delayed, c, socket);
        ItemKeeps(delayed, p.0, p.1.item, answers);
      } else {
        NoItemIsSame(c, socket, answers);
        SameKeeps(delayed, c, ReadRound(c, socket, answers).0);
      }
    }
  }

  lemma PolledKeeps(delayed: seq<Frame>, c: Conn)
    requires ReadInvariant(delayed, c) && c.polled < |c.sources| && c.failure.None?
    ensures ReadInvariant(delayed, TakeRequest(c))
  {
    var c' := TakeRequest(c);
    NothingBeyond(Filter(IsNormal, c.processed), c.polled + 1);
    OutstandingShifts(Answered(c), c.polled);
    assert Answered(c') == Answered(c);
    assert RetryKept(delayed, c');
  }

  lemma SendIsSame(c: Conn, id: nat)
    requires id < |c.sources| && (c.stream.failed ==> c.failure.Some?)
    ensures SameReadSide(c, Send(c, id).0)
  {}

  lemma WriteIsSame(c: Conn, sink: SinkPoll)
    requires c.stream.failed ==> c.failure.Some?
    ensures var c' := WriteRound(c, sink).0;
            if c'.polled == c.polled then SameReadSide(c, c')
            else c.polled < |c.sources| && c.failure.None? && SameReadSide(TakeRequest(c), c')
  {
    if c.pendingRequest.Some? && c.pendingRequest.value < |c.sources| {
      SendIsSame(c, c.pendingRequest.value);
    } else if c.polled < |c.sources| {
      SendIsSame(TakeRequest(c), c.polled);
    }
  }

  lemma WriteKeepsRead(delayed: seq<Frame>, c: Conn, sink: SinkPoll)
    requires ReadInvariant(delayed, c)
    ensures ReadInvariant(delayed, WriteRound(c, sink).0)
  {
    var c' := WriteRound(c, sink).0;
    WriteIsSame(c, sink);
    if c'.polled == c.polled {
      SameKeeps(delayed, c, c');
    } else {
      PolledKeeps(delayed, c);
      SameKeeps(delayed, TakeRequest(c), c');
    }
  }

  lemma {:induction false} ReadSideIsSound(delayed: seq<Frame>, labels: seq<Label>)
    requires AllNotices(delayed)
    ensures ReadInvariant(delayed, Run(delayed, labels))
  {
    if labels == [] {
      InitialIsSound(delayed);
    } else {
      var c := Run(delayed, Front(labels));
      ReadSideIsSound(delayed, Front(labels));
      match Last(labels)
      case Env(e) => EnvKeeps(delayed, c, e);
      case Read(socket, answers) => ReadKeeps(delayed, c, socket, answers);
      case Write(sink) => WriteKeepsRead(delayed, c, sink);
    }
  }

  // ---------------------------------------------------------------------------
  // The read side over whole runs
  // ---------------------------------------------------------------------------

  /** What the server has sent to requests, as far as it has arrived. */
  function ServerMessages(c: Conn): seq<Frame> {
    Filter(IsNormal, Parse(c.arrived).frames)
  }

  lemma ProcessedIsPrefix(delayed: seq<Frame>, c: Conn)
    requires AllNotices(delayed) && ReadInvariant(delayed, c)
    ensures c.processed <= delayed + Parse(c.arrived).frames
  {
    AppendAssoc(delayed, Delivered(c.stream.items), Parse(c.stream.buf).frames);
  }

  lemma NormalOfPrefix(delayed: seq<Frame>, seen: seq<Frame>, all: seq<Frame>, k: nat)
    requires AllNotices(delayed) && seen <= delayed + all
    ensures Segment(Filter(IsNormal, seen), k) <= Segment(Filter(IsNormal, all), k)
  {
    var rest := (delayed + all)[|seen|..];
    assert delayed + all == seen + rest;
    FilterAppend(IsNormal, delayed, all);
    FilterAll(IsNormal, delayed, false);
    AppendEmpty(Filter(IsNormal, all));
    FilterAppend(IsNormal, seen, rest);
    SegmentGrows(Filter(IsNormal, seen), Filter(IsNormal, rest), k);
  }

  /**
   However reads, writes, full channels, hang-ups and arrivals interleave, what a live
   request has received is a prefix of its own segment of the server's messages, and
   together with what its channel holds it still is.
   */
  lemma RoutingIsFaithful(delayed: seq<Frame>, labels: seq<Label>, k: nat)
    requires AllNotices(delayed)
    requires k < |Run(delayed, labels).channels| && Run(delayed, labels).channels[k].alive
    ensures var c := Run(delayed, labels);
            && c.channels[k].received + Unread(c.channels[k]) <= Segment(ServerMessages(c), k)
            && c.channels[k].received <= Segment(ServerMessages(c), k)
  {
    var c := Run(delayed, labels);
    ReadSideIsSound(delayed, labels);
    ProcessedIsPrefix(delayed, c);
    NormalOfPrefix(delayed, c.processed, Parse(c.arrived).frames, k);
    assert ChannelKept(c.channels[k], Segment(Filter(IsNormal, c.processed), k));
  }

  /** Every complete message that arrived has been processed. */
  ghost predicate CaughtUp(c: Conn) {
    c.pendingResponses == [] && Parse(c.stream.buf).frames == [] && !LostOne(c)
  }

  /** Once the connection has caught up, every live request has been given its whole segment. */
  lemma NothingIsLost(delayed: seq<Frame>, labels: seq<Label>, k: nat)
    requires AllNotices(delayed) && CaughtUp(Run(delayed, labels))
    requires k < |Run(delayed, labels).channels| && Run(delayed, labels).channels[k].alive
    ensures var c := Run(delayed, labels);
            && c.processed == delayed + Parse(c.arrived).frames
            && c.channels[k].received + Unread(c.channels[k]) == Segment(ServerMessages(c), k)
  {
    var c := Run(delayed, labels);
    ReadSideIsSound(delayed, labels);
    AppendEmpty(c.processed);
    AppendEmpty(Delivered(c.stream.items));
    FilterAppend(IsNormal, delayed, Parse(c.arrived).frames);
    FilterAll(IsNormal, delayed, false);
    AppendEmpty(ServerMessages(c));
    assert ChannelKept(c.channels[k], Segment(Filter(IsNormal, c.processed), k));
  }

  /**
   The retry queue never holds more than the notices delayed at login or one batch, so
   appending to it reorders nothing: messages are processed in the order the server sent
   them, after those notices.
   */
  lemma RetryKeepsOrder(delayed: seq<Frame>, labels: seq<Label>)
    requires AllNotices(delayed)
    ensures var c := Run(delayed, labels);
            && (HoldsNotices(delayed, c) || HoldsBatch(c) || c.pendingResponses == [])
            && c.processed <= delayed + Parse(c.arrived).frames
            && c.reported == Filter(IsReported, c.processed)
            && c.parameters == Filter(IsSetting, c.processed)
  {
    ReadSideIsSound(delayed, labels);
    ProcessedIsPrefix(delayed, Run(delayed, labels));
  }

  /**
   The waiting requests are exactly those taken from the request queue and not yet
   answered, in order; and a batch finds none only when the server has sent messages
   beyond the last request taken.
   */
  lemma UnrequestedOnlyBeyondRequests(delayed: seq<Frame>, labels: seq<Label>)
    requires AllNotices(delayed)
    ensures var c := Run(delayed, labels);
            && Answered(c) <= c.polled && c.responses == Outstanding(Answered(c), c.polled)
            && (Unrequested(c) ==> Excess(Parse(c.arrived).frames, c.polled))
  {
    var c := Run(delayed, labels);
    ReadSideIsSound(delayed, labels);
    if Unrequested(c) {
      var seen := delayed + Delivered(c.stream.items);
      AppendAssoc(delayed, Delivered(c.stream.items), Parse(c.stream.buf).frames);
      NormalOfPrefix(delayed, seen, Parse(c.arrived).frames, c.polled);
    }
  }

  // nothing gets stuck

  /** Room in the channel, and a readable message. */
  const WELL := Answers(true, true)

  function Backlog(c: Conn): nat { |c.pendingResponses| + |c.stream.buf| }

  predicate Stopped(c: Conn) { c.failure.Some? || c.state != Active }

  lemma PollShrinks(c: Conn)
    requires !Stopped(c) && !CaughtUp(c) && c.failure.None? && !c.stream.failed
    ensures var p := PollResponse(c, WouldBlock);
            && !p.1.NoItem? && p.0.state == Active && p.0.failure.None?
            && (p.1.GotItem? ==> Backlog(p.0) < Backlog(c))
  {
    if c.pendingResponses == [] {
      DecodeMeaning(c.stream.buf);
      if Decode(c.stream.buf).Got? {
        ItemHasBytes(Decode(c.stream.buf).item);
      }
    }
  }

  lemma HandlingKeepsBacklog(c: Conn, item: Item)
    requires !Stopped(c)
    ensures var c' := if item.Async? then HandleAsync(c, item, WELL).0 else Route(c, item, WELL).0;
            Stopped(c') || Backlog(c') == Backlog(c)
  {}

  lemma ReadyRound(delayed: seq<Frame>, c: Conn)
    requires AllNotices(delayed) && ReadInvariant(delayed, c) && !Stopped(c) && !CaughtUp(c)
    ensures var c' := ReadRound(c, WouldBlock, WELL).0;
            Stopped(c') || Backlog(c') < Backlog(c)
  {
    var p := PollResponse(c, WouldBlock);
    PollShrinks(c);
    if p.1.GotItem? {
      HandlingKeepsBacklog(p.0, p.1.item);
    }
  }

  lemma RunPush(delayed: seq<Frame>, labels: seq<Label>, l: Label)
    ensures Run(delayed, labels + [l]) == Next(Run(delayed, labels), l)
  {
    assert Front(labels + [l]) == labels;
  }

  /** With room in the channels, reading alone catches up or stops for good. */
  lemma {:induction false} ReadingCatchesUp(delayed: seq<Frame>, labels: seq<Label>) returns (more: seq<Label>)
    requires AllNotices(delayed)
    ensures forall i :: 0 <= i < |more| ==> more[i] == Read(WouldBlock, WELL)
    ensures Stopped(Run(delayed, labels + more)) || CaughtUp(Run(delayed, labels + more))
    decreases Backlog(Run(delayed, labels))
  {
    var c := Run(delayed, labels);
    if Stopped(c) || CaughtUp(c) {
      AppendEmpty(labels);
      more := [];
    } else {
      var r := Read(WouldBlock, WELL);
      ReadSideIsSound(delayed, labels);
      ReadyRound(delayed, c);
      RunPush(delayed, labels, r);
      var c' := Run(delayed, labels + [r]);
      if Stopped(c') {
        more := [r];
      } else {
        var rest := ReadingCatchesUp(delayed, labels + [r]);
        AppendAssoc(labels, [r], rest);
        more := [r] + rest;
      }
    }
  }

  // ---------------------------------------------------------------------------
  // What every step keeps: the write side
  // ---------------------------------------------------------------------------

  /** What a request has contributed so far. */
  function Outgoing(s: Source): seq<seq<byte>> {
    if s.Single? then [s.message] else s.emitted
  }

  function Tagged(id: nat, messages: seq<seq<byte>>): (items: seq<WireItem>)
    ensures |items| == |messages|
    ensures forall i :: 0 <= i < |items| ==> items[i] == FromRequest(id, messages[i])
  {
    seq(|messages|, i requires 0 <= i < |messages| => FromRequest(id, messages[i]))
  }

  /** The contributions of the first `n` requests, one request after the other. */
  function WireOf(sources: seq<Source>, n: nat): seq<WireItem>
    requires n <= |sources|
  {
    if n == 0 then [] else WireOf(sources, n - 1) + Tagged(n - 1, Outgoing(sources[n - 1]))
  }

  ghost predicate WireKept(c: Conn) {
    && c.polled <= |c.sources|
    && c.wire == WireOf(c.sources, c.polled) + (if c.state == Closing then [Terminate] else [])
  }

  /** A COPY that was left behind has written everything it ever will. */
  ghost predicate CopyDone(s: Source) { s.Copy? ==> s.ended && s.queue == [] }

  ghost predicate CopyKept(c: Conn) {
    && c.polled <= |c.sources|
    && (c.pendingRequest.Some? ==>
          c.polled > 0 && c.pendingRequest.value == c.polled - 1 && c.sources[c.polled - 1].Copy?)
    && (forall i :: 0 <= i < c.polled && c.pendingRequest != Some(i) ==> CopyDone(c.sources[i]))
    && (forall i :: c.polled <= i < |c.sources| && c.sources[i].Copy? ==> c.sources[i].emitted == [])
  }

  ghost predicate ClosingKept(c: Conn) {
    && c.state != Terminating
    && (c.state == Closing ==>
          c.closed && c.polled == |c.sources| && c.responses == [] && c.pendingRequest == None)
  }

  ghost predicate WriteInvariant(c: Conn) { WireKept(c) && CopyKept(c) && ClosingKept(c) }

  lemma {:induction false} WireCongruent(s: seq<Source>, s': seq<Source>, n: nat)
    requires n <= |s| && n <= |s'|
    requires forall i :: 0 <= i < n ==> Outgoing(s[i]) == Outgoing(s'[i])
    ensures WireOf(s, n) == WireOf(s', n)
  {
    if n > 0 {
      WireCongruent(s, s', n - 1);
    }
  }

  /** What clients can do to a request: never touch what it has written, nor reopen it. */
  ghost predicate ClientStep(s: Source, s': Source) {
    (s'.Copy? <==> s.Copy?) && Outgoing(s') == Outgoing(s) && (CopyDone(s) ==> CopyDone(s'))
  }

  ghost predicate ClientSteps(s: seq<Source>, s': seq<Source>) {
    && |s| <= |s'|
    && (forall i :: 0 <= i < |s| ==> ClientStep(s[i], s'[i]))
    && (forall i :: |s| <= i < |s'| ==> s'[i].Copy? ==> s'[i].emitted == [])
  }

  lemma EnvIsClientSteps(c: Conn, e: EnvStep)
    ensures var c' := EnvNext(c, e);
            && ClientSteps(c.sources, c'.sources) && (c.closed ==> c'.closed && |c'.sources| == |c.sources|)
            && c'.wire == c.wire && c'.state == c.state && c'.polled == c.polled
            && c'.pendingRequest == c.pendingRequest && c'.responses == c.responses
  {}

  lemma ClientsKeepCopies(c: Conn, c': Conn)
    requires CopyKept(c) && ClientSteps(c.sources, c'.sources)
    requires c'.polled == c.polled && c'.pendingRequest == c.pendingRequest
    ensures CopyKept(c')
  {
    forall i | c.polled <= i < |c'.sources| && c'.sources[i].Copy? ensures c'.sources[i].emitted == [] {
      if i < |c.sources| {
        assert ClientStep(c.sources[i], c'.sources[i]);
      }
    }
  }

  lemma EnvKeepsWrite(c: Conn, e: EnvStep)
    requires WriteInvariant(c)
    ensures WriteInvariant(EnvNext(c, e))
  {
    var c' := EnvNext(c, e);
    EnvIsClientSteps(c, e);
    WireCongruent(c.sources, c'.sources, c.polled);
    ClientsKeepCopies(c, c');
  }

  /** The two states agree on what the write side looks at, apart from the waiting requests. */
  ghost predicate SameWriteSide(c: Conn, c': Conn) {
    && c'.wire == c.wire && c'.sources == c.sources && c'.polled == c.polled && c'.state == c.state
    && c'.pendingRequest == c.pendingRequest && c'.closed == c.closed
  }

  lemma PollIsSameWrite(c: Conn, socket: SocketPoll)
    ensures SameWriteSide(c, PollResponse(c, socket).0)
  {}

  lemma HandlingIsSameWrite(c: Conn, item: Item, answers: Answers)
    ensures SameWriteSide(c, if item.Async? then HandleAsync(c, item, answers).0 else Route(c, item, answers).0)
  {}

  lemma ReadIsSameWrite(c: Conn, socket: SocketPoll, answers: Answers)
    ensures SameWriteSide(c, ReadRound(c, socket, answers).0)
    ensures c.state != Active ==> ReadRound(c, socket, answers).0 == c
  {
    var p := PollResponse(c, socket);
    PollIsSameWrite(c, socket);
    if p.1.GotItem? {
      HandlingIsSameWrite(p.0, p.1.item, answers);
    }
  }

  lemma ReadKeepsWrite(c: Conn, socket: SocketPoll, answers: Answers)
    requires WriteInvariant(c)
    ensures WriteInvariant(ReadRound(c, socket, answers).0)
  {
    ReadIsSameWrite(c, socket, answers);
  }

  lemma TakeKeepsWire(c: Conn)
    requires WireKept(c) && c.polled < |c.sources| && c.state == Active
    ensures TakeRequest(c).wire + Tagged(c.polled, Outgoing(c.sources[c.polled])) == WireOf(c.sources, c.polled + 1)
  {
    AppendEmpty(WireOf(c.sources, c.polled));
  }

  lemma EmitKeepsWire(sources: seq<Source>, id: nat, emitted: Source, message: seq<byte>)
    requires id < |sources| && Outgoing(emitted) == Outgoing(sources[id]) + [message]
    ensures WireOf(sources[id := emitted], id + 1) == WireOf(sources, id + 1) + [FromRequest(id, message)]
  {
    WireCongruent(sources, sources[id := emitted], id);
    assert Tagged(id, Outgoing(emitted)) == Tagged(id, Outgoing(sources[id])) + [FromRequest(id, message)];
    AppendAssoc(WireOf(sources, id), Tagged(id, Outgoing(sources[id])), [FromRequest(id, message)]);
  }

  /** The request being written is the latest one polled, and is a COPY. */
  ghost predicate Copying(c: Conn) {
    && 0 < c.polled <= |c.sources| && c.sources[c.polled - 1].Copy? && c.state == Active
    && c.wire == WireOf(c.sources, c.polled)
    && (forall i :: 0 <= i < c.polled - 1 ==> CopyDone(c.sources[i]))
    && (forall i :: c.polled <= i < |c.sources| && c.sources[i].Copy? ==> c.sources[i].emitted == [])
  }

  lemma EmitKeepsCopies(c: Conn)
    requires Copying(c) && c.sources[c.polled - 1].queue != []
    ensures CopyKept(WriteCopy(c, c.polled - 1).0) && ClosingKept(WriteCopy(c, c.polled - 1).0)
  {}

  lemma EmitKeepsWrite(c: Conn)
    requires Copying(c) && c.sources[c.polled - 1].queue != []
    ensures WriteInvariant(WriteCopy(c, c.polled - 1).0)
  {
    var id := c.polled - 1;
    var s := c.sources[id];
    EmitKeepsWire(c.sources, id, s.(queue := s.queue[1..], emitted := s.emitted + [s.queue[0]]), s.queue[0]);
    EmitKeepsCopies(c);
    AppendEmpty(WriteCopy(c, id).0.wire);
  }

  lemma CopyKeepsWrite(c: Conn)
    requires Copying(c)
    ensures WriteInvariant(WriteCopy(c, c.polled - 1).0)
  {
    if c.sources[c.polled - 1].queue != [] {
      EmitKeepsWrite(c);
    } else {
      AppendEmpty(c.wire);
    }
  }

  lemma TakeKeepsWrite(c: Conn, sink: SinkPoll)
    requires WriteInvariant(c) && c.pendingRequest == None && c.polled < |c.sources| && c.state == Active
    requires c.failure.None? && sink.SinkReady?
    ensures WriteInvariant(WriteRound(c, sink).0)
  {
    var c' := TakeRequest(c);
    TakeKeepsWire(c);
    AppendEmpty(c.wire);
    if c.sources[c.polled].Copy? {
      assert Copying(c');
      CopyKeepsWrite(c');
    } else {
      assert Tagged(c.polled, [c.sources[c.polled].message]) == [FromRequest(c.polled, c.sources[c.polled].message)];
      AppendEmpty(WireOf(c.sources, c.polled + 1));
    }
  }

  lemma RetryIsCopying(c: Conn)
    requires WriteInvariant(c) && c.pendingRequest.Some? && c.state == Active
    ensures Copying(c) && c.pendingRequest.value == c.polled - 1
  {
    AppendEmpty(c.wire);
  }

  lemma RetryWritesCopy(c: Conn, sink: SinkPoll)
    requires c.failure.None? && c.state != Closing && sink.SinkReady? && c.pendingRequest.Some?
    requires c.pendingRequest.value < |c.sources| && c.sources[c.pendingRequest.value].Copy?
    ensures WriteRound(c, sink) == WriteCopy(c, c.pendingRequest.value)
  {}

  lemma RetryKeepsWrite(c: Conn, sink: SinkPoll)
    requires WriteInvariant(c) && c.pendingRequest.Some? && c.state == Active && c.failure.None? && sink.SinkReady?
    ensures WriteInvariant(WriteRound(c, sink).0)
  {
    RetryIsCopying(c);
    RetryWritesCopy(c, sink);
    CopyKeepsWrite(c);
  }

  lemma EndKeepsWrite(c: Conn, sink: SinkPoll)
    requires WriteInvariant(c) && c.pendingRequest.None? && c.polled == |c.sources|
    requires c.state == Active && c.failure.None? && sink.SinkReady?
    ensures WriteInvariant(WriteRound(c, sink).0)
  {
    AppendEmpty(c.wire);
  }

  lemma WriteKeepsWrite(c: Conn, sink: SinkPoll)
    requires WriteInvariant(c)
    ensures WriteInvariant(WriteRound(c, sink).0)
  {
    if c.failure.None? && c.state == Active && sink.SinkReady? {
      if c.pendingRequest.Some? {
        RetryKeepsWrite(c, sink);
      } else if c.polled < |c.sources| {
        TakeKeepsWrite(c, sink);
      } else {
        EndKeepsWrite(c, sink);
      }
    }
  }

  lemma {:induction false} WriteSideIsSound(delayed: seq<Frame>, labels: seq<Label>)
    ensures WriteInvariant(Run(delayed, labels))
  {
    if labels != [] {
      var c := Run(delayed, Front(labels));
      WriteSideIsSound(delayed, Front(labels));
      match Last(labels)
      case Env(e) => EnvKeepsWrite(c, e);
      case Read(socket, answers) => ReadKeepsWrite(c, socket, answers);
      case Write(sink) => WriteKeepsWrite(c, sink);
    }
  }

  // ---------------------------------------------------------------------------
  // The write side over whole runs
  // ---------------------------------------------------------------------------

  lemma {:induction false} RequestsAreNotTerminate(sources: seq<Source>, n: nat, i: nat)
    requires n <= |sources| && i < |WireOf(sources, n)|
    ensures WireOf(sources, n)[i].FromRequest? && WireOf(sources, n)[i].id < n
  {
    if i < |WireOf(sources, n - 1)| {
      RequestsAreNotTerminate(sources, n - 1, i);
    }
  }

  /** Which positions of the wire hold the farewell. */
  ghost predicate TerminateOnlyLast(c: Conn) {
    forall i :: 0 <= i < |c.wire| && c.wire[i] == Terminate ==> c.state == Closing && i == |c.wire| - 1
  }

  lemma WireKeepsTerminateLast(c: Conn)
    requires WireKept(c)
    ensures TerminateOnlyLast(c)
  {
    forall i | 0 <= i < |c.wire| && c.wire[i] == Terminate ensures c.state == Closing && i == |c.wire| - 1 {
      if i < |WireOf(c.sources, c.polled)| {
        assert c.wire[i] == WireOf(c.sources, c.polled)[i];
        RequestsAreNotTerminate(c.sources, c.polled, i);
      }
    }
  }

  /**
   The wire carries the requests in queue order, the messages of each one contiguous, a
   COPY being complete before the next request begins. Terminate comes at most once and
   last: when clients can enqueue nothing more, and every request has been written in
   full and answered.
   */
  lemma WireIsExact(delayed: seq<Frame>, labels: seq<Label>)
    requires AllNotices(delayed)
    ensures var c := Run(delayed, labels);
            && c.polled <= |c.sources|
            && c.wire == WireOf(c.sources, c.polled) + (if c.state == Closing then [Terminate] else [])
            && (forall i :: 0 <= i < c.polled - 1 ==> CopyDone(c.sources[i]))
            && TerminateOnlyLast(c)
            && (c.state == Closing ==>
                  && c.closed && c.polled == |c.sources| == Answered(c)
                  && forall i :: 0 <= i < |c.sources| ==> CopyDone(c.sources[i]))
  {
    WriteSideIsSound(delayed, labels);
    ReadSideIsSound(delayed, labels);
    WireKeepsTerminateLast(Run(delayed, labels));
  }

  // nothing gets stuck

  /** Everything a request has to write, written or not. */
  function Full(s: Source): seq<seq<byte>> {
    if s.Single? then [s.message] else s.emitted + s.queue
  }

  ghost predicate SameRequests(a: seq<Source>, b: seq<Source>) {
    |a| == |b| && forall i :: 0 <= i < |a| ==> Full(a[i]) == Full(b[i]) && (CopyEnded(a[i]) <==> CopyEnded(b[i]))
  }

  predicate CopyEnded(s: Source) { s.Copy? ==> s.ended }

  /** The COPY being written is drained, but the client has not ended it. */
  predicate WaitsForCopy(c: Conn) {
    && c.pendingRequest.Some? && c.pendingRequest.value < |c.sources|
    && var s := c.sources[c.pendingRequest.value]; s.Copy? && s.queue == [] && !s.ended
  }

  /** Nothing is left to be written, the farewell included. */
  predicate WrittenOut(c: Conn) {
    c.pendingRequest.None? && c.polled == |c.sources| && (c.state == Closing <==> c.closed && c.responses == [])
  }

  function Weight(s: Source): nat { if s.Copy? then |s.queue| + 2 else 2 }

  function WeightFrom(sources: seq<Source>, i: nat): nat
    decreases |sources| - i
  {
    if i >= |sources| then 0 else Weight(sources[i]) + WeightFrom(sources, i + 1)
  }

  /** What is left to be done, a request being written counting a little less than one not begun. */
  function Work(c: Conn): nat {
    WeightFrom(c.sources, if c.pendingRequest.Some? then c.pendingRequest.value else c.polled)
    + (if c.pendingRequest.Some? then 0 else 1) + if c.state == Active then 1 else 0
  }

  lemma {:induction false} WeightCongruent(s: seq<Source>, s': seq<Source>, i: nat)
    requires |s| == |s'| && i <= |s| && forall j :: i <= j < |s| ==> s[j] == s'[j]
    ensures WeightFrom(s, i) == WeightFrom(s', i)
    decreases |s| - i
  {
    if i < |s| {
      WeightCongruent(s, s', i + 1);
    }
  }

  /** The states before and after a round that gets something done. */
  ghost predicate GetsOn(c: Conn, c': Conn) {
    && WriteInvariant(c) && WriteInvariant(c') && Work(c') < Work(c)
    && c'.failure.None? && c'.closed == c.closed && SameRequests(c.sources, c'.sources)
    && (c'.state == Closing ==> WrittenOut(c'))
  }

  lemma EmitIsLighter(sources: seq<Source>, id: nat, s: Source, s': Source)
    requires id < |sources| && s == sources[id] && s.Copy? && s.queue != []
    requires s' == s.(queue := s.queue[1..], emitted := s.emitted + [s.queue[0]])
    ensures WeightFrom(sources[id := s'], id) + 1 == WeightFrom(sources, id)
    ensures SameRequests(sources, sources[id := s'])
  {
    WeightCongruent(sources, sources[id := s'], id + 1);
    assert s.emitted + [s.queue[0]] + s.queue[1..] == s.emitted + s.queue;
  }

  lemma WriteCopyEmits(c: Conn, id: nat, s: Source, s': Source)
    requires id < |c.sources| && s == c.sources[id] && s.Copy? && s.queue != []
    requires s' == s.(queue := s.queue[1..], emitted := s.emitted + [s.queue[0]])
    ensures var c' := WriteCopy(c, id).0;
            && c'.sources == c.sources[id := s'] && c'.pendingRequest == Some(id) && c'.state == c.state
            && c'.failure == c.failure && c'.closed == c.closed && c'.polled == c.polled
  {}

  lemma EmitIsWork(c: Conn, c': Conn, id: nat, s': Source)
    requires id < |c.sources| && c'.sources == c.sources[id := s'] && c'.pendingRequest == Some(id) && c'.state == c.state
    requires c.pendingRequest == Some(id) || (c.pendingRequest.None? && c.polled == id)
    requires WeightFrom(c.sources[id := s'], id) + 1 == WeightFrom(c.sources, id)
    ensures Work(c') < Work(c)
  {}

  /** `c` is the state in which the COPY is being written, `before` the one before the round. */
  lemma EmitGetsOn(before: Conn, c: Conn, id: nat, c': Conn)
    requires Copying(c) && id == c.polled - 1 && c.sources[id].queue != [] && c' == WriteCopy(c, id).0
    requires WriteInvariant(before) && !Stopped(before)
    requires before.sources == c.sources && before.closed == c.closed && before.state == c.state && before.failure == c.failure
    requires before.pendingRequest == Some(id) || (before.pendingRequest.None? && before.polled == id)
    ensures GetsOn(before, c')
  {
    var s := c.sources[id];
    var s' := s.(queue := s.queue[1..], emitted := s.emitted + [s.queue[0]]);
    CopyKeepsWrite(c);
    WriteCopyEmits(c, id, s, s');
    EmitIsLighter(c.sources, id, s, s');
    EmitIsWork(before, c', id, s');
  }

  lemma CopyGetsOn(c: Conn)
    requires WriteInvariant(c) && !Stopped(c) && c.pendingRequest.Some? && !WaitsForCopy(c)
    ensures GetsOn(c, WriteRound(c, SinkReady).0)
  {
    RetryIsCopying(c);
    if c.sources[c.polled - 1].queue != [] {
      EmitGetsOn(c, c, c.polled - 1, WriteCopy(c, c.polled - 1).0);
    } else {
      CopyKeepsWrite(c);
    }
  }

  lemma TakeAndEmit(c: Conn)
    requires WriteInvariant(c) && !Stopped(c) && c.pendingRequest.None? && c.polled < |c.sources|
    requires c.sources[c.polled].Copy? && c.sources[c.polled].queue != []
    ensures GetsOn(c, WriteRound(c, SinkReady).0)
  {
    var t := TakeRequest(c);
    TakeKeepsWire(c);
    AppendEmpty(c.wire);
    EmitGetsOn(c, t, c.polled, WriteCopy(t, c.polled).0);
    assert WriteRound(c, SinkReady).0 == WriteCopy(t, c.polled).0;
  }

  lemma TakeAndLeave(c: Conn)
    requires WriteInvariant(c) && !Stopped(c) && c.pendingRequest.None? && c.polled < |c.sources|
    requires c.sources[c.polled].Copy? ==> c.sources[c.polled].queue == []
    ensures GetsOn(c, WriteRound(c, SinkReady).0)
  {
    TakeKeepsWrite(c, SinkReady);
  }

  lemma TakeGetsOn(c: Conn)
    requires WriteInvariant(c) && !Stopped(c) && c.pendingRequest.None? && c.polled < |c.sources|
    ensures GetsOn(c, WriteRound(c, SinkReady).0)
  {
    if c.sources[c.polled].Copy? && c.sources[c.polled].queue != [] {
      TakeAndEmit(c);
    } else {
      TakeAndLeave(c);
    }
  }

  lemma ReadyWrite(c: Conn)
    requires WriteInvariant(c) && !Stopped(c) && !WaitsForCopy(c) && !WrittenOut(c)
    ensures GetsOn(c, WriteRound(c, SinkReady).0)
  {
    if c.pendingRequest.Some? {
      CopyGetsOn(c);
    } else if c.polled < |c.sources| {
      TakeGetsOn(c);
    } else {
      EndKeepsWrite(c, SinkReady);
    }
  }

  /** All is written that can be: up to a COPY that has not ended, or everything. */
  ghost predicate WrittenUp(before: seq<Source>, c: Conn) {
    && c.failure.None? && SameRequests(before, c.sources) && c.polled <= |c.sources|
    && (forall i :: 0 <= i < c.polled ==> Outgoing(c.sources[i]) == Full(before[i]))
    && (WaitsForCopy(c) || WrittenOut(c))
  }

  lemma DoneIsFull(before: seq<Source>, c: Conn)
    requires WriteInvariant(c) && c.failure.None? && SameRequests(before, c.sources)
    requires WaitsForCopy(c) || WrittenOut(c)
    ensures WrittenUp(before, c)
  {
    forall i | 0 <= i < c.polled ensures Outgoing(c.sources[i]) == Full(before[i]) {
      assert Full(c.sources[i]) == Full(before[i]);
      assert c.pendingRequest == Some(i) || CopyDone(c.sources[i]);
    }
  }

  lemma WrittenUpBefore(c: Conn, c': Conn, end: Conn)
    requires GetsOn(c, c') && WrittenUp(c'.sources, end)
    ensures WrittenUp(c.sources, end)
  {}

  /** Writing may go on, or there is nothing left to write. */
  predicate CanWrite(c: Conn) { c.failure.None? && (c.state == Active || WrittenOut(c)) }

  /** The state after so many rounds of the write loop, the socket being ready. */
  function AfterWrites(c: Conn, n: nat): Conn
    decreases n
  {
    if n == 0 then c else AfterWrites(WriteRound(c, SinkReady).0, n - 1)
  }

  function Writes(n: nat): (labels: seq<Label>)
    ensures |labels| == n && forall i :: 0 <= i < n ==> labels[i] == Write(SinkReady)
  {
    if n == 0 then [] else [Write(SinkReady)] + Writes(n - 1)
  }

  lemma {:induction false} WritesAreRounds(delayed: seq<Frame>, labels: seq<Label>, c: Conn, n: nat)
    requires c == Run(delayed, labels)
    ensures Run(delayed, labels + Writes(n)) == AfterWrites(c, n)
    decreases n
  {
    if n == 0 {
      AppendEmpty(labels);
    } else {
      var w := [Write(SinkReady)];
      var c' := WriteRun(delayed, labels, c, labels + w);
      WritesAreRounds(delayed, labels + w, c', n - 1);
      WriteFirst(c, c', n);
      AppendAssoc(labels, w, Writes(n - 1));
    }
  }

  lemma WriteRun(delayed: seq<Frame>, labels: seq<Label>, c: Conn, next: seq<Label>) returns (c': Conn)
    requires c == Run(delayed, labels) && next == labels + [Write(SinkReady)]
    ensures c' == WriteRound(c, SinkReady).0 && c' == Run(delayed, next)
  {
    c' := WriteRound(c, SinkReady).0;
    RunPush(delayed, labels, Write(SinkReady));
  }

  lemma WriteFirst(c: Conn, c': Conn, n: nat)
    requires n > 0 && c' == WriteRound(c, SinkReady).0
    ensures AfterWrites(c, n) == AfterWrites(c', n - 1) && Writes(n) == [Write(SinkReady)] + Writes(n - 1)
  {}

  lemma WriteStep(c: Conn) returns (c': Conn)
    requires WriteInvariant(c) && CanWrite(c) && !WaitsForCopy(c) && !WrittenOut(c)
    ensures forall n: nat :: AfterWrites(c, n + 1) == AfterWrites(c', n)
    ensures GetsOn(c, c') && CanWrite(c') && WriteInvariant(c') && Work(c') < Work(c) && c'.closed == c.closed
  {
    c' := WriteRound(c, SinkReady).0;
    ReadyWrite(c);
  }

  lemma {:induction false} WritingGoesOn(c: Conn) returns (n: nat, end: Conn)
    requires WriteInvariant(c) && CanWrite(c)
    ensures end == AfterWrites(c, n) && WrittenUp(c.sources, end) && end.closed == c.closed
    decreases Work(c)
  {
    if WaitsForCopy(c) || WrittenOut(c) {
      DoneIsFull(c.sources, c);
      n, end := 0, c;
    } else {
      var c' := WriteStep(c);
      n, end := WritingGoesOn(c');
      WrittenUpBefore(c, c', end);
      n := n + 1;
    }
  }

  /**
   From every reachable state in which the connection goes on, writing alone puts the whole
   of every request on the wire, in queue order, up to the first COPY its client has not
   ended; when there is none, all requests and, exactly when clients can enqueue nothing more
   and everything is answered, Terminate behind them.
   */
  lemma WritingCatchesUp(delayed: seq<Frame>, labels: seq<Label>) returns (n: nat)
    requires AllNotices(delayed) && !Stopped(Run(delayed, labels))
    ensures var before, c := Run(delayed, labels).sources, Run(delayed, labels + Writes(n));
            && c.polled <= |before| == |c.sources|
            && (forall i :: 0 <= i < c.polled ==> Outgoing(c.sources[i]) == Full(before[i]))
            && c.wire == WireOf(c.sources, c.polled) + (if c.state == Closing then [Terminate] else [])
            && (WaitsForCopy(c) || (c.polled == |before| &&
                  (c.state == Closing <==> Run(delayed, labels).closed && Answered(c) == |before|)))
            && ((forall i :: 0 <= i < |before| ==> CopyEnded(before[i])) ==> !WaitsForCopy(c))
  {
    var end;
    WriteSideIsSound(delayed, labels);
    n, end := WritingGoesOn(Run(delayed, labels));
    WritesAreRounds(delayed, labels, Run(delayed, labels), n);
    WriteSideIsSound(delayed, labels + Writes(n));
    ReadSideIsSound(delayed, labels + Writes(n));
  }

  function Rank(s: State): nat {
    match s case Active => 0 case Terminating => 1 case Closing => 2
  }

  /** What never shrinks: the state's rank, the wire, and what each request has received. */
  ghost predicate Forward(c: Conn, c': Conn) {
    && Rank(c.state) <= Rank(c'.state) && c.wire <= c'.wire && c.arrived <= c'.arrived
    && c.processed <= c'.processed && |c.channels| <= |c'.channels|
    && forall k :: 0 <= k < |c.channels| ==>
         c.channels[k].received <= c'.channels[k].received && (c'.channels[k].alive ==> c.channels[k].alive)
  }

  lemma RouteIsForward(c: Conn, item: Item, answers: Answers)
    requires item.Normal?
    ensures Forward(c, Route(c, item, answers).0)
  {}

  lemma PollIsForward(c: Conn, socket: SocketPoll)
    ensures var c' := PollResponse(c, socket).0;
            && c' == c.(stream := c'.stream, pendingResponses := c'.pendingResponses)
            && Forward(c, c')
  {}

  lemma ReadIsForward(c: Conn, socket: SocketPoll, answers: Answers)
    ensures Forward(c, ReadRound(c, socket, answers).0)
  {
    if c.state == Active && c.failure.None? {
      var p := PollResponse(c, socket);
      PollIsForward(c, socket);
      if p.1.GotItem? && p.1.item.Normal? {
        RouteIsForward(p.0, p.1.item, answers);
        ForwardTwice(c, p.0, Route(p.0, p.1.item, answers).0);
      }
    }
  }

  lemma SendIsForward(c: Conn, id: nat)
    requires id < |c.sources|
    ensures Forward(c, Send(c, id).0)
  {}

  lemma WriteIsForward(c: Conn, sink: SinkPoll)
    ensures Forward(c, WriteRound(c, sink).0)
  {
    if c.pendingRequest.Some? && c.pendingRequest.value < |c.sources| {
      SendIsForward(c, c.pendingRequest.value);
    } else if c.polled < |c.sources| {
      SendIsForward(TakeRequest(c), c.polled);
    }
  }

  lemma EnvIsForward(c: Conn, e: EnvStep)
    ensures Forward(c, EnvNext(c, e))
  {
    if e.ClientPolls? && e.id < |c.channels| {
      PollingReadsNext(c.channels[e.id]);
    }
  }

  lemma StepIsForward(c: Conn, l: Label)
    ensures Forward(c, Next(c, l))
  {
    match l
    case Env(e) => EnvIsForward(c, e);
    case Read(socket, answers) => ReadIsForward(c, socket, answers);
    case Write(sink) => WriteIsForward(c, sink);
  }

  /** However a run goes on, the state only moves forward and nothing already done is undone. */
  lemma {:induction false} RunIsForward(delayed: seq<Frame>, labels: seq<Label>, more: seq<Label>)
    ensures Forward(Run(delayed, labels), Run(delayed, labels + more))
  {
    if more == [] {
      AppendEmpty(labels);
    } else {
      RunIsForward(delayed, labels, Front(more));
      assert Front(labels + more) == labels + Front(more);
      StepIsForward(Run(delayed, labels + Front(more)), Last(more));
      ForwardTwice(Run(delayed, labels), Run(delayed, labels + Front(more)), Run(delayed, labels + more));
    }
  }

  lemma ForwardTwice(a: Conn, b: Conn, c: Conn)
    requires Forward(a, b) && Forward(b, c)
    ensures Forward(a, c)
  {}
}
