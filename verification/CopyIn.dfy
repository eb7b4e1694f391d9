/**
 The data path of COPY ... FROM STDIN: a blocking writer fills a sink, the sink hands
 chunks to a channel, and the connection's receiver turns them into messages.
 */
module CopyIn {
  import opened Wrappers
  import opened Bytes
  import opened Sequences
  import opened Framing
  import opened Characters

  const CHUNK := 4096

  /** What travels through the channel. */
  datatype CopyInMessage = Raw(bytes: seq<byte>) | CopyData(payload: seq<byte>) | Done

  datatype Channel = Channel(queue: seq<CopyInMessage>, open: bool, alive: bool)

  datatype SinkState = Active | Closing | Reading

  datatype Sink = Sink(buf: seq<byte>, state: SinkState, channel: Channel)

  datatype SendResult = Accepted | TooLong | Disconnected

  datatype PollResult = Ready | Pending | Aborted

  /** What the receiver gives the connection to write. */
  datatype Emission = Head(bytes: seq<byte>) | Data(payload: seq<byte>) | DoneSync | FailSync

  datatype Received = Item(emission: Emission) | Waiting | Ended

  // ---------------------------------------------------------------------------
  // The operations
  // ---------------------------------------------------------------------------

  predicate Connected(ch: Channel) { ch.open && ch.alive }

  function Push(s: Sink, m: CopyInMessage): Sink {
    s.(channel := s.channel.(queue := s.channel.queue + [m]))
  }

  /** The length field of a CopyData message counts itself and must fit 32 bits. */
  predicate LengthFits(payload: seq<byte>) { |payload| + 4 <= I32_MAX }

  function StartSend(s: Sink, item: seq<byte>): (Sink, SendResult) {
    var data := s.buf + item;
    if |item| <= CHUNK && |data| <= CHUNK then (s.(buf := data), Accepted)
    else if !LengthFits(data) then (s.(buf := []), TooLong)
    else if !Connected(s.channel) then (s.(buf := []), Disconnected)
    else (Push(s.(buf := []), CopyData(data)), Accepted)
  }

  /** `room` and `flushed` are the channel's answers. */
  function Flush(s: Sink, room: bool, flushed: bool): (Sink, PollResult) {
    if s.buf == [] then (s, if flushed || !Connected(s.channel) then Ready else Pending)
    else if !Connected(s.channel) then (s, Aborted)
    else if !room then (s, Pending)
    else if !LengthFits(s.buf) then (s.(buf := []), Aborted)
    else (Push(s.(buf := []), CopyData(s.buf)), if flushed then Ready else Pending)
  }

  /** The part of finishing that sends; afterwards the server's reply is awaited. */
  function Finish(s: Sink, room: bool, flushed: bool, roomForDone: bool): (Sink, PollResult) {
    if s.state == Reading then (s, Ready)
    else if s.state == Closing then (s.(state := Reading, channel := s.channel.(open := false)), Ready)
    else
      var (f, r) := Flush(s, room, flushed);
      if !r.Ready? then (f, r)
      else if !Connected(f.channel) then (f, Aborted)
      else if !roomForDone then (f, Pending)
      else
        var d := Push(f, Done);
        (d.(state := Reading, channel := d.channel.(open := false)), Ready)
  }

  /** What the server has answered to the COPY by now. */
  datatype Reply = NoReply | CommandComplete(tag: string) | OtherReply | ReplyError

  datatype FinishResult = FinishPending | FinishFailed | Finished(rows: nat)

  function LastWord(s: string): (w: string)
    ensures |w| <= |s|
  {
    if s == "" || Last(s) == ' ' then "" else LastWord(Front(s)) + [Last(s)]
  }

  /** The number a command tag ends with, and 0 when it ends with none. */
  function RowsAffected(tag: string): nat {
    var n := ParseInt(LastWord(tag), 0, U64_MAX);
    if n.Some? && n.value >= 0 then n.value else 0
  }

  /** The result of one call of `poll_finish`, whose sending part ended with `sending`. */
  function FinishedWith(sending: PollResult, reply: Reply): FinishResult {
    match sending
    case Pending => FinishPending
    case Aborted => FinishFailed
    case Ready =>
      match reply
      case NoReply => FinishPending
      case CommandComplete(tag) => Finished(RowsAffected(tag))
      case OtherReply => FinishFailed
      case ReplyError => FinishFailed
  }

  function PollNext(ch: Channel, done: bool): (Channel, bool, Received) {
    if done then (ch, done, Ended)
    else if ch.queue != [] then
      var rest := ch.(queue := ch.queue[1..]);
      match ch.queue[0]
      case Raw(bytes) => (rest, false, Item(Head(bytes)))
      case CopyData(payload) => (rest, false, Item(Data(payload)))
      case Done => (rest, true, Item(DoneSync))
    else if ch.open then (ch, false, Waiting)
    else (ch, true, Item(FailSync))
  }

  // ---------------------------------------------------------------------------
  // One COPY, all parties together
  // ---------------------------------------------------------------------------

  /** `accepted` is what the user handed over successfully. */
  datatype Copy = Copy(
    writerBuf: seq<byte>, sink: Sink, receiverDone: bool, emitted: seq<Emission>, accepted: seq<byte>)

  function Initial(head: seq<byte>): Copy {
    Copy([], Sink([], Active, Channel([Raw(head)], true, true)), false, [], [])
  }

  datatype Label =
    | Send(item: seq<byte>)
    | WriterAppend(bytes: seq<byte>) | WriterHandOver
    | PollFlush(room: bool, flushed: bool)
    | PollFinish(room: bool, flushed: bool, roomForDone: bool)
    | DropSink
    | Receive | DropReceiver

  /** A sink takes data until it is finished or dropped. */
  predicate Usable(c: Copy) { c.sink.state == Active && c.sink.channel.open }

  function Next(c: Copy, l: Label): Copy {
    match l
    case Send(item) =>
      if !Usable(c) || c.writerBuf != [] then c else
        var (s, r) := StartSend(c.sink, item);
        c.(sink := s, accepted := if r.Accepted? then c.accepted + item else c.accepted)
    case WriterAppend(bytes) =>
      if !Usable(c) then c else c.(writerBuf := c.writerBuf + bytes, accepted := c.accepted + bytes)
    case WriterHandOver =>
      if !Usable(c) || c.writerBuf == [] then c else
        c.(sink := StartSend(c.sink, c.writerBuf).0, writerBuf := [])
    case PollFlush(room, flushed) =>
      if !Usable(c) then c else c.(sink := Flush(c.sink, room, flushed).0)
    case PollFinish(room, flushed, roomForDone) =>
      if !Usable(c) || c.writerBuf != [] then c
      else c.(sink := Finish(c.sink, room, flushed, roomForDone).0)
    case DropSink => c.(sink := c.sink.(channel := c.sink.channel.(open := false)))
    case Receive =>
      if !c.sink.channel.alive then c else
        var (ch, done, r) := PollNext(c.sink.channel, c.receiverDone);
        c.(sink := c.sink.(channel := ch), receiverDone := done,
           emitted := if r.Item? then c.emitted + [r.emission] else c.emitted)
    case DropReceiver => c.(sink := c.sink.(channel := c.sink.channel.(alive := false, queue := [])))
  }

  /** The state after the labels, the last one coming last. */
  function Run(head: seq<byte>, labels: seq<Label>): Copy {
    if labels == [] then Initial(head) else Next(Run(head, Front(labels)), Last(labels))
  }

  // ---------------------------------------------------------------------------
  // Conservation
  // ---------------------------------------------------------------------------

  function Payload(m: CopyInMessage): seq<byte> { if m.CopyData? then m.payload else [] }

  function PayloadOf(e: Emission): seq<byte> { if e.Data? then e.payload else [] }

  function Queued(q: seq<CopyInMessage>): seq<byte> {
    if q == [] then [] else Payload(q[0]) + Queued(q[1..])
  }

  function Emitted(es: seq<Emission>): seq<byte> {
    if es == [] then [] else Emitted(Front(es)) + PayloadOf(Last(es))
  }

  /** The bytes between the user and the wire, in order. */
  function InFlight(c: Copy): seq<byte> {
    Queued(c.sink.channel.queue) + (c.sink.buf + c.writerBuf)
  }

  /** The step joins to accepted bytes an item with which the length does not fit any more. */
  predicate JoinsTooMuch(c: Copy, l: Label) {
    Usable(c) &&
    match l
    case Send(item) => c.writerBuf == [] && c.sink.buf != [] && !LengthFits(c.sink.buf + item)
    case WriterHandOver => c.writerBuf != [] && !LengthFits(c.sink.buf + c.writerBuf)
    case _ => false
  }

  /** Some step of the run does so. */
  predicate EverJoinsTooMuch(head: seq<byte>, labels: seq<Label>) {
    labels != [] &&
    (EverJoinsTooMuch(head, Front(labels)) || JoinsTooMuch(Run(head, Front(labels)), Last(labels)))
  }

  /** All accepted bytes, in order: written, or still on their way. */
  ghost predicate AllThere(c: Copy) { Emitted(c.emitted) + InFlight(c) == c.accepted }

  ghost predicate SomeMissing(c: Copy) { |Emitted(c.emitted)| + |InFlight(c)| < |c.accepted| }

  /** `lost` says whether accepted bytes were thrown away. */
  ghost predicate Conserved(c: Copy, lost: bool) {
    && (c.sink.channel.alive || c.receiverDone ==> if lost then SomeMissing(c) else AllThere(c))
    && (!lost ==> Emitted(c.emitted) <= c.accepted)
    && |c.sink.buf| <= CHUNK
  }

  lemma {:induction false} QueuedPush(q: seq<CopyInMessage>, m: CopyInMessage)
    ensures Queued(q + [m]) == Queued(q) + Payload(m)
  {
    if q == [] {
      AppendEmpty([m]);
      AppendEmpty(Payload(m));
    } else {
      assert (q + [m])[1..] == q[1..] + [m];
      QueuedPush(q[1..], m);
      AppendAssoc(Payload(q[0]), Queued(q[1..]), Payload(m));
    }
  }

  lemma EmittedPush(es: seq<Emission>, e: Emission)
    ensures Emitted(es + [e]) == Emitted(es) + PayloadOf(e)
  {
    assert Front(es + [e]) == es;
  }

  /** What the sink holds, and what it has put into the channel. */
  function Held(s: Sink): seq<byte> { Queued(s.channel.queue) + s.buf }

  lemma SendHolds(s: Sink, item: seq<byte>)
    ensures var (s', r) := StartSend(s, item);
            && (r.Accepted? ==> Held(s') == Held(s) + item)
            && |s'.buf| <= CHUNK
            && s'.channel.alive == s.channel.alive
            && (r.Disconnected? ==> !Connected(s.channel))
            && (r.TooLong? <==> !LengthFits(s.buf + item))
            && (r.TooLong? ==> s' == s.(buf := []) && |Held(s')| + |s.buf| == |Held(s)|)
            && s'.channel.open == s.channel.open && s'.state == s.state
  {
    var data := s.buf + item;
    QueuedPush(s.channel.queue, CopyData(data));
    AppendAssoc(Queued(s.channel.queue), s.buf, item);
    AppendEmpty(Queued(s.channel.queue) + data);
  }

  lemma FlushHolds(s: Sink, room: bool, flushed: bool)
    requires |s.buf| <= CHUNK
    ensures var (s', r) := Flush(s, room, flushed);
            && Held(s') == Held(s) && |s'.buf| <= CHUNK && s'.channel.alive == s.channel.alive
            && s'.channel.open == s.channel.open && s'.state == s.state
            && (r.Ready? ==> s'.buf == [])
  {
    QueuedPush(s.channel.queue, CopyData(s.buf));
    AppendEmpty(Held(s));
  }

  lemma FinishHolds(s: Sink, room: bool, flushed: bool, roomForDone: bool)
    requires |s.buf| <= CHUNK && s.state == Active
    ensures var (s', r) := Finish(s, room, flushed, roomForDone);
            && Held(s') == Held(s) && |s'.buf| <= CHUNK && s'.channel.alive == s.channel.alive
            && (s'.state == Reading ==> s'.buf == [])
  {
    FlushHolds(s, room, flushed);
    var f := Flush(s, room, flushed).0;
    QueuedPush(f.channel.queue, Done);
    AppendEmpty(Queued(f.channel.queue));
  }

  lemma InFlightHeld(c: Copy)
    ensures InFlight(c) == Held(c.sink) + c.writerBuf
  {
    AppendAssoc(Queued(c.sink.channel.queue), c.sink.buf, c.writerBuf);
  }

  lemma InitialConserves(head: seq<byte>)
    ensures Conserved(Initial(head), false)
  {
    assert [Raw(head)][1..] == [];
    assert Queued([Raw(head)]) == [];
  }

  lemma SendConserves(c: Copy, item: seq<byte>, lost: bool)
    requires Conserved(c, lost) && (c.receiverDone ==> !Usable(c))
    ensures Conserved(Next(c, Send(item)), lost || JoinsTooMuch(c, Send(item)))
  {
    var c' := Next(c, Send(item));
    SendHolds(c.sink, item);
    InFlightHeld(c);
    InFlightHeld(c');
    AppendEmpty(Held(c.sink));
    AppendEmpty(Held(c'.sink));
    AppendAssoc(Emitted(c.emitted), Held(c.sink), item);
  }

  lemma AppendConserves(c: Copy, bytes: seq<byte>, lost: bool)
    requires Conserved(c, lost)
    ensures Conserved(Next(c, WriterAppend(bytes)), lost)
  {
    var c' := c.(writerBuf := c.writerBuf + bytes, accepted := c.accepted + bytes);
    InFlightHeld(c);
    InFlightHeld(c');
    AppendAssoc(Held(c.sink), c.writerBuf, bytes);
    AppendAssoc(Emitted(c.emitted), InFlight(c), bytes);
  }

  lemma HandOverConserves(c: Copy, lost: bool)
    requires Conserved(c, lost) && (c.receiverDone ==> !Usable(c))
    ensures Conserved(Next(c, WriterHandOver), lost || JoinsTooMuch(c, WriterHandOver))
  {
    var c' := Next(c, WriterHandOver);
    SendHolds(c.sink, c.writerBuf);
    InFlightHeld(c);
    InFlightHeld(c');
    AppendEmpty(Held(c'.sink));
  }

  lemma SinkConserves(c: Copy, s: Sink, lost: bool)
    requires Conserved(c, lost) && Held(s) == Held(c.sink) && |s.buf| <= CHUNK
    requires s.channel.alive == c.sink.channel.alive
    ensures Conserved(c.(sink := s), lost)
  {
    InFlightHeld(c);
    InFlightHeld(c.(sink := s));
  }

  lemma ReceiveConserves(c: Copy, lost: bool)
    requires Conserved(c, lost)
    ensures Conserved(Next(c, Receive), lost)
  {
    var c' := Next(c, Receive);
    var q := c.sink.channel.queue;
    if c.sink.channel.alive {
      var r := PollNext(c.sink.channel, c.receiverDone).2;
      if r.Item? {
        EmittedPush(c.emitted, r.emission);
        AppendEmpty(Emitted(c.emitted));
        if q != [] {
          AppendAssoc(Payload(q[0]), Queued(q[1..]), c.sink.buf + c.writerBuf);
          AppendAssoc(Emitted(c.emitted), PayloadOf(r.emission), InFlight(c'));
        }
      }
    }
  }

  lemma StepConserves(c: Copy, l: Label, lost: bool)
    requires Conserved(c, lost) && TerminatorKept(c)
    ensures Conserved(Next(c, l), lost || JoinsTooMuch(c, l))
  {
    match l
    case Send(item) => SendConserves(c, item, lost);
    case WriterAppend(bytes) => AppendConserves(c, bytes, lost);
    case WriterHandOver => HandOverConserves(c, lost);
    case PollFlush(room, flushed) =>
      FlushHolds(c.sink, room, flushed);
      SinkConserves(c, Flush(c.sink, room, flushed).0, lost);
    case PollFinish(room, flushed, roomForDone) =>
      if Usable(c) {
        FinishHolds(c.sink, room, flushed, roomForDone);
        SinkConserves(c, Finish(c.sink, room, flushed, roomForDone).0, lost);
      }
    case Receive => ReceiveConserves(c, lost);
    case DropSink =>
      SinkConserves(c, c.sink.(channel := c.sink.channel.(open := false)), lost);
    case DropReceiver =>
  }

  // ---------------------------------------------------------------------------
  // The terminator
  // ---------------------------------------------------------------------------

  predicate IsTerminator(e: Emission) { e.DoneSync? || e.FailSync? }

  /** Done is only ever queued last, when the sink has been finished. */
  ghost predicate DoneIsLast(q: seq<CopyInMessage>, finished: bool) {
    if finished then q != [] && Last(q) == Done && NoDone(Front(q)) else NoDone(q)
  }

  ghost predicate NoDone(q: seq<CopyInMessage>) { forall i :: 0 <= i < |q| ==> q[i] != Done }

  ghost predicate NoTerminator(es: seq<Emission>) { forall i :: 0 <= i < |es| ==> !IsTerminator(es[i]) }

  /** Where the terminator is: nowhere yet, or at the end, saying what happened to the sink. */
  ghost predicate TerminatorKept(c: Copy) {
    && c.sink.state != Closing
    && (c.sink.state == Reading ==> !c.sink.channel.open && c.sink.buf == [] && c.writerBuf == [])
    && (if c.receiverDone then
          && c.emitted != [] && NoTerminator(Front(c.emitted))
          && Last(c.emitted) == (if c.sink.state == Reading then DoneSync else FailSync)
          && c.sink.channel.queue == [] && !c.sink.channel.open
        else
          && NoTerminator(c.emitted)
          && (c.sink.channel.alive ==> DoneIsLast(c.sink.channel.queue, c.sink.state == Reading)))
  }

  lemma SendKeepsTerminator(c: Copy, s: Sink, item: seq<byte>)
    requires TerminatorKept(c) && Usable(c) && s == StartSend(c.sink, item).0
    ensures forall bytes, accepted :: TerminatorKept(c.(sink := s, writerBuf := bytes, accepted := accepted))
  {}

  lemma FinishKeepsTerminator(c: Copy, room: bool, flushed: bool, roomForDone: bool)
    requires TerminatorKept(c) && Usable(c) && c.writerBuf == [] && |c.sink.buf| <= CHUNK
    ensures TerminatorKept(c.(sink := Finish(c.sink, room, flushed, roomForDone).0))
  {
    FinishHolds(c.sink, room, flushed, roomForDone);
    var f := Flush(c.sink, room, flushed).0;
    assert Front(f.channel.queue + [Done]) == f.channel.queue;
  }

  lemma DoneIsLastTail(q: seq<CopyInMessage>, finished: bool)
    requires DoneIsLast(q, finished) && q != []
    ensures if q[0] == Done then finished && q[1..] == [] else DoneIsLast(q[1..], finished)
  {
    if finished {
      if |q| > 1 {
        assert Front(q)[0] == q[0];
        assert Front(q[1..]) == Front(q)[1..];
      }
    }
  }

  lemma NoTerminatorPush(es: seq<Emission>, e: Emission)
    requires NoTerminator(es)
    ensures Front(es + [e]) == es && Last(es + [e]) == e
    ensures !IsTerminator(e) ==> NoTerminator(es + [e])
  {}

  lemma ReceiveKeepsTerminator(c: Copy)
    requires TerminatorKept(c)
    ensures TerminatorKept(Next(c, Receive))
  {
    var q := c.sink.channel.queue;
    if c.sink.channel.alive && !c.receiverDone {
      var r := PollNext(c.sink.channel, c.receiverDone).2;
      if q != [] {
        DoneIsLastTail(q, c.sink.state == Reading);
      }
      if r.Item? {
        NoTerminatorPush(c.emitted, r.emission);
      }
    }
  }

  lemma StepKeepsTerminator(c: Copy, l: Label)
    requires TerminatorKept(c) && |c.sink.buf| <= CHUNK
    ensures TerminatorKept(Next(c, l))
  {
    match l
    case Send(item) =>
      if Usable(c) {
        SendKeepsTerminator(c, StartSend(c.sink, item).0, item);
      }
    case WriterHandOver =>
      if Usable(c) {
        SendKeepsTerminator(c, StartSend(c.sink, c.writerBuf).0, c.writerBuf);
      }
    case PollFinish(room, flushed, roomForDone) =>
      if Usable(c) && c.writerBuf == [] {
        FinishKeepsTerminator(c, room, flushed, roomForDone);
      }
    case Receive => ReceiveKeepsTerminator(c);
    case WriterAppend(bytes) =>
    case PollFlush(room, flushed) =>
    case DropSink =>
    case DropReceiver =>
  }

  // ---------------------------------------------------------------------------
  // Whole runs
  // ---------------------------------------------------------------------------

  lemma {:induction false} RunIsSound(head: seq<byte>, labels: seq<Label>)
    ensures Conserved(Run(head, labels), EverJoinsTooMuch(head, labels)) && TerminatorKept(Run(head, labels))
  {
    if labels == [] {
      InitialConserves(head);
    } else {
      var c := Run(head, Front(labels));
      RunIsSound(head, Front(labels));
      StepConserves(c, Last(labels), EverJoinsTooMuch(head, Front(labels)));
      StepKeepsTerminator(c, Last(labels));
    }
  }

  /**
   While the receiver is there, and also when it has finished, the bytes written, those in
   the channel, the sink's buffer and the writer's buffer are exactly the bytes accepted, in
   order, if and only if no step of the run joined to accepted bytes an item with which the
   message length does not fit 32 bits.
   */
  lemma DamageExactly(head: seq<byte>, labels: seq<Label>)
    requires Run(head, labels).sink.channel.alive || Run(head, labels).receiverDone
    ensures var c := Run(head, labels);
            Emitted(c.emitted) + Queued(c.sink.channel.queue) + c.sink.buf + c.writerBuf == c.accepted
            <==> !EverJoinsTooMuch(head, labels)
  {
    var c := Run(head, labels);
    RunIsSound(head, labels);
    AppendAssoc(Queued(c.sink.channel.queue), c.sink.buf, c.writerBuf);
    AppendAssoc(Emitted(c.emitted), Queued(c.sink.channel.queue), c.sink.buf);
    AppendAssoc(Emitted(c.emitted), Queued(c.sink.channel.queue) + c.sink.buf, c.writerBuf);
  }

  /**
   As long as no item too long for a message is joined to accepted bytes, no byte is lost,
   and what reaches the wire is a prefix of them even when the connection goes away.
   */
  lemma BytesAreConserved(head: seq<byte>, labels: seq<Label>)
    requires !EverJoinsTooMuch(head, labels)
    ensures var c := Run(head, labels);
            && Emitted(c.emitted) <= c.accepted
            && (c.sink.channel.alive || c.receiverDone ==>
                  Emitted(c.emitted) + Queued(c.sink.channel.queue) + c.sink.buf + c.writerBuf == c.accepted)
  {
    RunIsSound(head, labels);
    if Run(head, labels).sink.channel.alive || Run(head, labels).receiverDone {
      DamageExactly(head, labels);
    }
  }

  /**
   A stream that has ended has one terminator, its last message. It is CopyDone exactly
   when the sink was finished, and then exactly the accepted bytes have been written before
   it, unless some were thrown away; otherwise it is CopyFail.
   */
  lemma TerminatorIsHonest(head: seq<byte>, labels: seq<Label>)
    ensures var c := Run(head, labels);
            if !c.receiverDone then NoTerminator(c.emitted)
            else
              && c.emitted != [] && NoTerminator(Front(c.emitted))
              && (Last(c.emitted) == DoneSync <==> c.sink.state == Reading)
              && (Last(c.emitted) == FailSync <==> c.sink.state == Active)
              && (Last(c.emitted) == DoneSync ==>
                    (Emitted(c.emitted) == c.accepted <==> !EverJoinsTooMuch(head, labels)))
  {
    var c := Run(head, labels);
    RunIsSound(head, labels);
    AppendEmpty(Emitted(c.emitted));
  }

  /** Once the sink is finished or dropped, polling the receiver reaches the terminator. */
  lemma {:induction false} TerminatorComes(head: seq<byte>, labels: seq<Label>) returns (more: seq<Label>)
    requires !Run(head, labels).sink.channel.open && Run(head, labels).sink.channel.alive
    ensures |more| <= |Run(head, labels).sink.channel.queue| + 1
    ensures forall i :: 0 <= i < |more| ==> more[i] == Receive
    ensures Run(head, labels + more).receiverDone
    decreases |Run(head, labels).sink.channel.queue|
  {
    var c, next := Run(head, labels), labels + [Receive];
    RunIsSound(head, labels);
    assert Front(next) == labels;
    if c.receiverDone {
      AppendEmpty(labels);
      more := [];
    } else if Run(head, next).receiverDone {
      more := [Receive];
    } else {
      var rest := TerminatorComes(head, next);
      AppendAssoc(labels, [Receive], rest);
      more := [Receive] + rest;
    }
  }

  // ---------------------------------------------------------------------------
  // The messages on the wire
  // ---------------------------------------------------------------------------

  const COPY_DATA_TAG: byte := 100

  /** A CopyData message: its tag, its length, which counts itself, and the payload. */
  function DataMessage(payload: seq<byte>): seq<byte>
    requires LengthFits(payload)
  {
    [COPY_DATA_TAG] + BE32(|payload| + 4) + payload
  }

  /** Every payload on its way or written fits the length field. */
  ghost predicate PayloadsFit(c: Copy) {
    && (forall i :: 0 <= i < |c.sink.channel.queue| && c.sink.channel.queue[i].CopyData? ==>
          LengthFits(c.sink.channel.queue[i].payload))
    && (forall i :: 0 <= i < |c.emitted| && c.emitted[i].Data? ==> LengthFits(c.emitted[i].payload))
  }

  lemma ReceiveKeepsFit(c: Copy)
    requires PayloadsFit(c)
    ensures PayloadsFit(Next(c, Receive))
  {
    var q := c.sink.channel.queue;
    assert q != [] && q[0].CopyData? ==> LengthFits(q[0].payload);
  }

  lemma StepKeepsFit(c: Copy, l: Label)
    requires PayloadsFit(c) && |c.sink.buf| <= CHUNK
    ensures PayloadsFit(Next(c, l))
  {
    match l
    case Receive => ReceiveKeepsFit(c);
    case _ =>
  }

  /** A message whose length fits is one frame of the protocol, and its body is the payload. */
  lemma DataIsFrame(payload: seq<byte>)
    requires LengthFits(payload)
    ensures IsFrame(DataMessage(payload)) && DataMessage(payload)[5..] == payload
  {
    var m := DataMessage(payload);
    RoundTrip32(|payload| + 4);
    assert m[1..5] == BE32(|payload| + 4);
  }

  /** In every run each payload written is a well-formed CopyData message. */
  lemma {:induction false} PayloadsAreFrames(head: seq<byte>, labels: seq<Label>)
    ensures PayloadsFit(Run(head, labels))
    ensures forall i :: 0 <= i < |Run(head, labels).emitted| && Run(head, labels).emitted[i].Data? ==>
              IsFrame(DataMessage(Run(head, labels).emitted[i].payload))
  {
    if labels != [] {
      PayloadsAreFrames(head, Front(labels));
      RunIsSound(head, Front(labels));
      StepKeepsFit(Run(head, Front(labels)), Last(labels));
    }
    var es := Run(head, labels).emitted;
    forall i | 0 <= i < |es| && es[i].Data? ensures IsFrame(DataMessage(es[i].payload)) {
      DataIsFrame(es[i].payload);
    }
  }

  // ---------------------------------------------------------------------------
  // The one way to lose accepted bytes
  // ---------------------------------------------------------------------------

  lemma RunPush(head: seq<byte>, labels: seq<Label>, l: Label)
    ensures Run(head, labels + [l]) == Next(Run(head, labels), l)
    ensures EverJoinsTooMuch(head, labels + [l]) <==> EverJoinsTooMuch(head, labels) || JoinsTooMuch(Run(head, labels), l)
  {
    assert Front(labels + [l]) == labels;
  }

  lemma {:induction false} LossStays(head: seq<byte>, labels: seq<Label>, more: seq<Label>)
    requires EverJoinsTooMuch(head, labels)
    ensures EverJoinsTooMuch(head, labels + more)
  {
    if more == [] {
      AppendEmpty(labels);
    } else {
      LossStays(head, labels, Front(more));
      AppendAssoc(labels, Front(more), [Last(more)]);
      assert Front(more) + [Last(more)] == more;
      RunPush(head, labels + Front(more), Last(more));
    }
  }

  /** Polling the receiver does not change whether the sink was finished. */
  lemma {:induction false} ReceivingKeepsState(head: seq<byte>, labels: seq<Label>, more: seq<Label>)
    requires forall i :: 0 <= i < |more| ==> more[i] == Receive
    ensures Run(head, labels + more).sink.state == Run(head, labels).sink.state
  {
    if more == [] {
      AppendEmpty(labels);
    } else {
      ReceivingKeepsState(head, labels, Front(more));
      AppendAssoc(labels, Front(more), [Last(more)]);
      assert Front(more) + [Last(more)] == more;
      RunPush(head, labels + Front(more), Last(more));
    }
  }

  /** With room in the channel a usable sink is finished in two steps at most. */
  lemma CanFinish(head: seq<byte>, labels: seq<Label>) returns (more: seq<Label>)
    requires Usable(Run(head, labels)) && Run(head, labels).sink.channel.alive
    ensures var c := Run(head, labels + more); c.sink.state == Reading && !c.sink.channel.open && c.sink.channel.alive
  {
    var c, finish := Run(head, labels), PollFinish(true, true, true);
    RunIsSound(head, labels);
    if c.writerBuf == [] {
      more := [finish];
      RunPush(head, labels, finish);
    } else {
      more := [WriterHandOver, finish];
      SendHolds(c.sink, c.writerBuf);
      RunPush(head, labels, WriterHandOver);
      RunPush(head, labels + [WriterHandOver], finish);
      assert labels + more == labels + [WriterHandOver] + [finish];
    }
  }

  /**
   However bytes were lost, the COPY can still be brought to its end, and the server is
   then told that it is complete although accepted bytes are missing.
   */
  lemma DamageGoesUnnoticed(head: seq<byte>, labels: seq<Label>) returns (more: seq<Label>)
    requires EverJoinsTooMuch(head, labels)
    requires Usable(Run(head, labels)) && Run(head, labels).sink.channel.alive
    ensures var c := Run(head, labels + more);
            c.emitted != [] && Last(c.emitted) == DoneSync && |Emitted(c.emitted)| < |c.accepted|
  {
    var finish := CanFinish(head, labels);
    var receive := TerminatorComes(head, labels + finish);
    more := finish + receive;
    AppendAssoc(labels, finish, receive);
    LossStays(head, labels, more);
    ReceivingKeepsState(head, labels + finish, receive);
    RunIsSound(head, labels + more);
  }

  /** Such a loss happens: one small item, then one of 2 GiB. */
  lemma DamageIsReachable(item: seq<byte>)
    requires |item| == I32_MAX
    ensures var labels := [Receive, Send([0]), Send(item)];
            && EverJoinsTooMuch([], labels)
            && Usable(Run([], labels)) && Run([], labels).sink.channel.alive && Run([], labels).accepted == [0]
  {
    var one: seq<Label> := [Receive];
    var two := one + [Send([0])];
    AppendEmpty([0]);
    assert Front(one) == [];
    var c1 := Run([], one);
    assert c1 == Next(Initial([]), Receive);
    RunPush([], one, Send([0]));
    RunPush([], two, Send(item));
    assert two + [Send(item)] == [Receive, Send([0]), Send(item)];
  }

  // ---------------------------------------------------------------------------
  // The blocking writer's calls
  // ---------------------------------------------------------------------------

  /** Hands everything to the sink and waits until the channel has taken it. */
  function WriterFlush(buf: seq<byte>, s: Sink): (seq<byte>, Sink, bool) {
    if buf == [] then ([], s, true)
    else
      var (s1, r) := StartSend(s, buf);
      if !r.Accepted? then ([], s1, false)
      else
        var (s2, f) := Flush(s1, true, true);
        ([], s2, f.Ready?)
  }

  function WriterWrite(buf: seq<byte>, s: Sink, bytes: seq<byte>): (seq<byte>, Sink, bool) {
    var w := if |buf| > CHUNK then WriterFlush(buf, s) else (buf, s, true);
    if w.2 then (w.0 + bytes, w.1, true) else w
  }

  function WriterFinish(buf: seq<byte>, s: Sink): (seq<byte>, Sink, bool) {
    var w := WriterFlush(buf, s);
    if !w.2 then w
    else
      var f := Finish(w.1, true, true, true);
      (w.0, f.0, f.1.Ready?)
  }

  /** A write that succeeds leaves at most a full buffer and its own bytes behind; only a full one is handed over. */
  lemma WriterStaysSmall(buf: seq<byte>, s: Sink, bytes: seq<byte>)
    requires WriterWrite(buf, s, bytes).2
    ensures |WriterWrite(buf, s, bytes).0| <= CHUNK + |bytes|
    ensures |buf| <= CHUNK ==> WriterWrite(buf, s, bytes) == (buf + bytes, s, true)
  {}

  function Steps(c: Copy, labels: seq<Label>): Copy
    decreases |labels|
  {
    if labels == [] then c else Steps(Next(c, labels[0]), labels[1..])
  }

  predicate StepsJoinTooMuch(c: Copy, labels: seq<Label>)
    decreases |labels|
  {
    labels != [] && (JoinsTooMuch(c, labels[0]) || StepsJoinTooMuch(Next(c, labels[0]), labels[1..]))
  }

  ghost predicate Matches(c: Copy, w: (seq<byte>, Sink, bool)) { c.writerBuf == w.0 && c.sink == w.1 }

  lemma OneStep(c: Copy, l: Label)
    ensures Steps(c, [l]) == Next(c, l) && (StepsJoinTooMuch(c, [l]) <==> JoinsTooMuch(c, l))
  {
    assert [l][1..] == [];
  }

  lemma FlushIsSteps(c: Copy, labels: seq<Label>)
    requires Usable(c) && labels == [WriterHandOver, PollFlush(true, true)]
    requires c.writerBuf != [] && WriterFlush(c.writerBuf, c.sink).2
    ensures Matches(Steps(c, labels), WriterFlush(c.writerBuf, c.sink))
    ensures Steps(c, labels).accepted == c.accepted && Usable(Steps(c, labels))
    ensures !StepsJoinTooMuch(c, labels)
  {
    assert labels[1..] == [PollFlush(true, true)];
    OneStep(Next(c, WriterHandOver), PollFlush(true, true));
    assert Steps(c, labels) == Next(Next(c, WriterHandOver), PollFlush(true, true));
  }

  /**
   A write that succeeds is a few of the steps above: it accepts exactly its bytes and
   loses nothing, so the conservation of bytes covers the blocking writer too.
   */
  lemma WriteIsSteps(c: Copy, bytes: seq<byte>) returns (labels: seq<Label>)
    requires Usable(c) && WriterWrite(c.writerBuf, c.sink, bytes).2
    ensures Matches(Steps(c, labels), WriterWrite(c.writerBuf, c.sink, bytes))
    ensures Steps(c, labels).accepted == c.accepted + bytes && !StepsJoinTooMuch(c, labels)
    ensures forall lost :: Conserved(c, lost) && TerminatorKept(c) ==>
              Conserved(Steps(c, labels), lost) && TerminatorKept(Steps(c, labels))
  {
    var flush: seq<Label> := if |c.writerBuf| > CHUNK then [WriterHandOver, PollFlush(true, true)] else [];
    var append: seq<Label> := [WriterAppend(bytes)];
    if flush != [] {
      FlushIsSteps(c, flush);
    }
    labels := flush + append;
    StepsAppend(c, flush, append);
    assert append[1..] == [];
    forall lost | Conserved(c, lost) && TerminatorKept(c)
      ensures Conserved(Steps(c, labels), lost) && TerminatorKept(Steps(c, labels))
    {
      StepsAreSound(c, labels, lost);
    }
  }

  lemma {:induction false} StepsAppend(c: Copy, a: seq<Label>, b: seq<Label>)
    ensures Steps(c, a + b) == Steps(Steps(c, a), b)
    ensures StepsJoinTooMuch(c, a + b) <==> StepsJoinTooMuch(c, a) || StepsJoinTooMuch(Steps(c, a), b)
    decreases |a|
  {
    if a == [] {
      AppendEmpty(b);
    } else {
      assert (a + b)[1..] == a[1..] + b;
      StepsAppend(Next(c, a[0]), a[1..], b);
    }
  }

  lemma {:induction false} StepsAreSound(c: Copy, labels: seq<Label>, lost: bool)
    requires Conserved(c, lost) && TerminatorKept(c) && !StepsJoinTooMuch(c, labels)
    ensures Conserved(Steps(c, labels), lost) && TerminatorKept(Steps(c, labels))
    decreases |labels|
  {
    if labels != [] {
      StepConserves(c, labels[0], lost);
      StepKeepsTerminator(c, labels[0]);
      StepsAreSound(Next(c, labels[0]), labels[1..], lost);
    }
  }

  /** A successful finish has handed everything over and announced the end. */
  lemma FinishHandsOverAll(buf: seq<byte>, s: Sink)
    requires s.state == Active && |s.buf| <= CHUNK && WriterFinish(buf, s).2
    ensures var (buf', s', _) := WriterFinish(buf, s);
            && buf' == [] && s'.buf == [] && s'.state == Reading && !s'.channel.open
            && Queued(s'.channel.queue) == Queued(s.channel.queue) + s.buf + buf
            && s'.channel.queue != [] && Last(s'.channel.queue) == Done
  {
    AppendEmpty(Held(s));
    if buf != [] {
      SendHolds(s, buf);
      FlushHolds(StartSend(s, buf).0, true, true);
    }
    var w := WriterFlush(buf, s).1;
    FinishHolds(w, true, true, true);
    AppendEmpty(Queued(WriterFinish(buf, s).1.channel.queue));
  }

  /** The count in a tag such as `COPY 5` is what finishing reports. */
  lemma CountIsReported(command: string, n: nat)
    requires n <= U64_MAX
    ensures FinishedWith(Ready, CommandComplete(command + " " + DecimalDigits(n))) == Finished(n)
  {
    var digits := DecimalDigits(n);
    DigitsReadBack(n);
    LastWordIs(command + " " + digits, command + " ", digits);
    assert IsDigit(digits[0]);
    assert ParseInt(digits, 0, U64_MAX) == Some(n);
  }

  /** What is buffered can go to the channel, or nothing is. */
  predicate CanFlush(s: Sink, room: bool) { s.buf == [] || (room && LengthFits(s.buf)) }

  /**
   Flushing is through when what was buffered is in the channel and the channel has taken it,
   or there is nothing to wait for; it fails without a channel or with a length that does not
   fit; and it waits for room or for the channel otherwise.
   */
  lemma FlushExactly(s: Sink, room: bool, flushed: bool)
    ensures var r := Flush(s, room, flushed).1;
            && (r.Ready? <==> (CanFlush(s, room) && Connected(s.channel) && flushed) || (s.buf == [] && !Connected(s.channel)))
            && (r.Aborted? <==> s.buf != [] && (!Connected(s.channel) || (room && !LengthFits(s.buf))))
            && (r.Pending? <==> Connected(s.channel) && if CanFlush(s, room) then !flushed else !room)
  {}

  /** Everything is sent: at once, or in an earlier call. */
  predicate SendingIsThrough(s: Sink, room: bool, flushed: bool, roomForDone: bool) {
    s.state != Active || (Connected(s.channel) && CanFlush(s, room) && flushed && roomForDone)
  }

  /** The channel has to be waited for. */
  predicate SendingWaits(s: Sink, room: bool, flushed: bool, roomForDone: bool) {
    s.state == Active && Connected(s.channel) && if CanFlush(s, room) then !flushed || !roomForDone else !room
  }

  /**
   For every sink, every answer of the channel and every reply of the server: finishing reports
   a count exactly when everything is sent and the reply is CommandComplete, and then its
   count; it waits exactly when sending waits or there is no reply yet; and it fails otherwise,
   in particular with the server's error.
   */
  lemma FinishExactly(s: Sink, room: bool, flushed: bool, roomForDone: bool, reply: Reply)
    ensures var r := FinishedWith(Finish(s, room, flushed, roomForDone).1, reply);
            var through := SendingIsThrough(s, room, flushed, roomForDone);
            var waits := SendingWaits(s, room, flushed, roomForDone);
            && (r.Finished? <==> through && reply.CommandComplete?)
            && (r.Finished? ==> r.rows == RowsAffected(reply.tag))
            && (r.FinishPending? <==> waits || (through && reply.NoReply?))
            && (r.FinishFailed? <==> (!through && !waits) || (through && (reply.ReplyError? || reply.OtherReply?)))
  {
    FlushExactly(s, room, flushed);
  }

  /** The count is the number behind the last space of the tag, and 0 when no number stands there. */
  lemma RowsAffectedExactly(tag: string, front: string, word: string)
    requires tag == front + word && (front == "" || Last(front) == ' ') && ' ' !in word
    ensures RowsAffected(tag) == (match ParseInt(word, 0, U64_MAX) case Some(n) => if n >= 0 then n else 0 case None => 0)
  {
    LastWordIs(tag, front, word);
  }

  lemma {:induction false} LastWordIs(tag: string, front: string, word: string)
    requires tag == front + word && (front == "" || Last(front) == ' ') && ' ' !in word
    ensures LastWord(tag) == word
    decreases |word|
  {
    if word == "" {
      AppendEmpty(front);
    } else {
      assert Front(tag) == front + Front(word) && Last(tag) == Last(word);
      LastWordIs(Front(tag), front, Front(word));
    }
  }

  /** A row count is reported only after every byte was handed over, the end announced and the COPY confirmed. */
  lemma CountComesLast(s: Sink, room: bool, flushed: bool, roomForDone: bool, reply: Reply)
    requires s.state == Active && |s.buf| <= CHUNK
    ensures var (s', r) := Finish(s, room, flushed, roomForDone);
            FinishedWith(r, reply).Finished? ==>
              && s'.buf == [] && !s'.channel.open && Queued(s'.channel.queue) == Held(s)
              && s'.channel.queue != [] && Last(s'.channel.queue) == Done
              && reply.CommandComplete?
  {
    FinishHolds(s, room, flushed, roomForDone);
    AppendEmpty(Queued(Finish(s, room, flushed, roomForDone).0.channel.queue));
  }

  // ---------------------------------------------------------------------------
  // The objects
  // ---------------------------------------------------------------------------

  class Mpsc {
    var queue: seq<CopyInMessage>
    var open: bool
    var alive: bool

    function View(): Channel
      reads this
    {
      Channel(queue, open, alive)
    }

    constructor ()
      ensures View() == Channel([], true, true)
    {
      queue, open, alive := [], true, true;
    }

    /** Puts a message into the channel unless one end has gone. */
    method TrySend(m: CopyInMessage) returns (ok: bool)
      modifies `queue
      ensures ok == Connected(old(View()))
      ensures View() == if ok then old(View()).(queue := old(queue) + [m]) else old(View())
    {
      ok := open && alive;
      if ok {
        queue := queue + [m];
      }
    }
  }

  class CopyInSink {
    const sender: Mpsc
    var buf: seq<byte>
    var state: SinkState

    function View(): Sink
      reads this, sender
    {
      Sink(buf, state, sender.View())
    }

    constructor (sender: Mpsc)
      ensures this.sender == sender && buf == [] && state == Active
    {
      this.sender, buf, state := sender, [], Active;
    }

    method StartSendItem(item: seq<byte>) returns (r: SendResult)
      modifies `buf, sender
      ensures (View(), r) == StartSend(old(View()), item)
    {
      var data: seq<byte>;
      if |item| > CHUNK {
        if buf == [] {
          data := item;
          AppendEmpty(item);
        } else {
          data := buf + item;
          buf := [];
        }
      } else {
        buf := buf + item;
        if |buf| <= CHUNK {
          return Accepted;
        }
        data := buf;
        buf := [];
      }
      if |data| + 4 > I32_MAX {
        return TooLong;
      }
      var ok := sender.TrySend(CopyData(data));
      return if ok then Accepted else Disconnected;
    }

    method PollFlush(room: bool, flushed: bool) returns (r: PollResult)
      modifies `buf, sender
      ensures (View(), r) == Flush(old(View()), room, flushed)
    {
      if buf != [] {
        if !(sender.open && sender.alive) {
          return Aborted;
        }
        if !room {
          return Pending;
        }
        var data := buf;
        buf := [];
        if |data| + 4 > I32_MAX {
          return Aborted;
        }
        var _ := sender.TrySend(CopyData(data));
        return if flushed then Ready else Pending;
      }
      return if flushed || !(sender.open && sender.alive) then Ready else Pending;
    }

    /** The loop of states: what is sent, what the channel becomes, and what is returned. */
    method PollFinish(room: bool, flushed: bool, roomForDone: bool, reply: Reply) returns (r: FinishResult)
      modifies this, sender
      ensures View() == Finish(old(View()), room, flushed, roomForDone).0
      ensures r == FinishedWith(Finish(old(View()), room, flushed, roomForDone).1, reply)
    {
      if state == Active {
        var f := PollFlush(room, flushed);
        if !f.Ready? {
          return if f.Pending? then FinishPending else FinishFailed;
        }
        if !(sender.open && sender.alive) {
          return FinishFailed;
        }
        if !roomForDone {
          return FinishPending;
        }
        var _ := sender.TrySend(Done);
        state := Closing;
      }
      if state == Closing {
        sender.open := false;
        state := Reading;
      }
      match reply
      case NoReply => return FinishPending;
      case CommandComplete(tag) => return Finished(RowsAffected(tag));
      case OtherReply => return FinishFailed;
      case ReplyError => return FinishFailed;
    }
  }

  class CopyInReceiver {
    const receiver: Mpsc
    var done: bool

    constructor (receiver: Mpsc)
      ensures this.receiver == receiver && !done
    {
      this.receiver, done := receiver, false;
    }

    method PollNextMessage() returns (r: Received)
      modifies `done, receiver`queue
      ensures (receiver.View(), done, r) == PollNext(old(receiver.View()), old(done))
    {
      if done {
        return Ended;
      }
      if receiver.queue == [] {
        if receiver.open {
          return Waiting;
        }
        done := true;
        return Item(FailSync);
      }
      var m := receiver.queue[0];
      receiver.queue := receiver.queue[1..];
      match m
      case Raw(bytes) => return Item(Head(bytes));
      case CopyData(payload) => return Item(Data(payload));
      case Done =>
        done := true;
        return Item(DoneSync);
    }
  }

  class CopyInWriter {
    const sink: CopyInSink
    var buf: seq<byte>

    constructor (sink: CopyInSink)
      ensures this.sink == sink && buf == []
    {
      this.sink, buf := sink, [];
    }

    method FlushInner() returns (ok: bool)
      modifies `buf, sink, sink.sender
      ensures (buf, sink.View(), ok) == WriterFlush(old(buf), old(sink.View()))
    {
      if buf == [] {
        return true;
      }
      var item := buf;
      buf := [];
      var sent := sink.StartSendItem(item);
      if !sent.Accepted? {
        return false;
      }
      var flushed := sink.PollFlush(true, true);
      return flushed.Ready?;
    }

    method Write(bytes: seq<byte>) returns (ok: bool)
      modifies `buf, sink, sink.sender
      ensures (buf, sink.View(), ok) == WriterWrite(old(buf), old(sink.View()), bytes)
    {
      if |buf| > CHUNK {
        ok := FlushInner();
        if !ok {
          return;
        }
      }
      buf := buf + bytes;
      return true;
    }

    /** Waits until everything is sent; `reply` is the server's answer then. */
    method FinishCopy(reply: Reply) returns (r: FinishResult)
      modifies `buf, sink, sink.sender
      ensures var w := WriterFinish(old(buf), old(sink.View()));
              && (buf, sink.View()) == (w.0, w.1)
              && r == if w.2 then FinishedWith(Ready, reply) else FinishFailed
    {
      var ok := FlushInner();
      if !ok {
        return FinishFailed;
      }
      r := sink.PollFinish(true, true, true, reply);
    }
  }
}
