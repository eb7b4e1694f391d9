/**
 A binary COPY from the rows a caller writes to the bytes the server is sent: the binary
 writer on a sink whose channel and receiver go their own way.
 */
module BinaryTransfer {
  import opened Wrappers
  import opened Bytes
  import opened Sequences
  import opened BinaryCopy
  import CopyIn

  // ---------------------------------------------------------------------------
  // What a caller can compute
  // ---------------------------------------------------------------------------

  datatype Call = WriteCall(values: seq<Value>) | FinishCall

  /** The longest payload of a message. */
  const LIMIT := I32_MAX - 4

  function RowSize(values: seq<Value>): nat { |EncodeRow(values).bytes| }

  predicate RowFails(values: seq<Value>) { EncodeRow(values).error.Some? }

  /** How much is buffered, until the trailer has been handed over. */
  datatype Fill = Filling(n: nat) | Ended

  function Filled(f: Fill, x: Call): Fill {
    if f.Ended? then f
    else
      match x
      case WriteCall(values) =>
        var m := f.n + RowSize(values);
        if RowFails(values) || m <= CHUNK then Filling(m) else Filling(0)
      case FinishCall => if f.n + |TRAILER| <= LIMIT then Ended else Filling(0)
  }

  function FillAfter(calls: seq<Call>): Fill {
    if calls == [] then Filling(HEADER_LEN) else Filled(FillAfter(Front(calls)), Last(calls))
  }

  /** The call writes a row that cannot be encoded. */
  predicate FailsAt(f: Fill, x: Call) { f.Filling? && x.WriteCall? && RowFails(x.values) }

  /** The call hands over, with what was buffered before, more than fits a message. */
  predicate DropsAt(f: Fill, x: Call) {
    f.Filling? && f.n > 0 &&
    match x
    case WriteCall(values) => !RowFails(values) && f.n + RowSize(values) > LIMIT
    case FinishCall => f.n + |TRAILER| > LIMIT
  }

  predicate EverFails(calls: seq<Call>) {
    calls != [] && (EverFails(Front(calls)) || FailsAt(FillAfter(Front(calls)), Last(calls)))
  }

  predicate EverDrops(calls: seq<Call>) {
    calls != [] && (EverDrops(Front(calls)) || DropsAt(FillAfter(Front(calls)), Last(calls)))
  }

  // ---------------------------------------------------------------------------
  // What the calls make of a sink that stays connected
  // ---------------------------------------------------------------------------

  /** What is buffered, what the sink has taken, and the rows reported to be written. */
  datatype Progress = Progress(buf: seq<byte>, taken: seq<byte>, reported: seq<seq<Cell>>, ended: bool)

  function Perform(p: Progress, x: Call): Progress {
    if p.ended then p
    else
      match x
      case WriteCall(values) =>
        var chunk := p.buf + EncodeRow(values).bytes;
        if RowFails(values) then p.(buf := chunk)
        else if |chunk| <= CHUNK then p.(buf := chunk, reported := p.reported + [Cells(values)])
        else if |chunk| <= LIMIT then Progress([], p.taken + chunk, p.reported + [Cells(values)], false)
        else p.(buf := [])
      case FinishCall =>
        var chunk := p.buf + TRAILER;
        if |chunk| <= LIMIT then Progress([], p.taken + chunk, p.reported, true) else p.(buf := [])
  }

  function After(calls: seq<Call>): Progress {
    if calls == [] then Progress(HEADER, [], [], false) else Perform(After(Front(calls)), Last(calls))
  }

  lemma {:induction false} FillIsRight(calls: seq<Call>)
    ensures FillAfter(calls) == if After(calls).ended then Ended else Filling(|After(calls).buf|)
  {
    if calls != [] {
      FillIsRight(Front(calls));
    }
  }

  /** The bytes the rows reported would make. */
  function Wanted(p: Progress): seq<byte> { HEADER + Tuples(p.reported) + if p.ended then TRAILER else [] }

  function Made(p: Progress): seq<byte> { p.taken + p.buf }

  /** Rows that fail leave too many bytes behind, chunks thrown away leave too few. */
  ghost predicate Balanced(p: Progress, fails: bool, drops: bool) {
    && (!fails && !drops ==> Made(p) == Wanted(p))
    && (fails && !drops ==> |Made(p)| > |Wanted(p)|)
    && (!fails && drops ==> |Made(p)| < |Wanted(p)|)
    && (p.ended ==> p.buf == [])
  }

  lemma RowIsReported(p: Progress, values: seq<Value>, p': Progress)
    requires !p.ended && !p'.ended && !RowFails(values)
    requires Made(p') == Made(p) + EncodeRow(values).bytes && p'.reported == p.reported + [Cells(values)]
    ensures |Wanted(p')| == |Wanted(p)| + RowSize(values)
    ensures Made(p) == Wanted(p) ==> Made(p') == Wanted(p')
  {
    RowIsTuple(values);
    TuplesPush(p.reported, Cells(values));
    AppendAssoc(HEADER, Tuples(p.reported), Tuple(Cells(values)));
    AppendEmpty(HEADER + Tuples(p.reported));
    AppendEmpty(HEADER + Tuples(p'.reported));
  }

  lemma WriteKeepsBalance(p: Progress, values: seq<Value>, fails: bool, drops: bool)
    requires Balanced(p, fails, drops) && !p.ended
    ensures var f, x := Filling(|p.buf|), WriteCall(values);
            Balanced(Perform(p, x), fails || FailsAt(f, x), drops || DropsAt(f, x))
  {
    var row := EncodeRow(values).bytes;
    var p' := Perform(p, WriteCall(values));
    RowIsTuple(values);
    AppendAssoc(p.taken, p.buf, row);
    AppendEmpty(p.taken);
    AppendEmpty(p.taken + (p.buf + row));
    if !RowFails(values) && |p.buf + row| <= LIMIT {
      RowIsReported(p, values, p');
    }
  }

  lemma FinishKeepsBalance(p: Progress, fails: bool, drops: bool)
    requires Balanced(p, fails, drops) && !p.ended
    ensures Balanced(Perform(p, FinishCall), fails, drops || DropsAt(Filling(|p.buf|), FinishCall))
  {
    AppendAssoc(p.taken, p.buf, TRAILER);
    AppendEmpty(p.taken + (p.buf + TRAILER));
    AppendEmpty(HEADER + Tuples(p.reported));
  }

  lemma {:induction false} CallsBalance(calls: seq<Call>)
    ensures Balanced(After(calls), EverFails(calls), EverDrops(calls))
  {
    if calls == [] {
      AppendEmpty(HEADER);
    } else {
      var front, x, p := Front(calls), Last(calls), After(Front(calls));
      CallsBalance(front);
      FillIsRight(front);
      if !p.ended {
        match x
        case WriteCall(values) => WriteKeepsBalance(p, values, EverFails(front), EverDrops(front));
        case FinishCall => FinishKeepsBalance(p, EverFails(front), EverDrops(front));
      }
    }
  }

  // ---------------------------------------------------------------------------
  // The writer, the sink and the receiver together
  // ---------------------------------------------------------------------------

  datatype Step = Do(call: Call) | Other(copyStep: CopyIn.Label)

  /** What is buffered, what the COPY has done so far, the rows reported, and the calls that had an effect. */
  datatype Transfer = Transfer(
    buf: seq<byte>, labels: seq<CopyIn.Label>, reported: seq<seq<Cell>>, ended: bool, calls: seq<Call>)

  function Copy(head: seq<byte>, t: Transfer): CopyIn.Copy { CopyIn.Run(head, t.labels) }

  /** A chunk that comes to the sink. */
  function Sent(t: Transfer, s: CopyIn.Sink, chunk: seq<byte>): seq<CopyIn.Label> {
    if CopyIn.Connected(s.channel) then t.labels + [CopyIn.Send(chunk)] else t.labels
  }

  function DoWrite(t: Transfer, s: CopyIn.Sink, values: seq<Value>): Transfer {
    var chunk := t.buf + EncodeRow(values).bytes;
    var (buf, _, error) := WriteRowTo(t.buf, s, values);
    Transfer(
      buf, if !RowFails(values) && |chunk| > CHUNK then Sent(t, s, chunk) else t.labels,
      if error.None? then t.reported + [Cells(values)] else t.reported, false, t.calls + [WriteCall(values)])
  }

  function DoFinish(t: Transfer, s: CopyIn.Sink): Transfer {
    var chunk := t.buf + TRAILER;
    Transfer([], Sent(t, s, chunk), t.reported, HandOver(s, chunk).1.None?, t.calls + [FinishCall])
  }

  /** Everybody else: the sink is polled, and finished behind the trailer only; either end may go away. */
  predicate Allowed(t: Transfer, l: CopyIn.Label) {
    l.PollFlush? || l.Receive? || l.DropReceiver? || l.DropSink? || (l.PollFinish? && t.ended)
  }

  function Next(head: seq<byte>, t: Transfer, x: Step): Transfer {
    var s := Copy(head, t).sink;
    match x
    case Do(call) =>
      if t.ended then t
      else if call.FinishCall? then DoFinish(t, s)
      else DoWrite(t, s, call.values)
    case Other(l) => if Allowed(t, l) then t.(labels := t.labels + [l]) else t
  }

  function Run(head: seq<byte>, steps: seq<Step>): Transfer {
    if steps == [] then Transfer(HEADER, [], [], false, []) else Next(head, Run(head, Front(steps)), Last(steps))
  }

  // ---------------------------------------------------------------------------
  // What every step keeps
  // ---------------------------------------------------------------------------

  /** The sink is idle between calls, and finished only behind the trailer. */
  ghost predicate SinkKept(ended: bool, c: CopyIn.Copy) {
    && c.writerBuf == [] && c.sink.state != CopyIn.Closing
    && (c.sink.state == CopyIn.Reading ==> ended)
    && (!ended ==> c.sink.buf == [])
  }

  /** As long as the connection is there, and when the sink was finished, the calls decide everything. */
  ghost predicate AsPlanned(t: Transfer, c: CopyIn.Copy) {
    CopyIn.Connected(c.sink.channel) || c.sink.state == CopyIn.Reading ==>
      After(t.calls) == Progress(t.buf, c.accepted, t.reported, t.ended)
  }

  ghost predicate Kept(head: seq<byte>, t: Transfer, c: CopyIn.Copy) {
    && c == Copy(head, t) && SinkKept(t.ended, c) && AsPlanned(t, c)
    && !CopyIn.EverJoinsTooMuch(head, t.labels)
  }

  lemma CallsPush(calls: seq<Call>, x: Call)
    ensures After(calls + [x]) == Perform(After(calls), x)
    ensures EverFails(calls + [x]) <==> EverFails(calls) || FailsAt(FillAfter(calls), x)
    ensures EverDrops(calls + [x]) <==> EverDrops(calls) || DropsAt(FillAfter(calls), x)
  {
    assert Front(calls + [x]) == calls;
  }

  /** A chunk for a connected sink with nothing in it. */
  lemma SentChunk(head: seq<byte>, labels: seq<CopyIn.Label>, c: CopyIn.Copy, chunk: seq<byte>, c': CopyIn.Copy)
    requires c == CopyIn.Run(head, labels) && SinkKept(false, c) && CopyIn.Connected(c.sink.channel)
    requires !CopyIn.EverJoinsTooMuch(head, labels) && c' == CopyIn.Next(c, CopyIn.Send(chunk))
    ensures c' == CopyIn.Run(head, labels + [CopyIn.Send(chunk)])
    ensures !CopyIn.EverJoinsTooMuch(head, labels + [CopyIn.Send(chunk)])
    ensures c'.accepted == (if |chunk| <= LIMIT then c.accepted + chunk else c.accepted)
    ensures c'.writerBuf == [] && c'.sink.state == CopyIn.Active && CopyIn.Connected(c'.sink.channel)
    ensures |chunk| > CHUNK ==> c'.sink.buf == []
    ensures HandOver(c.sink, chunk).1.None? <==> |chunk| <= LIMIT
  {
    CopyIn.RunPush(head, labels, CopyIn.Send(chunk));
    AppendEmpty(chunk);
  }

  lemma WriteIsKept(head: seq<byte>, t: Transfer, c: CopyIn.Copy, values: seq<Value>)
    requires Kept(head, t, c) && !t.ended
    ensures var t' := DoWrite(t, c.sink, values); Kept(head, t', Copy(head, t'))
  {
    var chunk := t.buf + EncodeRow(values).bytes;
    CallsPush(t.calls, WriteCall(values));
    if !RowFails(values) && |chunk| > CHUNK && CopyIn.Connected(c.sink.channel) {
      SentChunk(head, t.labels, c, chunk, CopyIn.Next(c, CopyIn.Send(chunk)));
    }
  }

  lemma FinishIsKept(head: seq<byte>, t: Transfer, c: CopyIn.Copy)
    requires Kept(head, t, c) && !t.ended
    ensures var t' := DoFinish(t, c.sink); Kept(head, t', Copy(head, t'))
  {
    var chunk := t.buf + TRAILER;
    CallsPush(t.calls, FinishCall);
    if CopyIn.Connected(c.sink.channel) {
      SentChunk(head, t.labels, c, chunk, CopyIn.Next(c, CopyIn.Send(chunk)));
    }
  }

  /** The others accept nothing, never reconnect, and finish the sink only while connected. */
  lemma OtherIsQuiet(ended: bool, c: CopyIn.Copy, l: CopyIn.Label)
    requires SinkKept(ended, c) && |c.sink.buf| <= CHUNK
    requires l.PollFlush? || l.Receive? || l.DropReceiver? || l.DropSink? || (l.PollFinish? && ended)
    ensures var c' := CopyIn.Next(c, l);
            && SinkKept(ended, c') && c'.accepted == c.accepted && !CopyIn.JoinsTooMuch(c, l)
            && (CopyIn.Connected(c'.sink.channel) || c'.sink.state == CopyIn.Reading ==>
                  CopyIn.Connected(c.sink.channel) || c.sink.state == CopyIn.Reading)
  {}

  lemma OtherIsKept(head: seq<byte>, t: Transfer, c: CopyIn.Copy, l: CopyIn.Label)
    requires Kept(head, t, c) && Allowed(t, l)
    ensures var t' := t.(labels := t.labels + [l]); Kept(head, t', Copy(head, t'))
  {
    CopyIn.RunIsSound(head, t.labels);
    OtherIsQuiet(t.ended, c, l);
    CopyIn.RunPush(head, t.labels, l);
  }

  lemma {:induction false} RunIsKept(head: seq<byte>, steps: seq<Step>)
    ensures var t := Run(head, steps); Kept(head, t, Copy(head, t))
  {
    if steps != [] {
      var t := Run(head, Front(steps));
      var c := Copy(head, t);
      RunIsKept(head, Front(steps));
      match Last(steps)
      case Do(call) =>
        if !t.ended {
          match call
          case WriteCall(values) => WriteIsKept(head, t, c, values);
          case FinishCall => FinishIsKept(head, t, c);
        }
      case Other(l) =>
        if Allowed(t, l) {
          OtherIsKept(head, t, c, l);
        }
    }
  }

  // the calls of the writer object are these steps

  lemma SendIsHandOver(c: CopyIn.Copy, chunk: seq<byte>)
    requires SinkKept(false, c) && CopyIn.Connected(c.sink.channel) && |chunk| > CHUNK
    ensures CopyIn.Next(c, CopyIn.Send(chunk)).sink == HandOver(c.sink, chunk).0
  {
    HandOverExactly(c.sink, chunk);
    AppendEmpty(chunk);
  }

  lemma QuietWrite(t: Transfer, s: CopyIn.Sink, values: seq<Value>, chunk: seq<byte>)
    requires chunk == t.buf + EncodeRow(values).bytes
    requires RowFails(values) || |chunk| <= CHUNK || !CopyIn.Connected(s.channel)
    ensures DoWrite(t, s, values).labels == t.labels && WriteRowTo(t.buf, s, values).1 == s
  {}

  lemma LoudWrite(t: Transfer, s: CopyIn.Sink, values: seq<Value>, chunk: seq<byte>)
    requires chunk == t.buf + EncodeRow(values).bytes
    requires !RowFails(values) && |chunk| > CHUNK && CopyIn.Connected(s.channel)
    ensures DoWrite(t, s, values).labels == t.labels + [CopyIn.Send(chunk)]
    ensures WriteRowTo(t.buf, s, values).1 == HandOver(s, chunk).0
  {}

  lemma WriteIsCall(head: seq<byte>, t: Transfer, c: CopyIn.Copy, values: seq<Value>)
    requires Kept(head, t, c) && !t.ended
    ensures DoWrite(t, c.sink, values).buf == WriteRowTo(t.buf, c.sink, values).0
    ensures Copy(head, DoWrite(t, c.sink, values)).sink == WriteRowTo(t.buf, c.sink, values).1
  {
    var chunk := t.buf + EncodeRow(values).bytes;
    if RowFails(values) || |chunk| <= CHUNK || !CopyIn.Connected(c.sink.channel) {
      QuietWrite(t, c.sink, values, chunk);
    } else {
      LoudWrite(t, c.sink, values, chunk);
      SendIsHandOver(c, chunk);
      CopyIn.RunPush(head, t.labels, CopyIn.Send(chunk));
    }
  }

  /** A chunk and then the flush, with the sink connected. */
  lemma HandOverIsSteps(s: CopyIn.Sink, chunk: seq<byte>)
    requires CopyIn.Connected(s.channel) && HandOver(s, chunk).1.None?
    ensures CopyIn.StartSend(s, chunk).1.Accepted?
    ensures HandOver(s, chunk).0 == CopyIn.Flush(CopyIn.StartSend(s, chunk).0, true, true).0
  {}

  /** The chunk with the trailer, the flush and the finish, one after the other. */
  lemma FinishIsSteps(c: CopyIn.Copy, buf: seq<byte>)
    requires SinkKept(false, c) && FinishTo(buf, c.sink).1
    ensures CopyIn.Connected(c.sink.channel) && HandOver(c.sink, buf + TRAILER).1.None?
    ensures var sent := CopyIn.Next(c, CopyIn.Send(buf + TRAILER));
            var flushed := CopyIn.Next(sent, CopyIn.PollFlush(true, true));
            CopyIn.Next(flushed, CopyIn.PollFinish(true, true, true)).sink == FinishTo(buf, c.sink).0
  {
    HandOverIsSteps(c.sink, buf + TRAILER);
  }

  lemma FinishIsCall(head: seq<byte>, t: Transfer, c: CopyIn.Copy, flush: CopyIn.Label, finish: CopyIn.Label)
    requires Kept(head, t, c) && !t.ended && FinishTo(t.buf, c.sink).1
    requires flush == CopyIn.PollFlush(true, true) && finish == CopyIn.PollFinish(true, true, true)
    ensures var t' := DoFinish(t, c.sink);
            t'.ended && Copy(head, Next(head, Next(head, t', Other(flush)), Other(finish))).sink == FinishTo(t.buf, c.sink).0
  {
    var send := CopyIn.Send(t.buf + TRAILER);
    FinishIsSteps(c, t.buf);
    CopyIn.RunPush(head, t.labels, send);
    CopyIn.RunPush(head, t.labels + [send], flush);
    CopyIn.RunPush(head, t.labels + [send] + [flush], finish);
  }

  // ---------------------------------------------------------------------------
  // What the server is sent
  // ---------------------------------------------------------------------------

  /** The server has been told that the COPY is complete. */
  predicate ToldComplete(c: CopyIn.Copy) {
    c.receiverDone && c.emitted != [] && Last(c.emitted) == CopyIn.DoneSync
  }

  /** What the server has been sent as data. */
  function File(c: CopyIn.Copy): seq<byte> { CopyIn.Emitted(c.emitted) }

  lemma CompleteIsAfter(head: seq<byte>, steps: seq<Step>)
    requires ToldComplete(Copy(head, Run(head, steps)))
    ensures var t := Run(head, steps);
            File(Copy(head, t)) == Made(After(t.calls)) && After(t.calls).reported == t.reported && After(t.calls).ended
  {
    var t := Run(head, steps);
    RunIsKept(head, steps);
    CopyIn.TerminatorIsHonest(head, t.labels);
    CallsBalance(t.calls);
    AppendEmpty(After(t.calls).taken);
  }

  /**
   In every run, when the server has been told that the COPY is complete: as long as no row
   failed, it was sent exactly the header, the tuples of the rows reported to be written, and
   the trailer, if and only if no call handed over, with what was buffered before, more than
   fits a message; and as long as no call did, if and only if no row failed.
   */
  lemma FileSurvivesRefusalExactly(head: seq<byte>, steps: seq<Step>)
    requires ToldComplete(Copy(head, Run(head, steps)))
    ensures var t := Run(head, steps);
            var right := File(Copy(head, t)) == HEADER + Tuples(t.reported) + TRAILER;
            && (!EverFails(t.calls) ==> (right <==> !EverDrops(t.calls)))
            && (!EverDrops(t.calls) ==> (right <==> !EverFails(t.calls)))
  {
    CompleteIsAfter(head, steps);
    CallsBalance(Run(head, steps).calls);
  }

  // ---------------------------------------------------------------------------
  // Runs to the end
  // ---------------------------------------------------------------------------

  function Calls(calls: seq<Call>): (steps: seq<Step>)
    ensures |steps| == |calls| && forall i :: 0 <= i < |calls| ==> steps[i] == Do(calls[i])
  {
    seq(|calls|, i requires 0 <= i < |calls| => Do(calls[i]))
  }

  lemma StepPush(head: seq<byte>, steps: seq<Step>, x: Step)
    ensures Run(head, steps + [x]) == Next(head, Run(head, steps), x)
  {
    assert Front(steps + [x]) == steps;
  }

  /** A transfer whose connection is there. */
  ghost predicate Live(t: Transfer, c: CopyIn.Copy, calls: seq<Call>) {
    t.calls == calls && c.sink.state == CopyIn.Active && CopyIn.Connected(c.sink.channel) && c.writerBuf == []
  }

  lemma DoStaysLive(head: seq<byte>, t: Transfer, c: CopyIn.Copy, x: Call)
    requires Kept(head, t, c) && !t.ended && Live(t, c, t.calls)
    ensures var t' := Next(head, t, Do(x)); Live(t', Copy(head, t'), t.calls + [x])
  {
    var chunk := t.buf + if x.FinishCall? then TRAILER else EncodeRow(x.values).bytes;
    SentChunk(head, t.labels, c, chunk, CopyIn.Next(c, CopyIn.Send(chunk)));
  }

  lemma RunStaysLive(head: seq<byte>, steps: seq<Step>, calls: seq<Call>, x: Call)
    requires var t := Run(head, steps); Live(t, Copy(head, t), calls)
    requires !After(calls).ended
    ensures var t := Run(head, steps + [Do(x)]); Live(t, Copy(head, t), calls + [x])
  {
    var t := Run(head, steps);
    RunIsKept(head, steps);
    DoStaysLive(head, t, Copy(head, t), x);
    StepPush(head, steps, Do(x));
  }

  lemma CallsSplit(calls: seq<Call>, front: seq<Call>, x: Call)
    requires calls == front + [x]
    ensures Calls(calls) == Calls(front) + [Do(x)]
    ensures front != [] && !After(front).ended ==> !After(Front(front)).ended
  {}

  lemma {:induction false} CallsStayLive(head: seq<byte>, calls: seq<Call>)
    requires calls == [] || !After(Front(calls)).ended
    ensures var t := Run(head, Calls(calls)); Live(t, Copy(head, t), calls)
  {
    if calls != [] {
      var front, x := Front(calls), Last(calls);
      CallsSplit(calls, front, x);
      CallsStayLive(head, front);
      RunStaysLive(head, Calls(front), front, x);
      assert front + [x] == calls;
    }
  }

  function Others(labels: seq<CopyIn.Label>): (steps: seq<Step>)
    ensures |steps| == |labels| && forall i :: 0 <= i < |labels| ==> steps[i] == Other(labels[i])
  {
    seq(|labels|, i requires 0 <= i < |labels| => Other(labels[i]))
  }

  predicate Completing(l: CopyIn.Label) { l.PollFinish? || l.Receive? }

  lemma OtherGoesOn(head: seq<byte>, steps: seq<Step>, t: Transfer, l: CopyIn.Label)
    requires t == Run(head, steps) && t.ended && Completing(l)
    ensures Run(head, steps + [Other(l)]) == t.(labels := t.labels + [l])
  {
    StepPush(head, steps, Other(l));
  }

  lemma {:induction false} OthersGoOn(head: seq<byte>, steps: seq<Step>, t: Transfer, more: seq<CopyIn.Label>)
    requires t == Run(head, steps) && t.ended && forall i :: 0 <= i < |more| ==> Completing(more[i])
    ensures Run(head, steps + Others(more)) == t.(labels := t.labels + more)
  {
    if more == [] {
      AppendEmpty(steps);
      AppendEmpty(t.labels);
    } else {
      var front, l := Front(more), Last(more);
      var t' := t.(labels := t.labels + front);
      OthersGoOn(head, steps, t, front);
      OtherGoesOn(head, steps + Others(front), t', l);
      OthersPush(steps, t.labels, more, front, l);
    }
  }

  lemma OthersPush(steps: seq<Step>, labels: seq<CopyIn.Label>, more: seq<CopyIn.Label>, front: seq<CopyIn.Label>, l: CopyIn.Label)
    requires more == front + [l]
    ensures steps + Others(more) == steps + Others(front) + [Other(l)] && labels + more == labels + front + [l]
  {}

  lemma FinishReached(c: CopyIn.Copy)
    requires CopyIn.Usable(c) && c.sink.channel.alive && c.writerBuf == [] && |c.sink.buf| <= CHUNK
    ensures var s := CopyIn.Next(c, CopyIn.PollFinish(true, true, true)).sink;
            s.state == CopyIn.Reading && !s.channel.open && s.channel.alive
  {}

  /** Finishing the sink and polling the receiver bring a COPY to its end. */
  lemma FinishIsTold(head: seq<byte>, labels: seq<CopyIn.Label>) returns (more: seq<CopyIn.Label>)
    requires var c := CopyIn.Run(head, labels); CopyIn.Usable(c) && c.sink.channel.alive && c.writerBuf == []
    ensures forall i :: 0 <= i < |more| ==> Completing(more[i])
    ensures ToldComplete(CopyIn.Run(head, labels + more))
  {
    var finish := CopyIn.PollFinish(true, true, true);
    CopyIn.RunIsSound(head, labels);
    FinishReached(CopyIn.Run(head, labels));
    CopyIn.RunPush(head, labels, finish);
    var receive := CopyIn.TerminatorComes(head, labels + [finish]);
    CopyIn.ReceivingKeepsState(head, labels + [finish], receive);
    CopyIn.TerminatorIsHonest(head, labels + [finish] + receive);
    more := [finish] + receive;
    AppendAssoc(labels, [finish], receive);
  }

  /** Any calls of which only the last one ends the writing are made in a run that goes to its end. */
  lemma CallsComplete(head: seq<byte>, calls: seq<Call>) returns (steps: seq<Step>)
    requires calls != [] && !After(Front(calls)).ended && After(calls).ended
    ensures var t := Run(head, steps);
            && ToldComplete(Copy(head, t)) && t.calls == calls
            && File(Copy(head, t)) == After(calls).taken && t.reported == After(calls).reported
  {
    var t := Run(head, Calls(calls));
    CallsStayLive(head, calls);
    RunIsKept(head, Calls(calls));
    var more := FinishIsTold(head, t.labels);
    steps := Calls(calls) + Others(more);
    OthersGoOn(head, Calls(calls), t, more);
    CompleteIsAfter(head, steps);
    CallsBalance(calls);
    AppendEmpty(After(calls).taken);
  }

  // ---------------------------------------------------------------------------
  // Such runs
  // ---------------------------------------------------------------------------

  lemma TwoCalls(calls: seq<Call>, x: Call, y: Call)
    requires calls == [x, y]
    ensures Front(calls) == [x] && Front([x]) == [] && After(calls) == Perform(Perform(After([]), x), y)
    ensures EverDrops(calls) <==> DropsAt(FillAfter([]), x) || DropsAt(FillAfter([x]), y)
    ensures EverFails(calls) <==> FailsAt(FillAfter([]), x) || FailsAt(FillAfter([x]), y)
  {
    assert Front(calls) == [x] && Front([x]) == [];
    assert [] + [x] == [x] && [x] + [y] == calls;
    CallsPush([], x);
    CallsPush([x], y);
  }

  lemma OneValueSize(value: seq<byte>)
    requires |value| <= I32_MAX
    ensures !RowFails([Bytes(value)]) && RowSize([Bytes(value)]) == 6 + |value|
  {
    EncodeOne(Bytes(value), 0);
  }

  /**
   A first row that does not fit a message together with the header is refused and takes the
   header along: the COPY can still be completed, with a file that is the trailer alone.
   */
  lemma RefusalLosesHeader(head: seq<byte>, value: seq<byte>) returns (steps: seq<Step>)
    requires |value| <= I32_MAX && HEADER_LEN + 6 + |value| + 4 > I32_MAX
    ensures var t := Run(head, steps);
            && t.calls == [WriteCall([Bytes(value)]), FinishCall] && EverDrops(t.calls) && !EverFails(t.calls)
            && ToldComplete(Copy(head, t)) && File(Copy(head, t)) == TRAILER && t.reported == []
  {
    var write := WriteCall([Bytes(value)]);
    var calls := [write, FinishCall];
    OneValueSize(value);
    TwoCalls(calls, write, FinishCall);
    AppendEmpty(TRAILER);
    steps := CallsComplete(head, calls);
  }

  /** Two rows that leave the same bytes, although the first one fails. */
  function FailingTwin(v: seq<byte>): seq<Value>
    requires |v| <= I32_MAX
  {
    [Fails(BE32(|v|) + v), Null]
  }

  function Twin(v: seq<byte>): seq<Value> { [Bytes([]), Bytes(v)] }

  lemma TwinsAreTwins(v: seq<byte>)
    requires |v| <= I32_MAX
    ensures RowFails(FailingTwin(v)) && !RowFails(Twin(v))
    ensures EncodeRow(FailingTwin(v)).bytes == EncodeRow(Twin(v)).bytes && RowSize(Twin(v)) == 10 + |v|
  {
    EncodeOne(Bytes(v), 1);
    assert Twin(v)[1..] == [Bytes(v)];
    AppendEmpty(BE32(0));
    AppendAssoc(BE32(0), BE32(|v|), v);
  }

  lemma HugeRow(huge: seq<byte>)
    requires |huge| == I32_MAX
    ensures !RowFails([Bytes(huge), Null]) && RowSize([Bytes(huge), Null]) > LIMIT
  {
    EncodeOne(Null, 1);
    assert [Bytes(huge), Null][1..] == [Null];
  }

  /** A failing row and its twin are handed over, another twin is buffered, and a huge row throws that away. */
  function CancellingCalls(v: seq<byte>, huge: seq<byte>): seq<Call>
    requires |v| <= I32_MAX
  {
    [WriteCall(FailingTwin(v)), WriteCall(Twin(v)), WriteCall(Twin(v)), WriteCall([Bytes(huge), Null]), FinishCall]
  }

  lemma HandedOver(p: Progress, values: seq<Value>, chunk: seq<byte>)
    requires !p.ended && !RowFails(values) && chunk == p.buf + EncodeRow(values).bytes && CHUNK < |chunk| <= LIMIT
    ensures Perform(p, WriteCall(values)) == Progress([], p.taken + chunk, p.reported + [Cells(values)], false)
  {}

  lemma CancellingProgress(v: seq<byte>, huge: seq<byte>, b: seq<byte>, row: seq<Cell>)
    requires 2100 <= |v| <= 4000 && |huge| == I32_MAX && b == EncodeRow(Twin(v)).bytes && row == Cells(Twin(v))
    ensures var p2 := Progress([], HEADER + b + b, [row], false);
            && Perform(After([]), WriteCall(FailingTwin(v))) == Progress(HEADER + b, [], [], false)
            && Perform(Progress(HEADER + b, [], [], false), WriteCall(Twin(v))) == p2
            && Perform(p2, WriteCall(Twin(v))) == p2.(buf := b, reported := [row, row])
            && Perform(p2.(buf := b, reported := [row, row]), WriteCall([Bytes(huge), Null])) == p2.(reported := [row, row])
  {
    TwinsAreTwins(v);
    HugeRow(huge);
    HandedOver(Progress(HEADER + b, [], [], false), Twin(v), HEADER + b + b);
    AppendEmpty(HEADER + b + b);
    AppendEmpty([row]);
    AppendEmpty(b);
  }

  /** The calls one after the other. */
  lemma CancellingSteps(v: seq<byte>, huge: seq<byte>, calls: seq<Call>, b: seq<byte>, row: seq<Cell>)
    requires 2100 <= |v| <= 4000 && |huge| == I32_MAX && calls == CancellingCalls(v, huge)
    requires b == EncodeRow(Twin(v)).bytes && row == Cells(Twin(v))
    ensures After(Front(calls)) == Progress([], HEADER + b + b, [row, row], false)
    ensures EverFails(calls) && EverDrops(calls)
  {
    var c1, w, h := [WriteCall(FailingTwin(v))], WriteCall(Twin(v)), WriteCall([Bytes(huge), Null]);
    CancellingProgress(v, huge, b, row);
    TwinsAreTwins(v);
    HugeRow(huge);
    assert [] + c1 == c1;
    CallsPush([], c1[0]);
    CallsPush(c1, w);
    CallsPush(c1 + [w], w);
    FillIsRight(c1 + [w] + [w]);
    CallsPush(c1 + [w] + [w], h);
    assert Front(calls) == c1 + [w] + [w] + [h] && calls == Front(calls) + [FinishCall];
    CallsPush(Front(calls), FinishCall);
  }

  /**
   With both a row that failed and a chunk thrown away the file may be wrong or, if the bytes
   left behind make up for those that are missing, right: here the tuple of a row reported to
   be written is lost, and what the failed row left stands in its place.
   */
  lemma FailureCanHideLoss(head: seq<byte>, v: seq<byte>, huge: seq<byte>) returns (steps: seq<Step>)
    requires 2100 <= |v| <= 4000 && |huge| == I32_MAX
    ensures var t := Run(head, steps);
            && t.calls == CancellingCalls(v, huge) && EverFails(t.calls) && EverDrops(t.calls)
            && ToldComplete(Copy(head, t))
            && File(Copy(head, t)) == HEADER + Tuples(t.reported) + TRAILER
  {
    var calls, b, row := CancellingCalls(v, huge), EncodeRow(Twin(v)).bytes, Cells(Twin(v));
    CancellingSteps(v, huge, calls, b, row);
    CallsPush(Front(calls), FinishCall);
    assert calls == Front(calls) + [FinishCall];
    AppendEmpty(TRAILER);
    RowIsTuple(Twin(v));
    TwoTuples(row);
    AppendAssoc(HEADER, b, b);
    steps := CallsComplete(head, calls);
  }

  lemma TwoTuples(row: seq<Cell>)
    ensures Tuples([row, row]) == Tuple(row) + Tuple(row)
  {
    assert [row, row] == [row] + [row] && [row] == [] + [row];
    TuplesPush([], row);
    TuplesPush([row], row);
    AppendEmpty(Tuple(row));
  }
}
