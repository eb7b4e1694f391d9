/**
 The connection and the data path of one COPY ... FROM STDIN together: what the receiver
 gives is what the connection writes for that request.
 */
module CopyWire {
  import opened Wrappers
  import opened Bytes
  import opened Sequences
  import opened Framing
  import Connection
  import CopyIn

  // ---------------------------------------------------------------------------
  // The joint system
  // ---------------------------------------------------------------------------

  /** CopyDone and Sync. */
  const COPY_DONE_SYNC: seq<byte> := [99, 0, 0, 0, 4, 83, 0, 0, 0, 4]

  /** CopyFail with an empty text, and Sync. */
  const COPY_FAIL_SYNC: seq<byte> := [102, 0, 0, 0, 5, 0, 83, 0, 0, 0, 4]

  /** A message of the protocol. */
  function MessageWith(tag: byte, body: seq<byte>): seq<byte>
    requires |body| + 4 <= I32_MAX
  {
    [tag] + BE32(|body| + 4) + body
  }

  /** Both terminators are two messages: 'c' or 'f' with an empty text, and 'S'. */
  lemma TerminatorsAreMessages()
    ensures COPY_DONE_SYNC == MessageWith('c' as int, []) + MessageWith('S' as int, [])
    ensures COPY_FAIL_SYNC == MessageWith('f' as int, [0]) + MessageWith('S' as int, [])
  {}

  /** The bytes of what the receiver gives. */
  function MessageOf(e: CopyIn.Emission): seq<byte> {
    match e
    case Head(bytes) => bytes
    case Data(payload) => if CopyIn.LengthFits(payload) then CopyIn.DataMessage(payload) else []
    case DoneSync => COPY_DONE_SYNC
    case FailSync => COPY_FAIL_SYNC
  }

  function Messages(es: seq<CopyIn.Emission>): (ms: seq<seq<byte>>)
    ensures |ms| == |es| && forall i :: 0 <= i < |es| ==> ms[i] == MessageOf(es[i])
  {
    seq(|es|, i requires 0 <= i < |es| => MessageOf(es[i]))
  }

  /** Which request is the COPY, and what both sides start with. */
  datatype Setup = Setup(delayed: seq<Frame>, id: nat, head: seq<byte>)

  /** What both sides have done so far. */
  datatype Joint = Joint(labels: seq<Connection.Label>, copyLabels: seq<CopyIn.Label>)

  function Conn(x: Setup, j: Joint): Connection.Conn { Connection.Run(x.delayed, j.labels) }

  function Copy(x: Setup, j: Joint): CopyIn.Copy { CopyIn.Run(x.head, j.copyLabels) }

  datatype Step = OfConnection(step: Connection.Label) | OfSink(copyStep: CopyIn.Label) | PollReceiver

  predicate Feeds(l: Connection.Label, id: nat) {
    l.Env? && ((l.step.CopyMessage? && l.step.id == id) || (l.step.CopyEnd? && l.step.id == id))
  }

  /** The connection polls the receiver of a COPY that has been enqueued, until it gives nothing more. */
  function Polled(x: Setup, j: Joint): Joint {
    var c, s := Conn(x, j), Copy(x, j);
    if x.id >= |c.sources| || !c.sources[x.id].Copy? || c.sources[x.id].ended || !s.sink.channel.alive then j
    else
      match CopyIn.PollNext(s.sink.channel, s.receiverDone).2
      case Item(e) =>
        Joint(j.labels + [Connection.Env(Connection.CopyMessage(x.id, MessageOf(e)))], j.copyLabels + [CopyIn.Receive])
      case Waiting => j
      case Ended => j.(labels := j.labels + [Connection.Env(Connection.CopyEnd(x.id))])
  }

  /** Nobody else feeds the request or takes from the receiver. */
  function Next(x: Setup, j: Joint, s: Step): Joint {
    match s
    case OfConnection(l) => if Feeds(l, x.id) then j else j.(labels := j.labels + [l])
    case OfSink(l) => if l.Receive? then j else j.(copyLabels := j.copyLabels + [l])
    case PollReceiver => Polled(x, j)
  }

  function Run(x: Setup, steps: seq<Step>): Joint {
    if steps == [] then Joint([], []) else Next(x, Run(x, Front(steps)), Last(steps))
  }

  // ---------------------------------------------------------------------------
  // What every step keeps
  // ---------------------------------------------------------------------------

  /** What the request has written and still holds is what the receiver has given. */
  ghost predicate Fed(id: nat, c: Connection.Conn, s: CopyIn.Copy) {
    if id < |c.sources| && c.sources[id].Copy? then
      && Connection.Full(c.sources[id]) == Messages(s.emitted)
      && (c.sources[id].ended ==> s.receiverDone)
    else s.emitted == []
  }

  /** The request is as it was, apart from having written more of what it holds. */
  ghost predicate SameRequest(id: nat, c: Connection.Conn, c': Connection.Conn) {
    if id < |c.sources| then
      && id < |c'.sources| && (c'.sources[id].Copy? <==> c.sources[id].Copy?)
      && Connection.Full(c'.sources[id]) == Connection.Full(c.sources[id])
      && (Connection.CopyEnded(c'.sources[id]) <==> Connection.CopyEnded(c.sources[id]))
    else id < |c'.sources| && c'.sources[id].Copy? ==> c'.sources[id] == Connection.Copy([], false, [])
  }

  lemma EnvIsSame(id: nat, c: Connection.Conn, e: Connection.EnvStep)
    requires !Feeds(Connection.Env(e), id)
    ensures SameRequest(id, c, Connection.EnvNext(c, e))
  {}

  lemma CopyIsSame(id: nat, c: Connection.Conn, k: nat)
    requires k < |c.sources| && c.sources[k].Copy?
    ensures SameRequest(id, c, Connection.WriteCopy(c, k).0)
  {
    var s := c.sources[k];
    if s.queue != [] {
      assert s.emitted + [s.queue[0]] + s.queue[1..] == s.emitted + s.queue;
    }
  }

  lemma WriteIsSame(id: nat, c: Connection.Conn, sink: Connection.SinkPoll)
    ensures SameRequest(id, c, Connection.WriteRound(c, sink).0)
  {
    if c.pendingRequest.Some? && c.pendingRequest.value < |c.sources| {
      if c.sources[c.pendingRequest.value].Copy? {
        CopyIsSame(id, c, c.pendingRequest.value);
      }
    } else if c.polled < |c.sources| && c.sources[c.polled].Copy? {
      CopyIsSame(id, Connection.TakeRequest(c), c.polled);
    }
  }

  lemma StepIsSame(id: nat, c: Connection.Conn, l: Connection.Label)
    requires !Feeds(l, id)
    ensures SameRequest(id, c, Connection.Next(c, l))
  {
    match l
    case Env(e) => EnvIsSame(id, c, e);
    case Read(socket, answers) => Connection.ReadIsSameWrite(c, socket, answers);
    case Write(sink) => WriteIsSame(id, c, sink);
  }

  lemma SinkStepGivesNothing(s: CopyIn.Copy, l: CopyIn.Label)
    requires !l.Receive?
    ensures CopyIn.Next(s, l).emitted == s.emitted && CopyIn.Next(s, l).receiverDone == s.receiverDone
  {}

  lemma MessagesPush(es: seq<CopyIn.Emission>, e: CopyIn.Emission)
    ensures Messages(es + [e]) == Messages(es) + [MessageOf(e)]
  {}

  lemma SameKeepsFed(id: nat, c: Connection.Conn, c': Connection.Conn, s: CopyIn.Copy)
    requires Fed(id, c, s) && SameRequest(id, c, c')
    ensures Fed(id, c', s)
  {}

  /** One message from the receiver to the request. */
  lemma GivenKeepsFed(id: nat, c: Connection.Conn, s: CopyIn.Copy, e: CopyIn.Emission)
    requires Fed(id, c, s) && id < |c.sources| && c.sources[id].Copy? && !c.sources[id].ended && s.sink.channel.alive
    requires CopyIn.PollNext(s.sink.channel, s.receiverDone).2 == CopyIn.Item(e)
    ensures Fed(id, Connection.EnvNext(c, Connection.CopyMessage(id, MessageOf(e))), CopyIn.Next(s, CopyIn.Receive))
  {
    MessagesPush(s.emitted, e);
    var q := c.sources[id];
    AppendAssoc(q.emitted, q.queue, [MessageOf(e)]);
  }

  lemma EndKeepsFed(id: nat, c: Connection.Conn, s: CopyIn.Copy)
    requires Fed(id, c, s) && s.receiverDone
    ensures Fed(id, Connection.EnvNext(c, Connection.CopyEnd(id)), s)
  {}

  lemma PollKeepsFed(x: Setup, j: Joint)
    requires Fed(x.id, Conn(x, j), Copy(x, j))
    ensures Fed(x.id, Conn(x, Polled(x, j)), Copy(x, Polled(x, j)))
  {
    var c, s := Conn(x, j), Copy(x, j);
    if x.id < |c.sources| && c.sources[x.id].Copy? && !c.sources[x.id].ended && s.sink.channel.alive {
      var r := CopyIn.PollNext(s.sink.channel, s.receiverDone).2;
      if r.Item? {
        Connection.RunPush(x.delayed, j.labels, Connection.Env(Connection.CopyMessage(x.id, MessageOf(r.emission))));
        CopyIn.RunPush(x.head, j.copyLabels, CopyIn.Receive);
        GivenKeepsFed(x.id, c, s, r.emission);
      } else if r.Ended? {
        Connection.RunPush(x.delayed, j.labels, Connection.Env(Connection.CopyEnd(x.id)));
        EndKeepsFed(x.id, c, s);
      }
    }
  }

  lemma StepKeepsFed(x: Setup, j: Joint, step: Step)
    requires Fed(x.id, Conn(x, j), Copy(x, j))
    ensures Fed(x.id, Conn(x, Next(x, j, step)), Copy(x, Next(x, j, step)))
  {
    var c, s := Conn(x, j), Copy(x, j);
    match step
    case OfConnection(l) =>
      if !Feeds(l, x.id) {
        Connection.RunPush(x.delayed, j.labels, l);
        StepIsSame(x.id, c, l);
        SameKeepsFed(x.id, c, Connection.Next(c, l), s);
      }
    case OfSink(l) =>
      if !l.Receive? {
        CopyIn.RunPush(x.head, j.copyLabels, l);
        SinkStepGivesNothing(s, l);
      }
    case PollReceiver => PollKeepsFed(x, j);
  }

  lemma {:induction false} RunIsFed(x: Setup, steps: seq<Step>)
    ensures Fed(x.id, Conn(x, Run(x, steps)), Copy(x, Run(x, steps)))
  {
    if steps != [] {
      RunIsFed(x, Front(steps));
      StepKeepsFed(x, Run(x, Front(steps)), Last(steps));
    }
  }

  // ---------------------------------------------------------------------------
  // The COPY on the wire
  // ---------------------------------------------------------------------------

  /** What the wire carries for one request. */
  function PartOf(wire: seq<Connection.WireItem>, id: nat): seq<seq<byte>> {
    if wire == [] then []
    else
      var item := Last(wire);
      PartOf(Front(wire), id) + if item.FromRequest? && item.id == id then [item.message] else []
  }

  lemma PartPush(all: seq<Connection.WireItem>, front: seq<Connection.WireItem>, item: Connection.WireItem, id: nat)
    requires all == front + [item]
    ensures PartOf(all, id) == PartOf(front, id) + if item.FromRequest? && item.id == id then [item.message] else []
  {
    assert Front(all) == front;
  }

  lemma {:induction false} PartAppend(a: seq<Connection.WireItem>, b: seq<Connection.WireItem>, id: nat)
    ensures PartOf(a + b, id) == PartOf(a, id) + PartOf(b, id)
    decreases |b|
  {
    if b == [] {
      AppendEmpty(a);
      AppendEmpty(PartOf(a, id));
    } else {
      var front, item := Front(b), Last(b);
      PartAppend(a, front, id);
      PartPush(b, front, item, id);
      PartPush(a + b, a + front, item, id);
      AppendAssoc(PartOf(a, id), PartOf(front, id), if item.FromRequest? && item.id == id then [item.message] else []);
    }
  }

  lemma {:induction false} PartOfTagged(k: nat, ms: seq<seq<byte>>, id: nat)
    ensures PartOf(Connection.Tagged(k, ms), id) == if k == id then ms else []
  {
    if ms != [] {
      assert Front(Connection.Tagged(k, ms)) == Connection.Tagged(k, Front(ms));
      PartOfTagged(k, Front(ms), id);
    }
  }

  lemma PartWithOneMore(wire: seq<Connection.WireItem>, before: seq<Connection.WireItem>, k: nat, ms: seq<seq<byte>>, id: nat)
    requires wire == before + Connection.Tagged(k, ms)
    ensures PartOf(wire, id) == PartOf(before, id) + if k == id then ms else []
  {
    PartOfTagged(k, ms, id);
    PartAppend(before, Connection.Tagged(k, ms), id);
  }

  /** What a request has written, if it is one of the first `n`. */
  function Share(sources: seq<Connection.Source>, n: nat, id: nat): seq<seq<byte>> {
    if id < n && id < |sources| then Connection.Outgoing(sources[id]) else []
  }

  lemma ShareOfOneMore(sources: seq<Connection.Source>, k: nat, id: nat)
    requires k < |sources|
    ensures Share(sources, k + 1, id) == Share(sources, k, id) + if k == id then Connection.Outgoing(sources[k]) else []
  {
    AppendEmpty(Share(sources, k, id));
  }

  lemma OneMoreRequest(sources: seq<Connection.Source>, k: nat, wire: seq<Connection.WireItem>, before: seq<Connection.WireItem>, id: nat)
    requires k < |sources| && before == Connection.WireOf(sources, k) && wire == Connection.WireOf(sources, k + 1)
    requires PartOf(before, id) == Share(sources, k, id)
    ensures PartOf(wire, id) == Share(sources, k + 1, id)
  {
    PartWithOneMore(wire, before, k, Connection.Outgoing(sources[k]), id);
    ShareOfOneMore(sources, k, id);
  }

  lemma {:induction false} PartOfRequests(sources: seq<Connection.Source>, n: nat, wire: seq<Connection.WireItem>, id: nat)
    requires n <= |sources| && wire == Connection.WireOf(sources, n)
    ensures PartOf(wire, id) == Share(sources, n, id)
    decreases n
  {
    if n > 0 {
      var k: nat := n - 1;
      var before := Connection.WireOf(sources, k);
      PartOfRequests(sources, k, before, id);
      OneMoreRequest(sources, k, wire, before, id);
    }
  }

  lemma PartOfWire(delayed: seq<Frame>, labels: seq<Connection.Label>, id: nat)
    requires Connection.AllNotices(delayed)
    ensures var c := Connection.Run(delayed, labels);
            c.polled <= |c.sources| && PartOf(c.wire, id) == if id < c.polled then Connection.Outgoing(c.sources[id]) else []
  {
    var c := Connection.Run(delayed, labels);
    Connection.WireIsExact(delayed, labels);
    PartOfRequests(c.sources, c.polled, Connection.WireOf(c.sources, c.polled), id);
    var bye := if c.state == Connection.Closing then [Connection.Terminate] else [];
    PartAppend(Connection.WireOf(c.sources, c.polled), bye, id);
    AppendEmpty(PartOf(Connection.WireOf(c.sources, c.polled), id));
    assert bye != [] ==> Front(bye) == [];
  }

  /** Something stands on the wire behind the request. */
  ghost predicate IsBehind(c: Connection.Conn, id: nat) {
    exists i :: 0 <= i < |c.wire| && (c.wire[i].Terminate? || c.wire[i].id > id)
  }

  lemma BehindMeansDone(delayed: seq<Frame>, labels: seq<Connection.Label>, id: nat)
    requires Connection.AllNotices(delayed)
    requires var c := Connection.Run(delayed, labels); id < |c.sources| && IsBehind(c, id)
    ensures var c := Connection.Run(delayed, labels); id < c.polled && Connection.CopyDone(c.sources[id])
  {
    var c := Connection.Run(delayed, labels);
    Connection.WireIsExact(delayed, labels);
    var i :| 0 <= i < |c.wire| && (c.wire[i].Terminate? || c.wire[i].id > id);
    if c.wire[i].FromRequest? {
      var requests := Connection.WireOf(c.sources, c.polled);
      assert i < |requests| && requests[i] == c.wire[i];
      Connection.RequestsAreNotTerminate(c.sources, c.polled, i);
    }
  }

  /**
   The whole of a COPY: all that its receiver gave, ending in one message that says whether
   the sink was finished. If it was, the data in front are exactly the bytes accepted, unless
   some were thrown away.
   */
  ghost predicate IsWholeCopy(head: seq<byte>, labels: seq<CopyIn.Label>, part: seq<seq<byte>>) {
    var s := CopyIn.Run(head, labels);
    && part == Messages(s.emitted) && part != [] && s.receiverDone
    && Last(part) == (if s.sink.state == CopyIn.Reading then COPY_DONE_SYNC else COPY_FAIL_SYNC)
    && (s.sink.state == CopyIn.Reading ==>
          (CopyIn.Emitted(s.emitted) == s.accepted <==> !CopyIn.EverJoinsTooMuch(head, labels)))
  }

  lemma EndedIsWhole(head: seq<byte>, labels: seq<CopyIn.Label>, part: seq<seq<byte>>)
    requires CopyIn.Run(head, labels).receiverDone && part == Messages(CopyIn.Run(head, labels).emitted)
    ensures IsWholeCopy(head, labels, part)
  {
    var s := CopyIn.Run(head, labels);
    CopyIn.TerminatorIsHonest(head, labels);
    CopyIn.RunIsSound(head, labels);
    assert Last(part) == MessageOf(Last(s.emitted));
  }

  lemma FedPart(id: nat, c: Connection.Conn, s: CopyIn.Copy, part: seq<seq<byte>>)
    requires Fed(id, c, s) && id < |c.sources| && c.sources[id].Copy?
    requires part == if id < c.polled then Connection.Outgoing(c.sources[id]) else []
    ensures part <= Messages(s.emitted)
    ensures id < c.polled && Connection.CopyDone(c.sources[id]) ==> part == Messages(s.emitted) && s.receiverDone
  {
    AppendEmpty(c.sources[id].emitted);
  }

  /**
   Whatever the connection, the sink's user and the other requests do, the wire carries for a
   COPY a prefix of what its receiver has given, and the whole of it once anything stands
   behind it on the wire.
   */
  lemma CopyReachesTheWire(x: Setup, steps: seq<Step>)
    requires Connection.AllNotices(x.delayed)
    requires var c := Conn(x, Run(x, steps)); x.id < |c.sources| && c.sources[x.id].Copy?
    ensures var j := Run(x, steps);
            var part := PartOf(Conn(x, j).wire, x.id);
            && part <= Messages(Copy(x, j).emitted)
            && (IsBehind(Conn(x, j), x.id) ==> IsWholeCopy(x.head, j.copyLabels, part))
  {
    var j := Run(x, steps);
    var c, s := Conn(x, j), Copy(x, j);
    var part := PartOf(c.wire, x.id);
    RunIsFed(x, steps);
    PartOfWire(x.delayed, j.labels, x.id);
    FedPart(x.id, c, s, part);
    if IsBehind(c, x.id) {
      BehindMeansDone(x.delayed, j.labels, x.id);
      EndedIsWhole(x.head, j.copyLabels, part);
    }
  }
}
