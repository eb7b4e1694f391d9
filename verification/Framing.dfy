/**
 Cutting the server's byte stream into batches of messages. A message is a tag byte,
 a four-byte length that counts itself, and a body.
 */
module Framing {
  import opened Wrappers
  import opened Bytes
  import opened Sequences

  const NOTIFICATION_RESPONSE_TAG: byte := 65
  const NOTICE_RESPONSE_TAG: byte := 78
  const PARAMETER_STATUS_TAG: byte := 83
  const READY_FOR_QUERY_TAG: byte := 90

  /** The bytes of one complete message. */
  type Frame = seq<byte>

  predicate IsAsyncTag(tag: byte) {
    tag == NOTICE_RESPONSE_TAG || tag == NOTIFICATION_RESPONSE_TAG || tag == PARAMETER_STATUS_TAG
  }

  datatype Header = NoHeader | BadHeader | Header(tag: byte, len: nat)

  function ParseHeader(buf: seq<byte>): (h: Header)
    ensures h.Header? ==> |buf| >= 5 && h.len >= 4
  {
    if |buf| < 5 then NoHeader
    else
      var len := FromBE32(buf[1..5]);
      if len < 4 then BadHeader else Header(buf[0], len)
  }

  /** The size of the message the buffer starts with, or 0 when it is not complete. */
  function RawSize(buf: seq<byte>): (n: nat)
    ensures n <= |buf| && (n > 0 ==> n >= 5)
  {
    var h := ParseHeader(buf);
    if h.Header? && |buf| >= h.len + 1 then h.len + 1 else 0
  }

  /** What follows the first zero byte. */
  function AfterCString(s: seq<byte>): (rest: Option<seq<byte>>)
    ensures rest.Some? ==> |rest.value| < |s|
  {
    if s == [] then None else if s[0] == 0 then Some(s[1..]) else AfterCString(s[1..])
  }

  /** Two strings and nothing else. */
  predicate TwoStrings(s: seq<byte>) {
    AfterCString(s).Some? && AfterCString(AfterCString(s).value) == Some([])
  }

  /** An asynchronous message whose body cannot be parsed; a notice's body is taken as it is. */
  predicate BrokenAsync(f: seq<byte>)
    requires |f| >= 5
  {
    (f[0] == PARAMETER_STATUS_TAG && !TwoStrings(f[5..]))
    || (f[0] == NOTIFICATION_RESPONSE_TAG && (|f| < 9 || !TwoStrings(f[9..])))
  }

  predicate BrokenHeader(buf: seq<byte>) { ParseHeader(buf).BadHeader? }

  predicate BadAsync(buf: seq<byte>) { RawSize(buf) > 0 && BrokenAsync(buf[..RawSize(buf)]) }

  /** The size of the complete message the buffer starts with, or 0 when there is no good one. */
  function FrameSize(buf: seq<byte>): (n: nat)
    ensures n <= |buf| && (n > 0 ==> n >= 5)
  {
    if BadAsync(buf) then 0 else RawSize(buf)
  }

  /** A single complete message. */
  predicate IsFrame(f: seq<byte>) { f != [] && FrameSize(f) == |f| }

  /** Nothing can be decoded any more. */
  predicate BadStart(buf: seq<byte>) { BrokenHeader(buf) || BadAsync(buf) }

  predicate IsAsync(f: Frame) { f != [] && IsAsyncTag(f[0]) }

  predicate IsReady(f: Frame) { f != [] && f[0] == READY_FOR_QUERY_TAG }

  /** A frame after which a batch always ends. */
  predicate IsBoundary(f: Frame) { IsAsync(f) || IsReady(f) }

  lemma RawSizeWithMore(buf: seq<byte>, more: seq<byte>)
    ensures BrokenHeader(buf) ==> BrokenHeader(buf + more)
    ensures RawSize(buf) > 0 ==> RawSize(buf + more) == RawSize(buf) == RawSize(buf[..RawSize(buf)])
    ensures RawSize(buf) > 0 ==> (buf + more)[..RawSize(buf)] == buf[..RawSize(buf)] && !BrokenHeader(buf + more)
  {
    if |buf| >= 5 {
      assert (buf + more)[1..5] == buf[1..5];
      var n := RawSize(buf);
      if n > 0 {
        assert buf[..n][1..5] == buf[1..5];
      }
    }
  }

  /** A message at the front does not depend on what follows it. */
  lemma SizeWithMore(buf: seq<byte>, more: seq<byte>)
    ensures FrameSize(buf) > 0 ==> FrameSize(buf + more) == FrameSize(buf)
    ensures FrameSize(buf) > 0 ==> IsFrame(buf[..FrameSize(buf)])
    ensures BadStart(buf) ==> BadStart(buf + more) && FrameSize(buf) == 0 && (BrokenHeader(buf + more) <==> BrokenHeader(buf))
  {
    RawSizeWithMore(buf, more);
    var n := RawSize(buf);
    if n > 0 {
      assert buf[..n][..n] == buf[..n];
    }
  }

  // ---------------------------------------------------------------------------
  // Reference: all messages of a byte string
  // ---------------------------------------------------------------------------

  /** `bad` when a broken header or a broken asynchronous message follows the good messages. */
  datatype Parsed = Parsed(frames: seq<Frame>, rest: seq<byte>, bad: bool)

  /** `p` with more frames in front. */
  function Prepend(fs: seq<Frame>, p: Parsed): Parsed {
    p.(frames := fs + p.frames)
  }

  function Parse(buf: seq<byte>): (p: Parsed)
    decreases |buf|
  {
    var n := FrameSize(buf);
    if n > 0 then Prepend([buf[..n]], Parse(buf[n..])) else Parsed([], buf, BadStart(buf))
  }

  ghost predicate AllFrames(fs: seq<Frame>) {
    fs == [] || (IsFrame(fs[0]) && AllFrames(fs[1..]))
  }

  lemma {:induction false} ParseIsExact(buf: seq<byte>)
    ensures buf == Concat(Parse(buf).frames) + Parse(buf).rest
    ensures AllFrames(Parse(buf).frames) && FrameSize(Parse(buf).rest) == 0
    ensures Parse(buf).bad <==> BadStart(Parse(buf).rest)
    decreases |buf|
  {
    var n := FrameSize(buf);
    if n > 0 {
      var f, more := buf[..n], buf[n..];
      ParseIsExact(more);
      FirstFrame(buf, f, more);
      PrependIsExact(f, Parse(more));
    }
  }

  lemma FirstFrame(buf: seq<byte>, f: Frame, more: seq<byte>)
    requires FrameSize(buf) > 0 && f == buf[..FrameSize(buf)] && more == buf[FrameSize(buf)..]
    ensures IsFrame(f) && buf == f + more && Parse(buf) == Prepend([f], Parse(more))
  {
    SizeWithMore(buf, []);
  }

  lemma PrependIsExact(f: Frame, p: Parsed)
    ensures Concat(Prepend([f], p).frames) + p.rest == f + (Concat(p.frames) + p.rest)
    ensures IsFrame(f) && AllFrames(p.frames) ==> AllFrames(Prepend([f], p).frames)
  {
    ConcatCons(f, p.frames);
    assert ([f] + p.frames)[1..] == p.frames;
  }

  function Concat(fs: seq<seq<byte>>): seq<byte> {
    if fs == [] then [] else fs[0] + Concat(fs[1..])
  }

  lemma ConcatCons(f: seq<byte>, fs: seq<seq<byte>>)
    ensures Concat([f] + fs) == f + Concat(fs)
  {
    assert ([f] + fs)[1..] == fs;
  }

  lemma {:induction false} ConcatAppend(xs: seq<seq<byte>>, ys: seq<seq<byte>>)
    ensures Concat(xs + ys) == Concat(xs) + Concat(ys)
  {
    if xs == [] {
      assert xs + ys == ys;
    } else {
      assert (xs + ys)[1..] == xs[1..] + ys;
      ConcatAppend(xs[1..], ys);
    }
  }

  lemma PrependTwice(xs: seq<Frame>, ys: seq<Frame>, p: Parsed)
    ensures Prepend(xs, Prepend(ys, p)) == Prepend(xs + ys, p)
    ensures Prepend([], p) == p
  {
    assert xs + ys + p.frames == xs + (ys + p.frames);
  }

  lemma ParseCons(f: Frame, more: seq<byte>)
    requires IsFrame(f)
    ensures Parse(f + more) == Prepend([f], Parse(more))
  {
    SizeWithMore(f, more);
    assert (f + more)[..|f|] == f && (f + more)[|f|..] == more;
  }

  lemma {:induction false} ParseFrames(fs: seq<Frame>, more: seq<byte>)
    requires AllFrames(fs)
    ensures Parse(Concat(fs) + more) == Prepend(fs, Parse(more))
  {
    if fs == [] {
      assert Concat(fs) + more == more;
      PrependTwice([], [], Parse(more));
    } else {
      var f, gs := fs[0], fs[1..];
      ParseFrames(gs, more);
      ParseMore(f, gs, Concat(gs) + more, Parse(more));
      AppendAssoc(f, Concat(gs), more);
      assert [f] + gs == fs;
    }
  }

  lemma ParseMore(f: Frame, fs: seq<Frame>, tail: seq<byte>, p: Parsed)
    requires IsFrame(f) && Parse(tail) == Prepend(fs, p)
    ensures Parse(f + tail) == Prepend([f] + fs, p)
  {
    ParseCons(f, tail);
    PrependTwice([f], fs, p);
  }

  /** Parsing continues from the unfinished tail when more bytes arrive. */
  lemma ParseAppend(buf: seq<byte>, more: seq<byte>)
    ensures Parse(buf + more) == Prepend(Parse(buf).frames, Parse(Parse(buf).rest + more))
  {
    var p := Parse(buf);
    ParseIsExact(buf);
    assert buf + more == Concat(p.frames) + (p.rest + more);
    ParseFrames(p.frames, p.rest + more);
  }

  // ---------------------------------------------------------------------------
  // One decoding
  // ---------------------------------------------------------------------------

  datatype Item = Normal(messages: seq<byte>, requestComplete: bool) | Async(message: seq<byte>)

  datatype Decoded = NeedMore | Failed | Got(item: Item, rest: seq<byte>)

  function BytesOf(item: Item): seq<byte> {
    if item.Normal? then item.messages else item.message
  }

  /** How many bytes the batch of normal messages at the start of the buffer has. */
  datatype Scan = ScanFailed | ScanEnd(size: nat, requestComplete: bool)

  function ScanBatch(buf: seq<byte>): (r: Scan)
    ensures r.ScanEnd? ==> r.size <= |buf|
    decreases |buf|
  {
    var n := FrameSize(buf);
    if n == 0 then
      if BrokenHeader(buf) then ScanFailed else ScanEnd(0, false)
    else if IsAsyncTag(buf[0]) then ScanEnd(0, false)
    else if buf[0] == READY_FOR_QUERY_TAG then ScanEnd(n, true)
    else
      var r := ScanBatch(buf[n..]);
      if r.ScanFailed? then r else r.(size := n + r.size)
  }

  function Decode(src: seq<byte>): Decoded {
    var n := FrameSize(src);
    if n > 0 && IsAsyncTag(src[0]) then Got(Async(src[..n]), src[n..])
    else if BadAsync(src) then Failed
    else
      match ScanBatch(src)
      case ScanFailed => Failed
      case ScanEnd(size, complete) => if size == 0 then NeedMore else Got(Normal(src[..size], complete), src[size..])
  }

  // ---------------------------------------------------------------------------
  // What one decoding takes
  // ---------------------------------------------------------------------------

  /** Frames that stay in one batch: neither asynchronous nor the end of a request. */
  ghost predicate Quiet(fs: seq<Frame>) {
    forall i :: 0 <= i < |fs| ==> !IsBoundary(fs[i])
  }

  /** The messages of a batch: normal ones only, and at most the last ends a request. */
  ghost predicate IsBatch(fs: seq<Frame>, requestComplete: bool) {
    if requestComplete then fs != [] && Quiet(fs[..|fs| - 1]) && IsReady(fs[|fs| - 1]) && !IsAsync(fs[|fs| - 1])
    else Quiet(fs)
  }

  /** Nothing more can join a batch before `p`. */
  ghost predicate StopsBefore(p: Parsed) {
    if p.frames == [] then !BrokenHeader(p.rest) else IsAsync(p.frames[0])
  }

  lemma FramesCons(f: Frame, gs: seq<Frame>)
    requires IsFrame(f) && AllFrames(gs)
    ensures AllFrames([f] + gs)
  {
    assert ([f] + gs)[1..] == gs;
  }

  lemma BatchCons(f: Frame, gs: seq<Frame>, complete: bool)
    requires !IsBoundary(f) && IsBatch(gs, complete)
    ensures IsBatch([f] + gs, complete)
  {
    if complete {
      assert ([f] + gs)[..|gs|] == [f] + gs[..|gs| - 1];
    }
  }

  lemma ParseHere(buf: seq<byte>)
    ensures var n := FrameSize(buf);
            if n > 0 then IsFrame(buf[..n]) && Parse(buf) == Prepend([buf[..n]], Parse(buf[n..]))
            else Parse(buf) == Parsed([], buf, BadStart(buf))
  {
    SizeWithMore(buf, []);
  }

  /** The bytes are the batch `fs`, `p` is what was there to parse and `q` what is left. */
  ghost predicate Takes(bytes: seq<byte>, requestComplete: bool, p: Parsed, q: Parsed, fs: seq<Frame>) {
    && AllFrames(fs) && bytes == Concat(fs) && IsBatch(fs, requestComplete)
    && p == Prepend(fs, q)
    && (!requestComplete ==> StopsBefore(q))
  }

  lemma TakesCons(f: Frame, bytes: seq<byte>, requestComplete: bool, p: Parsed, q: Parsed, fs: seq<Frame>)
    requires IsFrame(f) && !IsBoundary(f) && Takes(bytes, requestComplete, p, q, fs)
    ensures Takes(f + bytes, requestComplete, Prepend([f], p), q, [f] + fs)
  {
    FramesCons(f, fs);
    BatchCons(f, fs, requestComplete);
    ConcatCons(f, fs);
    PrependTwice([f], fs, q);
  }

  /** The scan takes a batch of whole messages, and fails only in front of a broken header. */
  ghost predicate ScanTakes(buf: seq<byte>, fs: seq<Frame>) {
    match ScanBatch(buf)
    case ScanFailed => BrokenHeader(Parse(buf).rest) && Parse(buf).frames == fs && Quiet(fs)
    case ScanEnd(size, complete) => Takes(buf[..size], complete, Parse(buf), Parse(buf[size..]), fs)
  }

  lemma ScanStopsHere(buf: seq<byte>)
    requires FrameSize(buf) == 0 || IsAsyncTag(buf[0])
    ensures ScanTakes(buf, [])
  {
    ParseHere(buf);
    PrependTwice([], [], Parse(buf));
    assert buf[0..] == buf;
  }

  lemma ScanEndsRequest(buf: seq<byte>)
    requires FrameSize(buf) > 0 && buf[0] == READY_FOR_QUERY_TAG
    ensures ScanTakes(buf, [buf[..FrameSize(buf)]])
  {
    ParseHere(buf);
    ConcatCons(buf[..FrameSize(buf)], []);
  }

  lemma ScanStep(buf: seq<byte>, n: nat, tail: seq<byte>)
    requires n == FrameSize(buf) > 0 && !IsBoundary(buf[..n]) && tail == buf[n..]
    ensures ScanBatch(buf) == if ScanBatch(tail).ScanFailed? then ScanFailed
                              else ScanEnd(n + ScanBatch(tail).size, ScanBatch(tail).requestComplete)
    ensures Parse(buf) == Prepend([buf[..n]], Parse(tail))
  {}

  lemma ScanGoesOn(buf: seq<byte>, n: nat, tail: seq<byte>, gs: seq<Frame>)
    requires n == FrameSize(buf) > 0 && !IsBoundary(buf[..n]) && tail == buf[n..] && ScanTakes(tail, gs)
    ensures ScanTakes(buf, [buf[..n]] + gs)
  {
    ScanStep(buf, n, tail);
    ParseHere(buf);
    var r := ScanBatch(tail);
    if r.ScanFailed? {
      BatchCons(buf[..n], gs, false);
    } else {
      BatchGoesOn(buf, n, tail, r.size, r.requestComplete, gs);
    }
  }

  lemma BatchGoesOn(buf: seq<byte>, n: nat, tail: seq<byte>, size: nat, complete: bool, gs: seq<Frame>)
    requires n <= |buf| && tail == buf[n..] && size <= |tail| && IsFrame(buf[..n]) && !IsBoundary(buf[..n])
    requires Takes(tail[..size], complete, Parse(tail), Parse(tail[size..]), gs)
    ensures Takes(buf[..n + size], complete, Prepend([buf[..n]], Parse(tail)), Parse(buf[n + size..]), [buf[..n]] + gs)
  {
    TakesCons(buf[..n], tail[..size], complete, Parse(tail), Parse(tail[size..]), gs);
    SplitTwice(buf, n, size);
  }

  lemma {:induction false} ScanMeaning(buf: seq<byte>) returns (fs: seq<Frame>)
    ensures ScanTakes(buf, fs)
    decreases |buf|
  {
    var n := FrameSize(buf);
    if n == 0 || IsAsyncTag(buf[0]) {
      ScanStopsHere(buf);
      fs := [];
    } else if buf[0] == READY_FOR_QUERY_TAG {
      ScanEndsRequest(buf);
      fs := [buf[..n]];
    } else {
      var gs := ScanMeaning(buf[n..]);
      ScanGoesOn(buf, n, buf[n..], gs);
      fs := [buf[..n]] + gs;
    }
  }

  /** The messages inside a result. */
  function Messages(item: Item): seq<Frame> {
    Parse(BytesOf(item)).frames
  }

  /** What a result may contain: one asynchronous message, or a batch of normal ones. */
  ghost predicate GoodItem(item: Item) {
    && Messages(item) != [] && BytesOf(item) == Concat(Messages(item))
    && match item
       case Async(_) => |Messages(item)| == 1 && IsAsync(Messages(item)[0])
       case Normal(_, complete) => IsBatch(Messages(item), complete)
  }

  lemma ParseOfConcat(fs: seq<Frame>)
    requires AllFrames(fs)
    ensures Parse(Concat(fs)) == Parsed(fs, [], false)
  {
    ParseFrames(fs, []);
    assert Concat(fs) + [] == Concat(fs);
    assert fs + [] == fs;
  }

  lemma NoBytesNoFrames(fs: seq<Frame>)
    requires AllFrames(fs)
    ensures Concat(fs) == [] <==> fs == []
  {}

  lemma OneFrame(f: Frame)
    requires IsFrame(f)
    ensures Concat([f]) == f && Parse(f) == Parsed([f], [], false)
  {
    ConcatCons(f, []);
    assert [f] + [] == [f] && f + [] == f;
    ParseOfConcat([f]);
  }

  /** The meaning of one decoding of `src`. */
  ghost predicate DecodeTakes(src: seq<byte>, d: Decoded) {
    match d
    case Got(item, rest) =>
      && GoodItem(item) && src == BytesOf(item) + rest
      && Parse(src) == Prepend(Messages(item), Parse(rest))
      && (item.Normal? && !item.requestComplete ==> StopsBefore(Parse(rest)))
    case NeedMore => Parse(src) == Parsed([], src, false)
    case Failed => Parse(src).bad && Quiet(Parse(src).frames) && (Parse(src).frames != [] ==> BrokenHeader(Parse(src).rest))
  }

  lemma AsyncTakes(src: seq<byte>)
    requires FrameSize(src) > 0 && IsAsyncTag(src[0])
    ensures DecodeTakes(src, Decode(src))
  {
    ParseHere(src);
    OneFrame(src[..FrameSize(src)]);
  }

  lemma NormalTakes(src: seq<byte>, fs: seq<Frame>, size: nat, complete: bool)
    requires 0 < size <= |src| && Takes(src[..size], complete, Parse(src), Parse(src[size..]), fs)
    ensures DecodeTakes(src, Got(Normal(src[..size], complete), src[size..]))
  {
    ParseOfConcat(fs);
    NoBytesNoFrames(fs);
  }

  /**
   One decoding, on any buffer: it removes whole messages from the front; it waits exactly
   when no message is complete and none is broken; and it fails exactly when a broken
   header comes before any end of batch, or a broken asynchronous message comes first.
   */
  lemma DecodeMeaning(src: seq<byte>)
    ensures DecodeTakes(src, Decode(src))
  {
    if FrameSize(src) > 0 && IsAsyncTag(src[0]) {
      AsyncTakes(src);
    } else if BadAsync(src) {
      ParseHere(src);
    } else {
      var fs := ScanMeaning(src);
      match ScanBatch(src)
      case ScanFailed => ParseIsExact(src);
      case ScanEnd(size, complete) =>
        if size == 0 {
          WaitsWithoutFrames(src);
        } else {
          NormalTakes(src, fs, size, complete);
        }
    }
  }

  lemma WaitsWithoutFrames(src: seq<byte>)
    requires ScanBatch(src).ScanEnd? && ScanBatch(src).size == 0
    requires (FrameSize(src) == 0 || !IsAsyncTag(src[0])) && !BadAsync(src)
    ensures Parse(src) == Parsed([], src, false)
  {
    ParseHere(src);
  }

  // ---------------------------------------------------------------------------
  // Which asynchronous messages are broken
  // ---------------------------------------------------------------------------

  /** Two strings, each ended by a zero byte, and nothing behind them. */
  predicate AreStrings(s: seq<byte>, a: seq<byte>, b: seq<byte>) { 0 !in a && 0 !in b && s == a + ([0] + (b + [0])) }

  lemma {:induction false} CStringEnds(s: seq<byte>, a: seq<byte>, rest: seq<byte>)
    requires 0 !in a && s == a + ([0] + rest)
    ensures AfterCString(s) == Some(rest)
  {
    if a == [] {
      assert s == [0] + rest && s[1..] == rest;
    } else {
      assert s[0] == a[0] && s[1..] == a[1..] + ([0] + rest);
      CStringEnds(s[1..], a[1..], rest);
    }
  }

  lemma {:induction false} CStringStands(s: seq<byte>) returns (a: seq<byte>)
    requires AfterCString(s).Some?
    ensures 0 !in a && s == a + ([0] + AfterCString(s).value)
  {
    if s[0] == 0 {
      a := [];
      assert s == [0] + s[1..];
    } else {
      var more := CStringStands(s[1..]);
      a := [s[0]] + more;
      assert s == [s[0]] + s[1..];
    }
  }

  lemma TwoStringsExactly(s: seq<byte>)
    ensures TwoStrings(s) <==> exists a, b :: AreStrings(s, a, b)
  {
    if TwoStrings(s) {
      var a := CStringStands(s);
      var b := CStringStands(AfterCString(s).value);
      AppendEmpty([0]);
      assert AreStrings(s, a, b);
    }
    forall a, b | AreStrings(s, a, b) ensures TwoStrings(s) {
      CStringEnds(s, a, b + [0]);
      AppendEmpty([0]);
      CStringEnds(b + [0], b, []);
    }
  }

  /**
   A complete message is delivered if and only if it is no setting and no notification, or a
   setting of two strings, or a notification of four bytes and two strings.
   */
  lemma FrameExactly(f: seq<byte>)
    requires f != [] && RawSize(f) == |f|
    ensures IsFrame(f) <==>
              || (f[0] != PARAMETER_STATUS_TAG && f[0] != NOTIFICATION_RESPONSE_TAG)
              || (f[0] == PARAMETER_STATUS_TAG && exists a, b :: AreStrings(f[5..], a, b))
              || (f[0] == NOTIFICATION_RESPONSE_TAG && |f| >= 9 && exists a, b :: AreStrings(f[9..], a, b))
  {
    assert f[..|f|] == f;
    TwoStringsExactly(f[5..]);
    if |f| >= 9 {
      TwoStringsExactly(f[9..]);
    }
  }

  // ---------------------------------------------------------------------------
  // Arrivals and decodings in any order
  // ---------------------------------------------------------------------------

  datatype Event = Arrive(chunk: seq<byte>) | Poll

  datatype Stream = Stream(buf: seq<byte>, items: seq<Item>, failed: bool)

  function StreamStep(s: Stream, e: Event): Stream {
    match e
    case Arrive(chunk) => s.(buf := s.buf + chunk)
    case Poll =>
      if s.failed then s else
        match Decode(s.buf)
        case NeedMore => s
        case Failed => s.(failed := true)
        case Got(item, rest) => s.(buf := rest, items := s.items + [item])
  }

  /** The state after the events, the last event being handled last. */
  function StreamRun(events: seq<Event>): Stream {
    if events == [] then Stream([], [], false)
    else StreamStep(StreamRun(events[..|events| - 1]), events[|events| - 1])
  }

  function Arrived(events: seq<Event>): seq<byte> {
    if events == [] then []
    else
      var e := events[|events| - 1];
      Arrived(events[..|events| - 1]) + (if e.Arrive? then e.chunk else [])
  }

  /** All messages of the results, flattened. */
  function Delivered(items: seq<Item>): seq<Frame> {
    if items == [] then [] else Delivered(items[..|items| - 1]) + Messages(items[|items| - 1])
  }

  lemma DeliveredPush(items: seq<Item>, item: Item)
    ensures Delivered(items + [item]) == Delivered(items) + Messages(item)
  {
    assert (items + [item])[..|items|] == items;
  }

  lemma PrependAppended(fs: seq<Frame>, buf: seq<byte>, chunk: seq<byte>, total: seq<byte>)
    requires Parse(total) == Prepend(fs, Parse(buf))
    ensures Parse(total + chunk) == Prepend(fs, Parse(buf + chunk))
  {
    ParseAppend(total, chunk);
    ParseAppend(buf, chunk);
    PrependTwice(fs, Parse(buf).frames, Parse(Parse(buf).rest + chunk));
  }

  /**
   However arrivals and decodings interleave, the results together with the buffer are
   exactly what arrived: nothing is lost, repeated or reordered.
   */
  lemma {:induction false} InterleavingIsExact(events: seq<Event>)
    ensures Parse(Arrived(events)) == Prepend(Delivered(StreamRun(events).items), Parse(StreamRun(events).buf))
    ensures forall i :: 0 <= i < |StreamRun(events).items| ==> GoodItem(StreamRun(events).items[i])
  {
    if events == [] {
    } else {
      var before := events[..|events| - 1];
      var e, s := events[|events| - 1], StreamRun(before);
      InterleavingIsExact(before);
      if e.Arrive? {
        PrependAppended(Delivered(s.items), s.buf, e.chunk, Arrived(before));
      } else {
        assert Arrived(before) + [] == Arrived(before);
        PollIsExact(s, Arrived(before));
      }
    }
  }

  lemma PollIsExact(s: Stream, total: seq<byte>)
    requires Parse(total) == Prepend(Delivered(s.items), Parse(s.buf))
    requires forall i :: 0 <= i < |s.items| ==> GoodItem(s.items[i])
    ensures var s' := StreamStep(s, Poll);
            && Parse(total) == Prepend(Delivered(s'.items), Parse(s'.buf))
            && forall i :: 0 <= i < |s'.items| ==> GoodItem(s'.items[i])
  {
    DecodeMeaning(s.buf);
    if !s.failed && Decode(s.buf).Got? {
      var item := Decode(s.buf).item;
      DeliveredPush(s.items, item);
      PrependTwice(Delivered(s.items), Messages(item), Parse(Decode(s.buf).rest));
    }
  }

  /** Two histories that brought the same bytes and wait for more have delivered the same. */
  lemma ChunkingIsInvisible(events: seq<Event>, events': seq<Event>)
    requires Arrived(events) == Arrived(events')
    requires Decode(StreamRun(events).buf).NeedMore? && Decode(StreamRun(events').buf).NeedMore?
    ensures Delivered(StreamRun(events).items) == Delivered(StreamRun(events').items) == Parse(Arrived(events)).frames
    ensures StreamRun(events).buf == StreamRun(events').buf == Parse(Arrived(events)).rest
  {
    InterleavingIsExact(events);
    InterleavingIsExact(events');
    DecodeMeaning(StreamRun(events).buf);
    DecodeMeaning(StreamRun(events').buf);
  }

  // ---------------------------------------------------------------------------
  // Malformed headers: exactly when chunking stays invisible
  // ---------------------------------------------------------------------------

  /** Decodes until more bytes are needed or the stream fails. */
  function Drain(s: Stream): Stream
    decreases |s.buf|
  {
    if !s.failed && Decode(s.buf).Got? && |Decode(s.buf).rest| < |s.buf| then Drain(StreamStep(s, Poll))
    else StreamStep(s, Poll)
  }

  /** The chunks arrive one by one, each followed by as many decodings as give something. */
  function Feed(chunks: seq<seq<byte>>): Stream {
    if chunks == [] then Stream([], [], false)
    else Drain(StreamStep(Feed(chunks[..|chunks| - 1]), Arrive(chunks[|chunks| - 1])))
  }

  /** The frames up to the last one that always ends a batch. */
  function UpToBoundary(fs: seq<Frame>): seq<Frame> {
    if fs == [] || IsBoundary(fs[|fs| - 1]) then fs else UpToBoundary(fs[..|fs| - 1])
  }

  lemma {:induction false} QuietHasNoBoundary(fs: seq<Frame>)
    requires Quiet(fs)
    ensures UpToBoundary(fs) == []
  {
    if fs == [] {
    } else {
      QuietHasNoBoundary(fs[..|fs| - 1]);
    }
  }

  /** A prefix that ends at a boundary, or is followed by one, is kept. */
  lemma {:induction false} BoundaryKeepsPrefix(xs: seq<Frame>, ys: seq<Frame>)
    requires xs == [] || IsBoundary(xs[|xs| - 1]) || (ys != [] && IsBoundary(ys[0]))
    ensures UpToBoundary(xs + ys) == xs + UpToBoundary(ys)
    decreases |ys|
  {
    if ys == [] {
      assert xs + ys == xs;
    } else if IsBoundary(ys[|ys| - 1]) {
      assert (xs + ys)[|xs + ys| - 1] == ys[|ys| - 1];
    } else {
      assert (xs + ys)[|xs + ys| - 1] == ys[|ys| - 1];
      assert (xs + ys)[..|xs + ys| - 1] == xs + ys[..|ys| - 1];
      BoundaryKeepsPrefix(xs, ys[..|ys| - 1]);
    }
  }

  /** What draining delivers from a buffer that parses to `p`. */
  function Drained(p: Parsed): seq<Frame> {
    if BrokenHeader(p.rest) then UpToBoundary(p.frames) else p.frames
  }

  lemma DrainedAfterItem(item: Item, q: Parsed)
    requires GoodItem(item)
    requires item.Normal? && !item.requestComplete ==> StopsBefore(q)
    ensures Drained(Prepend(Messages(item), q)) == Messages(item) + Drained(q)
  {
    if BrokenHeader(q.rest) {
      BoundaryKeepsPrefix(Messages(item), q.frames);
    }
  }

  lemma {:induction false} DrainMeaning(s: Stream)
    requires !s.failed
    ensures Drain(s).failed == Parse(s.buf).bad
    ensures Delivered(Drain(s).items) == Delivered(s.items) + Drained(Parse(s.buf))
    ensures !Parse(s.buf).bad ==> Drain(s).buf == Parse(s.buf).rest
    decreases |s.buf|
  {
    DecodeMeaning(s.buf);
    match Decode(s.buf)
    case NeedMore => AppendEmpty(Delivered(s.items));
    case Failed =>
      QuietHasNoBoundary(Parse(s.buf).frames);
      AppendEmpty(Delivered(s.items));
    case Got(item, rest) =>
      ItemHasBytes(item);
      DrainMeaning(StreamStep(s, Poll));
      DeliveredPush(s.items, item);
      DrainedAfterItem(item, Parse(rest));
      AppendAssoc(Delivered(s.items), Messages(item), Drained(Parse(rest)));
  }

  lemma ItemHasBytes(item: Item)
    requires GoodItem(item)
    ensures BytesOf(item) != []
  {
    ParseHere([]);
  }

  /** A broken header is directly preceded by the end of a batch, or by nothing. */
  ghost predicate BadOnlyAtBoundary(p: Parsed) {
    BrokenHeader(p.rest) ==> p.frames == [] || IsBoundary(p.frames[|p.frames| - 1])
  }

  ghost predicate FedAll(s: Stream, p: Parsed) {
    s.failed == p.bad && Delivered(s.items) == p.frames && (!p.bad ==> s.buf == p.rest)
  }

  lemma FeedChunk(s: Stream, p: Parsed, chunk: seq<byte>)
    requires FedAll(s, p) && (p.bad <==> BadStart(p.rest)) && FrameSize(p.rest) == 0
    requires BadOnlyAtBoundary(Prepend(p.frames, Parse(p.rest + chunk)))
    ensures FedAll(Drain(StreamStep(s, Arrive(chunk))), Prepend(p.frames, Parse(p.rest + chunk)))
  {
    var q := Parse(p.rest + chunk);
    SizeWithMore(p.rest, chunk);
    if p.bad {
      ParseHere(p.rest + chunk);
      assert p.frames + [] == p.frames;
    } else {
      DrainMeaning(StreamStep(s, Arrive(chunk)));
      if q.bad && q.frames != [] {
        assert (p.frames + q.frames)[|p.frames + q.frames| - 1] == q.frames[|q.frames| - 1];
      }
    }
  }

  lemma {:induction false} FeedMeaning(chunks: seq<seq<byte>>, total: seq<byte>)
    requires Concat(chunks) <= total && BadOnlyAtBoundary(Parse(total))
    ensures FedAll(Feed(chunks), Parse(Concat(chunks))) && BadOnlyAtBoundary(Parse(Concat(chunks)))
  {
    PrefixIsClean(Concat(chunks), total[|Concat(chunks)|..], total);
    if chunks == [] {
      ParseHere([]);
    } else {
      var front, last := chunks[..|chunks| - 1], chunks[|chunks| - 1];
      assert chunks == front + [last];
      ConcatAppend(front, [last]);
      ConcatCons(last, []);
      assert [last] + [] == [last] && last + [] == last;
      assert Concat(front) <= Concat(chunks) <= total;
      FeedMeaning(front, total);
      ParseIsExact(Concat(front));
      ParseAppend(Concat(front), last);
      FeedChunk(Feed(front), Parse(Concat(front)), last);
    }
  }

  lemma PrefixIsClean(buf: seq<byte>, more: seq<byte>, total: seq<byte>)
    requires total == buf + more && BadOnlyAtBoundary(Parse(total))
    ensures BadOnlyAtBoundary(Parse(buf))
  {
    ParseAppend(buf, more);
    ParseIsExact(buf);
    SizeWithMore(Parse(buf).rest, more);
    if Parse(buf).bad {
      ParseHere(Parse(buf).rest + more);
      assert Parse(buf).frames + [] == Parse(buf).frames;
    }
  }

  /** Every way of cutting `total` delivers the same messages and fails or not alike. */
  ghost predicate ChunkingInvisible(total: seq<byte>) {
    forall cs, cs' :: Concat(cs) == total && Concat(cs') == total ==> SameOutcome(Feed(cs), Feed(cs'))
  }

  ghost predicate SameOutcome(s: Stream, s': Stream) {
    Delivered(s.items) == Delivered(s'.items) && s.failed == s'.failed
  }

  lemma FeedOne(total: seq<byte>)
    ensures Concat([total]) == total && Feed([total]) == Drain(Stream(total, [], false))
  {
    ConcatCons(total, []);
    assert [total] + [] == [total] && total + [] == total;
    assert [total][..0] == [];
    assert [] + total == total;
  }

  /** In one piece, a broken header takes the batch in front of it along. */
  lemma WholeBeforeBad(total: seq<byte>)
    requires BrokenHeader(Parse(total).rest)
    ensures Delivered(Feed([total]).items) == UpToBoundary(Parse(total).frames)
  {
    FeedOne(total);
    DrainMeaning(Stream(total, [], false));
    AppendEmpty(UpToBoundary(Parse(total).frames));
  }

  /** Cut right before the broken header, everything in front of it is delivered. */
  lemma CutBeforeBad(total: seq<byte>) returns (cs: seq<seq<byte>>)
    requires Parse(total).bad
    ensures cs == [Concat(Parse(total).frames), Parse(total).rest]
    ensures Concat(cs) == total && Delivered(Feed(cs).items) == Parse(total).frames
  {
    var p := Parse(total);
    var good := Concat(p.frames);
    cs := [good, p.rest];
    ParseIsExact(total);
    ParseOfConcat(p.frames);
    FeedOne(good);
    FeedOne(p.rest);
    assert [good, p.rest] == [good] + [p.rest];
    ConcatAppend([good], [p.rest]);
    DrainMeaning(Stream(good, [], false));
    assert [] + p.frames == p.frames;
    assert cs[..1] == [good];
    ParseHere(p.rest);
    var s := StreamStep(Feed([good]), Arrive(p.rest));
    assert [] + p.rest == p.rest;
    DrainMeaning(s);
    AppendEmpty(p.frames);
  }

  lemma {:induction false} UpToBoundaryShrinks(fs: seq<Frame>)
    ensures |UpToBoundary(fs)| <= |fs|
    ensures |UpToBoundary(fs)| == |fs| <==> fs == [] || IsBoundary(fs[|fs| - 1])
  {
    if fs == [] || IsBoundary(fs[|fs| - 1]) {
    } else {
      UpToBoundaryShrinks(fs[..|fs| - 1]);
    }
  }

  lemma CleanIsInvisible(total: seq<byte>)
    requires BadOnlyAtBoundary(Parse(total))
    ensures ChunkingInvisible(total)
  {
    forall cs, cs' | Concat(cs) == total && Concat(cs') == total ensures SameOutcome(Feed(cs), Feed(cs')) {
      FeedMeaning(cs, total);
      FeedMeaning(cs', total);
    }
  }

  lemma UncleanIsBad(total: seq<byte>)
    requires !BadOnlyAtBoundary(Parse(total))
    ensures Parse(total).bad && BrokenHeader(Parse(total).rest)
    ensures |UpToBoundary(Parse(total).frames)| < |Parse(total).frames|
  {
    ParseIsExact(total);
    UpToBoundaryShrinks(Parse(total).frames);
  }

  lemma ShorterDiffers(a: Stream, b: Stream, fs: seq<Frame>)
    requires Delivered(a.items) == UpToBoundary(fs) && Delivered(b.items) == fs && |UpToBoundary(fs)| < |fs|
    ensures !SameOutcome(a, b)
  {}

  lemma UncleanIsVisible(total: seq<byte>) returns (cs: seq<seq<byte>>)
    requires !BadOnlyAtBoundary(Parse(total))
    ensures Concat(cs) == total == Concat([total]) && !SameOutcome(Feed([total]), Feed(cs))
  {
    UncleanIsBad(total);
    WholeBeforeBad(total);
    cs := CutBeforeBad(total);
    ShorterDiffers(Feed([total]), Feed(cs), Parse(total).frames);
    OnePiece(total);
  }

  lemma OnePiece(total: seq<byte>)
    ensures Concat([total]) == total
  {
    AppendEmpty(total);
  }

  /**
   How a byte stream is cut makes no difference exactly when no broken header directly
   follows a normal message inside a request. Well-formed streams always qualify.
   */
  lemma ChunkingInvisibleExactly(total: seq<byte>)
    ensures ChunkingInvisible(total) <==> BadOnlyAtBoundary(Parse(total))
  {
    if BadOnlyAtBoundary(Parse(total)) {
      CleanIsInvisible(total);
    } else {
      var cs := UncleanIsVisible(total);
    }
  }

  lemma MessageBeforeBroken(f: Frame, broken: seq<byte>)
    requires IsFrame(f) && BrokenHeader(broken)
    ensures Parse(f + broken) == Parsed([f], broken, true) && Concat([f]) == f
  {
    ParseCons(f, broken);
    ParseHere(broken);
    AppendEmpty([f]);
    OneFrame(f);
  }

  /**
   A message inside a request followed by a broken header: in one piece nothing is
   delivered, in two pieces the message is.
   */
  lemma BrokenIsVisible(f: Frame, broken: seq<byte>)
    requires IsFrame(f) && !IsBoundary(f) && BrokenHeader(broken)
    ensures !BadOnlyAtBoundary(Parse(f + broken))
    ensures Delivered(Feed([f + broken]).items) == [] && Delivered(Feed([f, broken]).items) == [f]
  {
    MessageBeforeBroken(f, broken);
    WholeBeforeBad(f + broken);
    QuietHasNoBoundary([f]);
    var cs := CutBeforeBad(f + broken);
  }

  /** A message of the server without a body, CommandComplete's tag. */
  const SHORT_FRAME: Frame := [67, 0, 0, 0, 4]

  /** The same tag with a length that does not even count itself. */
  const ZERO_LENGTH: seq<byte> := [67, 0, 0, 0, 0]

  lemma ShortFrames(f: Frame, broken: seq<byte>)
    requires f == SHORT_FRAME && broken == ZERO_LENGTH
    ensures IsFrame(f) && !IsBoundary(f) && BrokenHeader(broken)
  {
    assert f[1..5] == [0, 0, 0, 4] && broken[1..5] == [0, 0, 0, 0];
  }

  /** Such a stream. */
  lemma ZeroLengthIsVisible()
    ensures !BadOnlyAtBoundary(Parse(SHORT_FRAME + ZERO_LENGTH))
    ensures Delivered(Feed([SHORT_FRAME + ZERO_LENGTH]).items) == []
    ensures Delivered(Feed([SHORT_FRAME, ZERO_LENGTH]).items) == [SHORT_FRAME]
  {
    ShortFrames(SHORT_FRAME, ZERO_LENGTH);
    BrokenIsVisible(SHORT_FRAME, ZERO_LENGTH);
  }

  /** The scan of the whole buffer, once the first `idx` bytes are known to be quiet messages. */
  function Resumed(idx: nat, r: Scan): Scan {
    if r.ScanFailed? then r else r.(size := idx + r.size)
  }

  /** The first `idx` bytes are quiet messages, the last of them the end of a request when `complete`. */
  ghost predicate ScannedTo(src: seq<byte>, idx: nat, complete: bool) {
    && idx <= |src|
    && (idx == 0 ==> !complete)
    && (idx > 0 ==> !IsAsyncTag(src[0]))
    && ScanBatch(src) == if complete then ScanEnd(idx, true) else Resumed(idx, ScanBatch(src[idx..]))
  }

  /** The scan is over and no asynchronous message comes first. */
  ghost predicate ScannedAll(src: seq<byte>, idx: nat, complete: bool) {
    ScanBatch(src) == ScanEnd(idx, complete) && (RawSize(src) == 0 || !IsAsyncTag(src[0]))
  }

  lemma ScanStarts(src: seq<byte>)
    ensures ScannedTo(src, 0, false)
  {
    assert src[0..] == src;
  }

  lemma ScanOneMore(src: seq<byte>, idx: nat, here: seq<byte>, n: nat)
    requires ScannedTo(src, idx, false) && here == src[idx..] && n == RawSize(here) > 0 && !IsAsyncTag(here[0])
    ensures ScannedTo(src, idx + n, here[0] == READY_FOR_QUERY_TAG)
  {
    assert here[n..] == src[idx + n..];
    assert here[0] == src[idx];
  }

  lemma ScanFails(src: seq<byte>, idx: nat, here: seq<byte>)
    requires ScannedTo(src, idx, false) && here == src[idx..] && BrokenHeader(here)
    ensures Decode(src) == Failed && !BadAsync(src)
  {
    if idx == 0 {
      assert here == src;
    }
  }

  lemma ScanBreaks(src: seq<byte>, idx: nat, here: seq<byte>)
    requires ScannedTo(src, idx, false) && here == src[idx..]
    requires if RawSize(here) == 0 then !BrokenHeader(here) else idx > 0 && IsAsyncTag(here[0])
    ensures ScannedAll(src, idx, false)
  {
    if idx == 0 {
      assert here == src;
    }
  }

  lemma ScanDecodes(src: seq<byte>, idx: nat, complete: bool)
    requires ScannedAll(src, idx, complete)
    ensures !BadAsync(src)
    ensures Decode(src) == if idx == 0 then NeedMore else Got(Normal(src[..idx], complete), src[idx..])
  {}

  lemma AsyncDecodes(src: seq<byte>, n: nat, message: seq<byte>)
    requires n == RawSize(src) > 0 && IsAsyncTag(src[0]) && message == src[..n]
    ensures BadAsync(src) <==> BrokenAsync(message)
    ensures Decode(src) == if BrokenAsync(message) then Failed else Got(Async(message), src[n..])
  {}

  /** What a decoding leaves: it takes what it delivers, and also an asynchronous message it cannot parse. */
  function Left(src: seq<byte>): seq<byte> {
    match Decode(src)
    case Got(_, rest) => rest
    case Failed => if BadAsync(src) then src[RawSize(src)..] else src
    case NeedMore => src
  }

  // ---------------------------------------------------------------------------
  // The decoder
  // ---------------------------------------------------------------------------

  class PostgresCodec {
    /** Takes the next result off the front of `src`. */
    method DecodeNext(src: BytesMut) returns (d: Decoded)
      modifies src
      ensures d == Decode(old(src.bytes))
      ensures src.bytes == Left(old(src.bytes))
    {
      var idx := 0;
      var requestComplete := false;
      ScanStarts(src.bytes);
      while !requestComplete
        invariant src.bytes == old(src.bytes) && ScannedTo(src.bytes, idx, requestComplete)
        decreases |src.bytes| - idx, !requestComplete
      {
        ghost var here := src.bytes[idx..];
        var header := ParseHeader(src.bytes[idx..]);
        if header.BadHeader? {
          ScanFails(src.bytes, idx, here);
          return Failed;
        }
        if header.NoHeader? || |src.bytes| - idx < header.len + 1 {
          ScanBreaks(src.bytes, idx, here);
          break;
        }
        var len := header.len + 1;
        if IsAsyncTag(header.tag) {
          if idx == 0 {
            assert here == src.bytes;
            var message := src.SplitTo(len);
            AsyncDecodes(here, len, message);
            return if BrokenAsync(message) then Failed else Got(Async(message), src.bytes);
          }
          ScanBreaks(src.bytes, idx, here);
          break;
        }
        ScanOneMore(src.bytes, idx, here, len);
        idx := idx + len;
        requestComplete := header.tag == READY_FOR_QUERY_TAG;
      }
      assert ScannedAll(src.bytes, idx, requestComplete);
      ScanDecodes(src.bytes, idx, requestComplete);
      if idx == 0 {
        return NeedMore;
      }
      var messages := src.SplitTo(idx);
      return Got(Normal(messages, requestComplete), src.bytes);
    }
  }
}
