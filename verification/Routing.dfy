/**
 How the server's messages divide among requests: the k-th request owns the k-th run of
 messages, each run ending with ReadyForQuery.
 */
module Routing {
  import opened Sequences
  import opened Framing

  function Filter(keep: Frame -> bool, fs: seq<Frame>): seq<Frame> {
    if fs == [] then [] else Filter(keep, Front(fs)) + (if keep(Last(fs)) then [Last(fs)] else [])
  }

  predicate IsNormal(f: Frame) { !IsAsync(f) }

  /** How many requests the messages complete. */
  function ReadyCount(fs: seq<Frame>): nat {
    if fs == [] then 0 else ReadyCount(Front(fs)) + (if IsReady(Last(fs)) then 1 else 0)
  }

  /** The messages with exactly `k` ReadyForQuery messages in front of them. */
  function Segment(fs: seq<Frame>, k: nat): seq<Frame> {
    if fs == [] then []
    else Segment(Front(fs), k) + (if ReadyCount(Front(fs)) == k then [Last(fs)] else [])
  }

  lemma FilterPush(keep: Frame -> bool, fs: seq<Frame>, f: Frame)
    ensures Filter(keep, fs + [f]) == Filter(keep, fs) + (if keep(f) then [f] else [])
  {
    assert Front(fs + [f]) == fs;
  }

  lemma {:induction false} FilterAppend(keep: Frame -> bool, xs: seq<Frame>, ys: seq<Frame>)
    ensures Filter(keep, xs + ys) == Filter(keep, xs) + Filter(keep, ys)
  {
    if ys == [] {
      AppendEmpty(xs);
    } else {
      FilterAppend(keep, xs, Front(ys));
      assert xs + ys == (xs + Front(ys)) + [Last(ys)];
      FilterPush(keep, xs + Front(ys), Last(ys));
    }
  }

  lemma {:induction false} FilterAll(keep: Frame -> bool, fs: seq<Frame>, all: bool)
    requires forall i :: 0 <= i < |fs| ==> keep(fs[i]) == all
    ensures Filter(keep, fs) == if all then fs else []
  {
    if fs == [] {
    } else {
      FilterAll(keep, Front(fs), all);
      assert Front(fs) + [Last(fs)] == fs;
    }
  }

  lemma SegmentPush(fs: seq<Frame>, f: Frame, k: nat)
    ensures ReadyCount(fs + [f]) == ReadyCount(fs) + (if IsReady(f) then 1 else 0)
    ensures Segment(fs + [f], k) == Segment(fs, k) + (if ReadyCount(fs) == k then [f] else [])
  {
    assert Front(fs + [f]) == fs;
  }

  lemma {:induction false} NothingBeyond(fs: seq<Frame>, k: nat)
    requires k > ReadyCount(fs)
    ensures Segment(fs, k) == []
  {
    if fs == [] {
    } else {
      NothingBeyond(Front(fs), k);
    }
  }

  lemma {:induction false} SegmentQuiet(fs: seq<Frame>, b: seq<Frame>, k: nat)
    requires Quiet(b)
    ensures ReadyCount(fs + b) == ReadyCount(fs)
    ensures Segment(fs + b, k) == Segment(fs, k) + (if ReadyCount(fs) == k then b else [])
  {
    if b == [] {
      AppendEmpty(fs);
    } else {
      SegmentQuiet(fs, Front(b), k);
      SegmentLast(fs, b, k);
    }
  }

  lemma SegmentLast(fs: seq<Frame>, b: seq<Frame>, k: nat)
    requires b != [] && ReadyCount(fs + Front(b)) == ReadyCount(fs)
    requires Segment(fs + Front(b), k) == Segment(fs, k) + (if ReadyCount(fs) == k then Front(b) else [])
    ensures ReadyCount(fs + b) == ReadyCount(fs) + (if IsReady(Last(b)) then 1 else 0)
    ensures Segment(fs + b, k) == Segment(fs, k) + (if ReadyCount(fs) == k then b else [])
  {
    assert Front(b) + [Last(b)] == b;
    AppendAssoc(fs, Front(b), [Last(b)]);
    SegmentPush(fs + Front(b), Last(b), k);
    AppendAssoc(Segment(fs, k), Front(b), [Last(b)]);
    AppendEmpty(Segment(fs, k));
  }

  /** A whole batch goes to the oldest request that is still open. */
  lemma SegmentBatch(fs: seq<Frame>, b: seq<Frame>, complete: bool, k: nat)
    requires IsBatch(b, complete)
    ensures ReadyCount(fs + b) == ReadyCount(fs) + (if complete then 1 else 0)
    ensures Segment(fs + b, k) == Segment(fs, k) + (if ReadyCount(fs) == k then b else [])
  {
    if complete {
      SegmentQuiet(fs, Front(b), k);
      SegmentLast(fs, b, k);
    } else {
      SegmentQuiet(fs, b, k);
    }
  }

  lemma {:induction false} SegmentGrows(fs: seq<Frame>, more: seq<Frame>, k: nat)
    ensures Segment(fs, k) <= Segment(fs + more, k)
  {
    if more == [] {
      AppendEmpty(fs);
    } else {
      SegmentGrows(fs, Front(more), k);
      assert fs + more == (fs + Front(more)) + [Last(more)];
      SegmentPush(fs + Front(more), Last(more), k);
    }
  }

  /** The first `n` segments, one after the other. */
  function Joined(fs: seq<Frame>, n: nat): seq<Frame> {
    if n == 0 then [] else Joined(fs, n - 1) + Segment(fs, n - 1)
  }

  /** Segments in front of the open one do not change any more. */
  lemma SegmentStays(fs: seq<Frame>, f: Frame, k: nat)
    requires k != ReadyCount(fs)
    ensures Segment(fs + [f], k) == Segment(fs, k)
  {
    SegmentPush(fs, f, k);
    AppendEmpty(Segment(fs, k));
  }

  lemma {:induction false} JoinedStays(fs: seq<Frame>, f: Frame, n: nat)
    requires n <= ReadyCount(fs)
    ensures Joined(fs + [f], n) == Joined(fs, n)
  {
    if n == 0 {
    } else {
      JoinedStays(fs, f, n - 1);
      SegmentStays(fs, f, n - 1);
    }
  }

  lemma JoinedPush(fs: seq<Frame>, f: Frame, n: nat)
    requires n == ReadyCount(fs)
    ensures Joined(fs + [f], n + 1) == Joined(fs, n + 1) + [f]
  {
    JoinedStays(fs, f, n);
    SegmentPush(fs, f, n);
    AppendAssoc(Joined(fs, n), Segment(fs, n), [f]);
  }

  /** A completed request's messages: exactly one ReadyForQuery, at the end. */
  ghost predicate IsAnswer(fs: seq<Frame>) {
    fs != [] && IsReady(Last(fs)) && forall i :: 0 <= i < |fs| - 1 ==> !IsReady(fs[i])
  }

  ghost predicate Unfinished(fs: seq<Frame>) {
    forall i :: 0 <= i < |fs| ==> !IsReady(fs[i])
  }

  lemma SegmentsJoinLast(before: seq<Frame>, f: Frame, n: nat)
    requires n == ReadyCount(before) && Joined(before, n + 1) == before
    ensures Joined(before + [f], n + 1) == Joined(before + [f], n + 2) == before + [f]
  {
    JoinedPush(before, f, n);
    NothingBeyond(before, n + 1);
    SegmentStays(before, f, n + 1);
    AppendEmpty(before + [f]);
  }

  lemma {:induction false} SegmentsJoin(fs: seq<Frame>)
    ensures Joined(fs, ReadyCount(fs) + 1) == fs
  {
    if fs == [] {
      assert Joined(fs, 1) == [];
    } else {
      assert fs == Front(fs) + [Last(fs)];
      SegmentsJoin(Front(fs));
      SegmentsJoinLast(Front(fs), Last(fs), ReadyCount(Front(fs)));
    }
  }

  lemma {:induction false} NothingAtEnd(fs: seq<Frame>)
    requires fs == [] || IsReady(Last(fs))
    ensures Segment(fs, ReadyCount(fs)) == []
  {
    if fs != [] {
      NothingBeyond(Front(fs), ReadyCount(fs));
    }
  }

  lemma {:induction false} OpenSegment(fs: seq<Frame>)
    ensures Unfinished(Segment(fs, ReadyCount(fs)))
  {
    if fs == [] || IsReady(Last(fs)) {
      NothingAtEnd(fs);
    } else {
      OpenSegment(Front(fs));
    }
  }

  lemma {:induction false} ClosedSegment(fs: seq<Frame>, k: nat)
    requires k < ReadyCount(fs)
    ensures IsAnswer(Segment(fs, k))
  {
    if k < ReadyCount(Front(fs)) {
      ClosedSegment(Front(fs), k);
    } else {
      OpenSegment(Front(fs));
      assert Segment(fs, k) == Segment(Front(fs), k) + [Last(fs)];
    }
  }

  /**
   The segments are consecutive: one after the other they are the whole stream. Each one
   in front of the last ends with its only ReadyForQuery, and the last has none.
   */
  lemma SegmentsPartition(fs: seq<Frame>)
    ensures Joined(fs, ReadyCount(fs) + 1) == fs
    ensures forall k :: 0 <= k < ReadyCount(fs) ==> IsAnswer(Segment(fs, k))
    ensures Unfinished(Segment(fs, ReadyCount(fs)))
  {
    SegmentsJoin(fs);
    OpenSegment(fs);
    forall k | 0 <= k < ReadyCount(fs) ensures IsAnswer(Segment(fs, k)) {
      ClosedSegment(fs, k);
    }
  }
}
