/** Runs of the write path from an opened log: what is found on disk for every
    LSN, what never changes again, and when a sync has done its work. */
module WalHistory {
  import opened Keys
  import opened Codec
  import opened WalFrame
  import opened WalRun
  import opened WalInvariant
  import opened Wrappers
  import SegmentMeta

  datatype Op = Append(payload: Bytes) | Swap | Flush

  /** What `Wal::open` sets up: one active buffer, `bufferCount` free ones, and
      an empty segment 0. The buffers' bytes are arbitrary. */
  ghost predicate Opened(w: Wal, c: Config) {
    && ValidConfig(c)
    && w.active.entries == [] && w.active.minLsn == 0 && w.active.writePos == 0 && |w.active.data| == c.bufferSize
    && w.queue == [] && PoolHolds(w, c)
    && w.sealed == [] && w.cur == Segment(0, [], map[], 0, 0)
    && w.durableLsn == 0 && w.appended == [] && w.flushed == 0
  }

  predicate CanStep(w: Wal, c: Config, op: Op) {
    match op
    case Append(_) => |w.active.data| == c.bufferSize && w.active.minLsn + |w.active.entries| + 1 < U64
    case Swap => w.free != []
    case Flush => ValidConfig(c) && w.queue != [] && MaxEnd(w.queue[0].entries) <= |w.queue[0].data| == c.bufferSize
  }

  function Step(w: Wal, c: Config, op: Op, crc: Crc): (w': Wal)
    requires CanStep(w, c, op)
  {
    match op
    case Append(payload) => AppendStep(w, c, payload, crc)
    case Swap => SwapStep(w)
    case Flush => FlushStep(w, c)
  }

  /** In a reachable state a step is held back only by an empty pool or queue,
      or by the end of the LSN space. */
  lemma OnlyWaits(w: Wal, c: Config, crc: Crc, op: Op)
    requires Inv(w, c, crc)
    ensures CanStep(w, c, op) <==>
            match op
            case Append(_) => |w.appended| + 1 < U64
            case Swap => w.free != []
            case Flush => w.queue != []
  {
    hide SealedChain, SegHolds, SlotHolds, MaxEnd;
    if w.queue != [] { BufEndsWithin(crc, w.queue[0], c, w.appended); }
  }

  lemma OpenedHolds(w: Wal, c: Config, crc: Crc)
    requires Opened(w, c)
    ensures Inv(w, c, crc)
  {
  }

  lemma StepKeeps(w: Wal, c: Config, crc: Crc, op: Op)
    requires Inv(w, c, crc) && CanStep(w, c, op)
    ensures Inv(Step(w, c, op, crc), c, crc)
  {
    OnlyWaits(w, c, crc, op);
    hide Inv;
    match op
    case Append(payload) => AppendKeeps(w, c, payload, crc);
    case Swap => SwapKeeps(w, c, crc);
    case Flush => FlushKeeps(w, c, crc);
  }

  predicate Run(w: Wal, c: Config, ops: seq<Op>, crc: Crc)
    decreases |ops|
  {
    ops == [] || (CanStep(w, c, ops[0]) && Run(Step(w, c, ops[0], crc), c, ops[1..], crc))
  }

  function After(w: Wal, c: Config, ops: seq<Op>, crc: Crc): (t: Wal)
    requires Run(w, c, ops, crc)
    decreases |ops|
  {
    if ops == [] then w else After(Step(w, c, ops[0], crc), c, ops[1..], crc)
  }

  lemma {:induction false} RunKeeps(w: Wal, c: Config, ops: seq<Op>, crc: Crc)
    requires Inv(w, c, crc) && Run(w, c, ops, crc)
    ensures Inv(After(w, c, ops, crc), c, crc)
    decreases |ops|
  {
    hide Inv, Step, CanStep;
    if ops != [] {
      StepKeeps(w, c, crc, ops[0]);
      RunKeeps(Step(w, c, ops[0], crc), c, ops[1..], crc);
    }
  }

  // ---- what is on disk ----

  function Segments(w: Wal): (ss: seq<Segment>) {
    w.sealed + [w.cur]
  }

  /** The segment's index leads to a frame that decodes to the LSN and payload. */
  ghost predicate Recovers(crc: Crc, s: Segment, lsn: nat, payload: Bytes) {
    && lsn < U64 && lsn in s.index && s.index[lsn].len == WalAppend.FrameLen(payload)
    && s.index[lsn].pos + s.index[lsn].len <= |s.log|
    && DecodeAt(crc, s.log, s.index[lsn].pos) == Frame(lsn, WalAppend.FrameLen(payload))
    && PayloadAt(s.log, s.index[lsn].pos, WalAppend.FrameLen(payload)) == payload
  }

  lemma FrameRecovers(crc: Crc, s: Segment, lsn: nat, payload: Bytes)
    requires lsn in s.index && FrameIs(crc, s.log, s.index[lsn], lsn, payload)
    ensures Recovers(crc, s, lsn, payload)
  {
    hide DecodeAt, Encode;
    DecodeEncoded(crc, s.log, s.index[lsn].pos, lsn, payload);
  }

  /** The sealed segment an LSN is in. */
  lemma {:induction false} SealedFinds(crc: Crc, ss: seq<Segment>, c: Config, appended: seq<Bytes>, end: nat, lsn: nat)
    returns (k: nat)
    requires SealedChain(crc, ss, c, appended, end) && lsn < end
    ensures k < |ss| && lsn in ss[k].index && end <= |appended| && Recovers(crc, ss[k], lsn, appended[lsn])
    ensures forall j | 0 <= j < |ss| && j != k :: lsn !in ss[j].index
    decreases |ss|
  {
    hide FrameIs, Recovers;
    var n := |ss| - 1;
    if lsn < ss[n].minLsn {
      k := SealedFinds(crc, ss[..n], c, appended, ss[n].minLsn, lsn);
      assert forall j | 0 <= j < n :: ss[..n][j] == ss[j];
    } else {
      k := n;
      FrameRecovers(crc, ss[n], lsn, appended[lsn]);
      SealedBelow(crc, ss[..n], c, appended, ss[n].minLsn, lsn);
      assert forall j | 0 <= j < n :: ss[..n][j] == ss[j];
    }
  }

  lemma {:induction false} SealedBelow(crc: Crc, ss: seq<Segment>, c: Config, appended: seq<Bytes>, end: nat, lsn: nat)
    requires SealedChain(crc, ss, c, appended, end) && end <= lsn
    ensures forall j | 0 <= j < |ss| :: lsn !in ss[j].index
    decreases |ss|
  {
    hide FrameIs;
    if ss != [] {
      var n := |ss| - 1;
      SealedBelow(crc, ss[..n], c, appended, ss[n].minLsn, lsn);
      assert forall j | 0 <= j < n :: ss[..n][j] == ss[j];
    }
  }

  /** Every flushed LSN is in exactly one segment, and decodes there to itself
      and to what was appended under it. */
  lemma FlushedIsFound(w: Wal, c: Config, crc: Crc, lsn: nat) returns (k: nat)
    requires Inv(w, c, crc) && lsn < w.flushed
    ensures k < |Segments(w)| && w.flushed <= |w.appended| && Recovers(crc, Segments(w)[k], lsn, w.appended[lsn])
    ensures forall j | 0 <= j < |Segments(w)| && j != k :: lsn !in Segments(w)[j].index
  {
    hide FrameIs, Recovers, SealedChain, BuffersHold, PoolHolds;
    if lsn < w.cur.minLsn {
      k := SealedFinds(crc, w.sealed, c, w.appended, w.cur.minLsn, lsn);
    } else {
      k := |w.sealed|;
      FrameRecovers(crc, w.cur, lsn, w.appended[lsn]);
      SealedBelow(crc, w.sealed, c, w.appended, w.cur.minLsn, lsn);
    }
  }

  /** No other LSN is in any segment. */
  lemma UnflushedIsAbsent(w: Wal, c: Config, crc: Crc, lsn: nat)
    requires Inv(w, c, crc) && w.flushed <= lsn
    ensures forall j | 0 <= j < |Segments(w)| :: lsn !in Segments(w)[j].index
  {
    hide FrameIs, SealedChain, BuffersHold, PoolHolds;
    SealedBelow(crc, w.sealed, c, w.appended, w.cur.minLsn, lsn);
  }

  /** After any run from an opened log, by the time the flush thread has caught
      up to `lsn`, reading the segments recovers exactly what was appended. */
  lemma EveryRunIsRecoverable(w: Wal, c: Config, ops: seq<Op>, crc: Crc, lsn: nat) returns (k: nat)
    requires Opened(w, c) && Run(w, c, ops, crc) && lsn < After(w, c, ops, crc).flushed
    ensures var t := After(w, c, ops, crc);
            && k < |Segments(t)| && t.flushed <= |t.appended| && Recovers(crc, Segments(t)[k], lsn, t.appended[lsn])
            && (forall j | 0 <= j < |Segments(t)| && j != k :: lsn !in Segments(t)[j].index)
  {
    hide Inv, Recovers, Run, After, Segments;
    OpenedHolds(w, c, crc);
    RunKeeps(w, c, ops, crc);
    k := FlushedIsFound(After(w, c, ops, crc), c, crc, lsn);
  }

  // ---- what never changes ----

  /** `s` only grew into `t`: same bytes, same index entries. */
  ghost predicate Extends(s: Segment, t: Segment) {
    && s.id == t.id && s.minLsn == t.minLsn && s.log <= t.log
    && (forall lsn: nat | lsn in s.index :: lsn in t.index && t.index[lsn] == s.index[lsn])
  }

  ghost predicate Grows(w: Wal, w': Wal) {
    && w.appended <= w'.appended && w.flushed <= w'.flushed && w.durableLsn <= w'.durableLsn
    && w.sealed <= w'.sealed
    && Extends(w.cur, Segments(w')[|w.sealed|])
  }

  lemma FlushExtends(s: Segment, b: Buf, padded: nat)
    requires b.entries != [] && padded <= |b.data| && (forall lsn: nat | lsn in s.index :: lsn < b.minLsn)
    ensures Extends(s, FlushInto(s, b, padded))
  {
    forall lsn: nat | lsn in s.index
      ensures lsn in FlushInto(s, b, padded).index && FlushInto(s, b, padded).index[lsn] == s.index[lsn]
    {
      IndexedIs(s.index, b.minLsn, b.entries, |s.log|, lsn);
    }
  }

  lemma FlushBufferGrows(w: Wal, c: Config, crc: Crc, b: Buf, padded: nat)
    requires SegmentsHold(w, c, crc) && b.entries != [] && padded <= |b.data| && b.minLsn == w.flushed
    ensures Grows(w, FlushBuffer(w, c, b, padded))
  {
    hide SealedChain, FrameIs, Indexed;
    var u := EnsureSegment(w, c, b.minLsn, padded);
    FlushExtends(u.cur, b, padded);
  }

  lemma StepGrows(w: Wal, c: Config, crc: Crc, op: Op)
    requires Inv(w, c, crc) && CanStep(w, c, op)
    ensures Grows(w, Step(w, c, op, crc))
  {
    hide SealedChain, SegHolds, BufHolds, PoolHolds, MaxEnd, Padded, FlushBuffer;
    if op.Flush? && w.queue[0].entries != [] {
      var b := w.queue[0];
      var padded := Padded(MaxEnd(b.entries), c);
      PaddedFits(MaxEnd(b.entries), c);
      FlushBufferGrows(w.(queue := w.queue[1..]), c, crc, ZeroTail(b, padded), padded);
    }
  }

  lemma GrowsSelf(w: Wal)
    ensures Grows(w, w)
  {
  }

  lemma GrowsOn(u: Wal, v: Wal, w: Wal)
    requires Grows(u, v) && Grows(v, w)
    ensures Grows(u, w)
  {
    var n := |u.sealed|;
    if n < |v.sealed| { assert w.sealed[n] == v.sealed[n]; }
  }

  /** Over any run the history only grows: no LSN is reassigned, and no indexed
      frame moves or changes. */
  lemma {:induction false} RunGrows(w: Wal, c: Config, ops: seq<Op>, crc: Crc)
    requires Inv(w, c, crc) && Run(w, c, ops, crc)
    ensures Grows(w, After(w, c, ops, crc))
    decreases |ops|
  {
    if ops != [] {
      hide Inv, Step, CanStep, Grows;
      StepKeeps(w, c, crc, ops[0]);
      StepGrows(w, c, crc, ops[0]);
      RunGrows(Step(w, c, ops[0], crc), c, ops[1..], crc);
      GrowsOn(w, Step(w, c, ops[0], crc), After(w, c, ops, crc));
    }
  }

  /** A flushed record stays where it is: after any further run the same segment
      leads through the same slot to the same LSN and payload. */
  lemma FlushedStays(w: Wal, c: Config, ops: seq<Op>, crc: Crc, lsn: nat) returns (k: nat)
    requires Inv(w, c, crc) && Run(w, c, ops, crc) && lsn < w.flushed <= |w.appended|
    ensures var t := After(w, c, ops, crc);
            && k < |Segments(w)| <= |Segments(t)|
            && Recovers(crc, Segments(w)[k], lsn, w.appended[lsn])
            && Recovers(crc, Segments(t)[k], lsn, w.appended[lsn])
            && Segments(t)[k].index[lsn] == Segments(w)[k].index[lsn]
  {
    hide Inv, Run, After;
    var t := After(w, c, ops, crc);
    k := FlushedIsFound(w, c, crc, lsn);
    RunKeeps(w, c, ops, crc);
    RunGrows(w, c, ops, crc);
    var j := FlushedIsFound(t, c, crc, lsn);
    hide DecodeAt, PayloadAt;
    assert Segments(t)[k] == Segments(w)[k] || Extends(Segments(w)[k], Segments(t)[k]);
    assert lsn in Segments(t)[k].index;
  }

  /** What one pass of the append loop gets: the next LSN, in a larger history. */
  lemma AppendFacts(w: Wal, c: Config, crc: Crc, payload: Bytes)
    requires Inv(w, c, crc) && |w.appended| + 1 < U64
    ensures |w.active.data| == c.bufferSize && w.active.minLsn + |w.active.entries| == |w.appended|
    ensures var w' := AppendStep(w, c, payload, crc);
            Inv(w', c, crc) && Grows(w, w')
  {
    AppendKeeps(w, c, payload, crc);
    OnlyWaits(w, c, crc, Append(payload));
    StepGrows(w, c, crc, Append(payload));
  }

  lemma FlushFacts(w: Wal, c: Config, crc: Crc)
    requires Inv(w, c, crc) && w.queue != []
    ensures ValidConfig(c) && MaxEnd(w.queue[0].entries) <= |w.queue[0].data| == c.bufferSize
    ensures var w' := FlushStep(w, c);
            && Inv(w', c, crc) && Grows(w, w')
            && w'.flushed == w.flushed + |w.queue[0].entries| && w'.queue == w.queue[1..]
  {
    FlushKeeps(w, c, crc);
    FlushKeepsBuffers(w, c, crc);
    OnlyWaits(w, c, crc, Flush);
    StepGrows(w, c, crc, Flush);
  }

  // ---- the segments' ranges ----

  /** Segment `k` starts where the one before it ends, and its index counts
      every LSN of its range. */
  lemma {:induction false} SealedRanges(crc: Crc, ss: seq<Segment>, c: Config, appended: seq<Bytes>, end: nat, k: nat)
    requires SealedChain(crc, ss, c, appended, end) && k < |ss|
    ensures ss[k].id == k && ss[k].minLsn <= ss[k].maxLsn && |ss[k].index| == ss[k].maxLsn - ss[k].minLsn + 1
    ensures ss[k].minLsn == if k == 0 then 0 else ss[k - 1].maxLsn + 1
    ensures k + 1 == |ss| ==> ss[k].maxLsn + 1 == end
    decreases |ss|
  {
    hide FrameIs;
    var n := |ss| - 1;
    if k < n {
      SealedRanges(crc, ss[..n], c, appended, ss[n].minLsn, k);
    } else {
      CountRange(ss[n].index.Keys, ss[n].minLsn, end);
      if n > 0 { SealedRanges(crc, ss[..n], c, appended, ss[n].minLsn, n - 1); }
    }
  }

  /** The header written when a segment is sealed. Its id and its count are cut to
      32 bits. */
  function SealHeader(crc: Crc, s: Segment): (h: SegmentMeta.Header)
    requires s.minLsn < U64 && s.maxLsn < U64
  {
    SegmentMeta.NewHeader(crc, s.id % U32, s.minLsn, s.maxLsn, |s.index| % U32)
  }

  /** It reads back, and gives the segment's range. It gives the segment's
      number of records exactly below 2^32 of them, and marks it as not sealed
      exactly at a multiple of that. */
  lemma SealedHeaderReads(w: Wal, c: Config, crc: Crc, k: nat, tail: Bytes)
    requires Inv(w, c, crc) && k < |w.sealed|
    ensures w.sealed[k].minLsn < U64 && w.sealed[k].maxLsn < U64
    ensures var s := w.sealed[k]; var h := SealHeader(crc, s);
            && SegmentMeta.Deserialize(crc, SegmentMeta.Serialize(h) + tail) == Some(h)
            && h.minLsn == s.minLsn && h.maxLsn == s.maxLsn && h.segId == k % U32
            && (h.entryCount == h.maxLsn - h.minLsn + 1 <==> |s.index| < U32)
            && (h.entryCount == 0 <==> |s.index| % U32 == 0)
  {
    hide SealedChain, SegHolds, PoolHolds, BuffersHold, SegmentMeta.Deserialize, SegmentMeta.Serialize;
    hide SegmentMeta.Fields;
    SealedRanges(crc, w.sealed, c, w.appended, w.cur.minLsn, k);
    SealedBounded(crc, w.sealed, c, w.appended, w.cur.minLsn, k);
    SegmentMeta.NewIsSealed(crc, w.sealed[k].id % U32, w.sealed[k].minLsn, w.sealed[k].maxLsn, |w.sealed[k].index| % U32);
    SegmentMeta.HeaderRoundTrip(crc, SealHeader(crc, w.sealed[k]), tail);
  }

  lemma {:induction false} SealedBounded(crc: Crc, ss: seq<Segment>, c: Config, appended: seq<Bytes>, end: nat, k: nat)
    requires SealedChain(crc, ss, c, appended, end) && k < |ss|
    ensures ss[k].maxLsn < |appended|
    decreases |ss|
  {
    hide FrameIs;
    var n := |ss| - 1;
    if k < n { SealedBounded(crc, ss[..n], c, appended, ss[n].minLsn, k); }
  }

  lemma {:induction false} CountRange(s: set<nat>, lo: nat, hi: nat)
    requires lo <= hi && forall x: nat :: x in s <==> lo <= x < hi
    ensures |s| == hi - lo
    decreases hi - lo
  {
    if lo < hi {
      CountRange(s - {hi - 1}, lo, hi - 1);
    } else {
      assert s == {};
    }
  }

  // ---- progress ----

  /** A payload that can fit a buffer needs at most one swap; one that cannot is
      never accepted, whatever the state. */
  lemma OneSwapSuffices(w: Wal, c: Config, crc: Crc, payload: Bytes)
    requires Inv(w, c, crc) && w.free != []
    ensures FitsBuffer(SwapStep(w).active, c, payload) <==> WalAppend.FrameLen(payload) <= c.bufferSize
    ensures WalAppend.FrameLen(payload) > c.bufferSize ==> !FitsBuffer(w.active, c, payload)
  {
  }

  /** The swapper never waits for ever: with an empty pool a flush is possible,
      and it frees a buffer. */
  lemma PoolRefills(w: Wal, c: Config, crc: Crc)
    requires Inv(w, c, crc) && w.free == []
    ensures CanStep(w, c, Flush) && CanStep(Step(w, c, Flush, crc), c, Swap)
  {
    hide SealedChain, SegHolds, SlotHolds, MaxEnd, BuffersHold, Places;
    OnlyWaits(w, c, crc, Flush);
    FlushKeeps(w, c, crc);
    OnlyWaits(Step(w, c, Flush, crc), c, crc, Swap);
  }

  function Flushes(n: nat): (ops: seq<Op>)
    ensures |ops| == n
  {
    if n == 0 then [] else [Flush] + Flushes(n - 1)
  }

  /** Flushing the queue makes durable everything up to the active buffer. */
  lemma {:induction false} DrainFlushesAll(w: Wal, c: Config, crc: Crc)
    requires Inv(w, c, crc)
    ensures Run(w, c, Flushes(|w.queue|), crc)
    ensures var t := After(w, c, Flushes(|w.queue|), crc);
            t.queue == [] && t.flushed == w.active.minLsn && t.active == w.active && t.appended == w.appended
    decreases |w.queue|
  {
    if w.queue != [] {
      var ops := Flushes(|w.queue|);
      OnlyWaits(w, c, crc, Flush);
      FlushKeeps(w, c, crc);
      FlushKeepsBuffers(w, c, crc);
      hide Inv, CanStep;
      var w' := Step(w, c, Flush, crc);
      assert ops[0] == Flush && ops[1..] == Flushes(|w'.queue|);
      DrainFlushesAll(w', c, crc);
    }
  }

  // ---- sync ----

  /** The LSN `sync` waits for. */
  function SyncTarget(w: Wal): (lsn: nat) {
    if w.active.entries != [] then w.active.minLsn + |w.active.entries| - 1
    else if w.active.minLsn == 0 then 0 else w.active.minLsn - 1
  }

  /** `sync` stops waiting. */
  predicate SyncDone(w: Wal, target: nat) {
    w.durableLsn >= target
  }

  /** The target is the last LSN handed out, if there is one. */
  lemma SyncTargetIsLast(w: Wal, c: Config, crc: Crc)
    requires Inv(w, c, crc)
    ensures SyncTarget(w) == if w.appended == [] then 0 else |w.appended| - 1
  {
  }

  /** When `sync` stops waiting, its target is on disk, unless nothing at all is:
      the durable LSN starts at 0, which is also the first LSN. */
  lemma SyncWaits(w: Wal, c: Config, crc: Crc, target: nat)
    requires Inv(w, c, crc) && SyncDone(w, target)
    ensures target < w.flushed <==> (target > 0 || w.flushed > 0)
  {
  }

  /** Behind an empty active buffer, a `sync` still waiting has something to wait for. */
  lemma SyncProgress(w: Wal, c: Config, crc: Crc)
    requires Inv(w, c, crc) && w.active.entries == []
    ensures w.durableLsn < |w.appended| - 1 ==> w.queue != []
    ensures w.durableLsn >= |w.appended| - 1 ==> w.flushed == |w.appended| || (w.flushed == 0 && |w.appended| == 1)
    ensures w.flushed > 0 ==> w.durableLsn == w.flushed - 1
  {
    hide PoolHolds, SealedChain, BufHolds;
    if w.queue != [] { ChainedUp(w.queue, w.flushed, w.active.minLsn); }
  }

  lemma {:induction false} ChainedUp(q: seq<Buf>, from: nat, end: nat)
    requires Chained(q, from, end)
    ensures from <= end
    decreases |q|
  {
    if q != [] { ChainedUp(q[1..], from + |q[0].entries|, end); }
  }

  /** The failing case, on every configuration: after a first append, a swap and
      no flush, `sync` returns with LSN 0 still only in memory. */
  lemma SyncReturnsEarly(w: Wal, c: Config, crc: Crc, payload: Bytes)
    requires Opened(w, c) && WalAppend.FrameLen(payload) <= c.bufferSize
    ensures Run(w, c, [Append(payload), Swap], crc)
    ensures var u, t := AppendStep(w, c, payload, crc), After(w, c, [Append(payload), Swap], crc);
            && u.appended == [payload] && SyncTarget(u) == 0
            && SyncDone(t, SyncTarget(u)) && t.flushed == 0
            && (forall j | 0 <= j < |Segments(t)| :: 0 !in Segments(t)[j].index)
  {
    hide Encode, Places;
    assert w.free != [];
    var ops := [Append(payload), Swap];
    assert ops[1..] == [Swap] && [Swap][1..] == [];
  }
}
