/** What every run of the write path keeps: LSNs are dense across swaps, every
    buffer is in one place, and each flushed LSN is in exactly one segment's
    index, where it decodes to what was appended. */
module WalInvariant {
  import opened Keys
  import opened Codec
  import opened WalFrame
  import opened WalAppend
  import opened WalBits
  import opened WalRun

  /** `slot` delimits the frame of `lsn` and `payload` in `bytes`. */
  ghost predicate FrameIs(crc: Crc, bytes: Bytes, slot: Slot, lsn: nat, payload: Bytes) {
    && lsn < U64 && FrameLen(payload) < U32
    && slot.len == FrameLen(payload) && slot.pos + slot.len <= |bytes|
    && bytes[slot.pos..slot.pos + slot.len] == Encode(crc, lsn, payload)
  }

  /** Slot `i` of a buffer holds the frame of its LSN, below the write position. */
  ghost predicate SlotHolds(crc: Crc, b: Buf, appended: seq<Bytes>, i: nat)
    requires i < |b.entries| && b.minLsn + |b.entries| <= |appended|
  {
    && b.entries[i].pos + b.entries[i].len <= b.writePos
    && FrameIs(crc, b.data, b.entries[i], b.minLsn + i, appended[b.minLsn + i])
  }

  ghost predicate BufHolds(crc: Crc, b: Buf, c: Config, appended: seq<Bytes>) {
    && |b.data| == c.bufferSize && b.minLsn + |b.entries| <= |appended|
    && (forall i | 0 <= i < |b.entries| :: SlotHolds(crc, b, appended, i))
  }

  /** Consecutive buffers cover consecutive LSNs, from `from` up to `to`. */
  predicate Chained(q: seq<Buf>, from: nat, to: nat)
    decreases |q|
  {
    if q == [] then from == to
    else q[0].minLsn == from && Chained(q[1..], from + |q[0].entries|, to)
  }

  /** A segment indexes exactly the LSNs `from` up to `to`, each where its
      frame is, in a log of whole blocks that fits the segment. */
  ghost predicate SegHolds(crc: Crc, s: Segment, c: Config, appended: seq<Bytes>, from: nat, to: nat) {
    && s.minLsn == from <= to <= |appended|
    && (from < to ==> s.maxLsn + 1 == to)
    && (forall lsn: nat :: lsn in s.index <==> from <= lsn < to)
    && (forall lsn: nat | lsn in s.index :: FrameIs(crc, s.log, s.index[lsn], lsn, appended[lsn]))
    && |s.log| % c.BlockSize() == 0 && |s.log| <= c.segmentSize
  }

  /** Sealed segments follow one another without gap or overlap, from LSN 0 up
      to `end`, none empty. */
  ghost predicate SealedChain(crc: Crc, ss: seq<Segment>, c: Config, appended: seq<Bytes>, end: nat)
    decreases |ss|
  {
    if ss == [] then end == 0
    else
      var last := ss[|ss| - 1];
      && last.minLsn < end && SegHolds(crc, last, c, appended, last.minLsn, end)
      && last.id == |ss| - 1
      && SealedChain(crc, ss[..|ss| - 1], c, appended, last.minLsn)
  }

  function Ids(q: seq<Buf>): (ids: seq<nat>)
    ensures |ids| == |q|
  {
    seq(|q|, i requires 0 <= i < |q| => q[i].id)
  }

  /** The buffers by identity: active, queued, free. */
  function Places(w: Wal): (ids: multiset<nat>) {
    multiset{w.active.id} + multiset(Ids(w.queue)) + multiset(Ids(w.free))
  }

  /** Each of the `bufferCount + 1` buffers is in exactly one place. */
  ghost predicate PoolHolds(w: Wal, c: Config) {
    && |w.queue| + |w.free| == c.bufferCount
    && (forall id: nat :: Places(w)[id] == if id <= c.bufferCount then 1 else 0)
    && (forall i | 0 <= i < |w.free| :: |w.free[i].data| == c.bufferSize)
  }

  ghost predicate BuffersHold(w: Wal, c: Config, crc: Crc) {
    && BufHolds(crc, w.active, c, w.appended)
    && (forall i | 0 <= i < |w.queue| :: BufHolds(crc, w.queue[i], c, w.appended))
    && Chained(w.queue, w.flushed, w.active.minLsn)
    && w.active.minLsn + |w.active.entries| == |w.appended|
  }

  ghost predicate SegmentsHold(w: Wal, c: Config, crc: Crc) {
    && SealedChain(crc, w.sealed, c, w.appended, w.cur.minLsn)
    && SegHolds(crc, w.cur, c, w.appended, w.cur.minLsn, w.flushed)
    && w.cur.id == |w.sealed|
    && (w.cur.log != [] ==> w.cur.minLsn < w.flushed)
    && w.durableLsn == (if w.flushed == 0 then 0 else w.flushed - 1)
  }

  ghost predicate Inv(w: Wal, c: Config, crc: Crc) {
    && ValidConfig(c) && |w.appended| < U64
    && PoolHolds(w, c) && BuffersHold(w, c, crc) && SegmentsHold(w, c, crc)
  }

  // ---- appending ----

  lemma FrameUntouched(crc: Crc, data: Bytes, at: nat, bytes: Bytes, slot: Slot, lsn: nat, payload: Bytes)
    requires FrameIs(crc, data, slot, lsn, payload) && slot.pos + slot.len <= at && at + |bytes| <= |data|
    ensures FrameIs(crc, Overwrite(data, at, bytes), slot, lsn, payload)
  {
    hide Encode;
    assert Overwrite(data, at, bytes)[slot.pos..slot.pos + slot.len] == data[slot.pos..slot.pos + slot.len];
  }

  /** A longer history says the same about what was there before. */
  lemma BufHoldsLater(crc: Crc, b: Buf, c: Config, appended: seq<Bytes>, payload: Bytes)
    requires BufHolds(crc, b, c, appended)
    ensures BufHolds(crc, b, c, appended + [payload])
  {
    hide FrameIs;
    forall i | 0 <= i < |b.entries|
      ensures SlotHolds(crc, b, appended + [payload], i)
    {
      assert SlotHolds(crc, b, appended, i);
    }
  }

  lemma SegHoldsLater(crc: Crc, s: Segment, c: Config, appended: seq<Bytes>, payload: Bytes, from: nat, to: nat)
    requires SegHolds(crc, s, c, appended, from, to)
    ensures SegHolds(crc, s, c, appended + [payload], from, to)
  {
    hide FrameIs;
  }

  lemma {:induction false} SealedLater(crc: Crc, ss: seq<Segment>, c: Config, appended: seq<Bytes>, payload: Bytes, end: nat)
    requires SealedChain(crc, ss, c, appended, end)
    ensures SealedChain(crc, ss, c, appended + [payload], end)
    decreases |ss|
  {
    hide SegHolds;
    if ss != [] {
      var last := ss[|ss| - 1];
      SegHoldsLater(crc, last, c, appended, payload, last.minLsn, end);
      SealedLater(crc, ss[..|ss| - 1], c, appended, payload, last.minLsn);
    }
  }

  /** A fitting append adds its frame after all others in the buffer. */
  lemma AppendToBuffer(crc: Crc, b: Buf, c: Config, appended: seq<Bytes>, payload: Bytes)
    requires BufHolds(crc, b, c, appended) && b.minLsn + |b.entries| == |appended| < U64
    requires FitsBuffer(b, c, payload) && c.bufferSize < U32
    ensures BufHolds(crc, TryAppend(b, c, payload, crc), c, appended + [payload])
  {
    hide Encode;
    var b', n := TryAppend(b, c, payload, crc), |b.entries|;
    var f := Encode(crc, b.minLsn + n, payload);
    forall i | 0 <= i < |b'.entries|
      ensures SlotHolds(crc, b', appended + [payload], i)
    {
      if i < n {
        assert SlotHolds(crc, b, appended, i);
        FrameUntouched(crc, b.data, b.writePos, f, b.entries[i], b.minLsn + i, appended[b.minLsn + i]);
      } else {
        assert b'.data[b.writePos..b.writePos + |f|] == f;
      }
    }
  }

  lemma SamePlaces(w: Wal, w': Wal)
    requires w'.active.id == w.active.id && w'.queue == w.queue && w'.free == w.free
    ensures Places(w') == Places(w)
  {
  }

  lemma AppendKeeps(w: Wal, c: Config, payload: Bytes, crc: Crc)
    requires Inv(w, c, crc) && |w.appended| + 1 < U64
    ensures |w.active.data| == c.bufferSize && w.active.minLsn + |w.active.entries| < U64
    ensures Inv(AppendStep(w, c, payload, crc), c, crc)
  {
    hide FrameIs, Encode, SegHolds, SlotHolds, Places;
    var w' := AppendStep(w, c, payload, crc);
    SamePlaces(w, w');
    if FitsBuffer(w.active, c, payload) {
      AppendToBuffer(crc, w.active, c, w.appended, payload);
      forall i | 0 <= i < |w.queue|
        ensures BufHolds(crc, w'.queue[i], c, w'.appended)
      {
        BufHoldsLater(crc, w.queue[i], c, w.appended, payload);
      }
      SegHoldsLater(crc, w.cur, c, w.appended, payload, w.cur.minLsn, w.flushed);
      SealedLater(crc, w.sealed, c, w.appended, payload, w.cur.minLsn);
    } else {
      forall i | 0 <= i < |w.active.entries|
        ensures SlotHolds(crc, w'.active, w.appended, i)
      {
        assert SlotHolds(crc, w.active, w.appended, i);
        Bumped(crc, w.active, w'.active, w.appended, i);
      }
    }
  }

  lemma Bumped(crc: Crc, b: Buf, b': Buf, appended: seq<Bytes>, i: nat)
    requires i < |b.entries| && b.minLsn + |b.entries| <= |appended| && SlotHolds(crc, b, appended, i)
    requires b' == b.(writePos := b'.writePos) && b.writePos <= b'.writePos
    ensures SlotHolds(crc, b', appended, i)
  {
  }

  // ---- swapping ----

  lemma {:induction false} ChainedSnoc(q: seq<Buf>, b: Buf, from: nat, to: nat)
    requires Chained(q, from, to) && b.minLsn == to
    ensures Chained(q + [b], from, to + |b.entries|)
    decreases |q|
  {
    if q != [] {
      assert (q + [b])[1..] == q[1..] + [b];
      ChainedSnoc(q[1..], b, from + |q[0].entries|, to);
    }
  }

  /** A swap moves two buffers and loses none. */
  lemma SwapPlaces(w: Wal)
    requires w.free != []
    ensures Places(SwapStep(w)) == Places(w)
  {
    var w' := SwapStep(w);
    assert Ids(w'.queue) == Ids(w.queue) + [w.active.id];
    assert Ids(w.free) == Ids(w'.free) + [w'.active.id];
  }

  lemma SwapKeeps(w: Wal, c: Config, crc: Crc)
    requires Inv(w, c, crc) && w.free != []
    ensures Inv(SwapStep(w), c, crc)
  {
    hide SealedChain, SegHolds, SlotHolds, Places;
    SwapPlaces(w);
    ChainedSnoc(w.queue, w.active, w.flushed, w.active.minLsn);
  }

  // ---- flushing ----

  /** The index after a flush: the buffer's LSNs, shifted by the log position,
      on top of what was there. */
  lemma {:induction false} IndexedIs(m: map<nat, Slot>, minLsn: nat, entries: seq<Slot>, base: nat, lsn: nat)
    ensures lsn in Indexed(m, minLsn, entries, base) <==> lsn in m || minLsn <= lsn < minLsn + |entries|
    ensures minLsn <= lsn < minLsn + |entries| ==>
              var e := entries[lsn - minLsn];
              Indexed(m, minLsn, entries, base)[lsn] == Slot(base + e.pos, e.len)
    ensures lsn in m && !(minLsn <= lsn < minLsn + |entries|) ==> Indexed(m, minLsn, entries, base)[lsn] == m[lsn]
    decreases |entries|
  {
    if entries != [] {
      IndexedIs(m, minLsn, entries[..|entries| - 1], base, lsn);
    }
  }

  lemma SumOfMultiples(x: nat, y: nat, a: nat)
    requires a > 0 && x % a == 0 && y % a == 0
    ensures (x + y) % a == 0
  {
    var p, q := x / a, y / a;
    assert x + y == a * (p + q);
    MulMod(a, p + q);
  }

  lemma MulMod(a: nat, n: nat)
    requires a > 0
    ensures (a * n) % a == 0
  {
    ModUnique(a * n, a, n, 0);
  }

  /** A frame written to the log keeps its bytes, shifted by the log's end. */
  lemma FrameMoves(crc: Crc, log: Bytes, data: Bytes, slot: Slot, lsn: nat, payload: Bytes)
    requires FrameIs(crc, data, slot, lsn, payload)
    ensures FrameIs(crc, log + data, Slot(|log| + slot.pos, slot.len), lsn, payload)
  {
    hide Encode;
    assert (log + data)[|log| + slot.pos..|log| + slot.pos + slot.len] == data[slot.pos..slot.pos + slot.len];
  }

  lemma FrameStays(crc: Crc, log: Bytes, data: Bytes, slot: Slot, lsn: nat, payload: Bytes)
    requires FrameIs(crc, log, slot, lsn, payload)
    ensures FrameIs(crc, log + data, slot, lsn, payload)
  {
    hide Encode;
    assert (log + data)[slot.pos..slot.pos + slot.len] == log[slot.pos..slot.pos + slot.len];
  }

  /** The prefix of the cleared buffer that goes to disk still holds its frames. */
  lemma ZeroTailHolds(crc: Crc, b: Buf, padded: nat, i: nat, lsn: nat, payload: Bytes)
    requires MaxEnd(b.entries) <= padded <= |b.data| && i < |b.entries|
    requires FrameIs(crc, b.data, b.entries[i], lsn, payload)
    ensures FrameIs(crc, ZeroTail(b, padded).data[..padded], b.entries[i], lsn, payload)
  {
    hide Encode;
    var e, z := b.entries[i], ZeroTail(b, padded).data[..padded];
    assert e.pos + e.len <= MaxEnd(b.entries);
    assert z[e.pos..e.pos + e.len] == b.data[e.pos..e.pos + e.len];
  }

  /** Every slot of a queued buffer ends inside it. */
  lemma {:induction false} MaxEndWithin(entries: seq<Slot>, n: nat)
    requires forall i | 0 <= i < |entries| :: entries[i].pos + entries[i].len <= n
    ensures MaxEnd(entries) <= n
    decreases |entries|
  {
    if entries != [] { MaxEndWithin(entries[..|entries| - 1], n); }
  }

  lemma BufEndsWithin(crc: Crc, b: Buf, c: Config, appended: seq<Bytes>)
    requires BufHolds(crc, b, c, appended)
    ensures MaxEnd(b.entries) <= |b.data| == c.bufferSize
  {
    hide Encode;
    forall i | 0 <= i < |b.entries|
      ensures b.entries[i].pos + b.entries[i].len <= |b.data|
    {
      assert SlotHolds(crc, b, appended, i);
    }
    MaxEndWithin(b.entries, |b.data|);
  }

  /** Where a frame of the buffer is in the log after the flush. */
  lemma FlushedFrame(crc: Crc, s: Segment, b: Buf, padded: nat, c: Config, appended: seq<Bytes>, lsn: nat)
    requires BufHolds(crc, b, c, appended) && MaxEnd(b.entries) <= padded <= |b.data| && b.entries != []
    requires b.minLsn <= lsn < b.minLsn + |b.entries|
    ensures var s' := FlushInto(s, ZeroTail(b, padded), padded);
            lsn in s'.index && FrameIs(crc, s'.log, s'.index[lsn], lsn, appended[lsn])
  {
    hide Encode, FrameIs;
    var i, z := lsn - b.minLsn, ZeroTail(b, padded);
    assert SlotHolds(crc, b, appended, i);
    ZeroTailHolds(crc, b, padded, i, lsn, appended[lsn]);
    FrameMoves(crc, s.log, z.data[..padded], b.entries[i], lsn, appended[lsn]);
    IndexedIs(s.index, b.minLsn, b.entries, |s.log|, lsn);
  }

  lemma FlushIntoHolds(crc: Crc, s: Segment, b: Buf, padded: nat, c: Config, appended: seq<Bytes>, from: nat)
    requires SegHolds(crc, s, c, appended, from, b.minLsn) && BufHolds(crc, b, c, appended)
    requires b.entries != [] && MaxEnd(b.entries) <= padded <= |b.data|
    requires |s.log| + padded <= c.segmentSize && padded % c.BlockSize() == 0
    ensures SegHolds(crc, FlushInto(s, ZeroTail(b, padded), padded), c, appended, from, b.minLsn + |b.entries|)
  {
    hide Encode, FrameIs, SlotHolds, Pow2;
    var z := ZeroTail(b, padded);
    var s' := FlushInto(s, z, padded);
    SumOfMultiples(|s.log|, padded, c.BlockSize());
    forall lsn: nat
      ensures lsn in s'.index <==> from <= lsn < b.minLsn + |b.entries|
      ensures lsn in s'.index ==> FrameIs(crc, s'.log, s'.index[lsn], lsn, appended[lsn])
    {
      IndexedIs(s.index, b.minLsn, b.entries, |s.log|, lsn);
      if b.minLsn <= lsn < b.minLsn + |b.entries| {
        FlushedFrame(crc, s, b, padded, c, appended, lsn);
      } else if lsn in s.index {
        FrameStays(crc, s.log, z.data[..padded], s.index[lsn], lsn, appended[lsn]);
      }
    }
  }

  /** Rolling over never seals an empty segment and leaves room for the flush. */
  lemma EnsureHolds(w: Wal, c: Config, crc: Crc, padded: nat)
    requires ValidConfig(c) && SegmentsHold(w, c, crc) && padded <= c.bufferSize
    ensures SegmentsHold(EnsureSegment(w, c, w.flushed, padded), c, crc)
    ensures var u := EnsureSegment(w, c, w.flushed, padded);
            |u.cur.log| + padded <= c.segmentSize && u.cur.minLsn <= w.flushed
  {
    hide FrameIs, Pow2;
    if |w.cur.log| + padded > c.segmentSize {
      var ss := w.sealed + [w.cur];
      assert ss[..|ss| - 1] == w.sealed;
    }
  }

  lemma FlushBufferHolds(w: Wal, c: Config, crc: Crc, b: Buf)
    requires ValidConfig(c) && SegmentsHold(w, c, crc) && BufHolds(crc, b, c, w.appended)
    requires b.entries != [] && b.minLsn == w.flushed
    requires MaxEnd(b.entries) <= |b.data|
    ensures Padded(MaxEnd(b.entries), c) <= |b.data| && MaxEnd(b.entries) <= Padded(MaxEnd(b.entries), c)
    ensures var padded := Padded(MaxEnd(b.entries), c);
            SegmentsHold(FlushBuffer(w, c, ZeroTail(b, padded), padded), c, crc)
  {
    hide FrameIs, Pow2, Padded, Indexed, SealedChain, SegHolds, SlotHolds;
    var padded := Padded(MaxEnd(b.entries), c);
    PaddedFits(MaxEnd(b.entries), c);
    EnsureHolds(w, c, crc, padded);
    var u := EnsureSegment(w, c, w.flushed, padded);
    FlushIntoHolds(crc, u.cur, b, padded, c, w.appended, u.cur.minLsn);
    FlushIntoFields(u.cur, b, padded);
  }

  lemma FlushIntoFields(s: Segment, b: Buf, padded: nat)
    requires b.entries != [] && MaxEnd(b.entries) <= padded <= |b.data|
    ensures var s' := FlushInto(s, ZeroTail(b, padded), padded);
            s'.minLsn == s.minLsn && s'.id == s.id
  {
  }

  /** What a flush does to the buffers. */
  lemma FlushShape(w: Wal, c: Config)
    requires ValidConfig(c) && w.queue != [] && MaxEnd(w.queue[0].entries) <= |w.queue[0].data| == c.bufferSize
    requires w.queue[0].minLsn == w.flushed
    ensures var w', b := FlushStep(w, c), w.queue[0];
            && w'.active == w.active && w'.queue == w.queue[1..] && w'.appended == w.appended
            && |w'.free| == |w.free| + 1 && w'.free[..|w.free|] == w.free
            && w'.free[|w.free|].id == b.id && |w'.free[|w.free|].data| == c.bufferSize
            && w'.flushed == w.flushed + |b.entries|
  {
    hide Pow2, Padded, Indexed, MaxEnd;
    PaddedFits(MaxEnd(w.queue[0].entries), c);
  }

  lemma FlushPlaces(w: Wal, w': Wal)
    requires w.queue != [] && w'.active == w.active && w'.queue == w.queue[1..]
    requires |w'.free| == |w.free| + 1 && w'.free[..|w.free|] == w.free
    requires w'.free[|w.free|].id == w.queue[0].id
    ensures Places(w') == Places(w)
  {
    assert Ids(w.queue) == [w.queue[0].id] + Ids(w'.queue);
    assert Ids(w'.free) == Ids(w.free) + [w.queue[0].id] by {
      assert forall i | 0 <= i < |w.free| :: w'.free[i] == w'.free[..|w.free|][i];
    }
  }

  lemma FlushKeepsPool(w: Wal, w': Wal, c: Config)
    requires PoolHolds(w, c) && w.queue != []
    requires w'.active == w.active && w'.queue == w.queue[1..]
    requires |w'.free| == |w.free| + 1 && w'.free[..|w.free|] == w.free
    requires w'.free[|w.free|].id == w.queue[0].id && |w'.free[|w.free|].data| == c.bufferSize
    ensures PoolHolds(w', c)
  {
    hide Places;
    FlushPlaces(w, w');
    forall i | 0 <= i < |w'.free|
      ensures |w'.free[i].data| == c.bufferSize
    {
      if i < |w.free| { assert w'.free[i] == w'.free[..|w.free|][i]; }
    }
  }

  lemma FlushKeepsSegments(w: Wal, c: Config, crc: Crc)
    requires Inv(w, c, crc) && w.queue != []
    requires MaxEnd(w.queue[0].entries) <= |w.queue[0].data| == c.bufferSize
    ensures SegmentsHold(FlushStep(w, c), c, crc)
  {
    hide FrameIs, Pow2, Padded, SealedChain, SegHolds, SlotHolds, Indexed, MaxEnd, PoolHolds;
    var b, u := w.queue[0], w.(queue := w.queue[1..]);
    assert SegmentsHold(u, c, crc);
    if b.entries != [] { FlushBufferHolds(u, c, crc, b); }
  }

  lemma FlushKeepsBuffers(w: Wal, c: Config, crc: Crc)
    requires Inv(w, c, crc) && w.queue != []
    requires MaxEnd(w.queue[0].entries) <= |w.queue[0].data| == c.bufferSize
    ensures BuffersHold(FlushStep(w, c), c, crc)
    ensures var w', b := FlushStep(w, c), w.queue[0];
            && w'.active == w.active && w'.queue == w.queue[1..] && w'.appended == w.appended
            && |w'.free| == |w.free| + 1 && w'.free[..|w.free|] == w.free
            && w'.free[|w.free|].id == b.id && |w'.free[|w.free|].data| == c.bufferSize
            && w'.flushed == w.flushed + |b.entries|
  {
    hide FlushStep, SegmentsHold, BufHolds, PoolHolds, MaxEnd, ValidConfig;
    FlushShape(w, c);
  }

  lemma FlushKeeps(w: Wal, c: Config, crc: Crc)
    requires Inv(w, c, crc) && w.queue != []
    ensures MaxEnd(w.queue[0].entries) <= |w.queue[0].data| == c.bufferSize
    ensures Inv(FlushStep(w, c), c, crc)
    ensures FlushStep(w, c).flushed == w.flushed + |w.queue[0].entries|
  {
    BufEndsWithin(crc, w.queue[0], c, w.appended);
    hide FlushStep, SegmentsHold, BufHolds, PoolHolds, BuffersHold, MaxEnd, ValidConfig;
    FlushKeepsBuffers(w, c, crc);
    FlushKeepsPool(w, FlushStep(w, c), c);
    FlushKeepsSegments(w, c, crc);
  }
}
