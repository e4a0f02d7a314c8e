/** The write path as an object: the append retry loop, the buffer swap and the
    flush thread's work, proved to take the steps of the run model. */
module WalWriter {
  import opened Keys
  import opened Codec
  import opened WalFrame
  import opened WalRun
  import opened WalInvariant
  import opened WalHistory

  /** The end of the last frame in a buffer whose slots may be in any order. */
  method LogicalEnd(entries: seq<WalAppend.Slot>) returns (end: nat)
    ensures forall i | 0 <= i < |entries| :: entries[i].pos + entries[i].len <= end
    ensures end == 0 || exists i | 0 <= i < |entries| :: entries[i].pos + entries[i].len == end
    ensures end == MaxEnd(entries)
  {
    end := 0;
    for i := 0 to |entries|
      invariant end == MaxEnd(entries[..i])
      invariant end == 0 || exists j | 0 <= j < i :: entries[j].pos + entries[j].len == end
    {
      assert entries[..i + 1][..i] == entries[..i];
      if entries[i].pos + entries[i].len > end { end := entries[i].pos + entries[i].len; }
    }
    assert entries[..|entries|] == entries;
  }

  class Writer {
    const c: Config
    const crc: Crc
    var active: Buf
    var queue: seq<Buf>
    var free: seq<Buf>
    var sealed: seq<Segment>
    var cur: Segment
    var durableLsn: nat
    ghost var appended: seq<Bytes>
    ghost var flushed: nat

    ghost function Abs(): (w: Wal)
      reads this
    {
      Wal(active, queue, free, sealed, cur, durableLsn, appended, flushed)
    }

    ghost predicate Valid()
      reads this
    {
      Inv(Abs(), c, crc)
    }

    constructor (c: Config, crc: Crc, buffers: seq<Buf>)
      requires ValidConfig(c) && |buffers| == c.bufferCount + 1
      requires forall i | 0 <= i < |buffers| :: buffers[i].id == i && |buffers[i].data| == c.bufferSize
      ensures this.c == c && this.crc == crc && Opened(Abs(), c) && Valid()
    {
      this.c, this.crc := c, crc;
      var n := c.bufferCount;
      active, queue, free := Reset(buffers[n], 0), [], buffers[..n];
      sealed, cur, durableLsn, appended, flushed := [], Segment(0, [], map[], 0, 0), 0, [], 0;
      new;
      AllPlaced(Abs(), n);
      OpenedHolds(Abs(), c, crc);
    }

    /** One pass of the append loop: the frame and its slot, or overflow. */
    method TryOnce(payload: Bytes) returns (lsn: nat, ok: bool)
      requires Valid() && |appended| + 1 < U64
      modifies this`active, this`appended
      ensures Valid() && Abs() == AppendStep(old(Abs()), c, payload, crc)
      ensures ok <==> FitsBuffer(old(active), c, payload)
      ensures ok ==> lsn == |old(appended)|
      ensures Grows(old(Abs()), Abs())
    {
      hide Inv, Encode, Grows, WalAppend.Overwrite;
      AppendFacts(Abs(), c, crc, payload);
      var len := WalAppend.FrameLen(payload);
      var pos, slot := active.writePos, |active.entries|;
      lsn := active.minLsn + slot;
      ok := pos + len <= c.bufferSize;
      if ok {
        active := active.(
          data := WalAppend.Overwrite(active.data, pos, Encode(crc, lsn, payload)),
          entries := active.entries + [WalAppend.Slot(pos, len)], writePos := pos + len);
        appended := appended + [payload];
      } else {
        active := active.(writePos := pos + len);
      }
    }

    method SwapFull()
      requires Valid() && free != []
      modifies this`active, this`queue, this`free
      ensures Valid() && Abs() == SwapStep(old(Abs())) && Grows(old(Abs()), Abs())
    {
      SwapKeeps(Abs(), c, crc);
      StepGrows(Abs(), c, crc, Swap);
      hide Inv, Grows;
      var n, nextMinLsn := |free| - 1, active.minLsn + |active.entries|;
      queue := queue + [active];
      active, free := Reset(free[n], nextMinLsn), free[..n];
    }

    /** Seal the segment and open the next when `padded` bytes do not fit. */
    method EnsureRoom(minLsn: nat, padded: nat)
      modifies this`sealed, this`cur
      ensures Abs() == EnsureSegment(old(Abs()), c, minLsn, padded)
    {
      if |cur.log| + padded > c.segmentSize {
        sealed := sealed + [cur];
        cur := Segment(cur.id + 1, [], map[], minLsn, minLsn);
      }
    }

    method PutIndex(b: Buf, base: nat)
      modifies this`cur
      ensures cur == old(cur).(index := Indexed(old(cur).index, b.minLsn, b.entries, base))
    {
      for i := 0 to |b.entries|
        invariant cur == old(cur).(index := Indexed(old(cur).index, b.minLsn, b.entries[..i], base))
      {
        assert b.entries[..i + 1][..i] == b.entries[..i];
        var e := b.entries[i];
        cur := cur.(index := cur.index[b.minLsn + i := WalAppend.Slot(base + e.pos, e.len)]);
      }
      assert b.entries[..|b.entries|] == b.entries;
    }

    /** Write the first `padded` bytes of a buffer and index its frames. */
    method WriteOut(b: Buf, padded: nat)
      requires b.entries != [] && padded <= |b.data|
      modifies this`sealed, this`cur, this`durableLsn, this`flushed
      ensures Abs() == FlushBuffer(old(Abs()), c, b, padded)
    {
      EnsureRoom(b.minLsn, padded);
      var base := |cur.log|;
      cur := cur.(log := cur.log + b.data[..padded]);
      PutIndex(b, base);
      cur := cur.(maxLsn := b.minLsn + |b.entries| - 1);
      durableLsn := cur.maxLsn;
      flushed := b.minLsn + |b.entries|;
    }

    /** The flush thread takes the oldest full buffer and returns it to the pool. */
    method FlushOne()
      requires Valid() && queue != []
      modifies this`queue, this`free, this`sealed, this`cur, this`durableLsn, this`flushed
      ensures MaxEnd(old(queue)[0].entries) <= |old(queue)[0].data| == c.bufferSize
      ensures Valid() && Abs() == FlushStep(old(Abs()), c)
      ensures flushed == old(flushed) + |old(queue)[0].entries| && queue == old(queue)[1..]
      ensures Grows(old(Abs()), Abs())
    {
      hide Inv, FlushBuffer, MaxEnd, Padded, Grows;
      FlushFacts(Abs(), c, crc);
      var b := queue[0];
      queue := queue[1..];
      if b.entries != [] {
        var end := LogicalEnd(b.entries);
        var padded := Padded(end, c);
        PaddedFits(end, c);
        b := b.(data := b.data[..end] + Zeros(padded - end) + b.data[padded..]);
        WriteOut(b, padded);
      }
      free := free + [Reset(b, 0)];
    }

    /** Swap in an empty buffer, waiting for the flush thread while there is none. */
    method Rotate()
      requires Valid()
      modifies this
      ensures Valid() && Grows(old(Abs()), Abs())
      ensures active.writePos == 0 && active.entries == [] && appended == old(appended)
    {
      hide Inv, Grows, FlushStep;
      GrowsSelf(Abs());
      if free == [] {
        PoolRefills(Abs(), c, crc);
        FlushKeepsBuffers(Abs(), c, crc);
        FlushOne();
      }
      ghost var u := Abs();
      SwapFull();
      GrowsOn(old(Abs()), u, Abs());
    }

    /** `append`: retry after a swap until the frame fits. */
    method Append(payload: Bytes) returns (lsn: nat)
      requires Valid() && |appended| + 1 < U64 && WalAppend.FrameLen(payload) <= c.bufferSize
      modifies this
      ensures Valid() && Grows(old(Abs()), Abs())
      ensures lsn == |old(appended)| && appended == old(appended) + [payload]
    {
      hide Inv, Grows;
      var ok;
      lsn, ok := TryOnce(payload);
      while !ok
        invariant Valid() && Grows(old(Abs()), Abs())
        invariant appended == if ok then old(appended) + [payload] else old(appended)
        invariant ok ==> lsn == |old(appended)|
        decreases !ok
      {
        ghost var u := Abs();
        Rotate();
        GrowsOn(old(Abs()), u, Abs());
        ghost var v := Abs();
        lsn, ok := TryOnce(payload);
        GrowsOn(old(Abs()), v, Abs());
      }
    }

    /** `sync`: swap, then wait for the flush thread until the durable LSN
        reaches the last one handed out. Everything appended is then on disk,
        except where that is a single LSN 0 and nothing was flushed before. */
    method Sync() returns (durable: nat)
      requires Valid()
      modifies this
      ensures Valid() && Grows(old(Abs()), Abs()) && appended == old(appended)
      ensures flushed == |appended| || (flushed == 0 && |appended| == 1)
      ensures flushed > 0 ==> durable == |appended| - 1
    {
      hide Inv, Grows;
      SyncTargetIsLast(Abs(), c, crc);
      var target := if active.entries != [] then active.minLsn + |active.entries| - 1
                    else if active.minLsn == 0 then 0 else active.minLsn - 1;
      Rotate();
      SyncProgress(Abs(), c, crc);
      while durableLsn < target
        invariant Valid() && Grows(old(Abs()), Abs()) && appended == old(appended)
        invariant active.entries == [] && (durableLsn < target ==> queue != [])
        decreases |queue|
      {
        ghost var u := Abs();
        FlushOne();
        GrowsOn(old(Abs()), u, Abs());
        SyncProgress(Abs(), c, crc);
      }
      SyncProgress(Abs(), c, crc);
      durable := durableLsn;
    }
  }

  lemma AllPlaced(w: Wal, n: nat)
    requires w.queue == [] && |w.free| == n && w.active.id == n
    requires forall i | 0 <= i < n :: w.free[i].id == i
    ensures forall id: nat :: Places(w)[id] == if id <= n then 1 else 0
  {
    CountUpTo(Ids(w.free), n);
  }

  lemma {:induction false} CountUpTo(ids: seq<nat>, n: nat)
    requires |ids| == n && forall i | 0 <= i < n :: ids[i] == i
    ensures forall id: nat :: multiset(ids)[id] == if id < n then 1 else 0
    decreases n
  {
    if n > 0 {
      CountUpTo(ids[..n - 1], n - 1);
      assert ids == ids[..n - 1] + [n - 1];
    }
  }
}
