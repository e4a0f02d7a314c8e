/** Whole runs of the write path with append, swap and flush as atomic steps:
    buffers move from the free pool to active to the flush queue and back, and
    the flush thread fills segments and rolls them over. */
module WalRun {
  import opened Keys
  import opened Codec
  import opened WalFrame
  import opened WalAppend
  import opened WalBits

  /** Sizes in bytes; the block size is the power of two `2^blockBits`. */
  datatype Config = Config(segmentSize: nat, bufferSize: nat, blockBits: nat, bufferCount: nat) {
    function BlockSize(): (n: nat)
      ensures n > 0
    {
      Pow2(blockBits)
    }
  }

  /** What `validate` accepts, as far as the write path depends on it, with
      sizes that are machine words and buffer positions that fit half of one. */
  predicate ValidConfig(c: Config) {
    && c.blockBits >= 9
    && c.segmentSize % c.BlockSize() == 0 && c.bufferSize % c.BlockSize() == 0
    && c.bufferSize < c.segmentSize
    && c.bufferCount >= 2
    && c.blockBits <= 64 && c.segmentSize + c.BlockSize() <= U64 && c.bufferSize < U32
  }

  /** An append buffer; slot `i` holds LSN `minLsn + i`. */
  datatype Buf = Buf(id: nat, data: Bytes, entries: seq<Slot>, minLsn: nat, writePos: nat)

  /** A segment's log as far as written, and its index from LSN to log range. */
  datatype Segment = Segment(id: nat, log: Bytes, index: map<nat, Slot>, minLsn: nat, maxLsn: nat)

  /** `appended` (the payloads by LSN) and `flushed` (how many are on disk)
      record the history. */
  datatype Wal = Wal(active: Buf, queue: seq<Buf>, free: seq<Buf>,
                     sealed: seq<Segment>, cur: Segment, durableLsn: nat,
                     appended: seq<Bytes>, flushed: nat)

  // ---- the steps ----

  predicate FitsBuffer(b: Buf, c: Config, payload: Bytes) {
    b.writePos + FrameLen(payload) <= c.bufferSize
  }

  /** One attempt at an append: the frame at the write position and its slot,
      or, past the end, only the write position moves. */
  function TryAppend(b: Buf, c: Config, payload: Bytes, crc: Crc): (b': Buf)
    requires |b.data| == c.bufferSize && b.minLsn + |b.entries| < U64
  {
    var len := FrameLen(payload);
    if !FitsBuffer(b, c, payload) then b.(writePos := b.writePos + len)
    else
      b.(data := Overwrite(b.data, b.writePos, Encode(crc, b.minLsn + |b.entries|, payload)),
         entries := b.entries + [Slot(b.writePos, len)], writePos := b.writePos + len)
  }

  function AppendStep(w: Wal, c: Config, payload: Bytes, crc: Crc): (w': Wal)
    requires |w.active.data| == c.bufferSize && w.active.minLsn + |w.active.entries| < U64
  {
    w.(active := TryAppend(w.active, c, payload, crc),
       appended := if FitsBuffer(w.active, c, payload) then w.appended + [payload] else w.appended)
  }

  function Reset(b: Buf, minLsn: nat): Buf {
    b.(entries := [], minLsn := minLsn, writePos := 0)
  }

  /** `try_swap_full`: the active buffer is queued, a free one takes over with
      the next LSN. */
  function SwapStep(w: Wal): (w': Wal)
    requires w.free != []
  {
    var n := |w.free| - 1;
    w.(queue := w.queue + [w.active], free := w.free[..n],
       active := Reset(w.free[n], w.active.minLsn + |w.active.entries|))
  }

  function MaxEnd(entries: seq<Slot>): (end: nat)
    ensures forall i | 0 <= i < |entries| :: entries[i].pos + entries[i].len <= end
  {
    if entries == [] then 0
    else
      var n := |entries| - 1;
      var m, e := MaxEnd(entries[..n]), entries[n].pos + entries[n].len;
      if m >= e then m else e
  }

  lemma WordSize()
    ensures Pow2(64) == U64
  {
    assert Pow2(0) == 1 && Pow2(1) == 2;
    hide Pow2;
    Squared(1, 2);
    Squared(2, 4);
    Squared(4, 16);
    Squared(8, 256);
    Squared(16, 65536);
    Squared(32, U32);
  }

  lemma Squared(k: nat, p: nat)
    requires Pow2(k) == p
    ensures Pow2(2 * k) == p * p
  {
    hide Pow2;
    Pow2Sum(k, k);
  }

  lemma {:induction false} Pow2Sum(j: nat, k: nat)
    ensures Pow2(j + k) == Pow2(j) * Pow2(k)
    decreases k
  {
    if k > 0 { Pow2Sum(j, k - 1); }
  }

  /** The length written for a buffer whose frames end at `end`. */
  function Padded(end: nat, c: Config): (r: nat)
    requires c.BlockSize() <= U64
  {
    WordSize();
    AlignUp(end, c.BlockSize(), 64)
  }

  /** It covers the frames, is block-aligned and never exceeds the buffer. */
  lemma PaddedFits(end: nat, c: Config)
    requires ValidConfig(c) && end <= c.bufferSize
    ensures end <= Padded(end, c) <= c.bufferSize && Padded(end, c) % c.BlockSize() == 0
  {
    hide Pow2;
    WordSize();
    AlignUpRounds(end, c.blockBits, 64);
    MultiplesApart(Padded(end, c), c.bufferSize, c.BlockSize());
  }

  /** Two multiples less than one step apart on one side. */
  lemma MultiplesApart(x: nat, y: nat, a: nat)
    requires a > 0 && x % a == 0 && y % a == 0 && x < y + a
    ensures x <= y
  {
    var p, q := x / a, y / a;
    assert x == a * p && y == a * q;
    assert a * (q + 1) == a * q + a;
    MulCancels(a, p, q + 1);
    MulMonotone(a, p, q);
  }

  function Zeros(n: nat): (z: Bytes)
    ensures |z| == n
  {
    seq(n, _ => 0)
  }

  /** `ensure_segment`: seal the current segment when it cannot hold `padded`
      more bytes. */
  function EnsureSegment(w: Wal, c: Config, minLsn: nat, padded: nat): (w': Wal) {
    if |w.cur.log| + padded > c.segmentSize
    then w.(sealed := w.sealed + [w.cur], cur := Segment(w.cur.id + 1, [], map[], minLsn, minLsn))
    else w
  }

  /** The index entries a buffer's slots contribute, put in slot order. */
  function Indexed(m: map<nat, Slot>, minLsn: nat, entries: seq<Slot>, base: nat): (r: map<nat, Slot>) {
    if entries == [] then m
    else
      var n := |entries| - 1;
      Indexed(m, minLsn, entries[..n], base)[minLsn + n := Slot(base + entries[n].pos, entries[n].len)]
  }

  /** The buffer with the bytes from the end of its frames to `padded` cleared. */
  function ZeroTail(b: Buf, padded: nat): (b': Buf)
    requires MaxEnd(b.entries) <= padded <= |b.data|
    ensures |b'.data| == |b.data|
  {
    var end := MaxEnd(b.entries);
    b.(data := b.data[..end] + Zeros(padded - end) + b.data[padded..])
  }

  function FlushInto(s: Segment, b: Buf, padded: nat): (s': Segment)
    requires b.entries != [] && padded <= |b.data|
  {
    s.(log := s.log + b.data[..padded], index := Indexed(s.index, b.minLsn, b.entries, |s.log|),
       maxLsn := b.minLsn + |b.entries| - 1)
  }

  function Recycle(w: Wal, b: Buf): (w': Wal) {
    w.(free := w.free + [Reset(b, 0)])
  }

  /** `flush_buffer`: the oldest queued buffer goes to the log and the index,
      then back to the free pool. */
  function FlushStep(w: Wal, c: Config): (w': Wal)
    requires ValidConfig(c) && w.queue != [] && MaxEnd(w.queue[0].entries) <= |w.queue[0].data| == c.bufferSize
  {
    var b := w.queue[0];
    var u := w.(queue := w.queue[1..]);
    if b.entries == [] then Recycle(u, b)
    else
      var padded := Padded(MaxEnd(b.entries), c);
      PaddedFits(MaxEnd(b.entries), c);
      var z := ZeroTail(b, padded);
      Recycle(FlushBuffer(u, c, z, padded), z)
  }

  function FlushBuffer(w: Wal, c: Config, b: Buf, padded: nat): (w': Wal)
    requires b.entries != [] && padded <= |b.data|
  {
    var u := EnsureSegment(w, c, b.minLsn, padded);
    u.(cur := FlushInto(u.cur, b, padded), durableLsn := b.minLsn + |b.entries| - 1,
       flushed := b.minLsn + |b.entries|)
  }
}
