/** WAL frames `len | crc32 | lsn | payload`, little-endian with a 16-byte
    header, and how a frame is put together from cached blocks. */
module WalFrame {
  import opened Keys
  import opened Codec

  type u32 = n: nat | n < U32
  type u64 = n: nat | n < U64

  /** The checksum: any fixed function of the bytes. */
  type Crc = Bytes -> u32

  const HEADER_LEN: nat := 16

  function FrameCrc(crc: Crc, lsn: u64, payload: Bytes): u32 {
    crc(Le(lsn, 8) + payload)
  }

  function FrameHeader(crc: Crc, lsn: u64, payload: Bytes): (h: Bytes)
    ensures |h| == HEADER_LEN
  {
    Le(|payload|, 4) + Le(FrameCrc(crc, lsn, payload), 4) + Le(lsn, 8)
  }

  function Encode(crc: Crc, lsn: u64, payload: Bytes): (frame: Bytes)
    ensures |frame| == HEADER_LEN + |payload|
  {
    FrameHeader(crc, lsn, payload) + payload
  }

  datatype Decoded = Torn | Frame(lsn: u64, totalLen: nat) | CrcMismatch(lsn: u64, offset: nat)

  function LeU64(s: Bytes): (n: u64)
    requires |s| == 8
  {
    FromLeBound(s);
    FieldWidths();
    FromLe(s)
  }

  lemma {:induction false} FromLeBound(s: Bytes)
    ensures FromLe(s) < Pow256(|s|)
  {
    if s != [] {
      FromLeBound(s[1..]);
    }
  }

  function DecodeAt(crc: Crc, buf: Bytes, offset: nat): (d: Decoded) {
    if offset + HEADER_LEN > |buf| then Torn
    else
      var len := FromLe(buf[offset..offset + 4]);
      var sum := FromLe(buf[offset + 4..offset + 8]);
      var lsn := LeU64(buf[offset + 8..offset + 16]);
      var end := offset + HEADER_LEN + len;
      if end > |buf| then Torn
      else if FrameCrc(crc, lsn, buf[offset + HEADER_LEN..end]) != sum then CrcMismatch(lsn, offset)
      else Frame(lsn, HEADER_LEN + len)
  }

  /** The payload a decoded frame delimits. */
  function PayloadAt(buf: Bytes, offset: nat, totalLen: nat): (p: Bytes)
    requires totalLen >= HEADER_LEN && offset + totalLen <= |buf|
  {
    buf[offset + HEADER_LEN..offset + totalLen]
  }

  /** The header fields of an encoded frame, read back wherever it lies. */
  lemma HeaderFields(crc: Crc, buf: Bytes, offset: nat, lsn: u64, payload: Bytes)
    requires |payload| < U32 && offset + HEADER_LEN <= |buf|
    requires buf[offset..offset + HEADER_LEN] == FrameHeader(crc, lsn, payload)
    ensures FromLe(buf[offset..offset + 4]) == |payload|
    ensures FromLe(buf[offset + 4..offset + 8]) == FrameCrc(crc, lsn, payload)
    ensures LeU64(buf[offset + 8..offset + 16]) == lsn
  {
    hide Le, FromLe;
    var h := buf[offset..offset + HEADER_LEN];
    FieldWidths();
    LeRoundTrip(|payload|, 4);
    LeRoundTrip(FrameCrc(crc, lsn, payload), 4);
    LeRoundTrip(lsn, 8);
    assert buf[offset..offset + 4] == h[..4] == Le(|payload|, 4);
    assert buf[offset + 4..offset + 8] == h[4..8] == Le(FrameCrc(crc, lsn, payload), 4);
    assert buf[offset + 8..offset + 16] == h[8..16] == Le(lsn, 8);
  }

  /** A frame anywhere in a buffer decodes to its LSN, length and payload. */
  lemma DecodeEncoded(crc: Crc, buf: Bytes, offset: nat, lsn: u64, payload: Bytes)
    requires |payload| < U32 && offset + HEADER_LEN + |payload| <= |buf|
    requires buf[offset..offset + HEADER_LEN + |payload|] == Encode(crc, lsn, payload)
    ensures DecodeAt(crc, buf, offset) == Frame(lsn, HEADER_LEN + |payload|)
    ensures PayloadAt(buf, offset, HEADER_LEN + |payload|) == payload
  {
    hide Le, FromLe, FrameHeader;
    var f := Encode(crc, lsn, payload);
    assert buf[offset..offset + HEADER_LEN] == f[..HEADER_LEN] == FrameHeader(crc, lsn, payload);
    HeaderFields(crc, buf, offset, lsn, payload);
    assert buf[offset + HEADER_LEN..offset + HEADER_LEN + |payload|] == f[HEADER_LEN..] == payload;
  }

  /** A frame whose end is cut off is torn, never a checksum error. */
  lemma DecodeCut(crc: Crc, buf: Bytes, offset: nat, lsn: u64, payload: Bytes)
    requires |payload| < U32 && offset <= |buf| < offset + HEADER_LEN + |payload|
    requires buf[offset..] == Encode(crc, lsn, payload)[..|buf| - offset]
    ensures DecodeAt(crc, buf, offset) == Torn
  {
    hide Le, FromLe, FrameHeader;
    if offset + HEADER_LEN <= |buf| {
      assert buf[offset..offset + HEADER_LEN] == buf[offset..][..HEADER_LEN] ==
             Encode(crc, lsn, payload)[..HEADER_LEN] == FrameHeader(crc, lsn, payload);
      HeaderFields(crc, buf, offset, lsn, payload);
    }
  }

  // ---- scanning a log with a torn tail ----

  datatype Record = Record(lsn: u64, payload: Bytes)

  predicate Encodable(rs: seq<Record>) {
    forall i | 0 <= i < |rs| :: |rs[i].payload| < U32
  }

  function EncodeAll(crc: Crc, rs: seq<Record>): (log: Bytes) {
    if rs == [] then [] else Encode(crc, rs[0].lsn, rs[0].payload) + EncodeAll(crc, rs[1..])
  }

  /** How many leading records lie wholly within the first `cut` bytes. */
  function WholeWithin(rs: seq<Record>, cut: nat): (n: nat)
    ensures n <= |rs|
  {
    if rs == [] || HEADER_LEN + |rs[0].payload| > cut then 0
    else 1 + WholeWithin(rs[1..], cut - HEADER_LEN - |rs[0].payload|)
  }

  /** Decoding frame after frame until something else comes up. */
  function DecodeFrom(crc: Crc, buf: Bytes, offset: nat): (r: (seq<Record>, Decoded))
    decreases |buf| - offset
  {
    var d := DecodeAt(crc, buf, offset);
    if d.Frame? then
      DecodeFits(crc, buf, offset);
      var (rs, last) := DecodeFrom(crc, buf, offset + d.totalLen);
      ([Record(d.lsn, PayloadAt(buf, offset, d.totalLen))] + rs, last)
    else ([], d)
  }

  lemma TooShort(crc: Crc, buf: Bytes, offset: nat)
    requires offset + HEADER_LEN > |buf|
    ensures DecodeAt(crc, buf, offset) == Torn
  {
  }

  lemma DecodeFits(crc: Crc, buf: Bytes, offset: nat)
    requires DecodeAt(crc, buf, offset).Frame?
    ensures HEADER_LEN <= DecodeAt(crc, buf, offset).totalLen <= |buf| - offset
  {
  }

  /** A buffer cut beyond its first frame: the frame, then a cut of the rest. */
  lemma CutAfterFrame(buf: Bytes, offset: nat, f: Bytes, rest: Bytes)
    requires offset + |f| <= |buf| <= offset + |f| + |rest|
    requires buf[offset..] == (f + rest)[..|buf| - offset]
    ensures buf[offset..offset + |f|] == f
    ensures buf[offset + |f|..] == rest[..|buf| - offset - |f|]
  {
    assert forall i | 0 <= i < |buf| - offset :: buf[offset + i] == buf[offset..][i] == (f + rest)[i];
  }

  /** Cutting a log of frames at any byte: repeated decoding recovers exactly
      the frames wholly inside the cut and then reports a torn tail. */
  lemma {:induction false} TornTail(crc: Crc, buf: Bytes, offset: nat, rs: seq<Record>)
    requires Encodable(rs) && offset <= |buf| <= offset + |EncodeAll(crc, rs)|
    requires buf[offset..] == EncodeAll(crc, rs)[..|buf| - offset]
    ensures DecodeFrom(crc, buf, offset) == (rs[..WholeWithin(rs, |buf| - offset)], Torn)
    decreases |rs|
  {
    hide Encode, PayloadAt, DecodeAt;
    if rs == [] {
      TooShort(crc, buf, offset);
    } else {
      var Record(lsn, payload) := rs[0];
      var f, all, cut := Encode(crc, lsn, payload), EncodeAll(crc, rs), |buf| - offset;
      if |f| > cut {
        assert buf[offset..] == f[..cut];
        DecodeCut(crc, buf, offset, lsn, payload);
      } else {
        CutAfterFrame(buf, offset, f, EncodeAll(crc, rs[1..]));
        DecodeEncoded(crc, buf, offset, lsn, payload);
        TornTail(crc, buf, offset + |f|, rs[1..]);
        var n := WholeWithin(rs[1..], cut - |f|);
        assert rs[..n + 1] == [rs[0]] + rs[1..][..n];
      }
    }
  }

  // ---- a frame from the blocks that cover it ----

  /** Where block `k` starts. */
  function BlockStart(k: nat, blockSize: nat): nat {
    k * blockSize
  }

  lemma NextStart(k: nat, blockSize: nat)
    ensures BlockStart(k + 1, blockSize) == BlockStart(k, blockSize) + blockSize
  {
  }

  lemma StartsGrow(j: nat, k: nat, blockSize: nat)
    requires j <= k
    ensures BlockStart(j, blockSize) <= BlockStart(k, blockSize)
  {
  }

  /** Block `k` of a log, as the cache hands it out. */
  function BlockOf(log: Bytes, blockSize: nat, k: nat): (b: Bytes)
    requires BlockStart(k, blockSize) + blockSize <= |log|
    ensures |b| == blockSize
  {
    log[BlockStart(k, blockSize)..BlockStart(k, blockSize) + blockSize]
  }

  lemma BlockPart(log: Bytes, blockSize: nat, k: nat, i: nat, j: nat)
    requires BlockStart(k, blockSize) + blockSize <= |log| && i <= j <= blockSize
    ensures BlockOf(log, blockSize, k)[i..j] == log[BlockStart(k, blockSize) + i..BlockStart(k, blockSize) + j]
  {
    var a, b := BlockStart(k, blockSize), BlockOf(log, blockSize, k);
    assert forall x | 0 <= x < j - i :: b[i..j][x] == b[i + x] == log[a + i + x];
  }

  /** Guards on consecutive blocks of a log, from `first` on. */
  predicate Covers(guards: seq<Bytes>, log: Bytes, blockSize: nat, first: nat) {
    forall j: nat | j < |guards| ::
      BlockStart(first + j, blockSize) + blockSize <= |log| && guards[j] == BlockOf(log, blockSize, first + j)
  }

  lemma GuardAt(guards: seq<Bytes>, log: Bytes, blockSize: nat, first: nat, j: nat)
    requires Covers(guards, log, blockSize, first) && j < |guards|
    ensures BlockStart(first + j, blockSize) + blockSize <= |log| && guards[j] == BlockOf(log, blockSize, first + j)
  {
    hide BlockStart, BlockOf;
  }

  /** A division names the block an offset falls in. */
  lemma BlockOfOffset(offset: nat, blockSize: nat)
    requires blockSize > 0
    ensures offset == BlockStart(offset / blockSize, blockSize) + offset % blockSize
  {
  }

  /** Blocks are ordered like the offsets in them. */
  lemma BlocksOrdered(j: nat, k: nat, blockSize: nat, x: nat, y: nat)
    requires x < blockSize && y < blockSize && BlockStart(j, blockSize) + x <= BlockStart(k, blockSize) + y
    ensures j <= k
  {
    if j > k {
      StartsGrow(k + 1, j, blockSize);
      NextStart(k, blockSize);
    }
  }

  /** The blocks a frame lies in. */
  lemma FrameBlocks(offset: nat, len: nat, blockSize: nat, size: nat)
    requires blockSize > 0 && len > 0 && offset + len <= size && size % blockSize == 0
    ensures offset / blockSize <= (offset + len - 1) / blockSize
    ensures BlockStart((offset + len - 1) / blockSize + 1, blockSize) <= size
  {
    hide BlockStart;
    var first, last := offset / blockSize, (offset + len - 1) / blockSize;
    BlockOfOffset(offset, blockSize);
    BlockOfOffset(offset + len - 1, blockSize);
    BlockOfOffset(size, blockSize);
    BlocksOrdered(first, last, blockSize, offset % blockSize, (offset + len - 1) % blockSize);
    LastBlockWhole(last, size / blockSize, blockSize, (offset + len - 1) % blockSize);
  }

  /** Putting a frame together from guards on its blocks: the first block from
      the frame's offset, the others from their start, until the frame's length
      is reached. */
  method AssembleFrame(guards: seq<Bytes>, blockSize: nat, offset: nat, len: nat, ghost log: Bytes) returns (buffer: Bytes)
    requires blockSize > 0 && len > 0 && offset + len <= |log|
    requires |guards| == (offset + len - 1) / blockSize - offset / blockSize + 1
    requires Covers(guards, log, blockSize, offset / blockSize)
    ensures buffer == log[offset..offset + len]
  {
    var startBlock, endBlock := offset / blockSize, (offset + len - 1) / blockSize;
    BlockOfOffset(offset, blockSize);
    BlockOfOffset(offset + len - 1, blockSize);
    buffer := AssembleBlocks(guards, log, blockSize, offset, len, startBlock, offset % blockSize,
                             endBlock, (offset + len - 1) % blockSize);
  }

  method AssembleBlocks(guards: seq<Bytes>, ghost log: Bytes, blockSize: nat, ghost offset: nat, len: nat,
                        ghost startBlock: nat, blockOffset: nat, ghost endBlock: nat, ghost endOffset: nat)
    returns (buffer: Bytes)
    requires len > 0 && blockOffset < blockSize && endOffset < blockSize && offset + len <= |log|
    requires offset == BlockStart(startBlock, blockSize) + blockOffset
    requires offset + len - 1 == BlockStart(endBlock, blockSize) + endOffset
    requires |guards| == endBlock - startBlock + 1 && Covers(guards, log, blockSize, startBlock)
    ensures buffer == log[offset..offset + len]
  {
    hide BlockStart, BlockOf, Covers;
    BlocksOrdered(startBlock, endBlock, blockSize, blockOffset, endOffset);
    var available := blockSize - blockOffset;
    var first := if available <= len then available else len;
    GuardAt(guards, log, blockSize, startBlock, 0);
    BlockPart(log, blockSize, startBlock, blockOffset, blockOffset + first);
    buffer := guards[0][blockOffset..blockOffset + first];
    var remaining, g := len - first, 1;
    NextStart(startBlock, blockSize);
    while remaining > 0 && g < |guards|
      invariant 1 <= g <= |guards| && 0 <= remaining <= len
      invariant buffer == log[offset..offset + len - remaining]
      invariant remaining > 0 ==> offset + len - remaining == BlockStart(startBlock + g, blockSize)
    {
      var n := if remaining <= blockSize then remaining else blockSize;
      GuardAt(guards, log, blockSize, startBlock, g);
      BlockPart(log, blockSize, startBlock + g, 0, n);
      NextStart(startBlock + g, blockSize);
      assert guards[g][..n] == guards[g][0..n];
      buffer := buffer + guards[g][..n];
      remaining := remaining - n;
      g := g + 1;
    }
    AllCopied(startBlock + |guards|, endBlock, blockSize, endOffset, remaining);
  }

  /** Past the last block nothing of the frame is left. */
  lemma AllCopied(k: nat, endBlock: nat, blockSize: nat, endOffset: nat, remaining: nat)
    requires k > endBlock && endOffset < blockSize
    requires remaining > 0 ==> BlockStart(k, blockSize) + remaining - 1 == BlockStart(endBlock, blockSize) + endOffset
    ensures remaining == 0
  {
    hide BlockStart;
    StartsGrow(endBlock + 1, k, blockSize);
    NextStart(endBlock, blockSize);
  }

  lemma LastBlockWhole(k: nat, blocks: nat, blockSize: nat, x: nat)
    requires x < blockSize && BlockStart(k, blockSize) + x < BlockStart(blocks, blockSize)
    ensures BlockStart(k + 1, blockSize) <= BlockStart(blocks, blockSize)
  {
    if blocks <= k {
      StartsGrow(blocks, k, blockSize);
    } else {
      StartsGrow(k + 1, blocks, blockSize);
    }
  }
}
