/** The `.meta` header of a segment, its two copies, and sealing a segment
    across crashes: `.idx` synced first, then copy A, then copy B. */
module SegmentMeta {
  import opened Keys
  import opened Codec
  import opened WalFrame
  import opened Wrappers

  const IDX_HEADER_LEN: nat := 36
  const FIELDS_LEN: nat := 32

  /** The four bytes "WIDX". */
  const MAGIC: Bytes := [0x57, 0x49, 0x44, 0x58]

  datatype Header = Header(magic: Bytes, version: u32, segId: u32, minLsn: u64, maxLsn: u64, entryCount: u32, headerCrc: u32)

  function Fields(h: Header): (s: Bytes)
    ensures |s| == |h.magic| + 28
  {
    h.magic + Le(h.version, 4) + Le(h.segId, 4) + Le(h.minLsn, 8) + Le(h.maxLsn, 8) + Le(h.entryCount, 4)
  }

  function NewHeader(crc: Crc, segId: u32, minLsn: u64, maxLsn: u64, entryCount: u32): (h: Header) {
    var h := Header(MAGIC, 1, segId, minLsn, maxLsn, entryCount, 0);
    h.(headerCrc := crc(Fields(h)))
  }

  function Serialize(h: Header): (s: Bytes) {
    Fields(h) + Le(h.headerCrc, 4)
  }

  function LeU32(s: Bytes): (n: u32)
    requires |s| == 4
  {
    FromLeBound(s);
    FieldWidths();
    FromLe(s)
  }

  function Deserialize(crc: Crc, buf: Bytes): (h: Option<Header>) {
    if |buf| < IDX_HEADER_LEN then None
    else
      var stored := LeU32(buf[32..36]);
      if crc(buf[..32]) != stored then None
      else Some(Header(buf[..4], LeU32(buf[4..8]), LeU32(buf[8..12]), LeU64(buf[12..20]), LeU64(buf[20..28]),
                       LeU32(buf[28..32]), stored))
  }

  /** A header whose checksum is over its own fields, as `new` makes them. */
  predicate Sealed(crc: Crc, h: Header) {
    |h.magic| == 4 && h.headerCrc == crc(Fields(h))
  }

  lemma LeRead(n: nat, width: nat)
    requires (width == 4 && n < U32) || (width == 8 && n < U64)
    ensures FromLe(Le(n, width)) == n
  {
    FieldWidths();
    LeRoundTrip(n, width);
  }

  /** Where each field lies. */
  lemma FieldSlices(h: Header, tail: Bytes)
    requires |h.magic| == 4
    ensures var s := Serialize(h) + tail;
            && |s| >= IDX_HEADER_LEN && s[..32] == Fields(h) && s[..4] == h.magic
            && s[4..8] == Le(h.version, 4) && s[8..12] == Le(h.segId, 4)
            && s[12..20] == Le(h.minLsn, 8) && s[20..28] == Le(h.maxLsn, 8)
            && s[28..32] == Le(h.entryCount, 4) && s[32..36] == Le(h.headerCrc, 4)
  {
    hide Le;
  }

  /** A serialized header reads back as itself, whatever follows it in its block. */
  lemma HeaderRoundTrip(crc: Crc, h: Header, tail: Bytes)
    requires Sealed(crc, h)
    ensures Deserialize(crc, Serialize(h) + tail) == Some(h)
  {
    hide Le, FromLe, Fields;
    FieldSlices(h, tail);
    LeRead(h.version, 4);
    LeRead(h.segId, 4);
    LeRead(h.minLsn, 8);
    LeRead(h.maxLsn, 8);
    LeRead(h.entryCount, 4);
    LeRead(h.headerCrc, 4);
  }

  lemma NewIsSealed(crc: Crc, segId: u32, minLsn: u64, maxLsn: u64, entryCount: u32)
    ensures Sealed(crc, NewHeader(crc, segId, minLsn, maxLsn, entryCount))
  {
    var h := Header(MAGIC, 1, segId, minLsn, maxLsn, entryCount, 0);
    assert Fields(h) == Fields(h.(headerCrc := crc(Fields(h))));
  }

  lemma {:induction false} LeOfFromLe(s: Bytes)
    ensures Le(FromLe(s), |s|) == s
  {
    if s != [] {
      LeOfFromLe(s[1..]);
      var n := FromLe(s);
      assert n % 256 == s[0] as nat && n / 256 == FromLe(s[1..]);
    }
  }

  /** The other direction: a header that reads back is exactly the block's
      first bytes, and its checksum holds. */
  lemma HeaderIsPrefix(crc: Crc, buf: Bytes)
    requires Deserialize(crc, buf).Some?
    ensures Sealed(crc, Deserialize(crc, buf).value)
    ensures Serialize(Deserialize(crc, buf).value) == buf[..IDX_HEADER_LEN]
  {
    hide Le, FromLe;
    LeOfFromLe(buf[4..8]);
    LeOfFromLe(buf[8..12]);
    LeOfFromLe(buf[12..20]);
    LeOfFromLe(buf[20..28]);
    LeOfFromLe(buf[28..32]);
    LeOfFromLe(buf[32..36]);
    var h := Deserialize(crc, buf).value;
    assert Fields(h) == buf[..32];
    assert buf[..36] == buf[..32] + buf[32..36];
  }

  // ---- the two copies ----

  /** The error carries the segment id as copy A has it. */
  datatype Selected = Valid(header: Header) | HeaderCorrupt(segId: u32)

  function SelectValidHeader(crc: Crc, a: Bytes, b: Bytes): (r: Selected)
    requires |a| >= 12
  {
    match (Deserialize(crc, a), Deserialize(crc, b))
    case (Some(h), _) => Valid(h)
    case (None, Some(h)) => Valid(h)
    case (None, None) => HeaderCorrupt(LeU32(a[8..12]))
  }

  /** One file block, or one whole file: what is durable and what a write not
      yet synced would replace it by. */
  datatype Cell = Cell(durable: Bytes, pending: Option<Bytes>) {
    function Write(bytes: Bytes): Cell { this.(pending := Some(bytes)) }
    function Sync(): Cell { if pending.Some? then Cell(pending.value, None) else this }
  }

  /** The `.idx` file and the two blocks of the `.meta` file. */
  datatype Disk = Disk(idx: Cell, a: Cell, b: Cell)

  datatype Io = WriteIdx(sst: Bytes) | SyncIdx | WriteA(block: Bytes) | WriteB(block: Bytes) | SyncMeta

  function Perform(d: Disk, io: Io): (d': Disk) {
    match io
    case WriteIdx(sst) => d.(idx := d.idx.Write(sst))
    case SyncIdx => d.(idx := d.idx.Sync())
    case WriteA(block) => d.(a := d.a.Write(block))
    case WriteB(block) => d.(b := d.b.Write(block))
    case SyncMeta => d.(a := d.a.Sync(), b := d.b.Sync())
  }

  function PerformAll(d: Disk, ios: seq<Io>): (d': Disk)
    decreases |ios|
  {
    if ios == [] then d else Perform(PerformAll(d, ios[..|ios| - 1]), ios[|ios| - 1])
  }

  function HeaderBlock(h: Header, blockSize: nat): (block: Bytes) {
    var s := Serialize(h);
    s + if blockSize > |s| then seq(blockSize - |s|, _ => 0) else []
  }

  /** The double write: A, sync, B, sync. */
  function DoubleWrite(h: Header, blockSize: nat): (ios: seq<Io>) {
    var block := HeaderBlock(h, blockSize);
    [WriteA(block), SyncMeta, WriteB(block), SyncMeta]
  }

  /** `finalize_segment`: the index only when there are entries, then the header. */
  function Finalize(h: Header, sst: Bytes, blockSize: nat): (ios: seq<Io>) {
    (if h.entryCount > 0 then [WriteIdx(sst), SyncIdx] else []) + DoubleWrite(h, blockSize)
  }

  /** What a block may hold after a crash: the old bytes, the new bytes, or a
      torn block of the same length which the checksum rejects. */
  predicate HeaderAfterCrash(crc: Crc, c: Cell, r: Bytes) {
    || r == c.durable
    || (c.pending.Some? && r == c.pending.value)
    || (c.pending.Some? && |r| == |c.durable| && Deserialize(crc, r) == None)
  }

  /** A file of any length: only synced contents are sure. */
  predicate FileAfterCrash(c: Cell, r: Bytes) {
    c.pending == None ==> r == c.durable
  }

  predicate AfterCrash(crc: Crc, d: Disk, idx: Bytes, a: Bytes, b: Bytes) {
    FileAfterCrash(d.idx, idx) && HeaderAfterCrash(crc, d.a, a) && HeaderAfterCrash(crc, d.b, b)
  }

  /** At rest, with copy A readable as `h`. */
  predicate Settled(crc: Crc, d: Disk, h: Header, blockSize: nat) {
    && d.idx.pending == None && d.a.pending == None && d.b.pending == None
    && IDX_HEADER_LEN <= blockSize == |d.a.durable| == |d.b.durable|
    && Deserialize(crc, d.a.durable) == Some(h)
  }

  lemma BlockReads(crc: Crc, h: Header, blockSize: nat)
    requires Sealed(crc, h) && IDX_HEADER_LEN <= blockSize
    ensures |HeaderBlock(h, blockSize)| == blockSize && Deserialize(crc, HeaderBlock(h, blockSize)) == Some(h)
  {
    hide Deserialize, Fields;
    var s := Serialize(h);
    HeaderRoundTrip(crc, h, if blockSize > |s| then seq(blockSize - |s|, _ => 0) else []);
  }

  /** The state after the first `k` operations of sealing. */
  function Until(d: Disk, h: Header, sst: Bytes, blockSize: nat, k: nat): (d': Disk)
    requires k <= |Finalize(h, sst, blockSize)|
  {
    PerformAll(d, Finalize(h, sst, blockSize)[..k])
  }

  /** Sealing, operation by operation. `n` is where the header writes start. */
  lemma {:induction false} UntilIs(d: Disk, h: Header, sst: Bytes, blockSize: nat, k: nat, n: nat)
    requires n == (if h.entryCount > 0 then 2 else 0) && k <= n + 4
    requires d.idx.pending == None && d.a.pending == None && d.b.pending == None
    ensures |Finalize(h, sst, blockSize)| == n + 4
    ensures var d', block := Until(d, h, sst, blockSize, k), HeaderBlock(h, blockSize);
            && d'.a == (if k <= n then d.a else if k == n + 1 then d.a.Write(block) else Cell(block, None))
            && d'.b == (if k <= n + 2 then d.b else if k == n + 3 then d.b.Write(block) else Cell(block, None))
            && (k >= n && n > 0 ==> d'.idx == Cell(sst, None))
            && (n == 0 ==> d'.idx == d.idx)
  {
    hide HeaderBlock;
    var ios := Finalize(h, sst, blockSize);
    if k > 0 {
      assert ios[..k][..k - 1] == ios[..k - 1];
      UntilIs(d, h, sst, blockSize, k - 1, n);
    }
  }

  /** Crash safety: stop the sealing after any number of operations and lose,
      keep or tear whatever was not synced. The header then reads as the old or
      the new one, and a header that claims entries has its whole index on disk. */
  lemma SealingSurvivesCrash(crc: Crc, d: Disk, was: Header, h: Header, sst: Bytes, blockSize: nat, k: nat,
                             idx: Bytes, a: Bytes, b: Bytes)
    requires Settled(crc, d, was, blockSize) && Deserialize(crc, d.b.durable) == Some(was) && was.entryCount == 0
    requires Sealed(crc, h) && k <= |Finalize(h, sst, blockSize)|
    requires AfterCrash(crc, Until(d, h, sst, blockSize, k), idx, a, b)
    ensures |a| >= 12 && SelectValidHeader(crc, a, b) in {Valid(was), Valid(h)}
    ensures SelectValidHeader(crc, a, b) == Valid(h) && h.entryCount > 0 ==> idx == sst
    ensures k == |Finalize(h, sst, blockSize)| ==> SelectValidHeader(crc, a, b) == Valid(h)
  {
    hide Deserialize, HeaderBlock, Until;
    BlockReads(crc, h, blockSize);
    UntilIs(d, h, sst, blockSize, k, if h.entryCount > 0 then 2 else 0);
  }

  /** One crash leaves a readable header. */
  predicate Survives(crc: Crc, d: Disk, was: Header, h: Header, sst: Bytes, blockSize: nat, k: nat, a: Bytes, b: Bytes) {
    k <= |Finalize(h, sst, blockSize)| &&
    HeaderAfterCrash(crc, Until(d, h, sst, blockSize, k).a, a) &&
    HeaderAfterCrash(crc, Until(d, h, sst, blockSize, k).b, b) ==>
      |a| >= 12 && SelectValidHeader(crc, a, b) in {Valid(was), Valid(h)}
  }

  ghost predicate CrashSafe(crc: Crc, d: Disk, was: Header, h: Header, sst: Bytes, blockSize: nat) {
    forall k: nat, a: Bytes, b: Bytes :: Survives(crc, d, was, h, sst, blockSize, k, a, b)
  }

  lemma SurvivesWithB(crc: Crc, d: Disk, was: Header, h: Header, sst: Bytes, blockSize: nat, k: nat, a: Bytes, b: Bytes)
    requires Settled(crc, d, was, blockSize) && Sealed(crc, h)
    requires Deserialize(crc, d.b.durable) in {Some(was), Some(h)}
    ensures Survives(crc, d, was, h, sst, blockSize, k, a, b)
  {
    hide Deserialize, HeaderBlock, Until;
    if k <= |Finalize(h, sst, blockSize)| {
      BlockReads(crc, h, blockSize);
      UntilIs(d, h, sst, blockSize, k, if h.entryCount > 0 then 2 else 0);
    }
  }

  /** For every checksum some block fails it. */
  lemma BadBlock(crc: Crc, size: nat) returns (r: Bytes)
    requires IDX_HEADER_LEN <= size
    ensures |r| == size && Deserialize(crc, r) == None
  {
    hide Le, FromLe;
    var zeros: Bytes := seq(32, _ => 0);
    var wrong := (crc(zeros) + 1) % U32;
    LeRead(wrong, 4);
    r := zeros + Le(wrong, 4) + seq(size - 36, _ => 0);
    assert r[..32] == zeros && r[32..36] == Le(wrong, 4);
  }

  /** Without a usable copy B the first header write is not safe: tear copy A. */
  lemma TornWithoutB(crc: Crc, d: Disk, was: Header, h: Header, sst: Bytes, blockSize: nat)
    requires Settled(crc, d, was, blockSize) && Sealed(crc, h)
    requires Deserialize(crc, d.b.durable) !in {Some(was), Some(h)}
    ensures !CrashSafe(crc, d, was, h, sst, blockSize)
  {
    hide Deserialize, HeaderBlock, Until;
    var n := if h.entryCount > 0 then 2 else 0;
    UntilIs(d, h, sst, blockSize, n + 1, n);
    var a := BadBlock(crc, blockSize);
    assert !Survives(crc, d, was, h, sst, blockSize, n + 1, a, d.b.durable);
  }

  /** Rewriting the header of a segment whose copy A is readable is crash-safe
      exactly when copy B already reads as the old or the new header. */
  lemma CrashSafeIffB(crc: Crc, d: Disk, was: Header, h: Header, sst: Bytes, blockSize: nat)
    requires Settled(crc, d, was, blockSize) && Sealed(crc, h)
    ensures CrashSafe(crc, d, was, h, sst, blockSize) <==> Deserialize(crc, d.b.durable) in {Some(was), Some(h)}
  {
    hide Deserialize, HeaderBlock, Until, Survives;
    if Deserialize(crc, d.b.durable) in {Some(was), Some(h)} {
      forall k: nat, a: Bytes, b: Bytes
        ensures Survives(crc, d, was, h, sst, blockSize, k, a, b)
      {
        SurvivesWithB(crc, d, was, h, sst, blockSize, k, a, b);
      }
    } else {
      TornWithoutB(crc, d, was, h, sst, blockSize);
    }
  }
}
