/** The sealed index of a segment: LSN to log range, written as an SST and read
    back to find and decode any frame. */
module SegmentIndex {
  import opened Keys
  import opened Codec
  import opened WalFrame
  import WalAppend
  import WalRun
  import WalInvariant
  import opened BlockBuilders
  import opened SstTree
  import opened SstBuilder
  import opened SstIter
  import SstPlan
  import SstRoundTrip

  /** An LSN as an 8-byte big-endian key. */
  function LsnKey(lsn: u64): (k: Key)
    ensures |k| == 8
  {
    Be(lsn, 8)
  }

  /** A log range as `offset: u64 | len: u32`, little-endian. */
  function OffsetLen(slot: WalAppend.Slot): (b: Bytes)
    ensures |b| == 12
  {
    Le(slot.pos, 8) + Le(slot.len, 4)
  }

  function DecodeOffsetLen(b: Bytes): (slot: WalAppend.Slot)
    requires |b| >= 12
  {
    WalAppend.Slot(FromLe(b[..8]), FromLe(b[8..12]))
  }

  /** Keys sort as LSNs do. */
  lemma LsnKeyOrder(a: u64, b: u64)
    ensures Less(LsnKey(a), LsnKey(b)) <==> a < b
    ensures LsnKey(a) == LsnKey(b) <==> a == b
  {
    FieldWidths();
    BeOrder(a, b, 8);
  }

  lemma OffsetLenRoundTrip(slot: WalAppend.Slot)
    requires slot.pos < U64 && slot.len < U32
    ensures DecodeOffsetLen(OffsetLen(slot)) == slot
  {
    hide Le, FromLe;
    FieldWidths();
    LeRoundTrip(slot.pos, 8);
    LeRoundTrip(slot.len, 4);
    var b := OffsetLen(slot);
    assert b[..8] == Le(slot.pos, 8) && b[8..12] == Le(slot.len, 4);
  }

  /** The index covers exactly `count` LSNs from `from`, all representable. */
  predicate Covers(index: map<nat, WalAppend.Slot>, from: nat, count: nat) {
    from + count <= U64 && forall lsn: nat | from <= lsn < from + count :: CoversAt(index, lsn)
  }

  predicate CoversAt(index: map<nat, WalAppend.Slot>, lsn: nat) {
    lsn in index && index[lsn].pos < U64 && index[lsn].len < U32
  }

  /** What the sealing loop feeds the SST builder: the entries by ascending key. */
  function Records(index: map<nat, WalAppend.Slot>, from: nat, count: nat): (es: seq<Entry>)
    requires Covers(index, from, count)
    ensures |es| == count
    ensures forall i | 0 <= i < count :: CoversAt(index, from + i) && es[i] == Put(LsnKey(from + i), OffsetLen(index[from + i]))
  {
    if count == 0 then []
    else
      assert CoversAt(index, from + count - 1);
      Records(index, from, count - 1) + [Put(LsnKey(from + count - 1), OffsetLen(index[from + count - 1]))]
  }

  lemma RecordsAscend(index: map<nat, WalAppend.Slot>, from: nat, count: nat)
    requires Covers(index, from, count)
    ensures Ascending(Records(index, from, count))
  {
    hide Less, Records, LsnKey;
    var es := Records(index, from, count);
    forall i, j | 0 <= i < j < |es|
      ensures Less(es[i].key, es[j].key)
    {
      LsnKeyOrder(from + i, from + j);
    }
  }

  /** A seek to an indexed LSN stops on its own record. */
  lemma SeekHits(index: map<nat, WalAppend.Slot>, from: nat, count: nat, lsn: nat, k: nat)
    requires Covers(index, from, count) && from <= lsn < from + count
    requires FirstAtLeast(Records(index, from, count), LsnKey(lsn), k)
    ensures k == lsn - from
  {
    hide Less, Records, LsnKey;
    var es, i := Records(index, from, count), lsn - from;
    assert i < k ==> Less(es[i].key, LsnKey(lsn));
    assert k < i ==> AtMost(LsnKey(lsn), es[k].key);
    if k < i {
      LsnKeyOrder(from + k, lsn);
    } else if i < k {
      LsnKeyOrder(lsn, lsn);
    }
  }

  /** Seal an index: build its SST. */
  method Seal(index: map<nat, WalAppend.Slot>, from: nat, count: nat, blockSize: nat)
    returns (file: SstFile, footer: Footer, ghost bs: Blocks, ghost ls: seq<BlockBuilders.IndexEntry>)
    requires Covers(index, from, count) && 512 <= blockSize < U32
    ensures |file.bytes| <= U64 ==> Represents(file, footer, bs, ls, Records(index, from, count))
  {
    hide Represents, Less, LsnKey, OffsetLen, SstPlan.OneRoot, SstPlan.SstSize;
    var es := Records(index, from, count);
    SstPlan.TwoShareABlock(es, blockSize, 8);
    file, footer, bs, ls := SstRoundTrip.Build(es, blockSize, 8);
  }

  /** Look an LSN up in a sealed index. */
  method Lookup(file: SstFile, footer: Footer, lsn: u64,
                ghost bs: Blocks, ghost ls: seq<BlockBuilders.IndexEntry>,
                ghost index: map<nat, WalAppend.Slot>, ghost from: nat, ghost count: nat)
    returns (found: bool, slot: WalAppend.Slot)
    requires Covers(index, from, count) && Represents(file, footer, bs, ls, Records(index, from, count))
    ensures found <==> from <= lsn < from + count
    ensures found ==> lsn in index && slot == index[lsn]
  {
    hide Represents, Less, LsnKey, OffsetLen, DecodeOffsetLen, Ascending, FirstAtLeast;
    hide SstIter.OnEntry, SstIter.Ended, SstIter.Rewound, SstIter.Used, SstIter.Position;
    RecordsAscend(index, from, count);
    var it := new SstIter(file, footer, bs, ls, Records(index, from, count));
    it.Seek(LsnKey(lsn));
    found, slot := false, WalAppend.Slot(0, 0);
    if it.IsValid() {
      var e := it.Current();
      found := e.key == LsnKey(lsn);
      HitOrMiss(index, from, count, lsn, it.Position());
      if found { slot := DecodeOffsetLen(e.value); }
    } else {
      HitOrMiss(index, from, count, lsn, count);
    }
  }

  /** Where a seek stops says whether the LSN is indexed. */
  lemma HitOrMiss(index: map<nat, WalAppend.Slot>, from: nat, count: nat, lsn: u64, k: nat)
    requires Covers(index, from, count) && FirstAtLeast(Records(index, from, count), LsnKey(lsn), k)
    ensures from <= lsn < from + count <==> k < count && Records(index, from, count)[k].key == LsnKey(lsn)
    ensures from <= lsn < from + count ==> k == lsn - from && lsn in index
    ensures k < count ==> Records(index, from, count)[k].Put? && |Records(index, from, count)[k].value| == 12
    ensures from <= lsn < from + count ==> DecodeOffsetLen(Records(index, from, count)[k].value) == index[lsn]
  {
    hide Less, LsnKey, OffsetLen, DecodeOffsetLen, FirstAtLeast;
    if from <= lsn < from + count {
      SeekHits(index, from, count, lsn, k);
      assert CoversAt(index, lsn);
      OffsetLenRoundTrip(index[lsn]);
    } else if k < count {
      LsnKeyOrder(from + k, lsn);
    }
  }

  // ---- a whole sealed segment ----

  /** The index the write path keeps for a segment can be sealed. */
  lemma SegmentCovers(crc: Crc, s: WalRun.Segment, c: WalRun.Config, appended: seq<Bytes>, from: nat, end: nat)
    requires WalInvariant.SegHolds(crc, s, c, appended, from, end) && |s.log| <= U64 && |appended| <= U64
    ensures Covers(s.index, from, end - from)
  {
    hide WalFrame.Encode;
    forall lsn: nat | from <= lsn < end
      ensures CoversAt(s.index, lsn)
    {
      assert WalInvariant.FrameIs(crc, s.log, s.index[lsn], lsn, appended[lsn]);
    }
  }

  /** Seal a segment, look an LSN up in the sealed index and decode the frame it
      points to: exactly the LSNs of the segment are found, each with the payload
      that was appended under it. */
  method SealThenRead(crc: Crc, s: WalRun.Segment, lsn: u64, blockSize: nat, from: nat, end: nat,
                      ghost c: WalRun.Config, ghost appended: seq<Bytes>)
    returns (size: nat, found: bool, payload: Bytes)
    requires WalInvariant.SegHolds(crc, s, c, appended, from, end) && |s.log| <= U64 && |appended| <= U64
    requires 512 <= blockSize < U32
    ensures size <= U64 ==> (found <==> from <= lsn < end)
    ensures size <= U64 && found ==> payload == appended[lsn]
  {
    hide Represents, DecodeAt, WalFrame.Encode, Covers;
    SegmentCovers(crc, s, c, appended, from, end);
    var file, footer, bs, ls := Seal(s.index, from, end - from, blockSize);
    size, found, payload := |file.bytes|, false, [];
    if size <= U64 {
      var slot;
      found, slot := Lookup(file, footer, lsn, bs, ls, s.index, from, end - from);
      if found {
        DecodeEncoded(crc, s.log, slot.pos, lsn, appended[lsn]);
        var d := DecodeAt(crc, s.log, slot.pos);
        payload := PayloadAt(s.log, slot.pos, d.totalLen);
      }
    }
  }
}
