/** The two block builders: entries in memory, a running size estimate, and
    `Finish`, which encodes them into one padded block. */
module BlockBuilders {
  import opened Keys
  import opened Codec
  import opened BlockFormat
  import opened Wrappers

  const FIXED_HEADER_SIZE: nat := 12
  const ENTRY_VERSION: byte := 1
  const KIND_PUT: byte := 0
  const KIND_DELETE: byte := 1

  // ---- the encoder both builders share ----

  /** The running-offset loops: where each key, then each value, will start. */
  method KeyOffsetLoop(raws: seq<RawEntry>) returns (offsets: seq<nat>, dataOffset: nat)
    ensures offsets == KeyOffsets(raws) && dataOffset == HeaderSize(|raws|) + |KeyBytes(raws)|
  {
    var n := |raws|;
    dataOffset := 4 + (n + 1) * 8;
    offsets := [];
    for i := 0 to n
      invariant dataOffset == HeaderSize(n) + |KeyBytes(raws[..i])|
      invariant offsets == KeyOffsets(raws)[..i]
    {
      offsets := offsets + [dataOffset];
      dataOffset := dataOffset + |raws[i].key|;
      assert raws[..i + 1][..i] == raws[..i];
    }
    assert raws[..n] == raws;
    offsets := offsets + [dataOffset];
  }

  method ValueOffsetLoop(raws: seq<RawEntry>, start: nat) returns (offsets: seq<nat>)
    requires start == HeaderSize(|raws|) + |KeyBytes(raws)|
    ensures offsets == ValueOffsets(raws)
  {
    var n := |raws|;
    var dataOffset := start;
    offsets := [];
    for i := 0 to n
      invariant dataOffset == start + |ValueBytes(raws[..i])|
      invariant offsets == ValueOffsets(raws)[..i]
    {
      offsets := offsets + [dataOffset];
      dataOffset := dataOffset + |raws[i].value|;
      assert raws[..i + 1][..i] == raws[..i];
    }
    assert raws[..n] == raws;
    offsets := offsets + [dataOffset];
  }

  method WriteOffsets(buf: Bytes, offsets: seq<nat>) returns (out: Bytes)
    ensures out == buf + OffsetTable(offsets)
  {
    out := buf;
    for i := 0 to |offsets|
      invariant out == buf + OffsetTable(offsets[..i])
    {
      out := out + Be(offsets[i], 4);
      assert offsets[..i + 1][..i] == offsets[..i];
    }
    assert offsets[..|offsets|] == offsets;
  }

  /** Appends every key, then every value. */
  method WriteEntries(buf: Bytes, raws: seq<RawEntry>) returns (out: Bytes)
    ensures out == buf + KeyBytes(raws) + ValueBytes(raws)
  {
    out := buf;
    for i := 0 to |raws|
      invariant out == buf + KeyBytes(raws[..i])
    {
      out := out + raws[i].key;
      assert raws[..i + 1][..i] == raws[..i];
    }
    assert raws[..|raws|] == raws;
    for i := 0 to |raws|
      invariant out == buf + KeyBytes(raws) + ValueBytes(raws[..i])
    {
      out := out + raws[i].value;
      assert raws[..i + 1][..i] == raws[..i];
    }
  }

  method Encode(raws: seq<RawEntry>) returns (buf: Bytes)
    ensures buf == Layout(raws)
  {
    var keyOffsets, valueStart := KeyOffsetLoop(raws);
    var valOffsets := ValueOffsetLoop(raws, valueStart);
    buf := Be(|raws|, 4);
    buf := WriteOffsets(buf, keyOffsets);
    buf := WriteOffsets(buf, valOffsets);
    buf := WriteEntries(buf, raws);
  }

  // ---- data entries ----

  /** A live value or a delete tombstone. */
  datatype Entry = Put(key: Key, value: Bytes) | Delete(key: Key)

  function KindByte(e: Entry): byte {
    if e.Put? then KIND_PUT else KIND_DELETE
  }

  function Payload(e: Entry): Bytes {
    if e.Put? then e.value else []
  }

  function DataRaw(e: Entry): (r: RawEntry) {
    RawEntry(e.key, [ENTRY_VERSION, KindByte(e)] + Payload(e))
  }

  function DataRaws(es: seq<Entry>): (rs: seq<RawEntry>)
    ensures |rs| == |es|
  {
    seq(|es|, i requires 0 <= i < |es| => DataRaw(es[i]))
  }

  function DecodeData(r: RawEntry): (res: Result<Entry>) {
    if |r.value| < 2 then Failure("entry header too short")
    else if r.value[0] != ENTRY_VERSION then Failure("unknown data entry version")
    else if r.value[1] == KIND_PUT then Success(Put(r.key, r.value[2..]))
    else if r.value[1] == KIND_DELETE then Success(Delete(r.key))
    else Failure("invalid entry kind")
  }

  lemma DecodeDataRaw(e: Entry)
    ensures DecodeData(DataRaw(e)) == Success(e)
  {
    assert DataRaw(e).value[2..] == Payload(e);
  }

  class DataBlockBuilder {
    const blockSize: nat
    var entries: seq<Entry>
    var estimatedSize: nat

    ghost predicate Valid()
      reads this
    {
      estimatedSize == PayloadSize(DataRaws(entries))
    }

    constructor (blockSize: nat)
      ensures Valid() && this.blockSize == blockSize && entries == []
    {
      this.blockSize := blockSize;
      entries := [];
      estimatedSize := 0;
    }

    /** Adds a put or a tombstone. The caller's entry must be strictly smaller
        than an empty block has room for. */
    method Add(e: Entry)
      requires Valid() && FIXED_HEADER_SIZE + EntrySize(DataRaw(e)) < blockSize
      modifies this
      ensures Valid() && entries == old(entries) + [e]
      ensures estimatedSize == old(estimatedSize) + EntrySize(DataRaw(e))
    {
      estimatedSize := estimatedSize + |e.key| + |Payload(e)| + 8 + 2;
      entries := entries + [e];
      assert DataRaws(entries)[..|entries| - 1] == DataRaws(old(entries));
    }

    predicate WouldExceed(e: Entry)
      reads this
    {
      FIXED_HEADER_SIZE + estimatedSize + |e.key| + |Payload(e)| + 8 + 2 > blockSize
    }

    /** Encodes the entries and empties the builder. When the estimate kept
        them inside the block, reading the result gives them back. */
    method Finish() returns (block: Bytes)
      requires Valid()
      modifies this
      ensures Valid() && entries == [] && |block| == blockSize
      ensures FIXED_HEADER_SIZE + old(estimatedSize) <= blockSize < U32 ==>
                WellFormed(block) && Entries(block) == DataRaws(old(entries))
    {
      var raws := DataRaws(entries);
      var buf := Encode(raws);
      block := Resize(buf, blockSize);
      LayoutLength(raws);
      if FIXED_HEADER_SIZE + estimatedSize <= blockSize < U32 {
        EntriesOfLayout(raws, blockSize);
      }
      entries := [];
      estimatedSize := 0;
    }
  }

  // ---- index entries ----

  /** The largest key under a child block, and where that block starts. */
  datatype IndexEntry = IndexEntry(endKey: Key, child: nat)

  function IndexRaw(e: IndexEntry): (r: RawEntry) {
    RawEntry(e.endKey, [ENTRY_VERSION] + Be(e.child, 8))
  }

  function IndexRaws(es: seq<IndexEntry>): (rs: seq<RawEntry>)
    ensures |rs| == |es|
  {
    seq(|es|, i requires 0 <= i < |es| => IndexRaw(es[i]))
  }

  function DecodeIndex(r: RawEntry): (res: Result<IndexEntry>) {
    if |r.value| == 0 then Failure("index entry header too short")
    else if r.value[0] != ENTRY_VERSION then Failure("unknown index entry version")
    else if |r.value| != 9 then Failure("invalid index entry payload length")
    else Success(IndexEntry(r.key, FromBe(r.value[1..])))
  }

  lemma DecodeIndexRaw(e: IndexEntry)
    requires e.child < U64
    ensures DecodeIndex(IndexRaw(e)) == Success(e)
  {
    assert IndexRaw(e).value[1..] == Be(e.child, 8);
    FieldWidths();
    BeRoundTrip(e.child, 8);
  }

  class IndexBlockBuilder {
    const blockSize: nat
    var entries: seq<IndexEntry>
    var estimatedSize: nat

    ghost predicate Valid()
      reads this
    {
      estimatedSize == PayloadSize(IndexRaws(entries))
    }

    constructor (blockSize: nat)
      ensures Valid() && this.blockSize == blockSize && entries == []
    {
      this.blockSize := blockSize;
      entries := [];
      estimatedSize := 0;
    }

    method Add(e: IndexEntry)
      requires Valid() && FIXED_HEADER_SIZE + |e.endKey| + 17 < blockSize
      modifies this
      ensures Valid() && entries == old(entries) + [e]
      ensures estimatedSize == old(estimatedSize) + |e.endKey| + 17
    {
      estimatedSize := estimatedSize + |e.endKey| + 17;
      entries := entries + [e];
      assert IndexRaws(entries)[..|entries| - 1] == IndexRaws(old(entries));
    }

    predicate WouldExceed(e: IndexEntry)
      reads this
    {
      FIXED_HEADER_SIZE + estimatedSize + |e.endKey| + 17 > blockSize
    }

    method Finish() returns (block: Bytes)
      requires Valid()
      modifies this
      ensures Valid() && entries == [] && |block| == blockSize
      ensures FIXED_HEADER_SIZE + old(estimatedSize) <= blockSize < U32 ==>
                WellFormed(block) && Entries(block) == IndexRaws(old(entries))
    {
      var raws := IndexRaws(entries);
      var buf := Encode(raws);
      block := Resize(buf, blockSize);
      LayoutLength(raws);
      if FIXED_HEADER_SIZE + estimatedSize <= blockSize < U32 {
        EntriesOfLayout(raws, blockSize);
      }
      entries := [];
      estimatedSize := 0;
    }
  }
}
