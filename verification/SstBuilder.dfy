/** The streaming SST builder: sorted entries in, data blocks and a B+tree of
    index blocks out. */
module SstBuilder {
  import opened Keys
  import opened Codec
  import opened BlockFormat
  import opened BlockBuilders
  import opened SstTree
  import opened IndexGrowth
  import opened IndexRoot
  import opened Wrappers

  /** What a reader needs to open the file. */
  datatype Footer = Footer(root: nat, height: nat, firstKey: Key, lastKey: Key)

  /** The footer's tree reaches `ls`: no tree at all for an empty file, else a
      root index block at least one level above the data. */
  ghost predicate TreeOf(bs: Blocks, footer: Footer, ls: seq<IndexEntry>) {
    if footer.height == 0 then ls == []
    else
      && footer.height >= 2
      && footer.root in bs.index
      && Forest(bs, bs.index[footer.root], footer.height - 2)
      && bs.index[footer.root] != []
      && Leaves(bs, bs.index[footer.root], footer.height - 2) == ls
  }

  /** The file `f` with this footer is a well-formed SST over exactly the
      entries `es`, in order. */
  ghost predicate Represents(f: SstFile, footer: Footer, bs: Blocks, ls: seq<IndexEntry>, es: seq<Entry>) {
    && Holds(f, bs)
    && TreeOf(bs, footer, ls)
    && Forest(bs, ls, 0)
    && Records(bs, ls) == es
  }

  // ---- writing one block keeps the file readable ----

  lemma SlotsKept(bytes: Bytes, block: Bytes, blockSize: nat, p: nat)
    requires |block| == blockSize && BlockAt(SstFile(bytes, blockSize), p)
    ensures BlockAt(SstFile(bytes + block, blockSize), p)
    ensures RawsAt(SstFile(bytes + block, blockSize), p) == RawsAt(SstFile(bytes, blockSize), p)
  {
    hide WellFormed, Entries;
    assert (bytes + block)[p..p + blockSize] == bytes[p..p + blockSize];
  }

  lemma HoldsKept(bytes: Bytes, block: Bytes, blockSize: nat, bs: Blocks)
    requires |block| == blockSize && Holds(SstFile(bytes, blockSize), bs)
    ensures Holds(SstFile(bytes + block, blockSize), bs)
  {
    hide BlockAt, RawsAt, DecodeIndex, DecodeData;
    var f, g := SstFile(bytes, blockSize), SstFile(bytes + block, blockSize);
    forall p | p in bs.index
      ensures IndexBlockAt(g, p) && IndexAt(g, p) == bs.index[p]
    {
      SlotsKept(bytes, block, blockSize, p);
      assert IndexAt(g, p) == IndexAt(f, p);
    }
    forall p | p in bs.data
      ensures DataBlockAt(g, p) && DataAt(g, p) == bs.data[p]
    {
      SlotsKept(bytes, block, blockSize, p);
      assert DataAt(g, p) == DataAt(f, p);
    }
  }

  lemma NewSlot(bytes: Bytes, block: Bytes, blockSize: nat)
    requires |block| == blockSize && WellFormed(block)
    ensures BlockAt(SstFile(bytes + block, blockSize), |bytes|)
    ensures RawsAt(SstFile(bytes + block, blockSize), |bytes|) == Entries(block)
  {
    hide WellFormed, Entries;
    assert (bytes + block)[|bytes|..|bytes| + blockSize] == block;
  }

  lemma IndexBlockWritten(bytes: Bytes, block: Bytes, blockSize: nat, bs: Blocks, es: seq<IndexEntry>)
    requires |block| == blockSize && Holds(SstFile(bytes, blockSize), bs)
    requires WellFormed(block) && Entries(block) == IndexRaws(es)
    requires forall i | 0 <= i < |es| :: es[i].child < U64
    ensures Holds(SstFile(bytes + block, blockSize), bs.(index := bs.index[|bytes| := es]))
  {
    hide BlockAt, RawsAt, DecodeIndex, DecodeData, IndexRaw;
    HoldsKept(bytes, block, blockSize, bs);
    NewSlot(bytes, block, blockSize);
    forall i | 0 <= i < |es|
      ensures DecodeIndex(IndexRaw(es[i])) == Success(es[i])
    {
      DecodeIndexRaw(es[i]);
    }
    assert IndexAt(SstFile(bytes + block, blockSize), |bytes|) == es;
  }

  lemma DataBlockWritten(bytes: Bytes, block: Bytes, blockSize: nat, bs: Blocks, es: seq<Entry>)
    requires |block| == blockSize && Holds(SstFile(bytes, blockSize), bs)
    requires WellFormed(block) && Entries(block) == DataRaws(es)
    ensures Holds(SstFile(bytes + block, blockSize), bs.(data := bs.data[|bytes| := es]))
  {
    hide BlockAt, RawsAt, DecodeIndex, DecodeData, DataRaw;
    HoldsKept(bytes, block, blockSize, bs);
    NewSlot(bytes, block, blockSize);
    forall i | 0 <= i < |es|
      ensures DecodeData(DataRaw(es[i])) == Success(es[i])
    {
      DecodeDataRaw(es[i]);
    }
    assert DataAt(SstFile(bytes + block, blockSize), |bytes|) == es;
  }

  /** Block positions are u64: the file reads back as long as it is no longer
      than 2^64 bytes. */
  ghost predicate Readable(bytes: Bytes, blockSize: nat, bs: Blocks) {
    |bytes| <= U64 ==> Holds(SstFile(bytes, blockSize), bs)
  }

  lemma DataReadable(bytes: Bytes, block: Bytes, blockSize: nat, bs: Blocks, es: seq<Entry>)
    requires |block| == blockSize && Readable(bytes, blockSize, bs)
    requires WellFormed(block) && Entries(block) == DataRaws(es)
    ensures Readable(bytes + block, blockSize, bs.(data := bs.data[|bytes| := es]))
  {
    hide Holds, WellFormed, Entries, DataRaws;
    if |bytes + block| <= U64 { DataBlockWritten(bytes, block, blockSize, bs, es); }
  }

  lemma ChildrenInFile(s: Index, level: nat)
    requires Sound(s) && level < |s.levels|
    ensures forall i | 0 <= i < |s.levels[level]| :: s.levels[level][i].child < s.size
  {
    hide LeavesUnder;
    assert Forest(s.blocks, s.levels[level], level);
    forall i | 0 <= i < |s.levels[level]|
      ensures s.levels[level][i].child < s.size
    {
      assert Subtree(s.blocks, s.levels[level][i], level);
    }
  }

  // ---- what has been streamed in so far ----

  /** `leaves` are the data blocks written, in order; their records followed by
      the `waiting` entries are everything `added`. */
  ghost predicate Streamed(s: Index, leaves: seq<IndexEntry>, waiting: seq<Entry>, added: seq<Entry>) {
    && Sound(s) && NoGap(s.levels, 0)
    && leaves == Pending(s.blocks, s.levels, 0)
    && Forest(s.blocks, leaves, 0)
    && Records(s.blocks, leaves) + waiting == added
  }

  function WriteData(s: Index, es: seq<Entry>): (t: Index) {
    s.(blocks := s.blocks.(data := s.blocks.data[s.size := es]), size := s.size + s.blockSize)
  }

  /** `flush_data_block`: nothing to do, or a data block and its index entry. */
  function FlushData(s: Index, waiting: seq<Entry>): (t: Index)
    requires KeysFit(s) && forall i | 0 <= i < |waiting| :: |waiting[i].key| <= s.maxKey
    ensures KeysFit(t) && t.maxKey == s.maxKey && t.blockSize == s.blockSize
  {
    if waiting == [] then s
    else AddIndex(WriteData(s, waiting), 0, IndexEntry(waiting[|waiting| - 1].key, s.size))
  }

  /** The next entry would overflow the waiting block. */
  predicate DataExceeds(waiting: seq<Entry>, e: Entry, blockSize: nat) {
    FIXED_HEADER_SIZE + PayloadSize(DataRaws(waiting)) + EntrySize(DataRaw(e)) > blockSize
  }

  /** The index and the waiting block. */
  datatype Growth = Growth(index: Index, waiting: seq<Entry>) {
    predicate Fits() {
      KeysFit(index) && forall i | 0 <= i < |waiting| :: |waiting[i].key| <= index.maxKey
    }

    /** An entry joins the waiting block, which is flushed first if need be. */
    function Add(e: Entry): (g: Growth)
      requires Fits()
    {
      if DataExceeds(waiting, e, index.blockSize) then Growth(FlushData(index, waiting), [e])
      else Growth(index, waiting + [e])
    }
  }

  lemma WriteDataKeeps(s: Index, es: seq<Entry>)
    requires Healthy(s) && es != []
    ensures var t := WriteData(s, es); var e := IndexEntry(es[|es| - 1].key, s.size);
            && Healthy(t) && Extends(s.blocks, t.blocks)
            && Pending(t.blocks, t.levels, 0) == Pending(s.blocks, s.levels, 0)
            && Subtree(t.blocks, e, 0) && LeavesUnder(t.blocks, e, 0) == [e]
  {
    hide Forest, Leaves;
    PendingKept(s.blocks, WriteData(s, es).blocks, s.levels, 0);
  }

  lemma FlushDataStreams(s: Index, leaves: seq<IndexEntry>, waiting: seq<Entry>, added: seq<Entry>)
    requires Healthy(s) && Streamed(s, leaves, waiting, added) && waiting != []
    requires forall i | 0 <= i < |waiting| :: |waiting[i].key| <= s.maxKey
    ensures var t := FlushData(s, waiting);
            Healthy(t) && Streamed(t, leaves + [IndexEntry(waiting[|waiting| - 1].key, s.size)], [], added)
  {
    hide Forest, Leaves, Subtree, LeavesUnder, Records, Healthy, KeysFit;
    HealthyUnfolds(s);
    var w, e := WriteData(s, waiting), IndexEntry(waiting[|waiting| - 1].key, s.size);
    var t := FlushData(s, waiting);
    WriteDataKeeps(s, waiting);
    assert KeysFit(w) && Sound(w) by { HealthyUnfolds(w); }
    AddIndexHealthy(w, 0, e);
    AddIndexKeeps(w, 0, e);
    AddIndexNoGap(w, 0, e);
    ExtendsTransitive(s.blocks, w.blocks, t.blocks);
    RecordsKept(s.blocks, t.blocks, leaves);
    SubtreeKept(w.blocks, t.blocks, e, 0);
    RecordsOfOne(t.blocks, e);
    assert t.blocks.data[e.child] == w.blocks.data[e.child] == waiting;
    RecordsConcat(t.blocks, leaves, [e]);
  }

  /** A data block of one entry or more takes two blocks of the charge. */
  lemma FlushDataSmall(s: Index, waiting: seq<Entry>, n: int)
    requires KeysFit(s) && FanOutTwo(s) && Small(s, n) && waiting != []
    requires forall i | 0 <= i < |waiting| :: |waiting[i].key| <= s.maxKey
    ensures Small(FlushData(s, waiting), n + |waiting|)
  {
    hide KeysFit, AddIndex, WaitingIn, Charge;
    var w, k := WriteData(s, waiting), |waiting|;
    DataCharge(s, waiting);
    AddIndexCharge(w, 0, IndexEntry(waiting[k - 1].key, s.size));
    MoreBlocks(s.blockSize, n, k);
  }

  lemma DataCharge(s: Index, es: seq<Entry>)
    requires KeysFit(s)
    ensures KeysFit(WriteData(s, es)) && Charge(WriteData(s, es)) == Charge(s) + s.blockSize
  {
  }

  lemma MoreBlocks(blockSize: nat, n: nat, k: nat)
    requires k >= 1
    ensures blockSize * (n + k) >= blockSize * n + blockSize
  {
    assert blockSize * (n + k) == blockSize * n + blockSize * k;
    TwoBlocks(blockSize, k);
  }

  lemma HealthyUnfolds(s: Index)
    requires Healthy(s)
    ensures KeysFit(s) && Sound(s) && WithinBlocks(s)
  {
  }

  lemma ExtendsTransitive(a: Blocks, b: Blocks, c: Blocks)
    requires Extends(a, b) && Extends(b, c)
    ensures Extends(a, c)
  {
  }

  /** The footer `finish` computes: root of the topmost builder's last entry. */
  function FooterOf(t: Index, firstKey: Option<Key>, lastKey: Option<Key>): (footer: Footer) {
    var n := |t.levels|;
    Footer(if n > 0 && t.levels[n - 1] != [] then t.levels[n - 1][|t.levels[n - 1]| - 1].child else 0, n,
           if firstKey.Some? then firstKey.value else [], if lastKey.Some? then lastKey.value else [])
  }

  /** Nothing was written, or `finish` leaves a single root. */
  predicate HasRoot(s: Index) {
    s.levels == [] || SingleRoot(s.levels, s.blockSize)
  }

  /** With a single root, the finished tree reaches every data block. */
  lemma FinishRepresents(s: Index, leaves: seq<IndexEntry>, added: seq<Entry>, firstKey: Option<Key>, lastKey: Option<Key>)
    requires KeysFit(s) && HasRoot(s) && Streamed(s, leaves, [], added)
    ensures var t := FinishIndex(s); var footer := FooterOf(t, firstKey, lastKey);
            TreeOf(t.blocks, footer, leaves) && Forest(t.blocks, leaves, 0) && Records(t.blocks, leaves) == added
  {
    hide KeysFit, Forest, Leaves, Records, LeavesUnder, SingleRoot;
    var t := FinishIndex(s);
    if s.levels == [] {
      assert t == s;
    } else {
      SingleRootTree(s);
      var top := |t.levels| - 1;
      RecordsKept(s.blocks, t.blocks, leaves);
      RootUnfolds(t.blocks, t.levels[top][0], top);
    }
  }

  lemma RootUnfolds(bs: Blocks, e: IndexEntry, h: nat)
    requires h >= 1 && Subtree(bs, e, h)
    ensures e.child in bs.index && bs.index[e.child] != [] && Forest(bs, bs.index[e.child], h - 1)
    ensures Leaves(bs, bs.index[e.child], h - 1) == LeavesUnder(bs, e, h)
  {
  }

  /** Before the first entry. */
  function Nothing(blockSize: nat, maxKey: nat): (g: Growth) {
    Growth(Index([], Blocks(map[], map[]), 0, blockSize, maxKey), [])
  }

  lemma LevelReadable(s: Index, level: nat, bytes: Bytes, block: Bytes)
    requires Sound(s) && level < |s.levels| && s.size == |bytes| && Readable(bytes, s.blockSize, s.blocks)
    requires |block| == s.blockSize && WellFormed(block) && Entries(block) == IndexRaws(s.levels[level])
    ensures Readable(bytes + block, s.blockSize, Write(s, level).blocks)
  {
    hide Sound, Holds, IndexRaws, WellFormed, Entries;
    ChildrenInFile(s, level);
    if |bytes| + |block| <= U64 { IndexBlockWritten(bytes, block, s.blockSize, s.blocks, s.levels[level]); }
  }

  lemma LevelFits(s: Index, level: nat)
    requires WithinBlocks(s) && level < |s.levels|
    ensures FIXED_HEADER_SIZE + IndexSize(s.levels[level]) <= s.blockSize
  {
  }

  lemma NothingHolds(blockSize: nat, maxKey: nat)
    requires FIXED_HEADER_SIZE + maxKey + 17 < blockSize
    ensures var s := Nothing(blockSize, maxKey).index;
            Healthy(s) && Readable([], blockSize, s.blocks) && Streamed(s, [], [], [])
  {
  }

  class SstBuilder {
    const blockSize: nat
    /** The longest key the caller will add. */
    ghost const maxKey: nat
    var file: Bytes
    const dataBuilder: DataBlockBuilder
    var indexBuilders: seq<IndexBlockBuilder>
    var firstKey: Option<Key>
    var lastKey: Option<Key>
    ghost var blocks: Blocks
    ghost var leaves: seq<IndexEntry>
    ghost var added: seq<Entry>

    ghost function Levels(): (ls: seq<seq<IndexEntry>>)
      reads this`indexBuilders, indexBuilders
      ensures |ls| == |indexBuilders|
    {
      var bs := indexBuilders;
      seq(|bs|, i requires 0 <= i < |bs| reads bs => bs[i].entries)
    }

    ghost function Abs(): (s: Index)
      reads this`indexBuilders, this`file, this`blocks, indexBuilders
    {
      Index(Levels(), blocks, |file|, blockSize, maxKey)
    }

    ghost function Grown(): (g: Growth)
      reads this`indexBuilders, this`file, this`blocks, indexBuilders, dataBuilder
    {
      Growth(Abs(), dataBuilder.entries)
    }

    ghost function File(): SstFile
      reads this`file
    {
      SstFile(file, blockSize)
    }

    /** Every level has its own builder, in step with its entries. */
    ghost predicate Separate()
      reads this`indexBuilders, indexBuilders
    {
      && (forall i, j | 0 <= i < j < |indexBuilders| :: indexBuilders[i] != indexBuilders[j])
      && (forall i | 0 <= i < |indexBuilders| :: indexBuilders[i].Valid() && indexBuilders[i].blockSize == blockSize)
    }

    /** What holds between any two steps, inside the recursion too. */
    ghost predicate Consistent()
      reads this`indexBuilders, this`file, this`blocks, indexBuilders
    {
      Separate() && blockSize < U32 && Healthy(Abs()) && Readable(file, blockSize, blocks)
    }

    /** What holds between calls: the entries added are on file or waiting. */
    ghost predicate Valid()
      reads this, dataBuilder, indexBuilders
    {
      && Consistent()
      && WaitingFits()
      && Streamed(Abs(), leaves, dataBuilder.entries, added)
      && firstKey == (if added == [] then None else Some(added[0].key))
      && lastKey == (if added == [] then None else Some(added[|added| - 1].key))
    }

    ghost predicate WaitingFits()
      reads dataBuilder
    {
      && dataBuilder.Valid() && dataBuilder.blockSize == blockSize
      && FIXED_HEADER_SIZE + dataBuilder.estimatedSize <= blockSize
      && (forall i | 0 <= i < |dataBuilder.entries| :: |dataBuilder.entries[i].key| <= maxKey)
    }

    constructor (blockSize: nat, ghost maxKey: nat)
      requires FIXED_HEADER_SIZE + maxKey + 17 < blockSize < U32
      ensures Valid() && added == [] && fresh(dataBuilder) && indexBuilders == []
      ensures Grown() == Nothing(blockSize, maxKey)
      ensures this.blockSize == blockSize && this.maxKey == maxKey
    {
      hide Healthy, Streamed, Readable, PayloadSize;
      this.blockSize := blockSize;
      this.maxKey := maxKey;
      file := [];
      dataBuilder := new DataBlockBuilder(blockSize);
      indexBuilders := [];
      firstKey, lastKey := None, None;
      blocks := Blocks(map[], map[]);
      leaves, added := [], [];
      new;
      NothingHolds(blockSize, maxKey);
      EmptyDataSize();
      assert Levels() == [];
    }

    method PushLevel()
      requires Separate()
      modifies this`indexBuilders
      ensures Separate() && Levels() == old(Levels()) + [[]]
      ensures |indexBuilders| == |old(indexBuilders)| + 1 && indexBuilders[..|old(indexBuilders)|] == old(indexBuilders)
      ensures fresh(indexBuilders[|old(indexBuilders)|])
    {
      var b := new IndexBlockBuilder(blockSize);
      indexBuilders := indexBuilders + [b];
    }

    method Append(level: nat, e: IndexEntry)
      requires Separate() && level < |indexBuilders| && FIXED_HEADER_SIZE + |e.endKey| + 17 < blockSize
      modifies indexBuilders[level]
      ensures Separate() && Levels() == old(Levels())[level := old(Levels())[level] + [e]]
    {
      indexBuilders[level].Add(e);
    }

    /** Takes a level's entries out as a block. */
    method TakeLevel(level: nat) returns (block: Bytes)
      requires Separate() && level < |indexBuilders|
      requires FIXED_HEADER_SIZE + IndexSize(indexBuilders[level].entries) <= blockSize < U32
      modifies indexBuilders[level]
      ensures Separate() && Levels() == old(Levels())[level := []]
      ensures |block| == blockSize && WellFormed(block) && Entries(block) == IndexRaws(old(indexBuilders[level].entries))
    {
      hide WellFormed, Entries, IndexRaws, PayloadSize;
      block := indexBuilders[level].Finish();
    }

    /** Encodes one level into a block at the end of the file. */
    method WriteLevel(level: nat) returns (position: nat)
      requires Consistent() && level < |indexBuilders| && indexBuilders[level].entries != []
      modifies this`file, this`blocks, indexBuilders[level]
      ensures Consistent() && Abs() == Write(old(Abs()), level) && position == old(|file|)
    {
      hide Healthy, Readable, Subtree, IndexRaws, WellFormed, Entries, IndexSize, SstBuilder.Separate;
      ghost var before := Abs();
      ghost var es := indexBuilders[level].entries;
      assert before.levels[level] == es;
      HealthyUnfolds(before);
      LevelFits(before, level);
      WriteHealthy(before, level);
      var block := TakeLevel(level);
      LevelReadable(before, level, file, block);
      position := |file|;
      file := file + block;
      blocks := blocks.(index := blocks.index[position := es]);
    }

    method AddIndexEntry(level: nat, e: IndexEntry)
      requires Consistent() && level <= |indexBuilders| && |e.endKey| <= maxKey && Subtree(blocks, e, level)
      modifies this`file, this`blocks, this`indexBuilders, indexBuilders
      ensures Consistent() && Abs() == AddIndex(old(Abs()), level, e)
      ensures old(indexBuilders) <= indexBuilders && fresh(set b | b in indexBuilders[old(|indexBuilders|)..])
      decreases |indexBuilders| - level, 1
    {
      hide Subtree, Sound, WithinBlocks, Readable, PayloadSize;
      ghost var before := Abs();
      AddIndexHealthy(before, level, e);
      if level >= |indexBuilders| {
        PushLevel();
        assert IndexSize([]) == 0 by { EmptyIndexSize(); }
        assert indexBuilders[level].entries == Levels()[level] == [];
      }
      assert indexBuilders[level].WouldExceed(e) <==> Exceeds(Levels()[level], e, blockSize);
      if indexBuilders[level].WouldExceed(e) {
        FlushIndexBlock(level);
      }
      ghost var mid := Abs();
      Append(level, e);
      assert Abs() == mid.(levels := mid.levels[level := mid.levels[level] + [e]]);
      if level == |before.levels| {
        assert mid.levels == before.levels + [[]] && [] + [e] == [e];
        assert Levels() == before.levels + [[e]];
      }
    }

    method FlushIndexBlock(level: nat)
      requires Consistent() && level < |indexBuilders|
      modifies this`file, this`blocks, this`indexBuilders, indexBuilders
      ensures Consistent() && Abs() == FlushIndex(old(Abs()), level)
      ensures old(indexBuilders) <= indexBuilders && fresh(set b | b in indexBuilders[old(|indexBuilders|)..])
      decreases |indexBuilders| - level, 0
    {
      hide Subtree, Sound, WithinBlocks, Readable, AddIndex;
      ghost var before := Abs();
      var builder := indexBuilders[level];
      if builder.entries == [] {
        return;
      }
      WriteHealthy(before, level);
      var endKey := builder.entries[|builder.entries| - 1].endKey;
      var position := WriteLevel(level);
      AddIndexEntry(level + 1, IndexEntry(endKey, position));
    }

    method WriteDataBlock() returns (position: nat)
      requires Consistent() && WaitingFits() && dataBuilder.entries != []
      modifies this`file, this`blocks, dataBuilder
      ensures Consistent() && WaitingFits() && dataBuilder.entries == []
      ensures Abs() == WriteData(old(Abs()), old(dataBuilder.entries)) && position == old(|file|)
    {
      hide Forest, Leaves, Subtree, LeavesUnder, Healthy, DataRaws, WellFormed, Entries, Readable, Pending, Extends;
      hide SstBuilder.Separate;
      ghost var before := Abs();
      ghost var es := dataBuilder.entries;
      WriteDataKeeps(before, es);
      var block := dataBuilder.Finish();
      EmptyDataSize();
      position := |file|;
      DataReadable(file, block, blockSize, blocks, es);
      file := file + block;
      blocks := blocks.(data := blocks.data[position := es]);
      assert Levels() == before.levels;
    }

    method FlushWaiting()
      requires Consistent() && WaitingFits() && dataBuilder.entries != []
      modifies this`file, this`blocks, this`indexBuilders, dataBuilder, indexBuilders
      ensures Consistent() && WaitingFits() && dataBuilder.entries == []
      ensures old(KeysFit(Abs())) && Abs() == FlushData(old(Abs()), old(dataBuilder.entries))
      ensures old(indexBuilders) <= indexBuilders && fresh(set b | b in indexBuilders[old(|indexBuilders|)..])
    {
      hide Subtree, Healthy, Readable, AddIndex, KeysFit;
      ghost var before := Abs();
      ghost var es := dataBuilder.entries;
      HealthyUnfolds(before);
      WriteDataKeeps(before, es);
      var endKey := dataBuilder.entries[|dataBuilder.entries| - 1].key;
      HealthyUnfolds(WriteData(before, es));
      var position := WriteDataBlock();
      AddIndexEntry(0, IndexEntry(endKey, position));
      assert FlushData(before, es) == AddIndex(WriteData(before, es), 0, IndexEntry(endKey, position));
    }

    method FlushDataBlock()
      requires Valid()
      modifies this`file, this`blocks, this`indexBuilders, this`leaves, dataBuilder, indexBuilders
      ensures Valid() && dataBuilder.entries == []
      ensures old(KeysFit(Abs())) && Abs() == FlushData(old(Abs()), old(dataBuilder.entries))
      ensures old(indexBuilders) <= indexBuilders && fresh(set b | b in indexBuilders[old(|indexBuilders|)..])
    {
      hide Subtree, Healthy, Streamed, Readable, AddIndex, KeysFit;
      HealthyUnfolds(Abs());
      if dataBuilder.entries != [] {
        FlushDataStreams(Abs(), leaves, dataBuilder.entries, added);
        var entry := IndexEntry(dataBuilder.entries[|dataBuilder.entries| - 1].key, |file|);
        FlushWaiting();
        leaves := leaves + [entry];
      }
    }

    lemma ValidFits()
      requires Valid()
      ensures Grown().Fits() && dataBuilder.blockSize == blockSize
      ensures dataBuilder.estimatedSize == PayloadSize(DataRaws(dataBuilder.entries))
    {
      HealthyUnfolds(Abs());
    }

    lemma ValidKeys()
      requires Valid()
      ensures firstKey == (if added == [] then None else Some(added[0].key))
      ensures lastKey == (if added == [] then None else Some(added[|added| - 1].key))
    {
    }

    /** Flush the waiting block when the entry would overflow it. */
    method MakeRoom(e: Entry)
      requires Valid() && FIXED_HEADER_SIZE + EntrySize(DataRaw(e)) < blockSize
      modifies this`file, this`blocks, this`indexBuilders, this`leaves, dataBuilder, indexBuilders
      ensures Valid() && FIXED_HEADER_SIZE + dataBuilder.estimatedSize + EntrySize(DataRaw(e)) <= blockSize
      ensures old(Grown().Fits())
      ensures Grown() == if old(DataExceeds(dataBuilder.entries, e, blockSize))
                         then Growth(FlushData(old(Abs()), old(dataBuilder.entries)), []) else old(Grown())
      ensures old(indexBuilders) <= indexBuilders && fresh(set b | b in indexBuilders[old(|indexBuilders|)..])
    {
      hide FlushData, PayloadSize, SstBuilder.Valid, Growth.Fits;
      ValidFits();
      EmptyDataSize();
      if dataBuilder.WouldExceed(e) {
        FlushDataBlock();
        ValidFits();
      }
    }

    /** The entry joins the waiting block, where there is room. */
    method TakeIn(e: Entry)
      requires Valid() && FIXED_HEADER_SIZE + dataBuilder.estimatedSize + EntrySize(DataRaw(e)) <= blockSize
      requires FIXED_HEADER_SIZE + EntrySize(DataRaw(e)) < blockSize && |e.key| <= maxKey
      modifies this`added, this`firstKey, this`lastKey, dataBuilder
      ensures Valid() && added == old(added) + [e] && Grown() == Growth(old(Abs()), old(dataBuilder.entries) + [e])
    {
      hide Streamed, PayloadSize, EntrySize, SstBuilder.Consistent, SstBuilder.Abs;
      StreamedSnoc(Abs(), leaves, dataBuilder.entries, added, e);
      if firstKey.None? {
        firstKey := Some(e.key);
      }
      lastKey := Some(e.key);
      dataBuilder.Add(e);
      added := added + [e];
    }

    /** `add` and `add_delete`: the entry joins the waiting block, which is
        flushed first when the entry would overflow it. */
    method Add(e: Entry)
      requires Valid() && FIXED_HEADER_SIZE + EntrySize(DataRaw(e)) < blockSize && |e.key| <= maxKey
      modifies this`file, this`blocks, this`indexBuilders, this`leaves, this`added, this`firstKey, this`lastKey,
               dataBuilder, indexBuilders
      ensures Valid() && added == old(added) + [e]
      ensures old(Grown().Fits()) && Grown() == old(Grown()).Add(e)
      ensures old(indexBuilders) <= indexBuilders && fresh(set b | b in indexBuilders[old(|indexBuilders|)..])
    {
      hide FlushData, DataExceeds, EntrySize, Growth.Fits, SstBuilder.Valid;
      MakeRoom(e);
      TakeIn(e);
    }

    /** The bottom-up flush over the builders that exist when it starts. */
    method FlushAllLevels()
      requires Consistent()
      modifies this`file, this`blocks, this`indexBuilders, indexBuilders
      ensures Consistent() && old(KeysFit(Abs())) && Abs() == FlushLevels(old(Abs()), 0, old(|indexBuilders|))
      ensures old(indexBuilders) <= indexBuilders && fresh(set b | b in indexBuilders[old(|indexBuilders|)..])
    {
      hide Healthy, Readable, FlushIndex, KeysFit;
      HealthyUnfolds(Abs());
      ghost var before := Abs();
      var n := |indexBuilders|;
      for level := 0 to n
        invariant Consistent() && n <= |indexBuilders| && KeysFit(before) && KeysFit(Abs())
        invariant FlushLevels(before, 0, n) == FlushLevels(Abs(), level, n)
        invariant old(indexBuilders) <= indexBuilders && fresh(set b | b in indexBuilders[old(|indexBuilders|)..])
      {
        ghost var s := Abs();
        if indexBuilders[level].entries != [] {
          FlushIndexBlock(level);
        } else {
          assert FlushIndex(s, level) == s by { FlushNothing(s, level); }
        }
        HealthyUnfolds(Abs());
      }
    }

    method FlushIndexTree()
      requires Consistent()
      modifies this`file, this`blocks, this`indexBuilders, indexBuilders
      ensures Consistent() && old(KeysFit(Abs())) && Abs() == FinishIndex(old(Abs()))
    {
      hide FlushIndex, FlushLevels, KeysFit, SstBuilder.Consistent;
      ConsistentFits();
      FlushAllLevels();
      ConsistentFits();
      var top := |indexBuilders| - 1;
      if top >= 0 && |indexBuilders[top].entries| > 1 {
        FlushIndexBlock(top);
      }
    }

    lemma ConsistentFits()
      requires Consistent()
      ensures KeysFit(Abs())
    {
    }

    method CurrentFooter() returns (footer: Footer)
      ensures footer == FooterOf(Abs(), firstKey, lastKey)
    {
      var n := |indexBuilders|;
      var root := 0;
      if n > 0 && indexBuilders[n - 1].entries != [] {
        var last := indexBuilders[n - 1].entries;
        root := last[|last| - 1].child;
      }
      footer := Footer(root, n, if firstKey.Some? then firstKey.value else [],
                       if lastKey.Some? then lastKey.value else []);
    }

    /** Flushes what is left and computes the footer. The tree the footer roots
        holds exactly the added entries whenever it has a single root. */
    method Finish() returns (footer: Footer)
      requires Valid()
      modifies this`file, this`blocks, this`indexBuilders, this`leaves, dataBuilder, indexBuilders
      ensures old(KeysFit(Abs())) && Abs() == FinishIndex(FlushData(old(Abs()), old(dataBuilder.entries)))
      ensures footer == FooterOf(Abs(), firstKey, lastKey)
      ensures HasRoot(FlushData(old(Abs()), old(dataBuilder.entries))) && |file| <= U64 ==>
                Represents(File(), footer, blocks, leaves, added)
    {
      hide Healthy, Streamed, FlushData, FinishIndex, KeysFit, Holds, TreeOf, Forest, Records, HasRoot;
      HealthyUnfolds(Abs());
      FlushDataBlock();
      HealthyUnfolds(Abs());
      ghost var flushed := Abs();
      if HasRoot(flushed) { FinishRepresents(flushed, leaves, added, firstKey, lastKey); }
      FlushIndexTree();
      footer := CurrentFooter();
    }
  }

  lemma FlushNothing(s: Index, level: nat)
    requires level < |s.levels| && KeysFit(s) && s.levels[level] == []
    ensures FlushIndex(s, level) == s
  {
  }

  lemma StreamedSnoc(s: Index, leaves: seq<IndexEntry>, waiting: seq<Entry>, added: seq<Entry>, e: Entry)
    requires Streamed(s, leaves, waiting, added)
    ensures Streamed(s, leaves, waiting + [e], added + [e])
  {
    hide Sound, Forest, Records, Pending;
    assert Records(s.blocks, leaves) + (waiting + [e]) == Records(s.blocks, leaves) + waiting + [e];
  }

  lemma EmptyDataSize()
    ensures PayloadSize(DataRaws([])) == 0
  {
  }

  lemma EmptyIndexSize()
    ensures IndexSize([]) == 0
  {
  }
}
