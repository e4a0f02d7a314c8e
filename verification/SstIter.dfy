/** The SST iterator: the index tree picks the data block, a block cursor
    walks the entries in it. */
module SstIter {
  import opened Keys
  import opened BlockFormat
  import opened BlockBuilders
  import opened BlockIter
  import opened SstTree
  import opened TreeWalk
  import opened SstBuilder
  import opened IndexTreeIter
  import opened Wrappers

  // ---- data blocks inside the record list ----

  /** Every value in the block decodes as a put or a tombstone. */
  predicate DataBlock(b: Bytes) {
    WellFormed(b) && forall i | 0 <= i < |Entries(b)| :: DecodeData(Entries(b)[i]).Success?
  }

  function DecodedData(b: Bytes): (es: seq<Entry>)
    requires DataBlock(b)
    ensures |es| == Count(b)
  {
    seq(|Entries(b)|, i requires 0 <= i < |Entries(b)| => DecodeData(Entries(b)[i]).value)
  }

  lemma DecodedAt(b: Bytes, i: nat)
    requires DataBlock(b) && i < Count(b)
    ensures |DecodedData(b)| == |Entries(b)| == Count(b)
    ensures DecodeData(Entries(b)[i]) == Success(DecodedData(b)[i])
  {
    hide WellFormed;
  }

  lemma HeldDataBlock(f: SstFile, bs: Blocks, p: nat)
    requires Holds(f, bs) && p in bs.data
    ensures ReadBlock(f, p).Success?
    ensures DataBlock(ReadBlock(f, p).value) && DecodedData(ReadBlock(f, p).value) == bs.data[p]
  {
    assert DataBlockAt(f, p) && DataAt(f, p) == bs.data[p];
  }

  lemma DecodedDataKeys(b: Bytes)
    requires DataBlock(b)
    ensures forall i | 0 <= i < |Entries(b)| :: DecodedData(b)[i].key == Entries(b)[i].key
    ensures Ascending(DecodedData(b)) ==> AscendingRaws(Entries(b))
  {
    hide WellFormed, Less;
  }

  /** How many records lie before the k-th data block. */
  ghost function Start(bs: Blocks, ls: seq<IndexEntry>, k: nat): nat
    requires Forest(bs, ls, 0) && k <= |ls|
  {
    |Records(bs, ls[..k])|
  }

  /** The k-th data block is a slice of all records. */
  lemma BlockSlice(bs: Blocks, ls: seq<IndexEntry>, k: nat)
    requires Forest(bs, ls, 0) && k < |ls|
    ensures ls[k].child in bs.data && |bs.data[ls[k].child]| > 0
    ensures var es := bs.data[ls[k].child]; es[|es| - 1].key == ls[k].endKey
    ensures Start(bs, ls, k + 1) == Start(bs, ls, k) + |bs.data[ls[k].child]| <= |Records(bs, ls)|
    ensures Records(bs, ls)[Start(bs, ls, k)..Start(bs, ls, k + 1)] == bs.data[ls[k].child]
    ensures forall i | 0 <= i < |bs.data[ls[k].child]| ::
              Records(bs, ls)[Start(bs, ls, k) + i] == bs.data[ls[k].child][i]
  {
    hide Records;
    assert Subtree(bs, ls[k], 0);
    RecordsAround(bs, ls, k);
  }

  lemma StartAtEnds(bs: Blocks, ls: seq<IndexEntry>)
    requires Forest(bs, ls, 0)
    ensures Start(bs, ls, 0) == 0 && Start(bs, ls, |ls|) == |Records(bs, ls)|
  {
    assert ls[..|ls|] == ls;
  }

  lemma {:induction false} StartGrows(bs: Blocks, ls: seq<IndexEntry>, j: nat, k: nat)
    requires Forest(bs, ls, 0) && j <= k <= |ls|
    ensures Start(bs, ls, j) <= Start(bs, ls, k)
    decreases k - j
  {
    hide Records, Subtree;
    if j < k {
      BlockSlice(bs, ls, j);
      StartGrows(bs, ls, j + 1, k);
    }
  }

  /** Ascending records give ascending end keys and ascending blocks. */
  lemma BlocksAscend(bs: Blocks, ls: seq<IndexEntry>)
    requires Forest(bs, ls, 0) && Ascending(Records(bs, ls))
    ensures AscendingEnds(ls)
    ensures forall k | 0 <= k < |ls| :: ls[k].child in bs.data && Ascending(bs.data[ls[k].child])
  {
    hide Records, Subtree, Less;
    forall i, j | 0 <= i < j < |ls|
      ensures Less(ls[i].endKey, ls[j].endKey)
    {
      BlockSlice(bs, ls, i);
      BlockSlice(bs, ls, j);
      StartGrows(bs, ls, i + 1, j);
      var rs := Records(bs, ls);
      var x, y := Start(bs, ls, i + 1) - 1, Start(bs, ls, j + 1) - 1;
      assert rs[x].key == ls[i].endKey && rs[y].key == ls[j].endKey && x < y;
    }
    forall k | 0 <= k < |ls|
      ensures ls[k].child in bs.data && Ascending(bs.data[ls[k].child])
    {
      BlockSlice(bs, ls, k);
    }
  }

  /** Only the empty SST has no tree. */
  lemma EmptyTree(bs: Blocks, footer: Footer, ls: seq<IndexEntry>)
    requires TreeOf(bs, footer, ls) && Forest(bs, ls, 0)
    ensures Records(bs, ls) == [] <==> footer.height == 0
  {
    hide Subtree, Leaves;
    if footer.height != 0 {
      LeavesEnd(bs, bs.index[footer.root], footer.height - 2);
      BlockSlice(bs, ls, 0);
    }
  }

  // ---- what a seek must find ----

  /** `k` is the first record whose key is not below the target. */
  ghost predicate FirstAtLeast(rs: seq<Entry>, target: Key, k: nat) {
    && k <= |rs|
    && (forall j | 0 <= j < k :: Less(rs[j].key, target))
    && (forall j | k <= j < |rs| :: AtMost(target, rs[j].key))
  }

  /** The records from `k` on are exactly those above the target. */
  ghost predicate AboveFrom(rs: seq<Entry>, target: Key, k: nat) {
    && k <= |rs|
    && (forall j | 0 <= j < k :: AtMost(rs[j].key, target))
    && (forall j | k <= j < |rs| :: Less(target, rs[j].key))
  }

  lemma AscendingBelow(rs: seq<Entry>, target: Key, k: nat)
    requires Ascending(rs) && k < |rs| && Less(rs[k].key, target)
    ensures forall j | 0 <= j <= k :: Less(rs[j].key, target)
  {
    hide Less;
    forall j | 0 <= j < k
      ensures Less(rs[j].key, target)
    {
      LessTransitive(rs[j].key, rs[k].key, target);
    }
  }

  lemma AscendingAtLeast(rs: seq<Entry>, target: Key, k: nat)
    requires Ascending(rs) && k < |rs| && AtMost(target, rs[k].key)
    ensures forall j | k < j < |rs| :: Less(target, rs[j].key)
    ensures forall j | k <= j < |rs| :: AtMost(target, rs[j].key)
  {
    hide Less;
    LessIsStrictTotalOrder();
    forall j | k < j < |rs|
      ensures Less(target, rs[j].key) && AtMost(target, rs[j].key)
    {
      assert Less(rs[k].key, rs[j].key);
    }
  }

  lemma AscendingAtMost(rs: seq<Entry>, target: Key, k: nat)
    requires Ascending(rs) && k < |rs| && AtMost(rs[k].key, target)
    ensures forall j | 0 <= j <= k :: AtMost(rs[j].key, target)
  {
    hide Less;
    LessIsStrictTotalOrder();
    forall j | 0 <= j < k
      ensures AtMost(rs[j].key, target)
    {
      assert Less(rs[j].key, rs[k].key);
    }
  }

  /** A lower bound over the end keys and inside the block is one over all records. */
  lemma ForwardSeekLands(bs: Blocks, ls: seq<IndexEntry>, target: Key, k: nat, p: nat)
    requires Forest(bs, ls, 0) && Ascending(Records(bs, ls)) && LowerBound(ls, target, k) && k < |ls|
    requires ls[k].child in bs.data && p < |bs.data[ls[k].child]|
    requires AtMost(target, bs.data[ls[k].child][p].key)
    requires p > 0 ==> Less(bs.data[ls[k].child][p - 1].key, target)
    ensures FirstAtLeast(Records(bs, ls), target, Start(bs, ls, k) + p)
  {
    hide Records, Subtree, Less;
    var rs := Records(bs, ls);
    BlockSlice(bs, ls, k);
    AscendingAtLeast(rs, target, Start(bs, ls, k) + p);
    if p > 0 {
      AscendingBelow(rs, target, Start(bs, ls, k) + p - 1);
    } else if k > 0 {
      BlockSlice(bs, ls, k - 1);
      AscendingBelow(rs, target, Start(bs, ls, k) - 1);
    } else {
      StartAtEnds(bs, ls);
    }
  }

  lemma ForwardSeekMisses(bs: Blocks, ls: seq<IndexEntry>, target: Key)
    requires Forest(bs, ls, 0) && Ascending(Records(bs, ls)) && LowerBound(ls, target, |ls|)
    ensures FirstAtLeast(Records(bs, ls), target, |Records(bs, ls)|)
  {
    hide Records, Subtree, Less;
    StartAtEnds(bs, ls);
    if |ls| > 0 {
      BlockSlice(bs, ls, |ls| - 1);
      AscendingBelow(Records(bs, ls), target, |Records(bs, ls)| - 1);
    }
  }

  /** Every record from `k` on exceeds the target. */
  ghost predicate TailAbove(rs: seq<Entry>, target: Key, k: nat) {
    k <= |rs| && forall j | k <= j < |rs| :: Less(target, rs[j].key)
  }

  /** The records after a located block all exceed the target. */
  lemma ReverseSeekStarts(bs: Blocks, ls: seq<IndexEntry>, target: Key, k: nat)
    requires Forest(bs, ls, 0) && Ascending(Records(bs, ls)) && k < |ls|
    requires LowerBound(ls, target, k) || k + 1 == |ls|
    ensures TailAbove(Records(bs, ls), target, Start(bs, ls, k + 1))
  {
    hide Records, Subtree, Less;
    StartAtEnds(bs, ls);
    BlockSlice(bs, ls, k);
    if LowerBound(ls, target, k) {
      AscendingAtLeast(Records(bs, ls), target, Start(bs, ls, k + 1) - 1);
    }
  }

  lemma ReverseSeekLands(bs: Blocks, ls: seq<IndexEntry>, target: Key, k: nat, p: nat)
    requires Forest(bs, ls, 0) && Ascending(Records(bs, ls)) && k < |ls|
    requires TailAbove(Records(bs, ls), target, Start(bs, ls, k + 1))
    requires ls[k].child in bs.data && p <= |bs.data[ls[k].child]|
    requires forall i | p <= i < |bs.data[ls[k].child]| :: Less(target, bs.data[ls[k].child][i].key)
    requires p > 0 ==> AtMost(bs.data[ls[k].child][p - 1].key, target)
    ensures Start(bs, ls, k) + p <= |Records(bs, ls)|
    ensures p > 0 ==> AboveFrom(Records(bs, ls), target, Start(bs, ls, k) + p)
    ensures p == 0 ==> TailAbove(Records(bs, ls), target, Start(bs, ls, k))
  {
    hide Records, Subtree, Less;
    var rs, start := Records(bs, ls), Start(bs, ls, k);
    BlockSlice(bs, ls, k);
    forall j | start + p <= j < |rs|
      ensures Less(target, rs[j].key)
    {
      if j < Start(bs, ls, k + 1) {
        assert rs[start + (j - start)] == bs.data[ls[k].child][j - start];
      }
    }
    if p > 0 {
      AscendingAtMost(rs, target, start + p - 1);
    }
  }

  /** Lower bound over a data block's entries. */
  method SeekData(d: NormalBlockIter, target: Key, ghost es: seq<Entry>)
    requires d.Valid() && DataBlock(d.block) && DecodedData(d.block) == es && Ascending(es)
    modifies d
    ensures d.Valid()
    ensures forall j | 0 <= j < (if d.curr.Some? then d.curr.value else |es|) :: Less(es[j].key, target)
    ensures d.curr.Some? ==> d.curr.value < |es| && AtMost(target, es[d.curr.value].key)
  {
    hide WellFormed, Less;
    DecodedDataKeys(d.block);
    d.Seek(target);
  }

  /** Upper bound minus one over a data block's entries. */
  method SeekDataForPrev(d: NormalBlockIter, target: Key, ghost es: seq<Entry>)
    requires d.Valid() && DataBlock(d.block) && DecodedData(d.block) == es && Ascending(es)
    modifies d
    ensures d.Valid()
    ensures forall j | (if d.curr.Some? then d.curr.value + 1 else 0) <= j < |es| :: Less(target, es[j].key)
    ensures d.curr.Some? ==> d.curr.value < |es| && AtMost(es[d.curr.value].key, target)
  {
    hide WellFormed, Less;
    DecodedDataKeys(d.block);
    d.SeekForPrev(target);
  }

  class SstIter {
    const index: IndexTreeIter
    var data: NormalBlockIter?
    /** The entries the file was built from. */
    ghost const records: seq<Entry>

    constructor (file: SstFile, footer: Footer, ghost bs: Blocks, ghost ls: seq<IndexEntry>, ghost es: seq<Entry>)
      requires Represents(file, footer, bs, ls, es) && Ascending(es)
      ensures Ended() && Rewound() && records == es && fresh(index) && data == null && index.iters == []
      ensures index.height == footer.height && (es == [] <==> footer.height == 0)
      ensures index.bs == bs && index.leaves == ls
    {
      hide Holds, Forest, Records, Leaves;
      BlocksAscend(bs, ls);
      EmptyTree(bs, footer, ls);
      index := new IndexTreeIter(file, footer, bs, ls);
      data := null;
      records := es;
    }

    ghost predicate WellBuilt() {
      && index.WellBuilt()
      && Forest(index.bs, index.leaves, 0)
      && Records(index.bs, index.leaves) == records
      && Ascending(records)
    }

    /** The data cursor walks the block of the leaf the index is on. */
    ghost predicate OnBlock()
      reads this`data, data, index, index.iters
    {
      && WellBuilt() && index.Positioned() && index.Position() < |index.leaves|
      && data != null && data !in index.iters && data.Valid()
      && index.leaves[index.Position()].child in index.bs.data
      && DataBlock(data.block)
      && DecodedData(data.block) == index.bs.data[index.leaves[index.Position()].child]
    }

    ghost predicate OnEntry()
      reads this`data, data, index, index.iters
    {
      OnBlock() && data.curr.Some?
    }

    /** Nothing under the cursor: fresh or exhausted. */
    ghost predicate Ended()
      reads this`data, data, index, index.iters
    {
      && WellBuilt() && index.Idle() && (index.height < 2 ==> index.iters == [])
      && (data == null || (index.height >= 2 && data !in index.iters && data.Valid() && data.curr == None))
    }

    /** Where positioning starts from a clean index: a fresh or exhausted
        iterator, or any iterator over a tree of height two. */
    ghost predicate Rewound()
      reads this`data, index
    {
      WellBuilt() && index.currIterIdx == 0 && (index.height < 2 ==> index.iters == [] && data == null)
    }

    /** The index has been positioned before and not run to its end since. */
    ghost predicate Used()
      reads index
    {
      WellBuilt() && index.height >= 3 && index.currIterIdx == index.LastLevel()
    }

    /** Positioned a second time at height three or more without a target: the
        index is stranded, and the cursor is where it was in the block it was
        in. */
    ghost predicate Stuck()
      reads this`data, data, index
    {
      && Used() && index.Stranded()
      && data != null && data !in index.iters && data.Valid() && DataBlock(data.block) && data.curr.Some?
    }

    /** The entries of the block under the data cursor. */
    ghost function Block(): (es: seq<Entry>)
      requires data != null && DataBlock(data.block)
      reads this`data
    {
      DecodedData(data.block)
    }

    /** On the way back from the located block: everything after the block the
        index is on exceeds the target, or everything does. */
    ghost predicate Hunting(target: Key)
      reads index, index.iters
    {
      && WellBuilt()
      && (|| (index.Idle() && (index.height < 2 ==> index.iters == []) && TailAbove(records, target, 0))
          || (index.IsValid() && index.height >= 2 && index.Positioned() && index.Position() < |index.leaves| &&
              TailAbove(records, target, Start(index.bs, index.leaves, index.Position() + 1))))
    }

    ghost function Position(): (k: nat)
      requires OnEntry()
      reads this`data, data, index, index.iters
    {
      Start(index.bs, index.leaves, index.Position()) + data.curr.value
    }

    lemma EndedIsRewound()
      requires Ended()
      ensures Rewound()
    {
    }

    /** Once positioned, only a tree of height two can be positioned again. */
    lemma PositionedIsUsed()
      requires OnEntry()
      ensures if index.height == 2 then Rewound() else Used()
    {
    }

    predicate IsValid()
      reads this`data, data
    {
      data != null && data.curr.Some?
    }

    /** The entry under the cursor is the record at that position. */
    method Current() returns (e: Entry)
      requires OnEntry() || Stuck()
      ensures OnEntry() ==> Position() < |records| && e == records[Position()]
      ensures Stuck() ==> data.curr.value < |Block()| && e == Block()[data.curr.value]
    {
      hide Forest, Records, Holds, TreeOf, DataBlock, DecodedData, Ascending, Entries, WellFormed, IndexTreeIter.OnPath;
      ghost var positioned := OnEntry();
      if positioned { BlockSlice(index.bs, index.leaves, index.Position()); }
      DecodedAt(data.block, data.curr.value);
      var r := DecodeData(data.Current());
      e := r.value;
    }

    method LoadData() returns (d: NormalBlockIter)
      requires WellBuilt() && index.Positioned()
      ensures index.Position() < |index.leaves| && index.leaves[index.Position()].child in index.bs.data
      ensures fresh(d) && d.Valid() && d.curr == None && DataBlock(d.block) && d.count > 0
      ensures DecodedData(d.block) == index.bs.data[index.leaves[index.Position()].child]
    {
      hide Records, Holds, Path, Rank, WellFormed, Leaves;
      var e := index.Value();
      assert Subtree(index.bs, index.leaves[index.Position()], 0);
      HeldDataBlock(index.file, index.bs, e.child);
      var block := ReadBlock(index.file, e.child);
      assert block.Success?;
      d := new NormalBlockIter(block.value);
    }

    /** Loads the block under the index and enters it at its first entry. */
    method EnterFirst()
      requires WellBuilt() && index.Positioned()
      modifies this`data
      ensures OnEntry() && Position() == Start(index.bs, index.leaves, index.Position()) && fresh(data)
    {
      hide Forest, Records, Holds, TreeOf, WellFormed, Leaves, Subtree, DataBlock, DecodedData, Ascending, IndexTreeIter.OnPath;
      var d := LoadData();
      d.SeekToFirst();
      data := d;
    }

    /** The same at its last entry. */
    method EnterLast()
      requires WellBuilt() && index.Positioned()
      modifies this`data
      ensures OnEntry() && Position() + 1 == Start(index.bs, index.leaves, index.Position() + 1) && fresh(data)
    {
      hide Forest, Records, Holds, TreeOf, WellFormed, Leaves, Subtree, DataBlock, DecodedData, Ascending, IndexTreeIter.OnPath;
      var d := LoadData();
      d.SeekToLast();
      data := d;
      BlockSlice(index.bs, index.leaves, index.Position());
    }

    // ---- forward ----

    method SeekToFirst()
      requires Rewound() || Used()
      modifies this`data, index
      ensures old(Rewound()) && records == [] ==> Ended()
      ensures old(Rewound()) && records != [] ==> OnEntry() && Position() == 0
      ensures old(Rewound()) ==> (IsValid() <==> records != [])
      ensures old(Used()) ==> index.Stranded() && data == old(data) && Used()
      ensures (old(OnEntry()) && old(Used())) || old(Stuck()) ==> Stuck()
      ensures fresh(set it | it in index.iters) && (data == old(data) || fresh(data))
    {
      hide Forest, Records, Holds, Path, Rank, WellFormed, Leaves;
      hide NormalBlockIter.Valid, IndexTreeIter.Stack;
      StartAtEnds(index.bs, index.leaves);
      index.SeekToFirst();
      if index.IsValid() {
        EnterFirst();
        BlockSlice(index.bs, index.leaves, 0);
      }
    }

    /** One step inside the block; `None` past its last entry. */
    method NextInBlock()
      requires OnEntry() || Stuck()
      modifies data
      ensures old(OnEntry()) ==> OnBlock() && index.Position() == old(index.Position())
      ensures old(OnEntry()) ==> (data.curr.None? <==> old(Position()) + 1 == Start(index.bs, index.leaves, index.Position() + 1))
      ensures old(OnEntry()) && OnEntry() ==> Position() == old(Position()) + 1 && Position() < |records|
      ensures old(Stuck()) ==> data.Valid() && data.curr == (if old(data.curr.value) + 1 < |Block()| then Some(old(data.curr.value) + 1) else None)
    {
      hide Forest, Records, Holds, TreeOf, Path, Rank, WellFormed, Leaves, Subtree, DataBlock;
      ghost var positioned := OnEntry();
      if positioned { BlockSlice(index.bs, index.leaves, index.Position()); }
      data.Next();
    }

    method NextBlock() returns (ok: bool)
      requires (OnBlock() && data.curr.None?) || (Used() && index.Stranded())
      modifies this`data, index, index.iters
      ensures ok <==> old(OnBlock())
      ensures ok ==> var goal := Start(index.bs, index.leaves, old(index.Position()) + 1);
              if goal < |records| then OnEntry() && Position() == goal else Ended()
      ensures forall it | it in index.iters :: it in old(index.iters) || fresh(it)
      ensures data == old(data) || fresh(data)
    {
      hide Forest, Records, Holds, TreeOf, Path, Rank, WellFormed, Leaves, Subtree, DataBlock;
      hide NormalBlockIter.Valid, DecodedData, Ascending, IndexTreeIter.OnPath, IndexTreeIter.Idle, IndexTreeIter.IsValid;
      StartAtEnds(index.bs, index.leaves);
      index.IsValidIff();
      ok := index.Next();
      index.IsValidIff();
      if ok && index.IsValid() {
        BlockSlice(index.bs, index.leaves, index.Position());
        EnterFirst();
      }
    }

    /** `ok` says that no index was out of range on the way. */
    method Next() returns (ok: bool)
      requires OnEntry() || Ended() || Stuck() || (Used() && data == null)
      modifies this`data, data, index, index.iters
      ensures old(Used()) && old(data) == null ==> Used() && data == null
      ensures ok <==> (old(Stuck()) ==> old(data.curr.value) + 1 < |old(Block())|)
      ensures old(OnEntry()) || old(Ended()) ==> ok
      ensures old(Stuck()) && ok ==>
                Stuck() && data == old(data) && data.curr == Some(old(data.curr.value) + 1)
      ensures old(OnEntry()) && old(Position()) + 1 < |records| ==> OnEntry() && Position() == old(Position()) + 1
      ensures old(OnEntry()) && old(Position()) + 1 >= |records| ==> Ended()
      ensures old(OnEntry()) ==> (IsValid() <==> old(Position()) + 1 < |records|)
      ensures old(Ended()) ==> Ended()
      ensures forall it | it in index.iters :: it in old(index.iters) || fresh(it)
      ensures data == old(data) || fresh(data)
    {
      hide Forest, Records, Holds, TreeOf, Path, Rank, WellFormed, Leaves, Subtree, DataBlock, Start;
      ok := true;
      if data == null {
        return;
      }
      if data.curr.None? {
        data.Next();
        ok := index.Next();
        return;
      }
      NextInBlock();
      if data.curr.None? {
        ok := NextBlock();
      }
    }

    method Seek(target: Key)
      requires Rewound() || Used()
      modifies this`data, index
      ensures old(Rewound()) && IsValid() ==>
                OnEntry() && Position() < |records| && FirstAtLeast(records, target, Position())
      ensures old(Rewound()) && !IsValid() ==> Ended() && FirstAtLeast(records, target, |records|)
      ensures old(Used()) ==> data == null && Used()
      ensures fresh(set it | it in index.iters) && (data == null || fresh(data))
    {
      hide Forest, Records, Holds, Path, Rank, WellFormed, Leaves, Subtree, DataBlock, Start, Less, FirstAtLeast;
      index.Locate(target);
      if index.IsValid() {
        EnterAtLeast(target);
      } else {
        data := null;
        if old(Rewound()) {
          ForwardSeekMisses(index.bs, index.leaves, target);
        }
      }
    }

    /** Enters the located block at the first key not below the target. */
    method EnterAtLeast(target: Key)
      requires WellBuilt() && index.Positioned() && LowerBound(index.leaves, target, index.Position())
      modifies this`data
      ensures OnEntry() && FirstAtLeast(records, target, Position()) && fresh(data) && Position() < |records|
    {
      hide Forest, Records, Holds, TreeOf, Path, Rank, WellFormed, Leaves, Subtree, DataBlock, Less, FirstAtLeast;
      hide Ascending;
      hide NormalBlockIter.Valid, IndexTreeIter.OnPath, DecodedData;
      var d := LoadData();
      ghost var k := index.Position();
      ghost var es := index.bs.data[index.leaves[k].child];
      BlockSlice(index.bs, index.leaves, k);
      BlocksAscend(index.bs, index.leaves);
      SeekData(d, target, es);
      assert d.curr.Some?;
      ForwardSeekLands(index.bs, index.leaves, target, k, d.curr.value);
      data := d;
    }

    // ---- reverse ----

    method SeekToLast()
      requires Rewound() || Used()
      modifies this`data, index
      ensures old(Rewound()) && records == [] ==> Ended()
      ensures old(Rewound()) && records != [] ==> OnEntry() && Position() + 1 == |records|
      ensures old(Rewound()) ==> (IsValid() <==> records != [])
      ensures old(Used()) ==> index.Stranded() && data == old(data) && Used()
      ensures (old(OnEntry()) && old(Used())) || old(Stuck()) ==> Stuck()
      ensures fresh(set it | it in index.iters) && (data == old(data) || fresh(data))
    {
      hide Forest, Records, Holds, Path, Rank, WellFormed, Leaves;
      hide NormalBlockIter.Valid, IndexTreeIter.Stack, Start;
      hide Forest, Subtree, DataBlock, NormalBlockIter.Parsed;
      StartAtEnds(index.bs, index.leaves);
      index.SeekToLast();
      if index.IsValid() {
        EnterLast();
      }
    }

    method PrevInBlock()
      requires OnEntry() || Stuck()
      modifies data
      ensures old(OnEntry()) ==> OnBlock() && index.Position() == old(index.Position())
      ensures old(OnEntry()) ==> (data.curr.None? <==> old(Position()) == Start(index.bs, index.leaves, index.Position()))
      ensures old(OnEntry()) && OnEntry() ==> Position() + 1 == old(Position())
      ensures old(Stuck()) ==> data.Valid() && data.curr == (if old(data.curr.value) > 0 then Some(old(data.curr.value) - 1) else None)
    {
      hide Forest, Records, Holds, TreeOf, Path, Rank, WellFormed, Leaves, Subtree, DataBlock;
      data.Prev();
    }

    method PrevBlock() returns (ok: bool)
      requires (OnBlock() && data.curr.None?) || (Used() && index.Stranded())
      modifies this`data, index, index.iters
      ensures ok <==> old(OnBlock())
      ensures ok ==> var goal := Start(index.bs, index.leaves, old(index.Position()));
              if goal > 0 then OnEntry() && Position() + 1 == goal else Ended()
      ensures forall it | it in index.iters :: it in old(index.iters) || fresh(it)
      ensures data == old(data) || fresh(data)
    {
      hide Forest, Records, Holds, TreeOf, Path, Rank, WellFormed, Leaves, Subtree, DataBlock;
      hide NormalBlockIter.Valid, DecodedData, Ascending, IndexTreeIter.OnPath, IndexTreeIter.Idle, IndexTreeIter.IsValid;
      StartAtEnds(index.bs, index.leaves);
      index.IsValidIff();
      ok := index.Prev();
      index.IsValidIff();
      if ok && index.IsValid() {
        BlockSlice(index.bs, index.leaves, index.Position());
        EnterLast();
      }
    }

    /** Reverse `next`. */
    method Prev() returns (ok: bool)
      requires OnEntry() || Ended() || Stuck() || (Used() && data == null)
      modifies this`data, data, index, index.iters
      ensures old(Used()) && old(data) == null ==> Used() && data == null
      ensures ok <==> (old(Stuck()) ==> old(data.curr.value) > 0)
      ensures old(OnEntry()) || old(Ended()) ==> ok
      ensures old(Stuck()) && ok ==>
                Stuck() && data == old(data) && data.curr == Some(old(data.curr.value) - 1)
      ensures old(OnEntry()) && old(Position()) > 0 ==> OnEntry() && Position() + 1 == old(Position())
      ensures old(OnEntry()) && old(Position()) == 0 ==> Ended()
      ensures old(OnEntry()) ==> (IsValid() <==> old(Position()) > 0)
      ensures old(Ended()) ==> Ended()
      ensures forall it | it in index.iters :: it in old(index.iters) || fresh(it)
      ensures data == old(data) || fresh(data)
    {
      hide Forest, Records, Holds, TreeOf, Path, Rank, WellFormed, Leaves, Subtree, DataBlock, Start;
      ok := true;
      if data == null {
        return;
      }
      if data.curr.None? {
        data.Prev();
        ok := index.Prev();
        return;
      }
      PrevInBlock();
      if data.curr.None? {
        ok := PrevBlock();
      }
    }

    /** Tries the block under the index for a key not above the target. */
    method EnterAtMost(target: Key) returns (found: bool)
      requires WellBuilt() && index.Positioned() && index.Position() < |index.leaves|
      requires TailAbove(records, target, Start(index.bs, index.leaves, index.Position() + 1))
      modifies this`data
      ensures found ==> OnEntry() && AboveFrom(records, target, Position() + 1)
      ensures !found ==> TailAbove(records, target, Start(index.bs, index.leaves, index.Position()))
      ensures if found then fresh(data) else data == old(data)
    {
      hide Forest, Records, Holds, TreeOf, Path, Rank, WellFormed, Leaves, Subtree, DataBlock, Less, AboveFrom;
      hide Ascending;
      hide NormalBlockIter.Valid, IndexTreeIter.OnPath, DecodedData;
      var d := LoadData();
      ghost var k := index.Position();
      ghost var es := index.bs.data[index.leaves[k].child];
      BlocksAscend(index.bs, index.leaves);
      SeekDataForPrev(d, target, es);
      found := d.curr.Some?;
      ReverseSeekLands(index.bs, index.leaves, target, k, if found then d.curr.value + 1 else 0);
      if found {
        data := d;
      }
    }

    method LocateForPrev(target: Key)
      requires Rewound() || Used()
      modifies index
      ensures WellBuilt() && (old(Used()) ==> !index.IsValid() && Used()) && (old(Rewound()) ==> Hunting(target))
      ensures fresh(set it | it in index.iters)
    {
      hide Forest, Records, Holds, Path, Rank, Leaves, Less, Start;
      StartAtEnds(index.bs, index.leaves);
      index.SeekForPrev(target);
      if index.IsValid() {
        index.PositionInRange();
        ReverseSeekStarts(index.bs, index.leaves, target, index.Position());
      }
    }

    /** One round of the retry loop: the block under the index, else one back. */
    method Hunt(target: Key) returns (found: bool)
      requires Hunting(target) && index.IsValid()
      modifies this`data, index, index.iters
      ensures found ==> OnEntry() && AboveFrom(records, target, Position() + 1)
      ensures !found ==> Hunting(target) && (index.IsValid() ==> index.Position() < old(index.Position()))
      ensures forall it | it in index.iters :: it in old(index.iters) || fresh(it)
      ensures if found then fresh(data) else data == old(data)
    {
      hide Forest, Records, Holds, TreeOf, Path, Rank, Leaves, Less, Start, AboveFrom, TailAbove;
      hide NormalBlockIter.Valid, Subtree, DataBlock, WellFormed, IndexTreeIter.OnPath, IndexTreeIter.Idle, IndexTreeIter.IsValid;
      index.IsValidIff();
      found := EnterAtMost(target);
      if !found {
        StartAtEnds(index.bs, index.leaves);
        var ok := index.Prev();
        index.IsValidIff();
      }
    }

    /** Reverse `seek`: the last key not above the target, retrying in the
        previous block when the located one starts above the target. */
    method SeekForPrev(target: Key)
      requires Rewound() || Used()
      modifies this`data, index
      ensures old(Rewound()) && IsValid() ==> OnEntry() && AboveFrom(records, target, Position() + 1)
      ensures old(Rewound()) && !IsValid() ==> Ended() && AboveFrom(records, target, 0)
      ensures old(Used()) ==> data == null && Used()
      ensures fresh(set it | it in index.iters)
      ensures data == null || fresh(data)
    {
      hide Forest, Records, Holds, TreeOf, Path, Rank, Leaves, Less, Start, IndexTreeIter.OnPath;
      LocateForPrev(target);
      while true
        invariant WellBuilt() && (old(Used()) ==> !index.IsValid() && Used())
        invariant old(Rewound()) ==> Hunting(target)
        invariant fresh(set it | it in index.iters)
        decreases if index.IsValid() then index.Position() + 1 else 0
      {
        if !index.IsValid() {
          data := null;
          return;
        }
        var found := Hunt(target);
        if found {
          return;
        }
      }
    }
  }
}
