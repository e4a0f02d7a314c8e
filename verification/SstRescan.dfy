/** SST iterators under the iterators of a shard scan, which seek them more than
    once: what they yield after that, at every tree height. */
module SstRescan {
  import opened Keys
  import opened BlockBuilders
  import opened SstTree
  import opened SstBuilder
  import opened SstIter
  import opened SstPlan
  import opened SstRoundTrip
  import opened Streams
  import opened Runs
  import opened Wrappers
  import opened BlockFormat
  import opened Codec

  /** The entries of the first data block. */
  ghost function FirstBlock(bs: Blocks, ls: seq<IndexEntry>): (es: seq<Entry>)
    requires Forest(bs, ls, 0) && ls != []
  {
    assert Subtree(bs, ls[0], 0);
    bs.data[ls[0].child]
  }

  /** An SST as a source of the merge, once it has been sought twice: it keeps
      the contract exactly up to height two. */
  ghost function SourceOf(footer: Footer, bs: Blocks, ls: seq<IndexEntry>, es: seq<Entry>): (src: Source)
    requires Forest(bs, ls, 0) && TreeOf(bs, footer, ls)
  {
    if footer.height <= 2 then Sound(Stream(es, Reversed(es), es))
    else
      TallHasLeaves(bs, footer, ls);
      Stuck(FirstBlock(bs, ls), Some(0))
  }

  lemma TallHasLeaves(bs: Blocks, footer: Footer, ls: seq<IndexEntry>)
    requires Forest(bs, ls, 0) && TreeOf(bs, footer, ls) && footer.height > 0
    ensures ls != []
  {
    hide Subtree, Leaves;
    LeavesEnd(bs, bs.index[footer.root], footer.height - 2);
  }

  /** The first block is where the records start, and is not empty. */
  lemma FirstBlockIs(bs: Blocks, ls: seq<IndexEntry>, es: seq<Entry>)
    requires Forest(bs, ls, 0) && ls != [] && Records(bs, ls) == es
    ensures 0 < |FirstBlock(bs, ls)| <= |es| && FirstBlock(bs, ls) == es[..|FirstBlock(bs, ls)|]
  {
    hide Records;
    StartAtEnds(bs, ls);
    BlockSlice(bs, ls, 0);
  }

  /** A stranded iterator as a source. */
  ghost function AsSource(it: SstIter): (src: Source)
    requires it.Stuck()
    reads it`data, it.data, it.index
    ensures src.Stuck? && src.at.Some? && src.InBlock()
  {
    Stuck(it.Block(), it.data.curr)
  }

  /** `rem` is what the iterator has to come in direction `d`: from record `k`
      on, or from before it back, or what a stranded one has. */
  ghost predicate Ahead(it: SstIter, d: Dir, k: nat, rem: Run)
    reads it`data, it.data, it.index, it.index.iters
  {
    if it.Stuck() then rem == AsSource(it).To(d)
    else
      && k <= |it.records|
      && rem == Run(if d == Fwd then it.records[k..] else Reversed(it.records[..k]), false)
      && (it.IsValid() <==> rem.out != [])
      && (it.IsValid() ==> it.OnEntry() && it.Position() == if d == Fwd then k else k - 1)
  }

  lemma NotStuck(it: SstIter)
    requires it.OnEntry() || it.Ended()
    ensures !it.Stuck()
  {
    hide Forest, Records, Holds, TreeOf, DecodedData, DataBlock;
  }

  lemma StuckIsTall(it: SstIter)
    ensures it.Stuck() ==> it.index.height >= 3
  {
  }

  lemma AheadIffValid(it: SstIter, d: Dir, k: nat, rem: Run)
    requires Ahead(it, d, k, rem)
    ensures it.IsValid() <==> rem.out != []
    ensures !rem.Broken()
  {
    hide SstIter.OnEntry, SstIter.Position, DecodedData, DataBlock;
    if it.Stuck() { SourceMoves(AsSource(it), d); }
  }

  /** Read the entry under the cursor and move on. */
  method StepForward(it: SstIter, ghost k: nat, ghost rem: Run) returns (e: Entry, ok: bool, ghost j: nat)
    requires Ahead(it, Fwd, k, rem) && it.IsValid()
    modifies it`data, it.data, it.index, set x | x in it.index.iters
    ensures rem.out != [] && e == rem.out[0] && (ok <==> !rem.Tail().Broken())
    ensures ok ==> Ahead(it, Fwd, j, rem.Tail())
    ensures forall x | x in it.index.iters :: x in old(it.index.iters) || fresh(x)
    ensures it.data == old(it.data) || fresh(it.data)
  {
    hide SstIter.OnEntry, SstIter.Ended, SstIter.Used, SstIter.Rewound, SstIter.Position, DecodedData, DataBlock;
    ghost var stuck := it.Stuck();
    if stuck { SourceMoves(AsSource(it), Fwd); } else { TailOf(it.records, k, Fwd); }
    e := it.Current();
    ok := it.Next();
    if !stuck { NotStuck(it); }
    j := if stuck then 0 else k + 1;
  }

  method StepBackward(it: SstIter, ghost k: nat, ghost rem: Run) returns (e: Entry, ok: bool, ghost j: nat)
    requires Ahead(it, Rev, k, rem) && it.IsValid()
    modifies it`data, it.data, it.index, set x | x in it.index.iters
    ensures rem.out != [] && e == rem.out[0] && (ok <==> !rem.Tail().Broken())
    ensures ok ==> Ahead(it, Rev, j, rem.Tail())
    ensures forall x | x in it.index.iters :: x in old(it.index.iters) || fresh(x)
    ensures it.data == old(it.data) || fresh(it.data)
  {
    hide SstIter.OnEntry, SstIter.Ended, SstIter.Used, SstIter.Rewound, SstIter.Position, DecodedData, DataBlock;
    ghost var stuck := it.Stuck();
    if stuck { SourceMoves(AsSource(it), Rev); } else { TailOf(it.records, k, Rev); }
    e := it.Current();
    ok := it.Prev();
    if !stuck { NotStuck(it); }
    j := if stuck then 0 else k - 1;
  }

  lemma TailOf(es: seq<Entry>, k: nat, d: Dir)
    requires k <= |es|
    ensures d == Fwd && k < |es| ==> es[k..][0] == es[k] && es[k..][1..] == es[k + 1..]
    ensures d == Rev && k > 0 ==> Reversed(es[..k])[0] == es[k - 1] && Reversed(es[..k])[1..] == Reversed(es[..k - 1])
  {
  }

  /** Run the iterator to its end, or until it breaks off. */
  method RunToEnd(it: SstIter, d: Dir, ghost k: nat, ghost rem: Run) returns (r: Run)
    requires Ahead(it, d, k, rem)
    modifies it`data, it.data, it.index, set x | x in it.index.iters
    ensures r == rem
  {
    hide Ahead;
    var out, ok := [], true;
    ghost var j, left := k, rem;
    AheadIffValid(it, d, j, left);
    while ok && it.IsValid()
      invariant rem == Run(out + left.out, left.breaks)
      invariant ok ==> Ahead(it, d, j, left) && !left.Broken() && (it.IsValid() <==> left.out != [])
      invariant !ok ==> left.Broken()
      invariant forall x | x in it.index.iters :: x in old(it.index.iters) || fresh(x)
      invariant it.data == old(it.data) || fresh(it.data)
      decreases |left.out|, ok
    {
      var e;
      if d == Fwd { e, ok, j := StepForward(it, j, left); } else { e, ok, j := StepBackward(it, j, left); }
      assert out + left.out == (out + [left.out[0]]) + left.out[1..];
      out, left := out + [e], left.Tail();
      if ok { AheadIffValid(it, d, j, left); }
    }
    r := Run(out, !ok);
  }

  /** Moved on by one, if the shard's merge did that. */
  function Moved(src: Source, advance: bool): (r: Source)
    requires advance ==> !src.Breaks(Fwd)
  {
    if advance then src.Next(Fwd) else src
  }

  /** On the first record the cursor is at the start of the first block. */
  lemma OnFirstBlock(it: SstIter)
    requires it.OnEntry() && it.Position() == 0
    ensures it.index.leaves != [] && it.Block() == FirstBlock(it.index.bs, it.index.leaves) && it.data.curr == Some(0)
  {
    hide Forest, Records, Holds, TreeOf, Subtree, DataBlock, DecodedData;
    var bs, ls, k := it.index.bs, it.index.leaves, it.index.Position();
    StartAtEnds(bs, ls);
    BlockSlice(bs, ls, 0);
    if k > 0 { StartGrows(bs, ls, 1, k); }
  }

  /** A new iterator sought to its first entry twice. */
  method SeekTwice(file: SstFile, footer: Footer, ghost bs: Blocks, ghost ls: seq<IndexEntry>, ghost es: seq<Entry>)
    returns (it: SstIter)
    requires Represents(file, footer, bs, ls, es) && Ascending(es)
    ensures fresh(it) && fresh(it.index) && fresh(set x | x in it.index.iters) && (it.data == null || fresh(it.data))
    ensures it.records == es && it.index.height == footer.height && (es == [] <==> footer.height == 0)
    ensures footer.height <= 2 && es == [] ==> it.Ended() && it.Rewound()
    ensures footer.height <= 2 && es != [] ==> it.OnEntry() && it.Position() == 0
    ensures footer.height >= 3 ==> it.Stuck() && AsSource(it) == SourceOf(footer, bs, ls, es)
  {
    hide Ascending, Holds, Forest, Records, Leaves, Subtree, DecodedData, DataBlock, FirstBlock;
    hide SstIter.OnEntry, SstIter.Ended, SstIter.Rewound, SstIter.Used, SstIter.Stuck, SstIter.Position;
    it := new SstIter(file, footer, bs, ls, es);
    it.SeekToFirst();
    if es == [] {
      it.EndedIsRewound();
    } else {
      it.PositionedIsUsed();
      OnFirstBlock(it);
    }
    it.SeekToFirst();
    if es == [] { it.EndedIsRewound(); }
  }

  /** A new iterator after the two merges above it have been built: each seeks
      it to the first entry, and the second may also move it on by one. */
  method Reopen(file: SstFile, footer: Footer, advance: bool,
                ghost bs: Blocks, ghost ls: seq<IndexEntry>, ghost es: seq<Entry>)
    returns (it: SstIter, ok: bool)
    requires Represents(file, footer, bs, ls, es) && Ascending(es) && (advance ==> es != [])
    ensures fresh(it) && fresh(it.index) && fresh(set x | x in it.index.iters) && (it.data == null || fresh(it.data))
    ensures it.records == es && it.index.height == footer.height && (ok <==> !(advance && SourceOf(footer, bs, ls, es).Breaks(Fwd)))
    ensures ok && footer.height <= 2 ==> it.Rewound()
    ensures ok && footer.height >= 3 ==>
              it.Stuck() && AsSource(it) == Moved(SourceOf(footer, bs, ls, es), advance)
  {
    hide Represents, Ascending, FirstBlock, DecodedData, DataBlock, Holds, Forest, Records, TreeOf;
    hide SstIter.OnEntry, SstIter.Ended, SstIter.Rewound, SstIter.Used, SstIter.Position;
    ok := true;
    it := SeekTwice(file, footer, bs, ls, es);
    if advance {
      ok := it.Next();
    }
    if footer.height <= 2 {
      if es == [] || (advance && |es| == 1) { it.EndedIsRewound(); } else { it.PositionedIsUsed(); }
    }
  }

  /** Reopened, sought without a target in direction `d`, and run to the end.
      Up to height two that yields everything. Above, the iterator stays in its
      first block where it was, and breaks off at the end of it. */
  method RescanAll(file: SstFile, footer: Footer, advance: bool, d: Dir,
                   ghost bs: Blocks, ghost ls: seq<IndexEntry>, ghost es: seq<Entry>)
    returns (ok: bool, r: Run)
    requires Represents(file, footer, bs, ls, es) && Ascending(es) && (advance ==> es != [])
    ensures ok <==> !(advance && SourceOf(footer, bs, ls, es).Breaks(Fwd))
    ensures ok ==> Moved(SourceOf(footer, bs, ls, es), advance).InBlock()
    ensures ok ==> r == Moved(SourceOf(footer, bs, ls, es), advance).SeekToFirst(d).To(d)
  {
    hide Ascending, FirstBlock, DecodedData, DataBlock, Holds, Forest, Records, TreeOf;
    hide SstIter.OnEntry, SstIter.Ended, SstIter.Rewound, SstIter.Used, SstIter.Position;
    var it;
    it, ok := Reopen(file, footer, advance, bs, ls, es);
    r := Run([], false);
    if !ok { return; }
    if d == Fwd { it.SeekToFirst(); } else { it.SeekToLast(); }
    ghost var rem := Moved(SourceOf(footer, bs, ls, es), advance).SeekToFirst(d).To(d);
    assert es[..|es|] == es && es[0..] == es;
    StuckIsTall(it);
    r := RunToEnd(it, d, if d == Fwd then 0 else |es|, rem);
  }

  /** The same with a target. Above height two nothing is found. */
  method RescanFrom(file: SstFile, footer: Footer, advance: bool, d: Dir, target: Key,
                    ghost bs: Blocks, ghost ls: seq<IndexEntry>, ghost es: seq<Entry>)
    returns (ok: bool, r: Run)
    requires Represents(file, footer, bs, ls, es) && Ascending(es) && (advance ==> es != [])
    ensures ok <==> !(advance && SourceOf(footer, bs, ls, es).Breaks(Fwd))
    ensures ok ==> r == Moved(SourceOf(footer, bs, ls, es), advance).Seek(d, target).To(d)
  {
    hide Ascending, FirstBlock, DecodedData, DataBlock, Holds, Forest, Records, TreeOf, DropBefore;
    hide SstIter.OnEntry, SstIter.Ended, SstIter.Rewound, SstIter.Used, SstIter.Position, Less, AboveFrom;
    var it;
    it, ok := Reopen(file, footer, advance, bs, ls, es);
    r := Run([], false);
    if !ok { return; }
    ghost var k: nat;
    if d == Fwd {
      it.Seek(target);
      k := if footer.height <= 2 && it.IsValid() then it.Position() else |es|;
      if footer.height <= 2 { SeekIsDrop(es, target, k); }
    } else {
      it.SeekForPrev(target);
      k := if footer.height <= 2 && it.IsValid() then it.Position() + 1 else 0;
      if footer.height <= 2 { SeekForPrevIsDrop(es, target, k); }
    }
    StuckIsTall(it);
    r := RunToEnd(it, d, k, Moved(SourceOf(footer, bs, ls, es), advance).Seek(d, target).To(d));
  }

  /** The source an SST is, found by running its iterator both ways. */
  method ReadSource(file: SstFile, footer: Footer, ghost bs: Blocks, ghost ls: seq<IndexEntry>, ghost es: seq<Entry>)
    returns (src: Source)
    requires Represents(file, footer, bs, ls, es) && Ascending(es)
    ensures src == SourceOf(footer, bs, ls, es)
  {
    hide Ascending, FirstBlock, Holds, Forest, Records, TreeOf;
    var ok, forward := RescanAll(file, footer, false, Fwd, bs, ls, es);
    if forward.breaks {
      src := Stuck(forward.out, Some(0));
    } else {
      var backward;
      ok, backward := RescanAll(file, footer, false, Rev, bs, ls, es);
      src := Sound(Stream(forward.out, backward.out, forward.out));
    }
  }

  // ---- when a tree is tall ----

  /** The values of a block lie in it one after the other. */
  lemma TwoValuesFit(b: Bytes)
    requires WellFormed(b) && Count(b) >= 2
    ensures |Entries(b)[0].value| + |Entries(b)[1].value| <= |b|
  {
    hide Offset;
    assert EntryInBounds(b, 0) && EntryInBounds(b, 1);
  }

  predicate Long(e: Entry, blockSize: nat) {
    e.Put? && 2 * |e.value| >= blockSize
  }

  lemma LongStandsAlone(f: SstFile, bs: Blocks, p: nat)
    requires Holds(f, bs) && p in bs.data && AllLong(bs.data[p], f.blockSize)
    ensures |bs.data[p]| <= 1
  {
    hide Offset, EntryAt;
    assert DataBlockAt(f, p) && DataAt(f, p) == bs.data[p];
    var b := f.bytes[p..p + f.blockSize];
    forall i | 0 <= i < |bs.data[p]|
      ensures 2 * |Entries(b)[i].value| > |b|
    {
      assert DecodeData(Entries(b)[i]).value == bs.data[p][i] && Long(bs.data[p][i], f.blockSize);
    }
    if |bs.data[p]| >= 2 { TwoValuesFit(b); }
  }

  predicate AllLong(es: seq<Entry>, blockSize: nat) {
    forall i | 0 <= i < |es| :: Long(es[i], blockSize)
  }

  lemma LongParts(a: seq<Entry>, b: seq<Entry>, blockSize: nat)
    requires AllLong(a + b, blockSize)
    ensures AllLong(a, blockSize) && AllLong(b, blockSize)
  {
    assert forall i | 0 <= i < |a| :: a[i] == (a + b)[i];
    assert forall i | 0 <= i < |b| :: b[i] == (a + b)[|a| + i];
  }

  /** The records start with those of the first leaf. */
  lemma RecordsFirst(bs: Blocks, ls: seq<IndexEntry>)
    requires Forest(bs, ls, 0) && ls != []
    ensures Forest(bs, ls[1..], 0) && ls[0].child in bs.data && bs.data[ls[0].child] != []
    ensures Records(bs, ls) == bs.data[ls[0].child] + Records(bs, ls[1..])
  {
    assert Subtree(bs, ls[0], 0);
  }

  lemma {:induction false} OneLeafEach(f: SstFile, bs: Blocks, ls: seq<IndexEntry>)
    requires Holds(f, bs) && Forest(bs, ls, 0) && AllLong(Records(bs, ls), f.blockSize)
    ensures |ls| == |Records(bs, ls)|
    decreases |ls|
  {
    hide Holds, Forest, AllLong;
    if ls != [] {
      RecordsFirst(bs, ls);
      LongParts(bs.data[ls[0].child], Records(bs, ls[1..]), f.blockSize);
      LongStandsAlone(f, bs, ls[0].child);
      OneLeafEach(f, bs, ls[1..]);
    }
  }

  /** At height two all leaves are in the root block. */
  lemma RootHolds(f: SstFile, footer: Footer, bs: Blocks, ls: seq<IndexEntry>)
    requires Holds(f, bs) && TreeOf(bs, footer, ls) && footer.height == 2
    ensures 8 * |ls| <= f.blockSize
  {
    LeavesAtBottom(bs, bs.index[footer.root]);
    assert IndexBlockAt(f, footer.root) && IndexAt(f, footer.root) == bs.index[footer.root];
  }

  /** More long entries than a block has room for index slots: height three or
      more, in every file that represents them. */
  lemma ManyLongAreTall(f: SstFile, footer: Footer, bs: Blocks, ls: seq<IndexEntry>, es: seq<Entry>)
    requires Represents(f, footer, bs, ls, es)
    requires AllLong(es, f.blockSize) && 8 * |es| > f.blockSize
    ensures footer.height >= 3
  {
    OneLeafEach(f, bs, ls);
    if footer.height == 2 { RootHolds(f, footer, bs, ls); }
  }

  /** Sixty-five entries of three hundred bytes. */
  function TallEntries(): (es: seq<Entry>) {
    seq(65, i requires 0 <= i < 65 => Put([i as byte], seq(300, _ => 0)))
  }

  lemma TallShape()
    ensures Ascending(TallEntries()) && Fits(TallEntries(), 512, 1)
    ensures |TallEntries()| == 65 && AllLong(TallEntries(), 512)
  {
  }

  /** Built into blocks of 512 bytes they make a tree of height three or more. */
  method BuildTall() returns (file: SstFile, footer: Footer, ghost bs: Blocks, ghost ls: seq<IndexEntry>)
    ensures Ascending(TallEntries())
    ensures Represents(file, footer, bs, ls, TallEntries()) && footer.height >= 3
  {
    hide TallEntries, Fits, OneRoot, SstSize, Represents, AllLong, Ascending;
    TallShape();
    var es := TallEntries();
    TwoShareABlock(es, 512, 1);
    assert IndexGrowth.SizeBound(512, 65) <= U64;
    file, footer, bs, ls := Build(es, 512, 1);
    ManyLongAreTall(file, footer, bs, ls, es);
  }
}
