/** Building an SST and reading it back, through the builder and the iterator
    stack, at whatever tree height the input gives. */
module SstRoundTrip {
  import opened Keys
  import opened Codec
  import opened BlockFormat
  import opened BlockBuilders
  import opened SstTree
  import opened IndexGrowth
  import opened SstBuilder
  import opened SstPlan
  import opened SstIter
  import opened Streams

  /** All entries added, one after the other. */
  method AddAll(es: seq<Entry>, blockSize: nat, ghost maxKey: nat) returns (b: SstBuilder)
    requires Fits(es, blockSize, maxKey)
    ensures fresh(b) && fresh(b.dataBuilder) && fresh(set x | x in b.indexBuilders)
    ensures b.Valid() && b.added == es && b.blockSize == blockSize
    ensures b.Grown() == Planned(es, blockSize, maxKey)
  {
    hide Fits, Planned, EntrySize, SstBuilder.Valid, SstBuilder.Grown, Growth.Fits, Growth.Add, Nothing;
    PlanStart(es, blockSize, maxKey);
    b := new SstBuilder(blockSize, maxKey);
    for i := 0 to |es|
      invariant Fits(es[..i], blockSize, maxKey)
      invariant b.Valid() && b.added == es[..i] && fresh(b) && fresh(b.dataBuilder) && fresh(set x | x in b.indexBuilders)
      invariant b.blockSize == blockSize && b.maxKey == maxKey && b.Grown() == Planned(es[..i], blockSize, maxKey)
    {
      PlanStep(es, blockSize, maxKey, i);
      b.Add(es[i]);
    }
    assert es[..|es|] == es;
  }

  method Build(es: seq<Entry>, blockSize: nat, ghost maxKey: nat)
    returns (file: SstFile, footer: Footer, ghost bs: Blocks, ghost ls: seq<IndexEntry>)
    requires Fits(es, blockSize, maxKey)
    ensures file.blockSize == blockSize
    ensures |file.bytes| == SstSize(es, blockSize, maxKey)
    ensures OneRoot(es, blockSize, maxKey) && |file.bytes| <= U64 ==> Represents(file, footer, bs, ls, es)
    ensures footer.firstKey == (if es == [] then [] else es[0].key)
    ensures footer.lastKey == (if es == [] then [] else es[|es| - 1].key)
  {
    hide Represents, FinishIndex, FlushData, HasRoot, KeysFit, Planned, Fits, SstBuilder.Valid;
    var b := AddAll(es, blockSize, maxKey);
    b.ValidKeys();
    footer := b.Finish();
    file, bs, ls := SstFile(b.file, blockSize), b.blocks, b.leaves;
  }

  /** From record `k` on, `next` until invalid. */
  method RunForward(it: SstIter, ghost k: nat) returns (out: seq<Entry>)
    requires k <= |it.records| && (it.IsValid() <==> k < |it.records|)
    requires it.IsValid() ==> it.OnEntry() && it.Position() == k
    modifies it`data, it.data, it.index, set x | x in it.index.iters
    ensures out == it.records[k..]
  {
    hide Represents, Ascending, SstIter.OnEntry, SstIter.Ended, SstIter.Rewound, SstIter.Used, SstIter.Stuck;
    hide SstIter.Position, SstIter.Block;
    out := [];
    while it.IsValid()
      invariant k + |out| <= |it.records| && out == it.records[k..k + |out|]
      invariant it.IsValid() <==> k + |out| < |it.records|
      invariant it.IsValid() ==> it.OnEntry() && it.Position() == k + |out|
      invariant forall x | x in it.index.iters :: x in old(it.index.iters) || fresh(x)
      invariant it.data == old(it.data) || fresh(it.data)
      decreases |it.records| - |out|
    {
      var e := it.Current();
      out := out + [e];
      var ok := it.Next();
    }
  }

  /** From the record before `k` back, reverse `next` until invalid. */
  method RunBackward(it: SstIter, ghost k: nat) returns (out: seq<Entry>)
    requires k <= |it.records| && (it.IsValid() <==> k > 0)
    requires it.IsValid() ==> it.OnEntry() && it.Position() + 1 == k
    modifies it`data, it.data, it.index, set x | x in it.index.iters
    ensures out == Reversed(it.records[..k])
  {
    hide Represents, Ascending, SstIter.OnEntry, SstIter.Ended, SstIter.Rewound, SstIter.Used, SstIter.Stuck;
    hide SstIter.Position, SstIter.Block;
    out := [];
    while it.IsValid()
      invariant |out| <= k && out == Reversed(it.records[..k])[..|out|]
      invariant it.IsValid() <==> |out| < k
      invariant it.IsValid() ==> it.OnEntry() && it.Position() + 1 == k - |out|
      invariant forall x | x in it.index.iters :: x in old(it.index.iters) || fresh(x)
      invariant it.data == old(it.data) || fresh(it.data)
      decreases k - |out|
    {
      var e := it.Current();
      out := out + [e];
      var ok := it.Prev();
    }
  }

  /** `seek_to_first`, then `next` until invalid: exactly the input. */
  method ScanForward(file: SstFile, footer: Footer, ghost bs: Blocks, ghost ls: seq<IndexEntry>, ghost es: seq<Entry>)
    returns (out: seq<Entry>)
    requires Represents(file, footer, bs, ls, es) && Ascending(es)
    ensures out == es
  {
    hide Represents, Ascending, SstIter.OnEntry, SstIter.Ended, SstIter.Rewound, SstIter.Used, SstIter.Stuck;
    hide SstIter.Position, SstIter.Block;
    var it := new SstIter(file, footer, bs, ls, es);
    it.SeekToFirst();
    out := RunForward(it, 0);
  }

  /** The same in reverse: the input, last entry first. */
  method ScanBackward(file: SstFile, footer: Footer, ghost bs: Blocks, ghost ls: seq<IndexEntry>, ghost es: seq<Entry>)
    returns (out: seq<Entry>)
    requires Represents(file, footer, bs, ls, es) && Ascending(es)
    ensures out == Reversed(es)
  {
    hide Represents, Ascending, SstIter.OnEntry, SstIter.Ended, SstIter.Rewound, SstIter.Used, SstIter.Stuck;
    hide SstIter.Position, SstIter.Block;
    var it := new SstIter(file, footer, bs, ls, es);
    it.SeekToLast();
    out := RunBackward(it, |es|);
    assert es[..|es|] == es;
  }

  /** Any strictly ascending list of puts and deletes that fits survives the
      round trip in both directions, as long as the tree has a single root and
      the file stays below 2^64 bytes. */
  method BuildAndScan(es: seq<Entry>, blockSize: nat, maxKey: nat)
    returns (size: nat, forward: seq<Entry>, backward: seq<Entry>)
    requires Fits(es, blockSize, maxKey) && Ascending(es)
    ensures size == SstSize(es, blockSize, maxKey)
    ensures OneRoot(es, blockSize, maxKey) && size <= U64 ==> forward == es && backward == Reversed(es)
  {
    hide Represents, Ascending;
    var file, footer, bs, ls := Build(es, blockSize, maxKey);
    size, forward, backward := |file.bytes|, [], [];
    if OneRoot(es, blockSize, maxKey) && size <= U64 {
      forward := ScanForward(file, footer, bs, ls, es);
      backward := ScanBackward(file, footer, bs, ls, es);
    }
  }

  /** Where a seek stops, as what is left. */
  lemma SeekIsDrop(es: seq<Entry>, target: Key, k: nat)
    requires Ascending(es) && FirstAtLeast(es, target, k)
    ensures DropBefore(Fwd, es, target) == es[k..]
  {
    hide Less;
    LessIsStrictTotalOrder();
    assert Sorted(Fwd, es);
    DropBeforeIs(Fwd, es, target);
    var n := |es| - |DropBefore(Fwd, es, target)|;
    assert k < |es| ==> !Less(es[k].key, target);
    assert n < |es| ==> !Less(es[n].key, target);
  }

  /** A fresh iterator sought to a target and run to the end yields the entries
      from the first key not below the target. */
  method ScanFrom(file: SstFile, footer: Footer, target: Key, ghost bs: Blocks, ghost ls: seq<IndexEntry>, ghost es: seq<Entry>)
    returns (out: seq<Entry>)
    requires Represents(file, footer, bs, ls, es) && Ascending(es)
    ensures out == DropBefore(Fwd, es, target)
  {
    hide Represents, Ascending, SstIter.OnEntry, SstIter.Ended, SstIter.Rewound, SstIter.Used, SstIter.Stuck;
    hide SstIter.Position, SstIter.Block, Less, DropBefore;
    var it := new SstIter(file, footer, bs, ls, es);
    it.Seek(target);
    ghost var k := if it.IsValid() then it.Position() else |es|;
    SeekIsDrop(es, target, k);
    out := RunForward(it, k);
  }

  lemma SeekForPrevIsDrop(es: seq<Entry>, target: Key, k: nat)
    requires Ascending(es) && AboveFrom(es, target, k)
    ensures k <= |es| && DropBefore(Rev, Reversed(es), target) == Reversed(es[..k])
  {
    hide Less;
    LessIsStrictTotalOrder();
    var rs := Reversed(es);
    assert Sorted(Rev, rs);
    DropBeforeIs(Rev, rs, target);
    var m := |DropBefore(Rev, rs, target)|;
    forall j | 0 <= j < |es|
      ensures Less(target, es[j].key) <==> j >= m
    {
      assert es[j] == rs[|es| - 1 - j];
    }
    assert m < |es| ==> Less(target, es[m].key);
    assert k < |es| ==> Less(target, es[k].key);
    assert rs[|es| - m..] == Reversed(es[..m]);
  }

  /** In reverse: from the last key not above the target back. */
  method ScanBackFrom(file: SstFile, footer: Footer, target: Key, ghost bs: Blocks, ghost ls: seq<IndexEntry>, ghost es: seq<Entry>)
    returns (out: seq<Entry>)
    requires Represents(file, footer, bs, ls, es) && Ascending(es)
    ensures out == DropBefore(Rev, Reversed(es), target)
  {
    hide Represents, Ascending, SstIter.OnEntry, SstIter.Ended, SstIter.Rewound, SstIter.Used, SstIter.Stuck;
    hide SstIter.Position, SstIter.Block, Less, DropBefore, AboveFrom;
    var it := new SstIter(file, footer, bs, ls, es);
    it.SeekForPrev(target);
    ghost var k := if it.IsValid() then it.Position() + 1 else 0;
    SeekForPrevIsDrop(es, target, k);
    out := RunBackward(it, k);
  }

  ghost predicate Reaches(es: seq<Entry>, target: Key) {
    exists i :: 0 <= i < |es| && AtMost(target, es[i].key)
  }

  lemma ReachesFrom(es: seq<Entry>, target: Key, k: nat)
    requires FirstAtLeast(es, target, k)
    ensures Reaches(es, target) <==> k < |es|
  {
    hide Less;
    if k < |es| {
      assert AtMost(target, es[k].key);
    }
  }

  /** Seeking an iterator that is already positioned. The stack is cleared but
      its depth is not, so the second seek finds a key at or beyond the target
      exactly when the tree has height at most two or there is none to find. */
  method SeekAgain(file: SstFile, footer: Footer, target: Key, ghost bs: Blocks, ghost ls: seq<IndexEntry>, ghost es: seq<Entry>)
    returns (found: bool)
    requires Represents(file, footer, bs, ls, es) && Ascending(es)
    ensures (found <==> Reaches(es, target)) <==> (footer.height <= 2 || !Reaches(es, target))
    ensures footer.height >= 3 ==> !found
  {
    hide Represents, Ascending, FirstAtLeast, Reaches;
    hide SstIter.OnEntry, SstIter.Ended, SstIter.Rewound, SstIter.Used, SstIter.Position;
    var it := new SstIter(file, footer, bs, ls, es);
    it.SeekToFirst();
    if es == [] {
      it.EndedIsRewound();
    } else {
      it.PositionedIsUsed();
    }
    it.Seek(target);
    found := it.IsValid();
    if footer.height <= 2 {
      ReachesFrom(es, target, if found then it.Position() else |es|);
    }
  }
}
