/** The index-tree iterator: an explicit stack of block cursors from the root
    down to the lowest index level. */
module IndexTreeIter {
  import opened Keys
  import opened BlockFormat
  import opened BlockBuilders
  import opened BlockIter
  import opened SstTree
  import opened TreeWalk
  import opened SstBuilder
  import opened Wrappers

  /** `read_block`: one slot of the file, cut short at its end. */
  function ReadBlock(f: SstFile, p: nat): (r: Result<Bytes>) {
    if p > |f.bytes| then Failure("position out of bounds")
    else Success(f.bytes[p..if p + f.blockSize <= |f.bytes| then p + f.blockSize else |f.bytes|])
  }

  /** Every value in the block decodes as an index entry. */
  predicate IndexBlock(b: Bytes) {
    WellFormed(b) && forall i | 0 <= i < |Entries(b)| :: DecodeIndex(Entries(b)[i]).Success?
  }

  function Decoded(b: Bytes): (es: seq<IndexEntry>)
    requires IndexBlock(b)
    ensures |es| == Count(b)
  {
    seq(|Entries(b)|, i requires 0 <= i < |Entries(b)| => DecodeIndex(Entries(b)[i]).value)
  }

  lemma HeldIndexBlock(f: SstFile, bs: Blocks, p: nat)
    requires Holds(f, bs) && p in bs.index
    ensures ReadBlock(f, p).Success?
    ensures IndexBlock(ReadBlock(f, p).value) && Decoded(ReadBlock(f, p).value) == bs.index[p]
  {
    assert IndexBlockAt(f, p) && IndexAt(f, p) == bs.index[p];
  }

  lemma DecodedKeys(b: Bytes)
    requires IndexBlock(b)
    ensures forall i | 0 <= i < |Entries(b)| :: Decoded(b)[i].endKey == Entries(b)[i].key
    ensures AscendingEnds(Decoded(b)) ==> AscendingRaws(Entries(b))
  {
    hide WellFormed, Less;
  }

  class IndexTreeIter {
    const file: SstFile
    const height: nat
    const rootPosition: nat
    var iters: seq<NormalBlockIter>
    var currIterIdx: nat
    /** The decoded blocks of the file. */
    ghost const bs: Blocks
    /** The leaf entries in order. */
    ghost const leaves: seq<IndexEntry>

    constructor (file: SstFile, footer: Footer, ghost bs: Blocks, ghost leaves: seq<IndexEntry>)
      requires Holds(file, bs) && TreeOf(bs, footer, leaves) && AscendingEnds(leaves)
      ensures WellBuilt() && this.file == file && this.bs == bs && this.leaves == leaves
      ensures iters == [] && currIterIdx == 0 && height == footer.height
    {
      hide Holds, Forest, Leaves, AscendingEnds;
      this.file := file;
      height := footer.height;
      rootPosition := footer.root;
      iters := [];
      currIterIdx := 0;
      this.bs := bs;
      this.leaves := leaves;
    }

    ghost predicate WellBuilt() {
      && Holds(file, bs)
      && TreeOf(bs, Footer(rootPosition, height, [], []), leaves)
      && AscendingEnds(leaves)
    }

    ghost function Root(): seq<IndexEntry>
      requires WellBuilt() && height > 0
    {
      bs.index[rootPosition]
    }

    function LastLevel(): nat
      requires height >= 2
    {
      height - 2
    }

    /** Cursors are separate objects over index blocks. */
    ghost predicate Cursors()
      reads this`iters, iters
    {
      && (forall i, j | 0 <= i < j < |iters| :: iters[i] != iters[j])
      && (forall i | 0 <= i < |iters| :: iters[i].Valid() && IndexBlock(iters[i].block))
    }

    ghost predicate AllPlaced()
      reads this`iters, iters
    {
      Cursors() && forall i | 0 <= i < |iters| :: iters[i].curr.Some?
    }

    /** The cursors as positions. */
    ghost function Stack(): (st: seq<Cursor>)
      requires AllPlaced()
      reads this`iters, iters
      ensures |st| == |iters|
    {
      var its := iters;
      seq(|its|, i requires 0 <= i < |its| && IndexBlock(its[i].block) && its[i].curr.Some? reads its =>
        Cursor(Decoded(its[i].block), its[i].curr.value))
    }

    /** The stack is a path, with `currIterIdx` on its last cursor. */
    ghost predicate OnPath()
      reads this`iters, this`currIterIdx, iters
    {
      && WellBuilt() && height >= 2
      && AllPlaced() && |iters| == currIterIdx + 1
      && Path(bs, Root(), LastLevel(), Stack())
    }

    /** The path reaches the lowest index level: the iterator is on a leaf. */
    ghost predicate Positioned()
      reads this`iters, this`currIterIdx, iters
    {
      OnPath() && currIterIdx == LastLevel()
    }

    /** Leaves before the current subtree, and before its end. */
    ghost function RankHere(): nat
      requires OnPath()
      reads this`iters, this`currIterIdx, iters
    {
      Rank(bs, Root(), LastLevel(), Stack())
    }

    ghost function EndHere(): nat
      requires OnPath()
      reads this`iters, this`currIterIdx, iters
    {
      End(bs, Root(), LastLevel(), Stack())
    }

    /** Which leaf the iterator is on. */
    ghost function Position(): (k: nat)
      requires Positioned()
      reads this`iters, this`currIterIdx, iters
    {
      RankHere()
    }

    lemma PositionInRange()
      requires Positioned()
      ensures Position() < |leaves|
    {
      AtBottom(bs, Root(), LastLevel(), Stack());
    }

    /** On a leaf the iterator is valid; with nothing under it, it is not. */
    lemma IsValidIff()
      ensures Positioned() ==> IsValid() && height >= 2 && Position() < |leaves|
      ensures Idle() ==> !IsValid()
    {
      hide Path, Rank, Holds, TreeOf, Leaves;
      if Positioned() { PositionInRange(); }
    }

    /** Nothing under the cursor: fresh, exhausted, or sought past the end. */
    ghost predicate Idle()
      reads this`iters, this`currIterIdx, iters
    {
      && WellBuilt() && Cursors() && currIterIdx == 0
      && (iters == [] || (|iters| == 1 && iters[0].curr == None))
    }

    predicate IsValid()
      reads this`iters, this`currIterIdx, iters
    {
      iters != [] && currIterIdx < |iters| && iters[currIterIdx].curr.Some?
    }

    /** The depth points past the end of the stack: what a second positioning
        leaves behind at height three or more. */
    ghost predicate Stranded()
      reads this`iters, this`currIterIdx
      ensures Stranded() ==> !IsValid()
    {
      WellBuilt() && iters != [] && currIterIdx >= |iters|
    }

    /** On a leaf, the entry under the cursor is that leaf. */
    method Value() returns (e: IndexEntry)
      requires Positioned()
      ensures Position() < |leaves| && e == leaves[Position()]
    {
      hide NormalBlockIter.Parsed;
      hide Path, Rank, Holds, Forest, Leaves;
      ghost var st := Stack();
      AtBottom(bs, Root(), LastLevel(), st);
      e := CurrentEntry();
    }

    method CurrentEntry() returns (e: IndexEntry)
      requires OnPath()
      ensures e == Here(Stack())
    {
      var r := DecodeIndex(iters[currIterIdx].Current());
      assert r.Success?;
      e := r.value;
    }

    // ---- loading blocks ----

    method LoadBlock(p: nat) returns (it: NormalBlockIter)
      requires WellBuilt() && p in bs.index
      ensures fresh(it) && it.Valid() && it.curr == None && IndexBlock(it.block) && Decoded(it.block) == bs.index[p]
    {
      hide Holds, WellFormed, TreeOf;
      HeldIndexBlock(file, bs, p);
      var block := ReadBlock(file, p);
      assert block.Success?;
      it := new NormalBlockIter(block.value);
    }

    method ReadChild() returns (it: NormalBlockIter)
      requires OnPath() && currIterIdx < LastLevel()
      ensures Here(Stack()).child in bs.index && bs.index[Here(Stack()).child] != []
      ensures fresh(it) && it.Valid() && it.curr == None && IndexBlock(it.block)
      ensures Decoded(it.block) == bs.index[Here(Stack()).child]
    {
      hide NormalBlockIter.Parsed;
      hide Path, Holds, Forest, Leaves;
      ChildBlock(bs, Root(), LastLevel(), Stack());
      var e := CurrentEntry();
      it := LoadBlock(e.child);
    }

    method PushCursor(it: NormalBlockIter)
      requires AllPlaced() && it !in iters && it.Valid() && IndexBlock(it.block) && it.curr.Some?
      modifies this`iters, this`currIterIdx
      ensures AllPlaced() && iters == old(iters) + [it] && currIterIdx == old(currIterIdx) + 1
      ensures Stack() == old(Stack()) + [Cursor(Decoded(it.block), it.curr.value)]
    {
      hide IndexBlock, Decoded, NormalBlockIter.Parsed;
      iters := iters + [it];
      currIterIdx := currIterIdx + 1;
    }

    // ---- phase 1: leave the current subtree, popping finished blocks ----

    /** Moves the last cursor one entry on, or removes it at its last entry. */
    method NextOrPop() returns (moved: bool)
      requires AllPlaced() && |iters| == currIterIdx + 1
      modifies this`iters, iters
      ensures AllPlaced() && iters == if moved then old(iters) else old(iters)[..currIterIdx]
      ensures moved <==> old(Last(Stack()).pos) + 1 < |old(Last(Stack()).entries)|
      ensures Stack() == if moved then old(MoveTo(Stack(), Last(Stack()).pos + 1)) else old(Init(Stack()))
    {
      hide IndexBlock, Decoded, WellFormed, NormalBlockIter.Parsed;
      var last := iters[currIterIdx];
      last.Next();
      moved := last.curr.Some?;
      if !moved {
        iters := iters[..currIterIdx];
      }
    }

    method PrevOrPop() returns (moved: bool)
      requires AllPlaced() && |iters| == currIterIdx + 1
      modifies this`iters, iters
      ensures AllPlaced() && iters == if moved then old(iters) else old(iters)[..currIterIdx]
      ensures moved <==> old(Last(Stack()).pos) > 0
      ensures Stack() == if moved then old(MoveTo(Stack(), Last(Stack()).pos - 1)) else old(Init(Stack()))
    {
      hide IndexBlock, Decoded, WellFormed, NormalBlockIter.Parsed;
      var last := iters[currIterIdx];
      last.Prev();
      moved := last.curr.Some?;
      if !moved {
        iters := iters[..currIterIdx];
      }
    }

    method Advance()
      requires OnPath()
      modifies this`iters, this`currIterIdx, iters
      ensures iters <= old(iters)
      ensures if old(EndHere()) < |leaves| then OnPath() && RankHere() == old(EndHere())
              else iters == [] && currIterIdx == 0
    {
      hide Path, Rank, End, Holds, Forest, Leaves, Subtree, Decoded, IndexBlock;
      hide IndexTreeIter.Stack, IndexTreeIter.AllPlaced;
      ghost var goal := EndHere();
      while true
        invariant OnPath() && EndHere() == goal && iters <= old(iters)
        decreases |iters|
      {
        ghost var st := Stack();
        assert Path(bs, Root(), LastLevel(), st);
        var moved := NextOrPop();
        if moved {
          NextSibling(bs, Root(), LastLevel(), st);
          RankBelowEnd(bs, Root(), LastLevel(), Stack());
          return;
        }
        PosInBlock(bs, Root(), LastLevel(), st);
        EndOfBlock(bs, Root(), LastLevel(), st);
        if currIterIdx == 0 {
          return;
        }
        currIterIdx := currIterIdx - 1;
      }
    }

    method Retreat()
      requires OnPath()
      modifies this`iters, this`currIterIdx, iters
      ensures iters <= old(iters)
      ensures if old(RankHere()) > 0 then OnPath() && EndHere() == old(RankHere())
              else iters == [] && currIterIdx == 0
    {
      hide Path, Rank, End, Holds, Forest, Leaves, Subtree, Decoded, IndexBlock;
      hide IndexTreeIter.Stack, IndexTreeIter.AllPlaced;
      ghost var goal := RankHere();
      while true
        invariant OnPath() && RankHere() == goal && iters <= old(iters)
        decreases |iters|
      {
        ghost var st := Stack();
        assert Path(bs, Root(), LastLevel(), st);
        var moved := PrevOrPop();
        if moved {
          PrevSibling(bs, Root(), LastLevel(), st);
          RankBelowEnd(bs, Root(), LastLevel(), Stack());
          return;
        }
        StartOfBlock(bs, Root(), LastLevel(), st);
        if currIterIdx == 0 {
          return;
        }
        currIterIdx := currIterIdx - 1;
      }
    }

    // ---- phase 2: down to the lowest index level ----

    method PushChildFirst()
      requires OnPath() && currIterIdx < LastLevel()
      modifies this`iters, this`currIterIdx
      ensures OnPath() && RankHere() == old(RankHere()) && currIterIdx == old(currIterIdx) + 1
      ensures iters[..old(|iters|)] == old(iters) && fresh(iters[currIterIdx])
    {
      hide NormalBlockIter.Parsed;
      hide Path, Rank, Holds, Forest, Leaves, Subtree, Decoded, IndexBlock;
      PushFirst(bs, Root(), LastLevel(), Stack());
      var child := ReadChild();
      child.SeekToFirst();
      PushCursor(child);
    }

    method PushChildLast()
      requires OnPath() && currIterIdx < LastLevel()
      modifies this`iters, this`currIterIdx
      ensures OnPath() && EndHere() == old(EndHere()) && currIterIdx == old(currIterIdx) + 1
      ensures iters[..old(|iters|)] == old(iters) && fresh(iters[currIterIdx])
    {
      hide NormalBlockIter.Parsed;
      hide Path, Rank, End, Holds, Forest, Leaves, Subtree, Decoded, IndexBlock;
      PushLast(bs, Root(), LastLevel(), Stack());
      var child := ReadChild();
      child.SeekToLast();
      PushCursor(child);
    }

    method DescendFirst()
      requires OnPath()
      modifies this`iters, this`currIterIdx
      ensures Positioned() && Position() == old(RankHere())
      ensures old(iters) <= iters && fresh(set it | it in iters[old(|iters|)..])
    {
      hide Path, Rank, Holds, Forest;
      ghost var goal := RankHere();
      DepthBound(bs, Root(), LastLevel(), Stack());
      while currIterIdx < LastLevel()
        invariant OnPath() && RankHere() == goal && currIterIdx <= LastLevel()
        invariant old(iters) <= iters && fresh(set it | it in iters[old(|iters|)..])
      {
        PushChildFirst();
      }
    }

    method DescendLast()
      requires OnPath()
      modifies this`iters, this`currIterIdx
      ensures Positioned() && Position() + 1 == old(EndHere())
      ensures old(iters) <= iters && fresh(set it | it in iters[old(|iters|)..])
    {
      hide Path, Rank, End, Holds, Forest;
      ghost var goal := EndHere();
      DepthBound(bs, Root(), LastLevel(), Stack());
      while currIterIdx < LastLevel()
        invariant OnPath() && EndHere() == goal && currIterIdx <= LastLevel()
        invariant old(iters) <= iters && fresh(set it | it in iters[old(|iters|)..])
      {
        PushChildLast();
      }
      AtBottom(bs, Root(), LastLevel(), Stack());
    }

    // ---- the iterator's operations ----

    /** `reset` followed by loading the root: one cursor, and `currIterIdx`
        left as it was. */
    method OpenRoot() returns (root: NormalBlockIter)
      requires WellBuilt() && height >= 2
      modifies this`iters
      ensures fresh(root) && root.Valid() && root.curr == None && iters == [root]
      ensures IndexBlock(root.block) && Decoded(root.block) == Root() && root.count == |Root()| > 0
    {
      hide Holds, WellFormed, Forest;
      iters := [];
      root := LoadBlock(rootPosition);
      iters := [root];
    }

    /** First leaf. A stale `currIterIdx` from an earlier positioning is not
        reset, and leaves the iterator invalid. */
    method SeekToFirst()
      requires WellBuilt() && (height >= 2 ==> currIterIdx == 0 || currIterIdx == LastLevel())
      modifies this`iters, this`currIterIdx
      ensures height <= 1 ==> iters == old(iters) && currIterIdx == old(currIterIdx)
      ensures height >= 2 && old(currIterIdx) == 0 ==> Positioned() && Position() == 0
      ensures height >= 2 && old(currIterIdx) > 0 ==> Stranded() && currIterIdx == old(currIterIdx)
      ensures height >= 2 ==> fresh(set it | it in iters)
    {
      hide Path, Rank, Holds, Forest, Leaves, Decoded, IndexBlock;
      if height <= 1 {
        return;
      }
      var root := OpenRoot();
      root.SeekToFirst();
      if currIterIdx == 0 {
        RootPath(bs, Root(), LastLevel(), 0);
        assert Stack() == [Cursor(Root(), 0)];
        DescendFirst();
      }
    }

    /** Last leaf; otherwise as `SeekToFirst`. */
    method SeekToLast()
      requires WellBuilt() && (height >= 2 ==> currIterIdx == 0 || currIterIdx == LastLevel())
      modifies this`iters, this`currIterIdx
      ensures height <= 1 ==> iters == old(iters) && currIterIdx == old(currIterIdx)
      ensures height >= 2 && old(currIterIdx) == 0 ==> Positioned() && Position() + 1 == |leaves|
      ensures height >= 2 && old(currIterIdx) > 0 ==> Stranded() && currIterIdx == old(currIterIdx)
      ensures height >= 2 ==> fresh(set it | it in iters)
    {
      hide Path, Rank, End, Holds, Forest, Leaves, Decoded, IndexBlock;
      if height <= 1 {
        return;
      }
      var root := OpenRoot();
      root.SeekToLast();
      if currIterIdx == 0 {
        RootPath(bs, Root(), LastLevel(), |Root()| - 1);
        assert Stack() == [Cursor(Root(), |Root()| - 1)];
        DescendLast();
      }
    }

    /** Next leaf, or idle after the last. The current cursor is taken by its
        index; `ok` says that the index was in range. */
    method Next() returns (ok: bool)
      requires height >= 2 && (Positioned() || Idle() || Stranded())
      modifies this`iters, this`currIterIdx, iters
      ensures ok <==> !old(Stranded())
      ensures !ok ==> iters == old(iters) && currIterIdx == old(currIterIdx)
      ensures old(Positioned()) && old(Position()) + 1 < |leaves| ==>
                Positioned() && Position() == old(Position()) + 1
      ensures old(Positioned()) && old(Position()) + 1 >= |leaves| ==> Idle()
      ensures old(Idle()) ==> Idle()
      ensures forall it | it in iters :: it in old(iters) || fresh(it)
    {
      hide Path, Rank, End, Holds, Forest, Leaves;
      ok := true;
      if iters == [] {
        return;
      }
      if currIterIdx >= |iters| {
        ok := false;
        return;
      }
      if iters[currIterIdx].curr.None? {
        iters[0].Next();
        iters := [];
        return;
      }
      AtBottom(bs, Root(), LastLevel(), Stack());
      Advance();
      if iters != [] {
        DescendFirst();
      }
    }

    /** Previous leaf, or idle before the first; otherwise as `Next`. */
    method Prev() returns (ok: bool)
      requires height >= 2 && (Positioned() || Idle() || Stranded())
      modifies this`iters, this`currIterIdx, iters
      ensures ok <==> !old(Stranded())
      ensures !ok ==> iters == old(iters) && currIterIdx == old(currIterIdx)
      ensures old(Positioned()) && old(Position()) > 0 ==>
                Positioned() && Position() + 1 == old(Position())
      ensures old(Positioned()) && old(Position()) == 0 ==> Idle()
      ensures old(Idle()) ==> Idle()
      ensures forall it | it in iters :: it in old(iters) || fresh(it)
    {
      hide Path, Rank, End, Holds, Forest, Leaves;
      ok := true;
      if iters == [] {
        return;
      }
      if currIterIdx >= |iters| {
        ok := false;
        return;
      }
      if iters[currIterIdx].curr.None? {
        iters[0].Prev();
        iters := [];
        return;
      }
      Retreat();
      if iters != [] {
        DescendLast();
      }
    }

    // ---- seeking ----

    /** Reads the child block and places a lower bound in it; the parent's end
        key guarantees there is one. */
    method PushChildLowerBound(target: Key)
      requires OnPath() && currIterIdx < LastLevel() && Bounded(bs, Root(), LastLevel(), Stack(), target)
      modifies this`iters, this`currIterIdx
      ensures OnPath() && currIterIdx == old(currIterIdx) + 1 && Bounded(bs, Root(), LastLevel(), Stack(), target)
      ensures iters[..old(|iters|)] == old(iters) && fresh(iters[currIterIdx])
    {
      hide NormalBlockIter.Parsed;
      hide Path, Rank, Holds, Forest, Leaves, Subtree, Decoded, IndexBlock, Less, WellFormed, Bounded;
      ghost var st := Stack();
      BoundedHere(bs, Root(), LastLevel(), st, target);
      ChildBlock(bs, Root(), LastLevel(), st);
      ghost var es := bs.index[Here(st).child];
      var child := ReadChild();
      PathAscends(bs, Root(), LastLevel(), st + [Cursor(es, 0)]);
      DecodedKeys(child.block);
      child.Seek(target);
      assert child.curr.Some?;
      ghost var t := st + [Cursor(es, child.curr.value)];
      assert Init(t) == st;
      BoundedByBlock(bs, Root(), LastLevel(), t, target);
      PushCursor(child);
    }

    /** `locate`: the first leaf whose end key is not below the target, or idle
        when there is none. */
    method Locate(target: Key)
      requires WellBuilt() && (height >= 2 ==> currIterIdx == 0 || currIterIdx == LastLevel())
      modifies this`iters, this`currIterIdx
      ensures height <= 1 ==> iters == old(iters) && currIterIdx == old(currIterIdx)
      ensures height >= 2 && old(currIterIdx) == 0 ==>
                || (Positioned() && LowerBound(leaves, target, Position()))
                || (Idle() && LowerBound(leaves, target, |leaves|))
      ensures height >= 2 && old(currIterIdx) > 0 ==> Stranded() && currIterIdx == old(currIterIdx)
      ensures height >= 2 ==> fresh(set it | it in iters)
    {
      hide Path, Rank, Holds, Forest, Leaves, Decoded, IndexBlock, Bounded, LowerBound, AscendingEnds;
      if height <= 1 {
        return;
      }
      var root := SeekRoot(target);
      if currIterIdx == 0 && root.curr.Some? {
        assert Stack() == [Cursor(Root(), root.curr.value)];
        BoundedHere(bs, Root(), LastLevel(), Stack(), target);
        DescendLowerBound(target);
      }
    }

    method SeekRoot(target: Key) returns (root: NormalBlockIter)
      requires WellBuilt() && height >= 2
      modifies this`iters
      ensures fresh(root) && root.Valid() && iters == [root] && IndexBlock(root.block) && Decoded(root.block) == Root()
      ensures root.curr.None? ==> LowerBound(leaves, target, |leaves|)
      ensures root.curr.Some? ==> Bounded(bs, Root(), LastLevel(), [Cursor(Root(), root.curr.value)], target)
    {
      hide Path, Rank, Holds, Forest, Leaves, Subtree, Decoded, IndexBlock, Less, WellFormed, Bounded;
      root := OpenRoot();
      ParentsAscend(bs, Root(), LastLevel());
      DecodedKeys(root.block);
      root.Seek(target);
      if root.curr.None? {
        BeyondRoot(bs, Root(), LastLevel(), target);
      } else {
        RootPath(bs, Root(), LastLevel(), root.curr.value);
        BoundedByBlock(bs, Root(), LastLevel(), [Cursor(Root(), root.curr.value)], target);
      }
    }

    method DescendLowerBound(target: Key)
      requires OnPath() && Bounded(bs, Root(), LastLevel(), Stack(), target)
      modifies this`iters, this`currIterIdx
      ensures Positioned() && LowerBound(leaves, target, Position())
      ensures old(iters) <= iters && fresh(set it | it in iters[old(|iters|)..])
    {
      hide Path, Rank, Holds, Forest, Leaves, Bounded, LowerBound, AscendingEnds;
      DepthBound(bs, Root(), LastLevel(), Stack());
      while currIterIdx < LastLevel()
        invariant OnPath() && Bounded(bs, Root(), LastLevel(), Stack(), target) && currIterIdx <= LastLevel()
        invariant old(iters) <= iters && fresh(set it | it in iters[old(|iters|)..])
      {
        PushChildLowerBound(target);
      }
      BoundedAtBottom(bs, Root(), LastLevel(), Stack(), target);
    }

    /** Reverse `seek`: as `Locate`, falling back to the last leaf. */
    method SeekForPrev(target: Key)
      requires WellBuilt() && (height >= 2 ==> currIterIdx == 0 || currIterIdx == LastLevel())
      modifies this`iters, this`currIterIdx
      ensures height <= 1 ==> iters == old(iters) && currIterIdx == old(currIterIdx)
      ensures height >= 2 && old(currIterIdx) == 0 ==>
                Positioned() && (LowerBound(leaves, target, Position()) ||
                                 (Position() + 1 == |leaves| && LowerBound(leaves, target, |leaves|)))
      ensures height >= 2 && old(currIterIdx) > 0 ==> Stranded() && currIterIdx == old(currIterIdx)
      ensures height >= 2 ==> fresh(set it | it in iters)
    {
      hide Path, Rank, Holds, Forest, Less;
      if height <= 1 {
        return;
      }
      Locate(target);
      if !IsValid() {
        SeekToLast();
      }
    }
  }
}
