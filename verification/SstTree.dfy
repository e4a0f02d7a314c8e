/** What an SST file means: the index tree above the data blocks, the data
    blocks it reaches in order, and the entries in them. */
module SstTree {
  import opened Keys
  import opened BlockFormat
  import opened BlockBuilders

  /** An SST file: its bytes, and the size of the slots they are cut into. */
  datatype SstFile = SstFile(bytes: Bytes, blockSize: nat)

  // ---- one block ----

  predicate BlockAt(f: SstFile, p: nat) {
    p + f.blockSize <= |f.bytes| && WellFormed(f.bytes[p..p + f.blockSize])
  }

  function RawsAt(f: SstFile, p: nat): (rs: seq<RawEntry>)
    requires BlockAt(f, p)
  {
    Entries(f.bytes[p..p + f.blockSize])
  }

  predicate IndexBlockAt(f: SstFile, p: nat) {
    BlockAt(f, p) && forall i | 0 <= i < |RawsAt(f, p)| :: DecodeIndex(RawsAt(f, p)[i]).Success?
  }

  /** The decoded entries of the index block at `p`. */
  function IndexAt(f: SstFile, p: nat): (es: seq<IndexEntry>)
    requires IndexBlockAt(f, p)
    ensures |es| == |RawsAt(f, p)|
  {
    var rs := RawsAt(f, p);
    seq(|rs|, i requires 0 <= i < |rs| => DecodeIndex(rs[i]).value)
  }

  predicate DataBlockAt(f: SstFile, p: nat) {
    BlockAt(f, p) && forall i | 0 <= i < |RawsAt(f, p)| :: DecodeData(RawsAt(f, p)[i]).Success?
  }

  /** The decoded entries of the data block at `p`. */
  function DataAt(f: SstFile, p: nat): (es: seq<Entry>)
    requires DataBlockAt(f, p)
    ensures |es| == |RawsAt(f, p)|
  {
    var rs := RawsAt(f, p);
    seq(|rs|, i requires 0 <= i < |rs| => DecodeData(rs[i]).value)
  }

  // ---- decoded blocks ----

  /** The blocks of a file, decoded: where each index block and each data
      block starts, and the entries in it. */
  datatype Blocks = Blocks(index: map<nat, seq<IndexEntry>>, data: map<nat, seq<Entry>>)

  /** The file holds exactly these entries at these positions. */
  ghost predicate Holds(f: SstFile, bs: Blocks) {
    && (forall p | p in bs.index :: IndexBlockAt(f, p) && IndexAt(f, p) == bs.index[p])
    && (forall p | p in bs.data :: DataBlockAt(f, p) && DataAt(f, p) == bs.data[p])
  }

  // ---- the tree ----

  /** An index entry over a data block: not empty, largest key last. */
  predicate DataChild(bs: Blocks, e: IndexEntry) {
    && e.child in bs.data
    && var es := bs.data[e.child];
       |es| > 0 && es[|es| - 1].key == e.endKey
  }

  /** An index entry over an index block: not empty, largest end key last. */
  predicate IndexChild(bs: Blocks, e: IndexEntry) {
    && e.child in bs.index
    && var es := bs.index[e.child];
       |es| > 0 && es[|es| - 1].endKey == e.endKey
  }

  /** `e` heads a complete subtree with `h` index levels between it and the
      data blocks: uniform depth, no empty node, end keys agreeing with what
      lies below. */
  ghost predicate Subtree(bs: Blocks, e: IndexEntry, h: nat)
    decreases h
  {
    if h == 0 then DataChild(bs, e)
    else
      && IndexChild(bs, e)
      && (forall i | 0 <= i < |bs.index[e.child]| :: Subtree(bs, bs.index[e.child][i], h - 1))
  }

  ghost predicate Forest(bs: Blocks, es: seq<IndexEntry>, h: nat) {
    forall i | 0 <= i < |es| :: Subtree(bs, es[i], h)
  }

  /** The leaf index entries below `e`, left to right; each names one data block. */
  ghost function LeavesUnder(bs: Blocks, e: IndexEntry, h: nat): (ls: seq<IndexEntry>)
    requires Subtree(bs, e, h)
    decreases h, 0
  {
    if h == 0 then [e] else Leaves(bs, bs.index[e.child], h - 1)
  }

  ghost function Leaves(bs: Blocks, es: seq<IndexEntry>, h: nat): (ls: seq<IndexEntry>)
    requires Forest(bs, es, h)
    decreases h, 1, |es|
  {
    if es == [] then [] else LeavesUnder(bs, es[0], h) + Leaves(bs, es[1..], h)
  }

  /** The records in the data blocks named by `ls`, in order. */
  ghost function Records(bs: Blocks, ls: seq<IndexEntry>): (es: seq<Entry>)
    requires Forest(bs, ls, 0)
  {
    if ls == [] then [] else bs.data[ls[0].child] + Records(bs, ls[1..])
  }

  predicate AscendingEnds(es: seq<IndexEntry>) {
    forall i, j | 0 <= i < j < |es| :: Less(es[i].endKey, es[j].endKey)
  }

  predicate Ascending(es: seq<Entry>) {
    forall i, j | 0 <= i < j < |es| :: Less(es[i].key, es[j].key)
  }

  // ---- concatenation ----

  lemma {:induction false} LeavesConcat(bs: Blocks, a: seq<IndexEntry>, b: seq<IndexEntry>, h: nat)
    requires Forest(bs, a, h) && Forest(bs, b, h)
    ensures Forest(bs, a + b, h) && Leaves(bs, a + b, h) == Leaves(bs, a, h) + Leaves(bs, b, h)
    decreases |a|
  {
    hide Subtree, LeavesUnder;
    if a == [] {
      assert a + b == b;
    } else {
      LeavesConcat(bs, a[1..], b, h);
      assert (a + b)[1..] == a[1..] + b;
    }
  }

  lemma LeavesOfOne(bs: Blocks, e: IndexEntry, h: nat)
    requires Subtree(bs, e, h)
    ensures Forest(bs, [e], h) && Leaves(bs, [e], h) == LeavesUnder(bs, e, h)
  {
    hide Subtree, LeavesUnder;
    assert Leaves(bs, [e][1..], h) == [];
  }

  /** Splitting the entries at one of them splits the leaves three ways. */
  lemma LeavesAround(bs: Blocks, es: seq<IndexEntry>, i: nat, h: nat)
    requires Forest(bs, es, h) && i < |es|
    ensures Subtree(bs, es[i], h) && Forest(bs, es[..i], h) && Forest(bs, es[i + 1..], h) && Forest(bs, es[..i + 1], h)
    ensures Leaves(bs, es[..i + 1], h) == Leaves(bs, es[..i], h) + LeavesUnder(bs, es[i], h)
    ensures Leaves(bs, es, h) == Leaves(bs, es[..i + 1], h) + Leaves(bs, es[i + 1..], h)
  {
    hide Subtree, LeavesUnder, Leaves;
    LeavesOfOne(bs, es[i], h);
    LeavesConcat(bs, es[..i], [es[i]], h);
    LeavesConcat(bs, es[..i + 1], es[i + 1..], h);
    assert es[..i + 1] == es[..i] + [es[i]];
    assert es == es[..i + 1] + es[i + 1..];
  }

  /** With no index level in between, the entries are their own leaves. */
  lemma {:induction false} LeavesAtBottom(bs: Blocks, es: seq<IndexEntry>)
    requires Forest(bs, es, 0)
    ensures Leaves(bs, es, 0) == es
  {
    if es != [] {
      LeavesAtBottom(bs, es[1..]);
    }
  }

  lemma {:induction false} RecordsConcat(bs: Blocks, a: seq<IndexEntry>, b: seq<IndexEntry>)
    requires Forest(bs, a, 0) && Forest(bs, b, 0)
    ensures Forest(bs, a + b, 0) && Records(bs, a + b) == Records(bs, a) + Records(bs, b)
  {
    hide Subtree;
    if a == [] {
      assert a + b == b;
    } else {
      RecordsConcat(bs, a[1..], b);
      assert (a + b)[1..] == a[1..] + b;
    }
  }

  lemma RecordsOfOne(bs: Blocks, e: IndexEntry)
    requires Subtree(bs, e, 0)
    ensures Forest(bs, [e], 0) && Records(bs, [e]) == bs.data[e.child]
  {
    assert Records(bs, [e][1..]) == [];
  }

  lemma RecordsAround(bs: Blocks, ls: seq<IndexEntry>, i: nat)
    requires Forest(bs, ls, 0) && i < |ls|
    ensures Subtree(bs, ls[i], 0)
    ensures Records(bs, ls[..i + 1]) == Records(bs, ls[..i]) + bs.data[ls[i].child]
    ensures Records(bs, ls) == Records(bs, ls[..i + 1]) + Records(bs, ls[i + 1..])
  {
    hide Records, Subtree;
    RecordsOfOne(bs, ls[i]);
    RecordsConcat(bs, ls[..i], [ls[i]]);
    RecordsConcat(bs, ls[..i + 1], ls[i + 1..]);
    assert ls[..i + 1] == ls[..i] + [ls[i]];
    assert ls == ls[..i + 1] + ls[i + 1..];
  }

  // ---- leaves are data children, and keep the order of the end keys ----

  lemma {:induction false} LeavesAreData(bs: Blocks, es: seq<IndexEntry>, h: nat)
    requires Forest(bs, es, h)
    ensures Forest(bs, Leaves(bs, es, h), 0)
    decreases h, |es|
  {
    if es != [] {
      LeavesAreData(bs, es[1..], h);
      if h > 0 {
        LeavesAreData(bs, bs.index[es[0].child], h - 1);
      }
    }
  }

  lemma {:induction false} LeavesUnderEnd(bs: Blocks, e: IndexEntry, h: nat)
    requires Subtree(bs, e, h)
    ensures var ls := LeavesUnder(bs, e, h); ls != [] && ls[|ls| - 1].endKey == e.endKey
    decreases h, 0
  {
    if h > 0 {
      LeavesEnd(bs, bs.index[e.child], h - 1);
    }
  }

  lemma {:induction false} LeavesEnd(bs: Blocks, es: seq<IndexEntry>, h: nat)
    requires Forest(bs, es, h) && es != []
    ensures var ls := Leaves(bs, es, h); ls != [] && ls[|ls| - 1].endKey == es[|es| - 1].endKey
    decreases h, 1
  {
    hide Subtree, LeavesUnder, Leaves;
    var i := |es| - 1;
    LeavesAround(bs, es, i, h);
    LeavesUnderEnd(bs, es[i], h);
    assert es[..i + 1] == es;
  }

  lemma ParentPairAscends(bs: Blocks, es: seq<IndexEntry>, h: nat, i: nat, j: nat)
    requires Forest(bs, es, h) && AscendingEnds(Leaves(bs, es, h)) && i < j < |es|
    ensures Less(es[i].endKey, es[j].endKey)
  {
    hide Subtree, LeavesUnder, Leaves, Less;
    LeavesAround(bs, es, i, h);
    LeavesAround(bs, es, j, h);
    LeavesUnderEnd(bs, es[i], h);
    LeavesUnderEnd(bs, es[j], h);
    var upto, uptoJ := es[..i + 1], es[..j];
    LeavesConcat(bs, upto, es[i + 1..j], h);
    assert uptoJ == upto + es[i + 1..j];
    var ls := Leaves(bs, es, h);
    var x, y := |Leaves(bs, upto, h)| - 1, |Leaves(bs, es[..j + 1], h)| - 1;
    assert x < y;
    assert ls[x].endKey == es[i].endKey;
    assert ls[y].endKey == es[j].endKey;
  }

  /** Ascending leaves have ascending parents: what makes the binary search at
      every index level meaningful. */
  lemma ParentsAscend(bs: Blocks, es: seq<IndexEntry>, h: nat)
    requires Forest(bs, es, h) && AscendingEnds(Leaves(bs, es, h))
    ensures AscendingEnds(es)
  {
    forall i, j | 0 <= i < j < |es|
      ensures Less(es[i].endKey, es[j].endKey)
    {
      ParentPairAscends(bs, es, h, i, j);
    }
  }

  // ---- a file that only grows keeps its tree ----

  predicate Extends(bs: Blocks, cs: Blocks) {
    && (forall p | p in bs.index :: p in cs.index && cs.index[p] == bs.index[p])
    && (forall p | p in bs.data :: p in cs.data && cs.data[p] == bs.data[p])
  }

  lemma {:induction false} SubtreeKept(bs: Blocks, cs: Blocks, e: IndexEntry, h: nat)
    requires Extends(bs, cs) && Subtree(bs, e, h)
    ensures Subtree(cs, e, h) && LeavesUnder(cs, e, h) == LeavesUnder(bs, e, h)
    decreases h, 0
  {
    if h > 0 {
      ForestKept(bs, cs, bs.index[e.child], h - 1);
    }
  }

  lemma {:induction false} ForestKept(bs: Blocks, cs: Blocks, es: seq<IndexEntry>, h: nat)
    requires Extends(bs, cs) && Forest(bs, es, h)
    ensures Forest(cs, es, h) && Leaves(cs, es, h) == Leaves(bs, es, h)
    decreases h, 1, |es|
  {
    hide Subtree, LeavesUnder;
    if es != [] {
      SubtreeKept(bs, cs, es[0], h);
      ForestKept(bs, cs, es[1..], h);
      assert forall i | 1 <= i < |es| :: es[i] == es[1..][i - 1];
    }
  }

  lemma {:induction false} RecordsKept(bs: Blocks, cs: Blocks, ls: seq<IndexEntry>)
    requires Extends(bs, cs) && Forest(bs, ls, 0)
    ensures Forest(cs, ls, 0) && Records(cs, ls) == Records(bs, ls)
  {
    if ls != [] {
      RecordsKept(bs, cs, ls[1..]);
    }
  }
}
