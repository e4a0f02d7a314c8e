/** What building an SST comes to, from its entries alone: the index it grows,
    the size of the file, and whether the tree has a single root. */
module SstPlan {
  import opened Codec
  import opened BlockFormat
  import opened BlockBuilders
  import opened IndexGrowth
  import opened IndexRoot
  import opened SstBuilder

  /** What the builders assert: every entry is smaller than a block, and so is an
      index entry with a key of length `maxKey`, which no key exceeds. */
  predicate Fits(es: seq<Entry>, blockSize: nat, maxKey: nat) {
    && FIXED_HEADER_SIZE + maxKey + 17 < blockSize < U32
    && (forall i | 0 <= i < |es| ::
          |es[i].key| <= maxKey && FIXED_HEADER_SIZE + EntrySize(DataRaw(es[i])) < blockSize)
  }

  /** The length of the longest key. */
  function Longest(es: seq<Entry>): (n: nat)
    ensures forall i | 0 <= i < |es| :: |es[i].key| <= n
    ensures es != [] ==> exists i | 0 <= i < |es| :: |es[i].key| == n
  {
    if es == [] then 0
    else
      var k, m := |es| - 1, Longest(es[..|es| - 1]);
      if |es[k].key| > m then |es[k].key| else m
  }

  /** The builders take the entries, the tree has a single root, and the file does
      not outgrow its offsets. */
  predicate Buildable(es: seq<Entry>, blockSize: nat) {
    && Fits(es, blockSize, Longest(es))
    && OneRoot(es, blockSize, Longest(es)) && SstSize(es, blockSize, Longest(es)) <= U64
  }

  /** Fitting with a larger bound, they fit with their longest key. */
  lemma FitsLongest(es: seq<Entry>, blockSize: nat, maxKey: nat)
    requires Fits(es, blockSize, maxKey)
    ensures Fits(es, blockSize, Longest(es)) && Longest(es) <= maxKey
  {
    hide EntrySize;
  }

  /** Index and waiting block once the entries are added. */
  function Planned(es: seq<Entry>, blockSize: nat, maxKey: nat): (g: Growth)
    requires Fits(es, blockSize, maxKey)
    ensures g.Fits() && g.index.blockSize == blockSize && g.index.maxKey == maxKey
    decreases |es|
  {
    if es == [] then Nothing(blockSize, maxKey)
    else Planned(es[..|es| - 1], blockSize, maxKey).Add(es[|es| - 1])
  }

  lemma PlanStart(es: seq<Entry>, blockSize: nat, maxKey: nat)
    requires Fits(es, blockSize, maxKey)
    ensures FIXED_HEADER_SIZE + maxKey + 17 < blockSize < U32
    ensures es[..0] == [] && Fits(es[..0], blockSize, maxKey) && Planned(es[..0], blockSize, maxKey) == Nothing(blockSize, maxKey)
  {
  }

  lemma PlanStep(es: seq<Entry>, blockSize: nat, maxKey: nat, i: nat)
    requires Fits(es, blockSize, maxKey) && i < |es|
    ensures |es[i].key| <= maxKey && FIXED_HEADER_SIZE + EntrySize(DataRaw(es[i])) < blockSize
    ensures Fits(es[..i], blockSize, maxKey) && Fits(es[..i + 1], blockSize, maxKey)
    ensures Planned(es[..i + 1], blockSize, maxKey) == Planned(es[..i], blockSize, maxKey).Add(es[i])
    ensures es[..i + 1] == es[..i] + [es[i]]
  {
    hide EntrySize, Growth.Add;
    assert es[..i + 1][..i] == es[..i];
  }

  /** The index `finish` starts from. */
  function AllFlushed(es: seq<Entry>, blockSize: nat, maxKey: nat): (s: Index)
    requires Fits(es, blockSize, maxKey)
    ensures KeysFit(s) && s.blockSize == blockSize && s.maxKey == maxKey
  {
    var g := Planned(es, blockSize, maxKey);
    FlushData(g.index, g.waiting)
  }

  function SstSize(es: seq<Entry>, blockSize: nat, maxKey: nat): (size: nat)
    requires Fits(es, blockSize, maxKey)
  {
    FinishIndex(AllFlushed(es, blockSize, maxKey)).size
  }

  /** The promoted end keys fit one block above the levels. */
  predicate OneRoot(es: seq<Entry>, blockSize: nat, maxKey: nat)
    requires Fits(es, blockSize, maxKey)
  {
    HasRoot(AllFlushed(es, blockSize, maxKey))
  }

  lemma {:induction false} PlanKeeps(es: seq<Entry>, blockSize: nat, maxKey: nat)
    requires Fits(es, blockSize, maxKey)
    ensures var g := Planned(es, blockSize, maxKey);
            && NoGap(g.index.levels, 0) && |g.waiting| <= |es| && (es != [] ==> g.waiting != [])
            && (FanOutTwo(g.index) ==> Small(g.index, |es| - |g.waiting|))
    decreases |es|
  {
    hide FlushData, DataExceeds, KeysFit, Small;
    if es == [] {
      NothingSmall(blockSize, maxKey);
    } else {
      var n := |es| - 1;
      PlanKeeps(es[..n], blockSize, maxKey);
      var g := Planned(es[..n], blockSize, maxKey);
      FlushKeeps(g.index, g.waiting, n - |g.waiting|);
    }
  }

  lemma NothingSmall(blockSize: nat, maxKey: nat)
    ensures Small(Nothing(blockSize, maxKey).index, 0)
  {
  }

  lemma FlushKeeps(s: Index, waiting: seq<Entry>, n: int)
    requires Growth(s, waiting).Fits() && NoGap(s.levels, 0) && (FanOutTwo(s) ==> Small(s, n))
    ensures var t := FlushData(s, waiting);
            && NoGap(t.levels, 0) && (waiting != [] ==> t.levels != [])
            && (FanOutTwo(t) ==> Small(t, n + |waiting|))
  {
    hide KeysFit, Small, AddIndex;
    if waiting != [] {
      DataCharge(s, waiting);
      AddIndexNoGap(WriteData(s, waiting), 0, IndexEntry(waiting[|waiting| - 1].key, s.size));
      if FanOutTwo(s) { FlushDataSmall(s, waiting, n); }
    }
  }

  /** The condition is exact. */
  lemma OneRootIff(es: seq<Entry>, blockSize: nat, maxKey: nat)
    requires Fits(es, blockSize, maxKey)
    ensures OneRoot(es, blockSize, maxKey) <==> es == [] || Rooted(FinishIndex(AllFlushed(es, blockSize, maxKey)))
  {
    hide KeysFit, Small, FlushData, Rooted, FinishIndex, SingleRoot;
    PlanKeeps(es, blockSize, maxKey);
    var g := Planned(es, blockSize, maxKey);
    FlushKeeps(g.index, g.waiting, |es| - |g.waiting|);
    if es == [] {
      NothingFlushed(blockSize, maxKey);
    } else {
      RootedIff(AllFlushed(es, blockSize, maxKey));
    }
  }

  lemma NothingFlushed(blockSize: nat, maxKey: nat)
    requires Fits([], blockSize, maxKey)
    ensures AllFlushed([], blockSize, maxKey).levels == []
  {
  }

  /** Keys of which two share an index block: a single root, and a file of at most
      three blocks per entry and one. */
  lemma TwoShareABlock(es: seq<Entry>, blockSize: nat, maxKey: nat)
    requires Fits(es, blockSize, maxKey) && FIXED_HEADER_SIZE + 2 * (maxKey + 17) <= blockSize
    ensures OneRoot(es, blockSize, maxKey) && SstSize(es, blockSize, maxKey) <= SizeBound(blockSize, |es|)
  {
    hide KeysFit, Small, FlushData, FinishIndex, SingleRoot, SizeBound;
    PlanKeeps(es, blockSize, maxKey);
    var g, s := Planned(es, blockSize, maxKey), AllFlushed(es, blockSize, maxKey);
    FlushKeeps(g.index, g.waiting, |es| - |g.waiting|);
    if es == [] {
      NothingFlushed(blockSize, maxKey);
    } else {
      FanOutTwoRoots(s);
    }
    FinishIndexSize(s, |es|);
  }
}
