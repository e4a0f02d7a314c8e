/** How the index grows while an SST is written: one builder per level, a full
    level flushed into a block whose summary goes one level up, and the
    bottom-up flush at the end. The functions follow `add_index_entry`,
    `flush_index_block` and `finish` step by step; the lemmas say what they
    keep. */
module IndexGrowth {
  import opened Keys
  import opened BlockFormat
  import opened BlockBuilders
  import opened SstTree

  /** The entries waiting in each level's builder, the blocks written so far
      and the number of bytes they take; `maxKey` bounds the length of every
      key the SST may hold. */
  datatype Index = Index(levels: seq<seq<IndexEntry>>, blocks: Blocks, size: nat, blockSize: nat, maxKey: nat)

  function IndexSize(es: seq<IndexEntry>): nat {
    PayloadSize(IndexRaws(es))
  }

  predicate Exceeds(es: seq<IndexEntry>, e: IndexEntry, blockSize: nat) {
    FIXED_HEADER_SIZE + IndexSize(es) + |e.endKey| + 17 > blockSize
  }

  /** No end key is longer than `maxKey`, and one of that length passes the
      index builder's assertion. */
  predicate KeysFit(s: Index) {
    && FIXED_HEADER_SIZE + s.maxKey + 17 < s.blockSize
    && (forall l, i | 0 <= l < |s.levels| && 0 <= i < |s.levels[l]| :: |s.levels[l][i].endKey| <= s.maxKey)
  }

  // ---- the recursion ----

  function AddIndex(s: Index, level: nat, e: IndexEntry): (t: Index)
    requires level <= |s.levels| && |e.endKey| <= s.maxKey && KeysFit(s)
    ensures |s.levels| <= |t.levels| && level < |t.levels| && t.blockSize == s.blockSize && t.maxKey == s.maxKey
    ensures KeysFit(t)
    decreases |s.levels| - level, 1
  {
    if level == |s.levels| then
      s.(levels := s.levels + [[e]])
    else
      var t := if Exceeds(s.levels[level], e, s.blockSize) then FlushIndex(s, level) else s;
      t.(levels := t.levels[level := t.levels[level] + [e]])
  }

  function FlushIndex(s: Index, level: nat): (t: Index)
    requires level < |s.levels| && KeysFit(s)
    ensures |s.levels| <= |t.levels| && t.blockSize == s.blockSize && t.maxKey == s.maxKey
    ensures KeysFit(t)
    decreases |s.levels| - level, 0
  {
    var es := s.levels[level];
    if es == [] then s
    else AddIndex(Write(s, level), level + 1, IndexEntry(es[|es| - 1].endKey, s.size))
  }

  /** The block write inside a flush: the level's entries become a block. */
  function Write(s: Index, level: nat): (t: Index)
    requires level < |s.levels|
  {
    Index(s.levels[level := []], s.blocks.(index := s.blocks.index[s.size := s.levels[level]]),
          s.size + s.blockSize, s.blockSize, s.maxKey)
  }

  /** The bottom-up loop of `finish`, from level `l` up to the builders that
      existed when it started. */
  function FlushLevels(s: Index, l: nat, n: nat): (t: Index)
    requires l <= n <= |s.levels| && KeysFit(s)
    ensures |s.levels| <= |t.levels| && KeysFit(t) && t.blockSize == s.blockSize && t.maxKey == s.maxKey
    decreases n - l
  {
    if l == n then s else FlushLevels(FlushIndex(s, l), l + 1, n)
  }

  function FinishIndex(s: Index): (t: Index)
    requires KeysFit(s)
  {
    var t := FlushLevels(s, 0, |s.levels|);
    var top := |t.levels| - 1;
    if top >= 0 && |t.levels[top]| > 1 then FlushIndex(t, top) else t
  }

  // ---- what growth keeps ----

  /** Every waiting entry heads a complete subtree of its level's height, and
      every block lies below the end of the file. */
  ghost predicate Sound(s: Index) {
    && s.blockSize > 0
    && (forall p | p in s.blocks.index :: p < s.size)
    && (forall p | p in s.blocks.data :: p < s.size)
    && Stacked(s.blocks, s.levels)
  }

  ghost predicate Stacked(bs: Blocks, levels: seq<seq<IndexEntry>>) {
    forall l | 0 <= l < |levels| :: Forest(bs, levels[l], l)
  }

  /** The leaves under the levels from `l` up, oldest first: a higher level
      holds older blocks. */
  ghost function Pending(bs: Blocks, levels: seq<seq<IndexEntry>>, l: nat): (ls: seq<IndexEntry>)
    requires Stacked(bs, levels) && l <= |levels|
    decreases |levels| - l
  {
    if l == |levels| then [] else Pending(bs, levels, l + 1) + Leaves(bs, levels[l], l)
  }

  lemma {:induction false} PendingKept(bs: Blocks, cs: Blocks, levels: seq<seq<IndexEntry>>, l: nat)
    requires Extends(bs, cs) && Stacked(bs, levels) && l <= |levels|
    ensures Stacked(cs, levels) && Pending(cs, levels, l) == Pending(bs, levels, l)
    decreases |levels| - l
  {
    hide Forest, Leaves;
    forall k | 0 <= k < |levels|
      ensures Forest(cs, levels[k], k)
    {
      ForestKept(bs, cs, levels[k], k);
    }
    if l < |levels| {
      PendingKept(bs, cs, levels, l + 1);
      ForestKept(bs, cs, levels[l], l);
    }
  }

  /** Levels below `l` do not matter. */
  lemma {:induction false} PendingAbove(bs: Blocks, a: seq<seq<IndexEntry>>, b: seq<seq<IndexEntry>>, l: nat)
    requires Stacked(bs, a) && Stacked(bs, b) && |a| == |b| && l <= |a| && a[l..] == b[l..]
    ensures Pending(bs, a, l) == Pending(bs, b, l)
    decreases |a| - l
  {
    hide Forest, Leaves;
    if l < |a| {
      assert a[l] == a[l..][0] && b[l] == b[l..][0];
      assert a[l + 1..] == a[l..][1..] && b[l + 1..] == b[l..][1..];
      PendingAbove(bs, a, b, l + 1);
    }
  }

  lemma LeavesOfNone(bs: Blocks, h: nat)
    ensures Forest(bs, [], h) && Leaves(bs, [], h) == []
  {
  }

  lemma WriteKeeps(s: Index, level: nat)
    requires Sound(s) && level < |s.levels| && s.levels[level] != []
    ensures Sound(Write(s, level)) && Extends(s.blocks, Write(s, level).blocks)
    ensures Pending(Write(s, level).blocks, Write(s, level).levels, level + 1) == Pending(s.blocks, s.levels, level + 1)
    ensures var es := s.levels[level];
            var e := IndexEntry(es[|es| - 1].endKey, s.size);
            Subtree(Write(s, level).blocks, e, level + 1) &&
            LeavesUnder(Write(s, level).blocks, e, level + 1) == Leaves(s.blocks, es, level)
  {
    hide Forest, Leaves;
    var w := Write(s, level);
    var es := s.levels[level];
    PendingKept(s.blocks, w.blocks, s.levels, level + 1);
    LeavesOfNone(w.blocks, level);
    PendingAbove(w.blocks, s.levels, w.levels, level + 1);
    ForestKept(s.blocks, w.blocks, es, level);
    assert Forest(w.blocks, es, level);
    WrittenSubtree(w.blocks, IndexEntry(es[|es| - 1].endKey, s.size), es, level);
  }

  lemma WrittenSubtree(bs: Blocks, e: IndexEntry, es: seq<IndexEntry>, h: nat)
    requires e.child in bs.index && bs.index[e.child] == es && es != [] && es[|es| - 1].endKey == e.endKey
    requires Forest(bs, es, h)
    ensures Subtree(bs, e, h + 1) && LeavesUnder(bs, e, h + 1) == Leaves(bs, es, h)
  {
  }

  /** Adding an entry to a level adds exactly its leaves, last, to what that
      level and those above hold, whatever cascade of flushes it sets off. */
  lemma {:induction false} AddIndexKeeps(s: Index, level: nat, e: IndexEntry)
    requires level <= |s.levels| && |e.endKey| <= s.maxKey && KeysFit(s)
    requires Sound(s) && Subtree(s.blocks, e, level)
    ensures var t := AddIndex(s, level, e);
            && Sound(t) && Extends(s.blocks, t.blocks)
            && t.levels[..level] == s.levels[..level]
            && Pending(t.blocks, t.levels, level) == Pending(s.blocks, s.levels, level) + LeavesUnder(s.blocks, e, level)
    decreases |s.levels| - level, 1
  {
    hide Forest, Leaves, Subtree, LeavesUnder, KeysFit, Exceeds;
    var t := AddIndex(s, level, e);
    if level == |s.levels| {
      LeavesOfOne(s.blocks, e, level);
      assert t.levels[level] == [e];
      assert Pending(t.blocks, t.levels, level + 1) == [];
    } else {
      var u := if Exceeds(s.levels[level], e, s.blockSize) then FlushIndex(s, level) else s;
      if Exceeds(s.levels[level], e, s.blockSize) {
        FlushIndexKeeps(s, level);
        LeavesOfNone(u.blocks, level);
        SubtreeKept(s.blocks, u.blocks, e, level);
      }
      assert Pending(u.blocks, u.levels, level) == Pending(s.blocks, s.levels, level);
      AppendKeeps(u, level, e);
    }
  }

  lemma AppendKeeps(u: Index, level: nat, e: IndexEntry)
    requires Sound(u) && level < |u.levels| && Subtree(u.blocks, e, level)
    ensures var levels := u.levels[level := u.levels[level] + [e]];
            && Stacked(u.blocks, levels)
            && Pending(u.blocks, levels, level) == Pending(u.blocks, u.levels, level) + LeavesUnder(u.blocks, e, level)
  {
    hide Forest, Leaves, Subtree, LeavesUnder;
    var levels := u.levels[level := u.levels[level] + [e]];
    LeavesOfOne(u.blocks, e, level);
    LeavesConcat(u.blocks, u.levels[level], [e], level);
    PendingAbove(u.blocks, u.levels, levels, level + 1);
  }

  /** Flushing a level moves its leaves up without losing or reordering any. */
  lemma {:induction false} FlushIndexKeeps(s: Index, level: nat)
    requires level < |s.levels| && KeysFit(s) && Sound(s)
    ensures var t := FlushIndex(s, level);
            && Sound(t) && Extends(s.blocks, t.blocks)
            && t.levels[..level] == s.levels[..level] && t.levels[level] == []
            && Pending(t.blocks, t.levels, level + 1) == Pending(s.blocks, s.levels, level)
    decreases |s.levels| - level, 0
  {
    hide Forest, Leaves, Subtree, LeavesUnder, Exceeds;
    var es := s.levels[level];
    if es == [] {
      LeavesOfNone(s.blocks, level);
    } else {
      var w, e := Write(s, level), IndexEntry(es[|es| - 1].endKey, s.size);
      WriteKeeps(s, level);
      AddIndexKeeps(w, level + 1, e);
      var t := FlushIndex(s, level);
      assert t == AddIndex(w, level + 1, e);
      assert t.levels[..level] == t.levels[..level + 1][..level];
      assert t.levels[level] == t.levels[..level + 1][level];
      assert w.levels[..level] == s.levels[..level];
    }
  }

  // ---- no level outgrows its block ----

  predicate WithinBlocks(s: Index) {
    forall l | 0 <= l < |s.levels| :: FIXED_HEADER_SIZE + IndexSize(s.levels[l]) <= s.blockSize
  }

  lemma IndexSizeSnoc(es: seq<IndexEntry>, e: IndexEntry)
    ensures IndexSize(es + [e]) == IndexSize(es) + |e.endKey| + 17
  {
    assert IndexRaws(es + [e])[..|es|] == IndexRaws(es);
  }

  lemma {:induction false} AddIndexWithin(s: Index, level: nat, e: IndexEntry)
    requires level <= |s.levels| && |e.endKey| <= s.maxKey && KeysFit(s) && Sound(s) && Subtree(s.blocks, e, level)
    requires WithinBlocks(s)
    ensures WithinBlocks(AddIndex(s, level, e))
    decreases |s.levels| - level, 1
  {
    hide Forest, Leaves, Subtree, LeavesUnder;
    IndexSizeSnoc([], e);
    assert [] + [e] == [e];
    if level < |s.levels| {
      IndexSizeSnoc(s.levels[level], e);
      if Exceeds(s.levels[level], e, s.blockSize) {
        FlushIndexKeeps(s, level);
        FlushIndexWithin(s, level);
      }
    }
  }

  lemma {:induction false} FlushIndexWithin(s: Index, level: nat)
    requires level < |s.levels| && KeysFit(s) && Sound(s) && WithinBlocks(s)
    ensures WithinBlocks(FlushIndex(s, level))
    decreases |s.levels| - level, 0
  {
    hide Forest, Leaves, Subtree, LeavesUnder;
    var es := s.levels[level];
    if es != [] {
      WriteKeeps(s, level);
      AddIndexWithin(Write(s, level), level + 1, IndexEntry(es[|es| - 1].endKey, s.size));
    }
  }

  /** The three properties every step keeps. */
  ghost predicate Healthy(s: Index) {
    KeysFit(s) && Sound(s) && WithinBlocks(s)
  }

  lemma AddIndexHealthy(s: Index, level: nat, e: IndexEntry)
    requires level <= |s.levels| && |e.endKey| <= s.maxKey && Healthy(s) && Subtree(s.blocks, e, level)
    ensures Healthy(AddIndex(s, level, e))
  {
    AddIndexKeeps(s, level, e);
    AddIndexWithin(s, level, e);
  }

  lemma WriteHealthy(s: Index, level: nat)
    requires level < |s.levels| && Healthy(s) && s.levels[level] != []
    ensures Healthy(Write(s, level))
    ensures var es := s.levels[level];
            |es[|es| - 1].endKey| <= s.maxKey &&
            Subtree(Write(s, level).blocks, IndexEntry(es[|es| - 1].endKey, s.size), level + 1)
  {
    hide Subtree, LeavesUnder, Forest, Leaves;
    WriteKeeps(s, level);
  }

  // ---- the final flush leaves one root ----

  /** Any two index entries share a block. */
  predicate FanOutTwo(s: Index) {
    FIXED_HEADER_SIZE + 2 * (s.maxKey + 17) <= s.blockSize
  }

  /** No level from `l` up is empty. */
  predicate NoGap(levels: seq<seq<IndexEntry>>, l: nat) {
    forall k | l <= k < |levels| :: levels[k] != []
  }

  /** From `l` up every level holds exactly one entry. */
  predicate Singles(levels: seq<seq<IndexEntry>>, l: nat) {
    forall k | l <= k < |levels| :: |levels[k]| == 1
  }

  /** Everything has been promoted into one entry of the topmost level. */
  predicate Rooted(s: Index) {
    && |s.levels| > 0
    && |s.levels[|s.levels| - 1]| == 1
    && (forall k | 0 <= k < |s.levels| - 1 :: s.levels[k] == [])
  }

  lemma {:induction false} AddIndexNoGap(s: Index, level: nat, e: IndexEntry)
    requires level <= |s.levels| && |e.endKey| <= s.maxKey && KeysFit(s) && NoGap(s.levels, level + 1)
    ensures NoGap(AddIndex(s, level, e).levels, level)
    decreases |s.levels| - level
  {
    hide KeysFit, Exceeds;
    if level < |s.levels| && Exceeds(s.levels[level], e, s.blockSize) {
      var es := s.levels[level];
      if es != [] {
        assert |es[|es| - 1].endKey| <= s.maxKey && KeysFit(Write(s, level)) by { WriteKeysFit(s, level); }
        AddIndexNoGap(Write(s, level), level + 1, IndexEntry(es[|es| - 1].endKey, s.size));
      }
    }
  }

  lemma WriteKeysFit(s: Index, level: nat)
    requires level < |s.levels| && KeysFit(s)
    ensures KeysFit(Write(s, level))
    ensures forall i | 0 <= i < |s.levels[level]| :: |s.levels[level][i].endKey| <= s.maxKey
  {
  }

  /** An insertion into a tree with fan-out two either stops below the top or
      leaves one entry on every level it passed and a new topmost level. */
  lemma {:induction false} AddIndexShape(s: Index, level: nat, e: IndexEntry)
    requires level <= |s.levels| && |e.endKey| <= s.maxKey && KeysFit(s)
    ensures var t := AddIndex(s, level, e);
            |t.levels| == |s.levels| || (|t.levels| == |s.levels| + 1 && Singles(t.levels, level))
    ensures AddIndex(s, level, e).levels[..level] == s.levels[..level]
    decreases |s.levels| - level
  {
    hide KeysFit, Exceeds;
    if level < |s.levels| && Exceeds(s.levels[level], e, s.blockSize) && s.levels[level] != [] {
      var es := s.levels[level];
      WriteKeysFit(s, level);
      var w, e' := Write(s, level), IndexEntry(es[|es| - 1].endKey, s.size);
      AddIndexShape(w, level + 1, e');
      assert FlushIndex(s, level) == AddIndex(w, level + 1, e');
      OverflowShape(s.levels, AddIndex(w, level + 1, e').levels, level, e);
    }
  }

  /** What an overflow does to the levels, given what the insertion above did. */
  lemma OverflowShape(levels: seq<seq<IndexEntry>>, above: seq<seq<IndexEntry>>, level: nat, e: IndexEntry)
    requires level < |levels| <= |above| && above[..level + 1] == levels[level := []][..level + 1]
    requires |above| == |levels| || (|above| == |levels| + 1 && Singles(above, level + 1))
    ensures above[level] == [] && above[level := above[level] + [e]][..level] == levels[..level]
    ensures |above| == |levels| + 1 ==> Singles(above[level := above[level] + [e]], level)
  {
    assert above[level] == above[..level + 1][level];
    assert above[..level] == above[..level + 1][..level] == levels[level := []][..level] == levels[..level];
  }

  /** An insertion that overflows its level: the level is flushed, and then holds
      the new entry. */
  lemma OverflowIs(s: Index, j: nat, e: IndexEntry)
    requires j < |s.levels| && |e.endKey| <= s.maxKey && KeysFit(s)
    requires Exceeds(s.levels[j], e, s.blockSize) && s.levels[j] != []
    ensures var es := s.levels[j]; var e' := IndexEntry(es[|es| - 1].endKey, s.size);
            && |e'.endKey| <= s.maxKey && KeysFit(Write(s, j))
            && AddIndex(s, j, e).levels == AddIndex(Write(s, j), j + 1, e').levels[j := [e]]
            && AddIndex(s, j, e).blockSize == s.blockSize
  {
    hide KeysFit;
    var es := s.levels[j];
    var w, e' := Write(s, j), IndexEntry(es[|es| - 1].endKey, s.size);
    WriteKeysFit(s, j);
    AddIndexShape(w, j + 1, e');
    var u := AddIndex(w, j + 1, e');
    assert u.levels[j] == u.levels[..j + 1][j] == [];
    assert FlushIndex(s, j) == u && [] + [e] == [e];
  }

  /** A level with at most one entry takes a second without flushing. */
  lemma SecondEntryFits(s: Index, level: nat, e: IndexEntry)
    requires level < |s.levels| && |e.endKey| <= s.maxKey && KeysFit(s) && FanOutTwo(s)
    requires |s.levels[level]| <= 1
    ensures AddIndex(s, level, e) == s.(levels := s.levels[level := s.levels[level] + [e]])
  {
    var es := s.levels[level];
    if es != [] {
      IndexSizeSnoc([], es[0]);
      assert [] + [es[0]] == es;
      assert |es[0].endKey| <= s.maxKey;
    }
  }

  /** Where the bottom-up loop stands before flushing level `l` of `n`: no
      level above `n` exists, and once level `n` does, the levels still to be
      flushed after `l` hold one entry each. */
  predicate Climbing(s: Index, l: nat, n: nat) {
    && NoGap(s.levels, l)
    && (forall k | 0 <= k < l && k < |s.levels| :: s.levels[k] == [])
    && n <= |s.levels| <= n + 1
    && (|s.levels| == n + 1 ==> Singles(s.levels, l + 1))
    && (|s.levels| == n + 1 && l < n ==> |s.levels[n]| == 1)
  }

  lemma FlushStepClimbs(s: Index, l: nat, n: nat)
    requires l < n <= |s.levels| && KeysFit(s) && FanOutTwo(s) && Climbing(s, l, n)
    ensures var t := FlushIndex(s, l);
            if l + 1 < n then Climbing(t, l + 1, n)
            else |t.levels| == n + 1 && 1 <= |t.levels[n]| <= 2 && forall k | 0 <= k < n :: t.levels[k] == []
  {
    hide KeysFit, IndexSize;
    var es := s.levels[l];
    WriteKeysFit(s, l);
    var w, e := Write(s, l), IndexEntry(es[|es| - 1].endKey, s.size);
    AddIndexNoGap(w, l + 1, e);
    AddIndexShape(w, l + 1, e);
    var t := FlushIndex(s, l);
    assert t == AddIndex(w, l + 1, e);
    forall k | 0 <= k <= l
      ensures t.levels[k] == []
    {
      assert t.levels[k] == t.levels[..l + 1][k] == w.levels[..l + 1][k];
    }
    if |s.levels| == n + 1 {
      SecondEntryFits(w, l + 1, e);
    }
  }

  lemma {:induction false} FlushLevelsClimb(s: Index, l: nat, n: nat)
    requires l < n <= |s.levels| && KeysFit(s) && FanOutTwo(s) && Climbing(s, l, n)
    ensures var t := FlushLevels(s, l, n);
            |t.levels| == n + 1 && 1 <= |t.levels[n]| <= 2 && forall k | 0 <= k < n :: t.levels[k] == []
    decreases n - l
  {
    hide KeysFit;
    FlushStepClimbs(s, l, n);
    var t := FlushIndex(s, l);
    if l + 1 < n {
      FlushLevelsClimb(t, l + 1, n);
    } else {
      assert FlushLevels(s, l, n) == t;
    }
  }

  lemma {:induction false} FlushLevelsKeeps(s: Index, l: nat, n: nat)
    requires l <= n <= |s.levels| && KeysFit(s) && Sound(s)
    ensures var t := FlushLevels(s, l, n);
            && Sound(t) && Extends(s.blocks, t.blocks)
            && Pending(t.blocks, t.levels, n) == Pending(s.blocks, s.levels, l)
    decreases n - l
  {
    hide Forest, Leaves, KeysFit;
    if l < n {
      FlushIndexKeeps(s, l);
      FlushLevelsKeeps(FlushIndex(s, l), l + 1, n);
    }
  }

  lemma RootLeaves(bs: Blocks, levels: seq<seq<IndexEntry>>)
    requires |levels| > 0 && Stacked(bs, levels) && |levels[|levels| - 1]| == 1
    ensures var top := |levels| - 1;
            Subtree(bs, levels[top][0], top) && LeavesUnder(bs, levels[top][0], top) == Pending(bs, levels, top)
  {
    hide Subtree, LeavesUnder, Leaves;
    var top := |levels| - 1;
    assert Forest(bs, levels[top], top);
    LeavesOfOne(bs, levels[top][0], top);
    assert levels[top] == [levels[top][0]];
    assert Pending(bs, levels, top + 1) == [];
  }

  // ---- with room for only one entry per block there is no root ----

  /** No two index entries share a block: every key has the same length and a
      second entry of that length overflows. */
  predicate FanOutOne(s: Index) {
    && FIXED_HEADER_SIZE + 2 * (s.maxKey + 17) > s.blockSize
    && (forall l, i | 0 <= l < |s.levels| && 0 <= i < |s.levels[l]| :: |s.levels[l][i].endKey| == s.maxKey)
  }

  lemma SecondOverflows(s: Index, level: nat, e: IndexEntry)
    requires FanOutOne(s) && level < |s.levels| && |s.levels[level]| == 1 && |e.endKey| == s.maxKey
    ensures Exceeds(s.levels[level], e, s.blockSize)
  {
    OneEntrySize(s.levels[level]);
  }

  lemma {:induction false} AddIndexFanOutOne(s: Index, level: nat, e: IndexEntry)
    requires level <= |s.levels| && |e.endKey| == s.maxKey && KeysFit(s) && FanOutOne(s) && Singles(s.levels, level)
    ensures var t := AddIndex(s, level, e);
            && |t.levels| == |s.levels| + 1 && Singles(t.levels, level) && FanOutOne(t)
            && t.levels[..level] == s.levels[..level]
    decreases |s.levels| - level
  {
    hide KeysFit, Exceeds;
    if level < |s.levels| {
      hide AddIndex;
      var es := s.levels[level];
      SecondOverflows(s, level, e);
      OverflowIs(s, level, e);
      var w, e' := Write(s, level), IndexEntry(es[0].endKey, s.size);
      AddIndexFanOutOne(w, level + 1, e');
      var u, t := AddIndex(w, level + 1, e'), AddIndex(s, level, e);
      assert t.levels[..level] == u.levels[..level + 1][..level] == s.levels[..level];
    }
  }

  lemma {:induction false} FlushLevelsFanOutOne(s: Index, l: nat, n: nat)
    requires l <= n <= |s.levels| && KeysFit(s) && FanOutOne(s) && Singles(s.levels, l)
    ensures var t := FlushLevels(s, l, n);
            |t.levels| == |s.levels| + (n - l) && Singles(t.levels, n)
    decreases n - l
  {
    if l < n {
      var es := s.levels[l];
      WriteKeysFit(s, l);
      AddIndexFanOutOne(Write(s, l), l + 1, IndexEntry(es[0].endKey, s.size));
      FlushLevelsFanOutOne(FlushIndex(s, l), l + 1, n);
    }
  }

  /** With fan-out one, `finish` yields a single root exactly when there was
      at most one data block; otherwise blocks are left unreachable. */
  lemma FinishIndexFanOutOne(s: Index)
    requires |s.levels| > 0 && KeysFit(s) && FanOutOne(s) && Singles(s.levels, 0)
    ensures |FinishIndex(s).levels| == 2 * |s.levels|
    ensures Rooted(FinishIndex(s)) <==> |s.levels| == 1
  {
    var n := |s.levels|;
    FlushLevelsFanOutOne(s, 0, n);
    var t := FlushLevels(s, 0, n);
    assert FinishIndex(s) == t;
    if n > 1 {
      assert |t.levels[n]| == 1;
    } else {
      var es := s.levels[0];
      WriteKeysFit(s, 0);
      AddIndexFanOutOne(Write(s, 0), 1, IndexEntry(es[0].endKey, s.size));
      assert t == FlushLevels(FlushIndex(s, 0), 1, 1) == FlushIndex(s, 0);
      assert t.levels[0] == t.levels[..1][0] == [];
    }
  }

  // ---- exactly when, for keys of one length ----

  /** All end keys are as long as the longest key. */
  predicate Uniform(s: Index) {
    forall l, i | 0 <= l < |s.levels| && 0 <= i < |s.levels[l]| :: |s.levels[l][i].endKey| == s.maxKey
  }

  lemma TwoEntriesSize(es: seq<IndexEntry>, m: nat)
    requires |es| >= 2 && forall i | 0 <= i < |es| :: |es[i].endKey| == m
    ensures IndexSize(es) >= 2 * (m + 17)
  {
    var n := |es| - 1;
    IndexSizeSnoc(es[..n - 1], es[n - 1]);
    IndexSizeSnoc(es[..n], es[n]);
    assert es[..n - 1] + [es[n - 1]] == es[..n] && es[..n] + [es[n]] == es;
  }

  /** Two entries that do not fit are not in one block. */
  lemma OneEach(s: Index, l: nat)
    requires WithinBlocks(s) && NoGap(s.levels, 0) && Uniform(s) && !FanOutTwo(s) && l < |s.levels|
    ensures |s.levels[l]| == 1
  {
    if |s.levels[l]| > 1 { TwoEntriesSize(s.levels[l], s.maxKey); }
  }

  /** With end keys shorter than the longest key one root is possible without
      room for two of the longest. */
  lemma ShortEndKeysRooted(a: byte, b: byte, p: nat, q: nat, bs: Blocks)
    ensures var s := Index([[IndexEntry([a], p), IndexEntry([b], q)]], bs, 160, 80, 20);
            KeysFit(s) && !FanOutTwo(s) && Rooted(FinishIndex(s))
  {
    var s := Index([[IndexEntry([a], p), IndexEntry([b], q)]], bs, 160, 80, 20);
    var t := FlushIndex(s, 0);
    assert t == AddIndex(Write(s, 0), 1, IndexEntry([b], 160));
    assert FlushLevels(s, 0, 1) == FlushLevels(t, 1, 1) == t;
  }

  // ---- how much is written ----

  /** The entries waiting in all builders. */
  function WaitingIn(levels: seq<seq<IndexEntry>>): (n: nat)
    decreases |levels|
  {
    if levels == [] then 0 else WaitingIn(levels[..|levels| - 1]) + |levels[|levels| - 1]|
  }

  lemma {:induction false} WaitingSet(levels: seq<seq<IndexEntry>>, l: nat, es: seq<IndexEntry>)
    requires l < |levels|
    ensures WaitingIn(levels[l := es]) == WaitingIn(levels) - |levels[l]| + |es|
    decreases |levels|
  {
    var n := |levels| - 1;
    if l < n {
      assert levels[l := es][..n] == levels[..n][l := es];
      WaitingSet(levels[..n], l, es);
    } else {
      assert levels[l := es][..n] == levels[..n];
    }
  }

  /** Bytes written, with a block for each entry still waiting. */
  function Charge(s: Index): (n: nat) {
    s.size + s.blockSize * WaitingIn(s.levels)
  }

  /** Writing a block of `k` entries pays for itself from two entries on. */
  lemma ChargeWrite(s: Index, level: nat)
    requires level < |s.levels|
    ensures Charge(Write(s, level)) == Charge(s) + s.blockSize - s.blockSize * |s.levels[level]|
  {
    WaitingSet(s.levels, level, []);
    var w, k := WaitingIn(s.levels), |s.levels[level]|;
    assert s.blockSize * (w - k) == s.blockSize * w - s.blockSize * k;
  }

  lemma ChargeAppend(s: Index, level: nat, e: IndexEntry)
    requires level < |s.levels|
    ensures Charge(s.(levels := s.levels[level := s.levels[level] + [e]])) == Charge(s) + s.blockSize
  {
    WaitingSet(s.levels, level, s.levels[level] + [e]);
    assert s.blockSize * (WaitingIn(s.levels) + 1) == s.blockSize * WaitingIn(s.levels) + s.blockSize;
  }

  lemma ChargeLevel(s: Index, e: IndexEntry)
    ensures Charge(s.(levels := s.levels + [[e]])) == Charge(s) + s.blockSize
  {
    assert (s.levels + [[e]])[..|s.levels|] == s.levels;
    assert s.blockSize * (WaitingIn(s.levels) + 1) == s.blockSize * WaitingIn(s.levels) + s.blockSize;
  }

  /** A level that overflows has at least two entries. */
  lemma OverflowHasTwo(s: Index, level: nat, e: IndexEntry)
    requires KeysFit(s) && FanOutTwo(s) && level < |s.levels| && |e.endKey| <= s.maxKey
    requires Exceeds(s.levels[level], e, s.blockSize)
    ensures |s.levels[level]| >= 2
  {
    if |s.levels[level]| == 1 { OneEntrySize(s.levels[level]); }
  }

  lemma OneEntrySize(es: seq<IndexEntry>)
    requires |es| == 1
    ensures IndexSize(es) == |es[0].endKey| + 17
  {
    IndexSizeSnoc([], es[0]);
    assert [] + [es[0]] == es;
  }

  /** An entry adds at most one block to the charge and one level. */
  lemma {:induction false} AddIndexCharge(s: Index, level: nat, e: IndexEntry)
    requires level <= |s.levels| && |e.endKey| <= s.maxKey && KeysFit(s) && FanOutTwo(s)
    ensures Charge(AddIndex(s, level, e)) <= Charge(s) + s.blockSize
    ensures |AddIndex(s, level, e).levels| <= |s.levels| + 1
    decreases |s.levels| - level
  {
    hide KeysFit, Exceeds, Charge;
    if level == |s.levels| {
      ChargeLevel(s, e);
    } else if Exceeds(s.levels[level], e, s.blockSize) {
      OverflowHasTwo(s, level, e);
      FlushCharge(s, level);
      var t := FlushIndex(s, level);
      ChargeAppend(t, level, e);
      TwoBlocks(s.blockSize, |s.levels[level]|);
    } else {
      ChargeAppend(s, level, e);
    }
  }

  lemma TwoBlocks(blockSize: nat, k: nat)
    requires k >= 1
    ensures blockSize * k >= blockSize && (k >= 2 ==> blockSize * k >= 2 * blockSize)
  {
  }

  /** A flush charges two blocks, less what it empties. */
  lemma FlushCharge(s: Index, level: nat)
    requires level < |s.levels| && KeysFit(s) && FanOutTwo(s) && s.levels[level] != []
    ensures Charge(FlushIndex(s, level)) <= Charge(s) + 2 * s.blockSize - s.blockSize * |s.levels[level]|
    ensures |FlushIndex(s, level).levels| <= |s.levels| + 1
    decreases |s.levels| - level, 0
  {
    hide KeysFit, Charge;
    var es := s.levels[level];
    WriteKeysFit(s, level);
    ChargeWrite(s, level);
    AddIndexCharge(Write(s, level), level + 1, IndexEntry(es[|es| - 1].endKey, s.size));
  }

  lemma FlushIndexCharge(s: Index, level: nat)
    requires level < |s.levels| && KeysFit(s) && FanOutTwo(s)
    ensures Charge(FlushIndex(s, level)) <= Charge(s) + s.blockSize
  {
    hide KeysFit, Charge;
    if s.levels[level] != [] {
      FlushCharge(s, level);
      TwoBlocks(s.blockSize, |s.levels[level]|);
    }
  }

  lemma {:induction false} FlushLevelsCharge(s: Index, l: nat, n: nat)
    requires l <= n <= |s.levels| && KeysFit(s) && FanOutTwo(s)
    ensures Charge(FlushLevels(s, l, n)) <= Charge(s) + s.blockSize * (n - l)
    decreases n - l
  {
    hide KeysFit, Charge;
    if l < n {
      FlushIndexCharge(s, l);
      FlushLevelsCharge(FlushIndex(s, l), l + 1, n);
      assert s.blockSize * (n - l) == s.blockSize * (n - (l + 1)) + s.blockSize;
    }
  }

  /** `finish` writes at most a block per level and one more on top of the
      charge. */
  lemma FinishIndexCharge(s: Index)
    requires KeysFit(s) && FanOutTwo(s)
    ensures FinishIndex(s).size <= Charge(s) + s.blockSize * (|s.levels| + 1)
  {
    hide KeysFit, FlushLevels, FlushIndex;
    var n := |s.levels|;
    FlushLevelsCharge(s, 0, n);
    var t := FlushLevels(s, 0, n);
    var top := |t.levels| - 1;
    if top >= 0 && |t.levels[top]| > 1 { FlushIndexCharge(t, top); }
    assert s.blockSize * (n + 1) == s.blockSize * n + s.blockSize;
  }

  /** After `n` entries are in data blocks. */
  predicate Small(s: Index, n: int) {
    0 <= n && Charge(s) <= 2 * (s.blockSize * n) && |s.levels| <= n
  }

  /** Three blocks for each entry, and one. */
  function SizeBound(blockSize: nat, n: nat): nat {
    blockSize * (3 * n + 1)
  }

  /** The whole file, data and index, is within that. */
  lemma FinishIndexSize(s: Index, n: nat)
    requires KeysFit(s) && FanOutTwo(s) && Small(s, n)
    ensures FinishIndex(s).size <= SizeBound(s.blockSize, n)
  {
    hide KeysFit, FinishIndex, Charge;
    FinishIndexCharge(s);
    var k := |s.levels| + 1;
    assert s.blockSize * k <= s.blockSize * (n + 1);
    assert s.blockSize * (3 * n + 1) == 2 * (s.blockSize * n) + s.blockSize * (n + 1);
  }
}
