/** Exactly when `finish` leaves a single root, for keys of any lengths: follow
    the end keys that are promoted from level to level. */
module IndexRoot {
  import opened Keys
  import opened BlockBuilders
  import opened SstTree
  import opened IndexGrowth

  function EndKeys(es: seq<IndexEntry>): (ks: seq<Key>)
    ensures |ks| == |es| && forall i | 0 <= i < |es| :: ks[i] == es[i].endKey
  {
    seq(|es|, i requires 0 <= i < |es| => es[i].endKey)
  }

  /** What index entries with these keys take. */
  function KeysSize(ks: seq<Key>): (n: nat) {
    if ks == [] then 0 else KeysSize(ks[..|ks| - 1]) + |ks[|ks| - 1]| + 17
  }

  predicate OneBlock(ks: seq<Key>, blockSize: nat) {
    FIXED_HEADER_SIZE + KeysSize(ks) <= blockSize
  }

  /** The end keys of the blocks that a builder holding `held` writes as `more`
      come in, and is flushed in the end. */
  function Summaries(held: seq<Key>, more: seq<Key>, blockSize: nat): (ks: seq<Key>)
    decreases |more|
  {
    if more == [] then (if held == [] then [] else [held[|held| - 1]])
    else if held != [] && !OneBlock(held + [more[0]], blockSize)
    then [held[|held| - 1]] + Summaries([more[0]], more[1..], blockSize)
    else Summaries(held + [more[0]], more[1..], blockSize)
  }

  /** With `more` coming in at level `l`, what goes into level `n` while the
      levels below it are flushed one after the other. */
  function Promoted(levels: seq<seq<IndexEntry>>, l: nat, n: nat, more: seq<Key>, blockSize: nat): (ks: seq<Key>)
    requires l <= n <= |levels|
    decreases n - l
  {
    if l == n then more
    else Promoted(levels, l + 1, n, Summaries(EndKeys(levels[l]), more, blockSize), blockSize)
  }

  /** What is in level `n`, if there is one. */
  function Above(levels: seq<seq<IndexEntry>>, n: nat): (ks: seq<Key>) {
    if n < |levels| then EndKeys(levels[n]) else []
  }

  /** All that `finish` brings above the levels there are fits one block. */
  predicate SingleRoot(levels: seq<seq<IndexEntry>>, blockSize: nat) {
    OneBlock(Promoted(levels, 0, |levels|, [], blockSize), blockSize)
  }

  lemma {:induction false} SizeOfKeys(es: seq<IndexEntry>)
    ensures KeysSize(EndKeys(es)) == IndexSize(es)
    decreases |es|
  {
    hide IndexSize;
    if es == [] {
      NoSize();
    } else {
      var n := |es| - 1;
      SizeOfKeys(es[..n]);
      IndexSizeSnoc(es[..n], es[n]);
      assert es[..n] + [es[n]] == es && EndKeys(es)[..n] == EndKeys(es[..n]);
    }
  }

  lemma NoSize()
    ensures IndexSize([]) == 0
  {
  }

  /** The builder's check, in keys. */
  lemma ExceedsIff(es: seq<IndexEntry>, e: IndexEntry, blockSize: nat)
    ensures Exceeds(es, e, blockSize) <==> !OneBlock(EndKeys(es) + [e.endKey], blockSize)
  {
    hide IndexSize;
    SizeOfKeys(es);
    assert (EndKeys(es) + [e.endKey])[..|es|] == EndKeys(es);
  }

  lemma {:induction false} LargerWith(ks: seq<Key>, more: seq<Key>, blockSize: nat)
    requires !OneBlock(ks, blockSize)
    ensures !OneBlock(ks + more, blockSize)
    decreases |more|
  {
    if more == [] {
      assert ks + more == ks;
    } else {
      assert (ks + more)[..|ks + more| - 1] == ks + more[..|more| - 1];
      LargerWith(ks, more[..|more| - 1], blockSize);
    }
  }

  /** Only the levels from `l` up to `n` count. */
  lemma {:induction false} PromotedSame(levels: seq<seq<IndexEntry>>, levels': seq<seq<IndexEntry>>,
                                        l: nat, n: nat, more: seq<Key>, blockSize: nat)
    requires l <= n <= |levels| && n <= |levels'| && forall k | l <= k < n :: levels'[k] == levels[k]
    ensures Promoted(levels', l, n, more, blockSize) == Promoted(levels, l, n, more, blockSize)
    decreases n - l
  {
    hide Summaries;
    if l < n { PromotedSame(levels, levels', l + 1, n, Summaries(EndKeys(levels[l]), more, blockSize), blockSize); }
  }

  /** What level `n` has and will get, with `more` coming in at `l`. */
  function Arrivals(s: Index, l: nat, n: nat, more: seq<Key>): (ks: seq<Key>)
    requires l <= n <= |s.levels|
  {
    Above(s.levels, n) + Promoted(s.levels, l, n, more, s.blockSize)
  }

  /** Where a step leads that adds to the levels up to `n`: the arrivals stay, or
      they were too many and there is a level beyond `n`. */
  predicate Follows(t: Index, l: nat, n: nat, more: seq<Key>, was: seq<Key>)
  {
    && n <= |t.levels| && l <= n
    && if |t.levels| <= n + 1 then Arrivals(t, l, n, more) == was && OneBlock(Above(t.levels, n), t.blockSize)
       else !OneBlock(was, t.blockSize)
  }

  lemma {:induction false} AddFollows(s: Index, j: nat, n: nat, e: IndexEntry, more: seq<Key>)
    requires j <= n <= |s.levels| <= n + 1 && |e.endKey| <= s.maxKey && KeysFit(s)
    requires NoGap(s.levels, j + 1) && OneBlock(Above(s.levels, n), s.blockSize)
    ensures Follows(AddIndex(s, j, e), j, n, more, Arrivals(s, j, n, [e.endKey] + more))
    decreases n - j, 1
  {
    hide KeysFit, Exceeds, OneBlock, IndexSize, Promoted, Follows, AddIndex, Arrivals;
    if j == n {
      AddAtTop(s, n, e, more);
    } else {
      ExceedsIff(s.levels[j], e, s.blockSize);
      if Exceeds(s.levels[j], e, s.blockSize) && s.levels[j] != [] {
        AddOverflows(s, j, n, e, more);
      } else {
        AddStays(s, j, n, e, more);
      }
    }
  }

  lemma OneKeyFits(s: Index, e: IndexEntry)
    requires KeysFit(s) && |e.endKey| <= s.maxKey
    ensures OneBlock([e.endKey], s.blockSize) && !Exceeds([], e, s.blockSize)
  {
    ExceedsIff([], e, s.blockSize);
    assert [] + [e.endKey] == [e.endKey];
    assert KeysSize([e.endKey]) == |e.endKey| + 17;
  }

  lemma AddAtTop(s: Index, n: nat, e: IndexEntry, more: seq<Key>)
    requires n <= |s.levels| <= n + 1 && |e.endKey| <= s.maxKey && KeysFit(s)
    requires OneBlock(Above(s.levels, n), s.blockSize)
    ensures Follows(AddIndex(s, n, e), n, n, more, Arrivals(s, n, n, [e.endKey] + more))
  {
    hide KeysFit, Exceeds, OneBlock, IndexSize;
    OneKeyFits(s, e);
    var t := AddIndex(s, n, e);
    if |s.levels| == n {
      assert EndKeys([e]) == [e.endKey];
      assert [e.endKey] + more == [] + ([e.endKey] + more);
    } else {
      var es := s.levels[n];
      ExceedsIff(es, e, s.blockSize);
      assert EndKeys(es) + [e.endKey] + more == EndKeys(es) + ([e.endKey] + more);
      if Exceeds(es, e, s.blockSize) {
        WriteKeysFit(s, n);
        LargerWith(EndKeys(es) + [e.endKey], more, s.blockSize);
      } else {
        assert EndKeys(es + [e]) == EndKeys(es) + [e.endKey];
      }
    }
  }

  lemma AddStays(s: Index, j: nat, n: nat, e: IndexEntry, more: seq<Key>)
    requires j < n <= |s.levels| <= n + 1 && |e.endKey| <= s.maxKey && KeysFit(s)
    requires OneBlock(Above(s.levels, n), s.blockSize)
    requires !Exceeds(s.levels[j], e, s.blockSize) || s.levels[j] == []
    ensures Follows(AddIndex(s, j, e), j, n, more, Arrivals(s, j, n, [e.endKey] + more))
  {
    hide KeysFit, Exceeds, OneBlock, IndexSize;
    OneKeyFits(s, e);
    var t, es := AddIndex(s, j, e), s.levels[j];
    ExceedsIff(es, e, s.blockSize);
    assert t.levels == s.levels[j := es + [e]];
    assert EndKeys(es + [e]) == EndKeys(es) + [e.endKey];
    assert ([e.endKey] + more)[1..] == more;
    PromotedSame(s.levels, t.levels, j + 1, n, Summaries(EndKeys(es + [e]), more, s.blockSize), s.blockSize);
  }

  lemma {:induction false} AddOverflows(s: Index, j: nat, n: nat, e: IndexEntry, more: seq<Key>)
    requires j < n <= |s.levels| <= n + 1 && |e.endKey| <= s.maxKey && KeysFit(s)
    requires NoGap(s.levels, j + 1) && OneBlock(Above(s.levels, n), s.blockSize)
    requires Exceeds(s.levels[j], e, s.blockSize) && s.levels[j] != []
    ensures Follows(AddIndex(s, j, e), j, n, more, Arrivals(s, j, n, [e.endKey] + more))
    decreases n - j, 0
  {
    hide KeysFit, Exceeds, OneBlock, IndexSize, AddIndex, Follows;
    var es := s.levels[j];
    var w, e', q := Write(s, j), IndexEntry(es[|es| - 1].endKey, s.size), Summaries([e.endKey], more, s.blockSize);
    OverflowIs(s, j, e);
    AddFollows(w, j + 1, n, e', q);
    OverflowArrives(s, j, n, e, more);
    OverflowLeft(AddIndex(w, j + 1, e'), AddIndex(s, j, e), j, n, e, more, Arrivals(s, j, n, [e.endKey] + more));
  }

  /** An overflow passes on the end key of its level. */
  lemma OverflowArrives(s: Index, j: nat, n: nat, e: IndexEntry, more: seq<Key>)
    requires j < n <= |s.levels| && s.levels[j] != [] && Exceeds(s.levels[j], e, s.blockSize)
    ensures var es := s.levels[j];
            Arrivals(s, j, n, [e.endKey] + more) ==
            Arrivals(Write(s, j), j + 1, n, [es[|es| - 1].endKey] + Summaries([e.endKey], more, s.blockSize))
  {
    hide Exceeds, OneBlock, IndexSize;
    var es := s.levels[j];
    var q := [es[|es| - 1].endKey] + Summaries([e.endKey], more, s.blockSize);
    ExceedsIff(es, e, s.blockSize);
    assert ([e.endKey] + more)[1..] == more;
    assert Summaries(EndKeys(es), [e.endKey] + more, s.blockSize) == q;
    PromotedSame(s.levels, Write(s, j).levels, j + 1, n, q, s.blockSize);
  }

  /** And leaves the new entry in its level. */
  lemma OverflowLeft(u: Index, t: Index, j: nat, n: nat, e: IndexEntry, more: seq<Key>, was: seq<Key>)
    requires j < n && Follows(u, j + 1, n, Summaries([e.endKey], more, t.blockSize), was)
    requires t.blockSize == u.blockSize && t.levels == u.levels[j := [e]]
    ensures Follows(t, j, n, more, was)
  {
    hide OneBlock, Summaries;
    assert EndKeys([e]) == [e.endKey];
    PromotedSame(u.levels, t.levels, j + 1, n, Summaries([e.endKey], more, t.blockSize), t.blockSize);
  }

  // ---- the bottom-up loop ----

  lemma FlushFollows(s: Index, l: nat, n: nat)
    requires l < n <= |s.levels| <= n + 1 && KeysFit(s) && s.levels[l] != []
    requires NoGap(s.levels, l) && OneBlock(Above(s.levels, n), s.blockSize)
    ensures Follows(FlushIndex(s, l), l + 1, n, [], Arrivals(s, l, n, []))
  {
    hide KeysFit, OneBlock, Follows, AddIndex, Arrivals;
    var es := s.levels[l];
    var w, e := Write(s, l), IndexEntry(es[|es| - 1].endKey, s.size);
    WriteKeysFit(s, l);
    AddFollows(w, l + 1, n, e, []);
    assert [e.endKey] + [] == [e.endKey];
    FlushArrives(s, l, n);
  }

  lemma FlushArrives(s: Index, l: nat, n: nat)
    requires l < n <= |s.levels| && s.levels[l] != []
    ensures Arrivals(s, l, n, []) == Arrivals(Write(s, l), l + 1, n, [s.levels[l][|s.levels[l]| - 1].endKey])
  {
    var es := s.levels[l];
    var last := [es[|es| - 1].endKey];
    assert Summaries(EndKeys(es), [], s.blockSize) == last;
    PromotedSame(s.levels, Write(s, l).levels, l + 1, n, last, s.blockSize);
  }

  /** After the loop the lower levels are empty, and level `n` has exactly the
      arrivals, or there were too many of them and a level is beyond it. */
  lemma {:induction false} LoopFollows(s: Index, l: nat, n: nat)
    requires l < n <= |s.levels| && KeysFit(s) && NoGap(s.levels, l)
    requires forall k | 0 <= k < l :: s.levels[k] == []
    requires |s.levels| <= n + 1 ==> OneBlock(Above(s.levels, n), s.blockSize)
    ensures var t := FlushLevels(s, l, n);
            && n < |t.levels| && t.levels[n] != [] && (forall k | 0 <= k < n :: t.levels[k] == [])
            && (|s.levels| > n + 1 ==> |t.levels| > n + 1)
            && (|s.levels| <= n + 1 ==> (|t.levels| == n + 1 <==> OneBlock(Arrivals(s, l, n, []), s.blockSize)))
    decreases n - l
  {
    hide KeysFit, OneBlock, AddIndex, Arrivals;
    var t := FlushIndex(s, l);
    FlushEmpties(s, l);
    if |s.levels| <= n + 1 { FlushFollows(s, l, n); }
    if l + 1 < n {
      LoopFollows(t, l + 1, n);
    } else {
      assert FlushLevels(s, l, n) == FlushLevels(t, n, n) == t;
      if |t.levels| <= n + 1 { NothingMore(t, n); }
    }
  }

  lemma NothingMore(t: Index, n: nat)
    requires n <= |t.levels|
    ensures Arrivals(t, n, n, []) == Above(t.levels, n)
  {
  }

  lemma FlushEmpties(s: Index, l: nat)
    requires l < |s.levels| && KeysFit(s) && NoGap(s.levels, l) && forall k | 0 <= k < l :: s.levels[k] == []
    ensures var t := FlushIndex(s, l);
            |t.levels| > l + 1 && NoGap(t.levels, l + 1) && forall k | 0 <= k <= l :: t.levels[k] == []
  {
    hide KeysFit, AddIndex;
    var es := s.levels[l];
    var w, e := Write(s, l), IndexEntry(es[|es| - 1].endKey, s.size);
    WriteKeysFit(s, l);
    AddIndexNoGap(w, l + 1, e);
    AddIndexShape(w, l + 1, e);
    var t := FlushIndex(s, l);
    forall k | 0 <= k <= l
      ensures t.levels[k] == []
    {
      assert t.levels[k] == t.levels[..l + 1][k] == w.levels[..l + 1][k];
    }
  }

  /** `finish` leaves a single root exactly when all that is promoted above the
      levels there are fits one block. */
  lemma RootedIff(s: Index)
    requires |s.levels| > 0 && KeysFit(s) && NoGap(s.levels, 0)
    ensures Rooted(FinishIndex(s)) <==> SingleRoot(s.levels, s.blockSize)
  {
    hide KeysFit, OneBlock, AddIndex, FlushLevels;
    var n := |s.levels|;
    NoKeysFit(s);
    LoopFollows(s, 0, n);
    assert Arrivals(s, 0, n, []) == Promoted(s.levels, 0, n, [], s.blockSize);
    var t := FlushLevels(s, 0, n);
    var top := |t.levels| - 1;
    if |t.levels[top]| > 1 {
      FinalFlush(t);
    }
  }

  lemma NoKeysFit(s: Index)
    requires KeysFit(s)
    ensures OneBlock([], s.blockSize)
  {
  }

  /** The flush of a topmost level with more than one entry. */
  lemma FinalFlush(t: Index)
    requires KeysFit(t) && t.levels != [] && t.levels[|t.levels| - 1] != []
    ensures var top := |t.levels| - 1; var u := FlushIndex(t, top);
            |u.levels| == top + 2 && |u.levels[top + 1]| == 1 && u.levels[top] == [] &&
            forall k | 0 <= k < top :: u.levels[k] == t.levels[k]
  {
    hide KeysFit;
    WriteKeysFit(t, |t.levels| - 1);
  }

  /** With a single root all lower builders are empty, the topmost holds one
      entry, and the tree under it reaches exactly the data blocks ever added,
      in order and all at the same depth. */
  lemma SingleRootTree(s: Index)
    requires |s.levels| > 0 && KeysFit(s) && Sound(s) && NoGap(s.levels, 0) && SingleRoot(s.levels, s.blockSize)
    ensures var t := FinishIndex(s); var top := |t.levels| - 1;
            && Rooted(t) && top >= 1
            && Extends(s.blocks, t.blocks)
            && Subtree(t.blocks, t.levels[top][0], top)
            && LeavesUnder(t.blocks, t.levels[top][0], top) == Pending(s.blocks, s.levels, 0)
  {
    hide KeysFit, Forest, Leaves, Subtree, LeavesUnder, OneBlock, Promoted;
    var n := |s.levels|;
    NoKeysFit(s);
    LoopFollows(s, 0, n);
    assert Arrivals(s, 0, n, []) == Promoted(s.levels, 0, n, [], s.blockSize);
    FlushLevelsKeeps(s, 0, n);
    var u := FlushLevels(s, 0, n);
    var t := FinishIndex(s);
    if |u.levels[n]| > 1 {
      FlushIndexKeeps(u, n);
      FinalFlush(u);
    }
    RootLeaves(t.blocks, t.levels);
  }

  /** Room for any two index entries in a block is enough. */
  lemma FanOutTwoRoots(s: Index)
    requires |s.levels| > 0 && KeysFit(s) && FanOutTwo(s) && NoGap(s.levels, 0)
    ensures SingleRoot(s.levels, s.blockSize)
  {
    hide KeysFit, OneBlock, Promoted, FlushLevels;
    var n := |s.levels|;
    NoKeysFit(s);
    LoopFollows(s, 0, n);
    FlushLevelsClimb(s, 0, n);
    assert Arrivals(s, 0, n, []) == Promoted(s.levels, 0, n, [], s.blockSize);
  }

  /** With end keys of one length, `finish` leaves one root exactly when two
      index entries share a block, or there is only one level. */
  lemma FinishIndexRootedIff(s: Index)
    requires |s.levels| > 0 && Healthy(s) && NoGap(s.levels, 0) && Uniform(s)
    ensures Rooted(FinishIndex(s)) <==> FanOutTwo(s) || |s.levels| == 1
  {
    hide Sound, WithinBlocks, FinishIndex, Rooted, Stacked, SingleRoot;
    if FanOutTwo(s) {
      FanOutTwoRoots(s);
      RootedIff(s);
    } else {
      forall k | 0 <= k < |s.levels|
        ensures |s.levels[k]| == 1
      {
        OneEach(s, k);
      }
      FinishIndexFanOutOne(s);
    }
  }
}
