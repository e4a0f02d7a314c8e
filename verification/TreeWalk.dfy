/** A stack of cursors, root first, as a position among the leaves of an index
    tree. Each move of the iterator is one change to the stack; the lemmas say
    what it does to the position. */
module TreeWalk {
  import opened Keys
  import opened BlockBuilders
  import opened SstTree

  /** A cursor on one entry of an index block. */
  datatype Cursor = Cursor(entries: seq<IndexEntry>, pos: nat)

  function Last(st: seq<Cursor>): Cursor
    requires st != []
  {
    st[|st| - 1]
  }

  function Init(st: seq<Cursor>): seq<Cursor>
    requires st != []
  {
    st[..|st| - 1]
  }

  function Here(st: seq<Cursor>): IndexEntry
    requires st != [] && Last(st).pos < |Last(st).entries|
  {
    Last(st).entries[Last(st).pos]
  }

  /** `st` runs from the root block towards the leaves, each cursor inside the
      block its parent's cursor points at. The root entries have `h` index
      levels between them and the data. */
  ghost predicate Path(bs: Blocks, root: seq<IndexEntry>, h: nat, st: seq<Cursor>)
    decreases |st|
  {
    && st != []
    && |st| - 1 <= h
    && Last(st).pos < |Last(st).entries|
    && Forest(bs, Last(st).entries, h - (|st| - 1))
    && (if |st| == 1 then Last(st).entries == root
        else
          && Path(bs, root, h, Init(st))
          && Here(Init(st)).child in bs.index
          && Last(st).entries == bs.index[Here(Init(st)).child])
  }

  /** How many leaves lie before the subtree under the last cursor. */
  ghost function Rank(bs: Blocks, root: seq<IndexEntry>, h: nat, st: seq<Cursor>): (r: nat)
    requires Path(bs, root, h, st)
    decreases |st|
  {
    (if |st| == 1 then 0 else Rank(bs, root, h, Init(st))) +
    |Leaves(bs, Last(st).entries[..Last(st).pos], h - (|st| - 1))|
  }

  /** The leaves under the last cursor. */
  ghost function Under(bs: Blocks, root: seq<IndexEntry>, h: nat, st: seq<Cursor>): (ls: seq<IndexEntry>)
    requires Path(bs, root, h, st)
  {
    LeavesUnder(bs, Here(st), h - (|st| - 1))
  }

  /** How many leaves lie before the end of that subtree. */
  ghost function End(bs: Blocks, root: seq<IndexEntry>, h: nat, st: seq<Cursor>): (r: nat)
    requires Path(bs, root, h, st)
  {
    Rank(bs, root, h, st) + |Under(bs, root, h, st)|
  }

  lemma ParentUnfolds(bs: Blocks, root: seq<IndexEntry>, h: nat, st: seq<Cursor>)
    requires Path(bs, root, h, st) && |st| > 1
    ensures Under(bs, root, h, Init(st)) == Leaves(bs, Last(st).entries, h - (|st| - 1))
  {
    hide Leaves;
    assert Subtree(bs, Here(Init(st)), h - (|st| - 2));
  }

  lemma SliceOfSlice<T>(s: seq<T>, a: nat, b: nat, i: nat, j: nat)
    requires a <= b <= |s| && i <= j <= b - a
    ensures s[a..b][i..j] == s[a + i..a + j]
  {
    assert forall k | 0 <= k < j - i :: s[a..b][i..j][k] == s[a..b][i + k] == s[a + i + k];
  }

  /** The stack's subtree is the slice of all leaves from its rank to its end. */
  lemma {:induction false} Located(bs: Blocks, root: seq<IndexEntry>, h: nat, st: seq<Cursor>)
    requires Path(bs, root, h, st)
    ensures Forest(bs, root, h)
    ensures End(bs, root, h, st) <= |Leaves(bs, root, h)|
    ensures Leaves(bs, root, h)[Rank(bs, root, h, st)..End(bs, root, h, st)] == Under(bs, root, h, st)
    decreases |st|
  {
    hide Leaves, LeavesUnder, Subtree, Forest;
    var d, c := |st| - 1, Last(st);
    LeavesAround(bs, c.entries, c.pos, h - d);
    var i, j := |Leaves(bs, c.entries[..c.pos], h - d)|, |Leaves(bs, c.entries[..c.pos + 1], h - d)|;
    assert Leaves(bs, c.entries, h - d)[i..j] == Under(bs, root, h, st);
    if d > 0 {
      Located(bs, root, h, Init(st));
      ParentUnfolds(bs, root, h, st);
      var r, e := Rank(bs, root, h, Init(st)), End(bs, root, h, Init(st));
      assert Rank(bs, root, h, st) == r + i && End(bs, root, h, st) == r + j;
      SliceOfSlice(Leaves(bs, root, h), r, e, i, j);
    }
  }

  lemma RankBelowEnd(bs: Blocks, root: seq<IndexEntry>, h: nat, st: seq<Cursor>)
    requires Path(bs, root, h, st)
    ensures Forest(bs, root, h) && Rank(bs, root, h, st) < End(bs, root, h, st) <= |Leaves(bs, root, h)|
  {
    hide Leaves, LeavesUnder, Subtree, Rank;
    Located(bs, root, h, st);
    LeavesUnderEnd(bs, Here(st), h - (|st| - 1));
  }

  /** At the lowest index level the subtree is the leaf itself. */
  lemma AtBottom(bs: Blocks, root: seq<IndexEntry>, h: nat, st: seq<Cursor>)
    requires Path(bs, root, h, st) && |st| == h + 1
    ensures Forest(bs, root, h) && Rank(bs, root, h, st) < |Leaves(bs, root, h)|
    ensures End(bs, root, h, st) == Rank(bs, root, h, st) + 1
    ensures Leaves(bs, root, h)[Rank(bs, root, h, st)] == Here(st)
  {
    hide Leaves, Subtree, Rank;
    Located(bs, root, h, st);
    var all, r := Leaves(bs, root, h), Rank(bs, root, h, st);
    assert all[r..r + 1] == [Here(st)];
    assert all[r] == all[r..r + 1][0];
  }

  lemma PosInBlock(bs: Blocks, root: seq<IndexEntry>, h: nat, st: seq<Cursor>)
    requires Path(bs, root, h, st)
    ensures st != [] && Last(st).pos < |Last(st).entries|
  {
  }

  lemma DepthBound(bs: Blocks, root: seq<IndexEntry>, h: nat, st: seq<Cursor>)
    requires Path(bs, root, h, st)
    ensures 0 < |st| <= h + 1
  {
  }

  // ---- the moves ----

  function MoveTo(st: seq<Cursor>, pos: nat): (t: seq<Cursor>)
    requires st != []
  {
    Init(st) + [Last(st).(pos := pos)]
  }

  lemma MovedPath(bs: Blocks, root: seq<IndexEntry>, h: nat, st: seq<Cursor>, pos: nat)
    requires Path(bs, root, h, st) && pos < |Last(st).entries|
    ensures Path(bs, root, h, MoveTo(st, pos)) && Init(MoveTo(st, pos)) == Init(st)
  {
    hide Forest;
    var t := MoveTo(st, pos);
    assert |t| == |st| && Last(t) == Last(st).(pos := pos);
    assert Init(t) == Init(st);
    assert |st| > 1 ==> Path(bs, root, h, Init(st)) && Here(Init(st)).child in bs.index;
  }

  lemma NextSibling(bs: Blocks, root: seq<IndexEntry>, h: nat, st: seq<Cursor>)
    requires Path(bs, root, h, st) && Last(st).pos + 1 < |Last(st).entries|
    ensures Path(bs, root, h, MoveTo(st, Last(st).pos + 1))
    ensures Rank(bs, root, h, MoveTo(st, Last(st).pos + 1)) == End(bs, root, h, st)
  {
    hide Leaves, LeavesUnder, Subtree, Forest;
    MovedPath(bs, root, h, st, Last(st).pos + 1);
    LeavesAround(bs, Last(st).entries, Last(st).pos, h - (|st| - 1));
  }

  lemma PrevSibling(bs: Blocks, root: seq<IndexEntry>, h: nat, st: seq<Cursor>)
    requires Path(bs, root, h, st) && Last(st).pos > 0
    ensures Path(bs, root, h, MoveTo(st, Last(st).pos - 1))
    ensures End(bs, root, h, MoveTo(st, Last(st).pos - 1)) == Rank(bs, root, h, st)
  {
    hide Forest;
    var t := MoveTo(st, Last(st).pos - 1);
    MovedPath(bs, root, h, st, Last(st).pos - 1);
    NextSibling(bs, root, h, t);
    assert MoveTo(t, Last(t).pos + 1) == st;
  }

  /** Past the last entry of a block, the parent's subtree ends too. */
  lemma EndOfBlock(bs: Blocks, root: seq<IndexEntry>, h: nat, st: seq<Cursor>)
    requires Path(bs, root, h, st) && Last(st).pos + 1 == |Last(st).entries|
    ensures |st| > 1 ==> Path(bs, root, h, Init(st)) && End(bs, root, h, Init(st)) == End(bs, root, h, st)
    ensures |st| == 1 ==> Forest(bs, root, h) && End(bs, root, h, st) == |Leaves(bs, root, h)|
  {
    hide Leaves, LeavesUnder, Subtree, Forest;
    var c := Last(st);
    LeavesAround(bs, c.entries, c.pos, h - (|st| - 1));
    assert c.entries[..c.pos + 1] == c.entries;
    if |st| > 1 {
      ParentUnfolds(bs, root, h, st);
    }
  }

  /** At the first entry of a block, the parent's subtree starts there too. */
  lemma StartOfBlock(bs: Blocks, root: seq<IndexEntry>, h: nat, st: seq<Cursor>)
    requires Path(bs, root, h, st) && Last(st).pos == 0
    ensures |st| > 1 ==> Path(bs, root, h, Init(st)) && Rank(bs, root, h, Init(st)) == Rank(bs, root, h, st)
    ensures |st| == 1 ==> Rank(bs, root, h, st) == 0
  {
    assert Last(st).entries[..0] == [];
  }

  /** The block under the current entry, and what can be pushed from it. */
  lemma ChildBlock(bs: Blocks, root: seq<IndexEntry>, h: nat, st: seq<Cursor>)
    requires Path(bs, root, h, st) && |st| <= h
    ensures Here(st).child in bs.index && bs.index[Here(st).child] != []
    ensures var es := bs.index[Here(st).child];
            && es[|es| - 1].endKey == Here(st).endKey
            && forall pos | 0 <= pos < |es| :: Path(bs, root, h, st + [Cursor(es, pos)])
  {
    hide LeavesUnder, Leaves;
    assert Subtree(bs, Here(st), h - (|st| - 1));
    var es := bs.index[Here(st).child];
    forall pos | 0 <= pos < |es|
      ensures Path(bs, root, h, st + [Cursor(es, pos)])
    {
      assert Init(st + [Cursor(es, pos)]) == st;
    }
  }

  lemma PushFirst(bs: Blocks, root: seq<IndexEntry>, h: nat, st: seq<Cursor>)
    requires Path(bs, root, h, st) && |st| <= h
    ensures Here(st).child in bs.index && bs.index[Here(st).child] != []
    ensures var t := st + [Cursor(bs.index[Here(st).child], 0)];
            Path(bs, root, h, t) && Rank(bs, root, h, t) == Rank(bs, root, h, st)
  {
    hide Forest, Leaves, Rank;
    ChildBlock(bs, root, h, st);
    var t := st + [Cursor(bs.index[Here(st).child], 0)];
    assert Init(t) == st;
    StartOfBlock(bs, root, h, t);
  }

  lemma PushLast(bs: Blocks, root: seq<IndexEntry>, h: nat, st: seq<Cursor>)
    requires Path(bs, root, h, st) && |st| <= h
    ensures Here(st).child in bs.index && bs.index[Here(st).child] != []
    ensures var es := bs.index[Here(st).child];
            var t := st + [Cursor(es, |es| - 1)];
            Path(bs, root, h, t) && End(bs, root, h, t) == End(bs, root, h, st)
  {
    hide Forest, Leaves, Rank;
    ChildBlock(bs, root, h, st);
    var es := bs.index[Here(st).child];
    var t := st + [Cursor(es, |es| - 1)];
    assert Init(t) == st;
    EndOfBlock(bs, root, h, t);
  }

  /** A cursor on the root block alone. */
  lemma RootPath(bs: Blocks, root: seq<IndexEntry>, h: nat, pos: nat)
    requires Forest(bs, root, h) && pos < |root|
    ensures Path(bs, root, h, [Cursor(root, pos)])
    ensures pos == 0 ==> Rank(bs, root, h, [Cursor(root, pos)]) == 0
    ensures pos == |root| - 1 ==> End(bs, root, h, [Cursor(root, pos)]) == |Leaves(bs, root, h)|
  {
    hide Forest, Leaves, Rank;
    var st := [Cursor(root, pos)];
    if pos == 0 {
      StartOfBlock(bs, root, h, st);
    }
    if pos == |root| - 1 {
      EndOfBlock(bs, root, h, st);
    }
  }

  // ---- searching ----

  /** `k` is the first leaf whose end key is not below the target. */
  predicate LowerBound(ls: seq<IndexEntry>, target: Key, k: nat) {
    && k <= |ls|
    && (forall j | 0 <= j < k :: Less(ls[j].endKey, target))
    && (k < |ls| ==> AtMost(target, ls[k].endKey))
  }

  /** The leaf just before a cursor ends where the entry before it does. */
  lemma LeafBefore(bs: Blocks, root: seq<IndexEntry>, h: nat, st: seq<Cursor>)
    requires Path(bs, root, h, st) && Last(st).pos > 0
    ensures Forest(bs, root, h) && 0 < Rank(bs, root, h, st) <= |Leaves(bs, root, h)|
    ensures Leaves(bs, root, h)[Rank(bs, root, h, st) - 1].endKey == Last(st).entries[Last(st).pos - 1].endKey
  {
    hide Leaves, LeavesUnder, Subtree, Forest, Rank;
    PrevSibling(bs, root, h, st);
    var t := MoveTo(st, Last(st).pos - 1);
    Located(bs, root, h, t);
    assert |t| == |st| && Here(t) == Last(st).entries[Last(st).pos - 1];
    assert Subtree(bs, Here(t), h - (|t| - 1)) by { PathHere(bs, root, h, t); }
    LeavesUnderEnd(bs, Here(t), h - (|t| - 1));
    var all, r, e := Leaves(bs, root, h), Rank(bs, root, h, t), End(bs, root, h, t);
    assert all[e - 1] == all[r..e][e - 1 - r];
  }

  lemma PathHere(bs: Blocks, root: seq<IndexEntry>, h: nat, st: seq<Cursor>)
    requires Path(bs, root, h, st)
    ensures Subtree(bs, Here(st), h - (|st| - 1))
  {
  }

  /** The blocks on a path are as ascending as the leaves. */
  lemma PathAscends(bs: Blocks, root: seq<IndexEntry>, h: nat, st: seq<Cursor>)
    requires Path(bs, root, h, st) && Forest(bs, root, h) && AscendingEnds(Leaves(bs, root, h))
    ensures AscendingEnds(Last(st).entries)
    decreases |st|
  {
    hide Leaves, LeavesUnder, Subtree, Forest, Rank, Less;
    if |st| > 1 {
      Located(bs, root, h, Init(st));
      ParentUnfolds(bs, root, h, st);
      var all, r := Leaves(bs, root, h), Rank(bs, root, h, Init(st));
      var mine := Under(bs, root, h, Init(st));
      assert forall i | 0 <= i < |mine| :: mine[i] == all[r..End(bs, root, h, Init(st))][i] == all[r + i];
    }
    ParentsAscend(bs, Last(st).entries, h - (|st| - 1));
  }

  /** Everything before the stack is below the target, and the target is not
      beyond the entry the stack is on. */
  ghost predicate Bounded(bs: Blocks, root: seq<IndexEntry>, h: nat, st: seq<Cursor>, target: Key) {
    && Path(bs, root, h, st) && Forest(bs, root, h)
    && Rank(bs, root, h, st) <= |Leaves(bs, root, h)|
    && (forall j | 0 <= j < Rank(bs, root, h, st) :: Less(Leaves(bs, root, h)[j].endKey, target))
    && AtMost(target, Here(st).endKey)
  }

  lemma BoundedHere(bs: Blocks, root: seq<IndexEntry>, h: nat, st: seq<Cursor>, target: Key)
    requires Bounded(bs, root, h, st, target)
    ensures Path(bs, root, h, st) && Forest(bs, root, h) && AtMost(target, Here(st).endKey)
  {
  }

  lemma BoundedAtBottom(bs: Blocks, root: seq<IndexEntry>, h: nat, st: seq<Cursor>, target: Key)
    requires Bounded(bs, root, h, st, target) && |st| == h + 1
    ensures LowerBound(Leaves(bs, root, h), target, Rank(bs, root, h, st))
  {
    AtBottom(bs, root, h, st);
  }

  /** A lower bound inside the last block keeps the bound over all leaves. */
  lemma BoundedByBlock(bs: Blocks, root: seq<IndexEntry>, h: nat, st: seq<Cursor>, target: Key)
    requires Path(bs, root, h, st) && Forest(bs, root, h) && AscendingEnds(Leaves(bs, root, h))
    requires |st| > 1 ==> Bounded(bs, root, h, Init(st), target)
    requires AtMost(target, Here(st).endKey)
    requires Last(st).pos > 0 ==> Less(Last(st).entries[Last(st).pos - 1].endKey, target)
    ensures Bounded(bs, root, h, st, target)
  {
    hide Leaves, LeavesUnder, Subtree, Forest, Rank, Less;
    Located(bs, root, h, st);
    if Last(st).pos == 0 {
      StartOfBlock(bs, root, h, st);
    } else {
      LeafBefore(bs, root, h, st);
      var all, r := Leaves(bs, root, h), Rank(bs, root, h, st);
      forall j | 0 <= j < r
        ensures Less(all[j].endKey, target)
      {
        if j < r - 1 {
          LessTransitive(all[j].endKey, all[r - 1].endKey, target);
        }
      }
    }
  }

  /** A target beyond every root entry is beyond every leaf. */
  lemma BeyondRoot(bs: Blocks, root: seq<IndexEntry>, h: nat, target: Key)
    requires Forest(bs, root, h) && AscendingEnds(Leaves(bs, root, h))
    requires root != [] ==> Less(root[|root| - 1].endKey, target)
    ensures forall j | 0 <= j < |Leaves(bs, root, h)| :: Less(Leaves(bs, root, h)[j].endKey, target)
  {
    hide LeavesUnder, Subtree, Forest, Less;
    if root != [] {
      LeavesEnd(bs, root, h);
      var all := Leaves(bs, root, h);
      forall j | 0 <= j < |all|
        ensures Less(all[j].endKey, target)
      {
        if j < |all| - 1 {
          LessTransitive(all[j].endKey, all[|all| - 1].endKey, target);
        }
      }
    }
  }
}
