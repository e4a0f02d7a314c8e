/** The k-way merge iterator: a heap of positioned sources ordered by key and
    level, for either direction. */
module MergeIter {
  import opened Keys
  import opened BlockBuilders
  import opened Streams
  import opened Runs

  /** What the sources in the heap have to come. */
  function Tos(iters: seq<Source>, heap: set<nat>, d: Dir): (rs: seq<Run>)
    requires forall l | 0 <= l < |iters| :: iters[l].InBlock()
    ensures |rs| == |iters|
    ensures forall l | 0 <= l < |iters| :: rs[l] == if l in heap then iters[l].To(d) else Run([], false)
  {
    seq(|iters|, l requires 0 <= l < |iters| => if l in heap then iters[l].To(d) else Run([], false))
  }

  /** The heap has exactly the sources with something to come. */
  ghost predicate FullHeap(iters: seq<Source>, heap: set<nat>) {
    forall l: nat :: l in heap <==> l < |iters| && iters[l].IsValid()
  }

  function FirstSources(iters: seq<Source>, d: Dir): (r: seq<Source>)
    ensures |r| == |iters| && forall l | 0 <= l < |iters| :: r[l] == iters[l].SeekToFirst(d)
  {
    seq(|iters|, l requires 0 <= l < |iters| => iters[l].SeekToFirst(d))
  }

  /** The sources after a seek, and what each then has to come. */
  function FirstRuns(iters: seq<Source>, d: Dir): (rs: seq<Run>)
    requires forall l | 0 <= l < |iters| :: iters[l].InBlock()
    ensures |rs| == |iters| && forall l | 0 <= l < |iters| :: rs[l] == iters[l].SeekToFirst(d).To(d)
  {
    seq(|iters|, l requires 0 <= l < |iters| => iters[l].SeekToFirst(d).To(d))
  }

  function SoughtRuns(iters: seq<Source>, d: Dir, target: Key): (rs: seq<Run>)
    requires forall l | 0 <= l < |iters| :: iters[l].InBlock()
    ensures |rs| == |iters| && forall l | 0 <= l < |iters| :: rs[l] == iters[l].Seek(d, target).To(d)
  {
    seq(|iters|, l requires 0 <= l < |iters| => iters[l].Seek(d, target).To(d))
  }

  predicate AllSound(iters: seq<Source>) {
    forall l | 0 <= l < |iters| :: iters[l].Sound? && iters[l].st.Ordered()
  }

  function Sts(iters: seq<Source>): (sts: seq<Stream>)
    requires AllSound(iters)
    ensures |sts| == |iters| && forall l | 0 <= l < |iters| :: sts[l] == iters[l].st
  {
    seq(|iters|, l requires 0 <= l < |iters| => iters[l].st)
  }

  lemma FirstSound(iters: seq<Source>, d: Dir)
    requires AllSound(iters)
    ensures MergeRuns(d, FirstRuns(iters, d)) == Run(MergeAll(d, Alls(Sts(iters), d)), false)
  {
    MergeRunsSound(d, FirstRuns(iters, d));
    assert Outs(FirstRuns(iters, d)) == Alls(Sts(iters), d);
  }

  lemma SoughtSound(iters: seq<Source>, d: Dir, target: Key)
    requires AllSound(iters)
    ensures MergeRuns(d, SoughtRuns(iters, d, target)) ==
            Run(DropBefore(d, MergeAll(d, Alls(Sts(iters), d)), target), false)
  {
    hide DropBefore;
    MergeRunsSound(d, SoughtRuns(iters, d, target));
    assert Outs(SoughtRuns(iters, d, target)) == DropAll(d, Alls(Sts(iters), d), target);
    MergeAllDrop(d, Alls(Sts(iters), d), target);
  }

  /** A rebuilt heap has everything the sought sources have to come. */
  lemma FirstBuilt(was: seq<Source>, now: seq<Source>, heap: set<nat>, d: Dir)
    requires |now| == |was| && forall l | 0 <= l < |was| :: was[l].InBlock() && now[l] == was[l].SeekToFirst(d)
    requires forall l: nat :: l in heap <==> l < |now| && now[l].IsValid()
    ensures (forall l | 0 <= l < |now| :: now[l].InBlock()) && Tos(now, heap, d) == FirstRuns(was, d)
  {
    assert forall l | 0 <= l < |now| :: Tos(now, heap, d)[l] == FirstRuns(was, d)[l];
  }

  lemma SoughtBuilt(was: seq<Source>, now: seq<Source>, heap: set<nat>, d: Dir, target: Key)
    requires |now| == |was| && forall l | 0 <= l < |was| :: was[l].InBlock() && now[l] == was[l].Seek(d, target)
    requires forall l: nat :: l in heap <==> l < |now| && now[l].IsValid()
    ensures (forall l | 0 <= l < |now| :: now[l].InBlock()) && Tos(now, heap, d) == SoughtRuns(was, d, target)
  {
    hide DropBefore;
    assert forall l | 0 <= l < |now| :: Tos(now, heap, d)[l] == SoughtRuns(was, d, target)[l];
  }

  /** Moving the sources does not change what they yield in full. */
  lemma SameStreams(was: seq<Source>, now: seq<Source>)
    requires AllSound(was) && |now| == |was|
    requires forall l | 0 <= l < |was| :: now[l].Sound? && now[l].st == was[l].st.(rest := now[l].st.rest)
    ensures AllSound(now) && forall d :: Alls(Sts(now), d) == Alls(Sts(was), d)
    ensures forall rest :: MergeAbs(Sts(now), rest) == MergeAbs(Sts(was), rest)
  {
    hide Sorted;
    assert Alls(Sts(now), Fwd) == Alls(Sts(was), Fwd) && Alls(Sts(now), Rev) == Alls(Sts(was), Rev);
  }

  class MergeIter {
    /** The sources, by level. */
    var iters: seq<Source>

    /** The levels in the heap, and the direction it is ordered for. The other
        sources are set aside until the next seek. */
    var heap: set<nat>
    var dir: Dir

    ghost predicate Valid()
      reads this
    {
      && (forall l | 0 <= l < |iters| :: iters[l].InBlock())
      && (forall l | l in heap :: l < |iters| && iters[l].IsValid())
    }

    /** Every source with something to come is in the heap. */
    ghost predicate Full()
      reads this
    {
      FullHeap(iters, heap)
    }

    /** What is still to come: the stable merge of the sources in the heap. */
    function Output(): (r: Run)
      requires Valid()
      reads this
    {
      MergeRuns(dir, Tos(iters, heap, dir))
    }

    /** Over sources that keep the contract, the merge as an iterator that
        keeps it. */
    function Abs(): (st: Stream)
      requires Valid() && AllSound(iters)
      reads this
      ensures st.Ordered()
    {
      MergeOrdered(Sts(iters));
      MergeAbs(Sts(iters), Output().out)
    }

    constructor (sources: seq<Source>)
      requires forall l | 0 <= l < |sources| :: sources[l].InBlock()
      ensures Valid() && iters == sources && Output() == Run([], false)
    {
      iters, heap, dir := sources, {}, Fwd;
      new;
      MergeRunsHead(dir, Tos(iters, heap, dir));
      MergeRunsSound(dir, Tos(iters, heap, dir));
    }

    predicate IsValid()
      reads this
    {
      heap != {}
    }

    /** Push every valid source; called with all sources positioned. */
    method BuildHeap(d: Dir)
      modifies this`heap, this`dir
      ensures dir == d && forall l: nat :: l in heap <==> l < |iters| && iters[l].IsValid()
    {
      heap, dir := {}, d;
      for l := 0 to |iters|
        invariant dir == d
        invariant forall m: nat :: m in heap <==> m < l && iters[m].IsValid()
      {
        if iters[l].IsValid() { heap := heap + {l}; }
      }
    }

    method SeekEachToFirst(d: Dir)
      modifies this`iters
      ensures |iters| == |old(iters)| && forall l | 0 <= l < |iters| :: iters[l] == old(iters)[l].SeekToFirst(d)
    {
      for l := 0 to |iters|
        invariant |iters| == |old(iters)|
        invariant forall m | 0 <= m < |iters| ::
                    iters[m] == if m < l then old(iters)[m].SeekToFirst(d) else old(iters)[m]
      {
        iters := iters[l := iters[l].SeekToFirst(d)];
      }
    }

    method SeekEachTo(d: Dir, target: Key)
      modifies this`iters
      ensures |iters| == |old(iters)| && forall l | 0 <= l < |iters| :: iters[l] == old(iters)[l].Seek(d, target)
    {
      for l := 0 to |iters|
        invariant |iters| == |old(iters)|
        invariant forall m | 0 <= m < |iters| ::
                    iters[m] == if m < l then old(iters)[m].Seek(d, target) else old(iters)[m]
      {
        iters := iters[l := iters[l].Seek(d, target)];
      }
    }

    method SeekToFirst(d: Dir)
      requires Valid()
      modifies this
      ensures Valid() && Full() && dir == d && |iters| == |old(iters)|
      ensures forall l | 0 <= l < |iters| :: iters[l] == old(iters)[l].SeekToFirst(d)
      ensures Output() == MergeRuns(d, FirstRuns(old(iters), d))
      ensures AllSound(old(iters)) ==> AllSound(iters) && Abs() == old(Abs()).SeekToFirst(d)
    {
      hide MergeRuns, MergeAll, Alls, Sts, Sorted;
      SeekEachToFirst(d);
      BuildHeap(d);
      FirstBuilt(old(iters), iters, heap, d);
      if AllSound(old(iters)) {
        FirstSound(old(iters), d);
        SameStreams(old(iters), iters);
      }
    }

    method Seek(d: Dir, target: Key)
      requires Valid()
      modifies this
      ensures Valid() && Full() && dir == d && |iters| == |old(iters)|
      ensures forall l | 0 <= l < |iters| :: iters[l] == old(iters)[l].Seek(d, target)
      ensures Output() == MergeRuns(d, SoughtRuns(old(iters), d, target))
      ensures AllSound(old(iters)) ==> AllSound(iters) && Abs() == old(Abs()).Seek(d, target)
    {
      hide DropBefore, MergeRuns, MergeAll, Alls, Sts, Sorted;
      SeekEachTo(d, target);
      BuildHeap(d);
      SoughtBuilt(old(iters), iters, heap, d, target);
      if AllSound(old(iters)) {
        SoughtSound(old(iters), d, target);
        SameStreams(old(iters), iters);
      }
    }

    /** The level on top of the heap: the first key, the lower level on a tie. */
    method Top() returns (top: nat)
      requires Valid() && heap != {}
      ensures top in heap && IsBest(dir, Outs(Tos(iters, heap, dir)), top)
    {
      hide KeyBefore, IsBest, Tos, Outs;
      Order(dir);
      var best: int := -1;
      for l := 0 to |iters|
        invariant best == -1 ==> forall m | 0 <= m < l :: m !in heap
        invariant best != -1 ==> 0 <= best < l && best in heap
        invariant best != -1 ==> forall m | 0 <= m < best && m in heap ::
                    KeyBefore(dir, iters[best].Head().key, iters[m].Head().key)
        invariant best != -1 ==> forall m | best < m < l && m in heap ::
                    !KeyBefore(dir, iters[m].Head().key, iters[best].Head().key)
      {
        if l in heap && (best == -1 || KeyBefore(dir, iters[l].Head().key, iters[best].Head().key)) {
          best := l;
        }
      }
      var m :| m in heap;
      top := best;
      BestHead(iters, heap, dir, top);
    }

    method Current() returns (e: Entry)
      requires Valid() && IsValid()
      ensures Output().out != [] && e == Output().out[0]
    {
      var l := Top();
      HeadsAreFirst(iters, heap, dir);
      MergeRunsStep(dir, Tos(iters, heap, dir), l);
      e := iters[l].Head();
    }

    /** Pop the top, advance it and push it back while it has more. A call in
        the direction the heap is not ordered for does nothing. `l` is the level
        advanced; `ok` says that advancing it was not an index out of range. */
    method Next(d: Dir) returns (ok: bool, ghost l: nat)
      requires Valid()
      modifies this`iters, this`heap
      ensures d != dir || !old(IsValid()) ==> ok && iters == old(iters) && heap == old(heap)
      ensures d == dir && old(IsValid()) ==>
                && old(Output()).out != [] && (ok <==> !old(Output()).Tail().Broken())
                && l < |old(iters)| && old(iters)[l].IsValid() && old(iters)[l].InBlock()
                && old(iters)[l].Head() == old(Output()).out[0] && (ok <==> !old(iters)[l].Breaks(d))
                && (ok ==> Valid() && iters == old(iters)[l := old(iters)[l].Next(d)] && Output() == old(Output()).Tail())
      ensures ok ==> Valid() && (old(Full()) ==> Full())
      ensures ok && d == dir && AllSound(old(iters)) ==> AllSound(iters) && Abs() == old(Abs()).Next()
    {
      hide MergeRuns, MergeAll, Alls, Sts;
      ValidIffOutput();
      ok, l := true, 0;
      if d == dir && heap != {} {
        ok, l := PopAndPush();
        if ok && AllSound(old(iters)) { SameStreams(old(iters), iters); }
      }
    }

    method PopAndPush() returns (ok: bool, ghost l: nat)
      requires Valid() && heap != {}
      modifies this`iters, this`heap
      ensures old(Output()).out != [] && (ok <==> !old(Output()).Tail().Broken())
      ensures && l < |old(iters)| && old(iters)[l].IsValid() && old(iters)[l].InBlock()
              && old(iters)[l].Head() == old(Output()).out[0] && (ok <==> !old(iters)[l].Breaks(dir))
      ensures ok ==> Valid() && iters == old(iters)[l := old(iters)[l].Next(dir)] && Output() == old(Output()).Tail()
      ensures !ok ==> iters == old(iters) && heap == old(heap)
      ensures old(Full()) ==> Full()
    {
      hide MergeRuns, IsBest;
      var top := Top();
      l := top;
      PopStep(iters, heap, dir, top);
      ok := !iters[top].Breaks(dir);
      if ok {
        iters := iters[top := iters[top].Next(dir)];
        if !iters[top].IsValid() { heap := heap - {top}; }
      }
    }

    /** Invalid exactly when nothing is to come. */
    lemma ValidIffOutput()
      requires Valid()
      ensures IsValid() <==> Output().out != []
      ensures !Output().Broken()
    {
      HeadsAreFirst(iters, heap, dir);
      MergeRunsHead(dir, Tos(iters, heap, dir));
      if l :| l in heap { assert Tos(iters, heap, dir)[l].out != []; }
    }
  }

  /** Heads are the first to come, and nothing in the heap is broken. */
  lemma HeadsAreFirst(iters: seq<Source>, heap: set<nat>, d: Dir)
    requires forall l | 0 <= l < |iters| :: iters[l].InBlock()
    requires forall l | l in heap :: l < |iters| && iters[l].IsValid()
    ensures Intact(Tos(iters, heap, d))
    ensures forall l | l in heap :: Tos(iters, heap, d)[l].out != [] && iters[l].Head() == Tos(iters, heap, d)[l].out[0]
  {
    forall l | 0 <= l < |iters|
      ensures !Tos(iters, heap, d)[l].Broken()
      ensures l in heap ==> Tos(iters, heap, d)[l].out != [] && iters[l].Head() == Tos(iters, heap, d)[l].out[0]
    {
      SourceMoves(iters[l], d);
    }
  }

  /** Advancing the best source drops the head of the merge, or breaks off just
      when the merge does. */
  /** The first least head. */
  lemma BestHead(iters: seq<Source>, heap: set<nat>, d: Dir, top: nat)
    requires forall l | 0 <= l < |iters| :: iters[l].InBlock()
    requires forall l | l in heap :: l < |iters| && iters[l].IsValid()
    requires top in heap
    requires forall m | 0 <= m < top && m in heap :: KeyBefore(d, iters[top].Head().key, iters[m].Head().key)
    requires forall m | top < m < |iters| && m in heap :: !KeyBefore(d, iters[m].Head().key, iters[top].Head().key)
    ensures IsBest(d, Outs(Tos(iters, heap, d)), top)
  {
    hide KeyBefore;
    HeadsAreFirst(iters, heap, d);
  }

  lemma PopStep(iters: seq<Source>, heap: set<nat>, d: Dir, top: nat)
    requires forall l | 0 <= l < |iters| :: iters[l].InBlock()
    requires forall l | l in heap :: l < |iters| && iters[l].IsValid()
    requires top in heap && IsBest(d, Outs(Tos(iters, heap, d)), top)
    ensures var all := MergeRuns(d, Tos(iters, heap, d));
            && all.out != [] && all.out[0] == iters[top].Head() && (all.Tail().Broken() <==> iters[top].Breaks(d))
            && (!iters[top].Breaks(d) ==>
                  var src := iters[top].Next(d);
                  && src.InBlock()
                  && MergeRuns(d, Tos(iters[top := src], if src.IsValid() then heap else heap - {top}, d)) == all.Tail())
  {
    hide MergeRuns, KeyBefore;
    var rs := Tos(iters, heap, d);
    var rs' := rs[top := rs[top].Tail()];
    HeadsAreFirst(iters, heap, d);
    MergeRunsStep(d, rs, top);
    SourceMoves(iters[top], d);
    MergeRunsHead(d, rs');
    assert forall l | 0 <= l < |rs| && l != top :: !rs'[l].Broken();
    assert rs'[top] == rs[top].Tail();
    assert Intact(rs') <==> !iters[top].Breaks(d);
    if !iters[top].Breaks(d) { PopTos(iters, heap, d, top); }
  }

  lemma PopTos(iters: seq<Source>, heap: set<nat>, d: Dir, top: nat)
    requires forall l | 0 <= l < |iters| :: iters[l].InBlock()
    requires forall l | l in heap :: l < |iters| && iters[l].IsValid()
    requires top in heap && !iters[top].Breaks(d)
    ensures iters[top].Next(d).InBlock() && iters[top].To(d).out != []
    ensures var src, rs := iters[top].Next(d), Tos(iters, heap, d);
            Tos(iters[top := src], if src.IsValid() then heap else heap - {top}, d) == rs[top := rs[top].Tail()]
  {
    SourceMoves(iters[top], d);
    var src := iters[top].Next(d);
    SourceMoves(src, d);
  }
}
