/** A range scan over the composed iterator of a shard, from building the
    iterator to its last entry, whatever the heights of the SSTs below. */
module ShardScan {
  import opened Keys
  import opened BlockBuilders
  import opened Streams
  import opened Runs
  import opened MergeIter
  import opened ShardIter
  import opened RangeScan

  /** A scan yields entries, or is stopped by an index out of range. */
  datatype Outcome = Yields(out: seq<Entry>) | OutOfRange

  predicate AllBeforeEnd(d: Dir, s: seq<Entry>, end: Bound) {
    forall i | 0 <= i < |s| :: BeforeEnd(d, end, s[i].key)
  }

  /** Reading a run up to the far bound: stopped if it breaks off before. */
  function Ranged(d: Dir, r: Run, end: Bound): (o: Outcome) {
    if r.breaks && AllBeforeEnd(d, r.out, end) then OutOfRange else Yields(Within(d, r.out, Unbounded, end))
  }

  /** The tables whose iterators can be sought again. */
  function SoundTables(srcs: seq<Source>, d: Dir): (ss: seq<seq<Entry>>)
    ensures |ss| == |srcs|
    ensures forall l | 0 <= l < |srcs| :: ss[l] == if srcs[l].Sound? then srcs[l].st.All(d) else []
  {
    seq(|srcs|, l requires 0 <= l < |srcs| => if srcs[l].Sound? then srcs[l].st.All(d) else [])
  }

  /** The sources once the iterator is built. */
  function OpenedSources(mems: seq<Stream>, srcs: seq<Source>): (r: seq<Source>)
    requires forall l | 0 <= l < |srcs| :: srcs[l].InBlock()
    ensures |r| == |srcs|
  {
    Passed(FirstSources(srcs, Fwd), Fwd, MergeAll(Fwd, Alls(mems, Fwd)), MergeRuns(Fwd, FirstRuns(srcs, Fwd)).out)
  }

  /** Building the iterator already reads past the first block of an SST: its
      only key is also the first key of a memtable, and passed over. */
  predicate OpenStops(mems: seq<Stream>, srcs: seq<Source>)
    requires forall l | 0 <= l < |srcs| :: srcs[l].InBlock()
  {
    OverlayRun(Fwd, MergeAll(Fwd, Alls(mems, Fwd)), MergeRuns(Fwd, FirstRuns(srcs, Fwd))).Broken()
  }

  /** What a scan does. Building the iterator may already be stopped. Sought
      with a target only the sound tables are left; without one the others
      follow their course. */
  function ScanOutcome(mems: seq<Stream>, srcs: seq<Source>, d: Dir, start: Bound, end: Bound): (o: Outcome)
    requires forall l | 0 <= l < |srcs| :: srcs[l].InBlock()
  {
    var a := MergeAll(d, Alls(mems, d));
    if OpenStops(mems, srcs) then OutOfRange
    else if start == Unbounded then
      OpenedInBlock(mems, srcs);
      Ranged(d, OverlayRun(d, a, MergeRuns(d, FirstRuns(OpenedSources(mems, srcs), d))), end)
    else Yields(Within(d, Overlay(d, a, MergeAll(d, SoundTables(srcs, d))), start, end))
  }

  lemma OpenedInBlock(mems: seq<Stream>, srcs: seq<Source>)
    requires forall l | 0 <= l < |srcs| :: srcs[l].InBlock()
    ensures forall l | 0 <= l < |srcs| :: OpenedSources(mems, srcs)[l].InBlock()
    ensures forall l | 0 <= l < |srcs| :: srcs[l].Sound? ==>
              OpenedSources(mems, srcs)[l].Sound? && OpenedSources(mems, srcs)[l].st.fwd == srcs[l].st.fwd &&
              OpenedSources(mems, srcs)[l].st.rev == srcs[l].st.rev
    ensures forall l | 0 <= l < |srcs| :: srcs[l].Stuck? ==>
              OpenedSources(mems, srcs)[l].Stuck? && (srcs[l].at.Some? ==> OpenedSources(mems, srcs)[l].at.Some?)
  {
    hide MergeAll, MergeRuns;
    forall l | 0 <= l < |srcs|
      ensures OpenedSources(mems, srcs)[l].InBlock()
    {
      var src := srcs[l].SeekToFirst(Fwd);
      if src.IsValid() && !src.Breaks(Fwd) { SourceMoves(src, Fwd); }
    }
  }

  /** A run that keeps going, cut at the far bound. */
  lemma RangedSound(d: Dir, s: seq<Entry>, end: Bound)
    ensures Ranged(d, Run(s, false), end) == Yields(Within(d, s, Unbounded, end))
  {
  }

  /** Reading the first entry of a run, in or out of range. */
  lemma RangedStep(d: Dir, r: Run, end: Bound)
    requires Sorted(d, r.out) && r.out != []
    ensures !BeforeEnd(d, end, r.out[0].key) ==> Ranged(d, r, end) == Yields([])
    ensures BeforeEnd(d, end, r.out[0].key) ==> Sorted(d, r.Tail().out)
    ensures BeforeEnd(d, end, r.out[0].key) ==>
              Ranged(d, r, end) == match Ranged(d, r.Tail(), end)
                                   case OutOfRange => OutOfRange
                                   case Yields(out) => Yields([r.out[0]] + out)
  {
    hide KeyBefore, BeforeEnd;
    if !BeforeEnd(d, end, r.out[0].key) {
      WithinPastEnd(d, r.out, Unbounded, end);
    } else {
      assert AllBeforeEnd(d, r.out, end) <==> AllBeforeEnd(d, r.Tail().out, end) by {
        assert forall i | 1 <= i < |r.out| :: r.out[i] == r.Tail().out[i - 1];
        assert forall i | 0 <= i < |r.out| - 1 :: r.Tail().out[i] == r.out[i + 1];
      }
    }
  }

  function Prefixed(s: seq<Entry>, o: Outcome): Outcome {
    match o
    case OutOfRange => OutOfRange
    case Yields(out) => Yields(s + out)
  }

  /** Read the iterator up to the far bound. */
  method Collect(it: ShardIter, d: Dir, end: Bound) returns (o: Outcome)
    requires it.Valid() && it.dir == d && Sorted(d, it.Ahead().out)
    modifies it, it.a, it.b
    ensures o == Ranged(d, old(it.Ahead()), end)
  {
    hide KeyBefore, BeforeEnd, Within, Sorted, Ranged, ShardIter.Ahead;
    var out: seq<Entry> := [];
    while true
      invariant it.Valid() && it.dir == d && Sorted(d, it.Ahead().out)
      invariant Ranged(d, old(it.Ahead()), end) == Prefixed(out, Ranged(d, it.Ahead(), end))
      decreases |it.Ahead().out|
    {
      it.TakesChoice();
      if it.current.None? {
        RangedEmpty(d, it.Ahead(), end);
        return Yields(out);
      }
      var e := it.Current();
      ghost var was := it.Ahead();
      RangedStep(d, was, end);
      if !BeforeEnd(d, end, e.key) { return Yields(out); }
      var ok := it.Next(d);
      if !ok {
        RangedBroken(d, was.Tail(), end);
        return OutOfRange;
      }
      out := out + [e];
    }
  }

  lemma RangedEmpty(d: Dir, r: Run, end: Bound)
    requires r.out == [] && !r.Broken()
    ensures Ranged(d, r, end) == Yields([])
  {
  }

  lemma RangedBroken(d: Dir, r: Run, end: Bound)
    requires r.Broken()
    ensures Ranged(d, r, end) == OutOfRange
  {
  }

  // ---- the whole scan ----

  /** Sorted in whichever direction it moves. */
  predicate SourceOrdered(src: Source) {
    src.InBlock() && if src.Sound? then src.st.Ordered() else Sorted(Fwd, src.block)
  }

  predicate AllOrdered(srcs: seq<Source>) {
    forall l | 0 <= l < |srcs| :: srcs[l].InBlock() && SourceOrdered(srcs[l])
  }

  lemma OrderedTo(src: Source, d: Dir)
    requires SourceOrdered(src)
    ensures Sorted(d, src.SeekToFirst(d).To(d).out)
  {
    hide Less;
    if src.Stuck? && src.at.Some? && d == Rev {
      var s := src.block[..src.at.value + 1];
      assert forall i, j | 0 <= i < j < |s| :: !Less(s[j].key, s[i].key);
      var t := Reversed(s);
      forall i, j | 0 <= i < j < |t|
        ensures !KeyBefore(Rev, t[j].key, t[i].key)
      {
        assert t[i] == s[|s| - 1 - i] && t[j] == s[|s| - 1 - j];
      }
    }
  }

  /** After a seek with a target only the sound tables are left, from the
      target on. */
  lemma BoundedAhead(mems: seq<Stream>, srcs: seq<Source>, d: Dir, target: Key)
    requires forall i | 0 <= i < |mems| :: mems[i].Ordered()
    requires AllOrdered(srcs)
    ensures var all := Overlay(d, MergeAll(d, Alls(mems, d)), MergeAll(d, SoundTables(srcs, d)));
            && Sorted(d, all)
            && OverlayRun(d, DropBefore(d, MergeAll(d, Alls(mems, d)), target), MergeRuns(d, SoughtRuns(srcs, d, target)))
               == Run(DropBefore(d, all, target), false)
  {
    hide Sorted, KeyBefore, DropBefore, MergeAll, MergeRuns, OverlayRun, Overlay, Versions;
    var ss, rs := SoundTables(srcs, d), SoughtRuns(srcs, d, target);
    var a, b := MergeAll(d, Alls(mems, d)), MergeAll(d, ss);
    MergeRunsSound(d, rs);
    assert Outs(rs) == DropAll(d, ss, target) by { DropNothing(d, target); }
    SortedEmpty(d);
    MergeAllDrop(d, ss, target);
    MergeAllSorted(d, Alls(mems, d));
    MergeAllSorted(d, ss);
    DropVersions(d, a, target, []);
    DropVersions(d, b, target, []);
    OverlayRunSound(d, DropBefore(d, a, target), DropBefore(d, b, target));
    OverlayDrop(d, a, b, target);
    OverlaySorted(d, a, b);
  }

  lemma DropNothing(d: Dir, target: Key)
    ensures DropBefore(d, [], target) == []
  {
  }

  /** Pass over the entries with an excluded key. */
  method SkipExcluded(it: ShardIter, d: Dir, k: Key, ghost end: Bound)
    requires it.Valid() && it.dir == d && Sorted(d, it.Ahead().out) && !it.Ahead().breaks
    requires it.Ahead().out != [] ==> !KeyBefore(d, it.Ahead().out[0].key, k)
    modifies it, it.a, it.b
    ensures it.Valid() && it.dir == d && Sorted(d, it.Ahead().out) && !it.Ahead().breaks
    ensures Within(d, it.Ahead().out, Unbounded, end) == Within(d, old(it.Ahead()).out, Excluded(k), end)
  {
    hide KeyBefore, BeforeEnd, ShardIter.Ahead;
    Order(d);
    while true
      invariant it.Valid() && it.dir == d && Sorted(d, it.Ahead().out) && !it.Ahead().breaks
      invariant it.Ahead().out != [] ==> !KeyBefore(d, it.Ahead().out[0].key, k)
      invariant Within(d, it.Ahead().out, Excluded(k), end) == Within(d, old(it.Ahead()).out, Excluded(k), end)
      decreases |it.Ahead().out|
    {
      it.TakesChoice();
      if it.current.None? { break; }
      var e := it.Current();
      if e.key != k { break; }
      ghost var s := it.Ahead().out;
      assert Within(d, s, Excluded(k), end) == [] + Within(d, s[1..], Excluded(k), end);
      var ok := it.Next(d);
    }
    WithinStarted(d, it.Ahead().out, Excluded(k), end);
  }

  /** Opening moves no source out of order, and changes no sound table. */
  lemma OpenedOrdered(mems: seq<Stream>, srcs: seq<Source>, d: Dir)
    requires AllOrdered(srcs)
    ensures AllOrdered(OpenedSources(mems, srcs)) && SoundTables(OpenedSources(mems, srcs), d) == SoundTables(srcs, d)
  {
    hide MergeAll, MergeRuns, Sorted;
    OpenedInBlock(mems, srcs);
    forall l | 0 <= l < |srcs|
      ensures SourceOrdered(OpenedSources(mems, srcs)[l])
    {
      assert SourceOrdered(srcs[l]);
    }
  }

  lemma UnboundedAhead(mems: seq<Stream>, srcs: seq<Source>, d: Dir)
    requires forall i | 0 <= i < |mems| :: mems[i].Ordered()
    requires AllOrdered(srcs)
    ensures Sorted(d, OverlayRun(d, MergeAll(d, Alls(mems, d)), MergeRuns(d, FirstRuns(srcs, d))).out)
  {
    hide Sorted, MergeAll, MergeRuns, OverlayRun;
    forall l | 0 <= l < |srcs|
      ensures Sorted(d, FirstRuns(srcs, d)[l].out)
    {
      OrderedTo(srcs[l], d);
    }
    MergeRunsSorted(d, FirstRuns(srcs, d));
    MergeAllSorted(d, Alls(mems, d));
    OverlayRunSorted(d, MergeAll(d, Alls(mems, d)), MergeRuns(d, FirstRuns(srcs, d)));
  }

  /** The built iterator of a scan. */
  ghost predicate Built(it: ShardIter, mems: seq<Stream>, srcs: seq<Source>)
    reads it, it.a, it.b
  {
    && it.a != it.b && it.a.Valid() && it.b.Valid() && AllSound(it.a.iters)
    && (forall d :: Alls(Sts(it.a.iters), d) == Alls(mems, d)) && it.b.iters == srcs
  }

  method ScanOpen(it: ShardIter, d: Dir, end: Bound, ghost mems: seq<Stream>, ghost srcs: seq<Source>) returns (o: Outcome)
    requires Built(it, mems, srcs) && AllOrdered(srcs) && forall i | 0 <= i < |mems| :: mems[i].Ordered()
    modifies it, it.a, it.b
    ensures o == Ranged(d, OverlayRun(d, MergeAll(d, Alls(mems, d)), MergeRuns(d, FirstRuns(srcs, d))), end)
  {
    hide KeyBefore, BeforeEnd, Within, Sorted, Ranged, MergeAll, MergeRuns, OverlayRun;
    UnboundedAhead(mems, srcs, d);
    var ok := it.SeekToFirst(d);
    if !ok {
      RangedBroken(d, OverlayRun(d, MergeAll(d, Alls(mems, d)), MergeRuns(d, FirstRuns(srcs, d))), end);
      return OutOfRange;
    }
    o := Collect(it, d, end);
  }

  method ScanBounded(it: ShardIter, d: Dir, start: Bound, end: Bound, ghost mems: seq<Stream>, ghost srcs: seq<Source>)
    returns (o: Outcome)
    requires Built(it, mems, srcs) && AllOrdered(srcs) && forall i | 0 <= i < |mems| :: mems[i].Ordered()
    requires start != Unbounded
    modifies it, it.a, it.b
    ensures o == Yields(Within(d, Overlay(d, MergeAll(d, Alls(mems, d)), MergeAll(d, SoundTables(srcs, d))), start, end))
  {
    hide KeyBefore, BeforeEnd, Within, Sorted, Ranged, MergeAll, MergeRuns, OverlayRun, Overlay, DropBefore;
    ghost var all := Overlay(d, MergeAll(d, Alls(mems, d)), MergeAll(d, SoundTables(srcs, d)));
    BoundedAhead(mems, srcs, d, start.key);
    SoughtWithin(d, all, start, end);
    var ok := it.Seek(d, start.key);
    if start.Excluded? { SkipExcluded(it, d, start.key, end); }
    RangedSound(d, it.Ahead().out, end);
    assert it.Ahead() == Run(it.Ahead().out, false);
    o := Collect(it, d, end);
  }

  /** A scan, from building the iterator on. */
  method Scan(mems: seq<Stream>, srcs: seq<Source>, d: Dir, start: Bound, end: Bound) returns (o: Outcome)
    requires forall i | 0 <= i < |mems| :: mems[i].Ordered()
    requires AllOrdered(srcs) && Strict(FirstSources(srcs, Fwd), Fwd)
    ensures o == ScanOutcome(mems, srcs, d, start, end)
  {
    hide KeyBefore, BeforeEnd, Within, Sorted, Ranged, Strict, Passed, MergeAll, MergeRuns, OverlayRun, Overlay;
    hide DropBefore;
    hide SourceOrdered;
    var it := new ShardIter(mems, srcs);
    forall e
      ensures Alls(Sts(it.a.iters), e) == Alls(mems, e)
    {
      assert forall i | 0 <= i < |mems| :: Sts(it.a.iters)[i] == mems[i];
    }
    var ok := it.SeekToFirst(Fwd);
    if !ok { return OutOfRange; }
    ghost var moved := OpenedSources(mems, srcs);
    OpenedInBlock(mems, srcs);
    OpenedOrdered(mems, srcs, d);
    if start == Unbounded {
      o := ScanOpen(it, d, end, mems, moved);
    } else {
      o := ScanBounded(it, d, start, end, mems, moved);
    }
  }

  // ---- scans of sound and of stuck sources ----

  predicate NoneStuck(srcs: seq<Source>) {
    forall l | 0 <= l < |srcs| :: srcs[l].Sound?
  }

  lemma SoundAhead(mems: seq<Stream>, srcs: seq<Source>, d: Dir)
    requires AllOrdered(srcs) && NoneStuck(srcs) && forall i | 0 <= i < |mems| :: mems[i].Ordered()
    ensures OverlayRun(d, MergeAll(d, Alls(mems, d)), MergeRuns(d, FirstRuns(srcs, d))) ==
            Run(Overlay(d, MergeAll(d, Alls(mems, d)), MergeAll(d, SoundTables(srcs, d))), false)
  {
    hide Sorted, MergeAll, MergeRuns, OverlayRun, Overlay;
    MergeRunsSound(d, FirstRuns(srcs, d));
    assert Outs(FirstRuns(srcs, d)) == SoundTables(srcs, d);
    MergeAllSorted(d, Alls(mems, d));
    MergeAllSorted(d, SoundTables(srcs, d));
    OverlayRunSound(d, MergeAll(d, Alls(mems, d)), MergeAll(d, SoundTables(srcs, d)));
  }

  /** With every source sound a scan yields the merge within the bounds. */
  lemma SoundScan(mems: seq<Stream>, srcs: seq<Source>, d: Dir, start: Bound, end: Bound)
    requires AllOrdered(srcs) && NoneStuck(srcs) && forall i | 0 <= i < |mems| :: mems[i].Ordered()
    ensures ScanOutcome(mems, srcs, d, start, end) ==
            Yields(Within(d, Overlay(d, MergeAll(d, Alls(mems, d)), MergeAll(d, SoundTables(srcs, d))), start, end))
  {
    hide KeyBefore, BeforeEnd, Within, Sorted, Ranged, Passed, MergeAll, MergeRuns, OverlayRun, Overlay, SourceOrdered;
    SoundAhead(mems, srcs, Fwd);
    OpenedInBlock(mems, srcs);
    OpenedOrdered(mems, srcs, d);
    SoundAhead(mems, OpenedSources(mems, srcs), d);
    RangedSound(d, Overlay(d, MergeAll(d, Alls(mems, d)), MergeAll(d, SoundTables(srcs, d))), end);
  }

  /** With a stuck one on an entry, a scan without bounds is always stopped. */
  lemma StuckScan(mems: seq<Stream>, srcs: seq<Source>, d: Dir, l: nat)
    requires forall i | 0 <= i < |srcs| :: srcs[i].InBlock()
    requires l < |srcs| && srcs[l].Stuck? && srcs[l].at.Some?
    ensures ScanOutcome(mems, srcs, d, Unbounded, Unbounded) == OutOfRange
  {
    hide Passed, MergeAll, MergeRuns, OverlayRun;
    OpenedInBlock(mems, srcs);
    var now := OpenedSources(mems, srcs);
    assert FirstRuns(now, d)[l].breaks;
    MergeRunsBreak(d, FirstRuns(now, d));
    OverlayRunBreaks(d, MergeAll(d, Alls(mems, d)), MergeRuns(d, FirstRuns(now, d)));
  }

  /** Building the iterator is stopped exactly when a stuck source on the last
      entry of its block is on the first key of the memtables, and none is on
      an earlier key. */
  lemma OpenStopsIff(mems: seq<Stream>, srcs: seq<Source>)
    requires AllOrdered(srcs) && Strict(FirstSources(srcs, Fwd), Fwd)
    ensures var a, now := MergeAll(Fwd, Alls(mems, Fwd)), FirstSources(srcs, Fwd);
            OpenStops(mems, srcs) <==>
            && a != []
            && (exists l | 0 <= l < |srcs| :: now[l].Breaks(Fwd) && now[l].InBlock() && now[l].Head().key == a[0].key)
            && (forall l | 0 <= l < |srcs| && now[l].IsValid() :: now[l].InBlock() && !KeyBefore(Fwd, now[l].Head().key, a[0].key))
  {
    hide KeyBefore, Sorted, Rises, MergeAll, MergeRuns, OverlayRun, EndsIn, Less;
    var a, now, rs := MergeAll(Fwd, Alls(mems, Fwd)), FirstSources(srcs, Fwd), FirstRuns(srcs, Fwd);
    forall l | 0 <= l < |srcs|
      ensures rs[l] == now[l].To(Fwd) && !rs[l].Broken() && Sorted(Fwd, rs[l].out)
      ensures now[l].IsValid() <==> rs[l].out != []
      ensures now[l].IsValid() ==> now[l].Head() == rs[l].out[0]
      ensures a != [] ==> (EndsIn(rs[l], a[0].key) <==> now[l].Breaks(Fwd) && now[l].Head().key == a[0].key)
    {
      SourceMoves(now[l], Fwd);
      OrderedTo(srcs[l], Fwd);
      if a != [] { BreaksIn(now[l], a[0].key); }
    }
    MergeRunsHead(Fwd, rs);
    if a != [] { MergeRunsEnd(Fwd, rs, a[0].key); }
    OverlayRunEnds(Fwd, a, MergeRuns(Fwd, rs));
  }

  lemma BreaksIn(src: Source, k: Key)
    requires src.InBlock() && Rises(Fwd, src.To(Fwd).out)
    ensures EndsIn(src.To(Fwd), k) <==> src.Breaks(Fwd) && src.Head().key == k
  {
    hide KeyBefore;
    Order(Fwd);
    SourceMoves(src, Fwd);
    var out := src.To(Fwd).out;
    if |out| > 1 { assert KeyBefore(Fwd, out[0].key, out[1].key); }
  }
}
