/** Scans with a far bound over sources that break off: what lies past the bound
    decides whether such a scan is stopped, and nothing else is missing. */
module ScanToBound {
  import opened Keys
  import opened BlockBuilders
  import opened Streams
  import opened Runs
  import opened MergeIter
  import opened ShardIter
  import opened RangeScan
  import opened ShardScan

  /** From the first entry past the far bound on. */
  function PastEnd(d: Dir, s: seq<Entry>, end: Bound): (r: seq<Entry>)
    decreases |s|
  {
    if s == [] || !BeforeEnd(d, end, s[0].key) then s else PastEnd(d, s[1..], end)
  }

  function PastRun(d: Dir, r: Run, end: Bound): Run {
    Run(PastEnd(d, r.out, end), r.breaks)
  }

  function PastRuns(d: Dir, rs: seq<Run>, end: Bound): (ps: seq<Run>)
    ensures |ps| == |rs| && forall i | 0 <= i < |rs| :: ps[i] == PastRun(d, rs[i], end)
  {
    seq(|rs|, i requires 0 <= i < |rs| => PastRun(d, rs[i], end))
  }

  lemma {:induction false} PastIs(d: Dir, s: seq<Entry>, end: Bound)
    ensures PastEnd(d, s, end) == [] <==> AllBeforeEnd(d, s, end)
    ensures PastEnd(d, s, end) != [] ==> !BeforeEnd(d, end, PastEnd(d, s, end)[0].key)
    ensures |PastEnd(d, s, end)| <= |s| && PastEnd(d, s, end) == s[|s| - |PastEnd(d, s, end)|..]
    decreases |s|
  {
    hide BeforeEnd;
    if s != [] && BeforeEnd(d, end, s[0].key) {
      PastIs(d, s[1..], end);
      assert forall i | 1 <= i < |s| :: s[i] == s[1..][i - 1];
    }
  }

  lemma PastSorted(d: Dir, s: seq<Entry>, end: Bound)
    requires Sorted(d, s)
    ensures Sorted(d, PastEnd(d, s, end))
  {
    hide KeyBefore;
    PastIs(d, s, end);
  }

  /** What is not before a key past the bound is past it too. */
  lemma StaysPast(d: Dir, end: Bound, a: Key, b: Key)
    requires !BeforeEnd(d, end, a) && !KeyBefore(d, b, a)
    ensures !BeforeEnd(d, end, b)
  {
    hide KeyBefore;
    match end
    case Included(e) => BeforeChain(d, e, a, b);
    case Excluded(e) => NotBeforeChain(d, e, a, b);
    case Unbounded =>
  }

  /** Nothing is dropped when the first entry is past the bound, */
  lemma AllPast(d: Dir, r: Run, end: Bound)
    requires r.out == [] || !BeforeEnd(d, end, r.out[0].key)
    ensures PastRun(d, r, end) == r
  {
  }

  /** and the first is when it is not. */
  lemma FirstDropped(d: Dir, r: Run, end: Bound)
    requires r.out != [] && BeforeEnd(d, end, r.out[0].key)
    ensures PastRun(d, r, end) == PastRun(d, r.Tail(), end)
  {
  }

  lemma {:induction false} PastMerge(d: Dir, a: Run, b: Run, end: Bound)
    ensures PastRun(d, MergeRun(d, a, b), end) == MergeRun(d, PastRun(d, a, end), PastRun(d, b, end))
    decreases |a.out| + |b.out|
  {
    hide KeyBefore, BeforeEnd, PastRun;
    if a.Broken() || b.Broken() || a.out == [] || b.out == [] {
      PastMergeEnd(d, a, b, end);
    } else {
      var m := MergeRun(d, a, b);
      if !BeforeEnd(d, end, m.out[0].key) {
        MergePast(d, a, b, end);
      } else {
        FirstDropped(d, m, end);
        if KeyBefore(d, b.out[0].key, a.out[0].key) {
          PastMerge(d, a, b.Tail(), end);
          FirstDropped(d, b, end);
        } else {
          PastMerge(d, a.Tail(), b, end);
          FirstDropped(d, a, end);
        }
      }
    }
  }

  lemma PastMergeEnd(d: Dir, a: Run, b: Run, end: Bound)
    requires a.Broken() || b.Broken() || a.out == [] || b.out == []
    ensures PastRun(d, MergeRun(d, a, b), end) == MergeRun(d, PastRun(d, a, end), PastRun(d, b, end))
  {
    hide KeyBefore, BeforeEnd;
  }

  /** Both start past the bound. */
  lemma MergePast(d: Dir, a: Run, b: Run, end: Bound)
    requires a.out != [] && b.out != [] && MergeRun(d, a, b).out != [] && !BeforeEnd(d, end, MergeRun(d, a, b).out[0].key)
    ensures PastRun(d, MergeRun(d, a, b), end) == MergeRun(d, PastRun(d, a, end), PastRun(d, b, end))
  {
    hide KeyBefore, BeforeEnd;
    Order(d);
    if KeyBefore(d, b.out[0].key, a.out[0].key) {
      StaysPast(d, end, b.out[0].key, a.out[0].key);
    } else {
      StaysPast(d, end, a.out[0].key, b.out[0].key);
    }
    AllPast(d, a, end);
    AllPast(d, b, end);
    AllPast(d, MergeRun(d, a, b), end);
  }

  lemma {:induction false} PastMerges(d: Dir, rs: seq<Run>, end: Bound)
    ensures PastRun(d, MergeRuns(d, rs), end) == MergeRuns(d, PastRuns(d, rs, end))
    decreases |rs|
  {
    if rs != [] {
      PastMerges(d, rs[1..], end);
      PastMerge(d, rs[0], MergeRuns(d, rs[1..]), end);
      assert PastRuns(d, rs, end)[1..] == PastRuns(d, rs[1..], end);
    }
  }

  /** It breaks off before the far bound. */
  predicate Cut(d: Dir, r: Run, end: Bound) {
    r.breaks && AllBeforeEnd(d, r.out, end)
  }

  /** Past the bound an overlay is the overlay of what is past it. */
  lemma {:induction false} PastOverlay(d: Dir, a: seq<Entry>, b: Run, end: Bound)
    requires Sorted(d, a) && Sorted(d, b.out)
    ensures PastRun(d, OverlayRun(d, a, b), end) == OverlayRun(d, PastEnd(d, a, end), PastRun(d, b, end))
    decreases |a| + |b.out|
  {
    hide KeyBefore, BeforeEnd;
    if !b.Broken() && a != [] && b.out != [] {
      var first := if KeyBefore(d, b.out[0].key, a[0].key) then b.out[0].key else a[0].key;
      if !BeforeEnd(d, end, first) {
        OverlayPast(d, a, b, end);
      } else if a[0].key == b.out[0].key || KeyBefore(d, b.out[0].key, a[0].key) {
        PastOverlay(d, a, b.Tail(), end);
      } else {
        PastOverlay(d, a[1..], b, end);
      }
    }
  }

  /** Both start past the bound. */
  lemma OverlayPast(d: Dir, a: seq<Entry>, b: Run, end: Bound)
    requires Sorted(d, a) && Sorted(d, b.out) && a != [] && b.out != []
    requires !BeforeEnd(d, end, if KeyBefore(d, b.out[0].key, a[0].key) then b.out[0].key else a[0].key)
    ensures PastRun(d, OverlayRun(d, a, b), end) == OverlayRun(d, PastEnd(d, a, end), PastRun(d, b, end))
  {
    hide KeyBefore, BeforeEnd, OverlayRun;
    Order(d);
    if KeyBefore(d, b.out[0].key, a[0].key) {
      StaysPast(d, end, b.out[0].key, a[0].key);
    } else {
      StaysPast(d, end, a[0].key, b.out[0].key);
    }
    OverlayRunSorted(d, a, b);
    var r := OverlayRun(d, a, b);
    if r.out != [] && r.out[0] != a[0] { StaysPast(d, end, b.out[0].key, r.out[0].key); }
    AllPast(d, r, end);
  }

  lemma CutIs(d: Dir, r: Run, end: Bound)
    ensures Cut(d, r, end) <==> PastRun(d, r, end).Broken()
  {
    hide BeforeEnd;
    PastIs(d, r.out, end);
  }

  // ---- what is read up to the bound ----

  /** The run is the start of `full`, and all of it unless it breaks off. */
  predicate Starts(r: Run, full: seq<Entry>) {
    r.out <= full && (r.breaks || r.out == full)
  }

  lemma StartsTail(r: Run, full: seq<Entry>)
    requires Starts(r, full) && r.out != []
    ensures full != [] && full[0] == r.out[0] && Starts(r.Tail(), full[1..])
  {
  }

  lemma StartsCons(e: Entry, r: Run, full: seq<Entry>)
    requires Starts(r, full)
    ensures Starts(Cons(e, r), [e] + full)
  {
  }

  lemma {:induction false} MergeStarts(d: Dir, a: Run, fa: seq<Entry>, b: Run, fb: seq<Entry>)
    requires Starts(a, fa) && Starts(b, fb)
    ensures Starts(MergeRun(d, a, b), StableMerge(d, fa, fb))
    decreases |a.out| + |b.out|
  {
    hide KeyBefore, Starts;
    if a.Broken() || b.Broken() || a.out == [] || b.out == [] {
      MergeStartsEnd(d, a, fa, b, fb);
    } else {
      StartsTail(a, fa);
      StartsTail(b, fb);
      if KeyBefore(d, b.out[0].key, a.out[0].key) {
        MergeStarts(d, a, fa, b.Tail(), fb[1..]);
        StartsCons(b.out[0], MergeRun(d, a, b.Tail()), StableMerge(d, fa, fb[1..]));
      } else {
        MergeStarts(d, a.Tail(), fa[1..], b, fb);
        StartsCons(a.out[0], MergeRun(d, a.Tail(), b), StableMerge(d, fa[1..], fb));
      }
    }
  }

  lemma MergeStartsEnd(d: Dir, a: Run, fa: seq<Entry>, b: Run, fb: seq<Entry>)
    requires Starts(a, fa) && Starts(b, fb) && (a.Broken() || b.Broken() || a.out == [] || b.out == [])
    ensures Starts(MergeRun(d, a, b), StableMerge(d, fa, fb))
  {
  }

  lemma {:induction false} MergesStart(d: Dir, rs: seq<Run>)
    ensures Starts(MergeRuns(d, rs), MergeAll(d, Outs(rs)))
    decreases |rs|
  {
    if rs != [] {
      MergesStart(d, rs[1..]);
      assert Outs(rs)[1..] == Outs(rs[1..]);
      MergeStarts(d, rs[0], rs[0].out, MergeRuns(d, rs[1..]), MergeAll(d, Outs(rs[1..])));
    }
  }

  lemma {:induction false} OverlayStarts(d: Dir, a: seq<Entry>, b: Run, full: seq<Entry>)
    requires Starts(b, full)
    ensures Starts(OverlayRun(d, a, b), OverlayRun(d, a, Run(full, false)).out)
    decreases |a| + |b.out|
  {
    hide KeyBefore, Starts;
    if b.Broken() || a == [] || b.out == [] {
      OverlayStartsEnd(d, a, b, full);
    } else {
      StartsTail(b, full);
      var f := Run(full, false);
      assert f.Tail() == Run(full[1..], false);
      if a[0].key == b.out[0].key {
        OverlayStarts(d, a, b.Tail(), full[1..]);
      } else if KeyBefore(d, b.out[0].key, a[0].key) {
        OverlayStarts(d, a, b.Tail(), full[1..]);
        StartsCons(b.out[0], OverlayRun(d, a, b.Tail()), OverlayRun(d, a, f.Tail()).out);
      } else {
        OverlayStarts(d, a[1..], b, full);
        StartsCons(a[0], OverlayRun(d, a[1..], b), OverlayRun(d, a[1..], f).out);
      }
    }
  }

  lemma OverlayStartsEnd(d: Dir, a: seq<Entry>, b: Run, full: seq<Entry>)
    requires Starts(b, full) && (b.Broken() || a == [] || b.out == [])
    ensures Starts(OverlayRun(d, a, b), OverlayRun(d, a, Run(full, false)).out)
  {
  }

  lemma {:induction false} WithinConcat(d: Dir, s: seq<Entry>, t: seq<Entry>, start: Bound, end: Bound)
    ensures Within(d, s + t, start, end) == Within(d, s, start, end) + Within(d, t, start, end)
    decreases |s|
  {
    hide AfterStart, BeforeEnd;
    if s == [] {
      assert s + t == t;
    } else {
      assert (s + t)[1..] == s[1..] + t && (s + t)[0] == s[0];
      WithinConcat(d, s[1..], t, start, end);
      var head := if AfterStart(d, start, s[0].key) && BeforeEnd(d, end, s[0].key) then [s[0]] else [];
      var x, y := Within(d, s[1..], start, end), Within(d, t, start, end);
      assert head + (x + y) == head + x + y;
    }
  }

  /** A run not cut has all that comes before the bound. */
  lemma UncutHasAll(d: Dir, r: Run, full: seq<Entry>, end: Bound)
    requires Starts(r, full) && Sorted(d, full) && !Cut(d, r, end)
    ensures Within(d, r.out, Unbounded, end) == Within(d, full, Unbounded, end)
  {
    hide KeyBefore, BeforeEnd, Within, Sorted;
    if r.out != full {
      var n := |r.out|;
      var i :| 0 <= i < n && !BeforeEnd(d, end, r.out[i].key);
      assert full == r.out + full[n..] && full[i] == r.out[i];
      WithinConcat(d, r.out, full[n..], Unbounded, end);
      RestPast(d, full, i, n, end);
    }
  }

  /** Behind an entry past the bound nothing is within it. */
  lemma RestPast(d: Dir, s: seq<Entry>, i: nat, n: nat, end: Bound)
    requires Sorted(d, s) && i < n <= |s| && !BeforeEnd(d, end, s[i].key)
    ensures Within(d, s[n..], Unbounded, end) == []
  {
    hide KeyBefore, BeforeEnd;
    if n < |s| {
      StaysPast(d, end, s[i].key, s[n].key);
      WithinPastEnd(d, s[n..], Unbounded, end);
    }
  }

  // ---- the scan ----

  /** Building done, a scan without a near bound is stopped before its far one. */
  predicate StopsBefore(mems: seq<Stream>, srcs: seq<Source>, d: Dir, end: Bound)
    requires forall l | 0 <= l < |srcs| :: srcs[l].InBlock()
  {
    OverlayRun(d, PastEnd(d, MergeAll(d, Alls(mems, d)), end), MergeRuns(d, PastRuns(d, FirstRuns(srcs, d), end))).Broken()
  }

  /** It is stopped exactly when a source breaks off before the bound; or, past
      the bound, with the last entry before the break, on the first key the
      memtables have there, and no source is on an earlier one. */
  lemma StopsBeforeIff(mems: seq<Stream>, srcs: seq<Source>, d: Dir, end: Bound)
    requires AllOrdered(srcs)
    ensures var a, rs := PastEnd(d, MergeAll(d, Alls(mems, d)), end), FirstRuns(srcs, d);
            StopsBefore(mems, srcs, d, end) <==>
            || (exists l | 0 <= l < |srcs| :: Cut(d, rs[l], end))
            || (&& a != []
                && (exists l | 0 <= l < |srcs| :: EndsIn(PastRun(d, rs[l], end), a[0].key))
                && (forall l | 0 <= l < |srcs| :: NotBefore(d, PastRun(d, rs[l], end), a[0].key)))
  {
    hide KeyBefore, BeforeEnd, Sorted, MergeAll, MergeRuns, OverlayRun, EndsIn, PastEnd, Cut, NotBefore;
    var a, rs := PastEnd(d, MergeAll(d, Alls(mems, d)), end), FirstRuns(srcs, d);
    var ps := PastRuns(d, rs, end);
    forall l | 0 <= l < |srcs|
      ensures Sorted(d, ps[l].out) && (Cut(d, rs[l], end) <==> ps[l].Broken())
    {
      OrderedTo(srcs[l], d);
      PastSorted(d, rs[l].out, end);
      CutIs(d, rs[l], end);
    }
    MergeRunsHead(d, ps);
    OverlayRunEnds(d, a, MergeRuns(d, ps));
    if a != [] && Intact(ps) { MergeRunsEnd(d, ps, a[0].key); }
  }

  /** What the sources have to come, as far as they go. */
  function ReadTables(srcs: seq<Source>, d: Dir): (ss: seq<seq<Entry>>)
    requires forall l | 0 <= l < |srcs| :: srcs[l].InBlock()
    ensures |ss| == |srcs|
  {
    Outs(FirstRuns(srcs, d))
  }

  /** A scan that is not stopped yields the merge of what the sources have, up to
      the bound. */
  lemma ReadToEnd(mems: seq<Stream>, srcs: seq<Source>, d: Dir, end: Bound)
    requires AllOrdered(srcs) && forall i | 0 <= i < |mems| :: mems[i].Ordered()
    ensures var a, rs := MergeAll(d, Alls(mems, d)), FirstRuns(srcs, d);
            Ranged(d, OverlayRun(d, a, MergeRuns(d, rs)), end) ==
            if StopsBefore(mems, srcs, d, end) then OutOfRange
            else Yields(Within(d, Overlay(d, a, MergeAll(d, ReadTables(srcs, d))), Unbounded, end))
  {
    hide KeyBefore, BeforeEnd, Sorted, MergeAll, MergeRuns, OverlayRun, Overlay, PastEnd, Starts, Within;
    var a, rs := MergeAll(d, Alls(mems, d)), FirstRuns(srcs, d);
    var b, full := MergeRuns(d, rs), MergeAll(d, Outs(rs));
    forall l | 0 <= l < |srcs|
      ensures Sorted(d, rs[l].out)
    {
      OrderedTo(srcs[l], d);
    }
    MergeAllSorted(d, Alls(mems, d));
    MergeAllSorted(d, Outs(rs));
    MergeRunsSorted(d, rs);
    PastOverlay(d, a, b, end);
    PastMerges(d, rs, end);
    CutIs(d, OverlayRun(d, a, b), end);
    MergesStart(d, rs);
    OverlayStarts(d, a, b, full);
    OverlayRunSound(d, a, full);
    OverlaySorted(d, a, full);
    if !Cut(d, OverlayRun(d, a, b), end) { UncutHasAll(d, OverlayRun(d, a, b), Overlay(d, a, full), end); }
  }

  /** A whole scan without a near bound. */
  lemma EndedScan(mems: seq<Stream>, srcs: seq<Source>, d: Dir, end: Bound)
    requires AllOrdered(srcs) && forall i | 0 <= i < |mems| :: mems[i].Ordered()
    ensures forall l | 0 <= l < |srcs| :: OpenedSources(mems, srcs)[l].InBlock()
    ensures var now := OpenedSources(mems, srcs);
            ScanOutcome(mems, srcs, d, Unbounded, end) ==
            if OpenStops(mems, srcs) || StopsBefore(mems, now, d, end) then OutOfRange
            else Yields(Within(d, Overlay(d, MergeAll(d, Alls(mems, d)), MergeAll(d, ReadTables(now, d))), Unbounded, end))
  {
    hide Ranged, Within, Overlay, OverlayRun, MergeAll, MergeRuns, StopsBefore, OpenStops, ReadTables, SourceOrdered, Passed;
    OpenedInBlock(mems, srcs);
    OpenedOrdered(mems, srcs, d);
    ReadToEnd(mems, OpenedSources(mems, srcs), d, end);
  }
}
