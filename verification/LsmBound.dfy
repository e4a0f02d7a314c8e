/** What a scan of a shard yields for any bounds, whatever the heights of its
    SSTs: the tables as far as it reads them, and when it is stopped. */
module LsmBound {
  import opened Keys
  import opened BlockBuilders
  import opened SstTree
  import opened SstBuilder
  import opened SstRescan
  import opened Streams
  import opened Runs
  import opened MergeIter
  import opened ShardIter
  import opened ShardScan
  import opened ScanToBound
  import opened RangeScan
  import opened LsmState
  import opened LsmScan

  /** The SSTs once the iterator is built. */
  ghost function Built(mems: seq<seq<Entry>>, ssts: seq<Sst>, ts: seq<Table>): (srcs: seq<Source>)
    requires AllStored(ssts, ts)
    ensures |srcs| == |ts| && forall l | 0 <= l < |ts| :: srcs[l].InBlock()
  {
    SourcesOrdered(ssts, ts);
    OpenedInBlock(TableStreams(mems), Sources(ssts, ts));
    OpenedSources(TableStreams(mems), Sources(ssts, ts))
  }

  /** What a scan without a near bound sees of a source, in key order. */
  function Seen(src: Source, d: Dir): (es: seq<Entry>)
    requires src.InBlock()
  {
    match src
    case Sound(st) => st.fwd
    case Stuck(block, at) =>
      if at.None? then [] else if d == Fwd then block[at.value..] else block[..at.value + 1]
  }

  function AllSeen(srcs: seq<Source>, d: Dir): (ss: seq<seq<Entry>>)
    requires forall l | 0 <= l < |srcs| :: srcs[l].InBlock()
    ensures |ss| == |srcs| && forall l | 0 <= l < |srcs| :: ss[l] == Seen(srcs[l], d)
  {
    seq(|srcs|, l requires 0 <= l < |srcs| => Seen(srcs[l], d))
  }

  /** The tables of level 0 as far as a scan reads them: from a bound on, the short
      ones; without one, the others as far as they go. */
  ghost function ReadBy(mems: seq<seq<Entry>>, ssts: seq<Sst>, ts: seq<Table>, d: Dir, start: Bound): (read: seq<seq<Entry>>)
    requires AllStored(ssts, ts)
    ensures |read| == |ts|
  {
    if start != Unbounded then ShortTables(ssts, ts) else AllSeen(Built(mems, ssts, ts), d)
  }

  /** The scan is stopped: while building, or before its far bound. */
  ghost predicate IsStopped(mems: seq<seq<Entry>>, ssts: seq<Sst>, ts: seq<Table>, d: Dir, start: Bound, end: Bound)
    requires AllStored(ssts, ts)
  {
    Stops(mems, ssts, ts) || (start == Unbounded && StopsBefore(TableStreams(mems), Built(mems, ssts, ts), d, end))
  }

  // ---- the sources of the SSTs ----

  /** A short SST gives all it has. A tall one is on the first entry of its first
      block, or on the second, if the first has the first key of the memtables. */
  ghost predicate BuiltFrom(src: Source, sst: Sst, t: Table, a: seq<Entry>) {
    if sst.footer.height <= 2 then src.Sound? && src.st.fwd == t.es && src.st.rev == Reversed(t.es)
    else
      && src.Stuck? && src.at.Some? && src.at.value < |src.block| <= |t.es| && src.block == t.es[..|src.block|]
      && (src.at.value == 0 || (src.at.value == 1 && a != [] && src.block[0].key == a[0].key))
  }

  lemma BuiltIs(mems: seq<seq<Entry>>, ssts: seq<Sst>, ts: seq<Table>, i: nat)
    requires AllStored(ssts, ts) && i < |ts|
    ensures BuiltFrom(Built(mems, ssts, ts)[i], ssts[i], ts[i], MergeAll(Fwd, Alls(TableStreams(mems), Fwd)))
    ensures ssts[i].footer.height > 2 ==>
              && Forest(ts[i].bs, ts[i].ls, 0) && ts[i].ls != []
              && Built(mems, ssts, ts)[i].block == FirstBlock(ts[i].bs, ts[i].ls)
  {
    hide MergeAll, MergeRuns, Holds, Forest, Records, TreeOf, FirstBlock, Ascending;
    SourcesOrdered(ssts, ts);
    assert Stored(ssts[i], ts[i]);
    if ssts[i].footer.height > 2 {
      TallHasLeaves(ts[i].bs, ssts[i].footer, ts[i].ls);
      FirstBlockIs(ts[i].bs, ts[i].ls, ts[i].es);
    }
  }

  lemma SeenAscends(src: Source, sst: Sst, t: Table, a: seq<Entry>, d: Dir)
    requires src.InBlock() && BuiltFrom(src, sst, t, a) && Ascending(t.es)
    ensures Ascending(Seen(src, d))
    ensures TableStream(Seen(src, d)).All(d) == src.SeekToFirst(d).To(d).out
  {
    hide Less, Ascending;
    if src.Stuck? {
      var p, m := src.at.value, |src.block|;
      assert Seen(src, Fwd) == t.es[p..m] && Seen(src, Rev) == t.es[0..p + 1];
      SliceAscends(t.es, p, m);
      SliceAscends(t.es, 0, p + 1);
    }
  }

  lemma SliceAscends(es: seq<Entry>, i: nat, j: nat)
    requires Ascending(es) && i <= j <= |es|
    ensures Ascending(es[i..j])
  {
    hide Less;
  }

  lemma SeenTables(mems: seq<seq<Entry>>, ssts: seq<Sst>, ts: seq<Table>, d: Dir)
    requires AllStored(ssts, ts)
    ensures var srcs := Built(mems, ssts, ts);
            && (forall i | 0 <= i < |ts| :: Ascending(AllSeen(srcs, d)[i]))
            && ReadTables(srcs, d) == Alls(TableStreams(AllSeen(srcs, d)), d)
  {
    hide BuiltFrom, Seen, Ascending, Represents;
    var srcs := Built(mems, ssts, ts);
    forall i | 0 <= i < |ts|
      ensures Ascending(Seen(srcs[i], d)) && TableStream(Seen(srcs[i], d)).All(d) == srcs[i].SeekToFirst(d).To(d).out
    {
      BuiltIs(mems, ssts, ts, i);
      SeenAscends(srcs[i], ssts[i], ts[i], MergeAll(Fwd, Alls(TableStreams(mems), Fwd)), d);
    }
  }

  // ---- every scan ----

  lemma ReadByAscends(mems: seq<seq<Entry>>, ssts: seq<Sst>, ts: seq<Table>, d: Dir, start: Bound)
    requires AllStored(ssts, ts)
    ensures forall i | 0 <= i < |ts| :: Ascending(ReadBy(mems, ssts, ts, d, start)[i])
  {
    hide Represents, Ascending;
    EmptyAscends();
    SeenTables(mems, ssts, ts, d);
  }

  /** Any scan is stopped, or yields the memtables and what it reads of level 0,
      merged, within its bounds. */
  lemma EveryScan(s: Lsm, ssts: seq<Sst>, ts: seq<Table>, d: Dir, start: Bound, end: Bound)
    requires TablesAscend(s) && AllStored(ssts, ts)
    ensures Scanned(Mems(s), ssts, ts, d, start, end) ==
            if IsStopped(Mems(s), ssts, ts, d, start, end) then OutOfRange
            else Yields(Within(d, Merged(s.(l0 := ReadBy(Mems(s), ssts, ts, d, start)), []).All(d), start, end))
  {
    hide Stored, Ascending, ScanOutcome, SourceOrdered, Strict, Within, Overlay, MergeAll, OpenStops, StopsBefore, ReadTables;
    var mems, srcs := TableStreams(Mems(s)), Sources(ssts, ts);
    var read := s.(l0 := ReadBy(Mems(s), ssts, ts, d, start));
    SourcesOrdered(ssts, ts);
    MemsOrdered(Mems(s));
    assert Mems(read) == Mems(s);
    NothingBelow(mems, TableStreams(read.l0), d);
    if start == Unbounded {
      EndedScan(mems, srcs, d, end);
      SeenTables(Mems(s), ssts, ts, d);
    } else {
      BoundedScan(mems, srcs, d, start, end);
      SoundTablesAre(ssts, ts, d);
    }
  }

  // ---- which scans are right ----

  lemma {:induction false} WithinSorted(d: Dir, s: seq<Entry>, start: Bound, end: Bound)
    requires Sorted(d, s)
    ensures Sorted(d, Within(d, s, start, end))
    ensures var r := Within(d, s, start, end); r != [] ==> s != [] && !KeyBefore(d, r[0].key, s[0].key)
    decreases |s|
  {
    hide KeyBefore, AfterStart, BeforeEnd;
    Order(d);
    if s != [] {
      WithinSorted(d, s[1..], start, end);
      var t := Within(d, s[1..], start, end);
      if t != [] { NotBeforeChain(d, s[0].key, s[1].key, t[0].key); }
      ConsSorted(d, s[0], t);
    }
  }

  predicate Covered(d: Dir, start: Bound, end: Bound, k: Key) {
    AfterStart(d, start, k) && BeforeEnd(d, end, k)
  }

  /** For this key a scan of the tables `read` yields what one of level 0 would. */
  predicate AllThere(s: Lsm, read: seq<seq<Entry>>, k: Key) {
    AllVersions(Mems(s), k) != [] || AllVersions(read, k) == AllVersions(s.l0, k)
  }

  lemma KeyThereIff(s: Lsm, read: seq<seq<Entry>>, d: Dir, start: Bound, end: Bound, k: Key)
    requires TablesAscend(s) && forall i | 0 <= i < |read| :: Ascending(read[i])
    ensures Versions(Within(d, Merged(s.(l0 := read), []).All(d), start, end), k) ==
            Versions(Within(d, Merged(s, []).All(d), start, end), k) <==>
            (Covered(d, start, end, k) ==> AllThere(s, read, k))
  {
    hide Ascending, Merged, Within, Versions, AfterStart, BeforeEnd;
    assert Mems(s.(l0 := read)) == Mems(s);
    assert AllVersions([], k) == [];
    MergedVersions(s, [], d, k);
    MergedVersions(s.(l0 := read), [], d, k);
    WithinVersions(d, Merged(s, []).All(d), start, end, k);
    WithinVersions(d, Merged(s.(l0 := read), []).All(d), start, end, k);
  }

  /** What a scan of the tables `read` yields is right exactly when it is for every
      key within the bounds. */
  lemma RightIff(s: Lsm, read: seq<seq<Entry>>, d: Dir, start: Bound, end: Bound)
    requires TablesAscend(s) && forall i | 0 <= i < |read| :: Ascending(read[i])
    ensures Within(d, Merged(s.(l0 := read), []).All(d), start, end) == Within(d, Merged(s, []).All(d), start, end) <==>
            forall k: Key | Covered(d, start, end, k) :: AllThere(s, read, k)
  {
    hide Ascending, Merged, Within, Versions, Sorted, Covered, AllThere;
    var x, y := Within(d, Merged(s.(l0 := read), []).All(d), start, end), Within(d, Merged(s, []).All(d), start, end);
    forall k: Key
      ensures Versions(x, k) == Versions(y, k) <==> (Covered(d, start, end, k) ==> AllThere(s, read, k))
    {
      KeyThereIff(s, read, d, start, end, k);
    }
    if forall k: Key | Covered(d, start, end, k) :: AllThere(s, read, k) {
      MergedVersions(s, [], d, []);
      assert Mems(s.(l0 := read)) == Mems(s);
      MergedVersions(s.(l0 := read), [], d, []);
      WithinSorted(d, Merged(s, []).All(d), start, end);
      WithinSorted(d, Merged(s.(l0 := read), []).All(d), start, end);
      VersionsDetermine(d, x, y);
    }
  }

  /** Any scan, exactly. */
  lemma EveryScanRightIff(s: Lsm, ssts: seq<Sst>, ts: seq<Table>, d: Dir, start: Bound, end: Bound)
    requires TablesAscend(s) && AllStored(ssts, ts)
    ensures Scanned(Mems(s), ssts, ts, d, start, end) == Yields(Within(d, Merged(s, []).All(d), start, end)) <==>
            && !IsStopped(Mems(s), ssts, ts, d, start, end)
            && forall k: Key | Covered(d, start, end, k) :: AllThere(s, ReadBy(Mems(s), ssts, ts, d, start), k)
  {
    hide Stored, Ascending, Scanned, Merged, Within, IsStopped, ReadBy, Covered, AllThere;
    EveryScan(s, ssts, ts, d, start, end);
    ReadByAscends(Mems(s), ssts, ts, d, start);
    RightIff(s, ReadBy(Mems(s), ssts, ts, d, start), d, start, end);
  }

  // ---- forward, without a near bound ----

  /** A tall SST is cut before the far bound exactly when its first block ends
      before it; in reverse, when that starts before it. */
  lemma BlockCutIff(src: Source, sst: Sst, t: Table, a: seq<Entry>, d: Dir, end: Bound)
    requires src.InBlock() && BuiltFrom(src, sst, t, a) && sst.footer.height > 2 && Ascending(t.es)
    ensures Cut(d, src.SeekToFirst(d).To(d), end) <==>
            BeforeEnd(d, end, if d == Fwd then src.block[|src.block| - 1].key else src.block[0].key)
  {
    hide Less, BeforeEnd;
    LessIsStrictTotalOrder();
    var out := src.To(d).out;
    var n := |out| - 1;
    assert out[n] == if d == Fwd then src.block[|src.block| - 1] else src.block[0];
    forall i | 0 <= i < n && BeforeEnd(d, end, out[n].key)
      ensures BeforeEnd(d, end, out[i].key)
    {
      assert !KeyBefore(d, out[n].key, out[i].key) by { OutRises(src, t, d, i); }
      if !BeforeEnd(d, end, out[i].key) { StaysPast(d, end, out[i].key, out[n].key); }
    }
  }

  lemma OutRises(src: Source, t: Table, d: Dir, i: nat)
    requires src.Stuck? && src.at.Some? && src.at.value < |src.block| <= |t.es| && src.block == t.es[..|src.block|]
    requires Ascending(t.es) && i < |src.To(d).out|
    ensures var out := src.To(d).out; !KeyBefore(d, out[|out| - 1].key, out[i].key)
  {
    hide Less;
    LessIsStrictTotalOrder();
  }

  /** The key at the edge of the first block towards which a scan moves. */
  ghost function EdgeKey(t: Table, d: Dir): (k: Key)
    requires Forest(t.bs, t.ls, 0) && t.ls != [] && FirstBlock(t.bs, t.ls) != []
  {
    var block := FirstBlock(t.bs, t.ls);
    if d == Fwd then block[|block| - 1].key else block[0].key
  }

  /** A tall SST whose first block has its edge before the far bound. */
  ghost predicate EndsBefore(sst: Sst, t: Table, d: Dir, end: Bound) {
    && sst.footer.height > 2 && Forest(t.bs, t.ls, 0) && t.ls != [] && FirstBlock(t.bs, t.ls) != []
    && BeforeEnd(d, end, EdgeKey(t, d))
  }

  /** Past the far bound, the sources break off within the first key the memtables
      have there. */
  predicate Clash(mems: seq<Stream>, srcs: seq<Source>, d: Dir, end: Bound)
    requires forall l | 0 <= l < |srcs| :: srcs[l].InBlock()
  {
    var a, rs := PastEnd(d, MergeAll(d, Alls(mems, d)), end), FirstRuns(srcs, d);
    && a != []
    && (exists l | 0 <= l < |srcs| :: EndsIn(PastRun(d, rs[l], end), a[0].key))
    && (forall l | 0 <= l < |srcs| :: NotBefore(d, PastRun(d, rs[l], end), a[0].key))
  }

  lemma CutIsEdge(mems: seq<seq<Entry>>, ssts: seq<Sst>, ts: seq<Table>, d: Dir, end: Bound, i: nat)
    requires AllStored(ssts, ts) && i < |ts|
    ensures Cut(d, FirstRuns(Built(mems, ssts, ts), d)[i], end) <==> EndsBefore(ssts[i], ts[i], d, end)
  {
    hide Represents, Ascending, Forest, FirstBlock, BeforeEnd, Less;
    assert Stored(ssts[i], ts[i]);
    BuiltIs(mems, ssts, ts, i);
    var src := Built(mems, ssts, ts)[i];
    if ssts[i].footer.height > 2 {
      BlockCutIff(src, ssts[i], ts[i], MergeAll(Fwd, Alls(TableStreams(mems), Fwd)), d, end);
    }
  }

  /** A scan without a near bound is stopped exactly when building it is, when a
      tall SST's first block ends before the far bound, or on a clash past it. */
  lemma StoppedIff(mems: seq<seq<Entry>>, ssts: seq<Sst>, ts: seq<Table>, d: Dir, end: Bound)
    requires AllStored(ssts, ts)
    ensures IsStopped(mems, ssts, ts, d, Unbounded, end) <==>
            || Stops(mems, ssts, ts)
            || (exists i | 0 <= i < |ts| :: EndsBefore(ssts[i], ts[i], d, end))
            || Clash(TableStreams(mems), Built(mems, ssts, ts), d, end)
  {
    hide Stored, Stops, StopsBefore, Cut, EndsBefore, EndsIn, NotBefore, PastEnd, MergeAll, SourceOrdered, OpenedSources;
    SourcesOrdered(ssts, ts);
    OpenedOrdered(TableStreams(mems), Sources(ssts, ts), d);
    StopsBeforeIff(TableStreams(mems), Built(mems, ssts, ts), d, end);
    forall i | 0 <= i < |ts|
      ensures Cut(d, FirstRuns(Built(mems, ssts, ts), d)[i], end) <==> EndsBefore(ssts[i], ts[i], d, end)
    {
      CutIsEdge(mems, ssts, ts, d, end, i);
    }
  }

  /** Up to the bound, a source that is not cut before it has every version of a
      key the memtables do not have. */
  lemma UncutSees(src: Source, sst: Sst, t: Table, a: seq<Entry>, end: Bound, k: Key)
    requires src.InBlock() && BuiltFrom(src, sst, t, a) && Ascending(t.es) && BeforeEnd(Fwd, end, k)
    requires !Cut(Fwd, src.SeekToFirst(Fwd).To(Fwd), end) && (a == [] || a[0].key != k)
    ensures Versions(Seen(src, Fwd), k) == Versions(t.es, k)
  {
    hide BeforeEnd, Versions, Less, Ascending;
    if src.Stuck? {
      var p, m := src.at.value, |src.block|;
      assert src.To(Fwd).out == src.block[p..] == t.es[p..m];
      var i :| p <= i < m && !BeforeEnd(Fwd, end, t.es[i].key);
      var front, rest := t.es[..p], t.es[m..];
      assert t.es == front + Seen(src, Fwd) + rest;
      VersionsConcat(front + Seen(src, Fwd), rest, k);
      VersionsConcat(front, Seen(src, Fwd), k);
      NoneAfter(t.es, i, m, end, k);
      VersionsEmpty(front, k);
    }
  }

  /** Behind an entry past the bound there is no key before it. */
  lemma NoneAfter(es: seq<Entry>, i: nat, m: nat, end: Bound, k: Key)
    requires Ascending(es) && i < m <= |es| && !BeforeEnd(Fwd, end, es[i].key) && BeforeEnd(Fwd, end, k)
    ensures Versions(es[m..], k) == []
  {
    hide BeforeEnd, Versions, Less;
    LessIsStrictTotalOrder();
    var rest := es[m..];
    forall j | 0 <= j < |rest|
      ensures rest[j].key != k
    {
      assert rest[j] == es[m + j] && Less(es[i].key, es[m + j].key);
      StaysPast(Fwd, end, es[i].key, es[m + j].key);
    }
    VersionsEmpty(rest, k);
  }

  lemma {:induction false} SameVersions(ss: seq<seq<Entry>>, tt: seq<seq<Entry>>, k: Key)
    requires |ss| == |tt| && forall i | 0 <= i < |ss| :: Versions(ss[i], k) == Versions(tt[i], k)
    ensures AllVersions(ss, k) == AllVersions(tt, k)
    decreases |ss|
  {
    hide Versions;
    if ss != [] { SameVersions(ss[1..], tt[1..], k); }
  }

  /** A forward scan without a near bound that is not stopped is right. */
  lemma ForwardRight(s: Lsm, ssts: seq<Sst>, ts: seq<Table>, end: Bound)
    requires TablesAscend(s) && AllStored(ssts, ts) && s.l0 == TableEntries(ts)
    ensures Scanned(Mems(s), ssts, ts, Fwd, Unbounded, end) ==
            if IsStopped(Mems(s), ssts, ts, Fwd, Unbounded, end) then OutOfRange
            else Yields(Within(Fwd, Merged(s, []).All(Fwd), Unbounded, end))
  {
    hide Stored, Ascending, Scanned, Merged, Within, Covered, AllThere, StopsBefore, AllSeen, BeforeEnd;
    EveryScan(s, ssts, ts, Fwd, Unbounded, end);
    if !IsStopped(Mems(s), ssts, ts, Fwd, Unbounded, end) {
      forall k: Key | Covered(Fwd, Unbounded, end, k)
        ensures AllThere(s, ReadBy(Mems(s), ssts, ts, Fwd, Unbounded), k)
      {
        ForwardSees(s, ssts, ts, end, k);
      }
      EveryScanRightIff(s, ssts, ts, Fwd, Unbounded, end);
    }
  }

  lemma ForwardSees(s: Lsm, ssts: seq<Sst>, ts: seq<Table>, end: Bound, k: Key)
    requires TablesAscend(s) && AllStored(ssts, ts) && s.l0 == TableEntries(ts)
    requires !StopsBefore(TableStreams(Mems(s)), Built(Mems(s), ssts, ts), Fwd, end) && Covered(Fwd, Unbounded, end, k)
    ensures AllThere(s, AllSeen(Built(Mems(s), ssts, ts), Fwd), k)
  {
    hide Represents, Ascending, Versions, AllVersions, BeforeEnd, Seen, BuiltFrom, MergeAll, StopsBefore;
    hide EndsIn, NotBefore, PastEnd, Cut;
    var mems, srcs := TableStreams(Mems(s)), Built(Mems(s), ssts, ts);
    var a := MergeAll(Fwd, Alls(mems, Fwd));
    if AllVersions(Mems(s), k) == [] {
      MergeTables(Mems(s), Fwd, k);
      VersionsEmpty(a, k);
      SourcesOrdered(ssts, ts);
      OpenedOrdered(mems, Sources(ssts, ts), Fwd);
      StopsBeforeIff(mems, srcs, Fwd, end);
      forall i | 0 <= i < |ts|
        ensures Versions(AllSeen(srcs, Fwd)[i], k) == Versions(s.l0[i], k)
      {
        BuiltIs(Mems(s), ssts, ts, i);
        assert Stored(ssts[i], ts[i]);
        assert !Cut(Fwd, FirstRuns(srcs, Fwd)[i], end);
        UncutSees(srcs[i], ssts[i], ts[i], a, end, k);
      }
      SameVersions(AllSeen(srcs, Fwd), s.l0, k);
    }
  }
}
