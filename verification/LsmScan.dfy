/** What a range scan of a shard yields, from the shard's memtables and SSTs. */
module LsmScan {
  import opened Keys
  import opened BlockBuilders
  import opened SstTree
  import opened SstBuilder
  import opened SstRescan
  import opened Streams
  import opened MergeIter
  import opened ShardIter
  import opened ShardScan
  import opened RangeScan
  import opened LsmState

  /** A memtable or an SST as an iterator. */
  function TableStream(es: seq<Entry>): (st: Stream) {
    Stream(es, Reversed(es), [])
  }

  function TableStreams(ss: seq<seq<Entry>>): (r: seq<Stream>)
    ensures |r| == |ss| && forall i | 0 <= i < |ss| :: r[i] == TableStream(ss[i])
  {
    seq(|ss|, i requires 0 <= i < |ss| => TableStream(ss[i]))
  }

  /** The composed iterator: memtables newest first, over level 0 in flush
      order, over the levels below, each one run of non-overlapping SSTs. */
  function Composed(mems: seq<Stream>, l0: seq<Stream>, below: seq<Stream>): (st: Stream) {
    OverlayAbs(MergeAbs(mems, []), OverlayAbs(MergeAbs(l0, []), MergeAbs(below, []), []), [])
  }

  function Merged(s: Lsm, below: seq<Stream>): (st: Stream) {
    Composed(TableStreams(Mems(s)), TableStreams(s.l0), below)
  }

  lemma {:induction false} ReversedVersions(es: seq<Entry>, k: Key)
    requires Ascending(es)
    ensures Versions(Reversed(es), k) == Versions(es, k)
    decreases |es|
  {
    hide Less;
    if es != [] {
      var n := |es| - 1;
      ReversedVersions(es[1..], k);
      assert Reversed(es) == Reversed(es[1..]) + [es[0]];
      VersionsConcat(Reversed(es[1..]), [es[0]], k);
      Absent(es, k);
      assert Versions([es[0]], k) == if es[0].key == k then [es[0]] else [];
    }
  }

  lemma TableOrdered(es: seq<Entry>)
    requires Ascending(es)
    ensures TableStream(es).Ordered()
  {
    hide Less;
    LessIsStrictTotalOrder();
  }

  /** Tables of either side, ready to merge. */
  lemma TablesSorted(ss: seq<seq<Entry>>, d: Dir)
    requires forall i | 0 <= i < |ss| :: Ascending(ss[i])
    ensures AllSorted(d, Alls(TableStreams(ss), d))
  {
    hide Ascending, Sorted;
    forall i | 0 <= i < |ss|
      ensures Sorted(d, Alls(TableStreams(ss), d)[i])
    {
      TableOrdered(ss[i]);
    }
  }

  lemma {:induction false} TablesVersions(ss: seq<seq<Entry>>, d: Dir, k: Key)
    requires forall i | 0 <= i < |ss| :: Ascending(ss[i])
    ensures AllVersions(Alls(TableStreams(ss), d), k) == AllVersions(ss, k)
    decreases |ss|
  {
    hide Ascending, Versions;
    if ss != [] {
      assert Alls(TableStreams(ss), d)[1..] == Alls(TableStreams(ss[1..]), d);
      TablesVersions(ss[1..], d, k);
      ReversedVersions(ss[0], k);
    }
  }

  /** Merging tables: sorted, and each key's versions in table order. */
  lemma MergeTables(ss: seq<seq<Entry>>, d: Dir, k: Key)
    requires forall i | 0 <= i < |ss| :: Ascending(ss[i])
    ensures var out := MergeAll(d, Alls(TableStreams(ss), d));
            Sorted(d, out) && Versions(out, k) == AllVersions(ss, k)
  {
    hide Ascending, Sorted, Versions;
    TablesSorted(ss, d);
    MergeAllSorted(d, Alls(TableStreams(ss), d));
    MergeAllVersions(d, Alls(TableStreams(ss), d), k);
    TablesVersions(ss, d, k);
  }

  /** What the scan of a shard yields for a key, either way: all versions in the
      memtables, newest first; without any, those in level 0 in flush order;
      without any, those below. */
  lemma MergedVersions(s: Lsm, below: seq<Stream>, d: Dir, k: Key)
    requires TablesAscend(s) && AllSorted(d, Alls(below, d))
    ensures Sorted(d, Merged(s, below).All(d))
    ensures var mem, l0, out := AllVersions(Mems(s), k), AllVersions(s.l0, k), Versions(Merged(s, below).All(d), k);
            out == if mem != [] then mem else if l0 != [] then l0 else AllVersions(Alls(below, d), k)
  {
    hide Sorted, Versions, HasKey, Latest, AllVersions, MergeAll, Overlay;
    var m, l, b := MergeAll(d, Alls(TableStreams(Mems(s)), d)), MergeAll(d, Alls(TableStreams(s.l0), d)), MergeAll(d, Alls(below, d));
    MergeTables(Mems(s), d, k);
    MergeTables(s.l0, d, k);
    MergeAllSorted(d, Alls(below, d));
    MergeAllVersions(d, Alls(below, d), k);
    OverlaySorted(d, l, b);
    OverlayVersions(d, l, b, k);
    OverlaySorted(d, m, Overlay(d, l, b));
    OverlayVersions(d, m, Overlay(d, l, b), k);
    VersionsEmpty(l, k);
    VersionsEmpty(m, k);
  }

  predicate TablesAscend(s: Lsm) {
    && (forall i | 0 <= i < |Mems(s)| :: Ascending(Mems(s)[i]))
    && (forall i | 0 <= i < |s.l0| :: Ascending(s.l0[i]))
  }

  lemma TablesOf(s: Lsm)
    requires Inv(s)
    ensures TablesAscend(s)
  {
    hide Ascending, Lookup, Latest;
    var ss, n := NewestFirst(s), |Mems(s)|;
    assert forall i | 0 <= i < n :: Mems(s)[i] == ss[i];
    assert forall i | 0 <= i < |s.l0| :: s.l0[i] == ss[n + |s.l0| - 1 - i];
  }

  /** Level 0 back to front has the versions of a key back to front. */
  lemma {:induction false} ReversedTables(ss: seq<seq<Entry>>, k: Key)
    requires forall i | 0 <= i < |ss| :: Ascending(ss[i])
    ensures AllVersions(Reversed(ss), k) == Reversed(AllVersions(ss, k))
    decreases |ss|
  {
    hide Ascending, Versions;
    if ss == [] {
      assert Reversed(ss) == [];
    } else {
      ReversedTables(ss[1..], k);
      assert Reversed(ss) == Reversed(ss[1..]) + [ss[0]];
      AllVersionsConcat(Reversed(ss[1..]), [ss[0]], k);
      assert AllVersions([ss[0]], k) == Versions(ss[0], k);
      OneVersion(ss[0], k);
    }
  }

  lemma {:induction false} OneVersion(es: seq<Entry>, k: Key)
    requires Ascending(es)
    ensures |Versions(es, k)| <= 1
    decreases |es|
  {
    hide Less;
    if es != [] {
      OneVersion(es[1..], k);
      Absent(es, k);
    }
  }

  /** A memtable has the key, or the oldest version in the tables read is the
      newest one in level 0. */
  predicate UpToDate(s: Lsm, read: seq<seq<Entry>>, k: Key) {
    AllVersions(Mems(s), k) != [] || First(AllVersions(read, k)) == First(Reversed(AllVersions(s.l0, k)))
  }

  /** A scan of the memtables and of some tables of level 0: the first version
      it yields is the last write of the key exactly when the key is up to date
      in those. */
  lemma ScanIsNewest(s: Lsm, read: seq<seq<Entry>>, d: Dir, k: Key)
    requires Inv(s) && forall i | 0 <= i < |read| :: Ascending(read[i])
    ensures First(Versions(Merged(s.(l0 := read), []).All(d), k)) == Latest(s.log, k) <==> UpToDate(s, read, k)
  {
    hide Versions, Merged, Ascending;
    TablesOf(s);
    assert Mems(s.(l0 := read)) == Mems(s);
    MergedVersions(s.(l0 := read), [], d, k);
    AllVersionsConcat(Mems(s), Reversed(s.l0), k);
    ReversedTables(s.l0, k);
    assert Lookup(s, k) == Latest(s.log, k);
    assert AllVersions([], k) == [];
  }

  /** Inside both bounds. */
  predicate InRange(lower: Bound, upper: Bound, k: Key) {
    AfterStart(Fwd, lower, k) && BeforeEnd(Fwd, upper, k)
  }

  /** Either direction names the same range. */
  lemma SameRange(lower: Bound, upper: Bound, k: Key)
    ensures InRange(lower, upper, k) <==> AfterStart(Rev, upper, k) && BeforeEnd(Rev, lower, k)
  {
    hide Less;
  }

  /** The near bound of a scan, */
  function Start(lower: Bound, upper: Bound, d: Dir): Bound {
    if d == Fwd then lower else upper
  }

  /** and the far one. */
  function End(lower: Bound, upper: Bound, d: Dir): Bound {
    if d == Fwd then upper else lower
  }

  /** The range scan, key by key. */
  lemma ScanYields(s: Lsm, read: seq<seq<Entry>>, lower: Bound, upper: Bound, d: Dir, k: Key)
    requires Inv(s) && forall i | 0 <= i < |read| :: Ascending(read[i])
    ensures var out := Within(d, Merged(s.(l0 := read), []).All(d), Start(lower, upper, d), End(lower, upper, d));
            if InRange(lower, upper, k) then First(Versions(out, k)) == Latest(s.log, k) <==> UpToDate(s, read, k)
            else Versions(out, k) == []
  {
    hide Inv, Merged, Within, Versions, UpToDate, Latest, KeyBefore, Ascending;
    SameRange(lower, upper, k);
    WithinVersions(d, Merged(s.(l0 := read), []).All(d), Start(lower, upper, d), End(lower, upper, d), k);
    ScanIsNewest(s, read, d, k);
  }

  // ---- SSTs as they lie in the files ----

  datatype Sst = Sst(file: SstFile, footer: Footer)

  /** What an SST was built from, and how it lies in its file. */
  datatype Table = Table(bs: Blocks, ls: seq<IndexEntry>, es: seq<Entry>)

  ghost predicate Stored(sst: Sst, t: Table) {
    Represents(sst.file, sst.footer, t.bs, t.ls, t.es) && Ascending(t.es)
  }

  ghost predicate AllStored(ssts: seq<Sst>, ts: seq<Table>) {
    |ssts| == |ts| && forall i | 0 <= i < |ssts| :: Stored(ssts[i], ts[i])
  }

  function TableEntries(ts: seq<Table>): (ss: seq<seq<Entry>>)
    ensures |ss| == |ts| && forall i | 0 <= i < |ts| :: ss[i] == ts[i].es
  {
    seq(|ts|, i requires 0 <= i < |ts| => ts[i].es)
  }

  /** The SSTs whose iterators can be sought more than once. */
  predicate Short(ssts: seq<Sst>) {
    forall i | 0 <= i < |ssts| :: ssts[i].footer.height <= 2
  }

  /** The tables a seek with a target reads: those of the short SSTs. */
  function ShortTables(ssts: seq<Sst>, ts: seq<Table>): (ss: seq<seq<Entry>>)
    requires |ssts| == |ts|
    ensures |ss| == |ts| && forall i | 0 <= i < |ts| :: ss[i] == if ssts[i].footer.height <= 2 then ts[i].es else []
  {
    seq(|ts|, i requires 0 <= i < |ts| => if ssts[i].footer.height <= 2 then ts[i].es else [])
  }

  ghost function Sources(ssts: seq<Sst>, ts: seq<Table>): (srcs: seq<Runs.Source>)
    requires AllStored(ssts, ts)
    ensures |srcs| == |ts|
    ensures forall i | 0 <= i < |ts| :: Stored(ssts[i], ts[i]) && srcs[i] == SourceOf(ssts[i].footer, ts[i].bs, ts[i].ls, ts[i].es)
  {
    seq(|ts|, i requires 0 <= i < |ts| => assert Stored(ssts[i], ts[i]); SourceOf(ssts[i].footer, ts[i].bs, ts[i].ls, ts[i].es))
  }

  lemma SourceIsOrdered(sst: Sst, t: Table)
    requires Stored(sst, t)
    ensures var src := SourceOf(sst.footer, t.bs, t.ls, t.es);
            src.InBlock() && SourceOrdered(src) && Rises(Fwd, src.SeekToFirst(Fwd).To(Fwd).out)
  {
    hide Less, FirstBlock, Holds, Forest, Records, TreeOf;
    LessIsStrictTotalOrder();
    if sst.footer.height <= 2 {
      TableOrdered(t.es);
    } else {
      TallHasLeaves(t.bs, sst.footer, t.ls);
      FirstBlockIs(t.bs, t.ls, t.es);
    }
  }

  lemma SourcesOrdered(ssts: seq<Sst>, ts: seq<Table>)
    requires AllStored(ssts, ts)
    ensures AllOrdered(Sources(ssts, ts)) && Strict(FirstSources(Sources(ssts, ts), Fwd), Fwd)
  {
    hide Stored, SourceOf, SourceOrdered, Rises;
    forall i | 0 <= i < |ts|
      ensures var src := Sources(ssts, ts)[i];
              src.InBlock() && SourceOrdered(src) && src.SeekToFirst(Fwd).InBlock() && Rises(Fwd, src.SeekToFirst(Fwd).To(Fwd).out)
    {
      SourceIsOrdered(ssts[i], ts[i]);
      Runs.SourceSeeks(Sources(ssts, ts)[i], Fwd, []);
    }
  }

  // ---- which scans are right ----

  /** Building the iterator is stopped. */
  ghost predicate Stops(mems: seq<seq<Entry>>, ssts: seq<Sst>, ts: seq<Table>)
    requires AllStored(ssts, ts)
  {
    SourcesOrdered(ssts, ts);
    OpenStops(TableStreams(mems), Sources(ssts, ts))
  }

  lemma BoundedScan(mems: seq<Stream>, srcs: seq<Runs.Source>, d: Dir, start: Bound, end: Bound)
    requires AllOrdered(srcs) && start != Unbounded
    ensures var o := ScanOutcome(mems, srcs, d, start, end);
            o == if OpenStops(mems, srcs) then OutOfRange
                 else Yields(Within(d, Overlay(d, MergeAll(d, Alls(mems, d)), MergeAll(d, SoundTables(srcs, d))), start, end))
  {
  }

  /** What a scan of the shard does. */
  ghost function Scanned(mems: seq<seq<Entry>>, ssts: seq<Sst>, ts: seq<Table>, d: Dir, start: Bound, end: Bound): (o: Outcome)
    requires AllStored(ssts, ts)
  {
    SourcesOrdered(ssts, ts);
    ScanOutcome(TableStreams(mems), Sources(ssts, ts), d, start, end)
  }

  /** Nothing below level 0: the merge of the memtables over it. */
  lemma NothingBelow(mems: seq<Stream>, l0: seq<Stream>, d: Dir)
    ensures Composed(mems, l0, []).All(d) == Overlay(d, MergeAll(d, Alls(mems, d)), MergeAll(d, Alls(l0, d)))
  {
    hide Overlay;
    forall e
      ensures Overlay(e, MergeAll(e, Alls(l0, e)), MergeAll(e, Alls([], e))) == MergeAll(e, Alls(l0, e))
    {
      assert Alls([], e) == [];
      Runs.OverlayNone(e, MergeAll(e, Alls(l0, e)), []);
    }
  }

  lemma SoundTablesAre(ssts: seq<Sst>, ts: seq<Table>, d: Dir)
    requires AllStored(ssts, ts)
    ensures SoundTables(Sources(ssts, ts), d) == Alls(TableStreams(ShortTables(ssts, ts)), d)
  {
    hide Stored;
  }

  lemma MemsOrdered(mems: seq<seq<Entry>>)
    requires forall i | 0 <= i < |mems| :: Ascending(mems[i])
    ensures forall i | 0 <= i < |mems| :: TableStreams(mems)[i].Ordered()
  {
    hide Ascending;
    forall i | 0 <= i < |mems|
      ensures TableStreams(mems)[i].Ordered()
    {
      TableOrdered(mems[i]);
    }
  }

  /** From a bound on, or over short SSTs: a scan yields what the memtables and
      the short SSTs have, merged, unless building the iterator is stopped. */
  lemma ShortScan(s: Lsm, ssts: seq<Sst>, ts: seq<Table>, d: Dir, start: Bound, end: Bound)
    requires TablesAscend(s) && AllStored(ssts, ts) && (start != Unbounded || Short(ssts))
    ensures var o := Scanned(Mems(s), ssts, ts, d, start, end);
            && (o.Yields? ==> o == Yields(Within(d, Merged(s.(l0 := ShortTables(ssts, ts)), []).All(d), start, end)))
            && (o.Yields? <==> Short(ssts) || !Stops(Mems(s), ssts, ts))
  {
    hide Stored, Ascending, ScanOutcome, SourceOrdered, Strict, Within, Overlay, MergeAll, OpenStops;
    SourcesOrdered(ssts, ts);
    MemsOrdered(Mems(s));
    SoundTablesAre(ssts, ts, d);
    var mems, srcs, read := TableStreams(Mems(s)), Sources(ssts, ts), s.(l0 := ShortTables(ssts, ts));
    assert Mems(read) == Mems(s);
    NothingBelow(mems, TableStreams(read.l0), d);
    if Short(ssts) {
      assert NoneStuck(srcs);
      SoundScan(mems, srcs, d, start, end);
    } else {
      BoundedScan(mems, srcs, d, start, end);
    }
  }

  /** A scan without bounds, either way, ends exactly when every SST is short. */
  lemma OpenScan(mems: seq<seq<Entry>>, ssts: seq<Sst>, ts: seq<Table>, d: Dir)
    requires AllStored(ssts, ts) && forall i | 0 <= i < |mems| :: Ascending(mems[i])
    ensures Scanned(mems, ssts, ts, d, Unbounded, Unbounded).Yields? <==> Short(ssts)
  {
    hide Stored, Ascending, ScanOutcome, SourceOrdered, Strict, Within, Overlay, MergeAll;
    SourcesOrdered(ssts, ts);
    MemsOrdered(mems);
    var srcs := Sources(ssts, ts);
    if Short(ssts) {
      assert NoneStuck(srcs);
      SoundScan(TableStreams(mems), srcs, d, Unbounded, Unbounded);
    } else {
      var i :| 0 <= i < |ssts| && ssts[i].footer.height > 2;
      assert Stored(ssts[i], ts[i]);
      StuckScan(TableStreams(mems), srcs, d, i);
    }
  }

  /** Every scan yields the merge of all tables within its bounds. */
  ghost predicate ScansRight(s: Lsm, ssts: seq<Sst>, ts: seq<Table>)
    requires AllStored(ssts, ts)
  {
    forall d: Dir, start: Bound, end: Bound ::
      Scanned(Mems(s), ssts, ts, d, start, end) == Yields(Within(d, Merged(s, []).All(d), start, end))
  }

  /** That is so exactly when no SST has a tree of height three or more. */
  lemma ScansRightIffShort(s: Lsm, ssts: seq<Sst>, ts: seq<Table>)
    requires TablesAscend(s) && AllStored(ssts, ts) && s.l0 == TableEntries(ts)
    ensures ScansRight(s, ssts, ts) <==> Short(ssts)
  {
    hide Ascending, Stored, Scanned, Merged, Within;
    OpenScan(Mems(s), ssts, ts, Fwd);
    if Short(ssts) {
      assert ShortTables(ssts, ts) == s.l0 && s.(l0 := s.l0) == s;
      forall d: Dir, start: Bound, end: Bound
        ensures Scanned(Mems(s), ssts, ts, d, start, end) == Yields(Within(d, Merged(s, []).All(d), start, end))
      {
        ShortScan(s, ssts, ts, d, start, end);
      }
    } else {
      assert Scanned(Mems(s), ssts, ts, Fwd, Unbounded, Unbounded) == OutOfRange;
    }
  }
}
