/** A shard as an object: its memtables, and the SST files it flushes them to
    and scans. */
module LsmStore {
  import opened Keys
  import opened BlockBuilders
  import opened SstTree
  import opened SstPlan
  import opened SstBuilder
  import opened Wrappers
  import opened Streams
  import opened LsmState
  import opened LsmScan
  import opened LsmBound
  import opened SstRoundTrip
  import opened SstRescan
  import opened ShardScan
  import opened RangeScan
  import opened Codec
  import ConcatIter
  import TwoMergeIter

  /** What the oldest immutable memtable holds. */
  function Oldest(s: Lsm): (es: seq<Entry>) {
    if s.imms == [] then [] else s.imms[|s.imms| - 1].entries
  }

  /** A batch is applied; a full memtable is switched, and then, if there are too
      many immutable ones, the oldest is flushed, where that is possible. */
  function Written(s: Lsm, batch: seq<Entry>, limit: nat, maxImms: nat, ok: bool): (t: Lsm) {
    var a := Next(s, Write(batch), limit);
    if a.active.size < limit then a
    else
      var b := Next(a, Switch, limit);
      if |b.imms| >= maxImms && ok then Flushed(b) else b
  }

  /** The batch fills the memtable, and there are too many immutable ones then. */
  predicate Flushes(s: Lsm, batch: seq<Entry>, limit: nat, maxImms: nat) {
    Next(s, Write(batch), limit).active.size >= limit && |s.imms| + 1 >= maxImms
  }

  /** The oldest immutable memtable moved to level 0. */
  function Flushed(s: Lsm): (t: Lsm) {
    if s.imms == [] then s
    else s.(imms := s.imms[..|s.imms| - 1], l0 := s.l0 + [s.imms[|s.imms| - 1].entries])
  }

  lemma FlushedKeeps(s: Lsm)
    requires Inv(s) && s.building == None
    ensures Inv(Flushed(s)) && NewestFirst(Flushed(s)) == NewestFirst(s)
  {
    hide Inv, NewestFirst;
    if s.imms != [] {
      StepKeeps(s, BuildSst, 0);
      PublishKeeps(Next(s, BuildSst, 0), 0);
      assert NewestFirst(Next(s, BuildSst, 0)) == NewestFirst(s) by { BuildingHidden(s); }
    }
  }

  lemma BuildingHidden(s: Lsm)
    requires s.building == None && s.imms != []
    ensures NewestFirst(Next(s, BuildSst, 0)) == NewestFirst(s)
  {
  }

  class Store {
    const limit: nat
    const maxImms: nat
    const blockSize: nat
    var active: Mem
    var imms: seq<Mem>
    var ssts: seq<Sst>

    /** What the SSTs were built from. */
    ghost var tables: seq<Table>

    /** Every write so far. */
    ghost var log: seq<Entry>

    ghost function Abs(): (s: Lsm)
      reads this
    {
      Lsm(active, imms, TableEntries(tables), None, log)
    }

    ghost predicate Valid()
      reads this
    {
      Inv(Abs()) && AllStored(ssts, tables)
    }

    constructor (limit: nat, maxImms: nat, blockSize: nat)
      ensures Valid() && Abs() == FRESH && ssts == []
      ensures this.limit == limit && this.maxImms == maxImms && this.blockSize == blockSize
    {
      this.limit, this.maxImms, this.blockSize := limit, maxImms, blockSize;
      active, imms, ssts, tables, log := EMPTY, [], [], [], [];
      new;
      FreshHolds();
    }

    /** Put or delete the entries of a batch in order. */
    method ApplyBatch(batch: seq<Entry>)
      requires Valid()
      modifies this`active, this`log
      ensures Valid() && Abs() == Next(old(Abs()), Write(batch), limit)
    {
      hide Inv, Stored;
      ghost var was := Abs();
      WriteKeeps(was, batch, limit);
      for i := 0 to |batch|
        invariant active == Apply(was.active, batch[..i]) && log == was.log
      {
        assert batch[..i + 1][..i] == batch[..i];
        active := Mem(Insert(active.entries, batch[i]), active.size + SizeOf(batch[i]));
      }
      assert batch[..|batch|] == batch;
      log := log + batch;
    }

    /** Start a fresh memtable unless the active one is still small. */
    method SwitchMemtable()
      requires Valid()
      modifies this`active, this`imms
      ensures Valid()
      ensures Abs() == if old(active).size >= limit then Next(old(Abs()), Switch, limit) else old(Abs())
    {
      hide Inv, Stored;
      if active.size < limit { return; }
      SwitchKeeps(Abs(), limit);
      imms := [active] + imms;
      active := EMPTY;
    }

    /** Build the SST of the oldest immutable memtable and add it to level 0.
        Where that is not possible, nothing changes. */
    method FlushOldestImm() returns (ok: bool)
      requires Valid()
      modifies this`imms, this`ssts, this`tables
      ensures Valid() && Abs() == (if ok then Flushed(old(Abs())) else old(Abs()))
      ensures ok <==> old(imms) == [] || Buildable(Oldest(old(Abs())), blockSize)
      ensures !ok || old(imms) == [] ==> ssts == old(ssts) && tables == old(tables)
      ensures ok && old(imms) != [] ==>
                |ssts| == |old(ssts)| + 1 && ssts[..|old(ssts)|] == old(ssts) && ssts[|old(ssts)|].file.blockSize == blockSize
    {
      hide Inv, Represents, Ascending, Fits, OneRoot, SstSize;
      ok := true;
      if imms == [] { return; }
      var oldest := imms[|imms| - 1];
      var maxKey := Longest(oldest.entries);
      ok := Fits(oldest.entries, blockSize, maxKey);
      if !ok { return; }
      var file, footer; ghost var bs, ls;
      file, footer, bs, ls := Build(oldest.entries, blockSize, maxKey);
      ok := OneRoot(oldest.entries, blockSize, maxKey) && |file.bytes| <= U64;
      if ok {
        FlushedKeeps(Abs());
        OldestAscends(Abs());
        imms := imms[..|imms| - 1];
        ssts, tables := ssts + [Sst(file, footer)], tables + [Table(bs, ls, oldest.entries)];
        assert TableEntries(tables) == TableEntries(old(tables)) + [oldest.entries];
      }
    }

    /** `write`: apply, switch a full memtable, and flush one when too many
        immutable ones have piled up. */
    method WriteBatch(batch: seq<Entry>) returns (ok: bool)
      requires Valid()
      modifies this
      ensures Valid() && log == old(log) + batch && Abs() == Written(old(Abs()), batch, limit, maxImms, ok)
      ensures forall k: Key :: Lookup(Abs(), k) == Latest(old(log) + batch, k)
      ensures ok <==> !Flushes(old(Abs()), batch, limit, maxImms) ||
                      Buildable(Oldest(Written(old(Abs()), batch, limit, maxImms, false)), blockSize)
      ensures ok && old(|imms|) < maxImms ==> |imms| < maxImms
    {
      hide Inv, Stored, NewestFirst, Apply, Buildable;
      ok := true;
      ApplyBatch(batch);
      if active.size >= limit {
        SwitchMemtable();
        if |imms| >= maxImms {
          ok := FlushOldestImm();
        }
      }
      forall k: Key
        ensures Lookup(Abs(), k) == Latest(log, k)
      {
        InvLooksUp(Abs(), k);
      }
    }

    /** The level-0 SSTs as the sources of a scan: their files read by their
        iterators. */
    method OpenSources() returns (srcs: seq<Runs.Source>)
      requires Valid()
      ensures srcs == Sources(ssts, tables)
    {
      hide Inv, Represents, Ascending, SourceOf;
      srcs := [];
      for i := 0 to |ssts|
        invariant |srcs| == i && srcs == Sources(ssts, tables)[..i]
      {
        assert Stored(ssts[i], tables[i]);
        var src := ReadSource(ssts[i].file, ssts[i].footer, tables[i].bs, tables[i].ls, tables[i].es);
        srcs := srcs + [src];
      }
    }

    /** A scan of a snapshot. */
    method Scan(lower: Bound, upper: Bound, d: Dir) returns (o: Outcome)
      requires Valid()
      ensures o == Scanned(Mems(Abs()), ssts, tables, d, Start(lower, upper, d), End(lower, upper, d))
      ensures o.Yields? <==> !IsStopped(Mems(Abs()), ssts, tables, d, Start(lower, upper, d), End(lower, upper, d))
      ensures lower == upper == Unbounded ==> (o.Yields? <==> Short(ssts))
      ensures Short(ssts) ==> o.Yields?
      ensures o.Yields? ==>
                var read := ReadBy(Mems(Abs()), ssts, tables, d, Start(lower, upper, d));
                && o.out == Within(d, Merged(Abs().(l0 := read), []).All(d), Start(lower, upper, d), End(lower, upper, d))
                && forall k: Key ::
                     if InRange(lower, upper, k) then First(Versions(o.out, k)) == Latest(log, k) <==> UpToDate(Abs(), read, k)
                     else Versions(o.out, k) == []
      ensures o.Yields? && (Short(ssts) || (d == Fwd && lower == Unbounded)) ==>
                o.out == Within(d, Merged(Abs(), []).All(d), Start(lower, upper, d), End(lower, upper, d))
    {
      hide Inv, Stored, ScanOutcome, Merged, Within, Versions, UpToDate, InRange, Latest, AllOrdered;
      hide ShardIter.Strict, Stops;
      TablesOf(Abs());
      SourcesOrdered(ssts, tables);
      MemsOrdered(Mems(Abs()));
      var srcs := OpenSources();
      o := ShardScan.Scan(TableStreams([active.entries] + Tables(imms)), srcs, d, Start(lower, upper, d), End(lower, upper, d));
      Explain(lower, upper, d, o);
    }

    /** What an outcome means for the caller. */
    lemma Explain(lower: Bound, upper: Bound, d: Dir, o: Outcome)
      requires Valid() && o == Scanned(Mems(Abs()), ssts, tables, d, Start(lower, upper, d), End(lower, upper, d))
      ensures o.Yields? <==> !IsStopped(Mems(Abs()), ssts, tables, d, Start(lower, upper, d), End(lower, upper, d))
      ensures lower == upper == Unbounded ==> (o.Yields? <==> Short(ssts))
      ensures Short(ssts) ==> o.Yields?
      ensures o.Yields? ==>
                var read := ReadBy(Mems(Abs()), ssts, tables, d, Start(lower, upper, d));
                && o.out == Within(d, Merged(Abs().(l0 := read), []).All(d), Start(lower, upper, d), End(lower, upper, d))
                && forall k: Key ::
                     if InRange(lower, upper, k) then First(Versions(o.out, k)) == Latest(log, k) <==> UpToDate(Abs(), read, k)
                     else Versions(o.out, k) == []
      ensures o.Yields? && (Short(ssts) || (d == Fwd && lower == Unbounded)) ==>
                o.out == Within(d, Merged(Abs(), []).All(d), Start(lower, upper, d), End(lower, upper, d))
    {
      hide Inv, Scanned, Merged, Within, Versions, UpToDate, InRange, Latest, Ascending, IsStopped, ReadBy, Stored;
      TablesOf(Abs());
      OpenScan(Mems(Abs()), ssts, tables, d);
      EveryScan(Abs(), ssts, tables, d, Start(lower, upper, d), End(lower, upper, d));
      var read := ReadBy(Mems(Abs()), ssts, tables, d, Start(lower, upper, d));
      ReadByAscends(Mems(Abs()), ssts, tables, d, Start(lower, upper, d));
      if Short(ssts) {
        ScansRightIffShort(Abs(), ssts, tables);
      } else if d == Fwd && lower == Unbounded {
        ForwardRight(Abs(), ssts, tables, upper);
      }
      if o.Yields? {
        forall k: Key
          ensures if InRange(lower, upper, k) then First(Versions(o.out, k)) == Latest(log, k) <==> UpToDate(Abs(), read, k)
                  else Versions(o.out, k) == []
        {
          ScanYields(Abs(), read, lower, upper, d, k);
        }
      }
    }
  }

  lemma OldestAscends(s: Lsm)
    requires Inv(s) && s.imms != []
    ensures Ascending(s.imms[|s.imms| - 1].entries)
  {
    hide Ascending;
    assert NewestFirst(s)[|s.imms|] == s.imms[|s.imms| - 1].entries;
  }

  lemma InvLooksUp(s: Lsm, k: Key)
    requires Inv(s)
    ensures Lookup(s, k) == Latest(s.log, k)
  {
  }

  // ---- a key flushed twice ----

  /** Write one entry to an empty memtable, switch, and flush. */
  function FlushOf(e: Entry): (steps: seq<Step>) {
    [Write([e]), Switch, BuildSst, Publish]
  }

  lemma FlushesOne(s: Lsm, e: Entry, limit: nat)
    requires s.active == EMPTY && s.imms == [] && s.building == None && limit <= SizeOf(e)
    ensures Run(s, FlushOf(e), limit)
    ensures After(s, FlushOf(e), limit) == s.(l0 := s.l0 + [[e]], log := s.log + [e])
  {
    var a := Next(s, Write([e]), limit);
    var batch := [e];
    assert batch[..0] == [] && Apply(EMPTY, batch[..0]) == EMPTY;
    assert Apply(EMPTY, batch) == Mem(Insert([], e), SizeOf(e));
    assert a == s.(active := Mem([e], SizeOf(e)), log := s.log + [e]);
    var b := Next(a, Switch, limit);
    var c := Next(b, BuildSst, limit);
    var d := Next(c, Publish, limit);
    assert d == s.(l0 := s.l0 + [[e]], log := s.log + [e]);
    var steps := FlushOf(e);
    assert steps[1..] == [Switch, BuildSst, Publish] && steps[1..][1..] == [BuildSst, Publish];
    assert steps[1..][1..][1..] == [Publish] && steps[1..][1..][1..][1..] == [];
    assert After(d, [], limit) == d;
    assert After(c, [Publish], limit) == d;
    assert After(b, [BuildSst, Publish], limit) == d;
    assert After(a, [Switch, BuildSst, Publish], limit) == d;
  }

  lemma {:induction false} RunOn(s: Lsm, steps: seq<Step>, more: seq<Step>, limit: nat)
    requires Run(s, steps, limit) && Run(After(s, steps, limit), more, limit)
    ensures Run(s, steps + more, limit) && After(s, steps + more, limit) == After(After(s, steps, limit), more, limit)
    decreases |steps|
  {
    if steps == [] {
      assert steps + more == more;
    } else {
      assert (steps + more)[1..] == steps[1..] + more;
      RunOn(Next(s, steps[0], limit), steps[1..], more, limit);
    }
  }

  lemma FlushesTwo(e: Entry, f: Entry, limit: nat)
    requires limit <= SizeOf(e) && limit <= SizeOf(f)
    ensures Run(FRESH, FlushOf(e) + FlushOf(f), limit)
    ensures After(FRESH, FlushOf(e) + FlushOf(f), limit) == Lsm(EMPTY, [], [[e], [f]], None, [e, f])
  {
    hide FlushOf, Run, After;
    FlushesOne(FRESH, e, limit);
    FlushesOne(After(FRESH, FlushOf(e), limit), f, limit);
    RunOn(FRESH, FlushOf(e), FlushOf(f), limit);
  }

  lemma OldestFirst(e: Entry, f: Entry, d: Dir)
    requires e.key == f.key
    ensures First(Versions(Merged(Lsm(EMPTY, [], [[e], [f]], None, [e, f]), []).All(d), e.key)) == Some(e)
  {
    hide Merged;
    var t := Lsm(EMPTY, [], [[e], [f]], None, [e, f]);
    MergedVersions(t, [], d, e.key);
    assert Mems(t) == [[]] && AllVersions([[]], e.key) == [];
    assert Versions([e], e.key) == [e] && AllVersions(t.l0, e.key)[0] == e;
  }

  /** The failing case: flush a key twice with two values. The scan yields the
      older one first, in either direction. */
  lemma ScanFindsOldest(k: Key, v: Bytes, w: Bytes, limit: nat, d: Dir)
    requires limit <= |k|
    ensures var steps := FlushOf(Put(k, v)) + FlushOf(Put(k, w));
            && Run(FRESH, steps, limit)
            && First(Versions(Merged(After(FRESH, steps, limit), []).All(d), k)) == Some(Put(k, v))
            && Latest(After(FRESH, steps, limit).log, k) == Some(Put(k, w))
  {
    hide Merged, FlushOf, Run, After, Versions;
    FlushesTwo(Put(k, v), Put(k, w), limit);
    OldestFirst(Put(k, v), Put(k, w), d);
  }

  // ---- an SST that is too tall ----

  /** Entries written in key order fill a memtable in that order. */
  lemma {:induction false} AppliedInOrder(es: seq<Entry>)
    requires Ascending(es)
    ensures Apply(EMPTY, es).entries == es
    decreases |es|
  {
    hide Less;
    if es != [] {
      var n := |es| - 1;
      AppliedInOrder(es[..n]);
      InsertLast(es[..n], es[n]);
    }
  }

  lemma {:induction false} InsertLast(es: seq<Entry>, e: Entry)
    requires Ascending(es + [e])
    ensures Insert(es, e) == es + [e]
    decreases |es|
  {
    hide Less;
    LessIsStrictTotalOrder();
    if es != [] {
      assert (es + [e])[0] == es[0] && (es + [e])[|es|] == e;
      assert forall i | 0 <= i < |es| :: (es[1..] + [e])[i] == (es + [e])[i + 1];
      InsertLast(es[1..], e);
    }
  }

  lemma TallFits()
    ensures Buildable(TallEntries(), 512)
  {
    hide TallEntries, Fits, OneRoot, SstSize, Longest, Ascending, AllLong;
    TallShape();
    FitsLongest(TallEntries(), 512, 1);
    TwoShareABlock(TallEntries(), 512, Longest(TallEntries()));
    assert IndexGrowth.SizeBound(512, 65) <= U64;
  }

  /** Write them to a new shard, switch and flush. */
  lemma TallState(limit: nat)
    requires limit == 0
    ensures var a := Next(FRESH, Write(TallEntries()), limit);
            Flushed(Next(a, Switch, limit)) == Lsm(EMPTY, [], [TallEntries()], None, TallEntries())
  {
    hide TallEntries, Apply, Fits, AllLong, Ascending;
    TallShape();
    AppliedInOrder(TallEntries());
    assert [] + TallEntries() == TallEntries();
  }

  /** Nothing to merge. */
  lemma NothingMerged(d: Dir, log: seq<Entry>, start: Bound, end: Bound)
    ensures Within(d, Merged(Lsm(EMPTY, [], [[]], None, log), []).All(d), start, end) == []
  {
    hide Merged;
    var s := Lsm(EMPTY, [], [[]], None, log);
    var out := Merged(s, []).All(d);
    assert forall k: Key :: AllVersions([[]], k) == [] && AllVersions([], k) == [];
    if out != [] { MergedVersions(s, [], d, out[0].key); }
  }

  /** Without an entry in a memtable nothing is passed over. */
  lemma NeverStops(ssts: seq<Sst>, ts: seq<Table>)
    requires AllStored(ssts, ts)
    ensures !Stops([[]], ssts, ts)
  {
    hide Stored, OpenStops, AllOrdered, ShardIter.Strict;
    SourcesOrdered(ssts, ts);
    OpenStopsIff(TableStreams([[]]), Sources(ssts, ts));
    assert Alls(TableStreams([[]]), Fwd) == [[]] && MergeAll(Fwd, [[]]) == [];
  }

  method TallStore() returns (store: Store)
    ensures fresh(store) && store.Valid()
    ensures store.Abs() == Lsm(EMPTY, [], [TallEntries()], None, TallEntries())
    ensures |store.ssts| == 1 && store.ssts[0].footer.height >= 3
  {
    hide Inv, TallEntries, Buildable, Fits, Apply, AllLong, Represents, Ascending;
    store := new Store(0, 1, 512);
    TallShape();
    TallFits();
    TallState(0);
    AppliedInOrder(TallEntries());
    store.ApplyBatch(TallEntries());
    store.SwitchMemtable();
    var flushed := store.FlushOldestImm();
    assert store.Abs().l0[0] == store.tables[0].es;
    assert Stored(store.ssts[0], store.tables[0]);
    ManyLongAreTall(store.ssts[0].file, store.ssts[0].footer, store.tables[0].bs, store.tables[0].ls, TallEntries());
  }

  /** Sixty-five writes of three hundred bytes into blocks of 512: once they are
      flushed, no scan finds them. Without bounds it is stopped; from any key on
      it yields nothing. */
  method ScanMissesTall(lower: Bound, upper: Bound, d: Dir) returns (o: Outcome)
    ensures lower == upper == Unbounded ==> o == OutOfRange
    ensures Start(lower, upper, d) != Unbounded ==> o == Yields([])
  {
    hide Inv, Scanned, Merged, Within, Versions, UpToDate, InRange, Latest, TallEntries, Stored, Stops;
    var store := TallStore();
    o := store.Scan(lower, upper, d);
    assert ShortTables(store.ssts, store.tables) == [[]];
    NothingMerged(d, TallEntries(), Start(lower, upper, d), End(lower, upper, d));
    NeverStops(store.ssts, store.tables);
    assert Mems(store.Abs()) == [[]];
  }

  // ---- the composed iterator ----

  /** A level below 0: its SSTs do not overlap. */
  predicate IsLevel(level: seq<Stream>) {
    && ConcatIter.Ascend(Alls(level, Fwd)) && ConcatIter.Ascend(Alls(level, Rev))
    && AllSorted(Fwd, Alls(level, Fwd)) && AllSorted(Rev, Alls(level, Rev))
  }

  function LevelStreams(levels: seq<seq<Stream>>): (below: seq<Stream>)
    ensures |below| == |levels|
    ensures forall i | 0 <= i < |levels| ::
              && below[i].fwd == ConcatIter.Flat(Fwd, Alls(levels[i], Fwd))
              && below[i].rev == ConcatIter.Flat(Rev, Alls(levels[i], Rev))
  {
    seq(|levels|, i requires 0 <= i < |levels| =>
      Stream(ConcatIter.Flat(Fwd, Alls(levels[i], Fwd)), ConcatIter.Flat(Rev, Alls(levels[i], Rev)), []))
  }

  method ConcatLevels(levels: seq<seq<Stream>>) returns (below: seq<Stream>)
    requires forall i | 0 <= i < |levels| :: IsLevel(levels[i])
    ensures |below| == |levels| && forall i | 0 <= i < |levels| :: below[i].Ordered()
    ensures forall d :: Alls(below, d) == Alls(LevelStreams(levels), d)
  {
    hide Sorted, ConcatIter.Ascend, ConcatIter.FlatUp, ConcatIter.FlatDown, AllSorted;
    below := [];
    for i := 0 to |levels|
      invariant |below| == i && forall j | 0 <= j < i ::
                  below[j].Ordered() && below[j].fwd == LevelStreams(levels)[j].fwd && below[j].rev == LevelStreams(levels)[j].rev
    {
      var level := new ConcatIter.ConcatIter(levels[i]);
      level.AbsOrdered(Fwd);
      below := below + [level.Abs(Fwd)];
    }
    assert Alls(below, Fwd) == Alls(LevelStreams(levels), Fwd) && Alls(below, Rev) == Alls(LevelStreams(levels), Rev);
  }

  /** Building the iterator of a shard whose parts all keep the contract gives
      one that keeps it too, over their merge: every operation on it is the one
      on `Composed`. */
  method Compose(mems: seq<Stream>, l0: seq<Stream>, levels: seq<seq<Stream>>) returns (it: TwoMergeIter.TwoMergeIter)
    requires forall i | 0 <= i < |mems| :: mems[i].Ordered()
    requires forall i | 0 <= i < |l0| :: l0[i].Ordered()
    requires forall i | 0 <= i < |levels| :: IsLevel(levels[i])
    ensures fresh(it) && it.Valid() && it.dir == Fwd
    ensures var all := Composed(mems, l0, LevelStreams(levels));
            all.Ordered() && it.Abs() == all.SeekToFirst(Fwd)
  {
    hide Sorted, MergeAll, Overlay, IsLevel;
    var below := ConcatLevels(levels);
    var mem := new MergeIter.MergeIter(ShardIter.Sounds(mems));
    var zero := new MergeIter.MergeIter(ShardIter.Sounds(l0));
    var rest := new MergeIter.MergeIter(ShardIter.Sounds(below));
    assert MergeIter.Sts(mem.iters) == mems && MergeIter.Sts(zero.iters) == l0 && MergeIter.Sts(rest.iters) == below;
    var sst := new TwoMergeIter.TwoMergeIter(zero.Abs(), rest.Abs());
    OverlayOrdered(zero.Abs(), rest.Abs());
    it := new TwoMergeIter.TwoMergeIter(mem.Abs(), sst.As(Fwd));
    OverlayOrdered(mem.Abs(), sst.As(Fwd));
  }

  /** What a flush writes, read back through the SST iterator, is the memtable. */
  method FlushedTableReads(m: Mem, blockSize: nat) returns (forward: seq<Entry>, backward: seq<Entry>)
    requires Ascending(m.entries) && Fits(m.entries, blockSize, Longest(m.entries))
    ensures Buildable(m.entries, blockSize) ==>
              forward == TableStream(m.entries).fwd && backward == TableStream(m.entries).rev
  {
    var size;
    size, forward, backward := BuildAndScan(m.entries, blockSize, Longest(m.entries));
  }
}
