/** Readers sharing the CLOCK pool. Every section under the lock is one step;
    the read from disk is a step of its own, outside the lock. Any number of
    readers interleave, two may load the same block at once, loads may fail. */
module CacheProtocol {
  import opened Keys
  import opened Wrappers
  import opened ClockCache

  /** What a reader is doing with the frame it has pinned. */
  datatype Reader =
    | Loading(key: BlockKey, idx: nat)  // frame prepared, read in progress
    | Loaded(key: BlockKey, idx: nat)   // read finished, not yet published
    | Holding(key: BlockKey, idx: nat)  // a live guard on the block's bytes

  datatype State = State(cache: Cache, readers: map<nat, Reader>)

  datatype Step =
    | Hit(id: nat, key: BlockKey)
    | Miss(id: nat, key: BlockKey)
    | Wait(key: BlockKey)
    | ReadPart(id: nat, bytes: Bytes)
    | ReadAll(id: nat)
    | Commit(id: nat)
    | Abort(id: nat)
    | Drop(id: nat)

  /** The contents of every block: a key names one immutable block. */
  type Disk = BlockKey -> Bytes

  predicate Enabled(s: State, step: Step)
    requires Wf(s.cache)
  {
    match step
    case Hit(id, key) => id !in s.readers && key in s.cache.table
    case Miss(id, key) => id !in s.readers && key !in s.cache.table && FindVictim(s.cache).1.Some?
    case Wait(key) => key !in s.cache.table && FindVictim(s.cache).1.None?
    case ReadPart(id, bytes) => id in s.readers && s.readers[id].Loading? && s.readers[id].idx < |s.cache.frames|
    case ReadAll(id) => id in s.readers && s.readers[id].Loading? && s.readers[id].idx < |s.cache.frames|
    case Commit(id) => id in s.readers && s.readers[id].Loaded? && s.readers[id].idx < |s.cache.frames|
    case Abort(id) => id in s.readers && s.readers[id].Loading? && Pinned(s.cache, s.readers[id].idx)
    case Drop(id) => id in s.readers && s.readers[id].Holding? && Pinned(s.cache, s.readers[id].idx)
  }

  predicate Pinned(c: Cache, i: nat) {
    i < |c.frames| && c.frames[i].pinCount > 0
  }

  function Fill(c: Cache, i: nat, bytes: Bytes): (c': Cache)
    requires i < |c.frames|
  {
    c.(frames := c.frames[i := c.frames[i].(buf := bytes)])
  }

  function Next(s: State, step: Step, disk: Disk): (s': State)
    requires Wf(s.cache) && Enabled(s, step)
  {
    match step
    case Hit(id, key) =>
      State(PinHit(s.cache, key), s.readers[id := Holding(key, s.cache.table[key])])
    case Miss(id, key) =>
      VictimUnlessAllPinned(s.cache);
      var (c, v) := FindVictim(s.cache);
      State(PrepareLoad(c, v.value), s.readers[id := Loading(key, v.value)])
    case Wait(key) =>
      s.(cache := FindVictim(s.cache).0)
    case ReadPart(id, bytes) =>
      s.(cache := Fill(s.cache, s.readers[id].idx, bytes))
    case ReadAll(id) =>
      var Loading(key, i) := s.readers[id];
      State(Fill(s.cache, i, disk(key)), s.readers[id := Loaded(key, i)])
    case Commit(id) =>
      var Loaded(key, i) := s.readers[id];
      State(CommitLoad(s.cache, i, key), s.readers[id := Holding(key, i)])
    case Abort(id) =>
      State(Unpin(s.cache, s.readers[id].idx), s.readers - {id})
    case Drop(id) =>
      State(Unpin(s.cache, s.readers[id].idx), s.readers - {id})
  }

  // ---- the invariant ----

  function On(readers: map<nat, Reader>, i: nat): (ids: set<nat>) {
    set id | id in readers && readers[id].idx == i
  }

  /** A table entry always points at a frame holding that key. */
  predicate TableAgrees(c: Cache) {
    forall k | k in c.table :: c.table[k] < |c.frames| && c.frames[c.table[k]].key == Some(k)
  }

  /** A frame with a key holds that block's bytes. */
  ghost predicate FramesTrue(c: Cache, disk: Disk) {
    forall i | 0 <= i < |c.frames| && c.frames[i].key.Some? :: c.frames[i].buf == disk(c.frames[i].key.value)
  }

  /** Pins count the readers on a frame. */
  predicate PinsCount(s: State) {
    forall i | 0 <= i < |s.cache.frames| :: s.cache.frames[i].pinCount == |On(s.readers, i)|
  }

  /** A loader has its frame to itself and unpublished; a guard's frame holds
      its key. */
  ghost predicate ReaderTrue(s: State, disk: Disk, id: nat)
    requires id in s.readers
  {
    var r := s.readers[id];
    && r.idx < |s.cache.frames|
    && (r.Holding? ==> s.cache.frames[r.idx].key == Some(r.key))
    && (!r.Holding? ==> s.cache.frames[r.idx].key == None && On(s.readers, r.idx) == {id})
    && (r.Loaded? ==> s.cache.frames[r.idx].buf == disk(r.key))
  }

  ghost predicate Inv(s: State, disk: Disk) {
    && Wf(s.cache)
    && TableAgrees(s.cache)
    && FramesTrue(s.cache, disk)
    && PinsCount(s)
    && (forall id | id in s.readers :: ReaderTrue(s, disk, id))
  }

  function Initial(capacity: nat, blockSize: nat): (s: State) {
    State(Cache(seq(capacity, _ => Frame(seq(blockSize, _ => 0), None, false, 0)), map[], 0), map[])
  }

  lemma InitialHolds(capacity: nat, blockSize: nat, disk: Disk)
    ensures Inv(Initial(capacity, blockSize), disk)
  {
    assert forall i :: On(map[], i) == {};
  }

  // ---- how the readers on a frame change ----

  lemma OnAdded(readers: map<nat, Reader>, id: nat, r: Reader, i: nat)
    requires id !in readers
    ensures On(readers[id := r], i) == if r.idx == i then On(readers, i) + {id} else On(readers, i)
    ensures id !in On(readers, i)
  {
  }

  lemma OnChanged(readers: map<nat, Reader>, id: nat, r: Reader, i: nat)
    requires id in readers && r.idx == readers[id].idx
    ensures On(readers[id := r], i) == On(readers, i)
  {
  }

  lemma OnRemoved(readers: map<nat, Reader>, id: nat, i: nat)
    requires id in readers
    ensures On(readers - {id}, i) == On(readers, i) - {id}
    ensures id in On(readers, i) <==> readers[id].idx == i
  {
  }

  // ---- every step keeps it ----

  lemma HitKeeps(s: State, disk: Disk, id: nat, key: BlockKey)
    requires Inv(s, disk) && Enabled(s, Hit(id, key))
    ensures Inv(Next(s, Hit(id, key), disk), disk)
  {
    var i := s.cache.table[key];
    var r := Holding(key, i);
    var s' := Next(s, Hit(id, key), disk);
    forall j | 0 <= j < |s'.cache.frames|
      ensures s'.cache.frames[j].pinCount == |On(s'.readers, j)|
    {
      OnAdded(s.readers, id, r, j);
    }
    forall x | x in s'.readers
      ensures ReaderTrue(s', disk, x)
    {
      if x != id {
        assert ReaderTrue(s, disk, x);
        OnAdded(s.readers, id, r, s.readers[x].idx);
      }
    }
  }

  /** The victim's old mapping goes with it; every other frame is untouched. */
  lemma PrepareKeepsFrames(c: Cache, v: nat, disk: Disk)
    requires Wf(c) && TableAgrees(c) && FramesTrue(c, disk) && v < |c.frames|
    ensures var c' := PrepareLoad(c, v); Wf(c') && TableAgrees(c') && FramesTrue(c', disk)
  {
  }

  lemma OnHas(readers: map<nat, Reader>, x: nat, i: nat)
    requires x in readers
    ensures x in On(readers, i) <==> readers[x].idx == i
  {
  }

  lemma MissPins(s: State, disk: Disk, id: nat, key: BlockKey)
    requires Inv(s, disk) && Enabled(s, Miss(id, key))
    ensures PinsCount(Next(s, Miss(id, key), disk))
  {
    hide FindVictim, On, TableAgrees, FramesTrue, ReaderTrue;
    VictimUnlessAllPinned(s.cache);
    var v := FindVictim(s.cache).1;
    var s' := Next(s, Miss(id, key), disk);
    forall j | 0 <= j < |s'.cache.frames|
      ensures s'.cache.frames[j].pinCount == |On(s'.readers, j)|
    {
      OnAdded(s.readers, id, Loading(key, v.value), j);
    }
  }

  lemma MissReader(s: State, disk: Disk, id: nat, key: BlockKey, x: nat)
    requires Inv(s, disk) && Enabled(s, Miss(id, key)) && (x == id || x in s.readers)
    ensures ReaderTrue(Next(s, Miss(id, key), disk), disk, x)
  {
    hide FindVictim, On, TableAgrees, FramesTrue;
    VictimUnlessAllPinned(s.cache);
    var v := FindVictim(s.cache).1;
    assert On(s.readers, v.value) == {};
    var s' := Next(s, Miss(id, key), disk);
    OnAdded(s.readers, id, Loading(key, v.value), s'.readers[x].idx);
    if x != id {
      assert ReaderTrue(s, disk, x);
      OnHas(s.readers, x, v.value);
    }
  }

  /** The sweep changes neither mapping nor contents. */
  lemma SweptAgrees(c: Cache, c': Cache, disk: Disk)
    requires TableAgrees(c) && FramesTrue(c, disk) && SamePins(c, c')
    ensures TableAgrees(c') && FramesTrue(c', disk)
  {
  }

  lemma MissKeeps(s: State, disk: Disk, id: nat, key: BlockKey)
    requires Inv(s, disk) && Enabled(s, Miss(id, key))
    ensures Inv(Next(s, Miss(id, key), disk), disk)
  {
    hide FindVictim, On, PinsCount, ReaderTrue, TableAgrees, FramesTrue, PrepareLoad;
    VictimUnlessAllPinned(s.cache);
    var (c, v) := FindVictim(s.cache);
    SweptAgrees(s.cache, c, disk);
    PrepareKeepsFrames(c, v.value, disk);
    MissPins(s, disk, id, key);
    var s' := Next(s, Miss(id, key), disk);
    forall x | x in s'.readers
      ensures ReaderTrue(s', disk, x)
    {
      MissReader(s, disk, id, key, x);
    }
  }

  lemma WaitKeeps(s: State, disk: Disk, key: BlockKey)
    requires Inv(s, disk) && Enabled(s, Wait(key))
    ensures Inv(Next(s, Wait(key), disk), disk)
  {
    VictimUnlessAllPinned(s.cache);
    var s' := Next(s, Wait(key), disk);
    forall x | x in s'.readers
      ensures ReaderTrue(s', disk, x)
    {
      assert ReaderTrue(s, disk, x);
    }
  }

  lemma FillKeeps(s: State, disk: Disk, id: nat, bytes: Bytes)
    requires Inv(s, disk) && Enabled(s, ReadPart(id, bytes))
    ensures Inv(s.(cache := Fill(s.cache, s.readers[id].idx, bytes)), disk)
  {
    var i := s.readers[id].idx;
    var s' := s.(cache := Fill(s.cache, i, bytes));
    assert ReaderTrue(s, disk, id);
    forall x | x in s'.readers
      ensures ReaderTrue(s', disk, x)
    {
      assert ReaderTrue(s, disk, x);
      if x != id {
        assert x in On(s.readers, s.readers[x].idx);
      }
    }
  }

  lemma ReadAllKeeps(s: State, disk: Disk, id: nat)
    requires Inv(s, disk) && Enabled(s, ReadAll(id))
    ensures Inv(Next(s, ReadAll(id), disk), disk)
  {
    var Loading(key, i) := s.readers[id];
    FillKeeps(s, disk, id, disk(key));
    var m := s.(cache := Fill(s.cache, i, disk(key)));
    var s' := Next(s, ReadAll(id), disk);
    RelabelKeeps(m, disk, id, Loaded(key, i), s'.cache);
  }

  /** Changing what a reader is doing, on a pool whose pins did not move. */
  lemma RelabelKeeps(s: State, disk: Disk, id: nat, r: Reader, c: Cache)
    requires Inv(s, disk) && id in s.readers && r.idx == s.readers[id].idx
    requires Wf(c) && TableAgrees(c) && FramesTrue(c, disk) && |c.frames| == |s.cache.frames|
    requires forall i | 0 <= i < |c.frames| :: c.frames[i].pinCount == s.cache.frames[i].pinCount
    requires forall i | 0 <= i < |c.frames| && i != r.idx :: c.frames[i] == s.cache.frames[i]
    requires On(s.readers, r.idx) == {id}
    requires r.Holding? ==> c.frames[r.idx].key == Some(r.key)
    requires !r.Holding? ==> c.frames[r.idx].key == None
    requires r.Loaded? ==> c.frames[r.idx].buf == disk(r.key)
    ensures Inv(State(c, s.readers[id := r]), disk)
  {
    var s' := State(c, s.readers[id := r]);
    assert ReaderTrue(s, disk, id);
    forall j | 0 <= j < |c.frames|
      ensures c.frames[j].pinCount == |On(s'.readers, j)|
    {
      OnChanged(s.readers, id, r, j);
    }
    forall x | x in s'.readers
      ensures ReaderTrue(s', disk, x)
    {
      assert ReaderTrue(s, disk, x);
      OnChanged(s.readers, id, r, s'.readers[x].idx);
      if x != id {
        assert x in On(s.readers, s.readers[x].idx);
      }
    }
  }

  lemma CommitKeeps(s: State, disk: Disk, id: nat)
    requires Inv(s, disk) && Enabled(s, Commit(id))
    ensures Inv(Next(s, Commit(id), disk), disk)
  {
    var Loaded(key, i) := s.readers[id];
    assert ReaderTrue(s, disk, id);
    RelabelKeeps(s, disk, id, Holding(key, i), CommitLoad(s.cache, i, key));
  }

  lemma ReleaseKeeps(s: State, disk: Disk, id: nat)
    requires Inv(s, disk) && id in s.readers && Pinned(s.cache, s.readers[id].idx)
    ensures Inv(State(Unpin(s.cache, s.readers[id].idx), s.readers - {id}), disk)
  {
    hide On, ReaderTrue, TableAgrees, FramesTrue;
    var i := s.readers[id].idx;
    var s' := State(Unpin(s.cache, i), s.readers - {id});
    assert TableAgrees(s'.cache) && FramesTrue(s'.cache, disk) by { UnpinAgrees(s.cache, i, disk); }
    forall j | 0 <= j < |s'.cache.frames|
      ensures s'.cache.frames[j].pinCount == |On(s'.readers, j)|
    {
      OnRemoved(s.readers, id, j);
    }
    forall x | x in s'.readers
      ensures ReaderTrue(s', disk, x)
    {
      ReleaseOther(s, disk, id, x);
    }
  }

  lemma UnpinAgrees(c: Cache, i: nat, disk: Disk)
    requires TableAgrees(c) && FramesTrue(c, disk) && Pinned(c, i)
    ensures TableAgrees(Unpin(c, i)) && FramesTrue(Unpin(c, i), disk)
  {
  }

  lemma ReleaseOther(s: State, disk: Disk, id: nat, x: nat)
    requires Inv(s, disk) && id in s.readers && Pinned(s.cache, s.readers[id].idx) && x in s.readers && x != id
    ensures ReaderTrue(State(Unpin(s.cache, s.readers[id].idx), s.readers - {id}), disk, x)
  {
    hide On, TableAgrees, FramesTrue, PinsCount;
    assert ReaderTrue(s, disk, x);
    OnRemoved(s.readers, id, s.readers[x].idx);
    OnHas(s.readers, x, s.readers[x].idx);
    OnHas(s.readers, id, s.readers[x].idx);
  }

  lemma StepKeeps(s: State, disk: Disk, step: Step)
    requires Inv(s, disk) && Enabled(s, step)
    ensures Inv(Next(s, step, disk), disk)
  {
    hide TableAgrees, FramesTrue, PinsCount, ReaderTrue, FindVictim;
    match step
    case Hit(id, key) => HitKeeps(s, disk, id, key);
    case Miss(id, key) => MissKeeps(s, disk, id, key);
    case Wait(key) => WaitKeeps(s, disk, key);
    case ReadPart(id, bytes) => FillKeeps(s, disk, id, bytes);
    case ReadAll(id) => ReadAllKeeps(s, disk, id);
    case Commit(id) => CommitKeeps(s, disk, id);
    case Abort(id) => ReleaseKeeps(s, disk, id);
    case Drop(id) => ReleaseKeeps(s, disk, id);
  }

  // ---- runs ----

  predicate Run(s: State, steps: seq<Step>, disk: Disk)
    decreases |steps|
  {
    steps == [] || (Wf(s.cache) && Enabled(s, steps[0]) && Run(Next(s, steps[0], disk), steps[1..], disk))
  }

  function After(s: State, steps: seq<Step>, disk: Disk): (t: State)
    requires Run(s, steps, disk)
    decreases |steps|
  {
    if steps == [] then s else After(Next(s, steps[0], disk), steps[1..], disk)
  }

  /** What a guard sees through its pointer. */
  function Sees(s: State, id: nat): (bytes: Bytes)
    requires id in s.readers && s.readers[id].idx < |s.cache.frames|
  {
    s.cache.frames[s.readers[id].idx].buf
  }

  /** In every interleaving: each live guard reads the bytes of the block it
      asked for, pins equal the readers on each frame, and table entries point
      at frames holding their key. */
  lemma {:induction false} EveryRunIsSafe(s: State, steps: seq<Step>, disk: Disk)
    requires Inv(s, disk) && Run(s, steps, disk)
    ensures var t := After(s, steps, disk);
            && Inv(t, disk)
            && (forall id | id in t.readers && t.readers[id].Holding? ::
                  t.readers[id].idx < |t.cache.frames| && Sees(t, id) == disk(t.readers[id].key))
    decreases |steps|
  {
    hide FindVictim, Enabled;
    if steps == [] {
      forall id | id in s.readers && s.readers[id].Holding?
        ensures s.readers[id].idx < |s.cache.frames| && Sees(s, id) == disk(s.readers[id].key)
      {
        assert ReaderTrue(s, disk, id);
      }
    } else {
      StepKeeps(s, disk, steps[0]);
      EveryRunIsSafe(Next(s, steps[0], disk), steps[1..], disk);
    }
  }

  /** From an empty pool, whatever the readers do. */
  lemma EveryRunFromEmptyIsSafe(capacity: nat, blockSize: nat, steps: seq<Step>, disk: Disk)
    requires Run(Initial(capacity, blockSize), steps, disk)
    ensures var t := After(Initial(capacity, blockSize), steps, disk);
            && Inv(t, disk) && |t.cache.frames| == capacity
            && (forall id | id in t.readers && t.readers[id].Holding? ::
                  t.readers[id].idx < capacity && Sees(t, id) == disk(t.readers[id].key))
  {
    hide FindVictim, Inv, Run, After, Initial;
    InitialHolds(capacity, blockSize, disk);
    EveryRunIsSafe(Initial(capacity, blockSize), steps, disk);
    FramesFixed(Initial(capacity, blockSize), steps, disk);
    assert |Initial(capacity, blockSize).cache.frames| == capacity by { InitialSize(capacity, blockSize); }
  }

  lemma InitialSize(capacity: nat, blockSize: nat)
    ensures |Initial(capacity, blockSize).cache.frames| == capacity
  {
  }

  lemma {:induction false} FramesFixed(s: State, steps: seq<Step>, disk: Disk)
    requires Inv(s, disk) && Run(s, steps, disk)
    ensures |After(s, steps, disk).cache.frames| == |s.cache.frames|
    decreases |steps|
  {
    if steps != [] {
      VictimUnlessAllPinned(s.cache);
      StepKeeps(s, disk, steps[0]);
      FramesFixed(Next(s, steps[0], disk), steps[1..], disk);
    }
  }

  /** The pin a reader gives back is always there: no step under the invariant
      is refused for a missing pin or a bad frame index. */
  lemma ReadersArePinned(s: State, disk: Disk, id: nat)
    requires Inv(s, disk) && id in s.readers
    ensures Pinned(s.cache, s.readers[id].idx)
    ensures s.readers[id].Loading? ==> Enabled(s, ReadAll(id)) && Enabled(s, Abort(id))
    ensures s.readers[id].Loaded? ==> Enabled(s, Commit(id))
    ensures s.readers[id].Holding? ==> Enabled(s, Drop(id))
  {
    assert ReaderTrue(s, disk, id);
    assert id in On(s.readers, s.readers[id].idx);
  }

  // ---- no waiting while frames are free ----

  function Free(c: Cache): (free: set<nat>) {
    set i: nat | i < |c.frames| && c.frames[i].pinCount == 0
  }

  /** A reader is served at once, by a hit or a victim, exactly when the block
      is resident or some frame is unpinned; and it takes at most one frame. */
  lemma ServedWhileFree(s: State, disk: Disk, id: nat, key: BlockKey)
    requires Inv(s, disk) && id !in s.readers
    ensures Enabled(s, Hit(id, key)) || Enabled(s, Miss(id, key)) <==> key in s.cache.table || Free(s.cache) != {}
    ensures Enabled(s, Hit(id, key)) ==> |Free(Next(s, Hit(id, key), disk).cache)| >= |Free(s.cache)| - 1
    ensures Enabled(s, Miss(id, key)) ==> |Free(Next(s, Miss(id, key), disk).cache)| == |Free(s.cache)| - 1
  {
    hide FindVictim, Inv;
    assert Wf(s.cache) by { InvWf(s, disk); }
    VictimUnlessAllPinned(s.cache);
    assert Free(s.cache) != {} <==> !AllPinned(s.cache) by { FreeIff(s.cache); }
    if Enabled(s, Hit(id, key)) {
      var i := s.cache.table[key];
      assert Free(PinHit(s.cache, key)) == Free(s.cache) - {i};
    }
    if Enabled(s, Miss(id, key)) {
      var (c, v) := FindVictim(s.cache);
      assert Free(c) == Free(s.cache) && v.value in Free(c);
      assert Free(PrepareLoad(c, v.value)) == Free(c) - {v.value};
    }
  }

  lemma InvWf(s: State, disk: Disk)
    requires Inv(s, disk)
    ensures Wf(s.cache)
  {
  }

  lemma FreeIff(c: Cache)
    ensures Free(c) != {} <==> !AllPinned(c)
  {
    if !AllPinned(c) {
      var i: nat :| i < |c.frames| && c.frames[i].pinCount == 0;
      assert i in Free(c);
    }
  }
}
