/** Reading a frame through the block cache: `load_current_frame` takes a guard on
    every block the frame lies in and keeps them all until it has copied it. */
module FrameRead {
  import opened Keys
  import opened Wrappers
  import opened ClockCache
  import opened CacheProtocol
  import opened WalFrame

  /** The steps of one `read_block` that does not have to wait. */
  function ReadSteps(s: State, id: nat, key: BlockKey): (steps: seq<Step>) {
    if key in s.cache.table then [Hit(id, key)] else [Miss(id, key), ReadAll(id), Commit(id)]
  }

  predicate NoWait(steps: seq<Step>) {
    forall i | 0 <= i < |steps| :: !steps[i].Wait?
  }

  /** A reader with a guard more, everyone else as before. */
  predicate Took(s: State, t: State, id: nat, key: BlockKey) {
    && id in t.readers && t.readers[id].Holding? && t.readers[id].key == key
    && t.readers == s.readers[id := t.readers[id]]
  }

  lemma {:induction false} RunOn(s: State, steps: seq<Step>, more: seq<Step>, disk: Disk)
    requires Run(s, steps, disk) && Run(After(s, steps, disk), more, disk)
    ensures Run(s, steps + more, disk) && After(s, steps + more, disk) == After(After(s, steps, disk), more, disk)
    decreases |steps|
  {
    hide Enabled, Next;
    if steps == [] {
      assert steps + more == more;
    } else {
      assert (steps + more)[1..] == steps[1..] + more;
      RunOn(Next(s, steps[0], disk), steps[1..], more, disk);
    }
  }

  /** A cached block: one step, and the page table stays. */
  lemma HitReads(s: State, disk: Disk, id: nat, key: BlockKey)
    requires Inv(s, disk) && id !in s.readers && key in s.cache.table
    ensures Run(s, [Hit(id, key)], disk)
    ensures var t := After(s, [Hit(id, key)], disk);
            && t == Next(s, Hit(id, key), disk) && Inv(t, disk) && Took(s, t, id, key) && t.cache.table == s.cache.table
            && |Free(s.cache)| - 1 <= |Free(t.cache)| <= |Free(s.cache)|
  {
    hide Inv, FindVictim;
    InvWf(s, disk);
    ServedWhileFree(s, disk, id, key);
    StepKeeps(s, disk, Hit(id, key));
    assert Run(Next(s, Hit(id, key), disk), [], disk);
    var i := s.cache.table[key];
    assert Free(PinHit(s.cache, key)) == Free(s.cache) - {i};
  }

  /** The cache after loading a block into the victim. */
  function LoadedCache(c: Cache, key: BlockKey, bytes: Bytes): (c': Cache)
    requires Wf(c) && FindVictim(c).1.Some?
  {
    VictimUnlessAllPinned(c);
    var (a, v) := FindVictim(c);
    CommitLoad(Fill(PrepareLoad(a, v.value), v.value, bytes), v.value, key)
  }

  lemma FreeSame(c: Cache, c': Cache)
    requires |c'.frames| == |c.frames|
    requires forall i | 0 <= i < |c.frames| :: c'.frames[i].pinCount == c.frames[i].pinCount
    ensures Free(c') == Free(c)
  {
  }

  /** A block that is not cached: it takes a free frame, and no other block gets
      into the page table. */
  lemma MissReads(s: State, disk: Disk, id: nat, key: BlockKey)
    requires Inv(s, disk) && id !in s.readers && key !in s.cache.table && Free(s.cache) != {}
    ensures Run(s, [Miss(id, key), ReadAll(id), Commit(id)], disk)
    ensures var t := After(s, [Miss(id, key), ReadAll(id), Commit(id)], disk);
            && Inv(t, disk) && Took(s, t, id, key) && |Free(t.cache)| == |Free(s.cache)| - 1
            && (forall k | k in t.cache.table :: k == key || k in s.cache.table)
            && Wf(s.cache) && FindVictim(s.cache).1.Some? && t.cache == LoadedCache(s.cache, key, disk(key))
  {
    hide Inv, FindVictim, Free;
    InvWf(s, disk);
    ServedWhileFree(s, disk, id, key);
    StepKeeps(s, disk, Miss(id, key));
    VictimUnlessAllPinned(s.cache);
    var a := Next(s, Miss(id, key), disk);
    InvWf(a, disk);
    ReadersArePinned(a, disk, id);
    StepKeeps(a, disk, ReadAll(id));
    var b := Next(a, ReadAll(id), disk);
    InvWf(b, disk);
    ReadersArePinned(b, disk, id);
    StepKeeps(b, disk, Commit(id));
    var c := Next(b, Commit(id), disk);
    FreeSame(a.cache, b.cache);
    FreeSame(b.cache, c.cache);
    ThreeSteps(s, Miss(id, key), ReadAll(id), Commit(id), disk);
  }

  lemma ThreeSteps(s: State, x: Step, y: Step, z: Step, disk: Disk)
    requires Wf(s.cache) && Enabled(s, x)
    requires var a := Next(s, x, disk); Wf(a.cache) && Enabled(a, y)
    requires var b := Next(Next(s, x, disk), y, disk); Wf(b.cache) && Enabled(b, z)
    ensures Run(s, [x, y, z], disk) && After(s, [x, y, z], disk) == Next(Next(Next(s, x, disk), y, disk), z, disk)
  {
    hide Enabled, Next;
    assert [x, y, z][1..] == [y, z] && [y, z][1..] == [z] && [z][1..] == [];
    var b := Next(Next(s, x, disk), y, disk);
    assert Run(b, [z], disk) && After(b, [z], disk) == Next(b, z, disk);
  }

  lemma ReadsOne(s: State, disk: Disk, id: nat, key: BlockKey)
    requires Inv(s, disk) && id !in s.readers && (key in s.cache.table || Free(s.cache) != {})
    ensures Run(s, ReadSteps(s, id, key), disk) && NoWait(ReadSteps(s, id, key))
    ensures var t := After(s, ReadSteps(s, id, key), disk);
            && Inv(t, disk) && Took(s, t, id, key)
            && |Free(s.cache)| - 1 <= |Free(t.cache)| <= |Free(s.cache)| - (if key in s.cache.table then 0 else 1)
            && (forall k | k in t.cache.table :: k == key || k in s.cache.table)
  {
    hide Inv, Free, Run, After, Took;
    if key in s.cache.table { HitReads(s, disk, id, key); } else { MissReads(s, disk, id, key); }
  }

  // ---- many blocks, all guards kept ----

  /** Blocks `keys` can be read one after the other, without waiting and without
      letting go of any. */
  predicate CanRead(s: State, disk: Disk, id: nat, keys: seq<BlockKey>)
    decreases |keys|
  {
    keys == [] ||
    (Run(s, ReadSteps(s, id, keys[0]), disk) &&
     CanRead(After(s, ReadSteps(s, id, keys[0]), disk), disk, id + 1, keys[1..]))
  }

  function AllSteps(s: State, disk: Disk, id: nat, keys: seq<BlockKey>): (steps: seq<Step>)
    requires CanRead(s, disk, id, keys)
    decreases |keys|
  {
    if keys == [] then []
    else
      var first := ReadSteps(s, id, keys[0]);
      first + AllSteps(After(s, first, disk), disk, id + 1, keys[1..])
  }

  /** They are a run. */
  lemma {:induction false} AllStepsRun(s: State, disk: Disk, id: nat, keys: seq<BlockKey>)
    requires CanRead(s, disk, id, keys)
    ensures Run(s, AllSteps(s, disk, id, keys), disk) && NoWait(AllSteps(s, disk, id, keys))
    decreases |keys|
  {
    if keys != [] {
      var first := ReadSteps(s, id, keys[0]);
      var t := After(s, first, disk);
      AllStepsRun(t, disk, id + 1, keys[1..]);
      RunOn(s, first, AllSteps(t, disk, id + 1, keys[1..]), disk);
    }
  }

  predicate Fresh(s: State, id: nat) {
    forall x | x in s.readers :: x < id
  }

  /** Guards `id` and on are on `keys`; everyone else is where they were. */
  predicate AllTook(s: State, t: State, id: nat, keys: seq<BlockKey>) {
    && (forall x | x in s.readers :: x in t.readers && t.readers[x] == s.readers[x])
    && (forall x | x in t.readers :: x in s.readers || id <= x < id + |keys|)
    && (forall x | id <= x < id + |keys| :: x in t.readers && t.readers[x].Holding? && t.readers[x].key == keys[x - id])
  }

  lemma TookMore(s: State, m: State, t: State, id: nat, keys: seq<BlockKey>)
    requires Fresh(s, id) && keys != [] && Took(s, m, id, keys[0]) && AllTook(m, t, id + 1, keys[1..])
    ensures AllTook(s, t, id, keys)
  {
    forall x | id <= x < id + |keys|
      ensures x in t.readers && t.readers[x].Holding? && t.readers[x].key == keys[x - id]
    {
      if x > id { assert keys[1..][x - (id + 1)] == keys[x - id]; }
    }
  }

  /** With a free frame for every block, all reads run without waiting, and at
      the end the guards are on the blocks. */
  lemma {:induction false} ReadsServed(s: State, disk: Disk, id: nat, keys: seq<BlockKey>)
    requires Inv(s, disk) && Fresh(s, id) && |keys| <= |Free(s.cache)|
    ensures CanRead(s, disk, id, keys) && Run(s, AllSteps(s, disk, id, keys), disk) && NoWait(AllSteps(s, disk, id, keys))
    ensures var t := After(s, AllSteps(s, disk, id, keys), disk); Inv(t, disk) && AllTook(s, t, id, keys)
    decreases |keys|
  {
    hide Inv, Free, ReadSteps, Took, AllTook, Run, After;
    if keys == [] {
      NothingTook(s, id, disk);
    } else {
      ReadsOne(s, disk, id, keys[0]);
      var first := ReadSteps(s, id, keys[0]);
      var m := After(s, first, disk);
      FreshAfter(s, m, id, keys[0]);
      ReadsServed(m, disk, id + 1, keys[1..]);
      var rest := AllSteps(m, disk, id + 1, keys[1..]);
      AllStepsRun(s, disk, id, keys);
      RunOn(s, first, rest, disk);
      TookMore(s, m, After(m, rest, disk), id, keys);
    }
  }

  lemma NothingTook(s: State, id: nat, disk: Disk)
    ensures Run(s, [], disk) && After(s, [], disk) == s && AllTook(s, s, id, [])
  {
  }

  lemma FreshAfter(s: State, m: State, id: nat, key: BlockKey)
    requires Fresh(s, id) && Took(s, m, id, key)
    ensures Fresh(m, id + 1)
  {
  }

  /** What the guards see is what is on the disk. */
  lemma GuardsSee(s: State, t: State, disk: Disk, id: nat, keys: seq<BlockKey>)
    requires Inv(t, disk) && AllTook(s, t, id, keys)
    ensures forall x | id <= x < id + |keys| ::
              x in t.readers && t.readers[x].idx < |t.cache.frames| && Sees(t, x) == disk(keys[x - id])
  {
    EveryRunIsSafe(t, [], disk);
  }

  // ---- too few frames ----

  predicate Distinct(keys: seq<BlockKey>) {
    forall i, j | 0 <= i < j < |keys| :: keys[i] != keys[j]
  }

  function Uncached(table: map<BlockKey, nat>, keys: seq<BlockKey>): (n: nat)
    decreases |keys|
  {
    if keys == [] then 0 else (if keys[0] in table then 0 else 1) + Uncached(table, keys[1..])
  }

  /** Caching one block that is not among them, and evicting some, does not
      bring any in. */
  lemma {:induction false} UncachedStays(table: map<BlockKey, nat>, table': map<BlockKey, nat>,
                                         keys: seq<BlockKey>, key: BlockKey)
    requires (forall k | k in table' :: k == key || k in table) && key !in keys
    ensures Uncached(table', keys) >= Uncached(table, keys)
    decreases |keys|
  {
    if keys != [] {
      assert keys[0] in keys;
      UncachedStays(table, table', keys[1..], key);
    }
  }

  /** The reader of this block can only wait. */
  ghost predicate OnlyWait(s: State, key: BlockKey) {
    && Wf(s.cache) && Enabled(s, Wait(key))
    && forall id: nat :: !Enabled(s, Hit(id, key)) && !Enabled(s, Miss(id, key))
  }

  lemma WaitsIfPinned(s: State, disk: Disk, key: BlockKey)
    requires Inv(s, disk) && key !in s.cache.table && Free(s.cache) == {}
    ensures OnlyWait(s, key)
  {
    hide Inv, FindVictim;
    InvWf(s, disk);
    FreeIff(s.cache);
    VictimUnlessAllPinned(s.cache);
  }

  /** Waiting changes nothing about that, as long as nobody lets go. */
  lemma StillWaits(s: State, disk: Disk, key: BlockKey)
    requires Inv(s, disk) && OnlyWait(s, key)
    ensures Inv(Next(s, Wait(key), disk), disk) && OnlyWait(Next(s, Wait(key), disk), key)
    ensures Next(s, Wait(key), disk).readers == s.readers
  {
    hide Inv, FindVictim;
    StepKeeps(s, disk, Wait(key));
    VictimUnlessAllPinned(s.cache);
    var t := Next(s, Wait(key), disk);
    FreeIff(s.cache);
    FreeIff(t.cache);
    FreeSame(s.cache, t.cache);
    WaitsIfPinned(t, disk, key);
  }

  /** Where not all blocks can be read without waiting, the reads before some
      block run, and then its reader, who has kept all guards, can only wait. */
  lemma {:induction false} ReadsStuck(s: State, disk: Disk, id: nat, keys: seq<BlockKey>) returns (k: nat)
    requires Inv(s, disk) && Fresh(s, id) && !CanRead(s, disk, id, keys)
    ensures k < |keys| && CanRead(s, disk, id, keys[..k])
    ensures Run(s, AllSteps(s, disk, id, keys[..k]), disk)
    ensures var t := After(s, AllSteps(s, disk, id, keys[..k]), disk);
            Inv(t, disk) && AllTook(s, t, id, keys[..k]) && OnlyWait(t, keys[k])
    decreases |keys|
  {
    hide Inv, Free, ReadSteps, Took, AllTook, Run, After, OnlyWait;
    if keys[0] !in s.cache.table && Free(s.cache) == {} {
      k := 0;
      NothingTook(s, id, disk);
      WaitsIfPinned(s, disk, keys[0]);
    } else {
      ReadsOne(s, disk, id, keys[0]);
      var first := ReadSteps(s, id, keys[0]);
      var m := After(s, first, disk);
      FreshAfter(s, m, id, keys[0]);
      var j := ReadsStuck(m, disk, id + 1, keys[1..]);
      k := j + 1;
      assert keys[..k][1..] == keys[1..][..j] && keys[..k][0] == keys[0];
      var rest := AllSteps(m, disk, id + 1, keys[1..][..j]);
      RunOn(s, first, rest, disk);
      TookMore(s, m, After(m, rest, disk), id, keys[..k]);
    }
  }

  lemma FirstWaits(s: State, disk: Disk, id: nat, key: BlockKey)
    requires Inv(s, disk) && key !in s.cache.table && Free(s.cache) == {}
    ensures !Run(s, ReadSteps(s, id, key), disk)
  {
    hide Inv, Free;
    WaitsIfPinned(s, disk, key);
  }

  /** That is so with more uncached blocks than free frames. */
  lemma {:induction false} TooFewFrames(s: State, disk: Disk, id: nat, keys: seq<BlockKey>)
    requires Inv(s, disk) && Fresh(s, id) && Distinct(keys) && |Free(s.cache)| < Uncached(s.cache.table, keys)
    ensures !CanRead(s, disk, id, keys)
    decreases |keys|
  {
    hide Inv, Free, ReadSteps, Took, Run, After;
    if keys[0] !in s.cache.table && Free(s.cache) == {} {
      FirstWaits(s, disk, id, keys[0]);
    } else {
      ReadsOne(s, disk, id, keys[0]);
      var m := After(s, ReadSteps(s, id, keys[0]), disk);
      FreshAfter(s, m, id, keys[0]);
      UncachedStays(s.cache.table, m.cache.table, keys[1..], keys[0]);
      TooFewFrames(m, disk, id + 1, keys[1..]);
    }
  }

  // ---- how many frames it takes ----

  /** The block is in a frame that is pinned already. */
  predicate Held(c: Cache, key: BlockKey) {
    key in c.table && Pinned(c, c.table[key])
  }

  /** A free frame has the block too, after a duplicate load. */
  predicate FreeCopy(c: Cache, key: BlockKey) {
    exists i | 0 <= i < |c.frames| :: c.frames[i].pinCount == 0 && c.frames[i].key == Some(key)
  }

  /** Reading the block may take a free frame: evicting a copy takes the block out
      of the page table, even while another frame with it is pinned. */
  predicate MayNeed(c: Cache, key: BlockKey) {
    !Held(c, key) || FreeCopy(c, key)
  }

  function Needs(c: Cache, keys: seq<BlockKey>): (n: nat)
    decreases |keys|
  {
    if keys == [] then 0 else (if Held(c, keys[0]) then 0 else 1) + Needs(c, keys[1..])
  }

  function MayNeeds(c: Cache, keys: seq<BlockKey>): (n: nat)
    decreases |keys|
  {
    if keys == [] then 0 else (if MayNeed(c, keys[0]) then 1 else 0) + MayNeeds(c, keys[1..])
  }

  /** From `c` to `c'` no other block becomes held, and none may be needed that
      could not be before. */
  ghost predicate Settles(c: Cache, c': Cache, key: BlockKey) {
    forall k | k != key :: (Held(c', k) ==> Held(c, k)) && (MayNeed(c', k) ==> MayNeed(c, k))
  }

  lemma {:induction false} NeedsGrow(c: Cache, c': Cache, keys: seq<BlockKey>, key: BlockKey)
    requires key !in keys && Settles(c, c', key)
    ensures Needs(c', keys) >= Needs(c, keys) && MayNeeds(c', keys) <= MayNeeds(c, keys)
    decreases |keys|
  {
    hide Held, MayNeed;
    if keys != [] {
      assert keys[0] in keys;
      NeedsGrow(c, c', keys[1..], key);
    }
  }

  lemma {:induction false} NeedsWithin(c: Cache, keys: seq<BlockKey>)
    ensures Needs(c, keys) <= MayNeeds(c, keys)
    ensures (forall i | 0 <= i < |keys| :: Held(c, keys[i]) ==> !FreeCopy(c, keys[i])) ==> Needs(c, keys) == MayNeeds(c, keys)
    decreases |keys|
  {
    hide Held, FreeCopy;
    if keys != [] {
      assert forall i | 0 <= i < |keys| - 1 :: keys[1..][i] == keys[i + 1];
      NeedsWithin(c, keys[1..]);
    }
  }

  lemma HitSettles(s: State, disk: Disk, id: nat, key: BlockKey)
    requires Inv(s, disk) && id !in s.readers && key in s.cache.table
    ensures var t := Next(s, Hit(id, key), disk);
            Settles(s.cache, t.cache, key) && |Free(t.cache)| == |Free(s.cache)| - (if Held(s.cache, key) then 0 else 1)
  {
    var i := s.cache.table[key];
    assert Free(PinHit(s.cache, key)) == Free(s.cache) - {i};
    assert i in Free(s.cache) <==> !Held(s.cache, key);
  }

  lemma LoadSettles(c: Cache, key: BlockKey, bytes: Bytes)
    requires Wf(c) && TableAgrees(c) && key !in c.table && FindVictim(c).1.Some?
    ensures Settles(c, LoadedCache(c, key, bytes), key)
  {
    hide FindVictim;
    VictimUnlessAllPinned(c);
    var c' := LoadedCache(c, key, bytes);
    forall k | k != key
      ensures (Held(c', k) ==> Held(c, k)) && (MayNeed(c', k) ==> MayNeed(c, k))
    {
      if Held(c, k) && !FreeCopy(c, k) { NoCopyStays(c, key, bytes, k); }
    }
  }

  /** A held block without a free copy stays held. */
  lemma NoCopyStays(c: Cache, key: BlockKey, bytes: Bytes, k: BlockKey)
    requires Wf(c) && TableAgrees(c) && key !in c.table && FindVictim(c).1.Some?
    requires k != key && Held(c, k) && !FreeCopy(c, k)
    ensures var c' := LoadedCache(c, key, bytes); Held(c', k) && !FreeCopy(c', k)
  {
    hide FindVictim;
    VictimUnlessAllPinned(c);
    var v := FindVictim(c).1.value;
    assert c.frames[v].pinCount == 0 && c.frames[v].key != Some(k);
  }

  lemma InvAgrees(s: State, disk: Disk)
    requires Inv(s, disk)
    ensures Wf(s.cache) && TableAgrees(s.cache)
  {
  }

  lemma ReadSettles(s: State, disk: Disk, id: nat, key: BlockKey)
    requires Inv(s, disk) && id !in s.readers && (key in s.cache.table || Free(s.cache) != {})
    ensures Run(s, ReadSteps(s, id, key), disk)
    ensures var t := After(s, ReadSteps(s, id, key), disk);
            Settles(s.cache, t.cache, key) && |Free(t.cache)| == |Free(s.cache)| - (if Held(s.cache, key) then 0 else 1)
  {
    hide Inv, Free, Run, After, Took, Held, Settles, LoadedCache, FindVictim;
    InvAgrees(s, disk);
    if key in s.cache.table {
      HitReads(s, disk, id, key);
      HitSettles(s, disk, id, key);
    } else {
      MissReads(s, disk, id, key);
      LoadSettles(s.cache, key, disk(key));
      NotHeld(s.cache, key);
    }
  }

  lemma NotHeld(c: Cache, key: BlockKey)
    requires key !in c.table
    ensures !Held(c, key)
  {
  }

  /** Reading without waiting needs a free frame for each block not held; one for
      each that may be needed is enough. */
  lemma {:induction false} CanReadWithin(s: State, disk: Disk, id: nat, keys: seq<BlockKey>)
    requires Inv(s, disk) && Fresh(s, id) && Distinct(keys)
    ensures CanRead(s, disk, id, keys) ==> Needs(s.cache, keys) <= |Free(s.cache)|
    ensures MayNeeds(s.cache, keys) <= |Free(s.cache)| ==> CanRead(s, disk, id, keys)
    decreases |keys|
  {
    hide Inv, Free, ReadSteps, Took, Run, After, Settles, Held, FreeCopy;
    if keys != [] {
      if keys[0] !in s.cache.table && Free(s.cache) == {} {
        FirstWaits(s, disk, id, keys[0]);
        assert !Held(s.cache, keys[0]) by { NotHeld(s.cache, keys[0]); }
      } else {
        ReadsOne(s, disk, id, keys[0]);
        ReadSettles(s, disk, id, keys[0]);
        var m := After(s, ReadSteps(s, id, keys[0]), disk);
        FreshAfter(s, m, id, keys[0]);
        NeedsGrow(s.cache, m.cache, keys[1..], keys[0]);
        CanReadWithin(m, disk, id + 1, keys[1..]);
      }
    }
  }

  /** The count is exact unless a held block has a free copy. */
  lemma CanReadIff(s: State, disk: Disk, id: nat, keys: seq<BlockKey>)
    requires Inv(s, disk) && Fresh(s, id) && Distinct(keys)
    requires forall i | 0 <= i < |keys| :: Held(s.cache, keys[i]) ==> !FreeCopy(s.cache, keys[i])
    ensures CanRead(s, disk, id, keys) <==> Needs(s.cache, keys) <= |Free(s.cache)|
  {
    hide Inv, CanRead, Held, FreeCopy;
    CanReadWithin(s, disk, id, keys);
    NeedsWithin(s.cache, keys);
  }

  /** How many frames a run of reads takes: one for each block not held when its
      turn comes. */
  function Takes(s: State, disk: Disk, id: nat, keys: seq<BlockKey>): (n: nat)
    requires CanRead(s, disk, id, keys)
    decreases |keys|
  {
    if keys == [] then 0
    else (if Held(s.cache, keys[0]) then 0 else 1) + Takes(After(s, ReadSteps(s, id, keys[0]), disk), disk, id + 1, keys[1..])
  }

  lemma {:induction false} TakesWithin(s: State, disk: Disk, id: nat, keys: seq<BlockKey>)
    requires Inv(s, disk) && Fresh(s, id) && Distinct(keys) && CanRead(s, disk, id, keys)
    ensures Run(s, AllSteps(s, disk, id, keys), disk)
    ensures |Free(After(s, AllSteps(s, disk, id, keys), disk).cache)| == |Free(s.cache)| - Takes(s, disk, id, keys)
    ensures Needs(s.cache, keys) <= Takes(s, disk, id, keys) <= MayNeeds(s.cache, keys)
    decreases |keys|
  {
    hide Inv, Free, ReadSteps, Took, Run, After, Settles, Held, FreeCopy;
    AllStepsRun(s, disk, id, keys);
    if keys == [] {
      NothingTook(s, id, disk);
    } else {
      if keys[0] !in s.cache.table && Free(s.cache) == {} { FirstWaits(s, disk, id, keys[0]); }
      ReadsOne(s, disk, id, keys[0]);
      ReadSettles(s, disk, id, keys[0]);
      var first := ReadSteps(s, id, keys[0]);
      var m := After(s, first, disk);
      FreshAfter(s, m, id, keys[0]);
      NeedsGrow(s.cache, m.cache, keys[1..], keys[0]);
      TakesWithin(m, disk, id + 1, keys[1..]);
      RunOn(s, first, AllSteps(m, disk, id + 1, keys[1..]), disk);
    }
  }

  /** Block `y` in a pinned frame and, loaded twice, in a free one. */
  function TwoCopies(disk: Disk, y: BlockKey): (s: State) {
    State(Cache([Frame.Frame(disk(y), Some(y), false, 1), Frame.Frame(disk(y), Some(y), false, 0)], map[y := 0], 0),
          map[0 := Holding(y, 0)])
  }

  lemma TwoCopiesHold(disk: Disk, y: BlockKey)
    ensures Inv(TwoCopies(disk, y), disk) && Free(TwoCopies(disk, y).cache) == {1}
  {
    var s := TwoCopies(disk, y);
    assert On(s.readers, 0) == {0} && On(s.readers, 1) == {};
  }

  lemma CopyCounts(disk: Disk, x: BlockKey, y: BlockKey)
    requires x != y
    ensures var c := TwoCopies(disk, y).cache;
            && Needs(c, [x, y]) == Needs(c, [y, x]) == 1
            && MayNeeds(c, [x, y]) == MayNeeds(c, [y, x]) == 2
  {
    var c := TwoCopies(disk, y).cache;
    assert c.frames[1].pinCount == 0 && c.frames[1].key == Some(y);
    assert Held(c, y) && FreeCopy(c, y) && !Held(c, x);
    assert [x, y][1..] == [y] && [y, x][1..] == [x] && [x][1..] == [] && [y][1..] == [];
    assert Needs(c, [x]) == 1 && Needs(c, [y]) == 0 && MayNeeds(c, [x]) == MayNeeds(c, [y]) == 1;
  }

  /** Between the two counts the order decides: one free frame is enough for `y`
      and then `x`, and not for `x` and then `y`. */
  lemma CopyDecides(disk: Disk, x: BlockKey, y: BlockKey)
    requires x != y
    ensures var s := TwoCopies(disk, y);
            && Needs(s.cache, [x, y]) == Needs(s.cache, [y, x]) == 1
            && MayNeeds(s.cache, [x, y]) == MayNeeds(s.cache, [y, x]) == 2
            && CanRead(s, disk, 1, [y, x]) && !CanRead(s, disk, 1, [x, y])
  {
    hide Inv, Free, FindVictim, Run, After, ReadSteps, Needs, MayNeeds, CanRead;
    var s := TwoCopies(disk, y);
    TwoCopiesHold(disk, y);
    CopyCounts(disk, x, y);
    ReadsOne(s, disk, 1, y);
    ReadSettles(s, disk, 1, y);
    var m := After(s, ReadSteps(s, 1, y), disk);
    ReadsOne(m, disk, 2, x);
    CanReadTwo(s, disk, 1, y, x);
    ReadsOne(s, disk, 1, x);
    LoseCopy(disk, x, y);
    FirstWaits(After(s, ReadSteps(s, 1, x), disk), disk, 2, y);
    CanReadTwo(s, disk, 1, x, y);
  }

  lemma CanReadTwo(s: State, disk: Disk, id: nat, x: BlockKey, y: BlockKey)
    requires Run(s, ReadSteps(s, id, x), disk)
    ensures CanRead(s, disk, id, [x, y]) <==>
            var t := After(s, ReadSteps(s, id, x), disk); Run(t, ReadSteps(t, id + 1, y), disk)
  {
    hide Run, After, ReadSteps;
    assert [x, y][1..] == [y] && [y][1..] == [];
    assert CanRead(After(s, ReadSteps(s, id, x), disk), disk, id + 1, [y]) <==>
           var t := After(s, ReadSteps(s, id, x), disk); Run(t, ReadSteps(t, id + 1, y), disk);
  }

  lemma LoseCopy(disk: Disk, x: BlockKey, y: BlockKey)
    requires x != y
    ensures var s := TwoCopies(disk, y);
            Run(s, ReadSteps(s, 1, x), disk) && y !in After(s, ReadSteps(s, 1, x), disk).cache.table &&
            Free(After(s, ReadSteps(s, 1, x), disk).cache) == {}
  {
    hide Inv, FindVictim, Run, After;
    var s := TwoCopies(disk, y);
    TwoCopiesHold(disk, y);
    MissReads(s, disk, 1, x);
    VictimUnlessAllPinned(s.cache);
    assert FindVictim(s.cache).1 == Some(1);
  }

  // ---- a frame of the log ----

  /** The blocks of a segment from `first` to `last`. */
  function BlockKeys(segId: nat, first: nat, last: nat): (keys: seq<BlockKey>)
    requires first <= last
    ensures |keys| == last - first + 1 && Distinct(keys)
    ensures forall j | 0 <= j < |keys| :: keys[j] == BlockKey(segId, first + j)
  {
    seq(last - first + 1, j requires 0 <= j => BlockKey(segId, first + j))
  }

  /** The disk has the log of the segment. */
  ghost predicate OnDisk(disk: Disk, segId: nat, log: Bytes, blockSize: nat) {
    forall k: nat | BlockStart(k, blockSize) + blockSize <= |log| :: disk(BlockKey(segId, k)) == BlockOf(log, blockSize, k)
  }

  /** One `read_block`, step by step. */
  method ReadBlock(s: State, disk: Disk, id: nat, key: BlockKey) returns (t: State)
    requires Inv(s, disk) && id !in s.readers && Run(s, ReadSteps(s, id, key), disk)
    ensures t == After(s, ReadSteps(s, id, key), disk) && Inv(t, disk) && Took(s, t, id, key)
  {
    hide Inv, Free, FindVictim;
    if key !in s.cache.table && Free(s.cache) == {} { FirstWaits(s, disk, id, key); }
    ReadsOne(s, disk, id, key);
    InvWf(s, disk);
    if key in s.cache.table {
      HitReads(s, disk, id, key);
      t := Next(s, Hit(id, key), disk);
    } else {
      MissReads(s, disk, id, key);
      t := After(s, [Miss(id, key), ReadAll(id), Commit(id)], disk);
    }
  }

  /** Let go of guards `id` and on. */
  method DropAll(s: State, disk: Disk, id: nat, n: nat, ghost was: State) returns (t: State)
    requires Inv(s, disk) && Fresh(was, id)
    requires forall j | id <= j < id + n :: j in s.readers && s.readers[j].Holding?
    requires forall x | x in was.readers :: x in s.readers && s.readers[x] == was.readers[x]
    requires forall x | x in s.readers :: x in was.readers || id <= x < id + n
    ensures Inv(t, disk) && t.readers == was.readers
  {
    hide Inv;
    t := s;
    for j := id to id + n
      invariant Inv(t, disk)
      invariant forall x | j <= x < id + n :: x in t.readers && t.readers[x].Holding?
      invariant forall x | x in was.readers :: x in t.readers && t.readers[x] == was.readers[x]
      invariant forall x | x in t.readers :: x in was.readers || j <= x < id + n
    {
      InvWf(t, disk);
      ReadersArePinned(t, disk, j);
      StepKeeps(t, disk, Drop(j));
      t := Next(t, Drop(j), disk);
    }
  }

  /** `load_current_frame`: guards on all blocks of the frame, the frame copied
      from what they see, and the guards dropped. */
  method LoadFrame(s: State, disk: Disk, segId: nat, id: nat, blockSize: nat, offset: nat, len: nat, ghost log: Bytes)
    returns (t: State, buffer: Bytes)
    requires Inv(s, disk) && Fresh(s, id) && OnDisk(disk, segId, log, blockSize)
    requires blockSize > 0 && len > 0 && offset + len <= |log| && |log| % blockSize == 0
    requires offset / blockSize <= (offset + len - 1) / blockSize
    requires CanRead(s, disk, id, BlockKeys(segId, offset / blockSize, (offset + len - 1) / blockSize))
    ensures buffer == log[offset..offset + len]
    ensures Inv(t, disk) && t.readers == s.readers
  {
    hide Inv, Free, BlockStart, BlockOf, Covers, OnDisk;
    var first, last := offset / blockSize, (offset + len - 1) / blockSize;
    FrameBlocks(offset, len, blockSize, |log|);
    var guards;
    t, guards := TakeGuards(s, disk, segId, id, blockSize, first, last, log);
    buffer := AssembleFrame(guards, blockSize, offset, len, log);
    t := DropAll(t, disk, id, last - first + 1, s);
  }

  method TakeGuards(s: State, disk: Disk, segId: nat, id: nat, blockSize: nat, first: nat, last: nat, ghost log: Bytes)
    returns (t: State, guards: seq<Bytes>)
    requires Inv(s, disk) && Fresh(s, id) && OnDisk(disk, segId, log, blockSize)
    requires first <= last && BlockStart(last + 1, blockSize) <= |log| && CanRead(s, disk, id, BlockKeys(segId, first, last))
    ensures Inv(t, disk) && AllTook(s, t, id, BlockKeys(segId, first, last))
    ensures |guards| == last - first + 1 && Covers(guards, log, blockSize, first)
  {
    hide Inv, BlockStart, BlockOf, Run, After, ReadSteps, Took, AllTook, Sees, Distinct, CanRead, Covers, OnDisk, Fresh;
    var n := last - first + 1;
    ghost var keys := BlockKeys(segId, first, last);
    t := s;
    NothingTook(s, id, disk);
    assert keys[..0] == [] && keys[0..] == keys;
    for k := 0 to n
      invariant Inv(t, disk) && AllTook(s, t, id, keys[..k]) && CanRead(t, disk, id + k, keys[k..])
    {
      var m := t;
      FreshKept(s, t, id, keys[..k]);
      CanReadFirst(t, disk, id + k, keys[k..]);
      assert keys[k..][0] == keys[k] && keys[k..][1..] == keys[k + 1..];
      t := ReadBlock(m, disk, id + k, BlockKey(segId, first + k));
      assert keys[..k + 1] == keys[..k] + [keys[k]];
      TookOneMore(s, m, t, id, keys[..k], keys[k]);
    }
    assert keys[..n] == keys;
    GuardsSee(s, t, disk, id, keys);
    guards := seq(n, j requires 0 <= j < n => Sees(t, id + j));
    GuardsCover(t, disk, segId, id, blockSize, first, last, log, guards);
  }

  lemma GuardsCover(t: State, disk: Disk, segId: nat, id: nat, blockSize: nat, first: nat, last: nat,
                    log: Bytes, guards: seq<Bytes>)
    requires first <= last && BlockStart(last + 1, blockSize) <= |log| && OnDisk(disk, segId, log, blockSize)
    requires |guards| == last - first + 1
    requires forall x | id <= x <= id + last - first ::
               x in t.readers && t.readers[x].idx < |t.cache.frames| && Sees(t, x) == disk(BlockKeys(segId, first, last)[x - id])
    requires forall j | 0 <= j < |guards| :: guards[j] == Sees(t, id + j)
    ensures Covers(guards, log, blockSize, first)
  {
    hide BlockStart, BlockOf, Sees, Distinct;
    forall j: nat | j < |guards|
      ensures BlockStart(first + j, blockSize) + blockSize <= |log| && guards[j] == BlockOf(log, blockSize, first + j)
    {
      StartsGrow(first + j + 1, last + 1, blockSize);
      NextStart(first + j, blockSize);
      var x := id + j;
      assert BlockKeys(segId, first, last)[x - id] == BlockKey(segId, first + j);
      assert guards[j] == Sees(t, x);
    }
  }

  lemma CanReadFirst(s: State, disk: Disk, id: nat, keys: seq<BlockKey>)
    requires CanRead(s, disk, id, keys) && keys != []
    ensures Run(s, ReadSteps(s, id, keys[0]), disk)
    ensures CanRead(After(s, ReadSteps(s, id, keys[0]), disk), disk, id + 1, keys[1..])
  {
  }

  lemma FreshKept(s: State, t: State, id: nat, keys: seq<BlockKey>)
    requires Fresh(s, id) && AllTook(s, t, id, keys)
    ensures id + |keys| !in t.readers
  {
  }

  lemma TookOneMore(s: State, m: State, t: State, id: nat, keys: seq<BlockKey>, key: BlockKey)
    requires Fresh(s, id) && AllTook(s, m, id, keys) && Took(m, t, id + |keys|, key)
    ensures AllTook(s, t, id, keys + [key])
  {
  }
}
