/** The CLOCK buffer pool: fixed frames, a page table, second-chance victim
    selection. Each function is one section run under the pool's lock. */
module ClockCache {
  import opened Keys
  import opened Wrappers

  /** A block of a segment. */
  datatype BlockKey = BlockKey(segId: nat, blockIdx: nat)

  datatype Frame = Frame(buf: Bytes, key: Option<BlockKey>, refBit: bool, pinCount: nat)

  datatype Cache = Cache(frames: seq<Frame>, table: map<BlockKey, nat>, hand: nat)

  /** The hand is on a frame and the page table points at frames. */
  predicate Wf(c: Cache) {
    && (c.frames == [] ==> c.hand == 0)
    && (c.frames != [] ==> c.hand < |c.frames|)
    && (forall k | k in c.table :: c.table[k] < |c.frames|)
  }

  // ---- the sections ----

  function PinHit(c: Cache, key: BlockKey): (c': Cache)
    requires Wf(c) && key in c.table
  {
    var i := c.table[key];
    c.(frames := c.frames[i := c.frames[i].(pinCount := c.frames[i].pinCount + 1, refBit := true)])
  }

  function PrepareLoad(c: Cache, i: nat): (c': Cache)
    requires i < |c.frames|
  {
    var f := c.frames[i];
    Cache(c.frames[i := f.(key := None, pinCount := 1, refBit := false)],
          if f.key.Some? then c.table - {f.key.value} else c.table, c.hand)
  }

  function CommitLoad(c: Cache, i: nat, key: BlockKey): (c': Cache)
    requires i < |c.frames|
  {
    Cache(c.frames[i := c.frames[i].(key := Some(key), refBit := true)], c.table[key := i], c.hand)
  }

  function Unpin(c: Cache, i: nat): (c': Cache)
    requires i < |c.frames| && c.frames[i].pinCount > 0
  {
    c.(frames := c.frames[i := c.frames[i].(pinCount := c.frames[i].pinCount - 1)])
  }

  // ---- second-chance victim selection ----

  function Wrap(i: nat, n: nat): nat {
    if i < n then i else i - n
  }

  predicate Evictable(f: Frame) {
    f.pinCount == 0 && !f.refBit
  }

  /** The hand passes a frame it cannot evict: an unpinned frame loses its
      reference bit. */
  function Pass(c: Cache): (c': Cache)
    requires Wf(c) && c.frames != []
    ensures Wf(c') && |c'.frames| == |c.frames| && c'.table == c.table
  {
    var i, f := c.hand, c.frames[c.hand];
    c.(frames := if f.pinCount == 0 then c.frames[i := f.(refBit := false)] else c.frames,
       hand := Wrap(i + 1, |c.frames|))
  }

  /** At most `fuel` frames are looked at. */
  function Sweep(c: Cache, fuel: nat): (r: (Cache, Option<nat>))
    requires Wf(c) && c.frames != []
    decreases fuel
  {
    if fuel == 0 then (c, None)
    else if Evictable(c.frames[c.hand]) then (c.(hand := Wrap(c.hand + 1, |c.frames|)), Some(c.hand))
    else Sweep(Pass(c), fuel - 1)
  }

  function FindVictim(c: Cache): (r: (Cache, Option<nat>))
    requires Wf(c)
  {
    if c.frames == [] then (c, None) else Sweep(c, 2 * |c.frames|)
  }

  /** The frame `d` places ahead of the hand. */
  function Ahead(c: Cache, d: nat): nat
    requires Wf(c) && d < |c.frames|
  {
    Wrap(c.hand + d, |c.frames|)
  }

  /** Nothing but reference bits of unpinned frames was touched. */
  predicate SamePins(c: Cache, c': Cache) {
    && c'.table == c.table && |c'.frames| == |c.frames|
    && (forall i | 0 <= i < |c.frames| ::
          c'.frames[i] == c.frames[i] || (c.frames[i].pinCount == 0 && c'.frames[i] == c.frames[i].(refBit := false)))
  }

  lemma {:induction false} SweepKeeps(c: Cache, fuel: nat)
    requires Wf(c) && c.frames != []
    ensures Wf(Sweep(c, fuel).0) && SamePins(c, Sweep(c, fuel).0)
    ensures var (c', v) := Sweep(c, fuel); v.Some? ==> v.value < |c.frames| && Evictable(c'.frames[v.value])
    decreases fuel
  {
    if fuel > 0 && !Evictable(c.frames[c.hand]) {
      SweepKeeps(Pass(c), fuel - 1);
    }
  }

  /** The first evictable frame ahead of the hand is the one found. */
  lemma {:induction false} SweepFinds(c: Cache, d: nat, fuel: nat)
    requires Wf(c) && d < |c.frames| && d < fuel
    requires Evictable(c.frames[Ahead(c, d)])
    requires forall e | 0 <= e < d :: !Evictable(c.frames[Ahead(c, e)])
    ensures Sweep(c, fuel).1 == Some(Ahead(c, d))
    decreases d
  {
    if d > 0 {
      assert !Evictable(c.frames[Ahead(c, 0)]);
      var p := Pass(c);
      assert Ahead(p, d - 1) == Ahead(c, d);
      forall e | 0 <= e < d - 1
        ensures !Evictable(p.frames[Ahead(p, e)])
      {
        assert Ahead(p, e) == Ahead(c, e + 1);
        assert !Evictable(c.frames[Ahead(c, e + 1)]);
      }
      SweepFinds(p, d - 1, fuel - 1);
    }
  }

  /** The pool after the hand has passed `d` frames. */
  function Passed(c: Cache, d: nat): (c': Cache)
    requires Wf(c) && c.frames != []
    ensures Wf(c') && |c'.frames| == |c.frames| && c'.table == c.table
    decreases d
  {
    if d == 0 then c else Passed(Pass(c), d - 1)
  }

  /** Passing clears exactly the bits of the unpinned frames passed. */
  lemma {:induction false} PassedFrames(c: Cache, d: nat, e: nat)
    requires Wf(c) && d <= |c.frames| && e < |c.frames|
    ensures Passed(c, d).hand == Wrap(c.hand + d, |c.frames|)
    ensures var i := Ahead(c, e);
            Passed(c, d).frames[i] ==
            if e < d && c.frames[i].pinCount == 0 then c.frames[i].(refBit := false) else c.frames[i]
    decreases d
  {
    if d > 0 {
      var p, e' := Pass(c), if e > 0 then e - 1 else |c.frames| - 1;
      assert Ahead(p, e') == Ahead(c, e);
      PassedFrames(p, d - 1, e');
    }
  }

  /** `d` unsuccessful looks leave the rest of the sweep to the passed pool. */
  lemma {:induction false} SweepPasses(c: Cache, d: nat, fuel: nat)
    requires Wf(c) && c.frames != [] && d <= |c.frames| && d <= fuel
    requires forall e | 0 <= e < d :: !Evictable(c.frames[Ahead(c, e)])
    ensures Sweep(c, fuel) == Sweep(Passed(c, d), fuel - d)
    decreases d
  {
    if d > 0 {
      assert !Evictable(c.frames[Ahead(c, 0)]);
      var p := Pass(c);
      forall e | 0 <= e < d - 1
        ensures !Evictable(p.frames[Ahead(p, e)])
      {
        assert Ahead(p, e) == Ahead(c, e + 1);
        assert !Evictable(c.frames[Ahead(c, e + 1)]);
      }
      SweepPasses(p, d - 1, fuel - 1);
    }
  }

  lemma AheadCovers(c: Cache, i: nat) returns (d: nat)
    requires Wf(c) && i < |c.frames|
    ensures d < |c.frames| && Ahead(c, d) == i
  {
    d := if i >= c.hand then i - c.hand else i + |c.frames| - c.hand;
  }

  /** Second chance: if an evictable frame exists, the first one ahead of the
      hand is taken; if all unpinned frames are referenced, the first unpinned
      one is, after a full sweep has cleared the bits. */
  lemma VictimIsFirst(c: Cache, d: nat)
    requires Wf(c) && d < |c.frames| && c.frames[Ahead(c, d)].pinCount == 0
    requires || (Evictable(c.frames[Ahead(c, d)]) && forall e | 0 <= e < d :: !Evictable(c.frames[Ahead(c, e)]))
             || ((forall e | 0 <= e < |c.frames| :: !Evictable(c.frames[Ahead(c, e)])) &&
                 forall e | 0 <= e < d :: c.frames[Ahead(c, e)].pinCount > 0)
    ensures FindVictim(c).1 == Some(Ahead(c, d))
  {
    var n := |c.frames|;
    if Evictable(c.frames[Ahead(c, d)]) {
      SweepFinds(c, d, 2 * n);
    } else {
      SweepPasses(c, n, 2 * n);
      var p := Passed(c, n);
      PassedFrames(c, n, d);
      forall e | 0 <= e < d
        ensures !Evictable(p.frames[Ahead(p, e)])
      {
        PassedFrames(c, n, e);
        assert Ahead(p, e) == Ahead(c, e);
      }
      SweepFinds(p, d, n);
    }
  }

  predicate AllPinned(c: Cache) {
    forall i | 0 <= i < |c.frames| :: c.frames[i].pinCount > 0
  }

  /** A victim is found within two sweeps unless every frame is pinned, and
      finding one disturbs nothing but reference bits. */
  lemma VictimUnlessAllPinned(c: Cache)
    requires Wf(c)
    ensures FindVictim(c).1.None? <==> AllPinned(c)
    ensures Wf(FindVictim(c).0) && SamePins(c, FindVictim(c).0)
    ensures var (c', v) := FindVictim(c); v.Some? ==> v.value < |c.frames| && Evictable(c'.frames[v.value])
  {
    if c.frames != [] {
      SweepKeeps(c, 2 * |c.frames|);
      if !AllPinned(c) {
        SomeVictim(c);
      }
    }
  }

  lemma SomeVictim(c: Cache)
    requires Wf(c) && !AllPinned(c)
    ensures FindVictim(c).1.Some?
  {
    var n := |c.frames|;
    var i :| 0 <= i < n && c.frames[i].pinCount == 0;
    var d := AheadCovers(c, i);
    if e :| 0 <= e < n && Evictable(c.frames[Ahead(c, e)]) {
      var m := FirstEvictable(c, e);
      VictimIsFirst(c, m);
    } else {
      var m := FirstUnpinned(c, d);
      VictimIsFirst(c, m);
    }
  }

  lemma {:induction false} FirstEvictable(c: Cache, d: nat) returns (m: nat)
    requires Wf(c) && d < |c.frames| && Evictable(c.frames[Ahead(c, d)])
    ensures m <= d && Evictable(c.frames[Ahead(c, m)]) && forall e | 0 <= e < m :: !Evictable(c.frames[Ahead(c, e)])
    decreases d
  {
    m := d;
    if e :| 0 <= e < d && Evictable(c.frames[Ahead(c, e)]) {
      m := FirstEvictable(c, e);
    }
  }

  lemma {:induction false} FirstUnpinned(c: Cache, d: nat) returns (m: nat)
    requires Wf(c) && d < |c.frames| && c.frames[Ahead(c, d)].pinCount == 0
    ensures m <= d && c.frames[Ahead(c, m)].pinCount == 0 && forall e | 0 <= e < m :: c.frames[Ahead(c, e)].pinCount > 0
    decreases d
  {
    m := d;
    if e :| 0 <= e < d && c.frames[Ahead(c, e)].pinCount == 0 {
      m := FirstUnpinned(c, e);
    }
  }

  // ---- the pool updated in place ----

  class ClockPool {
    const frames: array<Frame>
    var table: map<BlockKey, nat>
    var hand: nat

    ghost function Abs(): (c: Cache)
      reads this, frames
    {
      Cache(frames[..], table, hand)
    }

    constructor (capacity: nat, blockSize: nat)
      ensures Wf(Abs()) && fresh(frames) && frames.Length == capacity && table == map[]
      ensures forall i | 0 <= i < capacity :: frames[i] == Frame(seq(blockSize, _ => 0), None, false, 0)
    {
      frames := new Frame[capacity](_ => Frame(seq(blockSize, _ => 0), None, false, 0));
      table := map[];
      hand := 0;
    }

    /** One look at the frame under the hand. */
    method Look() returns (v: Option<nat>)
      requires Wf(Abs()) && frames.Length > 0
      modifies this`hand, frames
      ensures v == if old(Evictable(frames[hand])) then Some(old(hand)) else None
      ensures Abs() == if v.Some? then old(Abs()).(hand := Wrap(old(hand) + 1, frames.Length)) else Pass(old(Abs()))
    {
      var i, n := hand, frames.Length;
      assert (i + 1) % n == Wrap(i + 1, n);
      hand := (i + 1) % n;
      if frames[i].pinCount == 0 {
        if !frames[i].refBit {
          return Some(i);
        }
        frames[i] := frames[i].(refBit := false);
      }
      return None;
    }

    /** `find_victim`: at most two sweeps of the hand. */
    method Victim() returns (v: Option<nat>)
      requires Wf(Abs())
      modifies this`hand, frames
      ensures (Abs(), v) == FindVictim(old(Abs()))
    {
      hide Pass, Evictable;
      var n := frames.Length;
      if n == 0 {
        return None;
      }
      for k := 0 to 2 * n
        invariant Wf(Abs()) && table == old(table)
        invariant FindVictim(old(Abs())) == Sweep(Abs(), 2 * n - k)
      {
        v := Look();
        if v.Some? {
          return v;
        }
      }
      return None;
    }

    /** `pin_hit`: the resident frame, pinned once more. */
    method Hit(key: BlockKey) returns (r: Option<nat>)
      requires Wf(Abs())
      modifies frames
      ensures r == if key in table then Some(table[key]) else None
      ensures Abs() == if key in table then PinHit(old(Abs()), key) else old(Abs())
    {
      if key !in table {
        return None;
      }
      var i := table[key];
      frames[i] := frames[i].(pinCount := frames[i].pinCount + 1, refBit := true);
      return Some(i);
    }

    method Prepare(i: nat)
      requires i < frames.Length
      modifies this`table, frames
      ensures Abs() == PrepareLoad(old(Abs()), i)
    {
      var f := frames[i];
      if f.key.Some? {
        table := table - {f.key.value};
      }
      frames[i] := f.(key := None, pinCount := 1, refBit := false);
    }

    method Commit(i: nat, key: BlockKey)
      requires i < frames.Length
      modifies this`table, frames
      ensures Abs() == CommitLoad(old(Abs()), i, key)
    {
      frames[i] := frames[i].(key := Some(key), refBit := true);
      table := table[key := i];
    }

    /** `unpin`: reports whether the frame became evictable. */
    method Release(i: nat) returns (free: bool)
      requires i < frames.Length && frames[i].pinCount > 0
      modifies frames
      ensures Abs() == Unpin(old(Abs()), i) && (free <==> frames[i].pinCount == 0)
    {
      frames[i] := frames[i].(pinCount := frames[i].pinCount - 1);
      free := frames[i].pinCount == 0;
    }
  }
}
