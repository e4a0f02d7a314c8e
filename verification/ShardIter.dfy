/** The iterator a shard scan is composed of: the merge of the memtables over
    the merge of the level-0 SSTs. */
module ShardIter {
  import opened Keys
  import opened BlockBuilders
  import opened Wrappers
  import opened Streams
  import opened Runs
  import opened MergeIter
  import opened TwoMergeIter

  function Sounds(sts: seq<Stream>): (srcs: seq<Source>)
    ensures |srcs| == |sts| && forall i | 0 <= i < |sts| :: srcs[i] == Sound(sts[i])
  {
    seq(|sts|, i requires 0 <= i < |sts| => Sound(sts[i]))
  }

  // ---- which sources a skip moves ----

  predicate Rises(d: Dir, s: seq<Entry>) {
    forall i, j | 0 <= i < j < |s| :: KeyBefore(d, s[i].key, s[j].key)
  }

  /** No source has a key twice. */
  predicate Strict(srcs: seq<Source>, d: Dir) {
    forall l | 0 <= l < |srcs| :: srcs[l].InBlock() && Rises(d, srcs[l].To(d).out)
  }

  /** A source past the key `k`, if it is on it. */
  function PassOne(src: Source, d: Dir, k: Key): (r: Source)
    requires src.InBlock()
  {
    if src.IsValid() && src.Head().key == k && !src.Breaks(d) then src.Next(d) else src
  }

  function PassAll(srcs: seq<Source>, d: Dir, k: Key): (r: seq<Source>)
    requires forall l | 0 <= l < |srcs| :: srcs[l].InBlock()
    ensures |r| == |srcs| && forall l | 0 <= l < |srcs| :: r[l] == PassOne(srcs[l], d, k)
  {
    seq(|srcs|, l requires 0 <= l < |srcs| => PassOne(srcs[l], d, k))
  }

  /** The sources after a skip: past the first key of `a` if that is also the
      first key of `b`. */
  function Passed(srcs: seq<Source>, d: Dir, a: seq<Entry>, b: seq<Entry>): (r: seq<Source>)
    requires forall l | 0 <= l < |srcs| :: srcs[l].InBlock()
    ensures |r| == |srcs|
  {
    if a != [] && b != [] && a[0].key == b[0].key then PassAll(srcs, d, a[0].key) else srcs
  }

  /** Part of the way there. */
  predicate Passing(was: seq<Source>, now: seq<Source>, d: Dir, k: Key) {
    && |now| == |was|
    && forall l | 0 <= l < |was| :: was[l].InBlock() && (now[l] == was[l] || now[l] == PassOne(was[l], d, k))
  }

  /** Past the key, a source is beyond it. */
  lemma PastKey(src: Source, d: Dir, k: Key)
    requires src.InBlock() && Rises(d, src.To(d).out) && src.IsValid() && src.Head().key == k && !src.Breaks(d)
    ensures src.Next(d).InBlock()
    ensures src.Next(d).IsValid() ==> KeyBefore(d, k, src.Next(d).Head().key)
  {
    hide KeyBefore;
    SourceMoves(src, d);
    SourceMoves(src.Next(d), d);
  }

  lemma PassStep(was: seq<Source>, now: seq<Source>, l: nat, d: Dir, k: Key)
    requires Strict(was, d) && Passing(was, now, d, k)
    requires l < |now| && now[l].InBlock() && now[l].IsValid() && now[l].Head().key == k && !now[l].Breaks(d)
    ensures Passing(was, now[l := now[l].Next(d)], d, k)
  {
    hide KeyBefore, Rises;
    Order(d);
    var src := was[l];
    if src.IsValid() && src.Head().key == k && !src.Breaks(d) { PastKey(src, d, k); }
  }

  /** When the key is no longer first, every source on it has been passed. */
  lemma PassedAll(was: seq<Source>, now: seq<Source>, heap: set<nat>, d: Dir, k: Key)
    requires Strict(was, d) && Passing(was, now, d, k)
    requires forall l | 0 <= l < |now| :: now[l].InBlock()
    requires forall l: nat :: l in heap <==> l < |now| && now[l].IsValid()
    requires forall l | 0 <= l < |was| && was[l].IsValid() :: !KeyBefore(d, was[l].Head().key, k)
    requires var r := MergeRuns(d, Tos(now, heap, d)); r.out == [] || r.out[0].key != k
    ensures now == PassAll(was, d, k)
  {
    hide KeyBefore, Rises, MergeRuns;
    forall l | 0 <= l < |was|
      ensures now[l] == PassOne(was[l], d, k)
    {
      if now[l] != PassOne(was[l], d, k) { NotLeft(was, now, heap, d, k, l); }
    }
  }

  lemma NotLeft(was: seq<Source>, now: seq<Source>, heap: set<nat>, d: Dir, k: Key, l: nat)
    requires Strict(was, d) && Passing(was, now, d, k)
    requires forall i | 0 <= i < |now| :: now[i].InBlock()
    requires forall i: nat :: i in heap <==> i < |now| && now[i].IsValid()
    requires forall i | 0 <= i < |was| && was[i].IsValid() :: !KeyBefore(d, was[i].Head().key, k)
    requires l < |now| && now[l] == was[l] && was[l].IsValid() && was[l].Head().key == k
    ensures var r := MergeRuns(d, Tos(now, heap, d)); r.out != [] && r.out[0].key == k
  {
    hide KeyBefore, Rises, MergeRuns;
    Order(d);
    var rs := Tos(now, heap, d);
    HeadsAreFirst(now, heap, d);
    MergeRunsLeast(d, rs, l);
    MergeRunsHead(d, rs);
    var r := MergeRuns(d, rs);
    var j :| 0 <= j < |rs| && rs[j].out != [] && rs[j].out[0] == r.out[0];
    assert now[j].IsValid() && now[j].Head() == r.out[0];
    if now[j] != was[j] { PastKey(was[j], d, k); }
  }

  lemma NotYetPassing(was: seq<Source>, d: Dir, k: Key)
    requires Strict(was, d)
    ensures Passing(was, was, d, k)
  {
  }

  lemma BrokenAhead(d: Dir, a: seq<Entry>, b: Run)
    ensures b.Broken() ==> OverlayRun(d, a, b) == b
  {
  }

  /** With `k` first, no head is before it. */
  lemma HeadsNotBefore(srcs: seq<Source>, heap: set<nat>, d: Dir, k: Key)
    requires forall l | 0 <= l < |srcs| :: srcs[l].InBlock()
    requires forall l: nat :: l in heap <==> l < |srcs| && srcs[l].IsValid()
    requires var r := MergeRuns(d, Tos(srcs, heap, d)); r.out != [] && r.out[0].key == k
    ensures forall l | 0 <= l < |srcs| && srcs[l].IsValid() :: !KeyBefore(d, srcs[l].Head().key, k)
  {
    hide KeyBefore, MergeRuns;
    var rs := Tos(srcs, heap, d);
    HeadsAreFirst(srcs, heap, d);
    forall l | 0 <= l < |srcs| && srcs[l].IsValid()
      ensures !KeyBefore(d, srcs[l].Head().key, k)
    {
      MergeRunsLeast(d, rs, l);
    }
  }

  lemma Passes(was: seq<Source>, wasHeap: set<nat>, now: seq<Source>, heap: set<nat>, d: Dir, k: Key)
    requires Strict(was, d) && Passing(was, now, d, k)
    requires FullHeap(was, wasHeap) && FullHeap(now, heap)
    requires var r := MergeRuns(d, Tos(was, wasHeap, d)); r.out != [] && r.out[0].key == k
    requires forall l | 0 <= l < |now| :: now[l].InBlock()
    requires var r := MergeRuns(d, Tos(now, heap, d)); r.out == [] || r.out[0].key != k
    ensures now == PassAll(was, d, k)
  {
    hide KeyBefore, MergeRuns;
    HeadsNotBefore(was, wasHeap, d, k);
    PassedAll(was, now, heap, d, k);
  }

  /** What is to come after seeking both sides to their first entries, */
  function FirstAhead(a: seq<Source>, b: seq<Source>, d: Dir): (r: Run)
    requires AllSound(a) && forall l | 0 <= l < |b| :: b[l].InBlock()
  {
    OverlayRun(d, MergeAll(d, Alls(Sts(a), d)), MergeRuns(d, FirstRuns(b, d)))
  }

  /** and after seeking them to a target. */
  function SoughtAhead(a: seq<Source>, b: seq<Source>, d: Dir, target: Key): (r: Run)
    requires AllSound(a) && forall l | 0 <= l < |b| :: b[l].InBlock()
  {
    OverlayRun(d, DropBefore(d, MergeAll(d, Alls(Sts(a), d)), target), MergeRuns(d, SoughtRuns(b, d, target)))
  }

  class ShardIter {
    const a: MergeIter
    const b: MergeIter
    var current: Option<Side>

    /** The direction of the last seek. */
    ghost var dir: Dir

    /** The sides as they are handed over; not positioned yet. */
    constructor (mems: seq<Stream>, l0: seq<Source>)
      requires forall i | 0 <= i < |mems| :: mems[i].Ordered()
      requires forall i | 0 <= i < |l0| :: l0[i].InBlock()
      ensures fresh(a) && fresh(b) && a != b && a.Valid() && b.Valid()
      ensures a.iters == Sounds(mems) && b.iters == l0
    {
      a := new MergeIter(Sounds(mems));
      b := new MergeIter(l0);
      current, dir := None, Fwd;
    }

    /** Both sides positioned in direction `d`. */
    ghost predicate Sides(d: Dir)
      reads a, b
    {
      a != b && a.Valid() && b.Valid() && AllSound(a.iters) && a.dir == b.dir == d
    }

    /** What is still to come. */
    ghost function Ahead(): (r: Run)
      requires a.Valid() && b.Valid()
      reads a, b
    {
      OverlayRun(a.dir, a.Output().out, b.Output())
    }

    ghost function Choice(): (c: Option<Side>)
      requires a.Valid() && b.Valid()
      reads a, b
    {
      if !a.IsValid() && !b.IsValid() then None
      else if !b.IsValid() then Some(A)
      else if !a.IsValid() then Some(B)
      else if a.Output().out == [] || b.Output().out == [] then None
      else if !KeyBefore(a.dir, b.Output().out[0].key, a.Output().out[0].key) then Some(A)
      else Some(B)
    }

    ghost predicate HeadsDiffer()
      requires a.Valid() && b.Valid()
      reads a, b
    {
      a.IsValid() && b.IsValid() ==>
        a.Output().out != [] && b.Output().out != [] && a.Output().out[0].key != b.Output().out[0].key
    }

    ghost predicate Valid()
      reads this, a, b
    {
      Sides(dir) && HeadsDiffer() && current == Choice()
    }

    /** Pass over the entries of `b` that `a` hides, then choose. */
    method Settle(d: Dir) returns (ok: bool)
      requires Sides(d)
      modifies this`current, this`dir, b`iters, b`heap
      ensures ok <==> !old(Ahead()).Broken()
      ensures ok ==> Valid() && dir == d && Ahead() == old(Ahead())
      ensures ok && old(b.Full()) && Strict(old(b.iters), d) ==>
                b.iters == Passed(old(b.iters), d, old(a.Output().out), old(b.Output().out))
    {
      hide OverlayRun, MergeRuns, KeyBefore, Strict, Passed;
      ok := SkipEqual(d);
      if !ok { return; }
      current := Choose(d);
      dir := d;
    }

    /** One entry passed over. */
    lemma SkipStep()
      requires a.Valid() && b.Valid() && a.IsValid() && b.IsValid()
      ensures a.Output().out != [] && b.Output().out != []
      ensures a.Output().out[0].key == b.Output().out[0].key ==>
                Ahead() == OverlayRun(a.dir, a.Output().out, b.Output().Tail())
    {
      hide MergeRuns, KeyBefore;
      a.ValidIffOutput();
      b.ValidIffOutput();
    }

    method SkipEqual(d: Dir) returns (ok: bool)
      requires Sides(d)
      modifies b`iters, b`heap
      ensures ok <==> !old(Ahead()).Broken()
      ensures ok ==> Sides(d) && HeadsDiffer() && Ahead() == old(Ahead())
      ensures ok && old(b.Full()) && Strict(old(b.iters), d) ==>
                b.iters == Passed(old(b.iters), d, old(a.Output().out), old(b.Output().out))
    {
      hide OverlayRun, MergeRuns, KeyBefore, Strict, Passing, PassAll, AllSound, FullHeap, ShardIter.HeadsDiffer;
      ok := true;
      ghost var moved := false;
      var more := true;
      while more
        invariant ok && Sides(d) && Ahead() == old(Ahead()) && (old(b.Full()) ==> b.Full())
        invariant !moved ==> b.iters == old(b.iters) && b.Output() == old(b.Output())
        invariant moved ==> a.Output().out != [] && old(b.Output().out) != [] && a.Output().out[0].key == old(b.Output().out)[0].key
        invariant moved && Strict(old(b.iters), d) ==> Passing(old(b.iters), b.iters, d, a.Output().out[0].key)
        invariant !more ==> HeadsDiffer() && !Ahead().Broken()
        invariant !more && a.Output().out != [] ==> b.Output().out == [] || b.Output().out[0].key != a.Output().out[0].key
        decreases |b.Output().out|, more
      {
        ghost var was, l := b.iters, 0;
        more, ok, l := SkipOne(d);
        if !ok { return; }
        if more && Strict(old(b.iters), d) {
          if !moved { NotYetPassing(was, d, a.Output().out[0].key); }
          PassStep(old(b.iters), was, l, d, a.Output().out[0].key);
        }
        moved := moved || more;
      }
      if moved && old(b.Full()) && Strict(old(b.iters), d) {
        Passes(old(b.iters), old(b.heap), b.iters, b.heap, d, a.Output().out[0].key);
      }
    }

    /** One round: stop, or pass over the head of `b`. */
    method SkipOne(d: Dir) returns (more: bool, ok: bool, ghost l: nat)
      requires Sides(d)
      modifies b`iters, b`heap
      ensures !more ==> ok && b.iters == old(b.iters) && b.heap == old(b.heap) && Sides(d) && HeadsDiffer() && !Ahead().Broken()
      ensures !more && a.Output().out != [] ==> b.Output().out == [] || b.Output().out[0].key != a.Output().out[0].key
      ensures more ==> a.Output().out != [] && old(b.Output().out) != [] && a.Output().out[0].key == old(b.Output().out)[0].key
      ensures more && !ok ==> old(Ahead()).Broken()
      ensures more && ok ==> Sides(d) && Ahead() == old(Ahead()) && b.Output() == old(b.Output()).Tail()
      ensures more && ok ==>
                && l < |old(b.iters)| && old(b.iters)[l].InBlock() && old(b.iters)[l].IsValid() && !old(b.iters)[l].Breaks(d)
                && old(b.iters)[l].Head().key == a.Output().out[0].key
                && b.iters == old(b.iters)[l := old(b.iters)[l].Next(d)]
      ensures ok && old(b.Full()) ==> b.Full()
    {
      hide OverlayRun, MergeRuns, KeyBefore, AllSound, FullHeap;
      more, ok, l := false, true, 0;
      a.ValidIffOutput();
      b.ValidIffOutput();
      if !a.IsValid() || !b.IsValid() {
        SettledIntact();
        return;
      }
      SkipStep();
      var x := a.Current();
      var y := b.Current();
      if x.key != y.key {
        SettledIntact();
        return;
      }
      more := true;
      BrokenAhead(d, a.Output().out, b.Output().Tail());
      ok, l := b.Next(d);
    }

    lemma SettledIntact()
      requires a.Valid() && b.Valid()
      requires a.IsValid() && b.IsValid() ==>
                 a.Output().out != [] && b.Output().out != [] && a.Output().out[0].key != b.Output().out[0].key
      ensures HeadsDiffer() && !Ahead().Broken()
    {
      hide MergeRuns, KeyBefore;
      a.ValidIffOutput();
      b.ValidIffOutput();
    }

    method Choose(d: Dir) returns (c: Option<Side>)
      requires Sides(d)
      ensures c == Choice()
    {
      if !a.IsValid() && !b.IsValid() { return None; }
      if !b.IsValid() { return Some(A); }
      if !a.IsValid() { return Some(B); }
      var x := a.Current();
      var y := b.Current();
      c := if !KeyBefore(d, y.key, x.key) then Some(A) else Some(B);
    }

    /** Seek both sides to their first entries in direction `d`. */
    method SeekToFirst(d: Dir) returns (ok: bool)
      requires a != b && a.Valid() && b.Valid() && AllSound(a.iters)
      modifies this`current, this`dir, a, b
      ensures ok <==> !FirstAhead(old(a.iters), old(b.iters), d).Broken()
      ensures ok ==> Valid() && dir == d && Ahead() == FirstAhead(old(a.iters), old(b.iters), d)
      ensures ok ==> forall e :: Alls(Sts(a.iters), e) == Alls(Sts(old(a.iters)), e)
      ensures ok && Strict(FirstSources(old(b.iters), d), d) ==>
                b.iters == Passed(FirstSources(old(b.iters), d), d, MergeAll(d, Alls(Sts(old(a.iters)), d)),
                                  MergeRuns(d, FirstRuns(old(b.iters), d)).out)
    {
      hide OverlayRun, MergeRuns, MergeAll, KeyBefore, Strict, Passed, Sorted;
      FirstSound(a.iters, d);
      ghost var was := a.iters;
      a.SeekToFirst(d);
      SameStreams(was, a.iters);
      b.SeekToFirst(d);
      assert b.iters == FirstSources(old(b.iters), d);
      ok := Settle(d);
    }

    method Seek(d: Dir, target: Key) returns (ok: bool)
      requires a != b && a.Valid() && b.Valid() && AllSound(a.iters)
      modifies this`current, this`dir, a, b
      ensures ok <==> !SoughtAhead(old(a.iters), old(b.iters), d, target).Broken()
      ensures ok ==> Valid() && dir == d && Ahead() == SoughtAhead(old(a.iters), old(b.iters), d, target)
    {
      hide OverlayRun, MergeRuns, MergeAll, KeyBefore, DropBefore;
      SoughtSound(a.iters, d, target);
      a.Seek(d, target);
      b.Seek(d, target);
      ok := Settle(d);
    }

    /** The chosen head is the first to come. */
    lemma TakesChoice()
      requires Valid()
      ensures current.Some? <==> Ahead().out != []
      ensures !Ahead().Broken()
      ensures current == Some(A) ==>
                && a.Output().out != [] && Ahead().out[0] == a.Output().out[0]
                && Ahead().Tail() == OverlayRun(dir, a.Output().out[1..], b.Output())
      ensures current == Some(B) ==>
                && b.Output().out != [] && Ahead().out[0] == b.Output().out[0]
                && Ahead().Tail() == OverlayRun(dir, a.Output().out, b.Output().Tail())
    {
      hide KeyBefore, MergeRuns;
      a.ValidIffOutput();
      b.ValidIffOutput();
    }

    method Current() returns (e: Entry)
      requires Valid() && current.Some?
      ensures Ahead().out != [] && e == Ahead().out[0]
    {
      TakesChoice();
      a.ValidIffOutput();
      b.ValidIffOutput();
      if current == Some(A) { e := a.Current(); } else { e := b.Current(); }
    }

    /** Move the chosen side on and settle. */
    method Next(d: Dir) returns (ok: bool)
      requires Valid() && d == dir && current.Some?
      modifies this`current, this`dir, a`iters, a`heap, b`iters, b`heap
      ensures old(Ahead()).out != [] && (ok <==> !old(Ahead()).Tail().Broken())
      ensures ok ==> Valid() && dir == d && Ahead() == old(Ahead()).Tail()
    {
      hide OverlayRun, MergeRuns, MergeAll, KeyBefore;
      TakesChoice();
      a.ValidIffOutput();
      b.ValidIffOutput();
      ghost var l;
      if current == Some(A) {
        ok, l := a.Next(d);
      } else {
        ghost var bRun := b.Output();
        ok, l := b.Next(d);
        if !ok {
          BrokenAhead(d, a.Output().out, bRun.Tail());
          return;
        }
      }
      ok := Settle(d);
    }
  }
}
