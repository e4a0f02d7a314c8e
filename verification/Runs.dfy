/** What running an iterator to its end yields when it may break off: an SST
    iterator that has been sought twice at height three or more keeps its old
    block and ends in an index out of range. */
module Runs {
  import opened Keys
  import opened BlockBuilders
  import opened Wrappers
  import opened Streams

  /** The entries yielded, and whether moving past the last of them is an index
      out of range. Breaking off with nothing yielded is breaking off at once. */
  datatype Run = Run(out: seq<Entry>, breaks: bool) {
    predicate Broken() {
      out == [] && breaks
    }

    function Tail(): (r: Run)
      requires out != []
    {
      Run(out[1..], breaks)
    }
  }

  function Cons(e: Entry, r: Run): Run {
    Run([e] + r.out, r.breaks)
  }

  /** A source of a merge: one that keeps the contract, or a stranded SST
      iterator with its cursor in one data block. */
  datatype Source = Sound(st: Stream) | Stuck(block: seq<Entry>, at: Option<nat>) {
    /** The cursor, if there is one, is on an entry of the block. */
    predicate InBlock() {
      Stuck? && at.Some? ==> at.value < |block|
    }

    predicate WellFormed() {
      InBlock() && (Sound? ==> st.Ordered())
    }

    predicate IsValid() {
      match this
      case Sound(st) => st.Valid()
      case Stuck(_, at) => at.Some?
    }

    /** What is to come when moving in direction `d`. */
    function To(d: Dir): (r: Run)
      requires InBlock()
    {
      match this
      case Sound(st) => Run(st.rest, false)
      case Stuck(block, at) =>
        if at.None? then Run([], false)
        else if d == Fwd then Run(block[at.value..], true)
        else Run(Reversed(block[..at.value + 1]), true)
    }

    function Head(): (e: Entry)
      requires IsValid() && InBlock()
    {
      match this
      case Sound(st) => st.rest[0]
      case Stuck(block, at) => block[at.value]
    }

    /** A stranded iterator keeps its cursor when sought without a target, */
    function SeekToFirst(d: Dir): (src: Source) {
      match this
      case Sound(st) => Sound(st.SeekToFirst(d))
      case Stuck(_, _) => this
    }

    /** and loses it when sought with one. */
    function Seek(d: Dir, target: Key): (src: Source) {
      match this
      case Sound(st) => Sound(st.Seek(d, target))
      case Stuck(block, _) => Stuck(block, None)
    }

    /** The next move in direction `d` is an index out of range. */
    predicate Breaks(d: Dir) {
      Stuck? && at.Some? && if d == Fwd then at.value + 1 >= |block| else at.value == 0
    }

    function Next(d: Dir): (src: Source)
      requires !Breaks(d)
    {
      match this
      case Sound(st) => Sound(st.Next())
      case Stuck(block, at) =>
        if at.None? then this
        else if d == Fwd then Stuck(block, Some(at.value + 1))
        else Stuck(block, Some(at.value - 1))
    }
  }

  /** The head is the first to come; moving on drops it or breaks off. */
  lemma SourceMoves(src: Source, d: Dir)
    requires src.InBlock()
    ensures src.IsValid() <==> src.To(d).out != []
    ensures !src.To(d).Broken()
    ensures src.IsValid() ==> src.Head() == src.To(d).out[0] && (src.Breaks(d) <==> src.To(d).Tail().Broken())
    ensures src.IsValid() && !src.Breaks(d) ==> src.Next(d).InBlock() && src.Next(d).To(d) == src.To(d).Tail()
  {
    if src.Stuck? && src.at.Some? && d == Rev && !src.Breaks(d) {
      var i := src.at.value;
      assert Reversed(src.block[..i + 1])[1..] == Reversed(src.block[..i]);
    }
  }

  lemma SourceSeeks(src: Source, d: Dir, target: Key)
    requires src.InBlock()
    ensures src.SeekToFirst(d).InBlock() && src.Seek(d, target).InBlock()
    ensures src.Sound? ==> src.SeekToFirst(d).To(d) == Run(src.st.All(d), false)
    ensures src.Sound? ==> src.Seek(d, target).To(d) == Run(DropBefore(d, src.st.All(d), target), false)
    ensures src.Stuck? ==> src.SeekToFirst(d) == src && src.Seek(d, target).To(d) == Run([], false)
  {
  }

  // ---- merging runs ----

  /** Stable merge of two runs; once one has broken off nothing more comes. */
  function MergeRun(dir: Dir, a: Run, b: Run): (r: Run)
    decreases |a.out| + |b.out|
  {
    if a.Broken() || b.Broken() then Run([], true)
    else if a.out == [] then b
    else if b.out == [] then a
    else if KeyBefore(dir, b.out[0].key, a.out[0].key) then Cons(b.out[0], MergeRun(dir, a, b.Tail()))
    else Cons(a.out[0], MergeRun(dir, a.Tail(), b))
  }

  function MergeRuns(dir: Dir, rs: seq<Run>): (r: Run)
    decreases |rs|
  {
    if rs == [] then Run([], false) else MergeRun(dir, rs[0], MergeRuns(dir, rs[1..]))
  }

  predicate Intact(rs: seq<Run>) {
    forall i | 0 <= i < |rs| :: !rs[i].Broken()
  }

  function Outs(rs: seq<Run>): (ss: seq<seq<Entry>>)
    ensures |ss| == |rs| && forall i | 0 <= i < |rs| :: ss[i] == rs[i].out
  {
    seq(|rs|, i requires 0 <= i < |rs| => rs[i].out)
  }

  lemma {:induction false} MergeRunsHead(dir: Dir, rs: seq<Run>)
    ensures MergeRuns(dir, rs).Broken() <==> !Intact(rs)
    ensures Intact(rs) ==> (MergeRuns(dir, rs).out == [] <==> forall j | 0 <= j < |rs| :: rs[j].out == [])
    ensures Intact(rs) && MergeRuns(dir, rs).out != [] ==>
              exists j | 0 <= j < |rs| && rs[j].out != [] :: rs[j].out[0] == MergeRuns(dir, rs).out[0]
    decreases |rs|
  {
    hide KeyBefore;
    if rs != [] {
      MergeRunsHead(dir, rs[1..]);
      assert forall j | 1 <= j < |rs| :: rs[j] == rs[1..][j - 1];
      assert forall j | 0 <= j < |rs| - 1 :: rs[1..][j] == rs[j + 1];
      assert Intact(rs) <==> !rs[0].Broken() && Intact(rs[1..]);
    }
  }

  /** Taking the best head takes the head of the merge, broken or not after. */
  lemma {:induction false} MergeRunsStep(dir: Dir, rs: seq<Run>, l: nat)
    requires Intact(rs) && IsBest(dir, Outs(rs), l)
    ensures MergeRuns(dir, rs) == Cons(rs[l].out[0], MergeRuns(dir, rs[l := rs[l].Tail()]))
    decreases |rs|
  {
    hide KeyBefore;
    var rs' := rs[l := rs[l].Tail()];
    assert forall j | 0 <= j < |rs| - 1 :: rs[1..][j] == rs[j + 1];
    MergeRunsHead(dir, rs[1..]);
    if l == 0 {
      assert rs'[1..] == rs[1..];
      BestFirst(dir, rs);
    } else {
      BestRest(dir, rs, l);
      MergeRunsStep(dir, rs[1..], l - 1);
      assert rs'[1..] == rs[1..][l - 1 := rs[l].Tail()];
    }
  }

  lemma BestFirst(dir: Dir, rs: seq<Run>)
    requires Intact(rs) && IsBest(dir, Outs(rs), 0)
    ensures var rest := MergeRuns(dir, rs[1..]);
            !rest.Broken() && (rest.out != [] ==> !KeyBefore(dir, rest.out[0].key, rs[0].out[0].key))
  {
    hide KeyBefore;
    MergeRunsHead(dir, rs[1..]);
    var rest := MergeRuns(dir, rs[1..]);
    assert Intact(rs[1..]);
    if rest.out != [] {
      var j :| 0 <= j < |rs[1..]| && rs[1..][j].out != [] && rs[1..][j].out[0] == rest.out[0];
      assert Outs(rs)[j + 1] == rs[1..][j].out;
    }
  }

  lemma BestRest(dir: Dir, rs: seq<Run>, l: nat)
    requires Intact(rs) && l > 0 && IsBest(dir, Outs(rs), l)
    ensures Intact(rs[1..]) && IsBest(dir, Outs(rs[1..]), l - 1)
    ensures rs[0].out != [] ==> KeyBefore(dir, rs[l].out[0].key, rs[0].out[0].key)
  {
    hide KeyBefore;
    assert forall j | 0 <= j < |rs| - 1 :: Outs(rs[1..])[j] == Outs(rs)[j + 1];
    assert rs[0].out == Outs(rs)[0];
  }

  /** Merging keeps the order, as far as it gets. */
  lemma {:induction false} MergeRunSorted(dir: Dir, a: Run, b: Run)
    requires Sorted(dir, a.out) && Sorted(dir, b.out)
    ensures Sorted(dir, MergeRun(dir, a, b).out)
    ensures var r := MergeRun(dir, a, b).out;
            r != [] ==> (a.out != [] && r[0] == a.out[0]) || (b.out != [] && r[0] == b.out[0])
    decreases |a.out| + |b.out|
  {
    hide KeyBefore;
    if !a.Broken() && !b.Broken() && a.out != [] && b.out != [] {
      Order(dir);
      if KeyBefore(dir, b.out[0].key, a.out[0].key) {
        MergeRunSorted(dir, a, b.Tail());
        ConsSorted(dir, b.out[0], MergeRun(dir, a, b.Tail()).out);
      } else {
        MergeRunSorted(dir, a.Tail(), b);
        ConsSorted(dir, a.out[0], MergeRun(dir, a.Tail(), b).out);
      }
    }
  }

  lemma {:induction false} MergeRunsSorted(dir: Dir, rs: seq<Run>)
    requires forall i | 0 <= i < |rs| :: Sorted(dir, rs[i].out)
    ensures Sorted(dir, MergeRuns(dir, rs).out)
    decreases |rs|
  {
    hide KeyBefore;
    if rs != [] {
      MergeRunsSorted(dir, rs[1..]);
      MergeRunSorted(dir, rs[0], MergeRuns(dir, rs[1..]));
    }
  }

  /** Sound runs merge as their sequences do. */
  lemma {:induction false} MergeRunSound(dir: Dir, a: seq<Entry>, b: seq<Entry>)
    ensures MergeRun(dir, Run(a, false), Run(b, false)) == Run(StableMerge(dir, a, b), false)
    decreases |a| + |b|
  {
    hide KeyBefore;
    if a != [] && b != [] {
      if KeyBefore(dir, b[0].key, a[0].key) {
        MergeRunSound(dir, a, b[1..]);
      } else {
        MergeRunSound(dir, a[1..], b);
      }
    }
  }

  lemma {:induction false} MergeRunsSound(dir: Dir, rs: seq<Run>)
    requires forall i | 0 <= i < |rs| :: !rs[i].breaks
    ensures MergeRuns(dir, rs) == Run(MergeAll(dir, Outs(rs)), false)
    decreases |rs|
  {
    if rs != [] {
      MergeRunsSound(dir, rs[1..]);
      assert Outs(rs)[1..] == Outs(rs[1..]);
      MergeRunSound(dir, rs[0].out, MergeAll(dir, Outs(rs[1..])));
      assert rs[0] == Run(rs[0].out, false);
    }
  }

  /** A merge breaks off exactly when one of its runs does. */
  lemma {:induction false} MergeRunBreaks(dir: Dir, a: Run, b: Run)
    ensures MergeRun(dir, a, b).breaks <==> a.breaks || b.breaks
    decreases |a.out| + |b.out|
  {
    hide KeyBefore;
    if !a.Broken() && !b.Broken() && a.out != [] && b.out != [] {
      if KeyBefore(dir, b.out[0].key, a.out[0].key) {
        MergeRunBreaks(dir, a, b.Tail());
      } else {
        MergeRunBreaks(dir, a.Tail(), b);
      }
    }
  }

  lemma {:induction false} MergeRunsBreak(dir: Dir, rs: seq<Run>)
    ensures MergeRuns(dir, rs).breaks <==> exists i | 0 <= i < |rs| :: rs[i].breaks
    decreases |rs|
  {
    if rs != [] {
      MergeRunsBreak(dir, rs[1..]);
      MergeRunBreaks(dir, rs[0], MergeRuns(dir, rs[1..]));
      assert forall i | 1 <= i < |rs| :: rs[i] == rs[1..][i - 1];
      assert forall i | 0 <= i < |rs| - 1 :: rs[1..][i] == rs[i + 1];
    }
  }

  /** No head is before the head of the merge. */
  lemma {:induction false} MergeRunsLeast(dir: Dir, rs: seq<Run>, l: nat)
    requires Intact(rs) && l < |rs| && rs[l].out != []
    ensures MergeRuns(dir, rs).out != [] && !KeyBefore(dir, rs[l].out[0].key, MergeRuns(dir, rs).out[0].key)
    decreases |rs|
  {
    hide KeyBefore;
    Order(dir);
    MergeRunsHead(dir, rs);
    MergeRunsHead(dir, rs[1..]);
    var a, b := rs[0], MergeRuns(dir, rs[1..]);
    assert forall i | 0 <= i < |rs| - 1 :: rs[1..][i] == rs[i + 1];
    assert Intact(rs[1..]);
    if l > 0 {
      MergeRunsLeast(dir, rs[1..], l - 1);
      if a.out != [] && !KeyBefore(dir, b.out[0].key, a.out[0].key) {
        NotBeforeChain(dir, a.out[0].key, b.out[0].key, rs[l].out[0].key);
      }
    }
  }

  // ---- a run under a sequence ----

  /** `a` over `b`: equal keys of `b` are passed over, which may break it off. */
  function OverlayRun(dir: Dir, a: seq<Entry>, b: Run): (r: Run)
    decreases |a| + |b.out|
  {
    if b.Broken() then Run([], true)
    else if a == [] then b
    else if b.out == [] then Run(a, false)
    else if a[0].key == b.out[0].key then OverlayRun(dir, a, b.Tail())
    else if KeyBefore(dir, b.out[0].key, a[0].key) then Cons(b.out[0], OverlayRun(dir, a, b.Tail()))
    else Cons(a[0], OverlayRun(dir, a[1..], b))
  }

  lemma {:induction false} OverlayRunSound(dir: Dir, a: seq<Entry>, b: seq<Entry>)
    requires Sorted(dir, a) && Sorted(dir, b)
    ensures OverlayRun(dir, a, Run(b, false)) == Run(Overlay(dir, a, b), false)
    decreases |a| + |b|
  {
    hide KeyBefore, HasKey;
    Order(dir);
    if a != [] && b != [] {
      if a[0].key == b[0].key {
        OverlaySkip(dir, a, b);
        OverlayRunSound(dir, a, b[1..]);
      } else if KeyBefore(dir, b[0].key, a[0].key) {
        OverlayTakeB(dir, a, b);
        OverlayRunSound(dir, a, b[1..]);
      } else {
        OverlayTakeA(dir, a, b);
        OverlayRunSound(dir, a[1..], b);
      }
    } else {
      OverlayNone(dir, a, b);
    }
  }

  lemma OverlayNone(dir: Dir, a: seq<Entry>, b: seq<Entry>)
    requires a == [] || b == []
    ensures Overlay(dir, a, b) == a + b
  {
    if a == [] { WithoutNone(b); }
  }

  lemma {:induction false} WithoutNone(b: seq<Entry>)
    ensures Without(b, []) == b
    decreases |b|
  {
    if b != [] { WithoutNone(b[1..]); }
  }

  lemma {:induction false} OverlayRunSorted(dir: Dir, a: seq<Entry>, b: Run)
    requires Sorted(dir, a) && Sorted(dir, b.out)
    ensures Sorted(dir, OverlayRun(dir, a, b).out)
    ensures var r := OverlayRun(dir, a, b).out;
            r != [] ==> (a != [] && r[0] == a[0]) || (b.out != [] && !KeyBefore(dir, r[0].key, b.out[0].key))
    decreases |a| + |b.out|
  {
    hide KeyBefore;
    Order(dir);
    if !b.Broken() && a != [] && b.out != [] {
      var r := OverlayRun(dir, a, b).out;
      if a[0].key == b.out[0].key || KeyBefore(dir, b.out[0].key, a[0].key) {
        OverlayRunSorted(dir, a, b.Tail());
        var t := OverlayRun(dir, a, b.Tail()).out;
        if t != [] && t[0] != a[0] { NotBeforeChain(dir, b.out[0].key, b.out[1].key, t[0].key); }
        ConsSorted(dir, b.out[0], t);
      } else {
        OverlayRunSorted(dir, a[1..], b);
        var t := OverlayRun(dir, a[1..], b).out;
        if t != [] && !(|a| > 1 && t[0] == a[1]) { BeforeChain(dir, a[0].key, b.out[0].key, t[0].key); }
        ConsSorted(dir, a[0], t);
      }
    }
  }

  lemma {:induction false} OverlayRunBreaks(dir: Dir, a: seq<Entry>, b: Run)
    ensures OverlayRun(dir, a, b).breaks <==> b.breaks
    decreases |a| + |b.out|
  {
    hide KeyBefore;
    if !b.Broken() && a != [] && b.out != [] {
      if a[0].key == b.out[0].key || KeyBefore(dir, b.out[0].key, a[0].key) {
        OverlayRunBreaks(dir, a, b.Tail());
      } else {
        OverlayRunBreaks(dir, a[1..], b);
      }
    }
  }

  // ---- where a run breaks off at once ----

  /** It breaks off, and until then has no other key. */
  predicate EndsIn(r: Run, k: Key) {
    r.breaks && forall i | 0 <= i < |r.out| :: r.out[i].key == k
  }

  predicate NotBefore(dir: Dir, r: Run, k: Key) {
    r.out == [] || !KeyBefore(dir, r.out[0].key, k)
  }

  lemma EndsInTail(r: Run, k: Key)
    requires r.out != []
    ensures EndsIn(r, k) <==> r.out[0].key == k && EndsIn(r.Tail(), k)
  {
    assert forall i | 1 <= i < |r.out| :: r.out[i] == r.Tail().out[i - 1];
  }

  /** A merge of two breaks off within one key exactly when one of them does,
      and the other does not start before that key. */
  lemma {:induction false} MergeRunEnds(dir: Dir, a: Run, b: Run, k: Key)
    requires Sorted(dir, a.out) && Sorted(dir, b.out)
    ensures EndsIn(MergeRun(dir, a, b), k) <==>
            a.Broken() || b.Broken() || (EndsIn(a, k) && NotBefore(dir, b, k)) || (EndsIn(b, k) && NotBefore(dir, a, k))
    decreases |a.out| + |b.out|
  {
    hide KeyBefore, EndsIn;
    Order(dir);
    if a.Broken() || b.Broken() {
      assert EndsIn(Run([], true), k) by { EndsAtOnce(k); }
    } else if a.out == [] || b.out == [] {
      EndsSometime(a, k);
      EndsSometime(b, k);
    } else {
      EndsInTail(a, k);
      EndsInTail(b, k);
      EndsInTail(MergeRun(dir, a, b), k);
      EndsSometime(a.Tail(), k);
      EndsSometime(b.Tail(), k);
      if KeyBefore(dir, b.out[0].key, a.out[0].key) {
        MergeRunEnds(dir, a, b.Tail(), k);
      } else {
        MergeRunEnds(dir, a.Tail(), b, k);
      }
    }
  }

  lemma EndsAtOnce(k: Key)
    ensures EndsIn(Run([], true), k)
  {
  }

  lemma EndsSometime(r: Run, k: Key)
    ensures EndsIn(r, k) ==> r.breaks
    ensures r.Broken() ==> EndsIn(r, k)
  {
  }

  lemma {:induction false} MergeRunsEnd(dir: Dir, rs: seq<Run>, k: Key)
    requires Intact(rs) && forall i | 0 <= i < |rs| :: Sorted(dir, rs[i].out)
    ensures EndsIn(MergeRuns(dir, rs), k) <==>
            (exists l | 0 <= l < |rs| :: EndsIn(rs[l], k)) && (forall l | 0 <= l < |rs| :: NotBefore(dir, rs[l], k))
    ensures NotBefore(dir, MergeRuns(dir, rs), k) <==> forall l | 0 <= l < |rs| :: NotBefore(dir, rs[l], k)
    decreases |rs|
  {
    hide KeyBefore, EndsIn, Sorted;
    if rs == [] {
      EndsSometime(Run([], false), k);
    } else {
      var a, b := rs[0], MergeRuns(dir, rs[1..]);
      assert forall i | 0 <= i < |rs| - 1 :: rs[1..][i] == rs[i + 1];
      assert forall i | 1 <= i < |rs| :: rs[i] == rs[1..][i - 1];
      MergeRunsEnd(dir, rs[1..], k);
      MergeRunsHead(dir, rs[1..]);
      MergeRunsSorted(dir, rs[1..]);
      MergeRunEnds(dir, a, b, k);
      MergeRunStart(dir, a, b, k);
      EndsStart(dir, a, k);
      EndsStart(dir, b, k);
    }
  }

  lemma MergeRunStart(dir: Dir, a: Run, b: Run, k: Key)
    requires !a.Broken() && !b.Broken()
    ensures NotBefore(dir, MergeRun(dir, a, b), k) <==> NotBefore(dir, a, k) && NotBefore(dir, b, k)
  {
    hide KeyBefore;
    Order(dir);
  }

  lemma EndsStart(dir: Dir, r: Run, k: Key)
    ensures EndsIn(r, k) ==> NotBefore(dir, r, k)
  {
    hide KeyBefore;
    Order(dir);
  }

  lemma {:induction false} OverlayRunEnds(dir: Dir, a: seq<Entry>, b: Run)
    ensures OverlayRun(dir, a, b).Broken() <==> b.Broken() || (a != [] && EndsIn(b, a[0].key))
    decreases |b.out|
  {
    hide KeyBefore;
    if !b.Broken() && a != [] && b.out != [] {
      EndsInTail(b, a[0].key);
      if a[0].key == b.out[0].key { OverlayRunEnds(dir, a, b.Tail()); }
    }
  }
}
