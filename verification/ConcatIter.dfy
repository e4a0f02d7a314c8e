/** Sources end to end: one iterator over non-overlapping runs in key order. */
module ConcatIter {
  import opened Keys
  import opened BlockBuilders
  import opened Streams

  /** Runs `i` and on, first to last. */
  function FlatUp(ss: seq<seq<Entry>>, i: nat): (r: seq<Entry>)
    decreases |ss| - i
  {
    if i >= |ss| then [] else ss[i] + FlatUp(ss, i + 1)
  }

  /** Runs below `i`, last to first. */
  function FlatDown(ss: seq<seq<Entry>>, i: nat): (r: seq<Entry>)
    requires i <= |ss|
  {
    if i == 0 then [] else ss[i - 1] + FlatDown(ss, i - 1)
  }

  /** Everything the concatenation yields in a direction. */
  function Flat(d: Dir, ss: seq<seq<Entry>>): (r: seq<Entry>) {
    if d == Fwd then FlatUp(ss, 0) else FlatDown(ss, |ss|)
  }

  /** A seek drops whole runs, then part of one. */
  lemma {:induction false} DropConcat(d: Dir, s: seq<Entry>, t: seq<Entry>, target: Key)
    ensures DropBefore(d, s + t, target) ==
            if DropBefore(d, s, target) == [] then DropBefore(d, t, target) else DropBefore(d, s, target) + t
    decreases |s|
  {
    hide KeyBefore;
    if s == [] {
      assert s + t == t;
    } else if KeyBefore(d, s[0].key, target) {
      assert (s + t)[1..] == s[1..] + t;
      DropConcat(d, s[1..], t, target);
    }
  }

  lemma DownStep(ss: seq<seq<Entry>>, i: nat, target: Key)
    requires i < |ss|
    ensures var s, t := DropBefore(Rev, ss[i], target), FlatDown(ss, i);
            DropBefore(Rev, FlatDown(ss, i + 1), target) == if s == [] then DropBefore(Rev, t, target) else s + t
  {
    DropConcat(Rev, ss[i], FlatDown(ss, i), target);
  }

  lemma DownDone(ss: seq<seq<Entry>>)
    ensures FlatDown(ss, 0) == []
  {
  }

  /** No key of an earlier run is after one of a later run. */
  predicate Ascend(ss: seq<seq<Entry>>) {
    forall i, j, p, q | 0 <= i < j < |ss| && 0 <= p < |ss[i]| && 0 <= q < |ss[j]| ::
      !KeyBefore(Fwd, ss[j][q].key, ss[i][p].key)
  }

  lemma ConcatSorted(d: Dir, s: seq<Entry>, t: seq<Entry>)
    requires Sorted(d, s) && Sorted(d, t)
    requires forall p, q | 0 <= p < |s| && 0 <= q < |t| :: !KeyBefore(d, t[q].key, s[p].key)
    ensures Sorted(d, s + t)
  {
    hide KeyBefore;
  }

  lemma {:induction false} FlatUpAfter(ss: seq<seq<Entry>>, j: nat, p: nat, i: nat, q: nat)
    requires Ascend(ss) && j < i && j < |ss| && p < |ss[j]| && q < |FlatUp(ss, i)|
    ensures !KeyBefore(Fwd, FlatUp(ss, i)[q].key, ss[j][p].key)
    decreases |ss| - i
  {
    hide KeyBefore;
    if q >= |ss[i]| { FlatUpAfter(ss, j, p, i + 1, q - |ss[i]|); }
  }

  lemma {:induction false} FlatUpSorted(ss: seq<seq<Entry>>, i: nat)
    requires Ascend(ss) && AllSorted(Fwd, ss)
    ensures Sorted(Fwd, FlatUp(ss, i))
    decreases |ss| - i
  {
    hide KeyBefore;
    if i < |ss| {
      FlatUpSorted(ss, i + 1);
      var s, t := ss[i], FlatUp(ss, i + 1);
      forall p, q | 0 <= p < |s| && 0 <= q < |t|
        ensures !KeyBefore(Fwd, t[q].key, s[p].key)
      {
        FlatUpAfter(ss, i, p, i + 1, q);
      }
      ConcatSorted(Fwd, s, t);
    }
  }

  lemma {:induction false} FlatDownAfter(ss: seq<seq<Entry>>, j: nat, p: nat, i: nat, q: nat)
    requires Ascend(ss) && i <= j < |ss| && p < |ss[j]| && q < |FlatDown(ss, i)|
    ensures !KeyBefore(Rev, FlatDown(ss, i)[q].key, ss[j][p].key)
    decreases i
  {
    hide Less;
    if q >= |ss[i - 1]| {
      FlatDownAfter(ss, j, p, i - 1, q - |ss[i - 1]|);
    } else {
      assert !KeyBefore(Fwd, ss[j][p].key, ss[i - 1][q].key);
    }
  }

  lemma {:induction false} FlatDownSorted(ss: seq<seq<Entry>>, i: nat)
    requires Ascend(ss) && AllSorted(Rev, ss) && i <= |ss|
    ensures Sorted(Rev, FlatDown(ss, i))
    decreases i
  {
    hide KeyBefore;
    if i > 0 {
      FlatDownSorted(ss, i - 1);
      var s, t := ss[i - 1], FlatDown(ss, i - 1);
      forall p, q | 0 <= p < |s| && 0 <= q < |t|
        ensures !KeyBefore(Rev, t[q].key, s[p].key)
      {
        FlatDownAfter(ss, i - 1, p, i - 1, q);
      }
      ConcatSorted(Rev, s, t);
    }
  }

  /** Over non-overlapping runs in key order, some perhaps empty, the
      concatenation is in order either way. */
  lemma FlatSorted(d: Dir, ss: seq<seq<Entry>>)
    requires Ascend(ss) && AllSorted(d, ss)
    ensures Sorted(d, Flat(d, ss))
  {
    if d == Fwd { FlatUpSorted(ss, 0); } else { FlatDownSorted(ss, |ss|); }
  }

  class ConcatIter {
    var iters: seq<Stream>
    var curr: nat

    constructor (sources: seq<Stream>)
      ensures iters == sources && curr == 0
    {
      iters, curr := sources, 0;
    }

    /** Move one source; none yields anything else than before. */
    method Move(i: nat, st: Stream)
      requires i < |iters| && st.fwd == iters[i].fwd && st.rev == iters[i].rev
      modifies this`iters
      ensures SameSources(old(iters)) && iters == old(iters)[i := st]
    {
      iters := iters[i := st];
      assert Alls(iters, Fwd) == Alls(old(iters), Fwd) && Alls(iters, Rev) == Alls(old(iters), Rev);
    }

    predicate IsValid()
      reads this
    {
      curr < |iters| && iters[curr].Valid()
    }

    ghost predicate SameSources(was: seq<Stream>)
      reads this
    {
      |iters| == |was| && Alls(iters, Fwd) == Alls(was, Fwd) && Alls(iters, Rev) == Alls(was, Rev)
    }

    /** What is still to come in direction `d`. */
    function Output(d: Dir): (s: seq<Entry>)
      reads this
    {
      if curr >= |iters| then []
      else iters[curr].rest + if d == Fwd then FlatUp(Alls(iters, Fwd), curr + 1) else FlatDown(Alls(iters, Rev), curr)
    }

    /** The concatenation as one iterator, moving in `d`. */
    function Abs(d: Dir): (st: Stream)
      reads this
    {
      Stream(FlatUp(Alls(iters, Fwd), 0), FlatDown(Alls(iters, Rev), |iters|), Output(d))
    }

    /** Over non-overlapping sources in key order it keeps the contract. */
    lemma AbsOrdered(d: Dir)
      requires Ascend(Alls(iters, Fwd)) && Ascend(Alls(iters, Rev))
      requires AllSorted(Fwd, Alls(iters, Fwd)) && AllSorted(Rev, Alls(iters, Rev))
      ensures Abs(d).Ordered()
    {
      FlatSorted(Fwd, Alls(iters, Fwd));
      FlatSorted(Rev, Alls(iters, Rev));
    }

    /** Invalid only when nothing is to come. */
    ghost predicate Positioned(d: Dir)
      reads this
    {
      IsValid() <==> Output(d) != []
    }

    method SeekToFirst(d: Dir)
      modifies this
      ensures SameSources(old(iters)) && Positioned(d)
      ensures Abs(d) == old(Abs(d)).SeekToFirst(d)
    {
      if d == Fwd {
        curr := 0;
        FirstFrom();
      } else if iters != [] {
        curr := |iters|;
        LastBelow();
      }
    }

    /** The first non-empty run from `curr` on. */
    method FirstFrom()
      modifies this
      ensures SameSources(old(iters)) && Positioned(Fwd)
      ensures Output(Fwd) == FlatUp(Alls(old(iters), Fwd), old(curr))
    {
      hide Alls;
      ghost var ss := Alls(iters, Fwd);
      while curr < |iters|
        invariant SameSources(old(iters)) && FlatUp(ss, curr) == FlatUp(ss, old(curr))
        decreases |iters| - curr
      {
        Move(curr, iters[curr].SeekToFirst(Fwd));
        if iters[curr].Valid() { return; }
        curr := curr + 1;
      }
    }

    /** The last non-empty run below `curr`. */
    method LastBelow()
      requires 0 < curr <= |iters|
      modifies this
      ensures SameSources(old(iters)) && Positioned(Rev)
      ensures Output(Rev) == FlatDown(Alls(old(iters), Rev), old(curr))
    {
      hide Alls;
      ghost var ss := Alls(iters, Rev);
      curr := curr - 1;
      while true
        invariant SameSources(old(iters)) && curr < |iters| && FlatDown(ss, curr + 1) == FlatDown(ss, old(curr))
        decreases curr
      {
        Move(curr, iters[curr].SeekToFirst(Rev));
        if iters[curr].Valid() || curr == 0 { return; }
        curr := curr - 1;
      }
    }

    method Seek(d: Dir, target: Key)
      modifies this
      ensures SameSources(old(iters)) && Positioned(d)
      ensures Abs(d) == old(Abs(d)).Seek(d, target)
    {
      if d == Fwd { SeekUp(target); } else { SeekDown(target); }
    }

    method SeekUp(target: Key)
      modifies this
      ensures SameSources(old(iters)) && Positioned(Fwd)
      ensures Output(Fwd) == DropBefore(Fwd, FlatUp(Alls(old(iters), Fwd), 0), target)
    {
      hide KeyBefore, DropBefore, Alls;
      ghost var ss := Alls(iters, Fwd);
      curr := 0;
      while curr < |iters|
        invariant SameSources(old(iters))
        invariant DropBefore(Fwd, FlatUp(ss, curr), target) == DropBefore(Fwd, FlatUp(ss, 0), target)
        decreases |iters| - curr
      {
        DropConcat(Fwd, ss[curr], FlatUp(ss, curr + 1), target);
        Move(curr, iters[curr].Seek(Fwd, target));
        if iters[curr].Valid() { return; }
        curr := curr + 1;
      }
    }

    method SeekDown(target: Key)
      modifies this
      ensures SameSources(old(iters)) && Positioned(Rev)
      ensures Output(Rev) == DropBefore(Rev, FlatDown(Alls(old(iters), Rev), |old(iters)|), target)
    {
      hide KeyBefore, DropBefore, Alls, FlatDown;
      ghost var ss := Alls(iters, Rev);
      ghost var goal := DropBefore(Rev, FlatDown(ss, |ss|), target);
      var i: nat := |iters|;
      while i > 0
        invariant SameSources(old(iters)) && i <= |iters| && (i < |iters| ==> !iters[i].Valid())
        invariant DropBefore(Rev, FlatDown(ss, i), target) == goal
      {
        i := i - 1;
        DownStep(ss, i, target);
        Move(i, iters[i].Seek(Rev, target));
        if iters[i].Valid() {
          curr := i;
          return;
        }
      }
      curr := 0;
      DownDone(ss);
    }

    method Next(d: Dir)
      requires Positioned(d)
      modifies this
      ensures SameSources(old(iters)) && Positioned(d)
      ensures Abs(d) == old(Abs(d)).Next()
      ensures !old(IsValid()) ==> iters == old(iters) && curr == old(curr)
    {
      hide Alls, FlatUp, FlatDown, ConcatIter.Output;
      if !IsValid() { return; }
      MoveOn(d);
    }

    method MoveOn(d: Dir)
      requires IsValid()
      modifies this
      ensures SameSources(old(iters)) && Positioned(d)
      ensures old(Output(d)) != [] && Output(d) == old(Output(d))[1..]
    {
      hide Alls, FlatUp, FlatDown;
      DownDone(Alls(iters, Rev));
      Move(curr, iters[curr].Next());
      if iters[curr].Valid() { return; }
      if d == Fwd {
        curr := curr + 1;
        FirstFrom();
      } else if curr > 0 {
        LastBelow();
      }
    }

    method Current(d: Dir) returns (e: Entry)
      requires IsValid()
      ensures Output(d) != [] && e == Output(d)[0]
    {
      e := iters[curr].rest[0];
    }
  }
}
