/** The two-way merge in which the first source hides the second on equal keys. */
module TwoMergeIter {
  import opened Keys
  import opened BlockBuilders
  import opened Wrappers
  import opened Streams

  datatype Side = A | B

  class TwoMergeIter {
    var a: Stream
    var b: Stream
    var current: Option<Side>

    /** The direction of the last seek. */
    ghost var dir: Dir

    /** What is still to come: all of A, and of B the keys A does not have. */
    ghost function Output(): (s: seq<Entry>)
      reads this`a, this`b, this`dir
    {
      Overlay(dir, a.rest, b.rest)
    }

    /** The merge as one iterator that keeps the contract, moving in `d`. */
    function As(d: Dir): (st: Stream)
      reads this`a, this`b
    {
      OverlayAbs(a, b, Overlay(d, a.rest, b.rest))
    }

    ghost function Abs(): (st: Stream)
      requires a.Ordered() && b.Ordered()
      reads this`a, this`b, this`dir
      ensures st.Ordered() && st.rest == Output()
    {
      OverlayOrdered(a, b);
      As(dir)
    }

    predicate HeadsDiffer()
      reads this`a, this`b
    {
      a.Valid() && b.Valid() ==> a.rest[0].key != b.rest[0].key
    }

    ghost predicate Valid()
      reads this
    {
      && a.Ordered() && b.Ordered() && Sorted(dir, a.rest) && Sorted(dir, b.rest)
      && HeadsDiffer() && current == Choose(dir)
    }

    constructor (a: Stream, b: Stream)
      requires a.Ordered() && b.Ordered()
      ensures Valid() && dir == Fwd && Abs() == OverlayAbs(a, b, Overlay(Fwd, a.fwd, b.fwd))
    {
      this.a, this.b, this.current, this.dir := a.SeekToFirst(Fwd), b.SeekToFirst(Fwd), None, Fwd;
      new;
      SkipBIfEqual();
      current := Choose(Fwd);
    }

    function Choose(d: Dir): (c: Option<Side>)
      reads this`a, this`b
    {
      if !a.Valid() && !b.Valid() then None
      else if !b.Valid() then Some(A)
      else if !a.Valid() then Some(B)
      else if !KeyBefore(d, b.rest[0].key, a.rest[0].key) then Some(A)
      else Some(B)
    }

    method SkipBIfEqual()
      requires Sorted(dir, b.rest)
      modifies this`b
      ensures HeadsDiffer() && Output() == old(Output()) && Sorted(dir, b.rest)
      ensures b.fwd == old(b).fwd && b.rev == old(b).rev
    {
      hide KeyBefore, Overlay;
      while a.Valid() && b.Valid() && a.rest[0].key == b.rest[0].key
        invariant Output() == old(Output()) && Sorted(dir, b.rest)
        invariant b.fwd == old(b).fwd && b.rev == old(b).rev
        decreases |b.rest|
      {
        OverlaySkip(dir, a.rest, b.rest);
        b := b.Next();
      }
    }

    method SeekToFirst(d: Dir)
      requires a.Ordered() && b.Ordered()
      modifies this
      ensures Valid() && dir == d && Abs() == old(Abs()).SeekToFirst(d)
    {
      hide KeyBefore, Overlay;
      a, b, dir := a.SeekToFirst(d), b.SeekToFirst(d), d;
      SkipBIfEqual();
      current := Choose(d);
    }

    method Seek(d: Dir, target: Key)
      requires a.Ordered() && b.Ordered()
      modifies this
      ensures Valid() && dir == d && Abs() == old(Abs()).Seek(d, target)
    {
      hide KeyBefore, Overlay, DropBefore, Sorted, Versions;
      OverlayDrop(d, a.All(d), b.All(d), target);
      DropVersions(d, a.All(d), target, []);
      DropVersions(d, b.All(d), target, []);
      a, b, dir := a.Seek(d, target), b.Seek(d, target), d;
      SkipBIfEqual();
      current := Choose(d);
    }

    method Current() returns (e: Entry)
      requires Valid() && current.Some?
      ensures Output() != [] && e == Output()[0]
    {
      hide KeyBefore, Overlay;
      TakesChoice();
      e := if current.value == A then a.rest[0] else b.rest[0];
    }

    /** The chosen head is the head of the output. */
    lemma TakesChoice()
      requires Valid()
      ensures current == None ==> Output() == []
      ensures current == Some(A) ==> a.Valid() && Output() == [a.rest[0]] + Overlay(dir, a.rest[1..], b.rest)
      ensures current == Some(B) ==> b.Valid() && Output() == [b.rest[0]] + Overlay(dir, a.rest, b.rest[1..])
    {
      hide KeyBefore;
      Order(dir);
      if current == Some(A) {
        OverlayTakeA(dir, a.rest, b.rest);
      } else if current == Some(B) {
        OverlayTakeB(dir, a.rest, b.rest);
      }
    }

    /** The next entry in the direction of the last seek. */
    method Next(d: Dir)
      requires Valid() && d == dir
      modifies this`a, this`b, this`current
      ensures Valid() && (old(current) == None ==> a == old(a) && b == old(b))
      ensures (old(current).Some? <==> old(Output()) != []) && Abs() == old(Abs()).Next()
    {
      hide KeyBefore, Overlay;
      TakesChoice();
      if current == None { return; }
      if current == Some(A) { a := a.Next(); } else { b := b.Next(); }
      SkipBIfEqual();
      current := Choose(d);
    }
  }
}
