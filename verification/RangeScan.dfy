/** Range scans: the near bound is found by a seek, the far bound is checked on
    every entry. */
module RangeScan {
  import opened Keys
  import opened BlockBuilders
  import opened Streams

  datatype Bound = Included(key: Key) | Excluded(key: Key) | Unbounded

  /** `k` is inside the bound the scan starts from. */
  predicate AfterStart(dir: Dir, start: Bound, k: Key) {
    match start
    case Included(s) => !KeyBefore(dir, k, s)
    case Excluded(s) => KeyBefore(dir, s, k)
    case Unbounded => true
  }

  /** `k` is inside the bound the scan runs towards. */
  predicate BeforeEnd(dir: Dir, end: Bound, k: Key) {
    match end
    case Included(e) => !KeyBefore(dir, e, k)
    case Excluded(e) => KeyBefore(dir, k, e)
    case Unbounded => true
  }

  /** The entries within both bounds. */
  function Within(dir: Dir, s: seq<Entry>, start: Bound, end: Bound): (r: seq<Entry>)
    ensures |r| <= |s|
    decreases |s|
  {
    if s == [] then []
    else
      (if AfterStart(dir, start, s[0].key) && BeforeEnd(dir, end, s[0].key) then [s[0]] else [])
      + Within(dir, s[1..], start, end)
  }

  /** Past the far bound nothing is left. */
  lemma {:induction false} WithinPastEnd(dir: Dir, s: seq<Entry>, start: Bound, end: Bound)
    requires Sorted(dir, s) && s != [] && !BeforeEnd(dir, end, s[0].key)
    ensures Within(dir, s, start, end) == []
    decreases |s|
  {
    hide KeyBefore, AfterStart;
    if |s| > 1 {
      match end {
        case Included(e) => BeforeChain(dir, e, s[0].key, s[1].key);
        case Excluded(e) => NotBeforeChain(dir, e, s[0].key, s[1].key);
        case Unbounded =>
      }
      WithinPastEnd(dir, s[1..], start, end);
    }
  }

  /** A seek to an included bound loses nothing in range. */
  lemma {:induction false} WithinSeek(dir: Dir, s: seq<Entry>, start: Bound, end: Bound)
    requires start != Unbounded
    ensures Within(dir, s, start, end) == Within(dir, DropBefore(dir, s, start.key), start, end)
    decreases |s|
  {
    hide KeyBefore, BeforeEnd;
    if s != [] && KeyBefore(dir, s[0].key, start.key) {
      Order(dir);
      WithinSeek(dir, s[1..], start, end);
      assert !AfterStart(dir, start, s[0].key);
      assert Within(dir, s, start, end) == [] + Within(dir, s[1..], start, end);
    }
  }

  /** From the near bound on, only the far bound matters. */
  lemma {:induction false} WithinStarted(dir: Dir, s: seq<Entry>, start: Bound, end: Bound)
    requires Sorted(dir, s) && (s == [] || AfterStart(dir, start, s[0].key))
    ensures Within(dir, s, start, end) == Within(dir, s, Unbounded, end)
    decreases |s|
  {
    hide KeyBefore, BeforeEnd;
    if |s| > 1 {
      match start {
        case Included(t) => NotBeforeChain(dir, t, s[0].key, s[1].key);
        case Excluded(t) => BeforeChain(dir, t, s[0].key, s[1].key);
        case Unbounded =>
      }
    }
    if s != [] { WithinStarted(dir, s[1..], start, end); }
  }

  /** A key in range keeps all its versions, any other loses them. */
  lemma {:induction false} WithinVersions(dir: Dir, s: seq<Entry>, start: Bound, end: Bound, k: Key)
    ensures Versions(Within(dir, s, start, end), k) ==
            if AfterStart(dir, start, k) && BeforeEnd(dir, end, k) then Versions(s, k) else []
    decreases |s|
  {
    hide AfterStart, BeforeEnd;
    if s != [] {
      WithinVersions(dir, s[1..], start, end, k);
      var head := if AfterStart(dir, start, s[0].key) && BeforeEnd(dir, end, s[0].key) then [s[0]] else [];
      VersionsConcat(head, Within(dir, s[1..], start, end), k);
      assert Versions([], k) == [];
      if head != [] { assert Versions(head, k) == if s[0].key == k then [s[0]] else []; }
    }
  }

  /** After a seek to the near bound, only the far bound matters. */
  lemma SoughtWithin(d: Dir, all: seq<Entry>, start: Bound, end: Bound)
    requires Sorted(d, all) && start != Unbounded
    ensures var r := DropBefore(d, all, start.key);
            && Sorted(d, r) && (r != [] ==> !KeyBefore(d, r[0].key, start.key))
            && Within(d, r, start, end) == Within(d, all, start, end)
            && (start.Included? ==> Within(d, r, Unbounded, end) == Within(d, all, start, end))
  {
    hide KeyBefore, BeforeEnd, Within;
    DropBeforeIs(d, all, start.key);
    DropVersions(d, all, start.key, start.key);
    WithinSeek(d, all, start, end);
    if start.Included? { WithinStarted(d, DropBefore(d, all, start.key), start, end); }
  }

  predicate AllAfterStart(dir: Dir, s: seq<Entry>, start: Bound) {
    forall i | 0 <= i < |s| :: AfterStart(dir, start, s[i].key)
  }

  /** Reading from the front of `s` up to the far bound stays inside the near one
      exactly when the first entry does, or is already past the far bound. */
  lemma InsideIff(dir: Dir, s: seq<Entry>, start: Bound, end: Bound)
    requires Sorted(dir, s)
    ensures AllAfterStart(dir, Within(dir, s, Unbounded, end), start) <==>
            s == [] || AfterStart(dir, start, s[0].key) || !BeforeEnd(dir, end, s[0].key)
  {
    hide KeyBefore, BeforeEnd, AfterStart;
    if s != [] {
      if AfterStart(dir, start, s[0].key) {
        WithinStarted(dir, s, start, end);
        WithinAfterStart(dir, s, start, end);
      } else if !BeforeEnd(dir, end, s[0].key) {
        WithinPastEnd(dir, s, Unbounded, end);
      } else {
        FirstWithin(dir, s, end);
      }
    }
  }

  lemma FirstWithin(dir: Dir, s: seq<Entry>, end: Bound)
    requires s != [] && BeforeEnd(dir, end, s[0].key)
    ensures Within(dir, s, Unbounded, end) != [] && Within(dir, s, Unbounded, end)[0] == s[0]
  {
  }

  lemma {:induction false} WithinAfterStart(dir: Dir, s: seq<Entry>, start: Bound, end: Bound)
    ensures AllAfterStart(dir, Within(dir, s, start, end), start)
    decreases |s|
  {
    hide AfterStart, BeforeEnd;
    if s != [] { WithinAfterStart(dir, s[1..], start, end); }
  }

  /** From a target inside the near bound on, everything is. */
  lemma TargetInside(dir: Dir, s: seq<Entry>, start: Bound, end: Bound, target: Key)
    requires Sorted(dir, s) && AfterStart(dir, start, target)
    ensures AllAfterStart(dir, Within(dir, DropBefore(dir, s, target), Unbounded, end), start)
  {
    hide KeyBefore, BeforeEnd, Within;
    DropBeforeIs(dir, s, target);
    DropVersions(dir, s, target, target);
    var r := DropBefore(dir, s, target);
    if r != [] {
      match start {
        case Included(t) => NotBeforeChain(dir, t, target, r[0].key);
        case Excluded(t) => BeforeChain(dir, t, target, r[0].key);
        case Unbounded =>
      }
    }
    InsideIff(dir, r, start, end);
  }

  class RangeScan {
    const dir: Dir
    const start: Bound
    const end: Bound
    var inner: Stream

    ghost predicate Valid()
      reads this
    {
      inner.Ordered() && Sorted(dir, inner.rest)
    }

    /** What the scan has still to yield. */
    ghost function Output(): (s: seq<Entry>)
      reads this
    {
      Within(dir, inner.rest, Unbounded, end)
    }

    /** A forward scan starts at the lower bound, a reverse scan at the upper. */
    constructor (inner: Stream, lower: Bound, upper: Bound, reverse: bool)
      requires inner.Ordered()
      ensures this.inner == inner && dir == (if reverse then Rev else Fwd)
      ensures start == (if reverse then upper else lower) && end == (if reverse then lower else upper)
    {
      this.inner, dir := inner, if reverse then Rev else Fwd;
      start, end := if reverse then upper else lower, if reverse then lower else upper;
    }

    /** Position the inner iterator, wherever it was. */
    method Init()
      requires inner.Ordered()
      modifies this
      ensures Valid() && inner.fwd == old(inner).fwd && inner.rev == old(inner).rev
      ensures Output() == Within(dir, old(inner).All(dir), start, end)
    {
      hide KeyBefore, BeforeEnd, Sorted, DropBefore;
      ghost var all := inner.All(dir);
      match start {
        case Unbounded =>
          inner := inner.SeekToFirst(dir);
        case Included(s) =>
          inner := inner.Seek(dir, s);
          SoughtWithin(dir, all, start, end);
        case Excluded(s) =>
          inner := inner.Seek(dir, s);
          SoughtWithin(dir, all, start, end);
          SkipEqual(s);
      }
    }

    method SkipEqual(s: Key)
      requires Valid() && start == Excluded(s)
      requires inner.Valid() ==> !KeyBefore(dir, inner.rest[0].key, s)
      modifies this
      ensures Valid() && inner.fwd == old(inner).fwd && inner.rev == old(inner).rev
      ensures Output() == Within(dir, old(inner).rest, start, end)
    {
      hide KeyBefore, BeforeEnd;
      Order(dir);
      while inner.Valid() && inner.rest[0].key == s
        invariant Valid() && inner.fwd == old(inner).fwd && inner.rev == old(inner).rev
        invariant inner.Valid() ==> !KeyBefore(dir, inner.rest[0].key, s)
        invariant Within(dir, inner.rest, start, end) == Within(dir, old(inner).rest, start, end)
        decreases |inner.rest|
      {
        ghost var rest := inner.rest;
        assert Within(dir, rest, start, end) == [] + Within(dir, rest[1..], start, end);
        inner := inner.Next();
      }
      WithinStarted(dir, inner.rest, start, end);
    }

    /** The caller's own seek: to the first entry of all, not of the range. */
    method SeekToFirst()
      requires inner.Ordered()
      modifies this
      ensures Valid() && inner.fwd == old(inner).fwd && inner.rev == old(inner).rev
      ensures Output() == Within(dir, old(inner).All(dir), Unbounded, end)
      ensures var all := inner.All(dir);
              AllAfterStart(dir, Output(), start) <==>
              all == [] || AfterStart(dir, start, all[0].key) || !BeforeEnd(dir, end, all[0].key)
    {
      hide KeyBefore, BeforeEnd, AfterStart, Within, Sorted;
      inner := inner.SeekToFirst(dir);
      InsideIff(dir, inner.rest, start, end);
    }

    /** The same with a target, whichever side of the near bound it is on. */
    method Seek(target: Key)
      requires inner.Ordered()
      modifies this
      ensures Valid() && inner.fwd == old(inner).fwd && inner.rev == old(inner).rev
      ensures Output() == Within(dir, old(inner).All(dir), Included(target), end)
      ensures AfterStart(dir, start, target) ==> AllAfterStart(dir, Output(), start)
      ensures var r := DropBefore(dir, inner.All(dir), target);
              AllAfterStart(dir, Output(), start) <==>
              r == [] || AfterStart(dir, start, r[0].key) || !BeforeEnd(dir, end, r[0].key)
    {
      hide KeyBefore, BeforeEnd, AfterStart, Within, Sorted, DropBefore;
      ghost var all := inner.All(dir);
      SoughtWithin(dir, all, Included(target), end);
      if AfterStart(dir, start, target) { TargetInside(dir, all, start, end, target); }
      inner := inner.Seek(dir, target);
      InsideIff(dir, inner.rest, start, end);
    }

    predicate IsValid()
      reads this
    {
      inner.Valid() && BeforeEnd(dir, end, inner.rest[0].key)
    }

    lemma ValidIffOutput()
      requires Valid()
      ensures IsValid() <==> Output() != []
      ensures IsValid() ==> Output()[0] == inner.rest[0]
    {
      hide KeyBefore;
      if inner.Valid() && !IsValid() { WithinPastEnd(dir, inner.rest, Unbounded, end); }
    }

    method Current() returns (e: Entry)
      requires Valid() && IsValid()
      ensures Output() != [] && e == Output()[0]
    {
      ValidIffOutput();
      e := inner.rest[0];
    }

    method Next()
      requires Valid()
      modifies this
      ensures Valid() && inner.fwd == old(inner).fwd && inner.rev == old(inner).rev
      ensures Output() == if old(IsValid()) then old(Output())[1..] else []
    {
      hide KeyBefore, BeforeEnd;
      ValidIffOutput();
      inner := inner.Next();
    }
  }

  /** A whole range scan: exactly the entries within the bounds, in the order of
      travel, equal keys included. */
  method Scan(inner: Stream, lower: Bound, upper: Bound, reverse: bool) returns (out: seq<Entry>)
    requires inner.Ordered()
    ensures reverse ==> out == Within(Rev, inner.rev, upper, lower)
    ensures !reverse ==> out == Within(Fwd, inner.fwd, lower, upper)
  {
    hide KeyBefore, BeforeEnd, Within;
    var scan := new RangeScan(inner, lower, upper, reverse);
    scan.Init();
    ghost var all := scan.Output();
    out := [];
    scan.ValidIffOutput();
    while scan.IsValid()
      invariant scan.Valid() && |out| <= |all| && out == all[..|out|] && scan.Output() == all[|out|..]
      invariant scan.IsValid() <==> |out| < |all|
      decreases |all| - |out|
    {
      var e := scan.Current();
      out := out + [e];
      scan.Next();
      scan.ValidIffOutput();
    }
  }
}
