/** What an iterator yields, as a sequence in its direction, and the reference
    definitions the merging iterators are held to. */
module Streams {
  import opened Keys
  import opened BlockBuilders

  datatype Dir = Fwd | Rev

  /** `a` comes strictly before `b` in the direction of travel. */
  predicate KeyBefore(dir: Dir, a: Key, b: Key) {
    if dir == Fwd then Less(a, b) else Less(b, a)
  }

  predicate Sorted(dir: Dir, s: seq<Entry>) {
    forall i, j | 0 <= i < j < |s| :: !KeyBefore(dir, s[j].key, s[i].key)
  }

  /** `KeyBefore` is a strict total order on keys, either way. */
  lemma Order(dir: Dir)
    ensures forall a: Key :: !KeyBefore(dir, a, a)
    ensures forall a: Key, b: Key, c: Key {:trigger KeyBefore(dir, a, b), KeyBefore(dir, b, c)} ::
              KeyBefore(dir, a, b) && KeyBefore(dir, b, c) ==> KeyBefore(dir, a, c)
    ensures forall a: Key, b: Key {:trigger KeyBefore(dir, a, b)} ::
              a == b || KeyBefore(dir, a, b) || KeyBefore(dir, b, a)
  {
    hide Less;
    LessIsStrictTotalOrder();
  }

  /** An entry at or past `b` is past whatever `b` is past. */
  lemma BeforeChain(dir: Dir, a: Key, b: Key, c: Key)
    requires KeyBefore(dir, a, b) && !KeyBefore(dir, c, b)
    ensures KeyBefore(dir, a, c)
  {
    hide KeyBefore;
    Order(dir);
    assert c == b || KeyBefore(dir, b, c) || KeyBefore(dir, c, b);
  }

  lemma NotBeforeChain(dir: Dir, a: Key, b: Key, c: Key)
    requires !KeyBefore(dir, b, a) && !KeyBefore(dir, c, b)
    ensures !KeyBefore(dir, c, a)
  {
    hide KeyBefore;
    Order(dir);
    if KeyBefore(dir, c, a) {
      BeforeChain(dir, c, a, b);
    }
  }

  function Reversed<T>(s: seq<T>): (r: seq<T>)
    ensures |r| == |s| && forall i | 0 <= i < |s| :: r[i] == s[|s| - 1 - i]
  {
    seq(|s|, i requires 0 <= i < |s| => s[|s| - 1 - i])
  }

  // ---- seeking ----

  /** What is left after a seek: everything from the first key not before the
      target. */
  function DropBefore(dir: Dir, s: seq<Entry>, target: Key): (r: seq<Entry>)
    ensures |r| <= |s|
    decreases |s|
  {
    if s != [] && KeyBefore(dir, s[0].key, target) then DropBefore(dir, s[1..], target) else s
  }

  /** On sorted input that is exactly the entries not before the target. */
  lemma {:induction false} DropBeforeIs(dir: Dir, s: seq<Entry>, target: Key)
    requires Sorted(dir, s)
    ensures var n := |s| - |DropBefore(dir, s, target)|;
            && DropBefore(dir, s, target) == s[n..]
            && (forall i | 0 <= i < n :: KeyBefore(dir, s[i].key, target))
            && (forall i | n <= i < |s| :: !KeyBefore(dir, s[i].key, target))
    decreases |s|
  {
    hide KeyBefore;
    if s != [] && KeyBefore(dir, s[0].key, target) {
      DropBeforeIs(dir, s[1..], target);
    } else {
      forall i | 0 <= i < |s|
        ensures !KeyBefore(dir, s[i].key, target)
      {
        if i > 0 { NotBeforeChain(dir, target, s[0].key, s[i].key); }
      }
    }
  }

  // ---- the versions of one key ----

  function Versions(s: seq<Entry>, k: Key): (r: seq<Entry>)
    ensures |r| <= |s|
    decreases |s|
  {
    if s == [] then [] else (if s[0].key == k then [s[0]] else []) + Versions(s[1..], k)
  }

  predicate HasKey(s: seq<Entry>, k: Key) {
    exists i | 0 <= i < |s| :: s[i].key == k
  }

  lemma {:induction false} VersionsEmpty(s: seq<Entry>, k: Key)
    ensures Versions(s, k) == [] <==> !HasKey(s, k)
    decreases |s|
  {
    if s != [] {
      VersionsEmpty(s[1..], k);
      if HasKey(s, k) {
        var i :| 0 <= i < |s| && s[i].key == k;
        if i > 0 { assert s[1..][i - 1].key == k; }
      }
      if HasKey(s[1..], k) {
        var i :| 0 <= i < |s| - 1 && s[1..][i].key == k;
        assert s[i + 1].key == k;
      }
      if s[0].key == k { assert HasKey(s, k); }
    }
  }

  lemma {:induction false} VersionsConcat(s: seq<Entry>, t: seq<Entry>, k: Key)
    ensures Versions(s + t, k) == Versions(s, k) + Versions(t, k)
    decreases |s|
  {
    if s == [] {
      assert s + t == t;
    } else {
      VersionsConcat(s[1..], t, k);
      ghost var x, a, b := if s[0].key == k then [s[0]] else [], Versions(s[1..], k), Versions(t, k);
      assert (s + t)[0] == s[0] && (s + t)[1..] == s[1..] + t;
      assert Versions(s + t, k) == x + (a + b) == (x + a) + b;
    }
  }

  /** Past the key nothing of it remains. */
  lemma VersionsPast(dir: Dir, s: seq<Entry>, k: Key)
    requires Sorted(dir, s) && (s == [] || KeyBefore(dir, k, s[0].key))
    ensures Versions(s, k) == []
  {
    hide KeyBefore;
    Order(dir);
    assert forall i | 0 < i < |s| :: !KeyBefore(dir, s[i].key, s[0].key);
    VersionsEmpty(s, k);
  }

  // ---- merging two ----

  /** Stable merge: on equal keys all of `a` comes first. */
  function StableMerge(dir: Dir, a: seq<Entry>, b: seq<Entry>): (r: seq<Entry>)
    ensures |r| == |a| + |b|
    ensures r != [] ==> (a != [] && r[0] == a[0]) || (b != [] && r[0] == b[0])
    decreases |a| + |b|
  {
    if a == [] then b
    else if b == [] then a
    else if KeyBefore(dir, b[0].key, a[0].key) then [b[0]] + StableMerge(dir, a, b[1..])
    else [a[0]] + StableMerge(dir, a[1..], b)
  }

  /** The head of the merge is not after anything in the inputs. */
  lemma {:induction false} MergeSorted(dir: Dir, a: seq<Entry>, b: seq<Entry>)
    requires Sorted(dir, a) && Sorted(dir, b)
    ensures Sorted(dir, StableMerge(dir, a, b))
    decreases |a| + |b|
  {
    hide KeyBefore;
    if a != [] && b != [] {
      var r := StableMerge(dir, a, b);
      if KeyBefore(dir, b[0].key, a[0].key) {
        Order(dir);
        MergeSorted(dir, a, b[1..]);
        ConsSorted(dir, b[0], StableMerge(dir, a, b[1..]));
      } else {
        MergeSorted(dir, a[1..], b);
        ConsSorted(dir, a[0], StableMerge(dir, a[1..], b));
      }
    }
  }

  lemma ConsSorted(dir: Dir, e: Entry, s: seq<Entry>)
    requires Sorted(dir, s) && (s == [] || !KeyBefore(dir, s[0].key, e.key))
    ensures Sorted(dir, [e] + s)
  {
    hide KeyBefore;
    var r := [e] + s;
    forall i, j | 0 <= i < j < |r|
      ensures !KeyBefore(dir, r[j].key, r[i].key)
    {
      if i == 0 && j > 1 { NotBeforeChain(dir, e.key, s[0].key, s[j - 1].key); }
    }
  }

  lemma NoVersions(k: Key)
    ensures Versions([], k) == []
  {
  }

  lemma ConsVersions(e: Entry, s: seq<Entry>, k: Key)
    ensures Versions([e] + s, k) == (if e.key == k then [e] else []) + Versions(s, k)
  {
    assert ([e] + s)[1..] == s;
  }

  lemma TailVersions(s: seq<Entry>, k: Key)
    requires s != []
    ensures Versions(s, k) == (if s[0].key == k then [s[0]] else []) + Versions(s[1..], k)
    ensures Versions(s[1..], k) == if s[0].key == k then Versions(s, k)[1..] else Versions(s, k)
  {
  }

  /** The merge keeps, for every key, the versions of `a` and then those of `b`. */
  lemma {:induction false} MergeVersions(dir: Dir, a: seq<Entry>, b: seq<Entry>, k: Key)
    requires Sorted(dir, a)
    ensures Versions(StableMerge(dir, a, b), k) == Versions(a, k) + Versions(b, k)
    decreases |a| + |b|
  {
    hide KeyBefore, Versions;
    if a == [] || b == [] {
      NoVersions(k);
    } else if KeyBefore(dir, b[0].key, a[0].key) {
      MergeVersions(dir, a, b[1..], k);
      ConsVersions(b[0], StableMerge(dir, a, b[1..]), k);
      TailVersions(b, k);
      if b[0].key == k { VersionsPast(dir, a, k); }
    } else {
      MergeVersions(dir, a[1..], b, k);
      ConsVersions(a[0], StableMerge(dir, a[1..], b), k);
      TailVersions(a, k);
    }
  }

  lemma {:induction false} MergeDrop(dir: Dir, a: seq<Entry>, b: seq<Entry>, target: Key)
    requires Sorted(dir, a) && Sorted(dir, b)
    ensures DropBefore(dir, StableMerge(dir, a, b), target)
            == StableMerge(dir, DropBefore(dir, a, target), DropBefore(dir, b, target))
    decreases |a| + |b|
  {
    hide KeyBefore;
    if a != [] && b != [] {
      if KeyBefore(dir, b[0].key, a[0].key) {
        if KeyBefore(dir, b[0].key, target) {
          MergeDrop(dir, a, b[1..], target);
        } else {
          NotBeforeChain(dir, target, b[0].key, a[0].key) by { Order(dir); }
        }
      } else if KeyBefore(dir, a[0].key, target) {
        MergeDrop(dir, a[1..], b, target);
      } else {
        NotBeforeChain(dir, target, a[0].key, b[0].key);
      }
    }
  }

  lemma {:induction false} MergePermutes(dir: Dir, a: seq<Entry>, b: seq<Entry>)
    ensures multiset(StableMerge(dir, a, b)) == multiset(a) + multiset(b)
    decreases |a| + |b|
  {
    hide KeyBefore;
    if a != [] && b != [] {
      assert a == [a[0]] + a[1..] && b == [b[0]] + b[1..];
      if KeyBefore(dir, b[0].key, a[0].key) {
        MergePermutes(dir, a, b[1..]);
      } else {
        MergePermutes(dir, a[1..], b);
      }
    }
  }

  /** Order and the versions of every key determine a sequence. */
  lemma {:induction false} VersionsDetermine(dir: Dir, s: seq<Entry>, t: seq<Entry>)
    requires Sorted(dir, s) && Sorted(dir, t) && forall k: Key :: Versions(s, k) == Versions(t, k)
    ensures s == t
    decreases |s|
  {
    hide KeyBefore, Versions;
    if s != [] && t != [] {
      SameHead(dir, s, t);
      forall k: Key
        ensures Versions(s[1..], k) == Versions(t[1..], k)
      {
        TailVersions(s, k);
        TailVersions(t, k);
      }
      VersionsDetermine(dir, s[1..], t[1..]);
    } else if s != [] {
      VersionsEmpty(s, s[0].key);
      VersionsEmpty(t, s[0].key);
    } else if t != [] {
      VersionsEmpty(s, t[0].key);
      VersionsEmpty(t, t[0].key);
    }
  }

  lemma SameHead(dir: Dir, s: seq<Entry>, t: seq<Entry>)
    requires Sorted(dir, s) && Sorted(dir, t) && s != [] && t != []
    requires forall k: Key :: Versions(s, k) == Versions(t, k)
    ensures s[0] == t[0]
  {
    hide KeyBefore, Versions;
    Order(dir);
    VersionsEmpty(s, s[0].key);
    VersionsEmpty(t, s[0].key);
    VersionsEmpty(s, t[0].key);
    VersionsEmpty(t, t[0].key);
    assert HasKey(s, s[0].key) && HasKey(t, t[0].key);
    TailVersions(s, s[0].key);
    TailVersions(t, s[0].key);
  }

  // ---- merging many, lower levels first on equal keys ----

  function MergeAll(dir: Dir, ss: seq<seq<Entry>>): (r: seq<Entry>)
    decreases |ss|
  {
    if ss == [] then [] else StableMerge(dir, ss[0], MergeAll(dir, ss[1..]))
  }

  predicate AllSorted(dir: Dir, ss: seq<seq<Entry>>) {
    forall i | 0 <= i < |ss| :: Sorted(dir, ss[i])
  }

  lemma {:induction false} MergeAllSorted(dir: Dir, ss: seq<seq<Entry>>)
    requires AllSorted(dir, ss)
    ensures Sorted(dir, MergeAll(dir, ss))
    decreases |ss|
  {
    hide Sorted;
    if ss == [] {
      assert Sorted(dir, []) by { SortedEmpty(dir); }
    } else {
      MergeAllSorted(dir, ss[1..]);
      MergeSorted(dir, ss[0], MergeAll(dir, ss[1..]));
    }
  }

  lemma SortedEmpty(dir: Dir)
    ensures Sorted(dir, [])
  {
  }

  function AllVersions(ss: seq<seq<Entry>>, k: Key): (r: seq<Entry>)
    decreases |ss|
  {
    if ss == [] then [] else Versions(ss[0], k) + AllVersions(ss[1..], k)
  }

  /** For every key the merge yields its versions in level order. */
  lemma {:induction false} MergeAllVersions(dir: Dir, ss: seq<seq<Entry>>, k: Key)
    requires AllSorted(dir, ss)
    ensures Versions(MergeAll(dir, ss), k) == AllVersions(ss, k)
    decreases |ss|
  {
    hide Sorted;
    if ss != [] {
      MergeAllVersions(dir, ss[1..], k);
      MergeVersions(dir, ss[0], MergeAll(dir, ss[1..]), k);
    }
  }

  function DropAll(dir: Dir, ss: seq<seq<Entry>>, target: Key): (r: seq<seq<Entry>>)
    ensures |r| == |ss| && forall i | 0 <= i < |ss| :: r[i] == DropBefore(dir, ss[i], target)
  {
    seq(|ss|, i requires 0 <= i < |ss| => DropBefore(dir, ss[i], target))
  }

  lemma {:induction false} MergeAllDrop(dir: Dir, ss: seq<seq<Entry>>, target: Key)
    requires AllSorted(dir, ss)
    ensures DropBefore(dir, MergeAll(dir, ss), target) == MergeAll(dir, DropAll(dir, ss, target))
    decreases |ss|
  {
    hide Sorted, KeyBefore;
    if ss != [] {
      MergeAllDrop(dir, ss[1..], target);
      assert DropAll(dir, ss, target)[1..] == DropAll(dir, ss[1..], target);
      MergeAllSorted(dir, ss[1..]);
      MergeDrop(dir, ss[0], MergeAll(dir, ss[1..]), target);
    }
  }

  function Sum(ss: seq<seq<Entry>>): (m: multiset<Entry>)
    decreases |ss|
  {
    if ss == [] then multiset{} else multiset(ss[0]) + Sum(ss[1..])
  }

  /** The merge has every entry of every level, as often as it occurs. */
  lemma {:induction false} MergeAllPermutes(dir: Dir, ss: seq<seq<Entry>>)
    ensures multiset(MergeAll(dir, ss)) == Sum(ss)
    decreases |ss|
  {
    if ss != [] {
      MergeAllPermutes(dir, ss[1..]);
      MergePermutes(dir, ss[0], MergeAll(dir, ss[1..]));
    }
  }

  /** Level `l` has the head the merge takes next. */
  predicate IsBest(dir: Dir, ss: seq<seq<Entry>>, l: nat) {
    && l < |ss| && ss[l] != []
    && (forall j | 0 <= j < l && ss[j] != [] :: KeyBefore(dir, ss[l][0].key, ss[j][0].key))
    && (forall j | l < j < |ss| && ss[j] != [] :: !KeyBefore(dir, ss[j][0].key, ss[l][0].key))
  }

  /** Some level's head is the head of the merge. */
  lemma {:induction false} MergeAllHead(dir: Dir, ss: seq<seq<Entry>>)
    ensures MergeAll(dir, ss) != [] ==> exists j | 0 <= j < |ss| && ss[j] != [] :: ss[j][0] == MergeAll(dir, ss)[0]
    ensures MergeAll(dir, ss) == [] <==> forall j | 0 <= j < |ss| :: ss[j] == []
    decreases |ss|
  {
    hide KeyBefore;
    if ss != [] {
      MergeAllHead(dir, ss[1..]);
      assert forall j | 1 <= j < |ss| :: ss[j] == ss[1..][j - 1];
      assert forall j | 0 <= j < |ss| - 1 :: ss[1..][j] == ss[j + 1];
    }
  }

  /** Taking the best head is taking the head of the merge. */
  lemma {:induction false} MergeAllStep(dir: Dir, ss: seq<seq<Entry>>, l: nat)
    requires IsBest(dir, ss, l)
    ensures MergeAll(dir, ss) == [ss[l][0]] + MergeAll(dir, ss[l := ss[l][1..]])
    decreases |ss|
  {
    hide KeyBefore;
    var rest := MergeAll(dir, ss[1..]);
    var ss' := ss[l := ss[l][1..]];
    if l == 0 {
      MergeAllHead(dir, ss[1..]);
      assert forall j | 0 <= j < |ss| - 1 :: ss[1..][j] == ss[j + 1];
      assert ss'[1..] == ss[1..];
    } else {
      assert forall j | 0 <= j < |ss| - 1 :: ss[1..][j] == ss[j + 1];
      MergeAllStep(dir, ss[1..], l - 1);
      assert ss'[1..] == ss[1..][l - 1 := ss[l][1..]];
    }
  }

  // ---- one source over another ----

  /** The entries of `b` whose keys do not occur in `a`. */
  function Without(b: seq<Entry>, a: seq<Entry>): (r: seq<Entry>)
    ensures |r| <= |b|
    decreases |b|
  {
    if b == [] then [] else (if HasKey(a, b[0].key) then [] else [b[0]]) + Without(b[1..], a)
  }

  /** All of `a`, and of `b` only the keys `a` does not have. */
  function Overlay(dir: Dir, a: seq<Entry>, b: seq<Entry>): (r: seq<Entry>) {
    StableMerge(dir, a, Without(b, a))
  }

  lemma {:induction false} WithoutVersions(b: seq<Entry>, a: seq<Entry>, k: Key)
    ensures Versions(Without(b, a), k) == if HasKey(a, k) then [] else Versions(b, k)
    decreases |b|
  {
    if b != [] {
      WithoutVersions(b[1..], a, k);
      var head := if HasKey(a, b[0].key) then [] else [b[0]];
      VersionsConcat(head, Without(b[1..], a), k);
      assert Versions([], k) == [];
      if head != [] { assert Versions(head, k) == if b[0].key == k then [b[0]] else []; }
    }
  }

  /** Whatever holds `Without` back is not before the head of `b`. */
  lemma {:induction false} WithoutSorted(dir: Dir, b: seq<Entry>, a: seq<Entry>)
    requires Sorted(dir, b)
    ensures Sorted(dir, Without(b, a))
    ensures Without(b, a) != [] ==> !KeyBefore(dir, Without(b, a)[0].key, b[0].key)
    decreases |b|
  {
    hide KeyBefore, HasKey;
    if b != [] {
      Order(dir);
      WithoutSorted(dir, b[1..], a);
      var r := Without(b[1..], a);
      if r != [] { NotBeforeChain(dir, b[0].key, b[1].key, r[0].key); }
      ConsSorted(dir, b[0], r);
    }
  }

  lemma OverlaySorted(dir: Dir, a: seq<Entry>, b: seq<Entry>)
    requires Sorted(dir, a) && Sorted(dir, b)
    ensures Sorted(dir, Overlay(dir, a, b))
  {
    WithoutSorted(dir, b, a);
    MergeSorted(dir, a, Without(b, a));
  }

  /** A key's versions come from `a` if it has any, else from `b`. */
  lemma OverlayVersions(dir: Dir, a: seq<Entry>, b: seq<Entry>, k: Key)
    requires Sorted(dir, a)
    ensures Versions(Overlay(dir, a, b), k) == if HasKey(a, k) then Versions(a, k) else Versions(b, k)
  {
    WithoutVersions(b, a, k);
    MergeVersions(dir, a, Without(b, a), k);
    VersionsEmpty(a, k);
  }

  lemma {:induction false} DropVersions(dir: Dir, s: seq<Entry>, target: Key, k: Key)
    requires Sorted(dir, s)
    ensures Versions(DropBefore(dir, s, target), k) == if KeyBefore(dir, k, target) then [] else Versions(s, k)
    ensures Sorted(dir, DropBefore(dir, s, target))
    decreases |s|
  {
    hide KeyBefore;
    if s != [] && KeyBefore(dir, s[0].key, target) {
      DropVersions(dir, s[1..], target, k);
    } else if KeyBefore(dir, k, target) && s != [] {
      BeforeChain(dir, k, target, s[0].key);
      VersionsPast(dir, s, k);
    }
  }

  lemma DropHasKey(dir: Dir, s: seq<Entry>, target: Key, k: Key)
    requires Sorted(dir, s)
    ensures HasKey(DropBefore(dir, s, target), k) <==> HasKey(s, k) && !KeyBefore(dir, k, target)
  {
    hide KeyBefore, HasKey;
    DropVersions(dir, s, target, k);
    VersionsEmpty(s, k);
    VersionsEmpty(DropBefore(dir, s, target), k);
  }

  /** Seeking both sources seeks the overlay. */
  lemma OverlayDrop(dir: Dir, a: seq<Entry>, b: seq<Entry>, target: Key)
    requires Sorted(dir, a) && Sorted(dir, b)
    ensures DropBefore(dir, Overlay(dir, a, b), target)
            == Overlay(dir, DropBefore(dir, a, target), DropBefore(dir, b, target))
  {
    hide KeyBefore, Versions, HasKey, Sorted, Overlay, DropBefore;
    var o, a', b' := Overlay(dir, a, b), DropBefore(dir, a, target), DropBefore(dir, b, target);
    OverlaySorted(dir, a, b);
    DropVersions(dir, o, target, []);
    DropVersions(dir, a, target, []);
    DropVersions(dir, b, target, []);
    OverlaySorted(dir, a', b');
    forall k: Key
      ensures Versions(DropBefore(dir, o, target), k) == Versions(Overlay(dir, a', b'), k)
    {
      DropVersions(dir, o, target, k);
      OverlayVersions(dir, a, b, k);
      OverlayVersions(dir, a', b', k);
      DropVersions(dir, a, target, k);
      DropVersions(dir, b, target, k);
      DropHasKey(dir, a, target, k);
    }
    VersionsDetermine(dir, DropBefore(dir, o, target), Overlay(dir, a', b'));
  }

  /** Equal heads: the one in `b` is never seen. */
  lemma OverlaySkip(dir: Dir, a: seq<Entry>, b: seq<Entry>)
    requires a != [] && b != [] && a[0].key == b[0].key
    ensures Overlay(dir, a, b) == Overlay(dir, a, b[1..])
  {
    assert HasKey(a, a[0].key);
    assert Without(b, a) == Without(b[1..], a);
  }

  lemma OverlayTakeA(dir: Dir, a: seq<Entry>, b: seq<Entry>)
    requires a != [] && Sorted(dir, b) && (b == [] || KeyBefore(dir, a[0].key, b[0].key))
    ensures Overlay(dir, a, b) == [a[0]] + Overlay(dir, a[1..], b)
  {
    hide KeyBefore, HasKey;
    WithoutSorted(dir, b, a);
    if b != [] {
      WithoutPast(dir, b, a);
      var r := Without(b, a);
      Order(dir);
      if r != [] { BeforeChain(dir, a[0].key, b[0].key, r[0].key); }
    }
  }

  lemma {:induction false} WithoutPast(dir: Dir, b: seq<Entry>, a: seq<Entry>)
    requires a != [] && Sorted(dir, b) && (b == [] || KeyBefore(dir, a[0].key, b[0].key))
    ensures Without(b, a) == Without(b, a[1..])
    decreases |b|
  {
    hide KeyBefore, HasKey;
    if b != [] {
      Order(dir);
      if |b| > 1 { BeforeChain(dir, a[0].key, b[0].key, b[1].key); }
      WithoutPast(dir, b[1..], a);
      TailHasKey(a, b[0].key);
    }
  }

  lemma TailHasKey(a: seq<Entry>, k: Key)
    requires a != []
    ensures HasKey(a, k) <==> a[0].key == k || HasKey(a[1..], k)
  {
    if i :| 0 <= i < |a| && a[i].key == k && i > 0 { assert a[1..][i - 1].key == k; }
    if i :| 0 <= i < |a| - 1 && a[1..][i].key == k { assert a[i + 1].key == k; }
  }

  lemma OverlayTakeB(dir: Dir, a: seq<Entry>, b: seq<Entry>)
    requires b != [] && Sorted(dir, a) && (a == [] || KeyBefore(dir, b[0].key, a[0].key))
    ensures Overlay(dir, a, b) == [b[0]] + Overlay(dir, a, b[1..])
  {
    hide KeyBefore, HasKey;
    VersionsPast(dir, a, b[0].key);
    VersionsEmpty(a, b[0].key);
  }

  // ---- the iterator contract ----

  /** Any iterator over sorted entries that can be sought from any state, by
      what it yields: everything in each direction, and what is still to come.
      Equal keys may be ordered differently in the two directions. */
  datatype Stream = Stream(fwd: seq<Entry>, rev: seq<Entry>, rest: seq<Entry>) {
    function All(dir: Dir): (s: seq<Entry>) {
      if dir == Fwd then fwd else rev
    }

    predicate Ordered() {
      Sorted(Fwd, fwd) && Sorted(Rev, rev)
    }

    predicate Valid() {
      rest != []
    }

    function SeekToFirst(dir: Dir): (st: Stream) {
      this.(rest := All(dir))
    }

    function Seek(dir: Dir, target: Key): (st: Stream) {
      this.(rest := DropBefore(dir, All(dir), target))
    }

    function Next(): (st: Stream) {
      if rest == [] then this else this.(rest := rest[1..])
    }
  }

  /** What each source yields in full. */
  function Alls(iters: seq<Stream>, d: Dir): (ss: seq<seq<Entry>>)
    ensures |ss| == |iters| && forall l | 0 <= l < |iters| :: ss[l] == iters[l].All(d)
  {
    seq(|iters|, l requires 0 <= l < |iters| => iters[l].All(d))
  }

  /** A merge of iterators as one iterator, with `rest` to come. */
  function MergeAbs(sts: seq<Stream>, rest: seq<Entry>): (st: Stream) {
    Stream(MergeAll(Fwd, Alls(sts, Fwd)), MergeAll(Rev, Alls(sts, Rev)), rest)
  }

  lemma MergeOrdered(sts: seq<Stream>)
    requires forall l | 0 <= l < |sts| :: sts[l].Ordered()
    ensures forall rest :: MergeAbs(sts, rest).Ordered()
  {
    hide Sorted;
    MergeAllSorted(Fwd, Alls(sts, Fwd));
    MergeAllSorted(Rev, Alls(sts, Rev));
  }

  /** One iterator over another as one iterator. */
  function OverlayAbs(a: Stream, b: Stream, rest: seq<Entry>): (st: Stream) {
    Stream(Overlay(Fwd, a.fwd, b.fwd), Overlay(Rev, a.rev, b.rev), rest)
  }

  lemma OverlayOrdered(a: Stream, b: Stream)
    requires a.Ordered() && b.Ordered()
    ensures forall rest :: OverlayAbs(a, b, rest).Ordered()
  {
    hide Sorted, Overlay;
    OverlaySorted(Fwd, a.fwd, b.fwd);
    OverlaySorted(Rev, a.rev, b.rev);
  }
}
