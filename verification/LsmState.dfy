/** The state of an LSM shard: the active memtable, the immutable ones, level
    0, and the steps that move entries from one to the next. */
module LsmState {
  import opened Keys
  import opened BlockBuilders
  import opened SstTree
  import opened Wrappers
  import opened Streams

  /** A memtable: an ordered map, and the running size estimate. */
  datatype Mem = Mem(entries: seq<Entry>, size: nat)

  const EMPTY := Mem([], 0)

  /** Immutables are newest first; level 0 is in the order of the flushes.
      `building` is the flush in progress: the table built from the oldest
      immutable but not published yet. `log` is every write so far. */
  datatype Lsm = Lsm(active: Mem, imms: seq<Mem>, l0: seq<seq<Entry>>, building: Option<seq<Entry>>, log: seq<Entry>)

  /** Insert or overwrite, keeping key order. */
  function Insert(es: seq<Entry>, e: Entry): (r: seq<Entry>)
    decreases |es|
  {
    if es == [] then [e]
    else if es[0].key == e.key then [e] + es[1..]
    else if Less(e.key, es[0].key) then [e] + es
    else [es[0]] + Insert(es[1..], e)
  }

  function SizeOf(e: Entry): nat {
    |e.key| + if e.Put? then |e.value| else 0
  }

  function Apply(m: Mem, batch: seq<Entry>): (m': Mem)
    decreases |batch|
  {
    if batch == [] then m
    else
      var n := |batch| - 1;
      var p := Apply(m, batch[..n]);
      Mem(Insert(p.entries, batch[n]), p.size + SizeOf(batch[n]))
  }

  // ---- the steps ----

  datatype Step = Write(batch: seq<Entry>) | Switch | BuildSst | Publish

  predicate Enabled(s: Lsm, step: Step, limit: nat) {
    match step
    case Write(_) => true
    case Switch => s.active.size >= limit
    case BuildSst => s.building == None && s.imms != []
    case Publish => s.building.Some? && s.imms != []
  }

  function Next(s: Lsm, step: Step, limit: nat): (s': Lsm)
    requires Enabled(s, step, limit)
  {
    match step
    case Write(batch) => s.(active := Apply(s.active, batch), log := s.log + batch)
    case Switch => s.(active := EMPTY, imms := [s.active] + s.imms)
    case BuildSst => s.(building := Some(s.imms[|s.imms| - 1].entries))
    case Publish =>
      s.(imms := s.imms[..|s.imms| - 1], l0 := s.l0 + [s.building.value], building := None)
  }

  // ---- lookup, newest first ----

  function Tables(ms: seq<Mem>): (ss: seq<seq<Entry>>)
    ensures |ss| == |ms| && forall i | 0 <= i < |ms| :: ss[i] == ms[i].entries
  {
    seq(|ms|, i requires 0 <= i < |ms| => ms[i].entries)
  }

  /** The memtables, active first. */
  function Mems(s: Lsm): (ss: seq<seq<Entry>>) {
    [s.active.entries] + Tables(s.imms)
  }

  function NewestFirst(s: Lsm): (ss: seq<seq<Entry>>) {
    Mems(s) + Reversed(s.l0)
  }

  function First(es: seq<Entry>): (r: Option<Entry>) {
    if es == [] then None else Some(es[0])
  }

  /** The version the newest table with the key has. */
  function Lookup(s: Lsm, k: Key): (r: Option<Entry>) {
    First(AllVersions(NewestFirst(s), k))
  }

  /** The last write of a key. */
  function Latest(log: seq<Entry>, k: Key): (r: Option<Entry>)
    decreases |log|
  {
    if log == [] then None
    else if log[|log| - 1].key == k then Some(log[|log| - 1])
    else Latest(log[..|log| - 1], k)
  }

  // ---- the invariant ----

  ghost predicate Inv(s: Lsm) {
    && (forall i | 0 <= i < |NewestFirst(s)| :: Ascending(NewestFirst(s)[i]))
    && (s.building.Some? ==> s.imms != [] && s.building.value == s.imms[|s.imms| - 1].entries)
    && (forall k: Key :: Lookup(s, k) == Latest(s.log, k))
  }

  lemma {:induction false} InsertVersions(es: seq<Entry>, e: Entry, k: Key)
    requires Ascending(es)
    ensures Versions(Insert(es, e), k) == if k == e.key then [e] else Versions(es, k)
    decreases |es|
  {
    hide Less;
    LessIsStrictTotalOrder();
    if es != [] {
      if Less(e.key, es[0].key) || es[0].key == e.key {
        Absent(es, e.key);
      } else {
        InsertVersions(es[1..], e, k);
      }
    }
  }

  /** Below the first key, or past it, a key does not occur. */
  lemma Absent(es: seq<Entry>, k: Key)
    requires Ascending(es) && es != []
    ensures es[0].key == k ==> Versions(es[1..], k) == []
    ensures Less(k, es[0].key) ==> Versions(es, k) == []
  {
    hide Less;
    LessIsStrictTotalOrder();
    VersionsEmpty(es, k);
    VersionsEmpty(es[1..], k);
  }

  lemma {:induction false} InsertAscends(es: seq<Entry>, e: Entry)
    requires Ascending(es)
    ensures Ascending(Insert(es, e))
    ensures Insert(es, e) != [] && (Insert(es, e)[0] == e || (es != [] && Insert(es, e)[0] == es[0]))
    decreases |es|
  {
    hide Less;
    LessIsStrictTotalOrder();
    if es != [] && es[0].key != e.key && !Less(e.key, es[0].key) {
      InsertAscends(es[1..], e);
      AscendingCons(es[0], Insert(es[1..], e));
    } else if es != [] && es[0].key != e.key {
      AscendingCons(e, es);
    }
  }

  lemma AscendingCons(e: Entry, es: seq<Entry>)
    requires Ascending(es) && (es == [] || Less(e.key, es[0].key))
    ensures Ascending([e] + es)
  {
    hide Less;
    LessIsStrictTotalOrder();
  }

  lemma {:induction false} ApplyKeeps(m: Mem, batch: seq<Entry>, k: Key)
    requires Ascending(m.entries)
    ensures Ascending(Apply(m, batch).entries)
    ensures First(Versions(Apply(m, batch).entries, k)) ==
            if Latest(batch, k).Some? then Latest(batch, k) else First(Versions(m.entries, k))
    decreases |batch|
  {
    hide Ascending, Versions;
    if batch != [] {
      var n := |batch| - 1;
      var p := Apply(m, batch[..n]);
      ApplyKeeps(m, batch[..n], k);
      InsertAscends(p.entries, batch[n]);
      InsertVersions(p.entries, batch[n], k);
    }
  }

  lemma {:induction false} LatestConcat(log: seq<Entry>, batch: seq<Entry>, k: Key)
    ensures Latest(log + batch, k) == if Latest(batch, k).Some? then Latest(batch, k) else Latest(log, k)
    decreases |batch|
  {
    if batch == [] {
      assert log + batch == log;
    } else {
      assert (log + batch)[..|log + batch| - 1] == log + batch[..|batch| - 1];
      LatestConcat(log, batch[..|batch| - 1], k);
    }
  }

  /** The first table that has the key decides. */
  lemma FirstOf(s: seq<Entry>, ss: seq<seq<Entry>>, k: Key)
    ensures First(AllVersions([s] + ss, k)) ==
            if Versions(s, k) != [] then First(Versions(s, k)) else First(AllVersions(ss, k))
  {
    assert ([s] + ss)[1..] == ss;
  }

  lemma WriteKeeps(s: Lsm, batch: seq<Entry>, limit: nat)
    requires Inv(s)
    ensures Inv(Next(s, Write(batch), limit))
  {
    hide Ascending, AllVersions, Versions, Latest;
    var s' := Next(s, Write(batch), limit);
    var older := Tables(s.imms) + Reversed(s.l0);
    assert NewestFirst(s) == [s.active.entries] + older;
    assert NewestFirst(s') == [s'.active.entries] + older;
    assert Ascending(NewestFirst(s)[0]);
    forall i | 0 <= i < |NewestFirst(s')|
      ensures Ascending(NewestFirst(s')[i])
    {
      if i == 0 {
        ApplyKeeps(s.active, batch, []);
      } else {
        assert NewestFirst(s')[i] == NewestFirst(s)[i];
      }
    }
    forall k: Key
      ensures Lookup(s', k) == Latest(s'.log, k)
    {
      ApplyKeeps(s.active, batch, k);
      LatestConcat(s.log, batch, k);
      FirstOf(s.active.entries, older, k);
      FirstOf(s'.active.entries, older, k);
    }
  }

  lemma SwitchKeeps(s: Lsm, limit: nat)
    requires Inv(s) && Enabled(s, Switch, limit)
    ensures Inv(Next(s, Switch, limit))
  {
    hide Ascending, AllVersions, Latest;
    var s' := Next(s, Switch, limit);
    assert Tables(s'.imms) == [s.active.entries] + Tables(s.imms);
    assert NewestFirst(s') == [[]] + NewestFirst(s);
    assert Ascending([]) by { EmptyAscends(); }
    forall i | 0 <= i < |NewestFirst(s')|
      ensures Ascending(NewestFirst(s')[i])
    {
      if i > 0 { assert NewestFirst(s')[i] == NewestFirst(s)[i - 1]; }
    }
    forall k: Key
      ensures Lookup(s', k) == Latest(s'.log, k)
    {
      FirstOf([], NewestFirst(s), k);
    }
  }

  lemma EmptyAscends()
    ensures Ascending([])
  {
  }

  /** Publishing the table moves it from the end of the immutables to the end of
      level 0, which newest first is the same place. */
  lemma PublishKeeps(s: Lsm, limit: nat)
    requires Inv(s) && Enabled(s, Publish, limit)
    ensures NewestFirst(Next(s, Publish, limit)) == NewestFirst(s)
    ensures Inv(Next(s, Publish, limit))
  {
    hide Ascending, AllVersions, Latest;
    var s', n := Next(s, Publish, limit), |s.imms| - 1;
    var t := s.imms[n].entries;
    assert Tables(s.imms) == Tables(s'.imms) + [t];
    assert Reversed(s'.l0) == [t] + Reversed(s.l0);
    assert NewestFirst(s') == NewestFirst(s);
  }

  lemma StepKeeps(s: Lsm, step: Step, limit: nat)
    requires Inv(s) && Enabled(s, step, limit)
    ensures Inv(Next(s, step, limit))
  {
    match step
    case Write(batch) => WriteKeeps(s, batch, limit);
    case Switch => SwitchKeeps(s, limit);
    case BuildSst =>
      assert NewestFirst(Next(s, step, limit)) == NewestFirst(s);
      assert forall k: Key :: Lookup(Next(s, step, limit), k) == Lookup(s, k);
    case Publish => PublishKeeps(s, limit);
  }

  // ---- runs ----

  const FRESH := Lsm(EMPTY, [], [], None, [])

  lemma FreshHolds()
    ensures Inv(FRESH)
  {
    assert NewestFirst(FRESH) == [[]];
    forall k: Key
      ensures Lookup(FRESH, k) == None
    {
      assert AllVersions([[]], k) == [];
    }
  }

  predicate Run(s: Lsm, steps: seq<Step>, limit: nat)
    decreases |steps|
  {
    steps == [] || (Enabled(s, steps[0], limit) && Run(Next(s, steps[0], limit), steps[1..], limit))
  }

  function After(s: Lsm, steps: seq<Step>, limit: nat): (t: Lsm)
    requires Run(s, steps, limit)
    decreases |steps|
  {
    if steps == [] then s else After(Next(s, steps[0], limit), steps[1..], limit)
  }

  lemma {:induction false} RunKeeps(s: Lsm, steps: seq<Step>, limit: nat)
    requires Inv(s) && Run(s, steps, limit)
    ensures Inv(After(s, steps, limit))
    decreases |steps|
  {
    hide Inv, Next, Enabled;
    if steps != [] {
      StepKeeps(s, steps[0], limit);
      RunKeeps(Next(s, steps[0], limit), steps[1..], limit);
    }
  }

  function Writes(steps: seq<Step>): (log: seq<Entry>)
    decreases |steps|
  {
    if steps == [] then [] else (if steps[0].Write? then steps[0].batch else []) + Writes(steps[1..])
  }

  lemma {:induction false} LogIsWrites(s: Lsm, steps: seq<Step>, limit: nat)
    requires Run(s, steps, limit)
    ensures After(s, steps, limit).log == s.log + Writes(steps)
    decreases |steps|
  {
    if steps != [] {
      LogIsWrites(Next(s, steps[0], limit), steps[1..], limit);
      var head := if steps[0].Write? then steps[0].batch else [];
      assert s.log + head + Writes(steps[1..]) == s.log + (head + Writes(steps[1..]));
    }
  }

  /** At every state of every run of batch writes, memtable switches and
      flushes in two phases, a newest-first lookup is the last write of the key
      in replay order. */
  lemma LookupIsReplay(steps: seq<Step>, limit: nat, k: Key)
    requires Run(FRESH, steps, limit)
    ensures Lookup(After(FRESH, steps, limit), k) == Latest(Writes(steps), k)
  {
    hide Lookup, Latest, Run, After;
    FreshHolds();
    RunKeeps(FRESH, steps, limit);
    LogIsWrites(FRESH, steps, limit);
    assert FRESH.log + Writes(steps) == Writes(steps);
  }

  // ---- a write that overtakes a switch ----

  /** `write` takes its memtable before it puts; if a switch comes in between,
      the put lands in an immutable one. */
  function LatePut(s: Lsm, i: nat, e: Entry): (s': Lsm)
    requires i < |s.imms|
  {
    var m := s.imms[i];
    s.(imms := s.imms[i := Mem(Insert(m.entries, e), m.size + SizeOf(e))], log := s.log + [e])
  }

  lemma {:induction false} AllVersionsConcat(ss: seq<seq<Entry>>, ts: seq<seq<Entry>>, k: Key)
    ensures AllVersions(ss + ts, k) == AllVersions(ss, k) + AllVersions(ts, k)
    decreases |ss|
  {
    hide Versions;
    if ss == [] {
      assert ss + ts == ts;
    } else {
      assert (ss + ts)[1..] == ss[1..] + ts;
      AllVersionsConcat(ss[1..], ts, k);
    }
  }

  /** It is seen exactly when no newer memtable has another version of the key. */
  lemma LatePutSeen(s: Lsm, i: nat, e: Entry)
    requires Inv(s) && i < |s.imms|
    ensures var newer := AllVersions(NewestFirst(s)[..i + 1], e.key);
            Lookup(LatePut(s, i, e), e.key) == Some(e) <==> newer == [] || newer[0] == e
  {
    hide Ascending, AllVersions, Versions, Latest;
    var s', ss := LatePut(s, i, e), NewestFirst(s);
    var t, newer, older := Insert(s.imms[i].entries, e), ss[..i + 1], ss[i + 2..];
    assert ss[i + 1] == s.imms[i].entries;
    assert NewestFirst(s') == newer + ([t] + older);
    AllVersionsConcat(newer, [t] + older, e.key);
    FirstOf(t, older, e.key);
    InsertVersions(s.imms[i].entries, e, e.key);
  }

  /** A put into the table being flushed is lost when the flush is published:
      every lookup is as if it had not happened. It was harmless exactly when it
      repeated the last write of its key. */
  lemma LatePutLost(s: Lsm, e: Entry, limit: nat)
    requires Inv(s) && s.building.Some?
    ensures var t := Next(LatePut(s, |s.imms| - 1, e), Publish, limit);
            && (forall k: Key :: Lookup(t, k) == Latest(s.log, k))
            && (Lookup(t, e.key) == Latest(t.log, e.key) <==> Latest(s.log, e.key) == Some(e))
  {
    hide Ascending, AllVersions, Versions, Insert;
    var u, n := LatePut(s, |s.imms| - 1, e), |s.imms| - 1;
    var t := Next(u, Publish, limit);
    PublishKeeps(s, limit);
    assert t.imms == s.imms[..n] && t.l0 == Next(s, Publish, limit).l0;
    assert NewestFirst(t) == NewestFirst(Next(s, Publish, limit));
    assert (s.log + [e])[..|s.log|] == s.log;
  }
}
