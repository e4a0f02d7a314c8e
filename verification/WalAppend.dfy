/** Many appenders on one buffer generation, interleaving the atomic steps of
    `append`: claim bytes, claim a slot, raise `in_flight`, copy the frame in
    pieces, publish the slot, lower `in_flight`. */
module WalAppend {
  import opened Keys
  import opened Codec
  import opened WalFrame

  datatype Slot = Slot(pos: nat, len: nat)

  datatype Buffer = Buffer(capacity: nat, minLsn: nat, writePos: nat, taken: nat,
                           entries: seq<Slot>, data: Bytes, inFlight: nat)

  /** Where one call of `append` stands. */
  datatype Appender =
    | Overflowed(payload: Bytes)
    | Claimed(payload: Bytes, pos: nat)
    | Slotted(payload: Bytes, pos: nat, idx: nat)
    | Writing(payload: Bytes, pos: nat, idx: nat, copied: nat)
    | Stored(payload: Bytes, pos: nat, idx: nat)
    | Done(payload: Bytes, pos: nat, idx: nat)

  /** The buffer, the calls so far, and what the run has handed out: `owners`
      lists who took each slot, `grants` and `granted` count the byte ranges
      and their total length. */
  datatype State = State(buf: Buffer, calls: map<nat, Appender>, owners: seq<nat>, grants: nat, granted: nat)

  datatype Step =
    | Claim(id: nat, payload: Bytes)
    | TakeSlot(id: nat)
    | Raise(id: nat)
    | Copy(id: nat, upTo: nat)
    | Store(id: nat)
    | Lower(id: nat)

  function FrameLen(payload: Bytes): nat {
    HEADER_LEN + |payload|
  }

  predicate HasSlot(a: Appender) {
    a.Slotted? || a.Writing? || a.Stored? || a.Done?
  }

  function End(a: Appender): nat
    requires !a.Overflowed?
  {
    a.pos + FrameLen(a.payload)
  }

  /** The LSN of a slot; all LSNs of the generation are u64. */
  function LsnOf(b: Buffer, idx: nat): (lsn: u64)
    requires b.minLsn + b.capacity < U64 && idx <= b.capacity
  {
    b.minLsn + idx
  }

  function FrameOf(crc: Crc, b: Buffer, a: Appender): (f: Bytes)
    requires b.minLsn + b.capacity < U64 && HasSlot(a) && a.idx <= b.capacity
    ensures |f| == FrameLen(a.payload)
  {
    Encode(crc, LsnOf(b, a.idx), a.payload)
  }

  function Overwrite(data: Bytes, at: nat, bytes: Bytes): (d: Bytes)
    requires at + |bytes| <= |data|
    ensures |d| == |data|
  {
    data[..at] + bytes + data[at + |bytes|..]
  }

  // ---- the machine ----

  predicate Enabled(s: State, step: Step) {
    match step
    case Claim(id, payload) => id !in s.calls && |payload| < U32
    case TakeSlot(id) => id in s.calls && s.calls[id].Claimed?
    case Raise(id) => id in s.calls && s.calls[id].Slotted?
    case Copy(id, upTo) =>
      && id in s.calls && s.calls[id].Writing?
      && s.calls[id].copied <= upTo <= FrameLen(s.calls[id].payload)
      && s.calls[id].idx <= s.buf.capacity && s.buf.minLsn + s.buf.capacity < U64 && End(s.calls[id]) <= |s.buf.data|
    case Store(id) =>
      && id in s.calls && s.calls[id].Writing? && s.calls[id].copied == FrameLen(s.calls[id].payload)
      && s.calls[id].idx < |s.buf.entries|
    case Lower(id) => id in s.calls && s.calls[id].Stored? && s.buf.inFlight > 0
  }

  function Next(s: State, step: Step, crc: Crc): (s': State)
    requires Enabled(s, step)
  {
    match step
    case Claim(id, payload) =>
      var pos, len := s.buf.writePos, FrameLen(payload);
      var buf := s.buf.(writePos := pos + len);
      if pos + len > s.buf.capacity then s.(buf := buf, calls := s.calls[id := Overflowed(payload)])
      else State(buf, s.calls[id := Claimed(payload, pos)], s.owners, s.grants + 1, s.granted + len)
    case TakeSlot(id) =>
      var Claimed(payload, pos) := s.calls[id];
      s.(buf := s.buf.(taken := s.buf.taken + 1),
         calls := s.calls[id := Slotted(payload, pos, s.buf.taken)], owners := s.owners + [id])
    case Raise(id) =>
      var Slotted(payload, pos, idx) := s.calls[id];
      s.(buf := s.buf.(inFlight := s.buf.inFlight + 1), calls := s.calls[id := Writing(payload, pos, idx, 0)])
    case Copy(id, upTo) =>
      var a := s.calls[id];
      s.(buf := s.buf.(data := Overwrite(s.buf.data, a.pos, FrameOf(crc, s.buf, a)[..upTo])),
         calls := s.calls[id := a.(copied := upTo)])
    case Store(id) =>
      var Writing(payload, pos, idx, _) := s.calls[id];
      s.(buf := s.buf.(entries := s.buf.entries[idx := Slot(pos, FrameLen(payload))]),
         calls := s.calls[id := Stored(payload, pos, idx)])
    case Lower(id) =>
      var Stored(payload, pos, idx) := s.calls[id];
      s.(buf := s.buf.(inFlight := s.buf.inFlight - 1), calls := s.calls[id := Done(payload, pos, idx)])
  }

  // ---- the invariant ----

  predicate Granted(s: State, id: nat) {
    id in s.calls && !s.calls[id].Overflowed?
  }

  function Waiting(calls: map<nat, Appender>): (ids: set<nat>) {
    set id | id in calls && calls[id].Claimed?
  }

  function Active(calls: map<nat, Appender>): (ids: set<nat>) {
    set id | id in calls && (calls[id].Writing? || calls[id].Stored?)
  }

  /** Ranges lie in the buffer and below the write position. */
  ghost predicate InBounds(s: State) {
    forall id | Granted(s, id) :: End(s.calls[id]) <= s.buf.capacity && End(s.calls[id]) <= s.buf.writePos
  }

  ghost predicate Disjoint(s: State) {
    forall i, j | Granted(s, i) && Granted(s, j) && i != j ::
      End(s.calls[i]) <= s.calls[j].pos || End(s.calls[j]) <= s.calls[i].pos
  }

  /** Bytes handed out, at least a header per range, never beyond the buffer;
      slots taken and ranges still waiting for one add up to the ranges. */
  ghost predicate Accounted(s: State) {
    && HEADER_LEN * s.grants <= s.granted <= s.buf.capacity
    && (s.buf.writePos <= s.buf.capacity ==> s.granted == s.buf.writePos)
    && |Waiting(s.calls)| + s.buf.taken == s.grants
    && s.buf.inFlight == |Active(s.calls)|
  }

  /** Slot `k` belongs to `owners[k]`, and to nobody else. */
  ghost predicate Owned(s: State) {
    && |s.owners| == s.buf.taken
    && (forall k | 0 <= k < |s.owners| ::
          s.owners[k] in s.calls && HasSlot(s.calls[s.owners[k]]) && s.calls[s.owners[k]].idx == k)
    && (forall id | id in s.calls && HasSlot(s.calls[id]) ::
          s.calls[id].idx < |s.owners| && s.owners[s.calls[id].idx] == id)
  }

  /** What a call has written so far is in the buffer, and what it has
      published names its range. */
  ghost predicate Written(s: State, crc: Crc, id: nat)
    requires Sized(s) && id in s.calls && HasSlot(s.calls[id])
    requires s.calls[id].idx < s.buf.capacity && End(s.calls[id]) <= s.buf.capacity
  {
    var a := s.calls[id];
    && |a.payload| < U32
    && (a.Writing? ==>
          && a.copied <= FrameLen(a.payload)
          && s.buf.data[a.pos..a.pos + a.copied] == FrameOf(crc, s.buf, a)[..a.copied])
    && (a.Stored? || a.Done? ==>
          && s.buf.data[a.pos..End(a)] == FrameOf(crc, s.buf, a)
          && a.idx < |s.buf.entries| && s.buf.entries[a.idx] == Slot(a.pos, FrameLen(a.payload)))
  }

  predicate Sized(s: State) {
    |s.buf.data| == s.buf.capacity && |s.buf.entries| == s.buf.capacity / HEADER_LEN && s.buf.minLsn + s.buf.capacity < U64
  }

  ghost predicate WrittenIfSlotted(s: State, crc: Crc, id: nat)
    requires Sized(s) && id in s.calls
  {
    var a := s.calls[id];
    && (!a.Overflowed? ==> |a.payload| < U32)
    && (HasSlot(a) ==> a.idx < s.buf.capacity && End(a) <= s.buf.capacity && Written(s, crc, id))
  }

  ghost predicate Inv(s: State, crc: Crc) {
    && Sized(s) && InBounds(s) && Disjoint(s) && Accounted(s) && Owned(s)
    && (forall id | id in s.calls :: WrittenIfSlotted(s, crc, id))
  }

  /** A fresh or reset buffer, its old contents still in it. */
  function Initial(capacity: nat, minLsn: nat, entries: seq<Slot>, data: Bytes): (s: State) {
    State(Buffer(capacity, minLsn, 0, 0, entries, data, 0), map[], [], 0, 0)
  }

  lemma InitialHolds(capacity: nat, minLsn: nat, entries: seq<Slot>, data: Bytes, crc: Crc)
    requires |data| == capacity && |entries| == capacity / HEADER_LEN && minLsn + capacity < U64
    ensures Inv(Initial(capacity, minLsn, entries, data), crc)
  {
  }

  /** The `claim_slot` assertion never fires: whoever holds a byte range finds
      a slot left. */
  lemma SlotAvailable(s: State, crc: Crc, id: nat)
    requires Inv(s, crc) && id in s.calls && s.calls[id].Claimed?
    ensures s.buf.taken < s.buf.capacity / HEADER_LEN
  {
    assert id in Waiting(s.calls);
  }

  // ---- parts that a step leaves alone ----

  predicate SameRange(a: Appender, b: Appender) {
    if a.Overflowed? then b.Overflowed? else !b.Overflowed? && b.pos == a.pos && b.payload == a.payload
  }

  predicate SameSlot(a: Appender, b: Appender) {
    if HasSlot(a) then HasSlot(b) && b.idx == a.idx else !HasSlot(b)
  }

  lemma RangesKept(s: State, s': State)
    requires InBounds(s) && Disjoint(s) && s'.calls.Keys == s.calls.Keys
    requires s'.buf.capacity == s.buf.capacity && s'.buf.writePos == s.buf.writePos
    requires forall id | id in s.calls :: SameRange(s.calls[id], s'.calls[id])
    ensures InBounds(s') && Disjoint(s')
  {
    assert forall id :: Granted(s', id) <==> Granted(s, id);
  }

  lemma OwnersKept(s: State, s': State)
    requires Owned(s) && s'.calls.Keys == s.calls.Keys && s'.owners == s.owners && s'.buf.taken == s.buf.taken
    requires forall id | id in s.calls :: SameSlot(s.calls[id], s'.calls[id])
    ensures Owned(s')
  {
  }

  /** A call whose bytes and slot were not touched. */
  lemma WrittenKept(s: State, s': State, crc: Crc, id: nat)
    requires Sized(s) && Sized(s') && id in s.calls && id in s'.calls && s'.calls[id] == s.calls[id]
    requires WrittenIfSlotted(s, crc, id)
    requires s'.buf.capacity == s.buf.capacity && s'.buf.minLsn == s.buf.minLsn
    requires var a := s.calls[id];
             HasSlot(a) ==>
               && (a.idx < |s.buf.entries| ==> s'.buf.entries[a.idx] == s.buf.entries[a.idx])
               && s'.buf.data[a.pos..End(a)] == s.buf.data[a.pos..End(a)]
    ensures WrittenIfSlotted(s', crc, id)
  {
    hide Encode;
    var a := s.calls[id];
    if a.Writing? { SameStart(s.buf.data, s'.buf.data, a.pos, a.copied, FrameLen(a.payload)); }
  }

  /** Slices that agree, agree on their first `n` bytes. */
  lemma SameStart(x: Bytes, y: Bytes, at: nat, n: nat, len: nat)
    requires n <= len && at + len <= |x| && at + len <= |y| && x[at..at + len] == y[at..at + len]
    ensures x[at..at + n] == y[at..at + n]
  {
    assert x[at..at + n] == x[at..at + len][..n] && y[at..at + n] == y[at..at + len][..n];
  }

  // ---- every step keeps it ----

  /** How one call's move changes who is waiting and who is writing. */
  lemma CountsAfter(calls: map<nat, Appender>, id: nat, a: Appender)
    requires id in calls ==> calls[id] != a
    ensures Waiting(calls[id := a]) == if a.Claimed? then Waiting(calls) + {id} else Waiting(calls) - {id}
    ensures Active(calls[id := a]) == if a.Writing? || a.Stored? then Active(calls) + {id} else Active(calls) - {id}
    ensures id in Waiting(calls) <==> id in calls && calls[id].Claimed?
    ensures id in Active(calls) <==> id in calls && (calls[id].Writing? || calls[id].Stored?)
  {
  }

  lemma ClaimCounts(s: State, crc: Crc, id: nat, payload: Bytes)
    requires Accounted(s) && Enabled(s, Claim(id, payload))
    ensures Accounted(Next(s, Claim(id, payload), crc))
  {
    hide Waiting, Active;
    CountsAfter(s.calls, id, Next(s, Claim(id, payload), crc).calls[id]);
  }

  /** A claim leaves all other calls alone. */
  lemma ClaimOthers(s: State, crc: Crc, id: nat, payload: Bytes)
    requires Enabled(s, Claim(id, payload))
    ensures var s' := Next(s, Claim(id, payload), crc);
            && s'.calls.Keys == s.calls.Keys + {id} && id !in s.calls && !HasSlot(s'.calls[id])
            && (forall x | x in s.calls :: s'.calls[x] == s.calls[x])
            && s'.buf == s.buf.(writePos := s.buf.writePos + FrameLen(payload)) && s'.owners == s.owners
            && (Granted(s', id) ==> s'.calls[id].pos == s.buf.writePos && End(s'.calls[id]) == s'.buf.writePos <= s.buf.capacity)
  {
  }

  lemma ClaimRanges(s: State, crc: Crc, id: nat, payload: Bytes)
    requires InBounds(s) && Disjoint(s) && Owned(s) && Enabled(s, Claim(id, payload))
    ensures var s' := Next(s, Claim(id, payload), crc); InBounds(s') && Disjoint(s') && Owned(s')
  {
    hide Next, Enabled;
    ClaimOthers(s, crc, id, payload);
    var s' := Next(s, Claim(id, payload), crc);
    assert InBounds(s');
    ClaimDisjoint(s, s', id);
    assert Owned(s');
  }

  /** A range at the write position is apart from all below it. */
  lemma ClaimDisjoint(s: State, s': State, id: nat)
    requires InBounds(s) && Disjoint(s) && id !in s.calls && s'.calls.Keys == s.calls.Keys + {id}
    requires forall x | x in s.calls :: s'.calls[x] == s.calls[x]
    requires Granted(s', id) ==> s'.calls[id].pos == s.buf.writePos
    ensures Disjoint(s')
  {
    forall i, j | Granted(s', i) && Granted(s', j) && i != j
      ensures End(s'.calls[i]) <= s'.calls[j].pos || End(s'.calls[j]) <= s'.calls[i].pos
    {
      assert i != id ==> Granted(s, i);
      assert j != id ==> Granted(s, j);
    }
  }

  lemma ClaimKeeps(s: State, crc: Crc, id: nat, payload: Bytes)
    requires Inv(s, crc) && Enabled(s, Claim(id, payload))
    ensures Inv(Next(s, Claim(id, payload), crc), crc)
  {
    hide InBounds, Disjoint, Owned, Accounted, WrittenIfSlotted;
    ClaimCounts(s, crc, id, payload);
    ClaimRanges(s, crc, id, payload);
    var s' := Next(s, Claim(id, payload), crc);
    forall x | x in s'.calls
      ensures WrittenIfSlotted(s', crc, x)
    {
      if x != id {
        WrittenKept(s, s', crc, x);
      } else {
        NewCallWritten(s', crc, id);
      }
    }
  }

  lemma NewCallWritten(s: State, crc: Crc, id: nat)
    requires Sized(s) && id in s.calls && !HasSlot(s.calls[id]) && |s.calls[id].payload| < U32
    ensures WrittenIfSlotted(s, crc, id)
  {
  }

  lemma TakeSlotKeeps(s: State, crc: Crc, id: nat)
    requires Inv(s, crc) && Enabled(s, TakeSlot(id))
    ensures Inv(Next(s, TakeSlot(id), crc), crc)
  {
    hide InBounds, Disjoint, Owned, Accounted, WrittenIfSlotted;
    var s' := Next(s, TakeSlot(id), crc);
    SlotAvailable(s, crc, id);
    TakeSlotCounts(s, crc, id);
    RangesKept(s, s');
    forall x | x in s'.calls
      ensures WrittenIfSlotted(s', crc, x)
    {
      if x != id {
        WrittenKept(s, s', crc, x);
      } else {
        assert WrittenIfSlotted(s, crc, id);
        RangeInBounds(s, id);
        SlottedWritten(s, s', crc, id);
      }
    }
  }

  /** With a slot and nothing written yet. */
  lemma SlottedWritten(s: State, s': State, crc: Crc, id: nat)
    requires Sized(s) && Sized(s') && id in s.calls && s.calls[id].Claimed? && WrittenIfSlotted(s, crc, id)
    requires End(s.calls[id]) <= s.buf.capacity == s'.buf.capacity && s.buf.taken < s.buf.capacity / HEADER_LEN
    requires id in s'.calls && s'.calls[id] == Slotted(s.calls[id].payload, s.calls[id].pos, s.buf.taken)
    ensures WrittenIfSlotted(s', crc, id)
  {
  }

  lemma RangeInBounds(s: State, id: nat)
    requires InBounds(s) && Granted(s, id)
    ensures End(s.calls[id]) <= s.buf.capacity
  {
  }

  lemma TakeSlotCounts(s: State, crc: Crc, id: nat)
    requires Accounted(s) && Owned(s) && Enabled(s, TakeSlot(id))
    ensures var s' := Next(s, TakeSlot(id), crc); Accounted(s') && Owned(s')
  {
    hide Waiting, Active;
    CountsAfter(s.calls, id, Next(s, TakeSlot(id), crc).calls[id]);
  }

  /** After its slot is taken, a call keeps its range, slot and counts. */
  predicate Progress(s: State, s': State, id: nat) {
    && id in s.calls && id in s'.calls
    && s' == s.(buf := s'.buf, calls := s.calls[id := s'.calls[id]])
    && s'.buf == s.buf.(entries := s'.buf.entries, data := s'.buf.data, inFlight := s'.buf.inFlight)
    && HasSlot(s.calls[id]) && HasSlot(s'.calls[id])
    && s'.calls[id].pos == s.calls[id].pos && s'.calls[id].payload == s.calls[id].payload
    && s'.calls[id].idx == s.calls[id].idx
  }

  /** Such a call disturbs nobody: other calls' bytes and slots stay as they
      were, because ranges are disjoint and slots distinct. */
  lemma ProgressKeeps(s: State, s': State, crc: Crc, id: nat)
    requires Inv(s, crc) && Progress(s, s', id) && Sized(s') && s'.calls[id] != s.calls[id]
    requires s'.buf.inFlight == |Active(s'.calls)|
    requires var a := s.calls[id];
             && (forall k | 0 <= k < |s.buf.entries| && k != a.idx :: s'.buf.entries[k] == s.buf.entries[k])
             && (forall k | 0 <= k < |s.buf.data| && !(a.pos <= k < End(a)) :: s'.buf.data[k] == s.buf.data[k])
    requires WrittenIfSlotted(s', crc, id)
    ensures Inv(s', crc)
  {
    hide InBounds, Disjoint, Owned, WrittenIfSlotted, Accounted;
    RangesKept(s, s');
    OwnersKept(s, s');
    ProgressCounts(s, s', id);
    forall x | x in s'.calls
      ensures WrittenIfSlotted(s', crc, x)
    {
      if x != id {
        OtherWritten(s, s', crc, id, x);
      }
    }
  }

  lemma ProgressCounts(s: State, s': State, id: nat)
    requires Accounted(s) && Progress(s, s', id) && s'.calls[id] != s.calls[id]
    requires s'.buf.inFlight == |Active(s'.calls)|
    ensures Accounted(s')
  {
    hide Waiting, Active;
    CountsAfter(s.calls, id, s'.calls[id]);
  }

  lemma OtherWritten(s: State, s': State, crc: Crc, id: nat, x: nat)
    requires Inv(s, crc) && Progress(s, s', id) && Sized(s') && x in s.calls && x != id
    requires var a := s.calls[id];
             && (forall k | 0 <= k < |s.buf.entries| && k != a.idx :: s'.buf.entries[k] == s.buf.entries[k])
             && (forall k | 0 <= k < |s.buf.data| && !(a.pos <= k < End(a)) :: s'.buf.data[k] == s.buf.data[k])
    ensures x in s'.calls && WrittenIfSlotted(s', crc, x)
  {
    hide InBounds, Disjoint, Owned, Accounted, WrittenIfSlotted;
    OthersApart(s, id, x);
    if HasSlot(s.calls[x]) {
      RangeInBounds(s, x);
      var b := s.calls[x];
      assert s'.buf.data[b.pos..End(b)] == s.buf.data[b.pos..End(b)];
    }
    WrittenKept(s, s', crc, x);
  }

  lemma OthersApart(s: State, id: nat, x: nat)
    requires Disjoint(s) && Owned(s) && Granted(s, id) && HasSlot(s.calls[id]) && x in s.calls && x != id
    ensures HasSlot(s.calls[x]) ==>
              && s.calls[x].idx != s.calls[id].idx
              && (End(s.calls[x]) <= s.calls[id].pos || End(s.calls[id]) <= s.calls[x].pos)
  {
    if HasSlot(s.calls[x]) {
      assert Granted(s, x);
    }
  }

  /** A call in flight stays in flight. */
  lemma SameActive(calls: map<nat, Appender>, id: nat, a: Appender)
    requires id in calls && (calls[id].Writing? || calls[id].Stored?) && (a.Writing? || a.Stored?)
    ensures Active(calls[id := a]) == Active(calls)
  {
  }

  lemma RaiseKeeps(s: State, crc: Crc, id: nat)
    requires Inv(s, crc) && Enabled(s, Raise(id))
    ensures Inv(Next(s, Raise(id), crc), crc)
  {
    hide InBounds, Disjoint, Owned, Encode, Active, Waiting;
    var s' := Next(s, Raise(id), crc);
    assert WrittenIfSlotted(s, crc, id);
    CountsAfter(s.calls, id, s'.calls[id]);
    ProgressKeeps(s, s', crc, id);
  }

  lemma OverwriteIs(data: Bytes, at: nat, bytes: Bytes)
    requires at + |bytes| <= |data|
    ensures var d := Overwrite(data, at, bytes);
            && |d| == |data| && d[at..at + |bytes|] == bytes
            && (forall k | 0 <= k < |data| && !(at <= k < at + |bytes|) :: d[k] == data[k])
  {
  }

  /** The copied prefix is in the buffer, and only the call's range changed. */
  lemma CopyWrites(s: State, crc: Crc, id: nat, upTo: nat)
    requires Inv(s, crc) && Enabled(s, Copy(id, upTo))
    ensures var s' := Next(s, Copy(id, upTo), crc);
            && Sized(s') && id in s'.calls && WrittenIfSlotted(s', crc, id)
            && (forall k | 0 <= k < |s.buf.data| && !(s.calls[id].pos <= k < End(s.calls[id])) ::
                  s'.buf.data[k] == s.buf.data[k])
  {
    hide InBounds, Disjoint, Owned, Accounted, Encode, Overwrite;
    var a := s.calls[id];
    assert WrittenIfSlotted(s, crc, id);
    OverwriteIs(s.buf.data, a.pos, FrameOf(crc, s.buf, a)[..upTo]);
  }

  lemma CopyKeeps(s: State, crc: Crc, id: nat, upTo: nat)
    requires Inv(s, crc) && Enabled(s, Copy(id, upTo))
    ensures Inv(Next(s, Copy(id, upTo), crc), crc)
  {
    hide InBounds, Disjoint, Owned, Encode, Active, Waiting, WrittenIfSlotted;
    var s' := Next(s, Copy(id, upTo), crc);
    var a := s.calls[id];
    CopyWrites(s, crc, id, upTo);
    if upTo == a.copied {
      SameCopy(s, crc, id);
    } else {
      SameActive(s.calls, id, s'.calls[id]);
      ProgressKeeps(s, s', crc, id);
    }
  }

  /** Copying no further changes nothing. */
  lemma SameCopy(s: State, crc: Crc, id: nat)
    requires Inv(s, crc) && id in s.calls && s.calls[id].Writing? && Enabled(s, Copy(id, s.calls[id].copied))
    ensures Next(s, Copy(id, s.calls[id].copied), crc) == s
  {
    hide InBounds, Disjoint, Owned, Accounted, Encode;
    assert WrittenIfSlotted(s, crc, id);
    var s' := Next(s, Copy(id, s.calls[id].copied), crc);
    var a := s.calls[id];
    assert s.buf.data == s.buf.data[..a.pos] + s.buf.data[a.pos..a.pos + a.copied] + s.buf.data[a.pos + a.copied..];
    assert s'.buf.data == s.buf.data;
  }

  lemma StoreKeeps(s: State, crc: Crc, id: nat)
    requires Inv(s, crc) && Enabled(s, Store(id))
    ensures Inv(Next(s, Store(id), crc), crc)
  {
    hide InBounds, Disjoint, Owned, Encode, Active, Waiting;
    var s' := Next(s, Store(id), crc);
    assert WrittenIfSlotted(s, crc, id);
    SameActive(s.calls, id, s'.calls[id]);
    ProgressKeeps(s, s', crc, id);
  }

  lemma LowerKeeps(s: State, crc: Crc, id: nat)
    requires Inv(s, crc) && Enabled(s, Lower(id))
    ensures Inv(Next(s, Lower(id), crc), crc)
  {
    hide InBounds, Disjoint, Owned, Encode, Active, Waiting;
    var s' := Next(s, Lower(id), crc);
    assert WrittenIfSlotted(s, crc, id);
    CountsAfter(s.calls, id, s'.calls[id]);
    ProgressKeeps(s, s', crc, id);
  }

  lemma StepKeeps(s: State, crc: Crc, step: Step)
    requires Inv(s, crc) && Enabled(s, step)
    ensures Inv(Next(s, step, crc), crc)
  {
    hide Inv, Next, Enabled;
    match step
    case Claim(id, payload) => ClaimKeeps(s, crc, id, payload);
    case TakeSlot(id) => TakeSlotKeeps(s, crc, id);
    case Raise(id) => RaiseKeeps(s, crc, id);
    case Copy(id, upTo) => CopyKeeps(s, crc, id, upTo);
    case Store(id) => StoreKeeps(s, crc, id);
    case Lower(id) => LowerKeeps(s, crc, id);
  }

  // ---- runs ----

  predicate Run(s: State, steps: seq<Step>, crc: Crc)
    decreases |steps|
  {
    steps == [] || (Enabled(s, steps[0]) && Run(Next(s, steps[0], crc), steps[1..], crc))
  }

  function After(s: State, steps: seq<Step>, crc: Crc): (t: State)
    requires Run(s, steps, crc)
    decreases |steps|
  {
    if steps == [] then s else After(Next(s, steps[0], crc), steps[1..], crc)
  }

  lemma {:induction false} RunKeeps(s: State, steps: seq<Step>, crc: Crc)
    requires Inv(s, crc) && Run(s, steps, crc)
    ensures Inv(After(s, steps, crc), crc)
    decreases |steps|
  {
    hide Inv, Next, Enabled;
    if steps != [] {
      StepKeeps(s, crc, steps[0]);
      RunKeeps(Next(s, steps[0], crc), steps[1..], crc);
    }
  }

  /** What an append returns. */
  function Returned(s: State, id: nat): (lsn: nat)
    requires id in s.calls && s.calls[id].Done?
  {
    s.buf.minLsn + s.calls[id].idx
  }

  /** Every interleaving from a fresh or reset buffer: ranges are in bounds and
      disjoint, finished appends have distinct LSNs within the slots taken, and
      slots never exceed a sixteenth of the buffer. */
  lemma EveryRunIsSafe(capacity: nat, minLsn: nat, entries: seq<Slot>, data: Bytes, steps: seq<Step>, crc: Crc)
    requires |data| == capacity && |entries| == capacity / HEADER_LEN && minLsn + capacity < U64
    requires Run(Initial(capacity, minLsn, entries, data), steps, crc)
    ensures var t := After(Initial(capacity, minLsn, entries, data), steps, crc);
            && Inv(t, crc)
            && t.buf.taken <= t.buf.capacity / HEADER_LEN
            && (forall i, j | i in t.calls && t.calls[i].Done? && j in t.calls && t.calls[j].Done? && i != j ::
                  Returned(t, i) != Returned(t, j))
  {
    hide Written;
    InitialHolds(capacity, minLsn, entries, data, crc);
    RunKeeps(Initial(capacity, minLsn, entries, data), steps, crc);
  }

  /** All calls have returned or overflowed. */
  predicate Quiet(s: State) {
    forall id | id in s.calls :: s.calls[id].Done? || s.calls[id].Overflowed?
  }

  /** What the swap waits for before it counts the slots. */
  predicate Drained(s: State) {
    s.buf.inFlight == 0
  }

  ghost predicate NamesFrame(s: State, crc: Crc, k: nat)
    requires k < |s.buf.entries| && k < |s.owners|
  {
    var e := s.buf.entries[k];
    && s.owners[k] in s.calls
    && var payload := s.calls[s.owners[k]].payload;
    && e.len == FrameLen(payload) && e.pos + e.len <= |s.buf.data|
    && var d := DecodeAt(crc, s.buf.data, e.pos);
    && d.Frame? && d.lsn == s.buf.minLsn + k && d.totalLen == e.len
    && PayloadAt(s.buf.data, e.pos, e.len) == payload
  }

  /** A slot whose call has returned names a frame that decodes to its own LSN
      and to the payload of that call. */
  lemma SlotComplete(s: State, crc: Crc, k: nat)
    requires Inv(s, crc) && k < s.buf.taken && s.calls[s.owners[k]].Done?
    ensures k < |s.buf.entries| && NamesFrame(s, crc, k)
  {
    hide InBounds, Disjoint, Accounted, Encode, DecodeAt;
    var id := s.owners[k];
    var a := s.calls[id];
    assert WrittenIfSlotted(s, crc, id);
    DecodeEncoded(crc, s.buf.data, a.pos, LsnOf(s.buf, a.idx), a.payload);
  }

  /** When nobody is in flight, a slot has been finished by its call, or its
      call has not raised `in_flight` yet. All of them are finished exactly when
      no call is between its slot and raising the count; all calls are exactly
      when none is between its bytes and raising the count. */
  lemma DrainedSlots(s: State, crc: Crc)
    requires Inv(s, crc) && Drained(s)
    ensures s.buf.taken <= |s.buf.entries|
    ensures forall k | 0 <= k < s.buf.taken ::
              var a := s.calls[s.owners[k]]; a.Slotted? || (a.Done? && NamesFrame(s, crc, k))
    ensures (forall k | 0 <= k < s.buf.taken :: s.calls[s.owners[k]].Done?) <==>
            forall id | id in s.calls :: !s.calls[id].Slotted?
    ensures Quiet(s) <==> forall id | id in s.calls :: !s.calls[id].Slotted? && !s.calls[id].Claimed?
  {
    hide InBounds, Disjoint, WrittenIfSlotted, NamesFrame;
    SlotsBounded(s);
    assert Active(s.calls) == {};
    assert forall id | id in s.calls :: id !in Active(s.calls);
    forall k | 0 <= k < s.buf.taken
      ensures var a := s.calls[s.owners[k]]; a.Slotted? || (a.Done? && NamesFrame(s, crc, k))
    {
      if s.calls[s.owners[k]].Done? { SlotComplete(s, crc, k); }
    }
  }

  /** Once all calls have returned, nobody is in flight and every slot names its
      frame. */
  lemma QuietBufferIsComplete(s: State, crc: Crc)
    requires Inv(s, crc) && Quiet(s)
    ensures Drained(s)
    ensures forall k | 0 <= k < s.buf.taken :: k < |s.buf.entries| && NamesFrame(s, crc, k)
  {
    hide NamesFrame, WrittenIfSlotted;
    assert Active(s.calls) == {};
    DrainedSlots(s, crc);
  }

  /** The wait alone is not enough: after a claim and its slot nobody is in
      flight, and the slot does not name a frame. */
  lemma DrainedTooEarly(payload: Bytes, data: Bytes, crc: Crc)
    requires |payload| <= 4080 && |data| == 4096
    ensures var s, steps := Initial(4096, 0, seq(256, _ => Slot(0, 0)), data), [Claim(0, payload), TakeSlot(0)];
            && Run(s, steps, crc)
            && var t := After(s, steps, crc);
            && Inv(t, crc) && Drained(t) && t.buf.taken == 1 && !Quiet(t) && !NamesFrame(t, crc, 0)
  {
    hide Inv;
    var s, steps := Initial(4096, 0, seq(256, _ => Slot(0, 0)), data), [Claim(0, payload), TakeSlot(0)];
    var u := Next(s, steps[0], crc);
    var t := Next(u, TakeSlot(0), crc);
    assert steps[1..] == [TakeSlot(0)] && steps[1..][1..] == [];
    assert After(t, [], crc) == t && After(u, [TakeSlot(0)], crc) == t;
    InitialHolds(4096, 0, seq(256, _ => Slot(0, 0)), data, crc);
    RunKeeps(s, steps, crc);
  }

  /** A call that has its bytes but no slot when the slots are counted gets the
      LSN with which the next buffer starts. */
  lemma LateSlotRepeatsLsn(s: State, crc: Crc, id: nat)
    requires Inv(s, crc) && Drained(s) && id in s.calls && s.calls[id].Claimed?
    ensures Enabled(s, TakeSlot(id))
    ensures var t, next := Next(s, TakeSlot(id), crc), Initial(s.buf.capacity, s.buf.minLsn + s.buf.taken, s.buf.entries, s.buf.data);
            Inv(t, crc) && t.buf.minLsn + t.calls[id].idx == next.buf.minLsn
  {
    TakeSlotKeeps(s, crc, id);
  }

  /** Under the invariant no call is stuck on its own bookkeeping: the next
      step of every unfinished call is possible. */
  lemma CallsCanFinish(s: State, crc: Crc, id: nat)
    requires Inv(s, crc) && id in s.calls
    ensures s.calls[id].Claimed? ==> Enabled(s, TakeSlot(id))
    ensures s.calls[id].Slotted? ==> Enabled(s, Raise(id))
    ensures s.calls[id].Writing? ==> Enabled(s, Copy(id, FrameLen(s.calls[id].payload)))
    ensures s.calls[id].Writing? && s.calls[id].copied == FrameLen(s.calls[id].payload) ==> Enabled(s, Store(id))
    ensures s.calls[id].Stored? ==> Enabled(s, Lower(id))
  {
    hide Disjoint, Encode;
    assert WrittenIfSlotted(s, crc, id);
    SlotsBounded(s);
    if s.calls[id].Stored? {
      assert id in Active(s.calls);
    }
  }

  lemma SlotsBounded(s: State)
    requires Accounted(s)
    ensures s.buf.taken <= s.buf.capacity / HEADER_LEN
  {
  }
}
