/** The cursor over one encoded block, in both directions. */
module BlockIter {
  import opened Keys
  import opened Codec
  import opened BlockFormat
  import opened Wrappers

  predicate AscendingRaws(es: seq<RawEntry>) {
    forall i, j | 0 <= i < j < |es| :: Less(es[i].key, es[j].key)
  }

  class NormalBlockIter {
    const block: Bytes
    const keyOffsets: seq<nat>
    const valueOffsets: seq<nat>
    const count: nat
    var curr: Option<nat>

    /** The parsed header agrees with the block. */
    ghost predicate Parsed()
      ensures Parsed() ==> WellFormed(block) && count == Count(block)
    {
      && WellFormed(block)
      && count == Count(block)
      && keyOffsets == seq(count + 1, i requires 0 <= i <= count => Offset(block, i))
      && valueOffsets == seq(count + 1, i requires 0 <= i <= count => Offset(block, count + 1 + i))
    }

    /** And the cursor is in range. */
    ghost predicate Valid()
      reads this
    {
      Parsed() && (curr.Some? ==> curr.value < count)
    }

    constructor (block: Bytes)
      requires WellFormed(block)
      ensures Valid() && this.block == block && curr == None
    {
      var n := FromBe(block[..4]);
      var keys: seq<nat> := [];
      var values: seq<nat> := [];
      var start := 4;
      for i := 0 to n + 1
        invariant start == 4 + 4 * i
        invariant keys == seq(i, j requires 0 <= j < i => Offset(block, j))
      {
        keys := keys + [FromBe(block[start..start + 4])];
        start := start + 4;
      }
      for i := 0 to n + 1
        invariant start == 4 + 4 * (n + 1 + i)
        invariant values == seq(i, j requires 0 <= j < i => Offset(block, n + 1 + j))
      {
        values := values + [FromBe(block[start..start + 4])];
        start := start + 4;
      }
      this.block := block;
      this.keyOffsets := keys;
      this.valueOffsets := values;
      this.count := n;
      this.curr := None;
    }

    /** The entry under the cursor, sliced out of the block. */
    function Current(): (e: RawEntry)
      requires Valid() && curr.Some?
      reads this
      ensures e == Entries(block)[curr.value]
    {
      assert EntryInBounds(block, curr.value);
      RawEntry(block[keyOffsets[curr.value]..keyOffsets[curr.value + 1]],
               block[valueOffsets[curr.value]..valueOffsets[curr.value + 1]])
    }

    // ---- forward ----

    method SeekToFirst()
      requires Valid()
      modifies this
      ensures Valid() && curr == if count > 0 then Some(0) else None
    {
      curr := if count > 0 then Some(0) else None;
    }

    /** Lower bound: the first key not below the target. */
    method Seek(target: Key)
      requires Valid() && AscendingRaws(Entries(block))
      modifies this
      ensures Valid()
      ensures forall j | 0 <= j < (if curr.Some? then curr.value else count) :: Less(Entries(block)[j].key, target)
      ensures curr.Some? ==> AtMost(target, Entries(block)[curr.value].key)
    {
      hide Less, WellFormed, Offset;
      ghost var es := Entries(block);
      var lo, hi := 0, count;
      while lo < hi
        invariant 0 <= lo <= hi <= count && Valid()
        invariant forall j | 0 <= j < lo :: Less(es[j].key, target)
        invariant hi < count ==> AtMost(target, es[hi].key)
      {
        var mid := lo + (hi - lo) / 2;
        curr := Some(mid);
        if Less(Current().key, target) {
          forall j | 0 <= j < mid
            ensures Less(es[j].key, target)
          {
            LessTransitive(es[j].key, es[mid].key, target);
          }
          lo := mid + 1;
        } else {
          hi := mid;
        }
      }
      curr := if lo < count then Some(lo) else None;
    }

    method Next()
      requires Valid()
      modifies this
      ensures Valid()
      ensures curr == if old(curr).Some? && old(curr).value + 1 < count then Some(old(curr).value + 1) else None
    {
      if curr.Some? {
        curr := if curr.value + 1 < count then Some(curr.value + 1) else None;
      }
    }

    // ---- reverse ----

    method SeekToLast()
      requires Valid()
      modifies this
      ensures Valid() && curr == if count > 0 then Some(count - 1) else None
    {
      curr := if count > 0 then Some(count - 1) else None;
    }

    /** Upper bound minus one: the last key not above the target. */
    method SeekForPrev(target: Key)
      requires Valid() && AscendingRaws(Entries(block))
      modifies this
      ensures Valid()
      ensures forall j | (if curr.Some? then curr.value + 1 else 0) <= j < count :: Less(target, Entries(block)[j].key)
      ensures curr.Some? ==> AtMost(Entries(block)[curr.value].key, target)
    {
      hide Less, WellFormed, Offset;
      ghost var es := Entries(block);
      var lo, hi := 0, count;
      while lo < hi
        invariant 0 <= lo <= hi <= count && Valid()
        invariant lo > 0 ==> AtMost(es[lo - 1].key, target)
        invariant forall j | hi <= j < count :: Less(target, es[j].key)
      {
        var mid := lo + (hi - lo) / 2;
        curr := Some(mid);
        if AtMost(Current().key, target) {
          lo := mid + 1;
        } else {
          forall j | mid < j < count
            ensures Less(target, es[j].key)
          {
            LessTransitive(target, es[mid].key, es[j].key);
          }
          hi := mid;
        }
      }
      curr := if lo > 0 then Some(lo - 1) else None;
    }

    method Prev()
      requires Valid()
      modifies this
      ensures Valid()
      ensures curr == if old(curr).Some? && old(curr).value > 0 then Some(old(curr).value - 1) else None
    {
      curr := if curr.Some? && curr.value > 0 then Some(curr.value - 1) else None;
    }
  }
}
