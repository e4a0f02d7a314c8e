/** The byte layout shared by data blocks and index blocks, and its reading:

      count | key offsets (count + 1) | value offsets (count + 1) | keys | values | zero padding

    All header fields are big-endian u32; the extra offset is a sentinel. */
module BlockFormat {
  import opened Keys
  import opened Codec

  datatype RawEntry = RawEntry(key: Key, value: Bytes)

  // ---- writing ----

  function KeyBytes(es: seq<RawEntry>): (s: Bytes) {
    if es == [] then [] else KeyBytes(es[..|es| - 1]) + es[|es| - 1].key
  }

  function ValueBytes(es: seq<RawEntry>): (s: Bytes) {
    if es == [] then [] else ValueBytes(es[..|es| - 1]) + es[|es| - 1].value
  }

  function HeaderSize(n: nat): nat {
    4 + (n + 1) * 8
  }

  function KeyOffset(es: seq<RawEntry>, i: nat): nat
    requires i <= |es|
  {
    HeaderSize(|es|) + |KeyBytes(es[..i])|
  }

  function ValueOffset(es: seq<RawEntry>, i: nat): nat
    requires i <= |es|
  {
    HeaderSize(|es|) + |KeyBytes(es)| + |ValueBytes(es[..i])|
  }

  function KeyOffsets(es: seq<RawEntry>): (o: seq<nat>) {
    seq(|es| + 1, i requires 0 <= i <= |es| => KeyOffset(es, i))
  }

  function ValueOffsets(es: seq<RawEntry>): (o: seq<nat>) {
    seq(|es| + 1, i requires 0 <= i <= |es| => ValueOffset(es, i))
  }

  function OffsetTable(offsets: seq<nat>): (s: Bytes)
    ensures |s| == 4 * |offsets|
  {
    if offsets == [] then []
    else OffsetTable(offsets[..|offsets| - 1]) + Be(offsets[|offsets| - 1], 4)
  }

  function Header(es: seq<RawEntry>): (s: Bytes)
    ensures |s| == HeaderSize(|es|)
  {
    Be(|es|, 4) + OffsetTable(KeyOffsets(es)) + OffsetTable(ValueOffsets(es))
  }

  function Layout(es: seq<RawEntry>): (s: Bytes) {
    Header(es) + KeyBytes(es) + ValueBytes(es)
  }

  /** `resize(size, 0)`: pad with zero bytes, or cut when already longer. */
  function Resize(s: Bytes, size: nat): (r: Bytes)
    ensures |r| == size
  {
    if |s| <= size then s + seq(size - |s|, _ => 0) else s[..size]
  }

  /** What the builders charge one entry: its bytes plus two u32 offsets. */
  function EntrySize(e: RawEntry): nat {
    |e.key| + |e.value| + 8
  }

  function PayloadSize(es: seq<RawEntry>): (n: nat) {
    if es == [] then 0 else PayloadSize(es[..|es| - 1]) + EntrySize(es[|es| - 1])
  }

  lemma {:induction false} PayloadSizeSplits(es: seq<RawEntry>)
    ensures PayloadSize(es) == |KeyBytes(es)| + |ValueBytes(es)| + 8 * |es|
  {
    if es != [] {
      PayloadSizeSplits(es[..|es| - 1]);
    }
  }

  /** The accounting the builders keep is exact: 12 fixed bytes plus the
      running estimate is the encoded length. */
  lemma LayoutLength(es: seq<RawEntry>)
    ensures |Layout(es)| == 12 + PayloadSize(es)
  {
    PayloadSizeSplits(es);
  }

  // ---- reading ----

  function Count(b: Bytes): (n: nat)
    requires |b| >= 4
  {
    FromBe(b[..4])
  }

  /** The j-th u32 after the count, over both offset tables. */
  function Offset(b: Bytes, j: nat): (n: nat)
    requires 8 + 4 * j <= |b|
  {
    FromBe(b[4 + 4 * j..8 + 4 * j])
  }

  /** The i-th key and value lie inside the block. */
  predicate EntryInBounds(b: Bytes, i: nat)
    requires |b| >= 4 && HeaderSize(Count(b)) <= |b| && i < Count(b)
  {
    var n := Count(b);
    && Offset(b, i) <= Offset(b, i + 1) <= |b|
    && Offset(b, n + 1 + i) <= Offset(b, n + 2 + i) <= |b|
  }

  /** The blocks that `parse_header`, `key` and `value` read without an
      out-of-range slice. */
  predicate WellFormed(b: Bytes) {
    && |b| >= 4
    && HeaderSize(Count(b)) <= |b|
    && (forall i: nat | i < Count(b) :: EntryInBounds(b, i))
  }

  function EntryAt(b: Bytes, i: nat): (e: RawEntry)
    requires WellFormed(b) && i < Count(b)
  {
    assert EntryInBounds(b, i);
    RawEntry(b[Offset(b, i)..Offset(b, i + 1)],
             b[Offset(b, Count(b) + 1 + i)..Offset(b, Count(b) + 2 + i)])
  }

  function Entries(b: Bytes): (es: seq<RawEntry>)
    requires WellFormed(b)
  {
    seq(Count(b), i requires 0 <= i < Count(b) => EntryAt(b, i))
  }

  // ---- reading undoes writing ----

  lemma {:induction false} OffsetTableAt(offsets: seq<nat>, j: nat)
    requires j < |offsets|
    ensures OffsetTable(offsets)[4 * j..4 * j + 4] == Be(offsets[j], 4)
  {
    hide Be;
    var n := |offsets| - 1;
    var t, last := OffsetTable(offsets[..n]), Be(offsets[n], 4);
    assert OffsetTable(offsets) == t + last;
    if j < n {
      OffsetTableAt(offsets[..n], j);
      assert (t + last)[4 * j..4 * j + 4] == t[4 * j..4 * j + 4];
    } else {
      assert (t + last)[|t|..] == last;
    }
  }

  lemma {:induction false} KeyBytesAt(es: seq<RawEntry>, i: nat)
    requires i < |es|
    ensures |KeyBytes(es[..i])| <= |KeyBytes(es[..i + 1])| <= |KeyBytes(es)|
    ensures KeyBytes(es)[|KeyBytes(es[..i])|..|KeyBytes(es[..i + 1])|] == es[i].key
  {
    var init := es[..|es| - 1];
    if i < |es| - 1 {
      KeyBytesAt(init, i);
      assert init[..i] == es[..i] && init[..i + 1] == es[..i + 1];
    } else {
      assert es[..i] == init && es[..i + 1] == es;
    }
  }

  lemma {:induction false} ValueBytesAt(es: seq<RawEntry>, i: nat)
    requires i < |es|
    ensures |ValueBytes(es[..i])| <= |ValueBytes(es[..i + 1])| <= |ValueBytes(es)|
    ensures ValueBytes(es)[|ValueBytes(es[..i])|..|ValueBytes(es[..i + 1])|] == es[i].value
  {
    var init := es[..|es| - 1];
    if i < |es| - 1 {
      ValueBytesAt(init, i);
      assert init[..i] == es[..i] && init[..i + 1] == es[..i + 1];
    } else {
      assert es[..i] == init && es[..i + 1] == es;
    }
  }

  /** Where each part of a padded concatenation ends up. */
  lemma ResizeSlices(h: Bytes, k: Bytes, v: Bytes, size: nat)
    requires |h| + |k| + |v| <= size
    ensures forall i, j {:trigger h[i..j]} | 0 <= i <= j <= |h| :: Resize(h + k + v, size)[i..j] == h[i..j]
    ensures forall i, j {:trigger k[i..j]} | 0 <= i <= j <= |k| ::
              Resize(h + k + v, size)[|h| + i..|h| + j] == k[i..j]
    ensures forall i, j {:trigger v[i..j]} | 0 <= i <= j <= |v| ::
              Resize(h + k + v, size)[|h| + |k| + i..|h| + |k| + j] == v[i..j]
  {
  }

  lemma KeyTableRegion(es: seq<RawEntry>, i: nat, j: nat)
    requires i <= j <= 4 * (|es| + 1)
    ensures Header(es)[4 + i..4 + j] == OffsetTable(KeyOffsets(es))[i..j]
  {
  }

  lemma ValueTableRegion(es: seq<RawEntry>, i: nat, j: nat)
    requires i <= j <= 4 * (|es| + 1)
    ensures Header(es)[8 + 4 * |es| + i..8 + 4 * |es| + j] == OffsetTable(ValueOffsets(es))[i..j]
  {
  }

  lemma CountOfLayout(es: seq<RawEntry>, size: nat)
    requires |Layout(es)| <= size < U32
    ensures Count(Resize(Layout(es), size)) == |es| && HeaderSize(|es|) <= size
  {
    hide KeyBytes, ValueBytes, OffsetTable, FromBe, Be;
    var b := Resize(Layout(es), size);
    ResizeSlices(Header(es), KeyBytes(es), ValueBytes(es), size);
    assert Header(es)[0..4] == Be(|es|, 4);
    assert b[0..4] == b[..4];
    FieldWidths();
    BeRoundTrip(|es|, 4);
  }

  lemma KeyOffsetBound(es: seq<RawEntry>, i: nat)
    requires i <= |es|
    ensures KeyOffset(es, i) <= HeaderSize(|es|) + |KeyBytes(es)|
  {
    if i < |es| {
      KeyBytesAt(es, i);
    } else {
      assert es[..i] == es;
    }
  }

  lemma ValueOffsetBound(es: seq<RawEntry>, i: nat)
    requires i <= |es|
    ensures ValueOffset(es, i) <= HeaderSize(|es|) + |KeyBytes(es)| + |ValueBytes(es)|
  {
    if i < |es| {
      ValueBytesAt(es, i);
    } else {
      assert es[..i] == es;
    }
  }

  lemma KeyOffsetOfLayout(es: seq<RawEntry>, size: nat, i: nat)
    requires |Layout(es)| <= size < U32 && HeaderSize(|es|) <= size && i <= |es|
    ensures Offset(Resize(Layout(es), size), i) == KeyOffset(es, i)
  {
    hide KeyBytes, ValueBytes, OffsetTable, FromBe, Be;
    ResizeSlices(Header(es), KeyBytes(es), ValueBytes(es), size);
    KeyTableRegion(es, 4 * i, 4 * i + 4);
    OffsetTableAt(KeyOffsets(es), i);
    KeyOffsetBound(es, i);
    FieldWidths();
    BeRoundTrip(KeyOffset(es, i), 4);
  }

  lemma ValueOffsetOfLayout(es: seq<RawEntry>, size: nat, i: nat)
    requires |Layout(es)| <= size < U32 && HeaderSize(|es|) <= size && i <= |es|
    ensures Offset(Resize(Layout(es), size), |es| + 1 + i) == ValueOffset(es, i)
  {
    hide KeyBytes, ValueBytes, OffsetTable, FromBe, Be;
    ResizeSlices(Header(es), KeyBytes(es), ValueBytes(es), size);
    ValueTableRegion(es, 4 * i, 4 * i + 4);
    OffsetTableAt(ValueOffsets(es), i);
    ValueOffsetBound(es, i);
    FieldWidths();
    BeRoundTrip(ValueOffset(es, i), 4);
  }

  lemma KeyOfLayout(es: seq<RawEntry>, b: Bytes, i: nat)
    requires |Layout(es)| <= |b| < U32 && b == Resize(Layout(es), |b|) && HeaderSize(|es|) <= |b| && i < |es|
    ensures Offset(b, i) <= Offset(b, i + 1) <= |b| && b[Offset(b, i)..Offset(b, i + 1)] == es[i].key
  {
    hide KeyBytes, ValueBytes, OffsetTable, FromBe, Be, Offset;
    KeyOffsetOfLayout(es, |b|, i);
    KeyOffsetOfLayout(es, |b|, i + 1);
    KeyBytesAt(es, i);
    ResizeSlices(Header(es), KeyBytes(es), ValueBytes(es), |b|);
  }

  lemma ValueOfLayout(es: seq<RawEntry>, b: Bytes, i: nat)
    requires |Layout(es)| <= |b| < U32 && b == Resize(Layout(es), |b|) && HeaderSize(|es|) <= |b| && i < |es|
    ensures var j := |es| + 1 + i;
            Offset(b, j) <= Offset(b, j + 1) <= |b| && b[Offset(b, j)..Offset(b, j + 1)] == es[i].value
  {
    hide KeyBytes, ValueBytes, OffsetTable, FromBe, Be, Offset;
    ValueOffsetOfLayout(es, |b|, i);
    ValueOffsetOfLayout(es, |b|, i + 1);
    ValueBytesAt(es, i);
    ResizeSlices(Header(es), KeyBytes(es), ValueBytes(es), |b|);
  }

  /** Any list whose encoding fits the block is read back entry for entry. */
  lemma EntriesOfLayout(es: seq<RawEntry>, size: nat)
    requires |Layout(es)| <= size < U32
    ensures WellFormed(Resize(Layout(es), size))
    ensures Entries(Resize(Layout(es), size)) == es
  {
    hide KeyBytes, ValueBytes, Layout, Resize, Offset, FromBe, Be;
    var b := Resize(Layout(es), size);
    CountOfLayout(es, size);
    forall i: nat | i < |es|
      ensures EntryInBounds(b, i) && b[Offset(b, i)..Offset(b, i + 1)] == es[i].key
      ensures b[Offset(b, |es| + 1 + i)..Offset(b, |es| + 2 + i)] == es[i].value
    {
      KeyOfLayout(es, b, i);
      ValueOfLayout(es, b, i);
    }
  }
}
