/** Fixed-width unsigned integers as bytes. `Be`/`Le` write the low `width`
    bytes of a number, so a value too wide for its field is truncated exactly
    as an `as u32`/`as u64` cast does. */
module Codec {
  import opened Keys

  function Pow256(width: nat): (p: nat)
    ensures p >= 1
  {
    if width == 0 then 1 else 256 * Pow256(width - 1)
  }

  const U32: nat := 0x1_0000_0000
  const U64: nat := 0x1_0000_0000_0000_0000

  function Be(n: nat, width: nat): (s: Bytes)
    ensures |s| == width
  {
    if width == 0 then [] else Be(n / 256, width - 1) + [(n % 256) as byte]
  }

  function FromBe(s: Bytes): (n: nat) {
    if |s| == 0 then 0 else 256 * FromBe(s[..|s| - 1]) + s[|s| - 1] as nat
  }

  function Le(n: nat, width: nat): (s: Bytes)
    ensures |s| == width
  {
    if width == 0 then [] else [(n % 256) as byte] + Le(n / 256, width - 1)
  }

  function FromLe(s: Bytes): (n: nat) {
    if |s| == 0 then 0 else s[0] as nat + 256 * FromLe(s[1..])
  }

  lemma FieldWidths()
    ensures Pow256(4) == U32 && Pow256(8) == U64
  {
    assert Pow256(2) == 65536;
    assert Pow256(4) == 256 * (256 * Pow256(2));
    assert Pow256(6) == 256 * (256 * Pow256(4));
    assert Pow256(8) == 256 * (256 * Pow256(6));
  }

  lemma {:induction false} BeRoundTrip(n: nat, width: nat)
    requires n < Pow256(width)
    ensures FromBe(Be(n, width)) == n
  {
    if width > 0 {
      BeRoundTrip(n / 256, width - 1);
      var s := Be(n, width);
      assert s[..|s| - 1] == Be(n / 256, width - 1);
    }
  }

  lemma {:induction false} LeRoundTrip(n: nat, width: nat)
    requires n < Pow256(width)
    ensures FromLe(Le(n, width)) == n
  {
    if width > 0 {
      LeRoundTrip(n / 256, width - 1);
      var s := Le(n, width);
      assert s[1..] == Le(n / 256, width - 1);
    }
  }

  /** Big-endian keys sort as the numbers they encode. */
  lemma {:induction false} BeOrder(a: nat, b: nat, width: nat)
    requires a < Pow256(width) && b < Pow256(width)
    ensures Less(Be(a, width), Be(b, width)) <==> a < b
    ensures Be(a, width) == Be(b, width) <==> a == b
  {
    if width > 0 {
      BeOrder(a / 256, b / 256, width - 1);
      LessSnoc(Be(a / 256, width - 1), (a % 256) as byte, Be(b / 256, width - 1), (b % 256) as byte);
      BeRoundTrip(a, width);
      BeRoundTrip(b, width);
    }
  }
}
