/** The bit arithmetic of the write path: a slot packed into one word, and
    rounding up to a power-of-two alignment with a mask. */
module WalBits {

  // ---- `pack` / `unpack` ----

  function Pack(pos: bv64, len: bv64): bv64 {
    (pos << 32) | len
  }

  function UnpackPos(v: bv64): bv64 {
    v >> 32
  }

  function UnpackLen(v: bv64): bv64 {
    v & 0xFFFF_FFFF
  }

  lemma PackRoundTrip(pos: bv64, len: bv64)
    requires pos < 0x1_0000_0000 && len < 0x1_0000_0000
    ensures UnpackPos(Pack(pos, len)) == pos && UnpackLen(Pack(pos, len)) == len
  {
  }

  // ---- `align_up` ----

  function Pow2(k: nat): (p: nat)
    ensures p >= 1
  {
    if k == 0 then 1 else 2 * Pow2(k - 1)
  }

  /** Bitwise and of two numbers. */
  function And(x: nat, y: nat): (z: nat) {
    if x == 0 || y == 0 then 0
    else (if x % 2 == 1 && y % 2 == 1 then 1 else 0) + 2 * And(x / 2, y / 2)
  }

  /** Bitwise complement in a word of `width` bits. */
  function Not(x: nat, width: nat): (z: nat)
    requires x < Pow2(width)
  {
    Pow2(width) - 1 - x
  }

  function AlignUp(v: nat, align: nat, width: nat): (r: nat)
    requires 0 < align <= Pow2(width)
  {
    And(v + align - 1, Not(align - 1, width))
  }

  lemma {:induction false} AndAllOnes(x: nat, width: nat)
    requires x < Pow2(width)
    ensures And(x, Pow2(width) - 1) == x
  {
    if width > 0 && x > 0 {
      AndAllOnes(x / 2, width - 1);
      assert (Pow2(width) - 1) / 2 == Pow2(width - 1) - 1;
    }
  }

  /** The low `k` bits. */
  function Low(x: nat, k: nat): (r: nat)
    ensures r <= x
  {
    if k == 0 then 0 else x % 2 + 2 * Low(x / 2, k - 1)
  }

  lemma {:induction false} Pow2Order(k: nat, width: nat)
    requires k <= width
    ensures Pow2(k) <= Pow2(width) && (Pow2(k) == Pow2(width) ==> k == width)
  {
    if k > 0 {
      Pow2Order(k - 1, width - 1);
    } else if width > 0 {
      Pow2Order(0, width - 1);
    }
  }

  /** A mask of high ones clears the low `k` bits. */
  lemma {:induction false} MaskClearsLow(x: nat, k: nat, width: nat)
    requires k <= width && x < Pow2(width)
    ensures Pow2(k) <= Pow2(width)
    ensures And(x, Pow2(width) - Pow2(k)) == x - Low(x, k)
    decreases k
  {
    hide And;
    Pow2Order(k, width);
    if k == 0 {
      AndAllOnes(x, width);
    } else {
      Pow2Order(k - 1, width - 1);
      MaskClearsLow(x / 2, k - 1, width - 1);
      var y := Pow2(width - 1) - Pow2(k - 1);
      assert Pow2(width) - Pow2(k) == 2 * y;
      AndEven(x, y);
    }
  }

  /** Against an even number the lowest bit is lost. */
  lemma AndEven(x: nat, y: nat)
    ensures And(x, 2 * y) == 2 * And(x / 2, y)
  {
    if x == 0 || y == 0 {
      assert And(x / 2, y) == 0;
    } else {
      assert (2 * y) % 2 == 0 && (2 * y) / 2 == y;
    }
  }

  lemma {:induction false} LowIsMod(x: nat, k: nat)
    ensures Low(x, k) == x % Pow2(k)
  {
    if k > 0 {
      LowIsMod(x / 2, k - 1);
      ModHalves(x, Pow2(k - 1));
    }
  }

  lemma ModHalves(x: nat, m: nat)
    requires m > 0
    ensures x % (2 * m) == 2 * ((x / 2) % m) + x % 2
  {
    var q, r := x / 2 / m, (x / 2) % m;
    assert x / 2 == m * q + r;
    Regroup(m, q);
    ModUnique(x, 2 * m, q, 2 * r + x % 2);
  }

  lemma Regroup(m: nat, q: nat)
    ensures 2 * (m * q) == (2 * m) * q
  {
  }

  lemma ModUnique(x: nat, m: nat, q: nat, r: nat)
    requires r < m && x == m * q + r
    ensures x % m == r
  {
    var q' := x / m;
    assert x == m * q' + x % m;
    Between(m, q, q', r, x % m);
  }

  lemma MulMonotone(m: nat, a: nat, b: nat)
    requires a <= b
    ensures m * a <= m * b
  {
  }

  lemma MulCancels(m: nat, a: nat, b: nat)
    requires m * a < m * b
    ensures a < b
  {
    if a >= b {
      MulMonotone(m, b, a);
    }
  }

  lemma Between(m: nat, q: nat, q': nat, r: nat, r': nat)
    requires r < m && r' < m && m * q + r == m * q' + r'
    ensures q == q'
  {
    assert m * (q + 1) == m * q + m && m * (q' + 1) == m * q' + m;
    MulCancels(m, q, q' + 1);
    MulCancels(m, q', q + 1);
  }

  lemma RoundDown(x: nat, a: nat)
    requires a > 0
    ensures x - x % a == x / a * a && (x - x % a) % a == 0
  {
    var q := x / a;
    assert x == a * q + x % a;
    ModUnique(a * q, a, q, 0);
  }

  /** The mask computes the least multiple of the alignment not below `v`. */
  lemma AlignUpRounds(v: nat, k: nat, width: nat)
    requires k <= width && v + Pow2(k) <= Pow2(width)
    ensures var a := Pow2(k); var r := AlignUp(v, a, width);
            r % a == 0 && v <= r < v + a && r == (v + a - 1) / a * a
  {
    hide And, Low, Pow2;
    var a := Pow2(k);
    MaskClearsLow(v + a - 1, k, width);
    LowIsMod(v + a - 1, k);
    RoundDown(v + a - 1, a);
  }
}
