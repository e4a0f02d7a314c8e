/** Byte strings and the order the storage engine keeps them in: unsigned
    bytes, compared lexicographically, a proper prefix first. */
module Keys {

  newtype byte = x: int | 0 <= x < 256

  type Bytes = seq<byte>
  type Key = Bytes

  predicate Less(a: Key, b: Key)
  {
    if |b| == 0 then false
    else if |a| == 0 then true
    else if a[0] != b[0] then a[0] < b[0]
    else Less(a[1..], b[1..])
  }

  predicate AtMost(a: Key, b: Key) {
    !Less(b, a)
  }

  lemma {:induction false} LessIrreflexive(a: Key)
    ensures !Less(a, a)
  {
    if |a| > 0 {
      LessIrreflexive(a[1..]);
    }
  }

  lemma {:induction false} LessTransitive(a: Key, b: Key, c: Key)
    requires Less(a, b) && Less(b, c)
    ensures Less(a, c)
  {
    if |a| > 0 && a[0] == b[0] == c[0] {
      LessTransitive(a[1..], b[1..], c[1..]);
    }
  }

  lemma {:induction false} LessConnected(a: Key, b: Key)
    ensures a == b || Less(a, b) || Less(b, a)
  {
    if |a| > 0 && |b| > 0 && a[0] == b[0] {
      LessConnected(a[1..], b[1..]);
      assert a == [a[0]] + a[1..] && b == [b[0]] + b[1..];
    }
  }

  /** The three facts that make `Less` a strict total order, for callers that
      compare many keys at once. */
  lemma LessIsStrictTotalOrder()
    ensures forall a: Key :: !Less(a, a)
    ensures forall a: Key, b: Key, c: Key {:trigger Less(a, b), Less(b, c)} ::
              Less(a, b) && Less(b, c) ==> Less(a, c)
    ensures forall a: Key, b: Key {:trigger Less(a, b)} :: a == b || Less(a, b) || Less(b, a)
  {
    forall a: Key
      ensures !Less(a, a)
    {
      LessIrreflexive(a);
    }
    forall a: Key, b: Key, c: Key | Less(a, b) && Less(b, c)
      ensures Less(a, c)
    {
      LessTransitive(a, b, c);
    }
    forall a: Key, b: Key
      ensures a == b || Less(a, b) || Less(b, a)
    {
      LessConnected(a, b);
    }
  }

  /** Lexicographic order on equally long prefixes decides before the last byte. */
  lemma {:induction false} LessSnoc(a: Key, x: byte, b: Key, y: byte)
    requires |a| == |b|
    ensures Less(a + [x], b + [y]) <==> Less(a, b) || (a == b && x < y)
  {
    var a', b' := a + [x], b + [y];
    if |a| == 0 {
      assert a' == [x] && b' == [y];
    } else {
      assert a'[1..] == a[1..] + [x] && b'[1..] == b[1..] + [y];
      assert a == [a[0]] + a[1..] && b == [b[0]] + b[1..];
      LessSnoc(a[1..], x, b[1..], y);
    }
  }
}
