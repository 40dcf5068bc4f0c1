/** Byte strings in the order in which the database keeps its keys, and the
    big-endian encoding of unsigned integers into them. */
module BigEndian {
  type Byte = x: int | 0 <= x < 256
  type Bytes = seq<Byte>

  /** One more than the greatest 64-bit unsigned integer. */
  const LIMIT: nat := 0x1_0000_0000_0000_0000

  /** The lexicographic order of `bytes.Compare`: a proper prefix comes first. */
  predicate Less(a: Bytes, b: Bytes) {
    b != [] && (a == [] || a[0] < b[0] || (a[0] == b[0] && Less(a[1..], b[1..])))
  }

  function Pow256(k: nat): (p: nat)
    ensures p >= 1
  {
    if k == 0 then 1 else 256 * Pow256(k - 1)
  }

  /** The `width` low-order bytes of n, most significant first. */
  function Encode(n: nat, width: nat): (b: Bytes)
    ensures |b| == width
  {
    if width == 0 then [] else Encode(n / 256, width - 1) + [n % 256]
  }

  function Decode(b: Bytes): nat {
    if b == [] then 0 else 256 * Decode(b[..|b| - 1]) + b[|b| - 1]
  }

  lemma Pow256Of8()
    ensures Pow256(8) == LIMIT
  {
    assert Pow256(2) == 0x1_0000;
    assert Pow256(4) == 0x1_0000_0000;
    assert Pow256(6) == 0x1_0000_0000_0000;
  }

  /** Reading back what was written. */
  lemma {:induction false} DecodeEncode(n: nat, width: nat)
    requires n < Pow256(width)
    ensures Decode(Encode(n, width)) == n
  {
    if width != 0 {
      DecodeEncode(n / 256, width - 1);
      assert Encode(n, width)[..width - 1] == Encode(n / 256, width - 1);
    }
  }

  /** Writing back what was read. */
  lemma {:induction false} EncodeDecode(b: Bytes)
    ensures Encode(Decode(b), |b|) == b && Decode(b) < Pow256(|b|)
  {
    if b != [] {
      EncodeDecode(b[..|b| - 1]);
      assert b == b[..|b| - 1] + [b[|b| - 1]];
    }
  }

  /** The byte order of encodings of one width is the order of the numbers. */
  lemma {:induction false} EncodeOrder(a: nat, b: nat, width: nat)
    requires a < Pow256(width) && b < Pow256(width)
    ensures Less(Encode(a, width), Encode(b, width)) <==> a < b
  {
    if width != 0 {
      EncodeOrder(a / 256, b / 256, width - 1);
      EncodeInjective(a / 256, b / 256, width - 1);
      LessConcat(Encode(a / 256, width - 1), Encode(b / 256, width - 1), [a % 256], [b % 256]);
    }
  }

  lemma EncodeInjective(a: nat, b: nat, width: nat)
    requires a < Pow256(width) && b < Pow256(width)
    ensures Encode(a, width) == Encode(b, width) <==> a == b
  {
    DecodeEncode(a, width);
    DecodeEncode(b, width);
  }

  // The order is a strict total order.

  lemma {:induction false} LessIrreflexive(a: Bytes)
    ensures !Less(a, a)
  {
    if a != [] { LessIrreflexive(a[1..]); }
  }

  lemma {:induction false} LessTransitive(a: Bytes, b: Bytes, c: Bytes)
    requires Less(a, b) && Less(b, c)
    ensures Less(a, c)
  {
    if a != [] && a[0] == b[0] == c[0] {
      LessTransitive(a[1..], b[1..], c[1..]);
    }
  }

  lemma {:induction false} LessTotal(a: Bytes, b: Bytes)
    ensures Less(a, b) || a == b || Less(b, a)
  {
    if a != [] && b != [] && a[0] == b[0] {
      LessTotal(a[1..], b[1..]);
      assert a == [a[0]] + a[1..] && b == [b[0]] + b[1..];
    }
  }

  /** Comparing concatenations whose first halves have one length: the first
      halves decide, and the second halves break a tie. */
  lemma {:induction false} LessConcat(a: Bytes, b: Bytes, x: Bytes, y: Bytes)
    requires |a| == |b|
    ensures Less(a + x, b + y) <==> Less(a, b) || (a == b && Less(x, y))
  {
    if a == [] {
      assert a + x == x && b + y == y;
    } else {
      LessConcat(a[1..], b[1..], x, y);
      assert (a + x)[1..] == a[1..] + x && (b + y)[1..] == b[1..] + y;
      assert a == [a[0]] + a[1..] && b == [b[0]] + b[1..];
    }
  }

  /** What is below a string of at most its own length stays below it when it
      is extended. */
  lemma {:induction false} LessExtend(a: Bytes, d: Bytes, x: Bytes)
    requires |d| <= |a| && Less(a, d)
    ensures Less(a + x, d)
  {
    if a[0] == d[0] {
      LessExtend(a[1..], d[1..], x);
      assert (a + x)[1..] == a[1..] + x;
    }
  }
}
