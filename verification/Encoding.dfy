/** Big-endian fixed-width integers (client/shared/encoding.go and encoding/binary). */
module Encoding {
  import opened Prelude

  function Uint16ToBytes(i: Uint16): (r: Bytes)
    ensures |r| == 2 && r[0] as int * 0x100 + r[1] == i
    ensures BytesToUint16(r) == i
  {
    [i / 0x100, i % 0x100]
  }

  function BytesToUint16(b: Bytes): Uint16
    requires |b| == 2
  {
    b[0] as int * 0x100 + b[1]
  }

  function Uint32ToBytes(i: Uint32): (r: Bytes)
    ensures |r| == 4 && r[0] as int * 0x100_0000 + r[1] as int * 0x1_0000 + r[2] as int * 0x100 + r[3] == i
    ensures BytesToUint32(r) == i
  {
    var r := Uint16ToBytes(i / 0x1_0000) + Uint16ToBytes(i % 0x1_0000);
    assert r[..2] == Uint16ToBytes(i / 0x1_0000) && r[2..] == Uint16ToBytes(i % 0x1_0000);
    r
  }

  function BytesToUint32(b: Bytes): Uint32
    requires |b| == 4
  {
    BytesToUint16(b[..2]) as int * 0x1_0000 + BytesToUint16(b[2..])
  }

  /** Decoding loses nothing: a 2-byte field is the encoding of the number read from it. */
  lemma {:induction false} Uint16Canonical(b: Bytes)
    requires |b| == 2
    ensures Uint16ToBytes(BytesToUint16(b)) == b
  {
    assert (b[0] as int * 0x100 + b[1]) / 0x100 == b[0];
  }

  /** A 4-byte field is the encoding of the number read from it. */
  lemma {:induction false} Uint32Canonical(b: Bytes)
    requires |b| == 4
    ensures Uint32ToBytes(BytesToUint32(b)) == b
  {
    Uint16Canonical(b[..2]);
    Uint16Canonical(b[2..]);
    assert BytesToUint32(b) / 0x1_0000 == BytesToUint16(b[..2]);
    assert b == b[..2] + b[2..];
  }

  // ---------- Byte strings as numbers ----------

  function Pow256(n: nat): (p: nat)
    ensures p > 0
  {
    if n == 0 then 1 else 0x100 * Pow256(n - 1)
  }

  /** `big.Int.SetBytes`: the big-endian value of the first `n` bytes. */
  function BigEndian(b: Bytes, n: nat): nat
    requires n <= |b|
  {
    if n == 0 then 0 else BigEndian(b, n - 1) * 0x100 + b[n - 1]
  }

  lemma {:induction false} SamePrefix(b: Bytes, c: Bytes, n: nat)
    requires n <= |b| && n <= |c| && b[..n] == c[..n]
    ensures BigEndian(b, n) == BigEndian(c, n)
  {
    if n > 0 {
      assert b[..n][n - 1] == c[..n][n - 1];
      assert b[..n - 1] == b[..n][..n - 1] == c[..n][..n - 1] == c[..n - 1];
      SamePrefix(b, c, n - 1);
    }
  }

  lemma {:induction false} BigEndianBound(b: Bytes, n: nat)
    requires n <= |b|
    ensures BigEndian(b, n) < Pow256(n)
  {
    if n > 0 {
      BigEndianBound(b, n - 1);
    }
  }

  lemma AtLeastOnce(k: nat, m: nat)
    requires k > 0
    ensures k * m >= m
  {
  }

  lemma SmallerQuotient(m: nat, q: nat, q': nat, r: nat)
    requires q < q' && r < m
    ensures q * m + r < q' * m
  {
    AtLeastOnce(q' - q, m);
    assert (q' - q) * m == q' * m - q * m;
  }

  lemma QuotientIs(n: nat, m: nat, q: nat, r: nat)
    requires n == q * m + r && r < m
    ensures n / m == q
  {
    var q' := n / m;
    assert n == q' * m + n % m;
    if q < q' {
      SmallerQuotient(m, q, q', r);
    } else if q' < q {
      SmallerQuotient(m, q', q, n % m);
    }
  }

  lemma DropDigit(a: nat, d: Byte, p: nat)
    requires p > 0
    ensures (a * 0x100 + d) / (0x100 * p) == a / p
  {
    var q, r := a / p, a % p;
    assert a == q * p + r;
    assert a * 0x100 + d == q * (0x100 * p) + (0x100 * r + d);
    QuotientIs(a * 0x100 + d, 0x100 * p, q, 0x100 * r + d);
  }

  /** The bytes are the base-256 digits of the number, the first the most significant. */
  lemma {:induction false} BigEndianDigit(b: Bytes, n: nat, i: nat)
    requires i < n <= |b|
    ensures BigEndian(b, n) / Pow256(n - 1 - i) % 0x100 == b[i]
  {
    if i < n - 1 {
      BigEndianDigit(b, n - 1, i);
      DropDigit(BigEndian(b, n - 1), b[n - 1], Pow256(n - 2 - i));
      assert Pow256(n - 1 - i) == 0x100 * Pow256(n - 2 - i);
    }
  }

  /** The first byte weighs more than all others together. */
  lemma {:induction false} BigEndianFirst(b: Bytes, n: nat)
    requires 0 < n <= |b|
    ensures BigEndian(b, n) == b[0] * Pow256(n - 1) + BigEndian(b[1..], n - 1)
  {
    if n > 1 {
      BigEndianFirst(b, n - 1);
      assert b[0] * Pow256(n - 2) * 0x100 == b[0] * Pow256(n - 1);
    }
  }
}
