/** The order the Merkle tree sorts by: string comparison of lower-case hex. */
module HexOrder {
  import opened Prelude
  import opened Encoding

  function Digit(d: int): (c: char)
    requires 0 <= d < 16
  {
    if d < 10 then ('0' as int + d) as char else ('a' as int + d - 10) as char
  }

  /** `Hash.Hex()` without its constant "0x" prefix, which no comparison depends on. */
  function Hex(b: Bytes): string {
    if b == [] then "" else [Digit(b[0] / 16), Digit(b[0] % 16)] + Hex(b[1..])
  }

  /** Go's `<=` on strings. */
  predicate StringLe(s: string, t: string) {
    s == "" || (t != "" && (s[0] < t[0] || (s[0] == t[0] && StringLe(s[1..], t[1..]))))
  }

  predicate HexLe(x: Bytes, y: Bytes) {
    StringLe(Hex(x), Hex(y))
  }

  lemma {:induction false} StringTotal(s: string, t: string)
    ensures StringLe(s, t) || StringLe(t, s)
  {
    if s != "" && t != "" && s[0] == t[0] {
      StringTotal(s[1..], t[1..]);
    }
  }

  lemma {:induction false} StringTransitive(s: string, t: string, u: string)
    requires StringLe(s, t) && StringLe(t, u)
    ensures StringLe(s, u)
  {
    if s != "" && s[0] == t[0] && t[0] == u[0] {
      StringTransitive(s[1..], t[1..], u[1..]);
    }
  }

  lemma {:induction false} StringAntisymmetric(s: string, t: string)
    requires StringLe(s, t) && StringLe(t, s)
    ensures s == t
  {
    if s != "" {
      StringAntisymmetric(s[1..], t[1..]);
      assert s == [s[0]] + s[1..] && t == [t[0]] + t[1..];
    }
  }

  lemma {:induction false} HexInjective(x: Bytes, y: Bytes)
    requires Hex(x) == Hex(y)
    ensures x == y
  {
    if x != [] && y != [] {
      var hx, hy := Hex(x), Hex(y);
      assert hx[0] == hy[0] && hx[1] == hy[1];
      assert x[0] == y[0];
      assert hx[2..] == Hex(x[1..]) && hy[2..] == Hex(y[1..]);
      HexInjective(x[1..], y[1..]);
      assert x == [x[0]] + x[1..] && y == [y[0]] + y[1..];
    }
  }

  /** Hex order is a total order: no two different byte strings are tied. */
  lemma HexAntisymmetric(x: Bytes, y: Bytes)
    requires HexLe(x, y) && HexLe(y, x)
    ensures x == y
  {
    StringAntisymmetric(Hex(x), Hex(y));
    HexInjective(x, y);
  }

  lemma HexTotal(x: Bytes, y: Bytes)
    ensures HexLe(x, y) || HexLe(y, x)
  {
    StringTotal(Hex(x), Hex(y));
  }

  lemma HexTransitive(x: Bytes, y: Bytes, z: Bytes)
    requires HexLe(x, y) && HexLe(y, z)
    ensures HexLe(x, z)
  {
    StringTransitive(Hex(x), Hex(y), Hex(z));
  }

  lemma DigitOrder(d: int, e: int)
    requires 0 <= d < 16 && 0 <= e < 16
    ensures Digit(d) < Digit(e) <==> d < e
    ensures Digit(d) == Digit(e) <==> d == e
  {
  }

  /** Hex order compares the first bytes that differ. */
  lemma HexStep(x: Bytes, y: Bytes)
    requires x != [] && y != []
    ensures HexLe(x, y) <==> x[0] < y[0] || (x[0] == y[0] && HexLe(x[1..], y[1..]))
  {
    DigitOrder(x[0] / 16, y[0] / 16);
    DigitOrder(x[0] % 16, y[0] % 16);
    var s, t := Hex(x), Hex(y);
    assert s[1..][1..] == Hex(x[1..]) && t[1..][1..] == Hex(y[1..]);
    assert s[1..][0] == s[1] && t[1..][0] == t[1];
    assert StringLe(s[1..], t[1..]) <==> s[1] < t[1] || (s[1] == t[1] && HexLe(x[1..], y[1..]));
    assert StringLe(s, t) <==> s[0] < t[0] || (s[0] == t[0] && StringLe(s[1..], t[1..]));
    assert x[0] == 16 * (x[0] / 16) + x[0] % 16 && y[0] == 16 * (y[0] / 16) + y[0] % 16;
  }

  lemma LeadingDigit(x: nat, y: nat, u: nat, v: nat, p: nat)
    requires u < p && v < p
    ensures x * p + u <= y * p + v <==> x < y || (x == y && u <= v)
  {
    if x < y {
      SmallerQuotient(p, x, y, u);
    } else if y < x {
      SmallerQuotient(p, y, x, v);
    }
  }

  /** Among byte strings of one length hex order is the order of the numbers they stand for. */
  lemma {:induction false} HexIsNumeric(x: Bytes, y: Bytes)
    requires |x| == |y|
    ensures HexLe(x, y) <==> BigEndian(x, |x|) <= BigEndian(y, |y|)
  {
    if x != [] {
      hide HexLe, BigEndian, Pow256;
      var n := |x| - 1;
      HexStep(x, y);
      HexIsNumeric(x[1..], y[1..]);
      BigEndianFirst(x, n + 1);
      BigEndianFirst(y, n + 1);
      BigEndianBound(x[1..], n);
      BigEndianBound(y[1..], n);
      LeadingDigit(x[0], y[0], BigEndian(x[1..], n), BigEndian(y[1..], n), Pow256(n));
    }
  }
}
