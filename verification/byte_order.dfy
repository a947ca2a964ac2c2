/**
 * Byte strings and the two ways the transaction code compares them:
 * Python's lexicographic `bytes < bytes` (used by `Transaction.__lt__`) and
 * the unsigned big-endian integer value `utils.big_endian_to_int` (used by
 * `Transaction.__hash__`).  For byte strings of equal length, such as the
 * 32-byte transaction digests, the two orders coincide.
 */
module ByteOrder {

  type Byte = bv8
  type Bytes = seq<Byte>

  /** 256^n, the number of distinct byte strings of length n. */
  function Pow256(n: nat): (r: nat)
    ensures r >= 1
  {
    if n == 0 then 1 else 256 * Pow256(n - 1)
  }

  /** TT256 from utils: 2^256 = 256^32, the exclusive upper bound of nonce, gas_price and value. */
  const TT256: nat := Pow256(32)

  lemma MulMonotone(a: int, b: int, c: nat)
    requires a <= b
    ensures a * c <= b * c
  {
  }

  /** One more leading digit in base 256 keeps the value below the next power. */
  lemma LeadingDigitBound(d: nat, rest: nat, p: nat)
    requires d < 256 && rest < p
    ensures d * p + rest < 256 * p
  {
    MulMonotone(d + 1, 256, p);
    assert (d + 1) * p == d * p + p;
  }

  /** The unsigned integer a byte string denotes, most significant byte first. */
  function BigEndianToInt(s: Bytes): (n: nat)
    ensures n < Pow256(|s|)
  {
    if s == [] then 0
    else
      var digit, weight, rest := s[0] as nat, Pow256(|s| - 1), BigEndianToInt(s[1..]);
      LeadingDigitBound(digit, rest, weight);
      digit * weight + rest
  }

  /** Python's `a < b` on bytes: the first differing byte decides; a proper prefix is smaller. */
  predicate LexLess(a: Bytes, b: Bytes)
  {
    if b == [] then false
    else if a == [] then true
    else if a[0] != b[0] then a[0] < b[0]
    else LexLess(a[1..], b[1..])
  }

  /** On equal lengths, lexicographic order is the order of the big-endian values. */
  lemma {:induction false} LexLessIsNumericLess(a: Bytes, b: Bytes)
    requires |a| == |b|
    ensures LexLess(a, b) <==> BigEndianToInt(a) < BigEndianToInt(b)
  {
    if a != [] {
      if a[0] == b[0] {
        LexLessIsNumericLess(a[1..], b[1..]);
      } else if a[0] < b[0] {
        LeadingDigitOrder(a, b);
      } else {
        LeadingDigitOrder(b, a);
      }
    }
  }

  /** A smaller leading byte makes the whole equal-length string numerically smaller. */
  lemma LeadingDigitOrder(a: Bytes, b: Bytes)
    requires |a| == |b| > 0 && a[0] < b[0]
    ensures BigEndianToInt(a) < BigEndianToInt(b)
  {
    var p := Pow256(|a| - 1);
    var ra, rb := BigEndianToInt(a[1..]), BigEndianToInt(b[1..]);
    assert BigEndianToInt(a) == a[0] as nat * p + ra;
    assert BigEndianToInt(b) == b[0] as nat * p + rb;
    SmallerDigitFirst(a[0] as nat, b[0] as nat, ra, rb, p);
  }

  /** The arithmetic step of `LeadingDigitOrder`: a smaller digit outweighs any lower remainder. */
  lemma SmallerDigitFirst(x: nat, y: nat, ra: nat, rb: nat, p: nat)
    requires x < y && ra < p
    ensures x * p + ra < y * p + rb
  {
    MulMonotone(x + 1, y, p);
    assert (x + 1) * p == x * p + p;
  }

  lemma {:induction false} LexLessIrreflexive(a: Bytes)
    ensures !LexLess(a, a)
  {
    if a != [] {
      LexLessIrreflexive(a[1..]);
    }
  }

  /** Two different byte strings of the same length are ordered one way or the other. */
  lemma {:induction false} LexLessConnected(a: Bytes, b: Bytes)
    requires |a| == |b| && a != b
    ensures LexLess(a, b) || LexLess(b, a)
  {
    if a[0] == b[0] {
      assert a == [a[0]] + a[1..] && b == [b[0]] + b[1..];
      LexLessConnected(a[1..], b[1..]);
    }
  }

  lemma LexLessTransitive(a: Bytes, b: Bytes, c: Bytes)
    requires |a| == |b| == |c|
    requires LexLess(a, b) && LexLess(b, c)
    ensures LexLess(a, c)
  {
    LexLessIsNumericLess(a, b);
    LexLessIsNumericLess(b, c);
    LexLessIsNumericLess(a, c);
  }

  /** `big_endian_to_int` tells equal-length byte strings apart. */
  lemma BigEndianInjective(a: Bytes, b: Bytes)
    requires |a| == |b|
    ensures BigEndianToInt(a) == BigEndianToInt(b) <==> a == b
  {
    if a != b {
      LexLessConnected(a, b);
      LexLessIsNumericLess(a, b);
      LexLessIsNumericLess(b, a);
    }
  }
}
