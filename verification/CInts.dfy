/** 32-bit ints of two's complement, as the C code computes with them, powers of two, and remainders. */
module CInts {
  const UINT_RANGE: int := 0x1_0000_0000
  const INT_RANGE: int := 0x8000_0000

  /** What an int keeps of a number. */
  function AsInt(n: int): (i: int)
    ensures -INT_RANGE <= i < INT_RANGE
    ensures -INT_RANGE <= n < INT_RANGE ==> i == n
  {
    (n + INT_RANGE) % UINT_RANGE - INT_RANGE
  }

  /** It differs from the number by whole multiples of 2^32. */
  lemma AsIntWraps(n: int) returns (k: int)
    ensures AsInt(n) == n + k * 0x1_0000_0000
  {
    k := -((n + INT_RANGE) / UINT_RANGE);
  }

  lemma AsIntAdd(a: int, b: int)
    ensures AsInt(AsInt(a) + b) == AsInt(a + b)
  {
    var q := (a + INT_RANGE) / UINT_RANGE;
    assert AsInt(a) + q * UINT_RANGE == a;
    Wrapped(AsInt(a) + b + INT_RANGE, q);
  }

  lemma Wrapped(x: int, q: int)
    ensures (x + q * UINT_RANGE) % UINT_RANGE == x % UINT_RANGE
  {
    var k, r := x / UINT_RANGE, x % UINT_RANGE;
    assert x + q * UINT_RANGE == (k + q) * UINT_RANGE + r;
  }

  lemma Remainder(a: nat, d: nat, q: nat, r: nat)
    requires r < d && a == q * d + r
    ensures a % d == r
  {
    var q' := a / d;
    assert a == q' * d + a % d;
    if q < q' {
      Apart(q, q', d);
    } else if q' < q {
      Apart(q', q, d);
    }
  }

  lemma Apart(x: nat, y: nat, d: nat)
    requires x < y
    ensures x * d + d <= y * d
  {
    assert y * d == (x + 1) * d + (y - x - 1) * d;
  }

  lemma Quotient(a: nat, d: nat, q: nat, r: nat)
    requires r < d && a == q * d + r
    ensures a / d == q
  {
    Remainder(a, d, q, r);
    var q' := a / d;
    assert a == q' * d + r;
    if q < q' {
      Apart(q, q', d);
    } else if q' < q {
      Apart(q', q, d);
    }
  }

  function Pow2(n: nat): (p: nat)
    ensures p >= 1
  {
    if n == 0 then 1 else 2 * Pow2(n - 1)
  }
}
