/**
 Block digests: the fold of a block function over a padded message, and how a
 64-bit length is counted in two 32-bit words (RFC 1321 sections 3.1 to 3.4,
 FIPS 180-4 section 5.1.1).  The block function is a parameter.
 */
module Digests {
  import opened CInts
  import opened Mbufs

  type Words = seq<nat>

  type BlockFunction = (Words, seq<byte>) -> Words

  const BLOCK: nat := 64
  const WORD: nat := 0x1_0000_0000
  const COUNT_RANGE: nat := WORD * WORD

  /** The block function over all full blocks, first to last; a last part shorter than a block is left. */
  function Fold(f: BlockFunction, iv: Words, m: seq<byte>): Words
    decreases |m|
  {
    if |m| < BLOCK then iv else Fold(f, f(iv, m[..BLOCK]), m[BLOCK..])
  }

  function Whole(m: seq<byte>): (n: nat)
    ensures n <= |m| < n + BLOCK && n % BLOCK == 0
  {
    |m| - |m| % BLOCK
  }

  lemma {:induction false} FoldNext(f: BlockFunction, iv: Words, m: seq<byte>, n: nat)
    requires n % BLOCK == 0 && n + BLOCK <= |m|
    ensures Fold(f, iv, m[..n + BLOCK]) == f(Fold(f, iv, m[..n]), m[n..n + BLOCK])
    decreases n
  {
    if n == 0 {
      assert m[..BLOCK][..BLOCK] == m[0..BLOCK] == m[..BLOCK];
      assert m[..BLOCK][BLOCK..] == [];
      assert m[..0] == [];
    } else {
      var rest := m[BLOCK..];
      assert m[..n + BLOCK][..BLOCK] == m[..BLOCK] && m[..n + BLOCK][BLOCK..] == rest[..n];
      assert m[..n][..BLOCK] == m[..BLOCK] && m[..n][BLOCK..] == rest[..n - BLOCK];
      assert rest[n - BLOCK..n] == m[n..n + BLOCK];
      Blocks(n);
      FoldNext(f, f(iv, m[..BLOCK]), rest, n - BLOCK);
    }
  }

  lemma Blocks(n: nat)
    requires n % BLOCK == 0 && n > 0
    ensures n >= BLOCK && (n - BLOCK) % BLOCK == 0
  {
  }

  /** Only the full blocks matter. */
  lemma {:induction false} FoldWhole(f: BlockFunction, iv: Words, m: seq<byte>)
    ensures Fold(f, iv, m) == Fold(f, iv, m[..Whole(m)])
    decreases |m|
  {
    if |m| >= BLOCK {
      var rest := m[BLOCK..];
      FoldWhole(f, f(iv, m[..BLOCK]), rest);
      assert Whole(rest) == Whole(m) - BLOCK;
      assert m[..Whole(m)][..BLOCK] == m[..BLOCK] && m[..Whole(m)][BLOCK..] == rest[..Whole(rest)];
    }
  }

  // ---- the bit count

  /** Two words, low first, after counting len more bytes: carry of the low word, and the bits of len that it cannot hold. */
  function Counted(lo: nat, hi: nat, len: nat): (r: (nat, nat))
    requires lo < WORD && hi < WORD
    ensures r.0 < WORD && r.1 < WORD
  {
    var len32 := len % WORD;
    var lo' := (lo + len32 * 8 % WORD) % WORD;
    var carry := if lo' < lo then 1 else 0;
    (lo', (hi + carry + len32 / 0x2000_0000) % WORD)
  }

  function Count(lo: nat, hi: nat): nat {
    hi * WORD + lo
  }

  lemma Eighths(len: nat)
    requires len < WORD
    ensures len * 8 == len / 0x2000_0000 * WORD + len * 8 % WORD
  {
  }

  lemma Carry(lo: nat, add: nat)
    requires lo < WORD && add < WORD
    ensures var s := (lo + add) % WORD; lo + add == s + if s < lo then WORD else 0
  {
  }

  lemma Wrapped(hi: nat, lo: nat)
    requires lo < WORD
    ensures (hi * WORD + lo) % COUNT_RANGE == hi % WORD * WORD + lo
  {
    var q, r := hi / WORD, hi % WORD;
    assert hi == q * WORD + r;
    assert hi * WORD + lo == q * COUNT_RANGE + (r * WORD + lo);
    assert r * WORD + lo < COUNT_RANGE;
    Reduced(q, r * WORD + lo);
  }

  lemma Reduced(q: nat, x: nat)
    requires x < COUNT_RANGE
    ensures (q * COUNT_RANGE + x) % COUNT_RANGE == x
  {
  }

  /** The words hold the count modulo 2^64, carry included, for a length that fits 32 bits. */
  lemma CountedRight(lo: nat, hi: nat, len: nat)
    requires lo < WORD && hi < WORD && len < WORD
    ensures var r := Counted(lo, hi, len); Count(r.0, r.1) == (Count(lo, hi) + 8 * len) % COUNT_RANGE
  {
    assert len % WORD == len;
    var add, q := len * 8 % WORD, len / 0x2000_0000;
    var s := (lo + add) % WORD;
    var carry := if s < lo then 1 else 0;
    Eighths(len);
    Carry(lo, add);
    CountSum(hi, lo, carry, q, s, add, len);
    Wrapped(hi + carry + q, s);
  }

  lemma CountSum(hi: nat, lo: nat, carry: nat, q: nat, s: nat, add: nat, len: nat)
    requires len * 8 == q * WORD + add && lo + add == s + carry * WORD
    ensures Count(lo, hi) + 8 * len == (hi + carry + q) * WORD + s
  {
  }

  lemma OtherRemainder(x: nat, d: nat)
    requires 0 < d < COUNT_RANGE
    ensures (x + d) % COUNT_RANGE != x % COUNT_RANGE
  {
  }

  lemma CountedLow(lo: nat, hi: nat, len: nat)
    requires lo < WORD && hi < WORD
    ensures Counted(lo, hi, len) == Counted(lo, hi, len % WORD)
  {
    assert len % WORD % WORD == len % WORD;
  }

  /** For any length memory can hold, the count is right exactly when the length fits 32 bits. */
  lemma CountedIff(lo: nat, hi: nat, len: nat)
    requires lo < WORD && hi < WORD && 8 * len < COUNT_RANGE
    ensures var r := Counted(lo, hi, len);
      Count(r.0, r.1) == (Count(lo, hi) + 8 * len) % COUNT_RANGE <==> len < WORD
  {
    if len < WORD {
      CountedRight(lo, hi, len);
    } else {
      CountedLow(lo, hi, len);
      CountedRight(lo, hi, len % WORD);
      CountLost(Count(lo, hi), len, len % WORD);
    }
  }

  lemma CountLost(c: nat, len: nat, low: nat)
    requires low < WORD <= len && 8 * len < COUNT_RANGE
    ensures (c + 8 * low) % COUNT_RANGE != (c + 8 * len) % COUNT_RANGE
  {
    OtherRemainder(c + 8 * low, 8 * (len - low));
  }

  /** The low word of a right count. */
  lemma LowWord(lo: nat, hi: nat, n: nat)
    requires lo < WORD && Count(lo, hi) == 8 * n % COUNT_RANGE
    ensures lo == 8 * n % WORD
  {
    var q := 8 * n / COUNT_RANGE;
    InParts(8 * n);
    assert 8 * n == (q * WORD + hi) * WORD + lo;
    SameRemainder(q * WORD + hi, lo, WORD);
    SmallRemainder(lo, WORD);
  }

  lemma InParts(x: nat)
    ensures x == x / COUNT_RANGE * COUNT_RANGE + x % COUNT_RANGE
  {
  }

  lemma SmallRemainder(x: nat, d: nat)
    requires x < d
    ensures x % d == x
  {
  }

  /** The low word stays right for data of any length. */
  lemma LowMore(lo: nat, hi: nat, n: nat, len: nat)
    requires hi < WORD && lo == 8 * n % WORD
    ensures Counted(lo, hi, len).0 == 8 * (n + len) % WORD
  {
    var a, k := 8 * n / WORD, len / WORD;
    var add := len % WORD * 8;
    var b := add / WORD;
    assert 8 * (n + len) == (a + 8 * k + b) * WORD + (lo + add % WORD);
    SameRemainder(a + 8 * k + b, lo + add % WORD, WORD);
  }

  lemma SameRemainder(q: nat, x: nat, d: nat)
    requires d > 0
    ensures (q * d + x) % d == x % d
  {
    var k, r := x / d, x % d;
    assert q * d + x == (q + k) * d + r;
    Remainder((q + k) * d + r, d, q + k, r);
  }

  /** Where in its block the next byte of the message goes. */
  lemma BlockPlace(lo: nat, n: nat)
    requires lo == 8 * n % WORD
    ensures lo / 8 % BLOCK == n % BLOCK
  {
    var k := 8 * n / WORD;
    assert 8 * n == k * WORD + lo;
    var j := n - k * 0x2000_0000;
    assert lo == 8 * j && n == k * 0x80_0000 * BLOCK + j;
    SameRemainder(k * 0x80_0000, j, BLOCK);
  }

  // ---- padding

  function Zeros(k: nat): (z: seq<byte>)
    ensures |z| == k && forall i | 0 <= i < k :: z[i] == 0
  {
    if k == 0 then [] else [0] + Zeros(k - 1)
  }

  /** Zeros between the marker and the length, so that the whole ends with a block. */
  function Gap(n: nat): nat {
    if n % BLOCK < 56 then 55 - n % BLOCK else 119 - n % BLOCK
  }

  /** The standard padding: a one bit, zeros, and the length. */
  function Padded(m: seq<byte>, length: seq<byte>): (p: seq<byte>)
    requires |length| == 8
    ensures |p| % BLOCK == 0
  {
    m + [0x80] + Zeros(Gap(|m|)) + length
  }

  function ByteOf(n: nat, k: nat): byte {
    if k == 0 then n % 256 else if k == 1 then n / 0x100 % 256 else if k == 2 then n / 0x1_0000 % 256 else n / 0x100_0000 % 256
  }

  function Le32(n: nat): (s: seq<byte>)
    ensures |s| == 4
  {
    [ByteOf(n, 0), ByteOf(n, 1), ByteOf(n, 2), ByteOf(n, 3)]
  }

  function Be32(n: nat): (s: seq<byte>)
    ensures |s| == 4
  {
    [ByteOf(n, 3), ByteOf(n, 2), ByteOf(n, 1), ByteOf(n, 0)]
  }

  function LeWords(ws: Words): seq<byte> {
    if ws == [] then [] else Le32(ws[0]) + LeWords(ws[1..])
  }

  function BeWords(ws: Words): seq<byte> {
    if ws == [] then [] else Be32(ws[0]) + BeWords(ws[1..])
  }

  /** The low word of a bit count first, as MD5 has it. */
  function Le64(n: nat): (s: seq<byte>)
    ensures |s| == 8
  {
    Le32(n % WORD) + Le32(n / WORD)
  }

  /** The high word first, as SHA-1 has it. */
  function Be64(n: nat): (s: seq<byte>)
    ensures |s| == 8
  {
    Be32(n / WORD) + Be32(n % WORD)
  }

  function BitCount(m: seq<byte>): nat {
    8 * |m| % COUNT_RANGE
  }

  const MD5_IV: Words := [0x67452301, 0xefcdab89, 0x98badcfe, 0x10325476]
  const SHA1_IV: Words := [0x67452301, 0xEFCDAB89, 0x98BADCFE, 0x10325476, 0xC3D2E1F0]

  function Md5(f: BlockFunction, m: seq<byte>): seq<byte> {
    LeWords(Fold(f, MD5_IV, Padded(m, Le64(BitCount(m)))))
  }

  function Sha1(f: BlockFunction, m: seq<byte>): seq<byte> {
    BeWords(Fold(f, SHA1_IV, Padded(m, Be64(BitCount(m)))))
  }

  // ---- what contexts need

  lemma StillTail(m: seq<byte>, data: seq<byte>)
    requires |m| % BLOCK + |data| < BLOCK
    ensures var x := m + data; Whole(x) == Whole(m) && x[..Whole(x)] == m[..Whole(m)] && x[Whole(x)..] == m[Whole(m)..] + data
  {
  }

  lemma CountMore(lo: nat, hi: nat, m: seq<byte>, data: seq<byte>)
    requires lo < WORD && hi < WORD && Count(lo, hi) == BitCount(m) && |data| < WORD
    ensures var r := Counted(lo, hi, |data|); Count(r.0, r.1) == BitCount(m + data)
  {
    CountedRight(lo, hi, |data|);
    AddMod(8 * |m|, 8 * |data|);
  }

  lemma AddMod(a: nat, b: nat)
    ensures (a % COUNT_RANGE + b) % COUNT_RANGE == (a + b) % COUNT_RANGE
  {
    var q := a / COUNT_RANGE;
    var x := a % COUNT_RANGE + b;
    assert a + b == q * COUNT_RANGE + x;
    var p := x / COUNT_RANGE;
    assert x == p * COUNT_RANGE + x % COUNT_RANGE;
    assert a + b == (q + p) * COUNT_RANGE + x % COUNT_RANGE;
    Reduced(q + p, x % COUNT_RANGE);
  }

  lemma EndTail(x: seq<byte>, base: nat, off: nat, data: seq<byte>)
    requires base + |data| == |x| && x[base..] == data && off <= |data| && |data| - off < BLOCK && (base + off) % BLOCK == 0
    ensures Whole(x) == base + off && x[Whole(x)..] == data[off..] && |data| - off == |x| % BLOCK
  {
  }

  lemma SplitCount(lo: nat, hi: nat, n: nat)
    requires lo < WORD && Count(lo, hi) == n
    ensures n % WORD == lo && n / WORD == hi
  {
  }

  lemma {:induction false} ZerosMore(a: nat, b: nat)
    ensures Zeros(a + b) == Zeros(a) + Zeros(b)
  {
    forall i | 0 <= i < a + b ensures Zeros(a + b)[i] == (Zeros(a) + Zeros(b))[i] {}
  }

  function Joined(pieces: seq<seq<byte>>): seq<byte> {
    if pieces == [] then [] else pieces[0] + Joined(pieces[1..])
  }

  /** The two words after counting each piece. */
  function CountedAll(lo: nat, hi: nat, pieces: seq<seq<byte>>): (r: (nat, nat))
    requires lo < WORD && hi < WORD
    ensures r.0 < WORD && r.1 < WORD
    decreases |pieces|
  {
    if pieces == [] then (lo, hi)
    else
      var r := Counted(lo, hi, |pieces[0]|);
      CountedAll(r.0, r.1, pieces[1..])
  }

  ghost predicate AllShort(pieces: seq<seq<byte>>) {
    forall i | 0 <= i < |pieces| :: |pieces[i]| < WORD
  }

  /** The bytes that are counted: of each piece those that 32 bits can tell. */
  function LowBytes(pieces: seq<seq<byte>>): nat {
    if pieces == [] then 0 else |pieces[0]| % WORD + LowBytes(pieces[1..])
  }

  lemma {:induction false} LowBytesIff(pieces: seq<seq<byte>>)
    ensures LowBytes(pieces) <= |Joined(pieces)|
    ensures LowBytes(pieces) == |Joined(pieces)| <==> AllShort(pieces)
    decreases |pieces|
  {
    if pieces != [] {
      var rest := pieces[1..];
      LowBytesIff(rest);
      assert AllShort(pieces) <==> |pieces[0]| < WORD && AllShort(rest) by {
        assert forall i | 0 <= i < |rest| :: rest[i] == pieces[i + 1];
        if |pieces[0]| < WORD && AllShort(rest) {
          forall i | 0 <= i < |pieces| ensures |pieces[i]| < WORD {
            if i > 0 { assert |rest[i - 1]| < WORD; }
          }
        }
      }
    }
  }

  lemma {:induction false} CountedLowBytes(lo: nat, hi: nat, pieces: seq<seq<byte>>)
    requires lo < WORD && hi < WORD
    ensures var r := CountedAll(lo, hi, pieces); Count(r.0, r.1) == (Count(lo, hi) + 8 * LowBytes(pieces)) % COUNT_RANGE
    decreases |pieces|
  {
    hide Counted, Count;
    if pieces == [] {
      CountBelow(lo, hi);
    } else {
      var len := |pieces[0]|;
      var r := Counted(lo, hi, len);
      CountedLow(lo, hi, len);
      CountedRight(lo, hi, len % WORD);
      CountedLowBytes(r.0, r.1, pieces[1..]);
      AddMod(Count(lo, hi) + 8 * (len % WORD), 8 * LowBytes(pieces[1..]));
    }
  }

  lemma CountBelow(lo: nat, hi: nat)
    requires lo < WORD && hi < WORD
    ensures Count(lo, hi) % COUNT_RANGE == Count(lo, hi)
  {
  }

  /** A message whose bit count fits 64 bits is counted right exactly if each of its pieces is shorter than 2^32. */
  lemma CountedAllIff(pieces: seq<seq<byte>>)
    requires 8 * |Joined(pieces)| < COUNT_RANGE
    ensures var r := CountedAll(0, 0, pieces); Count(r.0, r.1) == 8 * |Joined(pieces)| <==> AllShort(pieces)
  {
    CountedLowBytes(0, 0, pieces);
    LowBytesIff(pieces);
    SmallMod(8 * LowBytes(pieces));
  }

  lemma SmallMod(x: nat)
    requires x < COUNT_RANGE
    ensures x % COUNT_RANGE == x
  {
  }

  /** Modulo 2^64 the count is right for short pieces whatever their number. */
  lemma CountedAllShort(pieces: seq<seq<byte>>)
    requires AllShort(pieces)
    ensures var r := CountedAll(0, 0, pieces); Count(r.0, r.1) == BitCount(Joined(pieces))
  {
    CountedLowBytes(0, 0, pieces);
    LowBytesIff(pieces);
  }

  lemma JoinedNext(before: seq<byte>, pieces: seq<seq<byte>>, i: nat)
    requires i < |pieces|
    ensures before + Joined(pieces[i..]) == before + pieces[i] + Joined(pieces[i + 1..])
  {
    assert pieces[i..][1..] == pieces[i + 1..];
  }

  lemma JoinedEnd(before: seq<byte>, pieces: seq<seq<byte>>)
    ensures before + Joined(pieces[|pieces|..]) == before
  {
  }
}
