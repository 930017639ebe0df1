/**
 What the digests feed to and read from the block function, byte by byte: block
 by block application, the layout of a padded message, the order of bytes in
 words, and the initial words.
 */
module DigestLayout {
  import opened Mbufs
  import opened Digests

  // ---- the fold

  /** The states between blocks: each comes from the one before and the block between them. */
  ghost predicate States(f: BlockFunction, iv: Words, m: seq<byte>, ws: seq<Words>) {
    |ws| == |m| / BLOCK + 1 && ws[0] == iv
    && forall i | 0 <= i < |m| / BLOCK :: ws[i + 1] == f(ws[i], m[BLOCK * i..BLOCK * (i + 1)])
  }

  lemma StatesMore(f: BlockFunction, iv: Words, m: seq<byte>, ws: seq<Words>)
    requires |m| >= BLOCK && States(f, f(iv, m[..BLOCK]), m[BLOCK..], ws)
    ensures States(f, iv, m, [iv] + ws)
  {
    var all, rest := [iv] + ws, m[BLOCK..];
    assert |m| / BLOCK == |rest| / BLOCK + 1;
    forall i | 0 <= i < |m| / BLOCK ensures all[i + 1] == f(all[i], m[BLOCK * i..BLOCK * (i + 1)]) {
      if i > 0 {
        assert ws[i] == f(ws[i - 1], rest[BLOCK * (i - 1)..BLOCK * i]);
        assert rest[BLOCK * (i - 1)..BLOCK * i] == m[BLOCK * i..BLOCK * (i + 1)];
      }
    }
  }

  /** Folding is that chain, from the initial words to the last state. */
  lemma {:induction false} FoldIs(f: BlockFunction, iv: Words, m: seq<byte>) returns (ws: seq<Words>)
    ensures States(f, iv, m, ws) && Fold(f, iv, m) == ws[|m| / BLOCK]
    decreases |m|
  {
    if |m| < BLOCK {
      ws := [iv];
    } else {
      var more := FoldIs(f, f(iv, m[..BLOCK]), m[BLOCK..]);
      StatesMore(f, iv, m, more);
      ws := [iv] + more;
    }
  }

  // ---- bytes of numbers

  function FromLittle(s: seq<byte>): nat {
    if s == [] then 0 else s[0] + 256 * FromLittle(s[1..])
  }

  function FromBig(s: seq<byte>): nat {
    if s == [] then 0 else FromBig(s[..|s| - 1]) * 256 + s[|s| - 1]
  }

  lemma FourLittle(a: byte, b: byte, c: byte, d: byte)
    ensures FromLittle([a, b, c, d]) == a + 256 * (b + 256 * (c + 256 * d))
  {
    assert [a, b, c, d][1..] == [b, c, d] && [b, c, d][1..] == [c, d] && [c, d][1..] == [d] && [d][1..] == [];
    assert FromLittle([d]) == d;
    assert FromLittle([c, d]) == c + 256 * d;
    assert FromLittle([b, c, d]) == b + 256 * (c + 256 * d);
  }

  lemma FourBig(a: byte, b: byte, c: byte, d: byte)
    ensures FromBig([d, c, b, a]) == a + 256 * (b + 256 * (c + 256 * d))
  {
    assert [d, c, b, a][..3] == [d, c, b] && [d, c, b][..2] == [d, c] && [d, c][..1] == [d] && [d][..0] == [];
    assert FromBig([d]) == d;
    assert FromBig([d, c]) == d * 256 + c;
    assert FromBig([d, c, b]) == (d * 256 + c) * 256 + b;
  }

  lemma Parts(n: nat)
    requires n < WORD
    ensures n == ByteOf(n, 0) + 256 * (ByteOf(n, 1) + 256 * (ByteOf(n, 2) + 256 * ByteOf(n, 3)))
  {
    var a, b, c := n / 256, n / 0x1_0000, n / 0x100_0000;
    assert a / 256 == b && b / 256 == c && c < 256;
    assert n == a * 256 + n % 256 && a == b * 256 + a % 256 && b == c * 256 + b % 256;
  }

  /** The four bytes of a word, read in their order, are the word again. */
  lemma WordBack(n: nat)
    requires n < WORD
    ensures FromLittle(Le32(n)) == n && FromBig(Be32(n)) == n
  {
    hide ByteOf;
    Parts(n);
    FourLittle(ByteOf(n, 0), ByteOf(n, 1), ByteOf(n, 2), ByteOf(n, 3));
    FourBig(ByteOf(n, 0), ByteOf(n, 1), ByteOf(n, 2), ByteOf(n, 3));
  }

  lemma {:induction false} LittleJoined(a: seq<byte>, b: seq<byte>)
    requires |a| == 4
    ensures FromLittle(a + b) == FromLittle(a) + WORD * FromLittle(b)
  {
    FourLittle(a[0], a[1], a[2], a[3]);
    assert a == [a[0], a[1], a[2], a[3]];
    var s := a + b;
    assert s[1..][1..] == s[2..] && s[2..][1..] == s[3..] && s[3..][1..] == b;
    assert FromLittle(s) == s[0] + 256 * FromLittle(s[1..]);
    assert FromLittle(s[1..]) == s[1] + 256 * FromLittle(s[2..]);
    assert FromLittle(s[2..]) == s[2] + 256 * FromLittle(s[3..]);
    assert FromLittle(s[3..]) == s[3] + 256 * FromLittle(b);
  }

  lemma {:induction false} BigJoined(a: seq<byte>, b: seq<byte>)
    requires |b| == 4
    ensures FromBig(a + b) == FromBig(a) * WORD + FromBig(b)
  {
    FourBig(b[3], b[2], b[1], b[0]);
    assert b == [b[0], b[1], b[2], b[3]];
    var n, s := |a|, a + b;
    assert s[..n + 3][..n + 2] == s[..n + 2] && s[..n + 2][..n + 1] == s[..n + 1] && s[..n + 1][..n] == a;
    assert FromBig(s) == FromBig(s[..n + 3]) * 256 + s[n + 3];
    assert FromBig(s[..n + 3]) == FromBig(s[..n + 2]) * 256 + s[n + 2];
    assert FromBig(s[..n + 2]) == FromBig(s[..n + 1]) * 256 + s[n + 1];
    assert FromBig(s[..n + 1]) == FromBig(a) * 256 + s[n];
  }

  /** A bit count of 64 bits, as MD5 and as SHA-1 append it. */
  lemma CountBack(n: nat)
    requires n < COUNT_RANGE
    ensures FromLittle(Le64(n)) == n && FromBig(Be64(n)) == n
  {
    hide Le32, Be32;
    assert n == n / WORD * WORD + n % WORD;
    WordBack(n % WORD);
    WordBack(n / WORD);
    LittleJoined(Le32(n % WORD), Le32(n / WORD));
    BigJoined(Be32(n / WORD), Be32(n % WORD));
  }

  /** Word i of a digest lies in its bytes from 4 * i on. */
  lemma {:induction false} WordsAt(ws: Words, i: nat)
    requires i < |ws| && ws[i] < WORD
    ensures |LeWords(ws)| == |BeWords(ws)| == 4 * |ws|
    ensures FromLittle(LeWords(ws)[4 * i..4 * i + 4]) == ws[i]
    ensures FromBig(BeWords(ws)[4 * i..4 * i + 4]) == ws[i]
  {
    hide Le32, Be32;
    WordsLong(ws);
    if i == 0 {
      WordBack(ws[0]);
      assert LeWords(ws)[..4] == Le32(ws[0]) && BeWords(ws)[..4] == Be32(ws[0]);
    } else {
      WordsAt(ws[1..], i - 1);
      assert LeWords(ws)[4 * i..4 * i + 4] == LeWords(ws[1..])[4 * (i - 1)..4 * (i - 1) + 4];
      assert BeWords(ws)[4 * i..4 * i + 4] == BeWords(ws[1..])[4 * (i - 1)..4 * (i - 1) + 4];
    }
  }

  lemma {:induction false} WordsLong(ws: Words)
    ensures |LeWords(ws)| == |BeWords(ws)| == 4 * |ws|
  {
    if ws != [] { WordsLong(ws[1..]); }
  }

  // ---- the padded message

  /** The message, a one bit, as few zeros as let the whole end with a block, and the length in its last eight bytes. */
  lemma PaddedIs(m: seq<byte>, length: seq<byte>)
    requires |length| == 8
    ensures var p := Padded(m, length); var n := |p|;
      && |m| + 9 <= n < |m| + 9 + 64 && n % 64 == 0
      && p[..|m|] == m && p[|m|] == 128 && p[n - 8..] == length
      && forall i | |m| < i < n - 8 :: p[i] == 0
  {
  }

  /** MD5 of a message is the chain over its padded form, with the length in bits modulo 2^64, least significant byte first. */
  lemma Md5Is(f: BlockFunction, m: seq<byte>) returns (p: seq<byte>, ws: seq<Words>)
    ensures |p| >= |m| + 9 && p[..|m|] == m && FromLittle(p[|p| - 8..]) == 8 * |m| % COUNT_RANGE
    ensures p == Padded(m, p[|p| - 8..]) && States(f, MD5_IV, p, ws) && Md5(f, m) == LeWords(ws[|p| / 64])
  {
    var length := Le64(BitCount(m));
    p := Padded(m, length);
    PaddedIs(m, length);
    CountBack(BitCount(m));
    ws := FoldIs(f, MD5_IV, p);
  }

  /** SHA-1 has the most significant byte first. */
  lemma Sha1Is(f: BlockFunction, m: seq<byte>) returns (p: seq<byte>, ws: seq<Words>)
    ensures |p| >= |m| + 9 && p[..|m|] == m && FromBig(p[|p| - 8..]) == 8 * |m| % COUNT_RANGE
    ensures p == Padded(m, p[|p| - 8..]) && States(f, SHA1_IV, p, ws) && Sha1(f, m) == BeWords(ws[|p| / 64])
  {
    var length := Be64(BitCount(m));
    p := Padded(m, length);
    PaddedIs(m, length);
    CountBack(BitCount(m));
    ws := FoldIs(f, SHA1_IV, p);
  }

  lemma FourWords(a: nat, b: nat, c: nat, d: nat)
    ensures LeWords([a, b, c, d]) == Le32(a) + Le32(b) + Le32(c) + Le32(d) && LeWords([a]) == Le32(a)
  {
    hide Le32, LeWords;
    assert [a, b, c, d] == [a] + [b, c, d] && [b, c, d] == [b] + [c, d] && [c, d] == [c] + [d];
    FirstWord(a, [b, c, d]);
    FirstWord(b, [c, d]);
    FirstWord(c, [d]);
    OneWord(d);
    OneWord(a);
    assert Le32(a) + (Le32(b) + (Le32(c) + Le32(d))) == Le32(a) + Le32(b) + Le32(c) + Le32(d);
  }

  lemma FirstWord(a: nat, rest: Words)
    ensures LeWords([a] + rest) == Le32(a) + LeWords(rest)
  {
    assert ([a] + rest)[1..] == rest;
  }

  lemma OneWord(a: nat)
    ensures LeWords([a]) == Le32(a)
  {
    FirstWord(a, []);
    assert [a] + [] == [a] && Le32(a) + [] == Le32(a);
  }

  lemma InitialWords()
    ensures Le32(MD5_IV[0]) == [0x01, 0x23, 0x45, 0x67] && Le32(MD5_IV[1]) == [0x89, 0xab, 0xcd, 0xef]
    ensures Le32(MD5_IV[2]) == [0xfe, 0xdc, 0xba, 0x98] && Le32(MD5_IV[3]) == [0x76, 0x54, 0x32, 0x10]
    ensures Be32(SHA1_IV[4]) == [0xc3, 0xd2, 0xe1, 0xf0]
  {
  }

  /** The initial bytes of MD5 count up and down again (RFC 1321 section 3.3); SHA-1 starts with the same words and has a fifth. */
  lemma InitialBytes()
    ensures LeWords(MD5_IV) == [0x01, 0x23, 0x45, 0x67, 0x89, 0xab, 0xcd, 0xef, 0xfe, 0xdc, 0xba, 0x98, 0x76, 0x54, 0x32, 0x10]
    ensures |SHA1_IV| == 5 && SHA1_IV[..4] == MD5_IV && Be32(SHA1_IV[4]) == [0xc3, 0xd2, 0xe1, 0xf0]
  {
    hide Le32, Be32, LeWords;
    FourWords(MD5_IV[0], MD5_IV[1], MD5_IV[2], MD5_IV[3]);
    InitialWords();
    assert MD5_IV == [MD5_IV[0], MD5_IV[1], MD5_IV[2], MD5_IV[3]];
  }
}
