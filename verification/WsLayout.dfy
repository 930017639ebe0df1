/** Where each bit of a frame lies on the wire (RFC 6455 section 5.2), and the examples of section 5.7. */
module WsLayout {
  import opened CInts
  import opened Mbufs
  import opened WsFrames

  /** The bytes of s as a number, most significant first. */
  function BigEndian(s: seq<byte>): nat {
    if s == [] then 0 else BigEndian(s[..|s|-1]) * 256 + s[|s|-1]
  }

  lemma Big2(s: seq<byte>)
    requires |s| == 2
    ensures BigEndian(s) == Of16(s)
  {
    assert s[..1] == [s[0]] && [s[0]][..0] == [];
    assert BigEndian([s[0]]) == s[0];
  }

  lemma {:induction false} BigJoin(a: seq<byte>, b: seq<byte>)
    ensures BigEndian(a + b) == BigEndian(a) * Pow256(|b|) + BigEndian(b)
    decreases |b|
  {
    if b == [] {
      assert a + b == a;
    } else {
      var init, e: nat := b[..|b|-1], b[|b|-1];
      assert (a + b)[..|a + b|-1] == a + init && (a + b)[|a + b|-1] == b[|b|-1];
      BigJoin(a, init);
      Shift(BigEndian(a), Pow256(|init|), BigEndian(init), e);
    }
  }

  lemma Shift(x: nat, p: nat, y: nat, e: nat)
    ensures (x * p + y) * 256 + e == x * (256 * p) + (y * 256 + e)
  {
  }

  function Pow256(n: nat): nat {
    if n == 0 then 1 else 256 * Pow256(n - 1)
  }

  lemma Big4(s: seq<byte>)
    requires |s| == 4
    ensures BigEndian(s) == Of32(s)
  {
    assert s == s[..2] + s[2..];
    BigJoin(s[..2], s[2..]);
    Big2(s[..2]);
    Big2(s[2..]);
    assert Pow256(2) == 0x1_0000 by { assert Pow256(1) == 256; }
  }

  lemma Big8(s: seq<byte>)
    requires |s| == 8
    ensures BigEndian(s) == Of64(s)
  {
    assert s == s[..4] + s[4..];
    BigJoin(s[..4], s[4..]);
    Big4(s[..4]);
    Big4(s[4..]);
    assert Pow256(4) == 0x1_0000_0000 by { assert Pow256(2) == 0x1_0000 by { assert Pow256(1) == 256; } }
  }

  /** The first two bytes: FIN and opcode, mask bit and 7-bit length. */
  lemma FirstBytes(f: Frame)
    requires Proper(f)
    ensures var w := Wire(f);
      && |w| >= 2
      && Bit(w[0], 7) == (if f.fin then 1 else 0) && w[0] % 16 == f.op && w[0] < 128 + 16 && (!f.fin ==> w[0] < 16)
      && Bit(w[1], 7) == (if f.key == [] then 0 else 1)
      && w[1] % 128 == if |f.data| < 126 then |f.data| else if |f.data| < 65535 then 126 else 127
  {
    hide Masked, Be16, Be64;
    assert Pow2(7) == 128 by { assert Pow2(4) == 16; }
    var l := LenBytes(|f.data|, f.key != []);
    assert Wire(f)[0] == Flags(f) && Wire(f)[1] == l[0];
  }

  /** Then the extended length, if any, most significant byte first; the key, if any; and the payload, masked. */
  lemma RestOfFrame(f: Frame)
    requires Proper(f)
    ensures var w, n := Wire(f), |f.data|; var x := if n < 126 then 0 else if n < 65535 then 2 else 8;
      && |w| == 2 + x + |f.key| + n
      && (x > 0 ==> BigEndian(w[2..2 + x]) == n)
      && w[2 + x..2 + x + |f.key|] == f.key
      && w[2 + x + |f.key|..] == Masked(f.data, f.key)
  {
    var w, n := Wire(f), |f.data|;
    var l := LenBytes(n, f.key != []);
    var x := |l| - 1;
    Sections([Flags(f)], l, f.key, Masked(f.data, f.key));
    assert w == [Flags(f)] + l + f.key + Masked(f.data, f.key);
    if x == 2 {
      assert l[1..] == Be16(n);
      Big2(Be16(n));
      Of16Be(n);
    } else if x == 8 {
      assert l[1..] == Be64(n);
      Big8(Be64(n));
      Of64Be(n);
    }
  }

  lemma Sections(a: seq<byte>, l: seq<byte>, k: seq<byte>, m: seq<byte>)
    requires |a| == 1 && l != []
    ensures var w := a + l + k + m;
      w[2..1 + |l|] == l[1..] && w[1 + |l|..1 + |l| + |k|] == k && w[1 + |l| + |k|..] == m
  {
  }

  // ---- RFC 6455 section 5.7

  const HELLO: seq<byte> := [0x48, 0x65, 0x6c, 0x6c, 0x6f]
  const KEY: seq<byte> := [0x37, 0xfa, 0x21, 0x3d]
  const HIDDEN: seq<byte> := [0x7f, 0x9f, 0x4d, 0x51, 0x58]

  /** xs, ys, zs are three bytes halved again and again. */
  predicate Halvings(xs: seq<nat>) {
    |xs| == 9 && xs[8] == 0 && forall i | 0 <= i < 8 :: xs[i + 1] == xs[i] / 2
  }

  lemma {:induction false} XorBy(xs: seq<nat>, ys: seq<nat>, zs: seq<nat>, i: nat)
    requires Halvings(xs) && Halvings(ys) && Halvings(zs) && i <= 8
    requires forall j | 0 <= j < 8 :: zs[j] % 2 == 0 <==> xs[j] % 2 == ys[j] % 2
    ensures XorBits(xs[i], ys[i], 8 - i) == zs[i]
    decreases 8 - i
  {
    if i < 8 { XorBy(xs, ys, zs, i + 1); }
  }

  lemma HelloByte0()
    ensures Xor(HELLO[0], KEY[0]) == HIDDEN[0]
  {
    hide XorBits;
    var xs: seq<nat>, ys: seq<nat>, zs: seq<nat> := [72, 36, 18, 9, 4, 2, 1, 0, 0], [55, 27, 13, 6, 3, 1, 0, 0, 0], [127, 63, 31, 15, 7, 3, 1, 0, 0];
    XorBy(xs, ys, zs, 0);
    assert xs[0] == HELLO[0] && ys[0] == KEY[0] && zs[0] == HIDDEN[0];
  }

  lemma HelloByte1()
    ensures Xor(HELLO[1], KEY[1]) == HIDDEN[1]
  {
    hide XorBits;
    var xs: seq<nat>, ys: seq<nat>, zs: seq<nat> := [101, 50, 25, 12, 6, 3, 1, 0, 0], [250, 125, 62, 31, 15, 7, 3, 1, 0], [159, 79, 39, 19, 9, 4, 2, 1, 0];
    XorBy(xs, ys, zs, 0);
    assert xs[0] == HELLO[1] && ys[0] == KEY[1] && zs[0] == HIDDEN[1];
  }

  lemma HelloByte2()
    ensures Xor(HELLO[2], KEY[2]) == HIDDEN[2]
  {
    hide XorBits;
    var xs: seq<nat>, ys: seq<nat>, zs: seq<nat> := [108, 54, 27, 13, 6, 3, 1, 0, 0], [33, 16, 8, 4, 2, 1, 0, 0, 0], [77, 38, 19, 9, 4, 2, 1, 0, 0];
    XorBy(xs, ys, zs, 0);
    assert xs[0] == HELLO[2] && ys[0] == KEY[2] && zs[0] == HIDDEN[2];
  }

  lemma HelloByte3()
    ensures Xor(HELLO[3], KEY[3]) == HIDDEN[3]
  {
    hide XorBits;
    var xs: seq<nat>, ys: seq<nat>, zs: seq<nat> := [108, 54, 27, 13, 6, 3, 1, 0, 0], [61, 30, 15, 7, 3, 1, 0, 0, 0], [81, 40, 20, 10, 5, 2, 1, 0, 0];
    XorBy(xs, ys, zs, 0);
    assert xs[0] == HELLO[3] && ys[0] == KEY[3] && zs[0] == HIDDEN[3];
  }

  lemma HelloByte4()
    ensures Xor(HELLO[4], KEY[0]) == HIDDEN[4]
  {
    hide XorBits;
    var xs: seq<nat>, ys: seq<nat>, zs: seq<nat> := [111, 55, 27, 13, 6, 3, 1, 0, 0], [55, 27, 13, 6, 3, 1, 0, 0, 0], [88, 44, 22, 11, 5, 2, 1, 0, 0];
    XorBy(xs, ys, zs, 0);
    assert xs[0] == HELLO[4] && ys[0] == KEY[0] && zs[0] == HIDDEN[4];
  }

  lemma HelloMasked()
    ensures Masked(HELLO, KEY) == HIDDEN
  {
    hide Masked, Xor;
    forall k | 0 <= k < 5 ensures Masked(HELLO, KEY)[k] == HIDDEN[k] {
      MaskedAt(HELLO, KEY, k);
      HelloByte0();
      HelloByte1();
      HelloByte2();
      HelloByte3();
      HelloByte4();
    }
  }

  lemma Plain(data: seq<byte>)
    ensures Masked(data, []) == data
  {
  }

  /** The examples: a text frame, unmasked and masked; a text in two fragments; a ping and its masked pong. */
  lemma Examples()
    ensures Wire(Frame(true, 1, [], HELLO)) == [0x81, 0x05] + HELLO
    ensures Wire(Frame(true, 1, KEY, HELLO)) == [0x81, 0x85] + KEY + HIDDEN
    ensures Wire(Frame(false, 1, [], HELLO[..3])) == [0x01, 0x03] + HELLO[..3]
    ensures Wire(Frame(true, 0, [], HELLO[3..])) == [0x80, 0x02] + HELLO[3..]
    ensures Wire(Frame(true, 9, [], HELLO)) == [0x89, 0x05] + HELLO
    ensures Wire(Frame(true, 10, KEY, HELLO)) == [0x8a, 0x85] + KEY + HIDDEN
  {
    hide Masked;
    HelloMasked();
    Plain(HELLO);
    Plain(HELLO[..3]);
    Plain(HELLO[3..]);
  }

  /** Binary messages of 256 bytes and of 64 KiB. */
  lemma LongExamples(short: seq<byte>, long: seq<byte>)
    requires |short| == 256 && |long| == 65536
    ensures Wire(Frame(true, 2, [], short)) == [0x82, 0x7e, 0x01, 0x00] + short
    ensures Wire(Frame(true, 2, [], long)) == [0x82, 0x7f, 0, 0, 0, 0, 0, 1, 0, 0] + long
  {
    assert Be32(0) == [0, 0, 0, 0] && Be32(65536) == [0, 1, 0, 0];
    assert Be64(65536) == [0, 0, 0, 0, 0, 1, 0, 0];
    assert Header(Frame(true, 2, [], long)) == [0x82, 0x7f, 0, 0, 0, 0, 0, 1, 0, 0];
    assert Header(Frame(true, 2, [], short)) == [0x82, 0x7e, 0x01, 0x00];
  }
}
