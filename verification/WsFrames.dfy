/** WebSocket frames: header forms, masking, and how a decoder measures a frame (RFC 6455 section 5.2). */
module WsFrames {
  import opened CInts
  import opened Mbufs

  const FIN: nat := 128
  const OP_CONTINUE: nat := 0
  const OP_CLOSE: nat := 8
  const OP_PING: nat := 9
  const OP_PONG: nat := 10

  // ---- masking

  /** Exclusive or of the low n bits. */
  function XorBits(a: nat, b: nat, n: nat): (r: nat)
    ensures r < Pow2(n)
  {
    if n == 0 then 0
    else 2 * XorBits(a / 2, b / 2, n - 1) + if a % 2 == b % 2 then 0 else 1
  }

  lemma {:induction false} XorTwice(a: nat, b: nat, n: nat)
    requires a < Pow2(n)
    ensures XorBits(XorBits(a, b, n), b, n) == a
  {
    if n > 0 {
      var x := XorBits(a, b, n);
      assert x / 2 == XorBits(a / 2, b / 2, n - 1);
      XorTwice(a / 2, b / 2, n - 1);
    }
  }

  function Xor(a: byte, b: byte): byte {
    assert Pow2(8) == 256 by { assert Pow2(4) == 16; }
    XorBits(a, b, 8)
  }

  /** Bit i of a number. */
  function Bit(n: nat, i: nat): nat {
    n / Pow2(i) % 2
  }

  lemma Halved(n: nat, i: nat)
    requires i > 0
    ensures Bit(n, i) == Bit(n / 2, i - 1)
  {
    HalfOf(n, Pow2(i - 1));
  }

  lemma HalfOf(n: nat, p: nat)
    requires p > 0
    ensures n / (2 * p) == n / 2 / p
  {
    var q, r := n / 2 / p, n / 2 % p;
    assert n / 2 == q * p + r;
    assert n == q * (2 * p) + (2 * r + n % 2);
    Quotient(n, 2 * p, q, 2 * r + n % 2);
  }

  /** Bit by bit the exclusive or: set exactly where the two differ. */
  lemma {:induction false} XorIsExclusive(a: nat, b: nat, n: nat, i: nat)
    requires i < n
    ensures Bit(XorBits(a, b, n), i) == if Bit(a, i) == Bit(b, i) then 0 else 1
    decreases n
  {
    if i == 0 {
      assert Pow2(0) == 1;
    } else {
      Halved(a, i);
      Halved(b, i);
      Halved(XorBits(a, b, n), i);
      assert XorBits(a, b, n) / 2 == XorBits(a / 2, b / 2, n - 1);
      XorIsExclusive(a / 2, b / 2, n - 1, i - 1);
    }
  }

  /** Every bit of a masked byte is set exactly if those of the payload's and the key's byte differ. */
  lemma MaskedBits(data: seq<byte>, key: seq<byte>, k: nat, i: nat)
    requires |key| == 4 && k < |data| && i < 8
    ensures Bit(Masked(data, key)[k], i) == if Bit(data[k], i) == Bit(key[k % 4], i) then 0 else 1
  {
    MaskedAt(data, key, k);
    XorIsExclusive(data[k], key[k % 4], 8, i);
  }

  lemma {:induction false} MaskedAt(data: seq<byte>, key: seq<byte>, k: nat)
    requires |key| == 4 && k < |data|
    ensures Masked(data, key)[k] == Xor(data[k], key[k % 4])
    decreases |data|
  {
    var last := |data| - 1;
    if k < last { MaskedAt(data[..last], key, k); }
  }

  /** The payload as it goes over the wire; an empty key stands for an unmasked frame. */
  function Masked(data: seq<byte>, key: seq<byte>): (m: seq<byte>)
    requires key == [] || |key| == 4
    ensures |m| == |data|
  {
    if key == [] || data == [] then data
    else
      var last := |data| - 1;
      Masked(data[..last], key) + [Xor(data[last], key[last % 4])]
  }

  /** Masking a second time with the same key restores the payload. */
  lemma {:induction false} MaskTwice(data: seq<byte>, key: seq<byte>)
    requires key == [] || |key| == 4
    ensures Masked(Masked(data, key), key) == data
  {
    hide Masked, Xor;
    if key == [] || data == [] {
      NoMask(data, key);
      NoMask(Masked(data, key), key);
    } else {
      var last := |data| - 1;
      MaskLast(data, key);
      MaskLast(Masked(data, key), key);
      assert Masked(data, key)[..last] == Masked(data[..last], key);
      MaskTwice(data[..last], key);
      XorBack(data[last], key[last % 4]);
      assert data == data[..last] + [data[last]];
    }
  }

  lemma NoMask(data: seq<byte>, key: seq<byte>)
    requires key == [] || data == []
    requires key == [] || |key| == 4
    ensures Masked(data, key) == data
  {
  }

  lemma MaskLast(data: seq<byte>, key: seq<byte>)
    requires |key| == 4 && data != []
    ensures var last := |data| - 1; Masked(data, key) == Masked(data[..last], key) + [Xor(data[last], key[last % 4])]
  {
  }

  lemma XorBack(a: byte, b: byte)
    ensures Xor(Xor(a, b), b) == a
  {
    assert Pow2(8) == 256 by { assert Pow2(4) == 16; }
    XorTwice(a, b, 8);
  }

  // ---- frames

  datatype Frame = Frame(fin: bool, op: nat, key: seq<byte>, data: seq<byte>)

  predicate Proper(f: Frame) {
    f.op < 16 && (f.key == [] || |f.key| == 4) && |f.data| < 0x8000_0000_0000_0000
  }

  function Flags(f: Frame): byte
    requires Proper(f)
  {
    (if f.fin then FIN else 0) + f.op
  }

  function Be16(n: nat): seq<byte>
    requires n < 0x1_0000
  {
    [n / 256, n % 256]
  }

  function Be32(n: nat): (s: seq<byte>)
    requires n < 0x1_0000_0000
    ensures |s| == 4
  {
    Be16(n / 0x1_0000) + Be16(n % 0x1_0000)
  }

  function Of16(s: seq<byte>): (n: nat)
    requires |s| == 2
    ensures n < 0x1_0000
  {
    var hi: nat, lo: nat := s[0], s[1];
    hi * 256 + lo
  }

  function Of32(s: seq<byte>): (n: nat)
    requires |s| == 4
    ensures n < 0x1_0000_0000
  {
    Of16(s[..2]) * 0x1_0000 + Of16(s[2..])
  }

  function Of64(s: seq<byte>): (n: nat)
    requires |s| == 8
    ensures n < 0x1_0000_0000_0000_0000
  {
    Of32(s[..4]) * 0x1_0000_0000 + Of32(s[4..])
  }

  lemma Of16Be(n: nat)
    requires n < 0x1_0000
    ensures Of16(Be16(n)) == n
  {
  }

  lemma Of32Be(n: nat)
    requires n < 0x1_0000_0000
    ensures Of32(Be32(n)) == n
  {
    Of16Be(n / 0x1_0000);
    Of16Be(n % 0x1_0000);
    assert Be32(n)[..2] == Be16(n / 0x1_0000) && Be32(n)[2..] == Be16(n % 0x1_0000);
  }

  function Be64(n: nat): (s: seq<byte>)
    requires n < 0x1_0000_0000_0000_0000
    ensures |s| == 8
  {
    Be32(n / 0x1_0000_0000) + Be32(n % 0x1_0000_0000)
  }

  lemma Of64Be(n: nat)
    requires n < 0x1_0000_0000_0000_0000
    ensures Of64(Be64(n)) == n
  {
    Of32Be(n / 0x1_0000_0000);
    Of32Be(n % 0x1_0000_0000);
    assert Be64(n)[..4] == Be32(n / 0x1_0000_0000) && Be64(n)[4..] == Be32(n % 0x1_0000_0000);
  }

  /** Second byte and extended length; the encoder switches to the long form at 65535, one early. */
  function LenBytes(n: nat, masked: bool): (s: seq<byte>)
    requires n < 0x8000_0000_0000_0000
    ensures |s| == if n < 126 then 1 else if n < 65535 then 3 else 9
  {
    var m := if masked then 128 else 0;
    if n < 126 then [m + n]
    else if n < 65535 then [m + 126] + Be16(n)
    else [m + 127] + Be64(n)
  }

  function Header(f: Frame): (h: seq<byte>)
    requires Proper(f)
    ensures |h| == 2 + (if |f.data| < 126 then 0 else if |f.data| < 65535 then 2 else 8) + |f.key|
  {
    [Flags(f)] + LenBytes(|f.data|, f.key != []) + f.key
  }

  function Wire(f: Frame): (w: seq<byte>)
    requires Proper(f)
    ensures |w| == |Header(f)| + |f.data|
  {
    Header(f) + Masked(f.data, f.key)
  }

  // ---- the decoder's measurements

  predicate IsFragment(flags: byte) {
    flags < FIN || flags % 16 == OP_CONTINUE
  }

  predicate IsFirstFragment(flags: byte) {
    flags < FIN && flags % 16 != OP_CONTINUE
  }

  predicate IsControl(flags: byte) {
    var op := flags % 16;
    op == OP_CLOSE || op == OP_PING || op == OP_PONG
  }

  function MaskLen(d: seq<byte>): nat {
    if |d| >= 2 && d[1] >= 128 then 4 else 0
  }

  /** Header and payload length; both 0 while the header is not all there. */
  function Lengths(d: seq<byte>): (r: (nat, nat))
    ensures r.0 == 0 ==> r.1 == 0
    ensures r.0 > 0 ==> |d| >= 2 && r.0 >= 2 + MaskLen(d)
    ensures r.0 <= 14 && r.1 < 0x1_0000_0000_0000_0000
  {
    if |d| < 2 then (0, 0)
    else
      var len := d[1] % 128;
      var mask := MaskLen(d);
      if len < 126 && |d| >= mask then (2 + mask, len)
      else if len == 126 && |d| >= 4 + mask then (4 + mask, Of16(d[2..4]))
      else if |d| >= 10 + mask then (10 + mask, Of64(d[2..10]))
      else (0, 0)
  }

  lemma HeaderBytes(f: Frame, d: seq<byte>)
    requires Proper(f) && |d| >= 2 && d[..2] == Wire(f)[..2]
    ensures d[0] == Flags(f) && MaskLen(d) == |f.key|
    ensures d[1] % 128 == if |f.data| < 126 then |f.data| else if |f.data| < 65535 then 126 else 127
  {
    assert d[0] == d[..2][0] && d[1] == d[..2][1];
    assert Wire(f)[1] == LenBytes(|f.data|, f.key != [])[0];
  }

  lemma WireLength(f: Frame)
    requires Proper(f)
    ensures 126 <= |f.data| < 65535 ==> Wire(f)[2..4] == Be16(|f.data|)
    ensures |f.data| >= 65535 ==> Wire(f)[2..10] == Be64(|f.data|)
  {
    hide Masked, Be16, Be64;
    var l := LenBytes(|f.data|, f.key != []);
    assert Wire(f) == [Flags(f)] + l + f.key + Masked(f.data, f.key);
    Inside([Flags(f)], l, f.key + Masked(f.data, f.key));
    assert [Flags(f)] + l + f.key + Masked(f.data, f.key) == [Flags(f)] + l + (f.key + Masked(f.data, f.key));
  }

  lemma Inside(a: seq<byte>, l: seq<byte>, z: seq<byte>)
    requires |a| == 1 && l != []
    ensures (a + l + z)[2..1 + |l|] == l[1..]
  {
  }

  /** One is a front part of the other. */
  predicate Agree(d: seq<byte>, w: seq<byte>) {
    if |d| < |w| then d == w[..|d|] else d[..|w|] == w
  }

  lemma AgreeSlice(d: seq<byte>, w: seq<byte>, lo: nat, hi: nat)
    requires Agree(d, w) && lo <= hi <= |d| && hi <= |w|
    ensures d[lo..hi] == w[lo..hi]
  {
    if |d| < |w| {
      assert w[..|d|][lo..hi] == w[lo..hi];
    } else {
      assert d[..|w|][lo..hi] == d[lo..hi];
    }
  }

  /** What a decoder measures on the bytes of a frame, whole or cut short: its true lengths, or nothing yet. */
  lemma Measured(f: Frame, d: seq<byte>)
    requires Proper(f) && Agree(d, Wire(f))
    ensures Lengths(d) == (|Header(f)|, |f.data|) || (|d| < |Header(f)| && Lengths(d) == (0, 0))
  {
    if |d| >= 2 {
      var w, n := Wire(f), |f.data|;
      AgreeSlice(d, w, 0, 2);
      HeaderBytes(f, d);
      WireLength(f);
      if 126 <= n < 65535 && |d| >= 4 + |f.key| {
        AgreeSlice(d, w, 2, 4);
        Of16Be(n);
      } else if n >= 65535 && |d| >= 10 + |f.key| {
        AgreeSlice(d, w, 2, 10);
        Of64Be(n);
      }
    }
  }

  /** The payload of a frame with these measures whose bytes are all there. */
  function Payload(d: seq<byte>, h: nat, n: nat): seq<byte>
    requires 2 + MaskLen(d) <= h && h + n <= |d|
  {
    Masked(d[h..h + n], d[h - MaskLen(d)..h])
  }

  lemma PayloadBack(f: Frame, tail: seq<byte>)
    requires Proper(f)
    ensures var d := Wire(f) + tail; var h := |Header(f)|; var n := |f.data|;
      && Lengths(d) == (h, n) && 2 + MaskLen(d) <= h && Payload(d, h, n) == f.data
      && d[0] == Flags(f) && d[h + n..] == tail
  {
    var d := Wire(f) + tail;
    var h := |Header(f)|;
    assert d[..|Wire(f)|] == Wire(f);
    Measured(f, d);
    assert d[..2] == Wire(f)[..2];
    HeaderBytes(f, d);
    assert d[h - |f.key|..h] == f.key;
    assert d[h..h + |f.data|] == Masked(f.data, f.key);
    MaskTwice(f.data, f.key);
  }
}
