/** The chunked transfer coding: sizes in hexadecimal, chunks, and what a receiver has in hand (RFC 7230 section 4.1). */
module HttpChunks {
  import opened Mbufs

  const CR: byte := 13
  const LF: byte := 10

  predicate IsHex(c: byte) {
    48 <= c <= 57 || 65 <= c <= 70 || 97 <= c <= 102
  }

  function HexVal(c: byte): (v: nat)
    requires IsHex(c)
    ensures v < 16
  {
    if c <= 57 then c - 48 else if c <= 70 then c - 65 + 10 else c - 97 + 10
  }

  /** How many hexadecimal digits a buffer starts with. */
  function HexRun(s: seq<byte>): (k: nat)
    ensures k <= |s|
  {
    if s == [] || !IsHex(s[0]) then 0 else 1 + HexRun(s[1..])
  }

  /** The number those digits spell, on top of n. */
  function HexNumber(s: seq<byte>, n: nat): nat {
    if s == [] || !IsHex(s[0]) then n else HexNumber(s[1..], 16 * n + HexVal(s[0]))
  }

  predicate LineEnd(s: seq<byte>, i: nat) {
    i + 2 <= |s| && s[i] == CR && s[i + 1] == LF
  }

  /** A fully buffered chunk: its total size and where its data lies. */
  datatype Chunk = NoChunk | Chunk(total: nat, at: nat, len: nat)

  /** mg_http_parse_chunk */
  function ParseChunk(s: seq<byte>): (c: Chunk)
    ensures c.Chunk? ==> c.at + c.len + 2 == c.total <= |s| && c.at >= 3
  {
    var k, n := HexRun(s), HexNumber(s, 0);
    if k == 0 || !LineEnd(s, k) then NoChunk
    else if !LineEnd(s, k + 2 + n) then NoChunk
    else Chunk(k + 2 + n + 2, k + 2, n)
  }

  /** Data of the complete chunks in front, what is left after them, and whether the last one was empty. */
  datatype Parts = Parts(data: seq<byte>, rest: seq<byte>, ended: bool)

  function Prefixed(d: seq<byte>, p: Parts): (r: Parts)
    ensures |r.data| == |d| + |p.data| && r.rest == p.rest
  {
    Parts(d + p.data, p.rest, p.ended)
  }

  function Collapse(s: seq<byte>): (p: Parts)
    ensures |p.data| + |p.rest| <= |s|
    ensures |p.rest| == |s| ==> p == Parts([], s, false)
    decreases |s|, 1
  {
    CollapseFrom(s, ParseChunk(s))
  }

  /** The same, once the first chunk is known. */
  function CollapseFrom(s: seq<byte>, c: Chunk): (p: Parts)
    requires c.Chunk? ==> c.at + c.len + 2 == c.total <= |s|
    ensures |p.data| + |p.rest| <= |s|
    ensures |p.rest| == |s| ==> p == Parts([], s, false)
    decreases |s|, 0
  {
    match c
    case NoChunk => Parts([], s, false)
    case Chunk(total, at, n) =>
      if n == 0 then Parts([], s[total..], true) else Prefixed(s[at..at + n], Collapse(s[total..]))
  }

  // ---- the sender

  function HexDigit(v: nat): (c: byte)
    requires v < 16
    ensures IsHex(c) && HexVal(c) == v
  {
    if v < 10 then 48 + v else 65 + v - 10
  }

  /** A number as %lX prints it. */
  function Hex(n: nat): (s: seq<byte>)
    ensures s != [] && forall i | 0 <= i < |s| :: IsHex(s[i])
    decreases n
  {
    if n < 16 then [HexDigit(n)] else Hex(n / 16) + [HexDigit(n % 16)]
  }

  /** A chunk in transit: its size as the sender spelt it, and its data. */
  datatype Coded = Coded(size: seq<byte>, data: seq<byte>)

  predicate AllHex(h: seq<byte>) {
    forall i | 0 <= i < |h| :: IsHex(h[i])
  }

  /** The size line may spell the number in either case and with leading zeros (RFC 7230 section 4.1). */
  predicate Proper(c: Coded) {
    c.size != [] && AllHex(c.size) && HexNumber(c.size, 0) == |c.data|
  }

  function Wire(c: Coded): seq<byte> {
    c.size + [CR, LF] + c.data + [CR, LF]
  }

  /** The chunk mg_send_http_chunk sends. */
  function Sending(d: seq<byte>): Coded {
    Coded(Hex(|d|), d)
  }

  // ---- what digits spell

  const LOWER: string := "0123456789abcdef"
  const UPPER: string := "0123456789ABCDEF"

  /** The digits of either case have their values, and there are no others. */
  lemma DigitsAre(v: nat)
    requires v < 16
    ensures IsHex(LOWER[v] as int) && HexVal(LOWER[v] as int) == v
    ensures IsHex(UPPER[v] as int) && HexVal(UPPER[v] as int) == v
    ensures HexDigit(v) == UPPER[v] as int
  {
  }

  lemma OnlyDigits(c: byte)
    ensures IsHex(c) <==> exists v | 0 <= v < 16 :: c == LOWER[v] as int || c == UPPER[v] as int
  {
    if IsHex(c) {
      var v := HexVal(c);
      assert c == LOWER[v] as int || c == UPPER[v] as int;
    } else {
      forall v | 0 <= v < 16 ensures c != LOWER[v] as int && c != UPPER[v] as int {
        DigitsAre(v);
      }
    }
  }

  function Sixteens(k: nat): (p: nat)
    ensures p > 0
  {
    if k == 0 then 1 else 16 * Sixteens(k - 1)
  }

  /** Digits with these values, in any mixture of cases. */
  predicate Spells(h: seq<byte>, vs: seq<nat>) {
    |h| == |vs| && forall i | 0 <= i < |h| :: vs[i] < 16 && (h[i] == LOWER[vs[i]] as int || h[i] == UPPER[vs[i]] as int)
  }

  /** A positional number to the base sixteen, the first digit weighing most. */
  function Weighed(vs: seq<nat>): nat {
    if vs == [] then 0 else vs[0] * Sixteens(|vs| - 1) + Weighed(vs[1..])
  }

  lemma SpellsTail(h: seq<byte>, vs: seq<nat>)
    requires Spells(h, vs) && h != []
    ensures vs != [] && vs[0] < 16 && IsHex(h[0]) && HexVal(h[0]) == vs[0] && Spells(h[1..], vs[1..])
  {
    DigitsAre(vs[0]);
  }

  /** Every spelling of a number in hexadecimal digits is read as that number. */
  lemma {:induction false} SpellingRead(h: seq<byte>, vs: seq<nat>, n: nat)
    requires Spells(h, vs)
    ensures AllHex(h) && HexNumber(h, n) == n * Sixteens(|h|) + Weighed(vs)
  {
    hide Spells, IsHex, HexVal;
    SpelledLength(h, vs);
    if h == [] {
      assert n * Sixteens(0) == n;
    } else {
      SpellsTail(h, vs);
      SpellingRead(h[1..], vs[1..], 16 * n + vs[0]);
      Spread(n, vs[0], Sixteens(|h| - 1));
      AllHexMore(h);
    }
  }

  lemma SpelledLength(h: seq<byte>, vs: seq<nat>)
    requires Spells(h, vs)
    ensures |h| == |vs|
  {
  }

  lemma AllHexMore(h: seq<byte>)
    requires h != [] && IsHex(h[0]) && AllHex(h[1..])
    ensures AllHex(h)
  {
    assert forall i | 1 <= i < |h| :: h[i] == h[1..][i - 1];
  }

  lemma Spread(n: nat, v: nat, p: nat)
    ensures (16 * n + v) * p == n * (16 * p) + v * p
  {
  }

  lemma {:induction false} ZerosWeighNothing(k: nat, vs: seq<nat>)
    ensures Weighed(seq(k, _ => 0) + vs) == Weighed(vs)
  {
    var zs := seq(k, _ => 0);
    if k == 0 {
      assert zs + vs == vs;
    } else {
      assert (zs + vs)[1..] == seq(k - 1, _ => 0) + vs;
      ZerosWeighNothing(k - 1, vs);
    }
  }

  /** Upper-case digits with these values. */
  predicate Capitals(h: seq<byte>, vs: seq<nat>) {
    |h| == |vs| && forall i | 0 <= i < |h| :: vs[i] < 16 && h[i] == UPPER[vs[i]] as int
  }

  lemma CapitalsMore(h: seq<byte>, vs: seq<nat>, v: nat)
    requires Capitals(h, vs) && v < 16
    ensures Capitals(h + [HexDigit(v)], vs + [v])
  {
    DigitsAre(v);
  }

  /** The sender's own spelling: upper case, no leading zero. */
  lemma {:induction false} HexSpells(n: nat) returns (vs: seq<nat>)
    ensures Capitals(Hex(n), vs) && Weighed(vs) == n && vs != [] && (n > 0 ==> vs[0] > 0)
    decreases n
  {
    hide Capitals, HexDigit;
    if n < 16 {
      assert Sixteens(0) == 1;
      NoCapitals();
      CapitalsMore([], [], n);
      assert [] + [HexDigit(n)] == Hex(n) && [] + [n] == [n];
      vs := [n];
    } else {
      var us := HexSpells(n / 16);
      CapitalsMore(Hex(n / 16), us, n % 16);
      WeighedMore(us, n % 16);
      vs := us + [n % 16];
    }
  }

  lemma NoCapitals()
    ensures Capitals([], [])
  {
  }

  lemma {:induction false} WeighedMore(vs: seq<nat>, v: nat)
    ensures Weighed(vs + [v]) == 16 * Weighed(vs) + v
  {
    if vs == [] {
      assert [] + [v] == [v];
    } else {
      assert (vs + [v])[1..] == vs[1..] + [v];
      WeighedMore(vs[1..], v);
      Times(vs[0], Sixteens(|vs| - 1));
    }
  }

  lemma Times(v: nat, p: nat)
    ensures v * (16 * p) == 16 * (v * p)
  {
  }

  // ---- reading back what was sent

  lemma {:induction false} RunOver(a: seq<byte>, z: seq<byte>)
    requires AllHex(a) && (z == [] || !IsHex(z[0]))
    ensures HexRun(a + z) == |a|
  {
    if a == [] {
      assert a + z == z;
    } else {
      assert (a + z)[1..] == a[1..] + z;
      RunOver(a[1..], z);
    }
  }

  lemma {:induction false} NumberStops(a: seq<byte>, z: seq<byte>, n: nat)
    requires AllHex(a) && (z == [] || !IsHex(z[0]))
    ensures HexNumber(a + z, n) == HexNumber(a, n)
  {
    if a == [] {
      assert a + z == z;
    } else {
      assert (a + z)[1..] == a[1..] + z;
      NumberStops(a[1..], z, 16 * n + HexVal(a[0]));
    }
  }

  /** A number the sender prints reads back. */
  lemma HexBack(n: nat)
    ensures AllHex(Hex(n)) && HexNumber(Hex(n), 0) == n
  {
    var vs := HexSpells(n);
    assert Spells(Hex(n), vs);
    SpellingRead(Hex(n), vs, 0);
  }

  lemma SendingProper(d: seq<byte>)
    ensures Proper(Sending(d))
  {
    HexBack(|d|);
  }

  /** A size line in front of t. */
  lemma SizeLine(s: seq<byte>, h: seq<byte>, t: seq<byte>)
    requires h != [] && AllHex(h) && s == h + ([CR, LF] + t)
    ensures HexRun(s) == |h| && HexNumber(s, 0) == HexNumber(h, 0) && LineEnd(s, |h|)
    ensures s[|h| + 2..] == t
  {
    RunOver(h, [CR, LF] + t);
    NumberStops(h, [CR, LF] + t, 0);
  }

  lemma WholeChunk(c: Coded, z: seq<byte>)
    requires Proper(c)
    ensures var s := Wire(c) + z; var at := |c.size| + 2;
      ParseChunk(s) == Chunk(|Wire(c)|, at, |c.data|) && s[at..at + |c.data|] == c.data && s[|Wire(c)|..] == z
  {
    var s, t := Wire(c) + z, c.data + ([CR, LF] + z);
    Regroup(c.size, c.data, z);
    SizeLine(s, c.size, t);
    var at := |c.size| + 2;
    DataAt(s, at, c.data, z);
  }

  lemma Regroup(h: seq<byte>, d: seq<byte>, z: seq<byte>)
    ensures h + [CR, LF] + d + [CR, LF] + z == h + ([CR, LF] + (d + ([CR, LF] + z)))
  {
  }

  lemma DataAt(s: seq<byte>, at: nat, d: seq<byte>, z: seq<byte>)
    requires at <= |s| && s[at..] == d + ([CR, LF] + z)
    ensures LineEnd(s, at + |d|) && s[at..at + |d|] == d && s[at + |d| + 2..] == z
  {
    var t := s[at..];
    assert t[..|d|] == d && t[|d|] == CR && t[|d| + 1] == LF && t[|d| + 2..] == z;
    assert s[at + |d|] == t[|d|] && s[at + |d| + 1] == t[|d| + 1];
  }

  /** A chunk cut short is no chunk yet. */
  lemma CutChunk(c: Coded, raw: seq<byte>)
    requires Proper(c) && |raw| < |Wire(c)| && raw == Wire(c)[..|raw|]
    ensures ParseChunk(raw) == NoChunk
  {
    if |raw| <= |c.size| {
      CutDigits(c, raw);
    } else {
      CutAfter(c, raw);
    }
  }

  lemma CutDigits(c: Coded, raw: seq<byte>)
    requires Proper(c) && |raw| <= |c.size| && raw == Wire(c)[..|raw|]
    ensures ParseChunk(raw) == NoChunk
  {
    assert forall i | 0 <= i < |raw| :: raw[i] == c.size[i];
    RunOver(raw, []);
    assert raw + [] == raw;
  }

  lemma CutAfter(c: Coded, raw: seq<byte>)
    requires Proper(c) && |c.size| < |raw| < |Wire(c)| && raw == Wire(c)[..|raw|]
    ensures ParseChunk(raw) == NoChunk
  {
    var h := c.size;
    var z := raw[|h|..];
    assert raw[..|h|] == h;
    assert raw == h + z;
    assert z[0] == Wire(c)[|h|] == CR;
    RunOver(h, z);
    NumberStops(h, z, 0);
  }

  lemma {:induction false} RunIs(s: seq<byte>)
    ensures AllHex(s[..HexRun(s)]) && (HexRun(s) < |s| ==> !IsHex(s[HexRun(s)]))
  {
    if s != [] && IsHex(s[0]) {
      RunIs(s[1..]);
      var k := HexRun(s);
      assert s[..k] == [s[0]] + s[1..][..k - 1];
    }
  }

  lemma Dissect(s: seq<byte>, k: nat, n: nat)
    requires k + 2 + n + 2 <= |s| && LineEnd(s, k) && LineEnd(s, k + 2 + n)
    ensures s == s[..k] + [CR, LF] + s[k + 2..k + 2 + n] + [CR, LF] + s[k + n + 4..]
  {
  }

  ghost predicate StartsWith(s: seq<byte>, c: Coded, z: seq<byte>) {
    Proper(c) && s == Wire(c) + z
  }

  /** A buffer parses as a chunk exactly if it starts with one, whole. */
  lemma ParsedIff(s: seq<byte>)
    ensures ParseChunk(s).Chunk? <==> exists c, z :: StartsWith(s, c, z)
  {
    if ParseChunk(s).Chunk? {
      var k, n := HexRun(s), HexNumber(s, 0);
      RunIs(s);
      assert s[..k] + s[k..] == s;
      NumberStops(s[..k], s[k..], 0);
      Dissect(s, k, n);
      assert StartsWith(s, Coded(s[..k], s[k + 2..k + 2 + n]), s[k + n + 4..]);
    }
    forall c, z | StartsWith(s, c, z) ensures ParseChunk(s).Chunk? {
      WholeChunk(c, z);
    }
  }

  /** Ten bytes behind a size in lower case. */
  lemma LowerCaseExample(d: seq<byte>)
    requires |d| == 10
    ensures ParseChunk([97, 13, 10] + d + [13, 10]) == Chunk(15, 3, 10)
  {
    var c := Coded([97], d);
    assert HexNumber([97], 0) == 10;
    WholeChunk(c, []);
    assert Wire(c) + [] == [97, 13, 10] + d + [13, 10];
  }
}
