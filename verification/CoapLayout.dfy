/**
 CoAP packets bit by bit and byte by byte (RFC 7252 sections 3 and 3.1): what a
 composer writes where, which messages it accepts, and every encoding of an
 option that a parser reads.
 */
module CoapLayout {
  import opened Mbufs
  import opened CoapWire

  // ---- the fixed part

  /** Version 1 in two bits, the type in two, the token length in four; three bits of class and five of detail; the id, high byte first. */
  lemma HeadLayout(m: Message)
    requires Typed(m) && Checked(m) == Accepted
    ensures var h := Head(m);
      && h[0] / 64 == 1 && h[0] / 16 % 4 == m.msgType && h[0] % 16 == |m.token|
      && h[1] / 32 == m.codeClass && h[1] % 32 == m.codeDetail
      && h[2] as int * 256 + h[3] == m.msgId
  {
  }

  /** Head, token, options, and behind the marker the payload, if there is one. */
  lemma WireLayout(m: Message)
    requires Typed(m) && Checked(m) == Accepted
    ensures var w, n, k := Wire(m), |m.token|, |OptsWire(0, m.options)|;
      && |w| == 4 + n + k + (if m.payload == [] then 0 else 1 + |m.payload|)
      && w[..4] == Head(m) && w[4..4 + n] == m.token && w[4 + n..4 + n + k] == OptsWire(0, m.options)
      && (m.payload != [] ==> w[4 + n + k] == 255 && w[4 + n + k + 1..] == m.payload)
  {
    hide Head, OptsWire, Marked, Encodable;
    var h, t, o, p := Head(m), m.token, OptsWire(0, m.options), Marked(m.payload);
    FourParts(h, t, o, p);
    MarkedIs(m.payload);
    Behind(Wire(m), 4 + |t| + |o|, p);
  }

  lemma MarkedIs(payload: seq<byte>)
    ensures var p := Marked(payload);
      |p| == (if payload == [] then 0 else 1 + |payload|) && (payload != [] ==> p[0] == 255 && p[1..] == payload)
  {
  }

  lemma Behind(w: seq<byte>, k: nat, p: seq<byte>)
    requires k <= |w| && w[k..] == p
    ensures |w| == k + |p| && (p != [] ==> w[k] == p[0] && w[k + 1..] == p[1..])
  {
  }

  lemma FourParts(h: seq<byte>, t: seq<byte>, o: seq<byte>, p: seq<byte>)
    ensures var w := h + (t + (o + p));
      && w[..|h|] == h && w[|h|..|h| + |t|] == t && w[|h| + |t|..|h| + |t| + |o|] == o && w[|h| + |t| + |o|..] == p
  {
  }

  /** Option i is short enough, and no further from the one before, or from prev, than can be written. */
  predicate Reaches(prev: nat, os: seq<Opt>, i: nat)
    requires i < |os|
  {
    var from := if i == 0 then prev else os[i - 1].number;
    |os[i].value| <= 65535 + 269 && from <= os[i].number && os[i].number - from <= 65535 + 269
  }

  /** Accepted is what the packet has room for: two bits of type, eight bytes of token, three and five bits of code, options in order and within reach. */
  lemma AcceptedIff(m: Message)
    ensures Checked(m) == Accepted <==>
      && m.msgType < 4 && |m.token| <= 8 && m.codeClass < 8 && m.codeDetail < 32
      && forall i | 0 <= i < |m.options| :: Reaches(0, m.options, i)
  {
    EncodableIff(0, m.options);
  }

  lemma {:induction false} EncodableIff(prev: nat, os: seq<Opt>)
    ensures Encodable(prev, os) <==> forall i | 0 <= i < |os| :: Reaches(prev, os, i)
    decreases |os|
  {
    if os != [] {
      var rest := os[1..];
      EncodableIff(os[0].number, rest);
      forall i | 0 <= i < |rest| ensures Reaches(os[0].number, rest, i) == Reaches(prev, os, i + 1) {}
      assert Reaches(prev, os, 0) <==> prev <= os[0].number <= prev + MAX_EXT && |os[0].value| <= MAX_EXT;
      if forall i | 0 <= i < |rest| :: Reaches(os[0].number, rest, i) {
        forall i | 1 <= i < |os| ensures Reaches(prev, os, i) {
          assert Reaches(os[0].number, rest, i - 1);
        }
      } else {
        var i :| 0 <= i < |rest| && !Reaches(os[0].number, rest, i);
        assert !Reaches(prev, os, i + 1);
      }
    }
  }

  /** The field complained about is the first that does not fit, in the order type, token, class, detail, options. */
  lemma RefusedIs(m: Message)
    requires Checked(m) != Accepted
    ensures match Checked(m).field
      case TypeField => m.msgType >= 4
      case TokenField => m.msgType < 4 && |m.token| > 8
      case ClassField => m.msgType < 4 && |m.token| <= 8 && m.codeClass >= 8
      case DetailField => m.msgType < 4 && |m.token| <= 8 && m.codeClass < 8 && m.codeDetail >= 32
      case OptionsField => m.msgType < 4 && |m.token| <= 8 && m.codeClass < 8 && m.codeDetail < 32
      case _ => false
  {
  }

  // ---- options

  /** A four-bit field with these extension bytes stands for v. */
  predicate Stands(field: nat, ext: seq<byte>, v: nat) {
    if field < 13 then ext == [] && v == field
    else if field == 13 then |ext| == 1 && v == ext[0] as int + 13
    else field == 14 && |ext| == 2 && v == ext[0] as int * 256 + ext[1] + 269
  }

  /** No way to write v takes fewer extension bytes. */
  ghost predicate Shortest(ext: seq<byte>, v: nat) {
    forall field, other :: Stands(field, other, v) ==> |other| >= |ext|
  }

  /** The composer's choice for a value. */
  lemma ExtStands(v: nat)
    requires v <= 65535 + 269
    ensures Stands(Base(v), Ext(v), v) && Shortest(Ext(v), v)
  {
  }

  /** An option in transit: two fields in one byte, their extensions, the value. */
  datatype Raw = Raw(delta: nat, deltaExt: seq<byte>, len: nat, lenExt: seq<byte>, value: seq<byte>)

  /** The two fields stand for a step and for a length whose 16 bits are those of the value. */
  predicate Means(r: Raw, step: nat, len: nat) {
    Stands(r.delta, r.deltaExt, step) && Stands(r.len, r.lenExt, len) && |r.value| == len % UINT16
  }

  predicate Fields(r: Raw) {
    r.delta < 15 && r.len < 15
  }

  function RawWire(r: Raw): seq<byte>
    requires Fields(r)
  {
    [16 * r.delta + r.len] + r.deltaExt + r.lenExt + r.value
  }

  /** The composer writes the distance to the option before and the length, each in as few bytes as there is a way. */
  lemma OptLayout(prev: nat, o: Opt) returns (r: Raw)
    requires prev <= o.number <= prev + MAX_EXT && |o.value| <= MAX_EXT
    ensures Fields(r) && OptWire(prev, o) == RawWire(r) && r.value == o.value
    ensures Stands(r.delta, r.deltaExt, o.number - prev) && Stands(r.len, r.lenExt, |o.value|)
    ensures Shortest(r.deltaExt, o.number - prev) && Shortest(r.lenExt, |o.value|)
  {
    var d, n := o.number - prev, |o.value|;
    ExtStands(d);
    ExtStands(n);
    r := Raw(Base(d), Ext(d), Base(n), Ext(n), o.value);
  }

  lemma ExtRead(field: nat, ext: seq<byte>, v: nat, z: seq<byte>)
    requires field < 15 && Stands(field, ext, v)
    ensures GetExt(field, ext + z) == Value(v % UINT16, z)
  {
    var s := ext + z;
    assert s[|ext|..] == z;
    if field == 14 {
      assert s[0] == ext[0] && s[1] == ext[1];
    }
  }

  /** Every encoding of an option is read, the shortest or not; number and length are what 16 bits keep. */
  lemma RawRead(r: Raw, step: nat, len: nat, prev: nat, z: seq<byte>)
    requires Fields(r) && Means(r, step, len)
    ensures GetOption(RawWire(r) + z, prev) == Got(Opt((step + prev) % UINT16, r.value), z)
  {
    hide Stands, GetExt, GetOption;
    var s, u := RawWire(r) + z, r.value + z;
    OptShape(16 * r.delta + r.len, r.deltaExt, r.lenExt, r.value, z, s);
    ExtRead(r.delta, r.deltaExt, step, r.lenExt + u);
    ExtRead(r.len, r.lenExt, len, u);
    RawSteps(s, prev, step % UINT16, r, r.lenExt + u, u, z);
    SumKept(step, prev);
  }

  lemma SumKept(step: nat, prev: nat)
    ensures (step % UINT16 + prev) % UINT16 == (step + prev) % UINT16
  {
  }

  lemma RawSteps(s: seq<byte>, prev: nat, step: nat, r: Raw, t: seq<byte>, u: seq<byte>, z: seq<byte>)
    requires Fields(r) && s != [] && s[0] == 16 * r.delta + r.len
    requires GetExt(r.delta, s[1..]) == Value(step, t) && GetExt(r.len, t) == Value(|r.value|, u) && u == r.value + z
    ensures GetOption(s, prev) == Got(Opt((step + prev) % UINT16, r.value), z)
  {
    var first: nat := s[0];
    assert first / 16 == r.delta && first % 16 == r.len;
    assert u[..|r.value|] == r.value && u[|r.value|..] == z;
  }

  lemma ExtMade(field: nat, s: seq<byte>) returns (ext: seq<byte>, v: nat)
    requires field < 15 && GetExt(field, s).Value?
    ensures var x := GetExt(field, s); s == ext + x.rest && Stands(field, ext, v) && x.v == v % UINT16
  {
    if field < 13 {
      ext, v := [], field;
    } else if field == 13 {
      ext, v := s[..1], s[0] as int + 13;
    } else {
      ext, v := s[..2], s[0] as int * 256 + s[1] + 269;
    }
  }

  ghost predicate Encodes(s: seq<byte>, prev: nat, o: Opt, z: seq<byte>, r: Raw, step: nat, len: nat) {
    Fields(r) && Means(r, step, len) && s == RawWire(r) + z && o == Opt((step + prev) % UINT16, r.value)
  }

  /** The parts an option was read from. */
  lemma GotParts(s: seq<byte>, prev: nat) returns (t: seq<byte>, u: seq<byte>)
    requires s != [] && GetOption(s, prev).Got?
    ensures var g, d, l := GetOption(s, prev), s[0] / 16, s[0] % 16;
      && d < 15 && l < 15
      && GetExt(d, s[1..]).Value? && GetExt(d, s[1..]).rest == t && GetExt(l, t).Value? && GetExt(l, t).rest == u
      && u == g.o.value + g.after && |g.o.value| == GetExt(l, t).v && g.o.number == (GetExt(d, s[1..]).v + prev) % UINT16
  {
    t := GetExt(s[0] / 16, s[1..]).rest;
    u := GetExt(s[0] % 16, t).rest;
  }

  lemma OptionMade(s: seq<byte>, prev: nat) returns (r: Raw, step: nat, len: nat)
    requires s != [] && GetOption(s, prev).Got?
    ensures var g := GetOption(s, prev); Encodes(s, prev, g.o, g.after, r, step, len)
  {
    hide Stands, GetExt, GetOption;
    var g := GetOption(s, prev);
    var t, u := GotParts(s, prev);
    var d, v := ExtMade(s[0] / 16, s[1..]);
    var l, n := ExtMade(s[0] % 16, t);
    r, step, len := Raw(s[0] / 16, d, s[0] % 16, l, g.o.value), v, n;
    Rebuilt(s, d, l, g.o.value, g.after, t, u);
    SumKept(step, prev);
  }

  lemma Rebuilt(s: seq<byte>, d: seq<byte>, l: seq<byte>, v: seq<byte>, z: seq<byte>, t: seq<byte>, u: seq<byte>)
    requires s != [] && s[1..] == d + t && t == l + u && u == v + z
    ensures s == [s[0]] + d + l + v + z
  {
    assert s == [s[0]] + s[1..];
    assert d + (l + (v + z)) == d + l + v + z;
  }

  /** An option is read exactly where one is encoded. */
  lemma OptionIff(s: seq<byte>, prev: nat, o: Opt, z: seq<byte>)
    requires s != []
    ensures GetOption(s, prev) == Got(o, z) <==> exists r, step, len :: Encodes(s, prev, o, z, r, step, len)
  {
    if GetOption(s, prev) == Got(o, z) {
      var r, step, len := OptionMade(s, prev);
      assert Encodes(s, prev, o, z, r, step, len);
    }
    forall r, step, len | Encodes(s, prev, o, z, r, step, len) ensures GetOption(s, prev) == Got(o, z) {
      RawRead(r, step, len, prev, z);
    }
  }

  /** The reserved field value is a format error; everything else that fails lacks bytes. */
  lemma OptionFails(s: seq<byte>, prev: nat)
    requires s != [] && GetOption(s, prev).Fails?
    ensures GetOption(s, prev).why == if s[0] / 16 == 15 || s[0] % 16 == 15 then FormatError else NotEnoughData
  {
  }

  /** An option goes behind all with no greater number and before all with a greater one. */
  lemma {:induction false} AddedAt(os: seq<Opt>, o: Opt) returns (k: nat)
    ensures k <= |os| && Added(os, o) == os[..k] + [o] + os[k..]
    ensures (forall i | 0 <= i < k :: os[i].number <= o.number) && (k < |os| ==> os[k].number > o.number)
  {
    if os == [] || os[0].number > o.number {
      k := 0;
      assert [o] + os == os[..0] + [o] + os[0..];
    } else {
      k := AddedAt(os[1..], o);
      k := k + 1;
      assert os[..k] == [os[0]] + os[1..][..k - 1] && os[k..] == os[1..][k - 1..];
      assert forall i | 1 <= i < k :: os[i] == os[1..][i - 1];
    }
  }

  // ---- whole packets

  /** An encoded option with the step and the length it stands for. */
  datatype Encoded = Encoded(raw: Raw, step: nat, len: nat)

  predicate Sound(e: Encoded) {
    Fields(e.raw) && Means(e.raw, e.step, e.len)
  }

  function RawsWire(es: seq<Encoded>): seq<byte>
    requires forall i | 0 <= i < |es| :: Sound(es[i])
  {
    if es == [] then [] else assert Sound(es[0]); RawWire(es[0].raw) + RawsWire(es[1..])
  }

  /** The options read one after the other, each number a step from the one before, each put in its place. */
  function Placed(es: seq<Encoded>, prev: nat, os: seq<Opt>): seq<Opt> {
    if es == [] then os
    else
      var o := Opt((es[0].step + prev) % UINT16, es[0].raw.value);
      Placed(es[1..], o.number, Added(os, o))
  }

  lemma {:induction false} PlacedRead(es: seq<Encoded>, prev: nat, os: seq<Opt>, z: seq<byte>)
    requires (forall i | 0 <= i < |es| :: Sound(es[i])) && Ends(z)
    ensures GetOptions(RawsWire(es) + z, prev, os) == Options(Placed(es, prev, os), z)
    decreases |es|
  {
    hide Means, GetOption, Added;
    var s := RawsWire(es) + z;
    if es == [] {
      assert s == z;
    } else {
      var e, rest := es[0], RawsWire(es[1..]) + z;
      assert Sound(e);
      var o := Opt((e.step + prev) % UINT16, e.raw.value);
      assert s == RawWire(e.raw) + rest;
      RawRead(e.raw, e.step, e.len, prev, rest);
      NoMarker(e.raw, rest);
      OptionsStep(s, prev, os, o, rest);
      PlacedRead(es[1..], o.number, Added(os, o), z);
    }
  }

  lemma NoMarker(r: Raw, z: seq<byte>)
    requires Fields(r)
    ensures var s := RawWire(r) + z; s != [] && s[0] != 255
  {
  }

  /** A packet of version 1, its options encoded in any way, with a marker or none. */
  datatype Packet = Packet(msgType: nat, code: byte, hi: byte, lo: byte, token: seq<byte>, options: seq<Encoded>, tail: seq<byte>)

  predicate Whole(p: Packet) {
    p.msgType < 4 && |p.token| <= 8 && Ends(p.tail) && forall i | 0 <= i < |p.options| :: Sound(p.options[i])
  }

  function PacketWire(p: Packet): seq<byte>
    requires Whole(p)
  {
    [64 + 16 * p.msgType + |p.token|, p.code, p.hi, p.lo] + (p.token + (RawsWire(p.options) + p.tail))
  }

  lemma PacketHead(p: Packet, u: seq<byte>)
    requires Whole(p) && u == p.token + (RawsWire(p.options) + p.tail)
    ensures Parse(PacketWire(p))
         == ParseToken(EMPTY.(msgType := p.msgType, codeClass := p.code / 32, codeDetail := p.code % 32, msgId := p.hi as int * 256 + p.lo), |p.token|, u)
  {
    hide RawsWire, Sound, ParseToken;
    Bytes4(64 + 16 * p.msgType + |p.token|, p.code, p.hi, p.lo, u, PacketWire(p));
  }

  /** Every whole packet is read; a marker with nothing behind it is no payload. */
  lemma PacketRead(p: Packet)
    requires Whole(p)
    ensures var r := Parse(PacketWire(p));
      && r.failure == None
      && r.m == Message(p.msgType, p.code / 32, p.code % 32, p.hi as int * 256 + p.lo, p.token, Placed(p.options, 0, []),
                        if |p.tail| > 1 then p.tail[1..] else [])
      && (PayloadField in r.present <==> |p.tail| > 1) && (TokenField in r.present <==> p.token != [])
  {
    hide GetOptions, Placed, Sound, Parse, RawsWire;
    var t := RawsWire(p.options) + p.tail;
    PlacedRead(p.options, 0, [], p.tail);
    PacketHead(p, p.token + t);
    var m := Message(p.msgType, p.code / 32, p.code % 32, p.hi as int * 256 + p.lo, p.token, [], []);
    TokenBack(m, m.(token := []), t);
    if t == [] { NothingPlaced(p.options); }
  }

  lemma NothingPlaced(es: seq<Encoded>)
    requires (forall i | 0 <= i < |es| :: Sound(es[i])) && RawsWire(es) == []
    ensures Placed(es, 0, []) == []
  {
  }

  /** What is wrong with a packet before its options are looked at; what the parser says of it, and which fields it has filled in. */
  lemma HeadFails(s: seq<byte>)
    ensures |s| < 4 ==> Parse(s) == Parsed(EMPTY, {}, Some(NotEnoughData))
    ensures |s| >= 4 && s[0] / 64 != 1 ==> Parse(s) == Parsed(EMPTY, {}, Some(Ignored))
    ensures |s| >= 4 && s[0] / 64 == 1 && s[0] % 16 > 8 ==>
      Parse(s) == Parsed(EMPTY.(msgType := s[0] / 16 % 4), {TypeField}, Some(FormatError))
    ensures |s| >= 4 && s[0] / 64 == 1 && s[0] % 16 <= 8 && |s| < 4 + s[0] % 16 ==>
      Parse(s).present == {TypeField, ClassField, DetailField, IdField} && Parse(s).failure == Some(NotEnoughData)
  {
  }

  const TEMPERATURE: seq<byte> := [0x74, 0x65, 0x6d, 0x70, 0x65, 0x72, 0x61, 0x74, 0x75, 0x72, 0x65]

  /** The request of RFC 7252 appendix A: confirmable GET, message id 0x7d34, Uri-Path "temperature". */
  lemma RequestExample()
    ensures var m := Message(0, 0, 1, 0x7d34, [], [Opt(11, TEMPERATURE)], []);
      Typed(m) && Checked(m) == Accepted && Wire(m) == [0x40, 0x01, 0x7d, 0x34, 0xbb] + TEMPERATURE
  {
    var m := Message(0, 0, 1, 0x7d34, [], [Opt(11, TEMPERATURE)], []);
    assert m.options[1..] == [] && Encodable(11, []);
    OneOption(Opt(11, TEMPERATURE));
    HeadOfRequest(m);
    assert [0x40, 0x01, 0x7d, 0x34] + ([] + ([0xbb] + TEMPERATURE + [])) == [0x40, 0x01, 0x7d, 0x34, 0xbb] + TEMPERATURE;
  }

  lemma HeadOfRequest(m: Message)
    requires Typed(m) && Checked(m) == Accepted && m.msgType == 0 && m.codeClass == 0 && m.codeDetail == 1
    requires m.msgId == 0x7d34 && m.token == []
    ensures Head(m) == [0x40, 0x01, 0x7d, 0x34]
  {
  }

  lemma OneOption(o: Opt)
    requires o == Opt(11, TEMPERATURE)
    ensures Encodable(0, [o]) && OptsWire(0, [o]) == [0xbb] + TEMPERATURE + []
  {
    assert [o][1..] == [] && Encodable(11, []);
    assert Ext(11) == [] && Base(11) == 11;
    assert [0xbb] + [] + [] + TEMPERATURE == [0xbb] + TEMPERATURE;
  }
}
