/** CoAP messages: delta-encoded options, composing and parsing on values (RFC 7252 sections 3 and 3.1). */
module CoapWire {
  import opened Mbufs

  datatype Opt = Opt(number: nat, value: seq<byte>)

  datatype Message = Message(
    msgType: nat, codeClass: nat, codeDetail: nat, msgId: nat,
    token: seq<byte>, options: seq<Opt>, payload: seq<byte>)

  datatype Field = TypeField | ClassField | DetailField | IdField | TokenField | OptionsField | PayloadField

  datatype Failure = NotEnoughData | FormatError | Ignored

  const EMPTY: Message := Message(0, 0, 0, 0, [], [], [])
  const UINT16: nat := 0x1_0000
  const MAX_EXT: nat := 0xFFFF + 269

  // ---- composing

  /** The values the fields of the C struct can hold. */
  predicate Typed(m: Message) {
    && m.msgType < 256 && m.codeClass < 256 && m.codeDetail < 256 && m.msgId < UINT16
    && forall i | 0 <= i < |m.options| :: m.options[i].number < 0x1_0000_0000
  }

  function ExtSize(v: nat): nat {
    if v < 13 then 0 else if v <= 268 then 1 else if v <= MAX_EXT then 2 else 0
  }

  function Base(v: nat): (b: nat)
    ensures b < 15
  {
    if v < 13 then v else if v <= 268 then 13 else 14
  }

  function Ext(v: nat): (e: seq<byte>)
    requires v <= MAX_EXT
    ensures |e| == ExtSize(v)
  {
    if v < 13 then [] else if v <= 268 then [v - 13] else [(v - 269) / 256, (v - 269) % 256]
  }

  /** Options in order from prev on, each close enough to the one before and short enough. */
  predicate Encodable(prev: nat, os: seq<Opt>)
    decreases |os|
  {
    os == [] ||
    (prev <= os[0].number <= prev + MAX_EXT && |os[0].value| <= MAX_EXT && Encodable(os[0].number, os[1..]))
  }

  /** The field a composer complains about, checked in this order. */
  datatype Check = Accepted | Refused(field: Field)

  function Checked(m: Message): Check {
    if m.msgType > 3 then Refused(TypeField)
    else if |m.token| > 8 then Refused(TokenField)
    else if m.codeClass > 7 then Refused(ClassField)
    else if m.codeDetail > 31 then Refused(DetailField)
    else if Encodable(0, m.options) then Accepted
    else Refused(OptionsField)
  }

  function OptWire(prev: nat, o: Opt): (w: seq<byte>)
    requires prev <= o.number <= prev + MAX_EXT && |o.value| <= MAX_EXT
    ensures |w| == 1 + ExtSize(o.number - prev) + ExtSize(|o.value|) + |o.value|
  {
    [Base(o.number - prev) * 16 + Base(|o.value|)] + Ext(o.number - prev) + Ext(|o.value|) + o.value
  }

  function OptsWire(prev: nat, os: seq<Opt>): seq<byte>
    requires Encodable(prev, os)
    decreases |os|
  {
    if os == [] then [] else OptWire(prev, os[0]) + OptsWire(os[0].number, os[1..])
  }

  function Head(m: Message): (h: seq<byte>)
    requires Typed(m) && Checked(m) == Accepted
    ensures |h| == 4
  {
    [64 + m.msgType * 16 + |m.token|, m.codeClass * 32 + m.codeDetail, m.msgId / 256, m.msgId % 256]
  }

  function Marked(payload: seq<byte>): seq<byte> {
    if payload == [] then [] else [255] + payload
  }

  /** The packet of a message. */
  function Wire(m: Message): seq<byte>
    requires Typed(m) && Checked(m) == Accepted
  {
    Head(m) + (m.token + (OptsWire(0, m.options) + Marked(m.payload)))
  }

  // ---- parsing

  /** A 4-bit delta or length field with its extension: the value, as a 16-bit integer, and the bytes after it. */
  datatype Extended = Value(v: nat, rest: seq<byte>) | Short

  function GetExt(base: nat, s: seq<byte>): (x: Extended)
    requires base < 15
    ensures x.Value? ==> x.v < UINT16 && |x.rest| <= |s|
  {
    if base == 13 then
      if s == [] then Short else (var lo: nat := s[0]; Value(lo + 13, s[1..]))
    else if base == 14 then
      if |s| < 2 then Short
      else
        var hi: nat, lo: nat := s[0], s[1];
        Value((hi * 256 + lo + 269) % UINT16, s[2..])
    else Value(base, s)
  }

  /** mg_coap_add_option: after the last option with a number no greater. */
  function Added(os: seq<Opt>, o: Opt): seq<Opt> {
    if os == [] then [o]
    else if os[0].number > o.number then [o] + os
    else [os[0]] + Added(os[1..], o)
  }

  /** One option off the front: its number as a 16-bit sum, and what is left. */
  datatype OneOption = Got(o: Opt, after: seq<byte>) | Fails(why: Failure)

  /** The value of an option. */
  function GetValue(number: nat, len: nat, u: seq<byte>): (r: OneOption)
    requires number < UINT16 && len < UINT16
    ensures r.Got? ==> |r.after| <= |u| && r.o.number < UINT16 && |r.o.value| < UINT16
  {
    if len > |u| then Fails(NotEnoughData) else Got(Opt(number, u[..len]), u[len..])
  }

  /** The length and the value. */
  function GetSized(number: nat, base: nat, t: seq<byte>): (r: OneOption)
    requires number < UINT16 && base < 15
    ensures r.Got? ==> |r.after| <= |t| && r.o.number < UINT16 && |r.o.value| < UINT16
  {
    match GetExt(base, t)
    case Short => Fails(NotEnoughData)
    case Value(len, u) => GetValue(number, len, u)
  }

  function GetOption(s: seq<byte>, prev: nat): (r: OneOption)
    requires s != []
    ensures r.Got? ==> |r.after| < |s| && r.o.number < UINT16 && |r.o.value| < UINT16
  {
    var first: nat := s[0];
    if first / 16 == 15 || first % 16 == 15 then Fails(FormatError)
    else
      match GetExt(first / 16, s[1..])
      case Short => Fails(NotEnoughData)
      case Value(delta, t) => GetSized((delta + prev) % UINT16, first % 16, t)
  }

  datatype Options = Options(os: seq<Opt>, rest: seq<byte>) | Broken(why: Failure)

  /** Options up to the payload marker or the end. */
  function GetOptions(s: seq<byte>, prev: nat, os: seq<Opt>): Options
    decreases |s|
  {
    if s == [] || s[0] == 255 then Options(os, s)
    else
      match GetOption(s, prev)
      case Fails(why) => Broken(why)
      case Got(o, after) => GetOptions(after, o.number, Added(os, o))
  }

  /** What a parse leaves in the message, the fields it marks as present, and how it fails, if it does. */
  datatype Parsed = Parsed(m: Message, present: set<Field>, failure: Option<Failure>)

  datatype Option<T> = None | Some(value: T)

  const HEADER_FIELDS: set<Field> := {TypeField, ClassField, DetailField, IdField}

  function ParseTail(m: Message, present: set<Field>, s: seq<byte>): Parsed {
    if s == [] then Parsed(m, present, None)
    else
      match GetOptions(s, 0, [])
      case Broken(why) => Parsed(m, present, Some(why))
      case Options(os, rest) =>
        var fields := present + {OptionsField};
        if |rest| < 2 then Parsed(m.(options := os), fields, None)
        else Parsed(m.(options := os, payload := rest[1..]), fields + {PayloadField}, None)
  }

  function ParseToken(m: Message, tokenLen: nat, s: seq<byte>): Parsed {
    if tokenLen > |s| then Parsed(m, HEADER_FIELDS, Some(NotEnoughData))
    else if tokenLen == 0 then ParseTail(m, HEADER_FIELDS, s)
    else ParseTail(m.(token := s[..tokenLen]), HEADER_FIELDS + {TokenField}, s[tokenLen..])
  }

  /** mg_coap_parse */
  function Parse(s: seq<byte>): Parsed {
    if |s| < 4 then Parsed(EMPTY, {}, Some(NotEnoughData))
    else
      var a: nat, b: nat, hi: nat, lo: nat := s[0], s[1], s[2], s[3];
      if a / 64 != 1 then Parsed(EMPTY, {}, Some(Ignored))
      else
        var m := EMPTY.(msgType := a / 16 % 4);
        if a % 16 > 8 then Parsed(m, {TypeField}, Some(FormatError))
        else
          ParseToken(m.(codeClass := b / 32, codeDetail := b % 32, msgId := hi * 256 + lo), a % 16, s[4..])
  }

  // ---- parsing undoes composing, for 16-bit options

  predicate Small(os: seq<Opt>) {
    forall i | 0 <= i < |os| :: os[i].number < UINT16 && |os[i].value| < UINT16
  }

  lemma ExtBack(v: nat, z: seq<byte>)
    requires v < UINT16
    ensures GetExt(Base(v), Ext(v) + z) == Value(v, z)
  {
    var s := Ext(v) + z;
    assert s[|Ext(v)|..] == z;
    if v > 268 {
      assert s[0] == (v - 269) / 256 && s[1] == (v - 269) % 256;
    }
  }

  lemma OptionSteps(s: seq<byte>, prev: nat, o: Opt, z: seq<byte>, t: seq<byte>, u: seq<byte>)
    requires prev <= o.number < UINT16
    requires s != [] && s[0] == Base(o.number - prev) * 16 + Base(|o.value|)
    requires GetExt(Base(o.number - prev), s[1..]) == Value(o.number - prev, t)
    requires GetExt(Base(|o.value|), t) == Value(|o.value|, u) && u == o.value + z
    ensures GetOption(s, prev) == Got(o, z)
  {
    var first: nat := s[0];
    assert first / 16 == Base(o.number - prev) && first % 16 == Base(|o.value|);
    assert u[..|o.value|] == o.value && u[|o.value|..] == z;
  }

  lemma OptShape(b: byte, x: seq<byte>, y: seq<byte>, v: seq<byte>, z: seq<byte>, s: seq<byte>)
    requires s == [b] + x + y + v + z
    ensures s != [] && s[0] == b && s[1..] == x + (y + (v + z))
  {
  }

  lemma OptionBack(prev: nat, o: Opt, z: seq<byte>, s: seq<byte>)
    requires prev <= o.number < UINT16 && |o.value| < UINT16 && s == OptWire(prev, o) + z
    ensures s != [] && s[0] == Base(o.number - prev) * 16 + Base(|o.value|) && s[0] != 255
    ensures GetOption(s, prev) == Got(o, z)
  {
    var x, y, u := Ext(o.number - prev), Ext(|o.value|), o.value + z;
    OptShape(Base(o.number - prev) * 16 + Base(|o.value|), x, y, o.value, z, s);
    ExtBack(o.number - prev, y + u);
    ExtBack(|o.value|, u);
    OptionSteps(s, prev, o, z, y + u, u);
  }

  /** Every option so far has a number no greater than n. */
  predicate UpTo(os: seq<Opt>, n: nat) {
    os == [] || (os[0].number <= n && UpTo(os[1..], n))
  }

  /** An option whose number is not exceeded goes last. */
  lemma {:induction false} AddedLast(os: seq<Opt>, o: Opt, prev: nat)
    requires UpTo(os, prev) && prev <= o.number
    ensures Added(os, o) == os + [o] && UpTo(os + [o], o.number)
  {
    if os == [] {
      assert os + [o] == [o];
    } else {
      AddedLast(os[1..], o, prev);
      assert os + [o] == [os[0]] + (os[1..] + [o]);
    }
  }

  /** What follows the options: nothing, or the marker and a payload. */
  predicate Ends(z: seq<byte>) {
    z == [] || z[0] == 255
  }

  lemma Assoc<T>(a: seq<T>, b: seq<T>, c: seq<T>)
    ensures a + b + c == a + (b + c)
  {
  }

  lemma SmallTail(os: seq<Opt>)
    requires os != [] && Small(os)
    ensures Small(os[1..]) && os[0].number < UINT16 && |os[0].value| < UINT16
  {
  }

  lemma OptionsStep(s: seq<byte>, prev: nat, done: seq<Opt>, o: Opt, z: seq<byte>)
    requires s != [] && s[0] != 255 && GetOption(s, prev) == Got(o, z)
    ensures GetOptions(s, prev, done) == GetOptions(z, o.number, Added(done, o))
  {
  }

  lemma Shifted<T>(done: seq<T>, os: seq<T>)
    requires os != []
    ensures done + [os[0]] + os[1..] == done + os
  {
  }

  lemma OptionsFront(prev: nat, os: seq<Opt>, z: seq<byte>, s: seq<byte>, rest: seq<byte>)
    requires os != [] && Encodable(prev, os) && Small(os)
    requires s == OptsWire(prev, os) + z && rest == OptsWire(os[0].number, os[1..]) + z
    ensures s != [] && s[0] != 255 && GetOption(s, prev) == Got(os[0], rest)
    ensures Small(os[1..])
  {
    Assoc(OptWire(prev, os[0]), OptsWire(os[0].number, os[1..]), z);
    SmallTail(os);
    OptionBack(prev, os[0], rest, s);
  }

  lemma {:induction false} OptionsBack(prev: nat, os: seq<Opt>, done: seq<Opt>, z: seq<byte>)
    requires Encodable(prev, os) && Small(os) && Ends(z)
    requires UpTo(done, prev)
    ensures GetOptions(OptsWire(prev, os) + z, prev, done) == Options(done + os, z)
    decreases |os|
  {
    var s := OptsWire(prev, os) + z;
    if os == [] {
      assert s == z && done + os == done;
    } else {
      var o, rest := os[0], OptsWire(os[0].number, os[1..]) + z;
      OptionsFront(prev, os, z, s, rest);
      AddedLast(done, o, prev);
      OptionsBack(o.number, os[1..], done + [o], z);
      OptionsStep(s, prev, done, o, rest);
      Shifted(done, os);
    }
  }

  /** The fields present in a message: the parts of it that are not empty. */
  function Present(m: Message): set<Field> {
    HEADER_FIELDS
    + (if m.token == [] then {} else {TokenField})
    + (if m.options == [] && m.payload == [] then {} else {OptionsField})
    + (if m.payload == [] then {} else {PayloadField})
  }

  lemma TailBack(m: Message, base: Message, present: set<Field>)
    requires Typed(m) && Checked(m) == Accepted && Small(m.options)
    requires base == m.(options := [], payload := [])
    ensures var p := ParseTail(base, present, OptsWire(0, m.options) + Marked(m.payload));
      p == Parsed(m, present
        + (if m.options == [] && m.payload == [] then {} else {OptionsField})
        + (if m.payload == [] then {} else {PayloadField}), None)
  {
    var z := Marked(m.payload);
    OptionsBack(0, m.options, [], z);
    assert [] + m.options == m.options;
    if m.payload != [] { assert z[1..] == m.payload; }
    OptsEmpty(m.options);
  }

  lemma OptsEmpty(os: seq<Opt>)
    requires Encodable(0, os)
    ensures OptsWire(0, os) == [] <==> os == []
  {
  }

  lemma Bytes4(a: byte, b: byte, c: byte, d: byte, z: seq<byte>, s: seq<byte>)
    requires s == [a, b, c, d] + z
    ensures |s| >= 4 && s[0] == a && s[1] == b && s[2] == c && s[3] == d && s[4..] == z
  {
  }

  lemma HeadBack(m: Message, z: seq<byte>, s: seq<byte>)
    requires Typed(m) && Checked(m) == Accepted && s == Head(m) + z
    ensures Parse(s)
         == ParseToken(EMPTY.(msgType := m.msgType, codeClass := m.codeClass, codeDetail := m.codeDetail, msgId := m.msgId), |m.token|, z)
  {
    Bytes4(64 + m.msgType * 16 + |m.token|, m.codeClass * 32 + m.codeDetail, m.msgId / 256, m.msgId % 256, z, s);
    var a: nat, b: nat := s[0], s[1];
    assert a / 64 == 1 && a / 16 % 4 == m.msgType && a % 16 == |m.token|;
    assert b / 32 == m.codeClass && b % 32 == m.codeDetail;
  }

  lemma TokenBack(m: Message, base: Message, z: seq<byte>)
    requires base == m.(token := [], options := [], payload := [])
    ensures ParseToken(base, |m.token|, m.token + z)
         == ParseTail(base.(token := m.token), HEADER_FIELDS + (if m.token == [] then {} else {TokenField}), z)
  {
    var s := m.token + z;
    assert s[..|m.token|] == m.token && s[|m.token|..] == z;
  }

  /** The same header, token, options and payload come back, each part marked present when it is not empty. */
  lemma ParseCompose(m: Message)
    requires Typed(m) && Checked(m) == Accepted && Small(m.options)
    ensures Parse(Wire(m)) == Parsed(m, Present(m), None)
  {
    var tail := OptsWire(0, m.options) + Marked(m.payload);
    HeadBack(m, m.token + tail, Wire(m));
    TokenBack(m, m.(token := [], options := [], payload := []), tail);
    TailBack(m, m.(options := [], payload := []), HEADER_FIELDS + (if m.token == [] then {} else {TokenField}));
  }

  // ---- and only for those

  lemma {:induction false} AddedSmall(os: seq<Opt>, o: Opt)
    requires Small(os) && o.number < UINT16 && |o.value| < UINT16
    ensures Small(Added(os, o))
  {
    if os != [] && os[0].number <= o.number {
      SmallTail(os);
      AddedSmall(os[1..], o);
    }
  }

  lemma {:induction false} ReadSmall(s: seq<byte>, prev: nat, os: seq<Opt>)
    requires Small(os)
    ensures GetOptions(s, prev, os).Options? ==> Small(GetOptions(s, prev, os).os)
    decreases |s|
  {
    if s != [] && s[0] != 255 {
      var r := GetOption(s, prev);
      if r.Got? {
        AddedSmall(os, r.o);
        ReadSmall(r.after, r.o.number, Added(os, r.o));
      }
    }
  }

  /** A parser with 16-bit option numbers and lengths hands over nothing larger. */
  lemma ParsedSmall(s: seq<byte>)
    ensures Small(Parse(s).m.options)
  {
    if |s| >= 4 {
      var n := s[0] as int % 16;
      var t := s[4..];
      ReadSmall(t, 0, []);
      if n <= |t| { ReadSmall(t[n..], 0, []); }
    }
  }

  /** A composed message parses back to itself exactly when its option numbers and lengths fit 16 bits;
      the composer itself accepts numbers further apart than that in all, and lengths up to 65804. */
  lemma RoundTripIff(m: Message)
    requires Typed(m) && Checked(m) == Accepted
    ensures Parse(Wire(m)) == Parsed(m, Present(m), None) <==> Small(m.options)
  {
    ParsedSmall(Wire(m));
    if Small(m.options) { ParseCompose(m); }
  }

  /** An accepted message that comes back with another option number. */
  lemma LargeNumberLost()
    ensures var m := EMPTY.(options := [Opt(40000, []), Opt(70000, [])]);
      Typed(m) && Checked(m) == Accepted && Parse(Wire(m)).m != m
  {
    var m := EMPTY.(options := [Opt(40000, []), Opt(70000, [])]);
    assert m.options[1..] == [Opt(70000, [])] && m.options[1..][1..] == [];
    assert Encodable(70000, []) && Encodable(40000, [Opt(70000, [])]);
    ParsedSmall(Wire(m));
    assert m.options[1].number == 70000;
  }
}
