/** Composing into a buffer at a moving position, and filling in a message from one. */
module Coap {
  import opened Mbufs
  import opened CoapWire

  /** The size computed before anything is written. */
  method PacketSize(m: Message) returns (check: Check, len: nat)
    requires Typed(m)
    ensures check == Checked(m)
    ensures check == Accepted ==> len == |Wire(m)|
  {
    len := 4;
    if m.msgType > 3 { return Refused(TypeField), len; }
    if |m.token| > 8 { return Refused(TokenField), len; }
    if m.codeClass > 7 { return Refused(ClassField), len; }
    if m.codeDetail > 31 { return Refused(DetailField), len; }
    len := len + |m.token|;
    if |m.payload| != 0 {
      len := len + |m.payload| + 1;
    }
    ghost var base := len;
    var i: nat, prev: nat := 0, 0;
    assert m.options[0..] == m.options;
    while i < |m.options|
      invariant i <= |m.options| && (i < |m.options| ==> prev <= m.options[i].number)
      invariant Encodable(0, m.options) <==> Encodable(prev, m.options[i..])
      invariant Encodable(0, m.options) ==> len + |OptsWire(prev, m.options[i..])| == base + |OptsWire(0, m.options)|
    {
      var o := m.options[i];
      ghost var os := m.options[i..];
      assert os[0] == o && os[1..] == m.options[i + 1..];
      len := len + 1 + ExtSize(o.number - prev) + ExtSize(|o.value|);
      if (i + 1 < |m.options| && o.number > m.options[i + 1].number) || |o.value| > MAX_EXT || o.number - prev > MAX_EXT {
        NotEncodable(prev, os);
        return Refused(OptionsField), len;
      }
      len := len + |o.value|;
      prev := o.number;
      i := i + 1;
    }
    check := Accepted;
  }

  lemma NotEncodable(prev: nat, os: seq<Opt>)
    requires os != [] && prev <= os[0].number
    requires (|os| > 1 && os[0].number > os[1].number) || |os[0].value| > MAX_EXT || os[0].number - prev > MAX_EXT
    ensures !Encodable(prev, os)
  {
  }

  // ---- composing

  /** Copy to a moving position. */
  method Put(a: array<byte>, ptr: nat, data: seq<byte>) returns (ptr': nat)
    requires ptr + |data| <= a.Length
    modifies a
    ensures ptr' == ptr + |data| && a[..ptr'] == old(a[..ptr]) + data
  {
    ghost var was := a[..];
    Copy(a, ptr, data);
    ptr' := ptr + |data|;
    CopiedFront(was, ptr, data);
    assert a[..ptr'] == a[..][..ptr'] && was[..ptr] == old(a[..ptr]);
  }

  lemma CopiedFront(was: seq<byte>, ptr: nat, data: seq<byte>)
    requires ptr + |data| <= |was|
    ensures Copied(was, ptr, data)[..ptr + |data|] == was[..ptr] + data
  {
  }

  /** coap_split_opt */
  method SplitOpt(value: nat) returns (base: nat, ext: nat, size: nat)
    requires value <= MAX_EXT
    ensures base == Base(value) && size == ExtSize(value)
    ensures size == 1 ==> ext == value - 13
    ensures size == 2 ==> ext == value - 269
  {
    base, ext, size := 0, 0, 0;
    if value < 13 {
      base := value;
    } else if value <= 0xFF + 13 {
      base, ext, size := 13, value - 13, 1;
    } else {
      base, ext, size := 14, value - 269, 2;
    }
  }

  /** coap_add_opt_info */
  method AddOptInfo(a: array<byte>, ptr: nat, ext: nat, size: nat, ghost value: nat) returns (ptr': nat)
    requires value <= MAX_EXT && size == ExtSize(value) && ptr + size <= a.Length
    requires (size == 1 ==> ext == value - 13) && (size == 2 ==> ext == value - 269)
    modifies a
    ensures ptr' == ptr + size && a[..ptr'] == old(a[..ptr]) + Ext(value)
  {
    if size == 1 {
      ptr' := Put(a, ptr, [ext]);
    } else if size == 2 {
      ptr' := Put(a, ptr, [ext / 256, ext % 256]);
    } else {
      ptr' := ptr;
      assert a[..ptr] + [] == a[..ptr];
    }
  }

  /** First byte and the two extensions. */
  method PutOptHead(a: array<byte>, ptr: nat, delta: nat, len: nat) returns (ptr': nat)
    requires delta <= MAX_EXT && len <= MAX_EXT && ptr + 1 + ExtSize(delta) + ExtSize(len) <= a.Length
    modifies a
    ensures ptr' == ptr + 1 + ExtSize(delta) + ExtSize(len)
    ensures a[..ptr'] == old(a[..ptr]) + ([Base(delta) * 16 + Base(len)] + Ext(delta) + Ext(len))
  {
    ghost var was := a[..ptr];
    var deltaBase, deltaExt, deltaSize := SplitOpt(delta);
    var lengthBase, lengthExt, lengthSize := SplitOpt(len);
    ptr' := Put(a, ptr, [deltaBase * 16 + lengthBase]);
    ptr' := AddOptInfo(a, ptr', deltaExt, deltaSize, delta);
    ptr' := AddOptInfo(a, ptr', lengthExt, lengthSize, len);
    OptParts(was, [deltaBase * 16 + lengthBase], Ext(delta), Ext(len));
  }

  method PutOption(a: array<byte>, ptr: nat, o: Opt, prev: nat) returns (ptr': nat)
    requires prev <= o.number <= prev + MAX_EXT && |o.value| <= MAX_EXT
    requires ptr + |OptWire(prev, o)| <= a.Length
    modifies a
    ensures ptr' == ptr + |OptWire(prev, o)| && a[..ptr'] == old(a[..ptr]) + OptWire(prev, o)
  {
    ghost var was := a[..ptr];
    ptr' := PutOptHead(a, ptr, o.number - prev, |o.value|);
    ghost var head := [Base(o.number - prev) * 16 + Base(|o.value|)] + Ext(o.number - prev) + Ext(|o.value|);
    ptr' := Put(a, ptr', o.value);
    Assoc(was, head, o.value);
  }

  lemma OptParts(was: seq<byte>, b: seq<byte>, x: seq<byte>, y: seq<byte>)
    ensures was + b + x + y == was + (b + x + y)
  {
  }

  method PutOptions(a: array<byte>, ptr: nat, os: seq<Opt>) returns (ptr': nat)
    requires Encodable(0, os) && ptr + |OptsWire(0, os)| <= a.Length
    modifies a
    ensures ptr' == ptr + |OptsWire(0, os)| && a[..ptr'] == old(a[..ptr]) + OptsWire(0, os)
  {
    ghost var goal := a[..ptr] + OptsWire(0, os);
    var i: nat, prev: nat := 0, 0;
    ptr' := ptr;
    assert os[0..] == os;
    while i < |os|
      invariant i <= |os| && Encodable(prev, os[i..])
      invariant ptr' + |OptsWire(prev, os[i..])| == ptr + |OptsWire(0, os)|
      invariant a[..ptr'] + OptsWire(prev, os[i..]) == goal
    {
      ghost var rest := os[i..];
      assert rest[0] == os[i] && rest[1..] == os[i + 1..];
      Assoc(a[..ptr'], OptWire(prev, os[i]), OptsWire(os[i].number, rest[1..]));
      ptr' := PutOption(a, ptr', os[i], prev);
      prev := os[i].number;
      i := i + 1;
    }
    Ended(a[..ptr']);
  }

  lemma Ended(s: seq<byte>)
    ensures s + [] == s
  {
  }

  method PutHead(a: array<byte>, start: nat, m: Message) returns (ptr: nat)
    requires Typed(m) && Checked(m) == Accepted && start + 4 <= a.Length
    modifies a
    ensures ptr == start + 4 && a[..ptr] == old(a[..start]) + Head(m)
  {
    ghost var was := a[..start];
    var x, y, z, w := 64 + m.msgType * 16 + |m.token|, m.codeClass * 32 + m.codeDetail, m.msgId / 256, m.msgId % 256;
    ptr := Put(a, start, [x]);
    ptr := Put(a, ptr, [y]);
    ptr := Put(a, ptr, [z, w]);
    HeadParts(was, x, y, z, w);
  }

  method PutMessage(a: array<byte>, start: nat, m: Message) returns (ptr: nat)
    requires Typed(m) && Checked(m) == Accepted && start + |Wire(m)| <= a.Length
    modifies a
    ensures ptr == start + |Wire(m)| && a[..ptr] == old(a[..start]) + Wire(m)
  {
    ghost var was, h, t, o, p := a[..start], Head(m), m.token, OptsWire(0, m.options), Marked(m.payload);
    MessageParts(was, h, t, o, p);
    assert |Wire(m)| == |h| + |t| + |o| + |p|;
    ptr := PutHead(a, start, m);
    ptr := Put(a, ptr, m.token);
    ptr := PutOptions(a, ptr, m.options);
    ptr := PutPayload(a, ptr, m.payload);
  }

  method PutPayload(a: array<byte>, ptr: nat, payload: seq<byte>) returns (ptr': nat)
    requires ptr + |Marked(payload)| <= a.Length
    modifies a
    ensures ptr' == ptr + |Marked(payload)| && a[..ptr'] == old(a[..ptr]) + Marked(payload)
  {
    ptr' := ptr;
    Ended(a[..ptr]);
    if |payload| != 0 {
      Assoc(a[..ptr], [255], payload);
      ptr' := Put(a, ptr, [255]);
      ptr' := Put(a, ptr', payload);
    }
  }

  lemma HeadParts(was: seq<byte>, x: byte, y: byte, z: byte, w: byte)
    ensures was + [x] + [y] + [z, w] == was + [x, y, z, w]
  {
  }

  lemma MessageParts(was: seq<byte>, h: seq<byte>, t: seq<byte>, o: seq<byte>, p: seq<byte>)
    ensures was + h + t + o + p == was + (h + (t + (o + p)))
  {
  }

  /** mg_coap_compose: the bytes written are exactly those the size was computed for, after what the buffer held. */
  method Compose(m: Message, io: Mbuf) returns (check: Check)
    requires Typed(m) && io.Valid()
    modifies io, io.buf
    ensures io.Valid() && check == Checked(m)
    ensures io.Contents() == if check == Accepted then old(io.Contents()) + Wire(m) else old(io.Contents())
  {
    var size;
    check, size := PacketSize(m);
    if check != Accepted { return; }
    var start := io.len;
    ghost var was := io.Contents();
    io.Extend(size);
    assert io.buf[..start] == was by { assert io.Contents()[..start] == io.buf[..start]; }
    var ptr := PutMessage(io.buf, start, m);
    assert ptr == io.len;
  }

  // ---- parsing

  /** Numbers in order, from n on. */
  predicate SortedFrom(n: nat, os: seq<Opt>)
    decreases |os|
  {
    os == [] || (n <= os[0].number && SortedFrom(os[0].number, os[1..]))
  }

  lemma {:induction false} AddedAtEnd(n: nat, os: seq<Opt>, o: Opt)
    requires SortedFrom(n, os) && os != [] && os[|os| - 1].number <= o.number
    ensures Added(os, o) == os + [o] && n <= o.number
    decreases |os|
  {
    if |os| == 1 {
      assert os[1..] == [];
      assert os + [o] == [os[0]] + [o];
    } else {
      AddedAtEnd(os[0].number, os[1..], o);
      assert os + [o] == [os[0]] + (os[1..] + [o]);
    }
  }

  lemma {:induction false} AddedSorted(n: nat, os: seq<Opt>, o: Opt)
    requires SortedFrom(n, os) && n <= o.number
    ensures SortedFrom(n, Added(os, o))
    decreases |os|
  {
    if os == [] {
      assert [o][1..] == [];
    } else if os[0].number > o.number {
      assert ([o] + os)[1..] == os;
    } else {
      AddedSorted(os[0].number, os[1..], o);
      assert ([os[0]] + Added(os[1..], o))[1..] == Added(os[1..], o);
    }
  }

  lemma AddedNext(os: seq<Opt>, i: nat, o: Opt)
    requires i < |os| && os[i].number <= o.number
    ensures os[..i] + Added(os[i..], o) == os[..i + 1] + Added(os[i + 1..], o)
  {
    From(os, i, 1);
    TakeNext(os, i);
    Assoc(os[..i], [os[i]], Added(os[i + 1..], o));
  }

  lemma TakeNext<T>(s: seq<T>, i: nat)
    requires i < |s|
    ensures s[..i + 1] == s[..i] + [s[i]]
  {
  }

  /** mg_coap_add_option on a list in order. */
  method AddOption(os: seq<Opt>, o: Opt) returns (r: seq<Opt>)
    requires SortedFrom(0, os)
    ensures r == Added(os, o) && SortedFrom(0, r)
  {
    AddedSorted(0, os, o);
    if os == [] {
      r := [o];
    } else if os[|os| - 1].number <= o.number {
      AddedAtEnd(0, os, o);
      r := os + [o];
    } else {
      var i := 0;
      assert os[..0] + Added(os[0..], o) == Added(os, o) by { assert os[0..] == os; }
      while i < |os| && os[i].number <= o.number
        invariant i <= |os| && Added(os, o) == os[..i] + Added(os[i..], o)
      {
        AddedNext(os, i, o);
        i := i + 1;
      }
      r := os[..i] + ([o] + os[i..]);
    }
  }

  lemma From<T>(s: seq<T>, p: nat, k: nat)
    requires p + k <= |s|
    ensures s[p..][k..] == s[p + k..]
  {
  }

  /** coap_get_ext_opt: the value as a 16-bit integer, and how many bytes it took; -1 if they are not there. */
  method GetExtOpt(s: seq<byte>, ptr: nat, base: nat) returns (v: nat, ret: int)
    requires ptr <= |s| && base < 15
    ensures ret == -1 || (0 <= ret && ptr + ret <= |s|)
    ensures GetExt(base, s[ptr..]) == if ret == -1 then Short else CoapWire.Value(v, s[ptr + ret..])
  {
    v, ret := base, 0;
    if base == 13 {
      if ptr < |s| {
        var lo: nat := s[ptr];
        v, ret := lo + 13, 1;
        From(s, ptr, 1);
      } else {
        ret := -1;
      }
    } else if base == 14 {
      if ptr + 1 < |s| {
        var hi: nat, lo: nat := s[ptr], s[ptr + 1];
        v, ret := (hi * 256 + lo + 269) % UINT16, 2;
        From(s, ptr, 2);
      } else {
        ret := -1;
      }
    }
  }

  /** The value of an option, once its lengths are known. */
  method ReadValue(s: seq<byte>, start: nat, number: nat, len: nat) returns (r: OneOption, ptr: nat)
    requires start <= |s| && number < UINT16 && len < UINT16
    ensures start <= ptr <= |s| && r == GetValue(number, len, s[start..])
    ensures r.Got? ==> r.after == s[ptr..]
  {
    ptr := start;
    if ptr + len > |s| { return Fails(NotEnoughData), ptr; }
    var value := s[ptr..ptr + len];
    From(s, ptr, len);
    Between(s, ptr, len);
    ptr := ptr + len;
    r := Got(Opt(number, value), s[ptr..]);
  }

  method ReadSized(s: seq<byte>, start: nat, number: nat, base: nat) returns (r: OneOption, ptr: nat)
    requires start <= |s| && number < UINT16 && base < 15
    ensures start <= ptr <= |s| && r == GetSized(number, base, s[start..])
    ensures r.Got? ==> r.after == s[ptr..]
  {
    ptr := start;
    var len, ret := GetExtOpt(s, ptr, base);
    if ret == -1 { return Fails(NotEnoughData), ptr; }
    r, ptr := ReadValue(s, ptr + ret, number, len);
  }

  lemma Between<T>(s: seq<T>, p: nat, k: nat)
    requires p + k <= |s|
    ensures s[p..][..k] == s[p..p + k]
  {
  }

  /** The loop body of coap_get_options, without the insertion. */
  method ReadOption(s: seq<byte>, start: nat, prev: nat) returns (r: OneOption, ptr: nat)
    requires start < |s|
    ensures ptr <= |s| && r == GetOption(s[start..], prev)
    ensures r.Got? ==> start < ptr && r.after == s[ptr..]
  {
    ptr := start;
    var first: nat := s[ptr];
    ghost var d := s[start..];
    assert d[0] == first;
    if first / 16 == 15 || first % 16 == 15 { return Fails(FormatError), ptr; }
    From(s, ptr, 1);
    ptr := ptr + 1;
    var delta, ret := GetExtOpt(s, ptr, first / 16);
    if ret == -1 { return Fails(NotEnoughData), ptr; }
    r, ptr := ReadSized(s, ptr + ret, (delta + prev) % UINT16, first % 16);
  }

  lemma TokenAt(m: Message, tokenLen: nat, s: seq<byte>)
    requires 4 + tokenLen <= |s| && m.token == []
    ensures ParseToken(m, tokenLen, s[4..])
      == ParseTail(m.(token := s[4..4 + tokenLen]), HEADER_FIELDS + (if tokenLen == 0 then {} else {TokenField}), s[4 + tokenLen..])
  {
    From(s, 4, tokenLen);
    Between(s, 4, tokenLen);
  }

  class CoapMessage {
    var msgType: nat
    var codeClass: nat
    var codeDetail: nat
    var msgId: nat
    var token: seq<byte>
    var options: seq<Opt>
    var payload: seq<byte>
    var present: set<Field>
    var failure: Option<Failure>

    ghost function Value(): Parsed
      reads this
    {
      Parsed(Message(msgType, codeClass, codeDetail, msgId, token, options, payload), present, failure)
    }

    constructor ()
      ensures Value() == Parsed(EMPTY, {}, None)
    {
      msgType, codeClass, codeDetail, msgId, token, options, payload := 0, 0, 0, 0, [], [], [];
      present, failure := {}, None;
    }

    /** The loop of coap_get_options. */
    method LoopOptions(s: seq<byte>, start: nat) returns (ok: bool, p: nat)
      requires start <= |s| && options == []
      modifies this`options, this`failure
      ensures start <= p <= |s| && (ok ==> failure == old(failure))
      ensures if ok then GetOptions(s[start..], 0, []) == Options(options, s[p..])
              else options == [] && failure.Some? && GetOptions(s[start..], 0, []) == Broken(failure.value)
    {
      ghost var goal := GetOptions(s[start..], 0, []);
      var prev: nat := 0;
      p := start;
      while p < |s| && s[p] != 255
        invariant start <= p <= |s| && SortedFrom(0, options) && failure == old(failure)
        invariant GetOptions(s[p..], prev, options) == goal
        decreases |s| - p
      {
        var r, q := ReadOption(s, p, prev);
        match r {
          case Fails(why) =>
            failure := Some(why);
            options := [];
            return false, p;
          case Got(o, _) =>
            options := AddOption(options, o);
            p, prev := q, o.number;
        }
      }
      ok := true;
    }

    /** coap_get_options; where the payload starts, if there is one. */
    method ReadOptions(s: seq<byte>, start: nat) returns (ptr: Option<nat>)
      requires start <= |s| && options == [] && payload == [] && failure == None
      modifies this`options, this`present, this`failure
      ensures ptr.Some? ==> ptr.value <= |s| && failure == None
      ensures ParseTail(old(Value().m), old(present), s[start..])
        == if ptr == None || ptr.value == |s| then Value()
           else Parsed(Value().m.(payload := s[ptr.value..]), present + {PayloadField}, None)
    {
      if start == |s| { return None; }
      var ok, p := LoopOptions(s, start);
      if !ok { return None; }
      present := present + {OptionsField};
      if p == |s| { return None; }
      From(s, p, 1);
      ptr := Some(p + 1);
    }

    /** mg_coap_parse */
    method Parse(s: seq<byte>)
      modifies this
      ensures Value() == CoapWire.Parse(s)
    {
      hide ParseToken, ParseTail, GetOptions;
      msgType, codeClass, codeDetail, msgId, token, options, payload := 0, 0, 0, 0, [], [], [];
      present, failure := {}, None;
      if |s| < 4 {
        failure := Some(NotEnoughData);
        return;
      }
      var a: nat, b: nat, hi: nat, lo: nat := s[0], s[1], s[2], s[3];
      if a / 64 != 1 {
        failure := Some(Ignored);
        return;
      }
      msgType := a / 16 % 4;
      present := {TypeField};
      var tokenLen := a % 16;
      if tokenLen > 8 {
        failure := Some(FormatError);
        return;
      }
      codeClass, codeDetail, msgId := b / 32, b % 32, hi * 256 + lo;
      present := present + {ClassField, DetailField, IdField};
      assert present == HEADER_FIELDS;
      ReadBody(s, tokenLen);
    }

    /** coap_get_token; where the options start. */
    method ReadToken(s: seq<byte>, tokenLen: nat) returns (ptr: Option<nat>)
      requires |s| >= 4 && failure == None && token == []
      modifies this`token, this`present, this`failure
      ensures ptr == if 4 + tokenLen > |s| then None else Some(4 + tokenLen)
      ensures ptr == None ==> Value() == old(Value()).(failure := Some(NotEnoughData))
      ensures ptr.Some? ==> Value() == old(Value()).(m := old(Value()).m.(token := s[4..4 + tokenLen]), present := present)
      ensures ptr.Some? ==> present == old(present) + (if tokenLen == 0 then {} else {TokenField})
    {
      var p := 4;
      if tokenLen != 0 {
        if p + tokenLen > |s| {
          failure := Some(NotEnoughData);
          return None;
        }
        token := s[p..p + tokenLen];
        p := p + tokenLen;
        present := present + {TokenField};
      }
      ptr := Some(p);
    }

    method ReadBody(s: seq<byte>, tokenLen: nat)
      requires |s| >= 4 && options == [] && payload == [] && token == [] && failure == None && present == HEADER_FIELDS
      modifies this`token, this`options, this`payload, this`present, this`failure
      ensures Value() == ParseToken(old(Value()).m, tokenLen, s[4..])
    {
      hide ParseTail, GetOptions;
      ghost var m := Value().m;
      var ptr := ReadToken(s, tokenLen);
      if ptr == None { return; }
      TokenAt(m, tokenLen, s);
      ReadRest(s, ptr.value);
    }

    method ReadRest(s: seq<byte>, start: nat)
      requires start <= |s| && options == [] && payload == [] && failure == None
      modifies this`options, this`payload, this`present, this`failure
      ensures Value() == ParseTail(old(Value()).m, old(present), s[start..])
    {
      var ptr := ReadOptions(s, start);
      if ptr == None { return; }
      if ptr.value != |s| {
        payload := s[ptr.value..];
        present := present + {PayloadField};
      }
    }
  }
}
