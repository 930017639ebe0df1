/**
 Decoding a WebSocket stream: one step of the decoder on values, the loop around
 it, and what a legal stream delivers however it is cut into reads (RFC 6455
 sections 5.4 and 5.5).
 */
module WsStream {
  import opened Mbufs
  import opened WsFrames

  datatype Event =
    | Message(flags: byte, data: seq<byte>)   // MG_EV_WEBSOCKET_FRAME
    | Control(flags: byte, data: seq<byte>)   // MG_EV_WEBSOCKET_CONTROL_FRAME
    | SendPong(data: seq<byte>)
    | SendClose(why: Closing)

  datatype Closing = Echo(data: seq<byte>) | FragmentedControl | NotContinuation | Overflowed

  /** The first `reass` bytes of buf are a message under reassembly, opcode first; the rest is undecoded. */
  datatype State = State(buf: seq<byte>, reass: nat, log: seq<Event>)

  /** One call of the decoder: another frame may follow, nothing more can be done now, or it would read outside the buffer. */
  datatype Outcome = Again(s: State) | Idle(s: State) | Stray

  function Handed(flags: byte, data: seq<byte>): Event {
    if flags / 8 % 2 == 1 then Control(flags, data) else Message(flags, data)
  }

  function Reaction(flags: byte, data: seq<byte>): seq<Event> {
    if flags % 16 == OP_PING then [SendPong(data)]
    else if flags % 16 == OP_CLOSE then [SendClose(Echo(data))]
    else []
  }

  function WithFin(flags: byte): byte {
    if flags < FIN then FIN + flags else flags
  }

  /** A frame that is a message of its own. */
  function Complete(s: State, flags: byte, data: seq<byte>, rest: seq<byte>): (o: Outcome)
    requires s.reass <= |s.buf|
    ensures o.Again? && o.s.reass <= |o.s.buf| == s.reass + |rest|
  {
    Again(State(s.buf[..s.reass] + rest, s.reass, s.log + Reaction(flags, data) + [Handed(flags, data)]))
  }

  /** A fragment: its payload joins the message under reassembly, and the last one hands the message over. */
  function Joined(s: State, flags: byte, data: seq<byte>, rest: seq<byte>): (o: Outcome)
    requires s.reass <= |s.buf|
    ensures o.Again? ==> o.s.reass <= |o.s.buf| <= s.reass + 1 + |data| + |rest|
    ensures !o.Idle?
  {
    var first := IsFirstFragment(flags);
    var buf := s.buf[..s.reass] + (if first then [flags] else []) + data + rest;
    var reass := (if first then 1 else s.reass) + |data|;
    if flags < FIN then Again(State(buf, reass, s.log))
    else if reass == 0 then Stray
    else Again(State(buf[reass..], 0, s.log + [Handed(WithFin(buf[0]), buf[1..reass])]))
  }

  /** A decoded frame, with what follows it in the buffer. */
  function Step(s: State, flags: byte, data: seq<byte>, rest: seq<byte>): (o: Outcome)
    requires s.reass <= |s.buf|
    ensures o.Again? ==> o.s.reass <= |o.s.buf| <= s.reass + 1 + |data| + |rest|
    ensures !o.Idle?
  {
    if IsFragment(flags) then Joined(s, flags, data, rest) else Complete(s, flags, data, rest)
  }

  /** Why the decoder closes before measuring the frame, if it does. */
  function Refusal(d: seq<byte>, reass: nat): seq<Event> {
    if d == [] then []
    else if IsFragment(d[0]) && IsControl(d[0]) then [SendClose(FragmentedControl)]
    else if !IsFragment(d[0]) && !IsControl(d[0]) && reass > 0 then [SendClose(NotContinuation)]
    else []
  }

  const SIZE_RANGE: nat := 0x1_0000_0000_0000_0000

  /** The 64-bit sum of the two lengths wraps around. */
  predicate Wraps(header: nat, data: nat) {
    var frame := (header + data) % SIZE_RANGE;
    frame < header || frame < data
  }

  /** A measured frame: overflowed, not all there, or decoded. */
  function Decode(s: State, d: seq<byte>, header: nat, data: nat): (o: Outcome)
    requires s.reass <= |s.buf| && d == s.buf[s.reass..] && Lengths(d) == (header, data)
    ensures o.Again? ==> o.s.reass <= |o.s.buf| < |s.buf|
    ensures o.Idle? ==> o.s.reass <= |o.s.buf|
  {
    if Wraps(header, data) then Idle(s.(log := s.log + [SendClose(Overflowed)]))
    else if header + data == 0 || header + data > |d| then Idle(s)
    else Step(s, d[0], Payload(d, header, data), d[header + data..])
  }

  /** mg_deliver_websocket_data */
  function Deliver(s: State): (o: Outcome)
    requires s.reass <= |s.buf|
    ensures o.Again? ==> o.s.reass <= |o.s.buf| < |s.buf|
    ensures o.Idle? ==> o.s.reass <= |o.s.buf|
  {
    var d := s.buf[s.reass..];
    var refusal := Refusal(d, s.reass);
    if refusal != [] then Idle(s.(log := s.log + refusal))
    else Decode(s, d, Lengths(d).0, Lengths(d).1)
  }

  /** The do-while loop on a receive event. */
  function Drain(s: State): Outcome
    requires s.reass <= |s.buf|
    decreases |s.buf|
  {
    match Deliver(s)
    case Again(t) => Drain(t)
    case Idle(t) => Idle(t)
    case Stray => Stray
  }

  /** A socket read of any size, then the loop. */
  function Read(s: State, chunk: seq<byte>): (o: Outcome)
    requires s.reass <= |s.buf|
  {
    Drain(s.(buf := s.buf + chunk))
  }

  lemma {:induction false} DrainKeeps(s: State)
    requires s.reass <= |s.buf|
    ensures Drain(s).Idle? ==> Drain(s).s.reass <= |Drain(s).s.buf|
    ensures !Drain(s).Again?
    decreases |s.buf|
  {
    var o := Deliver(s);
    if o.Again? { DrainKeeps(o.s); }
  }

  function Reads(s: State, chunks: seq<seq<byte>>): Outcome
    requires s.reass <= |s.buf|
    decreases |chunks|
  {
    if chunks == [] then Idle(s)
    else
      DrainKeeps(s.(buf := s.buf + chunks[0]));
      match Read(s, chunks[0])
      case Idle(t) => Reads(t, chunks[1..])
      case other => other
  }

  // ---- legal streams

  /** A frame that may come when the message under reassembly is p (empty for none). */
  predicate LegalNext(p: seq<byte>, f: Frame) {
    && Proper(f)
    && if f.op >= 8 then f.fin && f.op <= OP_PONG && |f.data| < 126
       else (f.op == OP_CONTINUE) == (p != [])
  }

  /** The message under reassembly after a frame: opcode byte, then the payloads so far. */
  function After(p: seq<byte>, f: Frame): seq<byte>
    requires LegalNext(p, f)
  {
    if f.op >= 8 then p
    else if f.fin then []
    else if p == [] then [f.op] + f.data
    else p + f.data
  }

  /** What a frame makes the decoder hand over. */
  function Given(p: seq<byte>, f: Frame): seq<Event>
    requires LegalNext(p, f)
  {
    if f.op >= 8 then Reaction(FIN + f.op, f.data) + [Control(FIN + f.op, f.data)]
    else if !f.fin then []
    else if p == [] then [Message(FIN + f.op, f.data)]
    else [Message(WithFin(p[0]), p[1..] + f.data)]
  }

  predicate Legal(p: seq<byte>, fs: seq<Frame>)
    decreases |fs|
  {
    fs == [] || (LegalNext(p, fs[0]) && Legal(After(p, fs[0]), fs[1..]))
  }

  function Wires(p: seq<byte>, fs: seq<Frame>): seq<byte>
    requires Legal(p, fs)
    decreases |fs|
  {
    if fs == [] then [] else Wire(fs[0]) + Wires(After(p, fs[0]), fs[1..])
  }

  /** Everything a legal stream hands over, in order. */
  function AllGiven(p: seq<byte>, fs: seq<Frame>): seq<Event>
    requires Legal(p, fs)
    decreases |fs|
  {
    if fs == [] then [] else Given(p, fs[0]) + AllGiven(After(p, fs[0]), fs[1..])
  }

  function AfterAll(p: seq<byte>, fs: seq<Frame>): seq<byte>
    requires Legal(p, fs)
    decreases |fs|
  {
    if fs == [] then p else AfterAll(After(p, fs[0]), fs[1..])
  }

  /** Opcode of a message under reassembly: a data opcode, with no FIN bit. */
  predicate Partial(p: seq<byte>) {
    p != [] ==> p[0] < 8
  }

  lemma AfterPartial(p: seq<byte>, f: Frame)
    requires Partial(p) && LegalNext(p, f)
    ensures Partial(After(p, f))
  {
  }

  lemma FlagsOf(f: Frame)
    requires Proper(f)
    ensures var b := Flags(f); b % 16 == f.op && (b < FIN <==> !f.fin) && (b / 8 % 2 == 1 <==> f.op >= 8)
  {
  }

  lemma NoRefusal(p: seq<byte>, f: Frame, d: seq<byte>)
    requires LegalNext(p, f) && d != [] && d[0] == Flags(f)
    ensures Refusal(d, |p|) == []
  {
    FlagsOf(f);
  }

  /**
   Which frames the decoder answers with a close, and why: a control frame that is a fragment, and an
   unfragmented data frame inside a fragmented message; no other, legal or not.
   */
  lemma RefusedIff(p: seq<byte>, f: Frame, tail: seq<byte>)
    requires Proper(f)
    ensures var control := f.op == 8 || f.op == 9 || f.op == 10;
      Refusal(Wire(f) + tail, |p|) ==
        if control && !f.fin then [SendClose(FragmentedControl)]
        else if f.fin && f.op != 0 && !control && p != [] then [SendClose(NotContinuation)]
        else []
  {
    FlagsOf(f);
    assert (Wire(f) + tail)[0] == Flags(f);
  }

  /** The sum of the lengths is found out of range exactly if it is. */
  lemma WrapsIff(header: nat, data: nat)
    requires header < SIZE_RANGE && data < SIZE_RANGE
    ensures Wraps(header, data) <==> header + data >= SIZE_RANGE
  {
    if header + data >= SIZE_RANGE {
      assert (header + data) % SIZE_RANGE == header + data - SIZE_RANGE;
    } else {
      assert (header + data) % SIZE_RANGE == header + data;
    }
  }

  /** The state between two frames of a legal stream with raw bytes of the next ones at hand. */
  function At(p: seq<byte>, raw: seq<byte>, log: seq<Event>): State {
    State(p + raw, |p|, log)
  }

  lemma CompleteStep(p: seq<byte>, f: Frame, tail: seq<byte>, log: seq<Event>)
    requires Partial(p) && LegalNext(p, f) && f.fin && f.op != OP_CONTINUE
    ensures Complete(At(p, Wire(f) + tail, log), Flags(f), f.data, tail) == Again(At(After(p, f), tail, log + Given(p, f)))
  {
    FlagsOf(f);
    var r := Reaction(Flags(f), f.data);
    var h := [Handed(Flags(f), f.data)];
    assert (p + (Wire(f) + tail))[..|p|] == p;
    assert log + r + h == log + (r + h);
    if f.op < 8 { assert r == [] && r + h == h; }
  }

  lemma MiddleStep(p: seq<byte>, f: Frame, tail: seq<byte>, log: seq<Event>)
    requires Partial(p) && LegalNext(p, f) && !f.fin
    ensures Joined(At(p, Wire(f) + tail, log), Flags(f), f.data, tail) == Again(At(After(p, f), tail, log + Given(p, f)))
  {
    FlagsOf(f);
    assert (p + (Wire(f) + tail))[..|p|] == p;
    assert log + [] == log;
    if p == [] {
      assert [] + [Flags(f)] + f.data + tail == [f.op] + f.data + tail;
    } else {
      assert p + [] + f.data + tail == p + f.data + tail;
    }
  }

  lemma LastStep(p: seq<byte>, f: Frame, tail: seq<byte>, log: seq<Event>)
    requires Partial(p) && LegalNext(p, f) && f.fin && f.op == OP_CONTINUE
    ensures Joined(At(p, Wire(f) + tail, log), Flags(f), f.data, tail) == Again(At(After(p, f), tail, log + Given(p, f)))
  {
    FlagsOf(f);
    assert (p + (Wire(f) + tail))[..|p|] == p;
    var buf := p + f.data + tail;
    assert p + [] + f.data + tail == buf;
    assert buf[|p| + |f.data|..] == tail == [] + tail;
    assert buf[1..|p| + |f.data|] == p[1..] + f.data;
  }

  lemma Fits(h: nat, n: nat)
    requires h + n < SIZE_RANGE
    ensures !Wraps(h, n)
  {
  }

  lemma DeliverFrame(s: State, d: seq<byte>, h: nat, n: nat)
    requires s.reass <= |s.buf| && d == s.buf[s.reass..] && Refusal(d, s.reass) == []
    requires Lengths(d) == (h, n) && 0 < h && h + n < SIZE_RANGE && h + n <= |d|
    ensures Deliver(s) == Step(s, d[0], Payload(d, h, n), d[h + n..])
  {
    Fits(h, n);
  }

  lemma DeliverNothing(s: State, d: seq<byte>, h: nat, n: nat)
    requires s.reass <= |s.buf| && d == s.buf[s.reass..] && Refusal(d, s.reass) == []
    requires Lengths(d) == (h, n) && h + n < SIZE_RANGE && (h == 0 || h + n > |d|)
    ensures Deliver(s) == Idle(s)
  {
    Fits(h, n);
  }

  lemma Undecoded(p: seq<byte>, raw: seq<byte>, log: seq<Event>)
    ensures At(p, raw, log).buf[|p|..] == raw
  {
  }

  /** A frame all of whose bytes are there is taken off the front and handed over. */
  lemma WholeFrame(p: seq<byte>, f: Frame, tail: seq<byte>, log: seq<Event>)
    requires Partial(p) && LegalNext(p, f)
    ensures Deliver(At(p, Wire(f) + tail, log)) == Again(At(After(p, f), tail, log + Given(p, f)))
  {
    hide Wire, Header, Deliver, Given;
    var d := Wire(f) + tail;
    Undecoded(p, d, log);
    PayloadBack(f, tail);
    NoRefusal(p, f, d);
    DeliverFrame(At(p, d, log), d, |Header(f)|, |f.data|);
    FlagsOf(f);
    if f.fin && f.op != OP_CONTINUE {
      CompleteStep(p, f, tail, log);
    } else if !f.fin {
      MiddleStep(p, f, tail, log);
    } else {
      LastStep(p, f, tail, log);
    }
  }

  lemma CutHeader(p: seq<byte>, f: Frame, raw: seq<byte>)
    requires LegalNext(p, f) && |raw| < |Wire(f)| && raw == Wire(f)[..|raw|]
    ensures Refusal(raw, |p|) == []
  {
    if raw != [] {
      assert raw[0] == Wire(f)[0] == Flags(f);
      NoRefusal(p, f, raw);
    }
  }

  /** A frame cut short leaves everything as it is. */
  lemma CutFrame(p: seq<byte>, f: Frame, raw: seq<byte>, log: seq<Event>)
    requires LegalNext(p, f) && |raw| < |Wire(f)| && raw == Wire(f)[..|raw|]
    ensures Deliver(At(p, raw, log)) == Idle(At(p, raw, log))
  {
    Undecoded(p, raw, log);
    assert Agree(raw, Wire(f));
    Measured(f, raw);
    CutHeader(p, f, raw);
    DeliverNothing(At(p, raw, log), raw, Lengths(raw).0, Lengths(raw).1);
  }

  lemma NoFrame(p: seq<byte>, log: seq<Event>)
    ensures Deliver(At(p, [], log)) == Idle(At(p, [], log))
  {
    assert (p + [])[|p|..] == [];
  }

  /** raw is a front part of the wire form of fs; how many frames it holds whole. */
  function WholeIn(p: seq<byte>, fs: seq<Frame>, raw: seq<byte>): (k: nat)
    requires Legal(p, fs)
    ensures k <= |fs|
    decreases |fs|
  {
    if fs == [] || |raw| < |Wire(fs[0])| then 0
    else 1 + WholeIn(After(p, fs[0]), fs[1..], raw[|Wire(fs[0])|..])
  }

  /** The state a legal stream must be in once the front part raw of its bytes has come in. */
  function Expected(p: seq<byte>, fs: seq<Frame>, raw: seq<byte>, log: seq<Event>): State
    requires Legal(p, fs)
    decreases |fs|
  {
    if fs == [] || |raw| < |Wire(fs[0])| then At(p, raw, log)
    else Expected(After(p, fs[0]), fs[1..], raw[|Wire(fs[0])|..], log + Given(p, fs[0]))
  }

  predicate Front(raw: seq<byte>, all: seq<byte>) {
    |raw| <= |all| && raw == all[..|raw|]
  }

  /** The loop on a front part of a legal stream hands over its whole frames and keeps the cut one. */
  lemma {:induction false} DrainFront(p: seq<byte>, fs: seq<Frame>, raw: seq<byte>, log: seq<Event>)
    requires Partial(p) && Legal(p, fs) && Front(raw, Wires(p, fs))
    ensures Drain(At(p, raw, log)) == Idle(Expected(p, fs, raw, log))
    decreases |fs|
  {
    if fs == [] {
      NoFrame(p, log);
    } else if |raw| < |Wire(fs[0])| {
      assert raw == Wire(fs[0])[..|raw|];
      CutFrame(p, fs[0], raw, log);
    } else {
      var f, n := fs[0], |Wire(fs[0])|;
      var tail := raw[n..];
      FrontTail(raw, Wire(f), Wires(After(p, f), fs[1..]));
      WholeFrame(p, f, tail, log);
      AfterPartial(p, f);
      DrainFront(After(p, f), fs[1..], tail, log + Given(p, f));
    }
  }

  lemma FrontTail(raw: seq<byte>, w: seq<byte>, ws: seq<byte>)
    requires Front(raw, w + ws) && |w| <= |raw|
    ensures raw == w + raw[|w|..] && Front(raw[|w|..], ws)
  {
    assert raw[..|w|] == (w + ws)[..|w|];
    assert raw[|w|..] == (w + ws)[..|raw|][|w|..] == ws[..|raw| - |w|];
  }

  lemma ExpectedStep(p: seq<byte>, fs: seq<Frame>, raw: seq<byte>, log: seq<Event>)
    requires Legal(p, fs) && fs != [] && |raw| >= |Wire(fs[0])|
    ensures Expected(p, fs, raw, log) == Expected(After(p, fs[0]), fs[1..], raw[|Wire(fs[0])|..], log + Given(p, fs[0]))
  {
  }

  lemma LaterCut(p: seq<byte>, fs: seq<Frame>, raw: seq<byte>, chunk: seq<byte>, log: seq<Event>)
    requires Partial(p) && Legal(p, fs) && Front(raw + chunk, Wires(p, fs))
    ensures var s := At(p, raw, log); Drain(s.(buf := s.buf + chunk)) == Idle(Expected(p, fs, raw + chunk, log))
  {
    hide Legal, Wires, Drain, Front;
    assert p + raw + chunk == p + (raw + chunk);
    DrainFront(p, fs, raw + chunk, log);
  }

  lemma NextFront(p: seq<byte>, fs: seq<Frame>, raw: seq<byte>, chunk: seq<byte>)
    requires Partial(p) && Legal(p, fs) && Front(raw + chunk, Wires(p, fs)) && fs != [] && |raw| >= |Wire(fs[0])|
    ensures var q, n := After(p, fs[0]), |Wire(fs[0])|;
      Partial(q) && (raw + chunk)[n..] == raw[n..] + chunk && Front(raw[n..] + chunk, Wires(q, fs[1..]))
  {
    hide Wire, Given;
    var f, n := fs[0], |Wire(fs[0])|;
    FrontTail(raw + chunk, Wire(f), Wires(After(p, f), fs[1..]));
    assert (raw + chunk)[n..] == raw[n..] + chunk;
    AfterPartial(p, f);
  }

  /** Draining a shorter front part first makes no difference. */
  lemma {:induction false} ExpectedLater(p: seq<byte>, fs: seq<Frame>, raw: seq<byte>, chunk: seq<byte>, log: seq<Event>)
    requires Partial(p) && Legal(p, fs) && Front(raw + chunk, Wires(p, fs))
    ensures var s := Expected(p, fs, raw, log);
      s.reass <= |s.buf| && Drain(s.(buf := s.buf + chunk)) == Idle(Expected(p, fs, raw + chunk, log))
    decreases |fs|
  {
    if fs == [] || |raw| < |Wire(fs[0])| {
      LaterCut(p, fs, raw, chunk, log);
    } else {
      var f, n := fs[0], |Wire(fs[0])|;
      NextFront(p, fs, raw, chunk);
      ExpectedStep(p, fs, raw, log);
      ExpectedStep(p, fs, raw + chunk, log);
      ExpectedLater(After(p, f), fs[1..], raw[n..], chunk, log + Given(p, f));
    }
  }

  function Concat(chunks: seq<seq<byte>>): seq<byte> {
    if chunks == [] then [] else chunks[0] + Concat(chunks[1..])
  }

  lemma {:induction false} ReadsFrom(fs: seq<Frame>, raw: seq<byte>, chunks: seq<seq<byte>>, s: State)
    requires Legal([], fs) && Front(raw + Concat(chunks), Wires([], fs))
    requires s == Expected([], fs, raw, []) && s.reass <= |s.buf|
    ensures Reads(s, chunks) == Idle(Expected([], fs, raw + Concat(chunks), []))
    decreases |chunks|
  {
    hide Expected, Legal, Wires, Drain;
    if chunks == [] {
      assert raw + [] == raw;
    } else {
      var more := raw + chunks[0];
      assert raw + Concat(chunks) == more + Concat(chunks[1..]);
      assert more == (raw + Concat(chunks))[..|more|];
      ExpectedLater([], fs, raw, chunks[0], []);
      var t := Expected([], fs, more, []);
      DrainKeeps(s.(buf := s.buf + chunks[0]));
      ReadsFrom(fs, more, chunks[1..], t);
    }
  }

  /** s: the first k frames have been handed over, in order; the buffer is the message under
      reassembly followed by the raw bytes of the next frame. */
  ghost predicate Stands(p: seq<byte>, fs: seq<Frame>, k: nat, raw: seq<byte>, log: seq<Event>, s: State) {
    && k <= |fs| && Legal(p, fs[..k]) && |Wires(p, fs[..k])| <= |raw|
    && s.log == log + AllGiven(p, fs[..k])
    && s.buf == AfterAll(p, fs[..k]) + raw[|Wires(p, fs[..k])|..]
    && s.reass == |AfterAll(p, fs[..k])|
  }

  lemma StandsStep(p: seq<byte>, fs: seq<Frame>, k: nat, raw: seq<byte>, log: seq<Event>, s: State)
    requires fs != [] && LegalNext(p, fs[0]) && |Wire(fs[0])| <= |raw|
    requires Stands(After(p, fs[0]), fs[1..], k, raw[|Wire(fs[0])|..], log + Given(p, fs[0]), s)
    ensures Stands(p, fs, k + 1, raw, log, s)
  {
    hide Given, After, Wire;
    var f, n, q := fs[0], |Wire(fs[0])|, After(p, fs[0]);
    var rest := fs[1..][..k];
    var all := fs[..k + 1];
    assert all[1..] == rest && all[0] == f;
    var g, h := Given(p, f), AllGiven(q, rest);
    assert AllGiven(p, all) == g + h && log + g + h == log + (g + h);
    assert AfterAll(p, all) == AfterAll(q, rest);
    var m := |Wires(q, rest)|;
    assert |Wires(p, all)| == n + m;
    assert raw[n..][m..] == raw[n + m..];
  }

  lemma {:induction false} ExpectedStands(p: seq<byte>, fs: seq<Frame>, raw: seq<byte>, log: seq<Event>)
    requires Legal(p, fs) && Front(raw, Wires(p, fs))
    ensures Stands(p, fs, WholeIn(p, fs, raw), raw, log, Expected(p, fs, raw, log))
    decreases |fs|
  {
    if fs == [] || |raw| < |Wire(fs[0])| {
      assert fs[..0] == [] && log + [] == log && raw[0..] == raw;
    } else {
      var f, n := fs[0], |Wire(fs[0])|;
      FrontTail(raw, Wire(f), Wires(After(p, f), fs[1..]));
      ExpectedStands(After(p, f), fs[1..], raw[n..], log + Given(p, f));
      ExpectedStep(p, fs, raw, log);
      StandsStep(p, fs, WholeIn(p, fs, raw) - 1, raw, log, Expected(p, fs, raw, log));
    }
  }

  lemma {:induction false} WholeAll(p: seq<byte>, fs: seq<Frame>)
    requires Legal(p, fs)
    ensures WholeIn(p, fs, Wires(p, fs)) == |fs|
    decreases |fs|
  {
    if fs != [] {
      var w := Wire(fs[0]);
      assert Wires(p, fs)[|w|..] == Wires(After(p, fs[0]), fs[1..]);
      WholeAll(After(p, fs[0]), fs[1..]);
    }
  }

  /** At any moment of receiving a legal stream, however it is cut into reads. */
  lemma AnyCut(fs: seq<Frame>, chunks: seq<seq<byte>>)
    requires Legal([], fs) && Front(Concat(chunks), Wires([], fs))
    ensures var o := Reads(State([], 0, []), chunks); var raw := Concat(chunks);
      o.Idle? && Stands([], fs, WholeIn([], fs, raw), raw, [], o.s)
  {
    var raw, none := Concat(chunks), State([], 0, []);
    assert [] + raw == raw;
    assert At([], [], []) == none by { assert none.buf + none.buf == none.buf; }
    ReadsFrom(fs, [], chunks, none);
    ExpectedStands([], fs, raw, []);
  }

  /** All of a legal stream: every message and control frame, once, in order, and nothing left but an unfinished message. */
  lemma EndToEnd(fs: seq<Frame>, chunks: seq<seq<byte>>)
    requires Legal([], fs) && Concat(chunks) == Wires([], fs)
    ensures var p := AfterAll([], fs); Reads(State([], 0, []), chunks) == Idle(State(p, |p|, AllGiven([], fs)))
  {
    AnyCut(fs, chunks);
    WholeAll([], fs);
    assert fs[..|fs|] == fs;
    NothingLeft(fs, Reads(State([], 0, []), chunks).s);
  }

  lemma NothingLeft(fs: seq<Frame>, s: State)
    requires Legal([], fs) && Stands([], fs, |fs|, Wires([], fs), [], s)
    ensures s == State(AfterAll([], fs), |AfterAll([], fs)|, AllGiven([], fs))
  {
    assert fs[..|fs|] == fs;
    assert AfterAll([], fs) + [] == AfterAll([], fs);
    assert [] + AllGiven([], fs) == AllGiven([], fs);
  }
}
