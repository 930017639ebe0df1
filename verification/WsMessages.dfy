/** Messages: split into fragments, with control frames in between, they arrive whole. */
module WsMessages {
  import opened Mbufs
  import opened WsFrames
  import opened WsStream

  /** One fragment of a message, and the control frames sent just before it. */
  datatype Piece = Piece(before: seq<Frame>, key: seq<byte>, data: seq<byte>)

  datatype Sent = Sent(op: nat, pieces: seq<Piece>)

  predicate ControlFrame(f: Frame) {
    Proper(f) && f.fin && OP_CLOSE <= f.op <= OP_PONG && |f.data| < 126
  }

  predicate Controls(fs: seq<Frame>) {
    fs == [] || (ControlFrame(fs[0]) && Controls(fs[1..]))
  }

  predicate GoodPiece(q: Piece) {
    && Proper(Frame(true, 0, q.key, q.data))
    && Controls(q.before)
  }

  predicate GoodPieces(qs: seq<Piece>) {
    qs == [] || (GoodPiece(qs[0]) && GoodPieces(qs[1..]))
  }

  predicate Good(m: Sent) {
    && 1 <= m.op < 8 && m.pieces != []
    && GoodPieces(m.pieces)
  }

  predicate AllGood(ms: seq<Sent>) {
    ms == [] || (Good(ms[0]) && AllGood(ms[1..]))
  }

  /** The frames of a message: the first carries the opcode, the last the FIN bit. */
  function Frames(op: nat, qs: seq<Piece>): seq<Frame> {
    if qs == [] then []
    else qs[0].before + ([Frame(|qs| == 1, op, qs[0].key, qs[0].data)] + Frames(OP_CONTINUE, qs[1..]))
  }

  function Whole(qs: seq<Piece>): seq<byte> {
    if qs == [] then [] else qs[0].data + Whole(qs[1..])
  }

  function ControlEvents(fs: seq<Frame>): seq<Event>
    requires Controls(fs)
  {
    if fs == [] then []
    else Reaction(Flags(fs[0]), fs[0].data) + [Control(Flags(fs[0]), fs[0].data)] + ControlEvents(fs[1..])
  }

  function Between(qs: seq<Piece>): seq<Event>
    requires GoodPieces(qs)
  {
    if qs == [] then [] else ControlEvents(qs[0].before) + Between(qs[1..])
  }

  lemma Assoc<T>(a: seq<T>, b: seq<T>, c: seq<T>)
    ensures a + b + c == a + (b + c)
  {
  }

  /** Streams put end to end. */
  lemma {:induction false} LegalAppend(p: seq<byte>, a: seq<Frame>, b: seq<Frame>)
    requires Legal(p, a) && Legal(AfterAll(p, a), b)
    ensures Legal(p, a + b) && AfterAll(p, a + b) == AfterAll(AfterAll(p, a), b)
    ensures AllGiven(p, a + b) == AllGiven(p, a) + AllGiven(AfterAll(p, a), b)
    decreases |a|
  {
    if a == [] {
      assert a + b == b;
    } else {
      assert (a + b)[1..] == a[1..] + b && (a + b)[0] == a[0];
      LegalAppend(After(p, a[0]), a[1..], b);
      Assoc(Given(p, a[0]), AllGiven(After(p, a[0]), a[1..]), AllGiven(AfterAll(p, a), b));
    }
  }

  lemma {:induction false} ControlsPass(p: seq<byte>, fs: seq<Frame>)
    requires Controls(fs)
    ensures Legal(p, fs) && AfterAll(p, fs) == p && AllGiven(p, fs) == ControlEvents(fs)
    decreases |fs|
  {
    if fs != [] {
      ControlsPass(p, fs[1..]);
    }
  }

  lemma OneFrame(p: seq<byte>, f: Frame)
    requires LegalNext(p, f)
    ensures Legal(p, [f]) && AfterAll(p, [f]) == After(p, f) && AllGiven(p, [f]) == Given(p, f)
  {
    assert [f][1..] == [];
    assert Given(p, f) + [] == Given(p, f);
  }

  /** Controls, then one frame. */
  lemma PieceGiven(p: seq<byte>, before: seq<Frame>, f: Frame)
    requires LegalNext(p, f)
    requires Controls(before)
    ensures Legal(p, before + [f]) && AfterAll(p, before + [f]) == After(p, f)
    ensures AllGiven(p, before + [f]) == ControlEvents(before) + Given(p, f)
  {
    ControlsPass(p, before);
    OneFrame(p, f);
    LegalAppend(p, before, [f]);
  }

  /** The message a partial one becomes. */
  function Finished(p: seq<byte>, op: nat, qs: seq<Piece>): Event
    requires p != [] || op < 128
  {
    if p == [] then Message(FIN + op, Whole(qs)) else Message(WithFin(p[0]), p[1..] + Whole(qs))
  }

  lemma {:induction false} Arrives(p: seq<byte>, op: nat, qs: seq<Piece>)
    requires Partial(p) && qs != [] && op < 8 && (op == OP_CONTINUE <==> p != [])
    requires GoodPieces(qs)
    ensures Legal(p, Frames(op, qs)) && AfterAll(p, Frames(op, qs)) == []
    ensures AllGiven(p, Frames(op, qs)) == Between(qs) + [Finished(p, op, qs)]
    decreases |qs|
  {
    var q := qs[0];
    var f := Frame(|qs| == 1, op, q.key, q.data);
    PieceGiven(p, q.before, f);
    if |qs| == 1 {
      assert qs[1..] == [];
      assert [f] + Frames(OP_CONTINUE, []) == [f];
      assert Between(qs) == ControlEvents(q.before) by { assert ControlEvents(q.before) + [] == ControlEvents(q.before); }
      LastPiece(p, op, qs, f);
    } else {
      var p' := After(p, f);
      Arrives(p', OP_CONTINUE, qs[1..]);
      var rest := Frames(OP_CONTINUE, qs[1..]);
      LegalAppend(p, q.before + [f], rest);
      Assoc(q.before, [f], rest);
      Growing(p, op, qs, p');
      var c := ControlEvents(q.before);
      assert c + [] == c;
      Assoc(c, Between(qs[1..]), [Finished(p, op, qs)]);
    }
  }

  lemma LastPiece(p: seq<byte>, op: nat, qs: seq<Piece>, f: Frame)
    requires |qs| == 1 && op < 8 && f == Frame(true, op, qs[0].key, qs[0].data) && LegalNext(p, f)
    ensures Given(p, f) == [Finished(p, op, qs)]
  {
    assert Whole(qs) == qs[0].data by {
      assert qs[1..] == [];
      assert Whole(qs[1..]) == [];
      assert qs[0].data + [] == qs[0].data;
    }
  }

  lemma TailJoined(p: seq<byte>, d: seq<byte>, w: seq<byte>)
    requires p != []
    ensures (p + d)[1..] + w == p[1..] + (d + w)
  {
    assert (p + d)[1..] == p[1..] + d;
  }

  lemma Growing(p: seq<byte>, op: nat, qs: seq<Piece>, p': seq<byte>)
    requires qs != [] && Partial(p) && op < 8
    requires p' == if p == [] then [op] + qs[0].data else p + qs[0].data
    ensures Finished(p', OP_CONTINUE, qs[1..]) == Finished(p, op, qs)
  {
    var d, w := qs[0].data, Whole(qs[1..]);
    if p == [] {
      assert p'[1..] == d;
    } else {
      TailJoined(p, d, w);
    }
  }

  function AllFrames(ms: seq<Sent>): seq<Frame> {
    if ms == [] then [] else Frames(ms[0].op, ms[0].pieces) + AllFrames(ms[1..])
  }

  function AllHanded(ms: seq<Sent>): seq<Event>
    requires AllGood(ms)
  {
    if ms == [] then []
    else Between(ms[0].pieces) + [Message(FIN + ms[0].op, Whole(ms[0].pieces))] + AllHanded(ms[1..])
  }

  lemma {:induction false} MessagesGiven(ms: seq<Sent>)
    requires AllGood(ms)
    ensures Legal([], AllFrames(ms)) && AfterAll([], AllFrames(ms)) == [] && AllGiven([], AllFrames(ms)) == AllHanded(ms)
    decreases |ms|
  {
    if ms != [] {
      Arrives([], ms[0].op, ms[0].pieces);
      MessagesGiven(ms[1..]);
      LegalAppend([], Frames(ms[0].op, ms[0].pieces), AllFrames(ms[1..]));
    }
  }

  /** Every message arrives whole and in order, with the control frames between its fragments handed over
      first, whatever the fragmentation, the masks and the reads; the buffer ends empty. */
  lemma MessagesArrive(ms: seq<Sent>, chunks: seq<seq<byte>>)
    requires AllGood(ms)
    requires Legal([], AllFrames(ms)) && Concat(chunks) == Wires([], AllFrames(ms))
    ensures Reads(State([], 0, []), chunks) == Idle(State([], 0, AllHanded(ms)))
  {
    MessagesGiven(ms);
    EndToEnd(AllFrames(ms), chunks);
  }

  // ---- reactions

  /** The payloads of the pongs sent. */
  function Pongs(log: seq<Event>): seq<seq<byte>> {
    if log == [] then [] else (if log[0].SendPong? then [log[0].data] else []) + Pongs(log[1..])
  }

  /** The payloads echoed in close frames. */
  function Closes(log: seq<Event>): seq<seq<byte>> {
    if log == [] then []
    else (if log[0].SendClose? && log[0].why.Echo? then [log[0].why.data] else []) + Closes(log[1..])
  }

  function PayloadsOf(op: nat, fs: seq<Frame>): seq<seq<byte>> {
    if fs == [] then [] else (if fs[0].op == op then [fs[0].data] else []) + PayloadsOf(op, fs[1..])
  }

  lemma {:induction false} PongsJoin(a: seq<Event>, b: seq<Event>)
    ensures Pongs(a + b) == Pongs(a) + Pongs(b) && Closes(a + b) == Closes(a) + Closes(b)
  {
    if a == [] {
      assert a + b == b;
    } else {
      assert (a + b)[1..] == a[1..] + b && (a + b)[0] == a[0];
      PongsJoin(a[1..], b);
      Assoc(if a[0].SendPong? then [a[0].data] else [], Pongs(a[1..]), Pongs(b));
      Assoc(if a[0].SendClose? && a[0].why.Echo? then [a[0].why.data] else [], Closes(a[1..]), Closes(b));
    }
  }

  lemma NoReaction()
    ensures Pongs([]) == [] && Closes([]) == []
  {
  }

  lemma GivenReacts(p: seq<byte>, f: Frame)
    requires LegalNext(p, f)
    ensures Pongs(Given(p, f)) == if f.op == 9 then [f.data] else []
    ensures Closes(Given(p, f)) == if f.op == 8 then [f.data] else []
  {
    hide Pongs, Closes;
    NoReaction();
    if f.op >= 8 {
      var b := FIN + f.op;
      PongsJoin(Reaction(b, f.data), [Control(b, f.data)]);
      Single(Control(b, f.data));
      if f.op < 10 { Single(Reaction(b, f.data)[0]); }
    } else if Given(p, f) != [] {
      Single(Given(p, f)[0]);
    }
  }

  lemma Single(e: Event)
    ensures Pongs([e]) == if e.SendPong? then [e.data] else []
    ensures Closes([e]) == if e.SendClose? && e.why.Echo? then [e.why.data] else []
  {
    assert [e][1..] == [];
  }

  /** In any legal stream each ping is answered with a pong and each close with a close, with their payloads and in order, and nothing else is. */
  lemma {:induction false} PingsAnswered(p: seq<byte>, fs: seq<Frame>)
    requires Legal(p, fs)
    ensures Pongs(AllGiven(p, fs)) == PayloadsOf(OP_PING, fs) && Closes(AllGiven(p, fs)) == PayloadsOf(OP_CLOSE, fs)
    decreases |fs|
  {
    if fs != [] {
      GivenReacts(p, fs[0]);
      PongsJoin(Given(p, fs[0]), AllGiven(After(p, fs[0]), fs[1..]));
      PingsAnswered(After(p, fs[0]), fs[1..]);
    }
  }
}
