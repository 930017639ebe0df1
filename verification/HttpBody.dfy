/** A chunked body arriving in reads of any size, with the handler free to take what is there at each event. */
module HttpBody {
  import opened Mbufs
  import opened HttpChunks

  /**
   `body` is the reassembled part in front of the buffer, `raw` the undecoded rest;
   `taken` are the pieces the handler had deleted so far.
   */
  datatype State = State(body: seq<byte>, raw: seq<byte>, taken: seq<seq<byte>>, ended: bool)

  /** One read, and whether the handler, if it is called, asks for the chunk to be deleted. */
  datatype Read = Read(bytes: seq<byte>, deleting: bool)

  /** The collapsed data joins the body, which the handler then keeps or takes. */
  function Shifted(s: State, p: Parts, deleting: bool): State {
    if deleting then State([], p.rest, s.taken + [s.body + p.data], p.ended)
    else State(s.body + p.data, p.rest, s.taken, p.ended)
  }

  /** mg_handle_chunked */
  function Handle(s: State, deleting: bool): State {
    var p := Collapse(s.raw);
    if |p.rest| == |s.raw| then s else Shifted(s, p, deleting)
  }

  function Receive(s: State, r: Read): State {
    Handle(s.(raw := s.raw + r.bytes), r.deleting)
  }

  /** All reads up to the end of the body. */
  function Receives(s: State, rs: seq<Read>): State
    decreases |rs|
  {
    if rs == [] || s.ended then s else Receives(Receive(s, rs[0]), rs[1..])
  }

  function Flat(ds: seq<seq<byte>>): seq<byte> {
    if ds == [] then [] else ds[0] + Flat(ds[1..])
  }

  function Wires(cs: seq<Coded>): seq<byte> {
    if cs == [] then [] else Wire(cs[0]) + Wires(cs[1..])
  }

  /** The data of chunks, one after the other. */
  function Body(cs: seq<Coded>): seq<byte> {
    if cs == [] then [] else cs[0].data + Body(cs[1..])
  }

  function Bytes(rs: seq<Read>): seq<byte> {
    if rs == [] then [] else rs[0].bytes + Bytes(rs[1..])
  }

  /** What a sender sends: chunks with data, then the empty one, their sizes spelt in any way. */
  predicate Message(cs: seq<Coded>) {
    cs != [] && Proper(cs[0]) && if |cs| == 1 then cs[0].data == [] else cs[0].data != [] && Message(cs[1..])
  }

  predicate Front(raw: seq<byte>, all: seq<byte>) {
    |raw| <= |all| && raw == all[..|raw|]
  }

  /** Everything handed over so far and still in hand. */
  function Total(s: State): seq<byte> {
    Flat(s.taken) + s.body
  }

  lemma Assoc(a: seq<byte>, b: seq<byte>, c: seq<byte>)
    ensures a + b + c == a + (b + c)
  {
  }

  lemma FrontTail(raw: seq<byte>, w: seq<byte>, ws: seq<byte>)
    requires Front(raw, w + ws) && |w| <= |raw|
    ensures raw == w + raw[|w|..] && Front(raw[|w|..], ws)
  {
    assert raw[..|w|] == (w + ws)[..|w|];
    assert raw[|w|..] == (w + ws)[..|raw|][|w|..] == ws[..|raw| - |w|];
  }

  lemma CollapseStep(s: seq<byte>, total: nat, at: nat, d: seq<byte>, z: seq<byte>)
    requires at + |d| + 2 == total <= |s| && s[at..at + |d|] == d && s[total..] == z
    ensures CollapseFrom(s, Chunk(total, at, |d|)) == if d == [] then Parts([], z, true) else Prefixed(d, Collapse(z))
  {
  }

  lemma EndedBy(c: Coded, z: seq<byte>, s: seq<byte>)
    requires Proper(c) && s == Wire(c) + z
    ensures Collapse(s) == if c.data == [] then Parts([], z, true) else Prefixed(c.data, Collapse(z))
  {
    WholeChunk(c, z);
    CollapseStep(s, |Wire(c)|, |c.size| + 2, c.data, z);
  }

  lemma NotYet(c: Coded, z: seq<byte>, raw: seq<byte>)
    requires Proper(c) && Front(raw, Wire(c) + z) && |raw| < |Wire(c)|
    ensures Collapse(raw) == Parts([], raw, false)
  {
    assert raw == Wire(c)[..|raw|];
    CutChunk(c, raw);
  }

  /** p: the data of the first k chunks, and of raw what follows those. */
  ghost predicate Collapsed(p: Parts, cs: seq<Coded>, k: nat, raw: seq<byte>) {
    && k <= |cs| && p.data == Body(cs[..k]) && p.ended == (k == |cs|)
    && raw == Wires(cs[..k]) + p.rest
    && Front(p.rest, Wires(cs[k..])) && (k < |cs| ==> Message(cs[k..]) && |p.rest| < |Wire(cs[k])|)
  }

  lemma CollapsedNone(cs: seq<Coded>, raw: seq<byte>)
    requires Message(cs) && Front(raw, Wires(cs)) && |raw| < |Wire(cs[0])|
    ensures Collapsed(Parts([], raw, false), cs, 0, raw)
  {
    assert cs[..0] == [] && cs[0..] == cs && [] + raw == raw;
  }

  lemma CollapsedLast(cs: seq<Coded>, raw: seq<byte>)
    requires |cs| == 1 && cs[0].data == [] && raw == Wires(cs)
    ensures Collapsed(Parts([], [], true), cs, 1, raw)
  {
    assert cs[..1] == cs && cs[1..] == [];
    OneChunk(cs);
    assert raw + [] == raw;
  }

  lemma CollapsedMore(p: Parts, cs: seq<Coded>, k: nat, raw: seq<byte>, z: seq<byte>)
    requires cs != [] && Collapsed(p, cs[1..], k, z) && raw == Wire(cs[0]) + z
    ensures Collapsed(Prefixed(cs[0].data, p), cs, k + 1, raw)
  {
    TakeOne(cs, k);
    Assoc(Wire(cs[0]), Wires(cs[1..][..k]), p.rest);
  }

  /** A front part of a message collapses to the data of its whole chunks; it has ended when none is left. */
  lemma {:induction false} CollapseFront(cs: seq<Coded>, raw: seq<byte>) returns (k: nat)
    requires Message(cs) && Front(raw, Wires(cs))
    ensures Collapsed(Collapse(raw), cs, k, raw)
    decreases |cs|
  {
    var c, n, rest := cs[0], |Wire(cs[0])|, Wires(cs[1..]);
    if |raw| < n {
      NotYet(c, rest, raw);
      CollapsedNone(cs, raw);
      k := 0;
    } else {
      FrontTail(raw, Wire(c), rest);
      EndedBy(c, raw[n..], raw);
      if |cs| == 1 {
        OneChunk(cs);
        assert raw == Wires(cs) && raw[n..] == [];
        CollapsedLast(cs, raw);
        k := 1;
      } else {
        k := CollapseFront(cs[1..], raw[n..]);
        CollapsedMore(Collapse(raw[n..]), cs, k, raw, raw[n..]);
        k := k + 1;
      }
    }
  }

  lemma OneChunk(cs: seq<Coded>)
    requires |cs| == 1
    ensures cs[1..] == [] && Body(cs) == cs[0].data && Wires(cs) == Wire(cs[0])
  {
    assert cs[0].data + [] == cs[0].data && Wire(cs[0]) + [] == Wire(cs[0]);
  }

  lemma TakeOne(cs: seq<Coded>, k: nat)
    requires cs != [] && k <= |cs| - 1
    ensures Body(cs[..k + 1]) == cs[0].data + Body(cs[1..][..k]) && Wires(cs[..k + 1]) == Wire(cs[0]) + Wires(cs[1..][..k])
    ensures cs[1..][k..] == cs[k + 1..]
  {
    assert cs[..k + 1][1..] == cs[1..][..k] && cs[..k + 1][0] == cs[0];
  }

  lemma {:induction false} FlatJoined(a: seq<seq<byte>>, b: seq<seq<byte>>)
    ensures Flat(a + b) == Flat(a) + Flat(b)
  {
    if a == [] {
      assert a + b == b;
    } else {
      assert (a + b)[1..] == a[1..] + b && (a + b)[0] == a[0];
      FlatJoined(a[1..], b);
    }
  }

  lemma {:induction false} Joined(a: seq<Coded>, b: seq<Coded>)
    ensures Body(a + b) == Body(a) + Body(b) && Wires(a + b) == Wires(a) + Wires(b)
  {
    if a == [] {
      assert a + b == b;
    } else {
      assert (a + b)[1..] == a[1..] + b && (a + b)[0] == a[0];
      Joined(a[1..], b);
    }
  }

  lemma TakeMore(taken: seq<seq<byte>>, x: seq<byte>)
    ensures Flat(taken + [x]) == Flat(taken) + x
  {
    FlatJoined(taken, [x]);
    assert x + [] == x;
  }

  /** Whether or not the handler takes the body, nothing is lost or doubled. */
  lemma HandleTotal(s: State, deleting: bool)
    ensures Total(Handle(s, deleting)) == Total(s) + Collapse(s.raw).data
    ensures Handle(s, deleting).raw == Collapse(s.raw).rest
  {
    var p := Collapse(s.raw);
    var body := s.body + p.data;
    if |p.rest| == |s.raw| {
      assert Total(s) + [] == Total(s);
    } else {
      Assoc(Flat(s.taken), s.body, p.data);
      if deleting {
        TakeMore(s.taken, body);
        assert Flat(s.taken) + body + [] == Flat(s.taken) + body;
      }
    }
  }

  /** s: the first k chunks have been handed over or are in hand, and raw is the start of the next. */
  ghost predicate Stands(s: State, cs: seq<Coded>, k: nat, read: seq<byte>) {
    && k <= |cs| && Total(s) == Body(cs[..k]) && read == Wires(cs[..k]) + s.raw
    && s.ended == (k == |cs|)
    && Front(s.raw, Wires(cs[k..])) && (k < |cs| ==> Message(cs[k..]) && |s.raw| < |Wire(cs[k])|)
  }

  lemma {:induction false} MessageTail(cs: seq<Coded>, k: nat)
    requires Message(cs) && k < |cs|
    ensures Message(cs[k..])
    decreases k
  {
    if k == 0 {
      assert cs[0..] == cs;
    } else {
      MessageTail(cs[1..], k - 1);
      assert cs[1..][k - 1..] == cs[k..];
    }
  }

  /** The chunks from k on, when j of those are done too. */
  lemma TakeFurther(cs: seq<Coded>, k: nat, j: nat)
    requires k + j <= |cs|
    ensures Body(cs[..k]) + Body(cs[k..][..j]) == Body(cs[..k + j]) && Wires(cs[..k]) + Wires(cs[k..][..j]) == Wires(cs[..k + j])
    ensures cs[k..][j..] == cs[k + j..]
  {
    assert cs[..k + j] == cs[..k] + cs[k..][..j];
    Joined(cs[..k], cs[k..][..j]);
  }

  lemma NextFront(read: seq<byte>, done: seq<byte>, raw: seq<byte>, bytes: seq<byte>, all: seq<byte>, left: seq<byte>)
    requires read == done + raw && all == done + left && Front(read + bytes, all)
    ensures Front(raw + bytes, left) && read + bytes == done + (raw + bytes)
  {
    assert raw + bytes == (read + bytes)[|done|..] == all[..|read + bytes|][|done|..];
  }

  lemma SplitAt(cs: seq<Coded>, k: nat)
    requires k <= |cs|
    ensures Wires(cs) == Wires(cs[..k]) + Wires(cs[k..]) && Body(cs) == Body(cs[..k]) + Body(cs[k..])
  {
    assert cs == cs[..k] + cs[k..];
    Joined(cs[..k], cs[k..]);
  }

  lemma StandsNext(s: State, t: State, cs: seq<Coded>, k: nat, j: nat, read: seq<byte>, raw: seq<byte>, p: Parts)
    requires k < |cs| && Total(s) == Body(cs[..k]) && read == Wires(cs[..k]) + raw
    requires Collapsed(p, cs[k..], j, raw)
    requires Total(t) == Total(s) + p.data && t.raw == p.rest && t.ended == p.ended
    ensures Stands(t, cs, k + j, read)
  {
    TakeFurther(cs, k, j);
    Assoc(Wires(cs[..k]), Wires(cs[k..][..j]), p.rest);
  }

  lemma HandleEnded(s: State, deleting: bool)
    requires !s.ended
    ensures Handle(s, deleting).ended == Collapse(s.raw).ended
  {
  }

  /** What one read adds, by what its bytes collapse to. */
  lemma ReceiveAdds(s: State, r: Read, t: State, p: Parts)
    requires !s.ended && t == Receive(s, r) && p == Collapse(s.raw + r.bytes)
    ensures Total(t) == Total(s) + p.data && t.raw == p.rest && t.ended == p.ended
  {
    var u := s.(raw := s.raw + r.bytes);
    HandleTotal(u, r.deleting);
    HandleEnded(u, r.deleting);
  }

  lemma RawNext(s: State, cs: seq<Coded>, k: nat, read: seq<byte>, bytes: seq<byte>)
    requires Message(cs) && Stands(s, cs, k, read) && !s.ended && Front(read + bytes, Wires(cs))
    ensures k < |cs| && Message(cs[k..]) && Front(s.raw + bytes, Wires(cs[k..])) && read + bytes == Wires(cs[..k]) + (s.raw + bytes)
    ensures Total(s) == Body(cs[..k])
  {
    SplitAt(cs, k);
    NextFront(read, Wires(cs[..k]), s.raw, bytes, Wires(cs), Wires(cs[k..]));
  }

  /** One more read of a message that has not ended. */
  lemma ReceiveStep(s: State, cs: seq<Coded>, k: nat, read: seq<byte>, r: Read) returns (k': nat, t: State)
    requires Message(cs) && Stands(s, cs, k, read) && !s.ended && Front(read + r.bytes, Wires(cs))
    ensures t == Receive(s, r) && Stands(t, cs, k', read + r.bytes)
  {
    hide Collapse, Wires, Front;
    RawNext(s, cs, k, read, r.bytes);
    var raw := s.raw + r.bytes;
    t := Receive(s, r);
    var j := CollapseFront(cs[k..], raw);
    var p := Collapse(raw);
    ReceiveAdds(s, r, t, p);
    StandsNext(s, t, cs, k, j, read + r.bytes, raw, p);
    k' := k + j;
  }

  lemma BytesStep(read: seq<byte>, rs: seq<Read>)
    requires rs != []
    ensures read + Bytes(rs) == read + rs[0].bytes + Bytes(rs[1..])
  {
  }

  lemma FrontPart(a: seq<byte>, b: seq<byte>, all: seq<byte>)
    requires Front(a + b, all)
    ensures Front(a, all)
  {
    assert a == (a + b)[..|a|];
  }

  lemma {:induction false} ReceivesStand(s: State, cs: seq<Coded>, k: nat, read: seq<byte>, rs: seq<Read>) returns (k': nat, seen: seq<byte>)
    requires Message(cs) && Stands(s, cs, k, read) && Front(read + Bytes(rs), Wires(cs))
    ensures Front(seen, read + Bytes(rs)) && Stands(Receives(s, rs), cs, k', seen)
    ensures !Receives(s, rs).ended ==> seen == read + Bytes(rs)
    decreases |rs|
  {
    if rs == [] || s.ended {
      k', seen := k, read;
      if rs == [] { assert read + [] == read; }
    } else {
      BytesStep(read, rs);
      FrontPart(read + rs[0].bytes, Bytes(rs[1..]), Wires(cs));
      var m, t := ReceiveStep(s, cs, k, read, rs[0]);
      k', seen := ReceivesStand(t, cs, m, read + rs[0].bytes, rs[1..]);
    }
  }

  lemma StartStands(cs: seq<Coded>)
    requires Message(cs)
    ensures Stands(State([], [], [], false), cs, 0, [])
  {
    assert cs[..0] == [] && cs[0..] == cs;
  }

  /**
   At any moment, however the stream is cut and whatever the handler takes: what it took, followed by what
   is reassembled, is the data of the complete chunks, and the rest of the buffer is the start of the next.
   */
  lemma AnyCut(cs: seq<Coded>, rs: seq<Read>) returns (k: nat, seen: seq<byte>)
    requires Message(cs) && Front(Bytes(rs), Wires(cs))
    ensures Front(seen, Bytes(rs)) && Stands(Receives(State([], [], [], false), rs), cs, k, seen)
    ensures !Receives(State([], [], [], false), rs).ended ==> seen == Bytes(rs)
  {
    StartStands(cs);
    assert [] + Bytes(rs) == Bytes(rs);
    k, seen := ReceivesStand(State([], [], [], false), cs, 0, [], rs);
  }

  /** The whole stream: the body arrives whole, in order, and nothing of the stream is left over. */
  lemma BodyArrives(cs: seq<Coded>, rs: seq<Read>)
    requires Message(cs) && Bytes(rs) == Wires(cs)
    ensures var t := Receives(State([], [], [], false), rs);
      t.ended && t.raw == [] && Total(t) == Body(cs)
  {
    var all := Wires(cs);
    assert Front(all, all) by { assert all[..|all|] == all; }
    var k, seen := AnyCut(cs, rs);
    NotShort(Receives(State([], [], [], false), rs), cs, k, seen);
    assert cs[..k] == cs && cs[k..] == [];
  }

  /** A message all of whose bytes are in is not in the middle of a chunk. */
  lemma NotShort(t: State, cs: seq<Coded>, k: nat, seen: seq<byte>)
    requires Stands(t, cs, k, seen) && (!t.ended ==> seen == Wires(cs))
    ensures k == |cs|
  {
    if k < |cs| {
      SplitAt(cs, k);
      ShorterThanRest(cs, k);
    }
  }

  lemma ShorterThanRest(cs: seq<Coded>, k: nat)
    requires k < |cs|
    ensures |Wire(cs[k])| <= |Wires(cs[k..])|
  {
  }

  /** A handler that deletes nothing ends with the whole body in front of the buffer. */
  lemma {:induction false} NoneTaken(s: State, rs: seq<Read>)
    requires s.taken == [] && forall i | 0 <= i < |rs| :: !rs[i].deleting
    ensures Receives(s, rs).taken == []
    decreases |rs|
  {
    if rs != [] && !s.ended {
      assert forall i | 0 <= i < |rs| - 1 :: rs[1..][i] == rs[i + 1];
      NoneTaken(Receive(s, rs[0]), rs[1..]);
    }
  }

  /** A handler that deletes every chunk finds the body empty after each event. */
  lemma {:induction false} AllTaken(s: State, rs: seq<Read>)
    requires s.body == [] && forall i | 0 <= i < |rs| :: rs[i].deleting
    ensures Receives(s, rs).body == []
    decreases |rs|
  {
    if rs != [] && !s.ended {
      assert forall i | 0 <= i < |rs| - 1 :: rs[1..][i] == rs[i + 1];
      AllTaken(Receive(s, rs[0]), rs[1..]);
    }
  }

  /** Everything deleted, the handler has been given the whole body. */
  lemma BodyTaken(cs: seq<Coded>, rs: seq<Read>)
    requires Message(cs) && Bytes(rs) == Wires(cs) && forall i | 0 <= i < |rs| :: rs[i].deleting
    ensures var t := Receives(State([], [], [], false), rs); t.body == [] && Flat(t.taken) == Body(cs)
  {
    BodyArrives(cs, rs);
    AllTaken(State([], [], [], false), rs);
    var t := Receives(State([], [], [], false), rs);
    assert Flat(t.taken) + t.body == Flat(t.taken);
  }

  lemma BodyInFront(cs: seq<Coded>, rs: seq<Read>)
    requires Message(cs) && Bytes(rs) == Wires(cs) && forall i | 0 <= i < |rs| :: !rs[i].deleting
    ensures Receives(State([], [], [], false), rs) == State(Body(cs), [], [], true)
  {
    BodyArrives(cs, rs);
    NoneTaken(State([], [], [], false), rs);
    var t := Receives(State([], [], [], false), rs);
    assert [] + t.body == t.body;
  }

  /** Pieces of data, none of them empty, as mg_send_http_chunk sends them, the empty chunk at the end. */
  function Sendings(ds: seq<seq<byte>>): seq<Coded> {
    if ds == [] then [Sending([])] else [Sending(ds[0])] + Sendings(ds[1..])
  }

  /** What this library sends is such a message, of this data. */
  lemma {:induction false} SentMessage(ds: seq<seq<byte>>)
    requires forall i | 0 <= i < |ds| :: ds[i] != []
    ensures Message(Sendings(ds)) && Body(Sendings(ds)) == Flat(ds)
  {
    if ds == [] {
      SendingProper([]);
      OneChunk(Sendings(ds));
    } else {
      SendingProper(ds[0]);
      SentMessage(ds[1..]);
      assert Sendings(ds)[1..] == Sendings(ds[1..]);
    }
  }
}
