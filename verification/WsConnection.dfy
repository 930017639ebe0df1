/** The decoder and the encoder on their buffers: frames are unmasked, joined and removed in place. */
module WsConnection {
  import opened CInts
  import opened Mbufs
  import opened WsFrames
  import opened WsStream

  const DONT_FIN: nat := 0x100

  /** ntohs, ntohl */
  method Load16(a: array<byte>, at: nat) returns (n: nat)
    requires at + 2 <= a.Length
    ensures n == Of16(a[at..at + 2])
  {
    var hi: nat, lo: nat := a[at], a[at + 1];
    n := hi * 256 + lo;
  }

  method Load32(a: array<byte>, at: nat) returns (n: nat)
    requires at + 4 <= a.Length
    ensures n == Of32(a[at..at + 4])
  {
    var hi := Load16(a, at);
    var lo := Load16(a, at + 2);
    n := hi * 0x1_0000 + lo;
    assert a[at..at + 4][..2] == a[at..at + 2] && a[at..at + 4][2..] == a[at + 2..at + 4];
  }

  method Load64(a: array<byte>, at: nat) returns (n: nat)
    requires at + 8 <= a.Length
    ensures n == Of64(a[at..at + 8])
  {
    var hi := Load32(a, at);
    var lo := Load32(a, at + 4);
    n := hi * 0x1_0000_0000 + lo;
    assert a[at..at + 8][..4] == a[at..at + 4] && a[at..at + 8][4..] == a[at + 4..at + 8];
  }

  /** Header and payload length of what starts at `at` and goes on for n bytes. */
  method Measure(a: array<byte>, at: nat, n: nat) returns (header: nat, data: nat, maskLen: nat)
    requires at + n <= a.Length
    ensures (header, data) == Lengths(a[at..at + n]) && maskLen == MaskLen(a[at..at + n])
  {
    header, data, maskLen := 0, 0, 0;
    ghost var d := a[at..at + n];
    if n >= 2 {
      assert d[1] == a[at + 1];
      var len := a[at + 1] % 128;
      maskLen := if a[at + 1] >= 128 then 4 else 0;
      if len < 126 && n >= maskLen {
        header, data := 2 + maskLen, len;
      } else if len == 126 && n >= 4 + maskLen {
        header := 4 + maskLen;
        data := Load16(a, at + 2);
        assert d[2..4] == a[at + 2..at + 4];
      } else if n >= 10 + maskLen {
        header := 10 + maskLen;
        data := Load64(a, at + 2);
        assert d[2..10] == a[at + 2..at + 10];
      }
    }
  }

  lemma CopiedElsewhere(was: seq<byte>, at: nat, m: seq<byte>, j: nat)
    requires at + |m| <= |was| && j < |was| && !(at <= j < at + |m|)
    ensures Copied(was, at, m)[j] == was[j]
  {
  }

  lemma CopiedNext(was: seq<byte>, at: nat, m: seq<byte>, x: byte)
    requires at + |m| < |was|
    ensures Copied(was, at, m)[at + |m| := x] == Copied(was, at, m + [x])
  {
    var i := at + |m|;
    assert was[i..] == [was[i]] + was[i + 1..];
  }

  lemma MaskNext(data: seq<byte>, key: seq<byte>, i: nat)
    requires |key| == 4 && i < |data|
    ensures Masked(data[..i + 1], key) == Masked(data[..i], key) + [Xor(data[i], key[i % 4])]
  {
    assert data[..i + 1][..i] == data[..i];
  }

  lemma SliceAt(was: seq<byte>, lo: nat, hi: nat, i: nat)
    requires lo <= hi <= |was| && i < hi - lo
    ensures was[lo..hi][i] == was[lo + i]
  {
  }

  method Put(a: array<byte>, i: nat, b: byte)
    requires i < a.Length
    modifies a
    ensures a[..] == old(a[..])[i := b]
  {
    a[i] := b;
  }

  method Get(a: array<byte>, i: nat) returns (b: byte)
    requires i < a.Length
    ensures b == a[..][i]
  {
    b := a[i];
  }

  /** One byte further. */
  lemma MaskStep(was: seq<byte>, at: nat, data: seq<byte>, key: seq<byte>, i: nat, x: byte)
    requires |key| == 4 && i < |data| && at + |data| <= |was| && x == Xor(data[i], key[i % 4])
    ensures Copied(was, at, Masked(data[..i], key))[at + i := x] == Copied(was, at, Masked(data[..i + 1], key))
  {
    MaskNext(data, key, i);
    CopiedNext(was, at, Masked(data[..i], key), x);
  }

  lemma UnmaskStep(was: seq<byte>, at: nat, n: nat, k: nat, i: nat, b: byte, c: byte)
    requires k + 4 <= at && at + n <= |was| && i < n
    requires var p := Copied(was, at, Masked(was[at..at + n][..i], was[k..k + 4])); b == p[at + i] && c == p[k + i % 4]
    ensures var data, key := was[at..at + n], was[k..k + 4];
      Copied(was, at, Masked(data[..i], key))[at + i := Xor(b, c)] == Copied(was, at, Masked(data[..i + 1], key))
  {
    var data, key, r := was[at..at + n], was[k..k + 4], i % 4;
    CopiedElsewhere(was, at, Masked(data[..i], key), at + i);
    CopiedElsewhere(was, at, Masked(data[..i], key), k + r);
    SliceAt(was, at, at + n, i);
    SliceAt(was, k, k + 4, r);
    MaskStep(was, at, data, key, i, Xor(b, c));
  }

  lemma EmptyCopied(was: seq<byte>, at: nat)
    requires at <= |was|
    ensures Copied(was, at, []) == was
  {
  }

  /** Xor of n bytes at `at` with the four bytes at k. */
  method Unmask(a: array<byte>, at: nat, n: nat, k: nat)
    requires k + 4 <= at && at + n <= a.Length
    modifies a
    ensures var was := old(a[..]); a[..] == Copied(was, at, Masked(was[at..at + n], was[k..k + 4]))
  {
    hide Xor, Masked, Copied;
    ghost var was := a[..];
    ghost var data, key := was[at..at + n], was[k..k + 4];
    NoMask(data[..0], key);
    EmptyCopied(was, at);
    for i := 0 to n
      invariant a[..] == Copied(was, at, Masked(data[..i], key))
    {
      var b := Get(a, at + i);
      var c := Get(a, k + i % 4);
      UnmaskStep(was, at, n, k, i, b, c);
      Put(a, at + i, Xor(b, c));
    }
    assert data[..n] == data;
  }

  lemma CopiedFront(a: seq<byte>, len: nat, at: nat, m: seq<byte>)
    requires at + |m| <= len <= |a|
    ensures Copied(a, at, m)[..len] == Copied(a[..len], at, m)
  {
    assert a[at + |m|..][..len - at - |m|] == a[..len][at + |m|..];
  }

  lemma CopiedNothing(c: seq<byte>, at: nat, n: nat)
    requires at + n <= |c|
    ensures Copied(c, at, c[at..at + n]) == c
  {
  }

  lemma Slice(c: seq<byte>, from: nat, lo: nat, hi: nat)
    requires from <= |c| && lo <= hi <= |c| - from
    ensures c[from..][lo..hi] == c[from + lo..from + hi]
  {
  }

  lemma SameSlices(c: seq<byte>, reass: nat, d: seq<byte>, h: nat, n: nat, m: nat)
    requires reass + |d| == |c| && d == c[reass..] && m <= h && h + n <= |d|
    ensures d[h..h + n] == c[reass + h..reass + h + n]
    ensures d[h - m..h] == c[reass + h - m..reass + h]
    ensures d[h + n..] == c[reass + h + n..]
    ensures d != [] ==> d[0] == c[reass]
  {
    Slice(c, reass, h, h + n);
    Slice(c, reass, h - m, h);
  }

  /** Moving the unmasked payload down over the header joins it to the message. */
  lemma JoinedBy(c: seq<byte>, reass: nat, at: nat, pay: seq<byte>, to: nat)
    requires reass < at && at + |pay| <= |c| && (to == reass || to == reass + 1)
    ensures var u := Copied(c, at, pay);
      u[..to] + u[at..] == c[..reass] + (if to == reass then [] else [c[reass]]) + pay + c[at + |pay|..]
  {
    var u := Copied(c, at, pay);
    assert u[at..] == pay + c[at + |pay|..];
    assert u[..at] == c[..at];
    assert u[..to] == u[..at][..to] && c[..to] == c[..at][..to];
    assert c[..to] == c[..reass] + (if to == reass then [] else [c[reass]]);
  }

  lemma RemovedBy(c: seq<byte>, reass: nat, at: nat, pay: seq<byte>)
    requires reass < at && at + |pay| <= |c|
    ensures var u := Copied(c, at, pay);
      u[at..at + |pay|] == pay && u[..reass] + u[at + |pay|..] == c[..reass] + c[at + |pay|..]
  {
    var u := Copied(c, at, pay);
    assert u[..at] == c[..at];
    assert u[..reass] == u[..at][..reass];
  }

  /** pay and rest are the payload of a frame that lies at `at`, and what follows it. */
  predicate PayloadAt(c: seq<byte>, at: nat, n: nat, maskLen: nat, pay: seq<byte>, rest: seq<byte>) {
    && at + n <= |c| && maskLen <= at && (maskLen == 0 || maskLen == 4)
    && pay == Masked(c[at..at + n], c[at - maskLen..at]) && rest == c[at + n..]
  }

  lemma PayloadLies(c: seq<byte>, reass: nat, d: seq<byte>, h: nat, n: nat)
    requires reass <= |c| && d == c[reass..] && 2 + MaskLen(d) <= h && h + n <= |d|
    ensures PayloadAt(c, reass + h, n, MaskLen(d), Payload(d, h, n), d[h + n..])
  {
    SameSlices(c, reass, d, h, n, MaskLen(d));
  }

  lemma FirstOf(c: seq<byte>, reass: nat, d: seq<byte>)
    requires reass <= |c| && d == c[reass..] && d != []
    ensures reass < |c| && c[reass] == d[0]
  {
  }

  /** A 64-bit sum not below its parts did not wrap. */
  lemma NoWrap(h: nat, n: nat)
    requires h < SIZE_RANGE && n < SIZE_RANGE && !Wraps(h, n)
    ensures (h + n) % SIZE_RANGE == h + n
  {
  }

  class Connection {
    const recv: Mbuf
    const send: Mbuf
    const client: bool        // no listener: outgoing frames are masked
    var reass: nat
    var log: seq<Event>
    var sendAndClose: bool

    ghost predicate Valid()
      reads this, recv, send
    {
      recv != send && recv.buf != send.buf && recv.Valid() && send.Valid() && reass <= recv.len
    }

    ghost function Value(): State
      reads this, recv, recv.buf, send
      requires Valid()
    {
      State(recv.Contents(), reass, log)
    }

    constructor (client: bool)
      ensures Valid() && Value() == State([], 0, []) && send.Contents() == []
      ensures fresh(recv) && fresh(send) && fresh(recv.buf) && fresh(send.buf) && this.client == client
    {
      this.client := client;
      reass, log, sendAndClose := 0, [], false;
      recv := new Mbuf(0);
      send := new Mbuf(0);
    }

    method Note(e: Event)
      modifies this`log
      ensures log == old(log) + [e]
    {
      log := log + [e];
    }

    /** Unmasking, when there is a mask. */
    method UnmaskPayload(at: nat, n: nat, maskLen: nat, ghost pay: seq<byte>, ghost rest: seq<byte>)
      requires Valid() && PayloadAt(recv.Contents(), at, n, maskLen, pay, rest)
      modifies recv.buf
      ensures Valid() && |pay| == n && recv.Contents() == Copied(old(recv.Contents()), at, pay)
    {
      ghost var c, a := recv.Contents(), recv.buf[..];
      if maskLen == 0 {
        CopiedNothing(c, at, n);
        return;
      }
      assert c == a[..recv.len];
      assert c[at - 4..at] == a[at - 4..at] && c[at..at + n] == a[at..at + n];
      Unmask(recv.buf, at, n, at - 4);
      CopiedFront(a, recv.len, at, pay);
      assert recv.Contents() == recv.buf[..][..recv.len];
    }

    /** Unmask a fragment's payload and move it down to the message under reassembly. */
    method AppendFragment(first: bool, at: nat, n: nat, maskLen: nat, ghost pay: seq<byte>, ghost rest: seq<byte>)
      requires Valid() && reass < at && PayloadAt(recv.Contents(), at, n, maskLen, pay, rest)
      modifies this`reass, recv`len, recv.buf
      ensures Valid() && reass == (if first then 1 else old(reass)) + |pay|
      ensures recv.Contents() == old(recv.Contents()[..reass]) + (if first then [old(recv.Contents()[reass])] else []) + pay + rest
    {
      hide Masked;
      ghost var c := recv.Contents();
      UnmaskPayload(at, n, maskLen, pay, rest);
      JoinedBy(c, reass, at, pay, if first then reass + 1 else reass);
      var to := reass;
      if first {
        to := to + 1;
        reass := 1;
      }
      recv.Cut(to, at);
      reass := reass + n;
    }

    /** The message is whole: hand it over and remove it. */
    method HandOver()
      requires Valid() && reass > 0
      modifies this`reass, this`log, recv`len, recv.buf
      ensures Valid() && reass == 0 && recv.Contents() == old(recv.Contents()[reass..])
      ensures log == old(log) + [Handed(WithFin(old(recv.Contents()[0])), old(recv.Contents()[1..reass]))]
    {
      var data := recv.Slice(1, reass);
      Note(Handed(WithFin(recv.buf[0]), data));
      var cleanup := reass;
      reass := 0;
      recv.Remove(cleanup);
    }

    /** A fragment: joined to the message under reassembly, and handed over if it is the last. */
    method JoinFragment(flags: byte, at: nat, n: nat, maskLen: nat, ghost pay: seq<byte>, ghost rest: seq<byte>)
      requires Valid() && reass < at && PayloadAt(recv.Contents(), at, n, maskLen, pay, rest)
      requires flags == recv.Contents()[reass]
      requires Joined(Value(), flags, pay, rest) != Stray
      modifies this`reass, this`log, recv`len, recv.buf
      ensures Valid() && Again(Value()) == Joined(old(Value()), flags, pay, rest)
    {
      AppendFragment(IsFirstFragment(flags), at, n, maskLen, pay, rest);
      if flags >= FIN {
        HandOver();
      }
    }

    method React(flags: byte, data: seq<byte>)
      modifies this`log
      ensures log == old(log) + Reaction(flags, data) + [Handed(flags, data)]
    {
      assert log + [] == log;
      if flags % 16 == OP_PING {
        Note(SendPong(data));
      } else if flags % 16 == OP_CLOSE {
        Note(SendClose(Echo(data)));
      }
      Note(Handed(flags, data));
    }

    /** A whole message of its own. */
    method TakeComplete(flags: byte, at: nat, n: nat, maskLen: nat, ghost pay: seq<byte>, ghost rest: seq<byte>)
      requires Valid() && reass < at && PayloadAt(recv.Contents(), at, n, maskLen, pay, rest)
      modifies this`log, recv`len, recv.buf
      ensures Valid() && Again(Value()) == Complete(old(Value()), flags, pay, rest)
    {
      ghost var c := recv.Contents();
      UnmaskPayload(at, n, maskLen, pay, rest);
      RemovedBy(c, reass, at, pay);
      var data := recv.Slice(at, at + n);
      React(flags, data);
      recv.Cut(reass, at + n);
    }

    /** The two checks before the frame is measured. */
    method Refuse(flags: byte, n: nat, ghost d: seq<byte>) returns (refused: bool)
      requires n == |d| && (n > 0 ==> flags == d[0])
      modifies this`log
      ensures log == old(log) + Refusal(d, reass) && refused == (Refusal(d, reass) != [])
    {
      var fragment := n > 0 && IsFragment(flags);
      if fragment && IsControl(flags) {
        Note(SendClose(FragmentedControl));
        return true;
      } else if n > 0 && !fragment && !IsControl(flags) && reass > 0 {
        Note(SendClose(NotContinuation));
        return true;
      }
      assert log + [] == log;
      return false;
    }

    method TakeStep(flags: byte, at: nat, n: nat, maskLen: nat, ghost pay: seq<byte>, ghost rest: seq<byte>)
      requires Valid() && reass < at && PayloadAt(recv.Contents(), at, n, maskLen, pay, rest)
      requires flags == recv.Contents()[reass] && Step(Value(), flags, pay, rest) != Stray
      modifies this`reass, this`log, recv`len, recv.buf
      ensures Valid() && Again(Value()) == Step(old(Value()), flags, pay, rest)
    {
      if IsFragment(flags) {
        JoinFragment(flags, at, n, maskLen, pay, rest);
      } else {
        TakeComplete(flags, at, n, maskLen, pay, rest);
      }
    }

    /** The frame is all there. */
    method TakeFrame(flags: byte, header: nat, data: nat, maskLen: nat, ghost d: seq<byte>, ghost pay: seq<byte>, ghost rest: seq<byte>)
      requires Valid() && d == recv.Contents()[reass..] && maskLen == MaskLen(d)
      requires 2 + maskLen <= header && header + data <= |d| && flags == d[0]
      requires pay == Payload(d, header, data) && rest == d[header + data..] && Step(Value(), flags, pay, rest) != Stray
      modifies this`reass, this`log, recv`len, recv.buf
      ensures Valid() && Again(Value()) == Step(old(Value()), flags, pay, rest)
    {
      hide Step, PayloadAt, Payload, MaskLen;
      PayloadLies(recv.Contents(), reass, d, header, data);
      FirstOf(recv.Contents(), reass, d);
      TakeStep(flags, reass + header, data, maskLen, pay, rest);
    }

    /** What is left once the frame is measured and not refused. */
    method TakeMeasured(flags: byte, n: nat, header: nat, data: nat, maskLen: nat, ghost d: seq<byte>) returns (ok: bool)
      requires Valid() && d == recv.Contents()[reass..] && n == |d| && Lengths(d) == (header, data) && maskLen == MaskLen(d)
      requires Decode(Value(), d, header, data) != Stray && (n > 0 ==> flags == d[0])
      modifies this`reass, this`log, recv`len, recv.buf
      ensures Valid() && Decode(old(Value()), d, header, data) == if ok then Again(Value()) else Idle(Value())
    {
      var frame := (header + data) % SIZE_RANGE;
      ok := 0 < frame <= n;
      if frame < header || frame < data {
        ok := false;
        Note(SendClose(Overflowed));
      } else {
        NoWrap(header, data);
        if ok {
          TakeFrame(flags, header, data, maskLen, d, Payload(d, header, data), d[header + data..]);
        }
      }
    }

    /** mg_deliver_websocket_data */
    method DeliverData() returns (ok: bool)
      requires Valid() && Deliver(Value()) != Stray
      modifies this`reass, this`log, recv`len, recv.buf
      ensures Valid() && Deliver(old(Value())) == if ok then Again(Value()) else Idle(Value())
    {
      ghost var d := recv.Contents()[reass..];
      assert d == recv.buf[reass..recv.len];
      var n := recv.len - reass;
      var flags := if n > 0 then recv.buf[reass] else 0;
      var refused := Refuse(flags, n, d);
      if refused { return false; }
      assert Value() == old(Value());
      var header, data, maskLen := Measure(recv.buf, reass, n);
      ok := TakeMeasured(flags, n, header, data, maskLen, d);
    }

    /** One turn of the loop. */
    method Turn(ghost goal: Outcome) returns (more: bool)
      requires Valid() && goal != Stray && Drain(Value()) == goal
      modifies this`reass, this`log, recv`len, recv.buf
      ensures Valid() && if more then Drain(Value()) == goal && recv.len < old(recv.len) else goal == Idle(Value())
    {
      more := DeliverData();
    }

    /** mg_ws_handler on a receive event. */
    method Loop(ghost goal: Outcome)
      requires Valid() && goal != Stray && Drain(Value()) == goal
      modifies this`reass, this`log, recv`len, recv.buf
      ensures Valid() && goal == Idle(Value())
    {
      var more := true;
      while more
        invariant Valid()
        invariant more ==> Drain(Value()) == goal
        invariant !more ==> goal == Idle(Value())
        decreases more, recv.len
      {
        more := Turn(goal);
      }
    }

    /** The bytes of one read, then the loop. */
    method Receive(chunk: seq<byte>)
      requires Valid() && Read(Value(), chunk) != Stray
      modifies this`reass, this`log, recv, recv.buf
      ensures Valid() && Read(old(Value()), chunk) == Idle(Value())
      ensures recv.buf == old(recv.buf) || fresh(recv.buf)
    {
      recv.Append(chunk);
      Loop(Drain(Value()));
    }

    method ReceiveNext(chunks: seq<seq<byte>>, ghost end: State)
      requires Valid() && chunks != [] && Reads(Value(), chunks) == Idle(end)
      modifies this`reass, this`log, recv, recv.buf
      ensures Valid() && Reads(Value(), chunks[1..]) == Idle(end)
      ensures recv.buf == old(recv.buf) || fresh(recv.buf)
    {
      ReadsNext(Value(), chunks, end);
      Receive(chunks[0]);
    }

    /** A legal stream through the socket, however the reads fall. */
    method ReceiveAll(chunks: seq<seq<byte>>, ghost fs: seq<Frame>)
      requires Valid() && Value() == State([], 0, [])
      requires Legal([], fs) && Concat(chunks) == Wires([], fs)
      modifies this`reass, this`log, recv, recv.buf
      ensures Valid() && log == AllGiven([], fs) && recv.Contents() == AfterAll([], fs) && reass == recv.len
    {
      hide Reads, Wires, Legal, AllGiven, AfterAll, Concat;
      EndToEnd(fs, chunks);
      ghost var p := AfterAll([], fs);
      ghost var end := State(p, |p|, AllGiven([], fs));
      assert chunks[0..] == chunks;
      for i := 0 to |chunks|
        invariant Valid() && (recv.buf == old(recv.buf) || fresh(recv.buf))
        invariant Reads(Value(), chunks[i..]) == Idle(end)
      {
        assert chunks[i..] != [] && chunks[i..][1..] == chunks[i + 1..];
        ReceiveNext(chunks[i..], end);
      }
      ReadsNone(Value());
    }

    // ---- sending

    ghost function Key(mask: seq<byte>): seq<byte> {
      if client then mask else []
    }

    /** mg_send_ws_header; `mask` is what the random source gave. Returns where masking starts, 0 for not at all. */
    method SendHeader(op: nat, len: nat, mask: seq<byte>, ghost data: seq<byte>) returns (pos: nat)
      requires Valid() && |mask| == 4 && len == |data| < 0x8000_0000_0000_0000
      modifies send, send.buf
      ensures Valid() && (send.buf == old(send.buf) || fresh(send.buf))
      ensures send.Contents() == old(send.Contents()) + Header(FrameOf(op, Key(mask), data))
      ensures pos == if client then send.len else 0
    {
      var header := new byte[10];
      header[0] := OpFlags(op);
      var size := FillLength(header, len, client);
      HeaderBy(FrameOf(op, Key(mask), data), header[..size]);
      send.Append(header[..size]);
      if client {
        send.Append(mask);
        pos := send.len;
      } else {
        assert send.Contents() + [] == send.Contents();
        pos := 0;
      }
    }

    /** mg_ws_mask_frame: everything from pos on. */
    method MaskFrame(pos: nat, mask: seq<byte>)
      requires Valid() && |mask| == 4 && pos <= send.len
      modifies send.buf
      ensures Valid()
      ensures send.Contents() == if pos == 0 then old(send.Contents()) else old(send.Contents()[..pos]) + Masked(old(send.Contents()[pos..]), mask)
    {
      if pos == 0 { return; }
      MaskTail(send.buf, pos, send.len, mask);
    }

    /** mg_send_websocket_framev; the length is summed in an int. */
    method SendFrameV(op: nat, pieces: seq<seq<byte>>, mask: seq<byte>)
      requires Valid() && |mask| == 4 && |Concat(pieces)| < INT_RANGE
      modifies this`sendAndClose, send, send.buf
      ensures Valid() && send.Contents() == old(send.Contents()) + Wire(FrameOf(op, Key(mask), Concat(pieces)))
      ensures sendAndClose == (old(sendAndClose) || op == OP_CLOSE)
    {
      hide Masked, Wire, Header;
      var len := TotalOf(pieces);
      var pos := SendHeader(op, len, mask, Concat(pieces));
      SendPieces(pieces);
      ghost var full := send.Contents();
      MaskFrame(pos, mask);
      Written(old(send.Contents()), Header(FrameOf(op, Key(mask), Concat(pieces))), Concat(pieces), Key(mask), mask, client, pos, full,
              send.Contents());
      WireIs(FrameOf(op, Key(mask), Concat(pieces)));
      if op == OP_CLOSE {
        sendAndClose := true;
      }
    }

    /** mg_send_websocket_frame: a header for all of the data, and what mg_send makes of it. */
    method SendFrame(op: nat, data: seq<byte>, mask: seq<byte>)
      requires Valid() && |mask| == 4 && |data| < 0x8000_0000_0000_0000
      modifies this`sendAndClose, send, send.buf
      ensures Valid()
      ensures send.Contents() == old(send.Contents()) + (Header(FrameOf(op, Key(mask), data)) + Masked(Sent(data), Key(mask)))
      ensures send.Contents() == old(send.Contents()) + Wire(FrameOf(op, Key(mask), data)) <==> |data| < INT_RANGE
      ensures sendAndClose == (old(sendAndClose) || op == OP_CLOSE)
    {
      hide Masked, Wire, Header;
      var pos := SendHeader(op, |data|, mask, data);
      send.Send(data);
      ghost var full := send.Contents();
      MaskFrame(pos, mask);
      Written(old(send.Contents()), Header(FrameOf(op, Key(mask), data)), Sent(data), Key(mask), mask, client, pos, full, send.Contents());
      WireIff(old(send.Contents()), FrameOf(op, Key(mask), data));
      if op == OP_CLOSE {
        sendAndClose := true;
      }
    }

    method SendPieces(pieces: seq<seq<byte>>)
      requires Valid()
      modifies send, send.buf
      ensures Valid() && (send.buf == old(send.buf) || fresh(send.buf))
      ensures send.Contents() == old(send.Contents()) + Concat(pieces)
    {
      assert send.Contents() + [] == send.Contents();
      for i := 0 to |pieces|
        invariant Valid() && (send.buf == old(send.buf) || fresh(send.buf))
        invariant send.Contents() + Concat(pieces[i..]) == old(send.Contents()) + Concat(pieces)
      {
        ghost var before, rest := send.Contents(), Concat(pieces[i + 1..]);
        assert pieces[i..][1..] == pieces[i + 1..];
        send.Append(pieces[i]);
        assert before + (pieces[i] + rest) == send.Contents() + rest;
      }
      assert send.Contents() + [] == send.Contents();
    }
  }

  lemma ReadsNone(s: State)
    requires s.reass <= |s.buf|
    ensures Reads(s, []) == Idle(s)
  {
  }

  lemma ReadsNext(s: State, chunks: seq<seq<byte>>, end: State)
    requires s.reass <= |s.buf| && chunks != [] && Reads(s, chunks) == Idle(end)
    ensures Read(s, chunks[0]).Idle?
    ensures var t := Read(s, chunks[0]).s; t.reass <= |t.buf| && Reads(t, chunks[1..]) == Idle(end)
  {
    DrainKeeps(s.(buf := s.buf + chunks[0]));
  }

  function OpFlags(op: nat): byte {
    (if op / DONT_FIN % 2 == 1 then 0 else FIN) + op % 16
  }

  /** The frame a send call with opcode argument op stands for. */
  function FrameOf(op: nat, key: seq<byte>, data: seq<byte>): Frame {
    Frame(op / DONT_FIN % 2 == 0, op % 16, key, data)
  }

  lemma HeaderBy(f: Frame, h: seq<byte>)
    requires Proper(f) && |h| >= 1 && h[0] == Flags(f) && h[1..] == LenBytes(|f.data|, f.key != [])
    ensures h + f.key == Header(f)
  {
    assert h == [h[0]] + h[1..];
  }

  /** Header h and data in the buffer, the data masked from pos on if there is a mask. */
  lemma Written(before: seq<byte>, h: seq<byte>, data: seq<byte>, key: seq<byte>, mask: seq<byte>, client: bool, pos: nat,
                full: seq<byte>, c: seq<byte>)
    requires full == before + h + data && |mask| == 4 && h != []
    requires if client then key == mask && pos == |before + h| else key == [] && pos == 0
    requires c == if pos == 0 then full else full[..pos] + Masked(full[pos..], mask)
    ensures c == before + (h + Masked(data, key))
  {
    var base := before + h;
    if client {
      assert base + data == full;
      BackHalf(base, data);
    } else {
      assert Masked(data, key) == data;
    }
    AssocBytes(before, h, Masked(data, key));
  }

  lemma WireIs(f: Frame)
    requires Proper(f)
    ensures Wire(f) == Header(f) + Masked(f.data, f.key)
  {
  }

  /** The frame is on its wire in full exactly if the length of its data is an int. */
  lemma WireIff(before: seq<byte>, f: Frame)
    requires Proper(f)
    ensures before + (Header(f) + Masked(Sent(f.data), f.key)) == before + Wire(f) <==> |f.data| < INT_RANGE
  {
    var part := Header(f) + Masked(Sent(f.data), f.key);
    if before + part == before + Wire(f) {
      assert |before + part| == |before + Wire(f)|;
      assert |Sent(f.data)| == |f.data|;
      AllSent(f.data);
    }
  }

  lemma AllSent(data: seq<byte>)
    requires |Sent(data)| == |data|
    ensures |data| < INT_RANGE
  {
  }

  lemma BackHalf(a: seq<byte>, b: seq<byte>)
    ensures (a + b)[..|a|] == a && (a + b)[|a|..] == b
  {
  }

  lemma AssocBytes(a: seq<byte>, b: seq<byte>, c: seq<byte>)
    ensures a + b + c == a + (b + c)
  {
  }

  method MaskTail(a: array<byte>, pos: nat, len: nat, mask: seq<byte>)
    requires |mask| == 4 && pos <= len <= a.Length
    modifies a
    ensures a[..len] == old(a[..len])[..pos] + Masked(old(a[..len])[pos..], mask)
  {
    ghost var was := a[..];
    ghost var data := was[pos..len];
    assert Copied(was, pos, Masked(data[..0], mask)) == was;
    for i := 0 to len - pos
      invariant a[..] == Copied(was, pos, Masked(data[..i], mask))
    {
      var b := Get(a, pos + i);
      CopiedElsewhere(was, pos, Masked(data[..i], mask), pos + i);
      SliceAt(was, pos, len, i);
      Put(a, pos + i, Xor(b, mask[i % 4]));
      MaskStep(was, pos, data, mask, i, Xor(b, mask[i % 4]));
    }
    assert data[..len - pos] == data;
    assert a[..len] == a[..][..len] == was[..pos] + Masked(data, mask);
    assert was[..len][pos..] == data && was[..len][..pos] == was[..pos];
  }

  method TotalOf(pieces: seq<seq<byte>>) returns (len: nat)
    ensures len == |Concat(pieces)|
  {
    len := 0;
    for i := 0 to |pieces|
      invariant len + |Concat(pieces[i..])| == |Concat(pieces)|
    {
      assert pieces[i..][1..] == pieces[i + 1..];
      len := len + |pieces[i]|;
    }
  }

  /** The second byte and the extended length; returns the size of the header. */
  method FillLength(header: array<byte>, len: nat, masked: bool) returns (size: nat)
    requires header.Length == 10 && len < 0x8000_0000_0000_0000
    modifies header
    ensures header[0] == old(header[0])
    ensures 2 <= size <= 10 && header[1..size] == LenBytes(len, masked)
  {
    size := FillPlain(header, len);
    MaskBit(len);
    assert header[1] == header[1..size][0] && header[2..size] == header[1..size][1..];
    if masked {
      header[1] := header[1] + 128;
    }
    assert header[1..size] == [header[1]] + header[2..size];
  }

  /** The mask bit is all that a mask changes. */
  lemma MaskBit(len: nat)
    requires len < 0x8000_0000_0000_0000
    ensures var p, m := LenBytes(len, false), LenBytes(len, true);
      p[0] < 128 && m == [p[0] + 128] + p[1..]
  {
  }

  method FillPlain(header: array<byte>, len: nat) returns (size: nat)
    requires header.Length == 10 && len < 0x8000_0000_0000_0000
    modifies header
    ensures header[0] == old(header[0])
    ensures 2 <= size <= 10 && header[1..size] == LenBytes(len, false)
  {
    if len < 126 {
      header[1] := len;
      size := 2;
    } else if len < 65535 {
      header[1] := 126;
      Copy(header, 2, Be16(len));
      assert header[2..4] == Be16(len) && header[..2][1] == header[1];
      size := 4;
    } else {
      header[1] := 127;
      FillLong(header, len);
      size := 10;
    }
    assert header[1..size] == [header[1]] + header[2..size];
  }

  /** The 64-bit length, in two halves. */
  method FillLong(header: array<byte>, len: nat)
    requires header.Length == 10 && len < 0x8000_0000_0000_0000
    modifies header
    ensures header[2..] == Be64(len) && header[..2] == old(header[..2])
  {
    Copy(header, 2, Be32(len / 0x1_0000_0000));
    assert header[2..6] == Be32(len / 0x1_0000_0000) && header[..2] == old(header[..2]);
    Copy(header, 6, Be32(len % 0x1_0000_0000));
    assert header[2..] == header[2..6] + header[6..];
  }
}
