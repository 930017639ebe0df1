/** The receiver's loop: chunk data is collapsed to the front of the buffer it arrived in. */
module HttpChunked {
  import opened CInts
  import opened Mbufs
  import opened HttpChunks
  import opened HttpBody

  lemma From<T>(s: seq<T>, p: nat, k: nat)
    requires p + k <= |s|
    ensures s[p..][k..] == s[p + k..]
  {
  }

  /** The digits of a size line. */
  method ScanHex(s: seq<byte>) returns (i: nat, n: nat)
    ensures i == HexRun(s) && n == HexNumber(s, 0)
  {
    i, n := 0, 0;
    assert s[0..] == s;
    while i < |s| && IsHex(s[i])
      invariant i <= |s| && HexRun(s) == i + HexRun(s[i..])
      invariant HexNumber(s, 0) == HexNumber(s[i..], n)
    {
      From(s, i, 1);
      n := n * 16 + HexVal(s[i]);
      i := i + 1;
    }
  }

  /** mg_http_parse_chunk on the buffer from p on. */
  method ScanChunk(s: seq<byte>) returns (c: Chunk)
    ensures c == ParseChunk(s)
  {
    var i, n := ScanHex(s);
    if i == 0 || i + 2 > |s| || s[i] != CR || s[i + 1] != LF { return NoChunk; }
    i := i + 2;
    var at := i;
    i := i + n;
    if i + 2 > |s| || s[i] != CR || s[i + 1] != LF { return NoChunk; }
    c := Chunk(i + 2, at, n);
  }

  /** goal is what `got` and then `tail` make. */
  predicate Splits(goal: Parts, got: seq<byte>, tail: Parts) {
    goal.data == got + tail.data && goal.rest == tail.rest && goal.ended == tail.ended
  }

  lemma SplitMore(goal: Parts, got: seq<byte>, d: seq<byte>, tail: Parts)
    requires Splits(goal, got, Prefixed(d, tail))
    ensures Splits(goal, got + d, tail)
  {
    Assoc(got, d, tail.data);
  }

  lemma SplitStart(goal: Parts)
    ensures Splits(goal, [], goal)
  {
    assert [] + goal.data == goal.data;
  }

  lemma SplitEnd(goal: Parts, got: seq<byte>, rest: seq<byte>, ended: bool)
    requires Splits(goal, got, Parts([], rest, ended))
    ensures goal == Parts(got, rest, ended)
  {
    assert got + [] == got;
  }

  class Receiver {
    const recv: Mbuf
    const headers: nat          // the body starts here
    var bodyLen: nat
    var ended: bool
    var messageLen: nat         // set when the last chunk arrives
    ghost var taken: seq<seq<byte>>

    ghost predicate Valid()
      reads this, recv
    {
      recv.Valid() && headers + bodyLen <= recv.len
    }

    ghost function Value(): State
      reads this, recv, recv.buf
      requires Valid()
    {
      State(recv.Contents()[headers..headers + bodyLen], recv.Contents()[headers + bodyLen..], taken, ended)
    }

    constructor (headers: seq<byte>)
      ensures Valid() && Value() == State([], [], [], false) && recv.Contents() == headers
      ensures fresh(recv) && fresh(recv.buf) && this.headers == |headers|
    {
      this.headers := |headers|;
      bodyLen, ended, messageLen, taken := 0, false, 0, [];
      recv := new Mbuf(0);
      new;
      recv.Append(headers);
      assert [] + headers == headers;
    }

    /** memmove of one chunk's data to the end of the body. */
    method MoveData(q: nat, at: nat, n: nat)
      requires recv.Valid() && q <= at && at + n <= recv.len
      modifies recv.buf
      ensures recv.Valid() && |recv.Contents()| == |old(recv.Contents())|
      ensures recv.Contents()[..q + n] == old(recv.Contents())[..q] + old(recv.Contents())[at..at + n]
      ensures recv.Contents()[at + n..] == old(recv.Contents())[at + n..]
    {
      ghost var a, c := recv.buf[..], recv.Contents();
      Move(recv.buf, q, at, n);
      MovedData(a, recv.len, q, at, n);
      assert recv.Contents() == recv.buf[..][..recv.len];
    }

    /** One chunk: its data joins the body. */
    method CollapseOne(q: nat, p: nat, k: Chunk)
      requires recv.Valid() && q <= p && k.Chunk? && k.at + k.len + 2 == k.total && p + k.total <= recv.len
      modifies recv.buf
      ensures recv.Valid() && |recv.Contents()| == |old(recv.Contents())|
      ensures recv.Contents()[..q + k.len] == old(recv.Contents())[..q] + old(recv.Contents())[p..][k.at..k.at + k.len]
      ensures recv.Contents()[p + k.total..] == old(recv.Contents())[p..][k.total..]
    {
      ghost var c := recv.Contents();
      Slice(c, p, k.at, k.at + k.len);
      From(c, p, k.total);
      MoveData(q, p + k.at, k.len);
      StillThere(c, recv.Contents(), p + k.at + k.len, p + k.total);
    }

    /** One turn of the loop. `front` is what lies before the body data collapsed by it, `got` that data, `raw` the rest. */
    method Turn(q: nat, p: nat, ghost front: seq<byte>, ghost goal: Parts, ghost got: seq<byte>, ghost raw: seq<byte>)
        returns (more: bool, q': nat, p': nat, ghost got': seq<byte>, ghost raw': seq<byte>)
      requires recv.Valid() && q <= p <= recv.len && !ended
      requires recv.Contents()[p..] == raw && recv.Contents()[..q] == front + got && Splits(goal, got, Collapse(raw))
      modifies recv.buf, this`ended
      ensures recv.Valid() && q <= q' <= p' <= recv.len && recv.Contents()[p'..] == raw'
      ensures recv.Contents()[..q'] == front + got' && (p' == p ==> q' == q) && (p' > p ==> p' - p > q' - q)
      ensures p' >= p && (more ==> !ended && p' > p)
      ensures if more then Splits(goal, got', Collapse(raw')) else goal == Parts(got', raw', ended)
    {
      more, q', p', got', raw' := false, q, p, got, raw;
      var rest := recv.Slice(p, recv.len);
      assert rest == raw;
      var k := ScanChunk(rest);
      TurnParts(raw, k, goal, got);
      if k == NoChunk { return; }
      got', raw' := got + raw[k.at..k.at + k.len], raw[k.total..];
      Assoc(front, got, raw[k.at..k.at + k.len]);
      CollapseOne(q, p, k);
      q', p' := q + k.len, p + k.total;
      more := k.len != 0;
      if k.len == 0 {
        ended := true;
      }
    }

    /** The loop over the chunks that are all there: where the body ends, where the rest starts. */
    method CollapseAll(ghost start: seq<byte>, ghost goal: Parts) returns (q: nat, p: nat)
      requires Valid() && !ended && recv.Contents()[headers + bodyLen..] == start && goal == Collapse(start)
      modifies recv.buf, this`ended
      ensures recv.Valid() && headers + bodyLen <= q <= p <= recv.len
      ensures recv.Contents()[..q] == old(recv.Contents())[..headers + bodyLen] + goal.data
      ensures recv.Contents()[p..] == goal.rest && ended == goal.ended
      ensures p > headers + bodyLen ==> p > q
    {
      q, p := headers + bodyLen, headers + bodyLen;
      ghost var front := recv.Contents()[..q];
      ghost var got: seq<byte>, raw := [], start;
      SplitStart(goal);
      Ended(front);
      var more := true;
      while more
        invariant recv.Valid() && headers + bodyLen <= q <= p <= recv.len
        invariant recv.Contents()[..q] == front + got && recv.Contents()[p..] == raw
        invariant p > headers + bodyLen ==> p > q
        invariant more ==> !ended && Splits(goal, got, Collapse(raw))
        invariant !more ==> goal == Parts(got, raw, ended)
        decreases more, recv.len - p
      {
        more, q, p, got, raw := Turn(q, p, front, goal, got, raw);
      }
    }

    /** What the loop left between body and rest is closed up; the handler may then have the body removed. */
    method Shift(q: nat, p: nat, deleting: bool)
      requires recv.Valid() && headers + bodyLen <= q < p <= recv.len
      modifies recv`len, recv.buf, this`bodyLen, this`taken
      ensures Valid() && recv.Contents()[..headers] == old(recv.Contents())[..headers]
      ensures var c := old(recv.Contents()); var body := c[headers..q];
        && recv.Contents()[headers + bodyLen..] == c[p..]
        && recv.Contents()[headers..headers + bodyLen] == (if deleting then [] else body)
        && taken == if deleting then old(taken) + [body] else old(taken)
    {
      ghost var c := recv.Contents();
      recv.Cut(q, p);
      bodyLen := q - headers;
      ghost var d := recv.Contents();
      assert d == c[..q] + c[p..];
      Slices(c, headers, q, p);
      if deleting {
        taken := taken + [c[headers..q]];
        recv.Cut(headers, headers + bodyLen);
        bodyLen := 0;
        assert recv.Contents() == c[..headers] + c[p..];
      }
    }

    /** mg_handle_chunked; `deleting` is what the handler asks for if it is called. */
    method HandleChunked(deleting: bool) returns (called: bool)
      requires Valid() && !ended
      modifies this`bodyLen, this`taken, this`ended, this`messageLen, recv`len, recv.buf
      ensures Valid() && Value() == Handle(old(Value()), deleting)
      ensures called == (|Collapse(old(Value()).raw).rest| < |old(Value()).raw|)
      ensures recv.Contents()[..headers] == old(recv.Contents())[..headers]
      ensures ended ==> messageLen == recv.len
    {
      hide Collapse, Shifted;
      ghost var s := Value();
      HandleBy(s, deleting, Collapse(s.raw));
      called := HandleBody(deleting, s, Collapse(s.raw));
    }

    /** One read, then the loop. */
    method ReceiveRead(r: Read)
      requires Valid() && !ended
      modifies this`bodyLen, this`taken, this`ended, this`messageLen, recv, recv.buf
      ensures Valid() && Value() == Receive(old(Value()), r)
      ensures recv.buf == old(recv.buf) || fresh(recv.buf)
      ensures recv.Contents()[..headers] == old(recv.Contents())[..headers] && (ended ==> messageLen == recv.len)
    {
      hide Handle, Collapse;
      ghost var c := recv.Contents();
      recv.Append(r.bytes);
      Appended(c, r.bytes, headers, headers + bodyLen);
      var _ := HandleChunked(r.deleting);
    }

    /**
     A whole message through the socket, however the reads fall and whatever the handler takes: what
     it took, and what then lies behind the headers, is the data sent, and no byte is left undecoded.
     */
    method ReceiveAll(rs: seq<Read>, ghost cs: seq<Coded>)
      requires Valid() && Value() == State([], [], [], false)
      requires Message(cs) && Bytes(rs) == Wires(cs)
      modifies this`bodyLen, this`taken, this`ended, this`messageLen, recv, recv.buf
      ensures Valid() && ended && headers + bodyLen == recv.len == messageLen
      ensures Flat(taken) + recv.Contents()[headers..] == Body(cs)
      ensures recv.Contents()[..headers] == old(recv.Contents())[..headers]
    {
      hide Receive, Message, Wires, Flat, Body;
      BodyArrives(cs, rs);
      ghost var goal := Receives(Value(), rs);
      assert rs[0..] == rs;
      var i := 0;
      while i < |rs| && !ended
        invariant i <= |rs| && Valid() && (recv.buf == old(recv.buf) || fresh(recv.buf))
        invariant Receives(Value(), rs[i..]) == goal
        invariant recv.Contents()[..headers] == old(recv.Contents())[..headers] && (ended ==> messageLen == recv.len)
      {
        assert rs[i..] != [] && rs[i..][1..] == rs[i + 1..];
        ReceiveRead(rs[i]);
        i := i + 1;
      }
      assert Value() == goal;
      assert recv.Contents()[headers..headers + bodyLen] == recv.Contents()[headers..];
    }

    method HandleBody(deleting: bool, ghost s: State, ghost goal: Parts) returns (called: bool)
      requires Valid() && !ended && s == Value() && goal == Collapse(s.raw)
      modifies this`bodyLen, this`taken, this`ended, this`messageLen, recv`len, recv.buf
      ensures Valid() && called == (|goal.rest| < |s.raw|)
      ensures Value() == if called then Shifted(s, goal, deleting) else s.(ended := goal.ended)
      ensures recv.Contents()[..headers] == old(recv.Contents())[..headers]
      ensures called && ended ==> messageLen == recv.len
    {
      ghost var c := recv.Contents();
      var q, p := CollapseAll(s.raw, goal);
      called := Conclude(q, p, deleting, s, goal, c);
    }

    /** After the loop. */
    method Conclude(q: nat, p: nat, deleting: bool, ghost s: State, ghost goal: Parts, ghost c: seq<byte>) returns (called: bool)
      requires recv.Valid() && headers + bodyLen <= q <= p <= recv.len == |c| && (p > headers + bodyLen ==> p > q)
      requires recv.Contents()[..q] == c[..headers + bodyLen] + goal.data && recv.Contents()[p..] == goal.rest
      requires s.body == c[headers..headers + bodyLen] && s.raw == c[headers + bodyLen..]
      requires taken == s.taken && ended == goal.ended && (|goal.rest| == |s.raw| ==> goal.rest == s.raw)
      modifies this`bodyLen, this`taken, this`messageLen, recv`len, recv.buf
      ensures Valid() && called == (|goal.rest| < |s.raw|)
      ensures Value() == if called then Shifted(s, goal, deleting) else s.(ended := goal.ended)
      ensures recv.Contents()[..headers] == c[..headers]
      ensures called && ended ==> messageLen == recv.len
    {
      ghost var b := headers + bodyLen;
      assert |goal.rest| == recv.len - p && |s.raw| == recv.len - b;
      called := q < p;
      if called {
        BodyThere(c, headers, b, goal, recv.Contents(), q, p);
        Finish(q, p, deleting, s, goal);
      } else {
        Untouched(c, b, goal, recv.Contents());
      }
    }

    /** At least one chunk was collapsed. */
    method Finish(q: nat, p: nat, deleting: bool, ghost s: State, ghost goal: Parts)
      requires recv.Valid() && headers + bodyLen <= q < p <= recv.len
      requires recv.Contents()[headers..q] == s.body + goal.data && recv.Contents()[p..] == goal.rest
      requires taken == s.taken && ended == goal.ended
      modifies this`bodyLen, this`taken, this`messageLen, recv`len, recv.buf
      ensures Valid() && Value() == Shifted(s, goal, deleting)
      ensures recv.Contents()[..headers] == old(recv.Contents())[..headers]
      ensures ended ==> messageLen == recv.len
    {
      Shift(q, p, deleting);
      if ended {
        messageLen := headers + bodyLen + (recv.len - (headers + bodyLen));
      }
    }
  }

  lemma Appended(c: seq<byte>, bytes: seq<byte>, h: nat, b: nat)
    requires h <= b <= |c|
    ensures (c + bytes)[h..b] == c[h..b] && (c + bytes)[b..] == c[b..] + bytes && (c + bytes)[..h] == c[..h]
  {
  }

  /** mg_send_http_chunk */
  method SendChunk(io: Mbuf, data: seq<byte>)
    requires io.Valid()
    modifies io, io.buf
    ensures io.Valid() && io.Contents() == old(io.Contents()) + (Hex(|data|) + [CR, LF] + Sent(data) + [CR, LF])
    ensures io.Contents() == old(io.Contents()) + Wire(Sending(data)) <==> |data| < INT_RANGE
  {
    ghost var was := io.Contents();
    io.Append(Hex(|data|) + [CR, LF]);
    io.Send(data);
    io.Append([CR, LF]);
    SentParts(was, Hex(|data|), data);
  }

  lemma SentParts(was: seq<byte>, h: seq<byte>, data: seq<byte>)
    ensures was + (h + [CR, LF]) + Sent(data) + [CR, LF] == was + (h + [CR, LF] + Sent(data) + [CR, LF])
    ensures was + (h + [CR, LF] + Sent(data) + [CR, LF]) == was + (h + [CR, LF] + data + [CR, LF]) <==> |data| < INT_RANGE
  {
    var part, all := h + [CR, LF] + Sent(data) + [CR, LF], h + [CR, LF] + data + [CR, LF];
    if was + part == was + all { assert |part| == |all|; }
  }

  lemma HandleBy(s: State, deleting: bool, p: Parts)
    requires p == Collapse(s.raw) && !s.ended
    ensures |p.rest| == |s.raw| ==> Handle(s, deleting) == s && p == Parts([], s.raw, false)
    ensures |p.rest| < |s.raw| ==> Handle(s, deleting) == Shifted(s, p, deleting)
  {
  }

  /** The collapsed data extends the body that was there. */
  lemma BodyThere(c: seq<byte>, h: nat, b: nat, goal: Parts, d: seq<byte>, q: nat, p: nat)
    requires h <= b <= q <= p <= |d| == |c| && d[..q] == c[..b] + goal.data && d[p..] == goal.rest
    ensures d[h..q] == c[h..b] + goal.data && d[..h] == c[..h]
  {
    assert d[h..q] == d[..q][h..] && d[..h] == d[..q][..h];
  }

  lemma Untouched(c: seq<byte>, b: nat, goal: Parts, d: seq<byte>)
    requires b <= |d| == |c| && d[..b] == c[..b] + goal.data && d[b..] == goal.rest == c[b..]
    ensures d == c
  {
    assert goal.data == [] && d == d[..b] + d[b..] && c == c[..b] + c[b..];
  }

  lemma Slices(c: seq<byte>, h: nat, q: nat, p: nat)
    requires h <= q <= p <= |c|
    ensures var d := c[..q] + c[p..];
      d[..h] == c[..h] && d[h..q] == c[h..q] && d[q..] == c[p..]
  {
  }

  lemma Ended(s: seq<byte>)
    ensures s + [] == s
  {
  }

  lemma Slice(c: seq<byte>, from: nat, lo: nat, hi: nat)
    requires from <= |c| && lo <= hi <= |c| - from
    ensures c[from..][lo..hi] == c[from + lo..from + hi]
  {
  }

  lemma CollapseNone(s: seq<byte>)
    requires ParseChunk(s) == NoChunk
    ensures Collapse(s) == Parts([], s, false)
  {
  }

  lemma CollapseSome(s: seq<byte>, k: Chunk)
    requires ParseChunk(s) == k && k.Chunk?
    ensures Collapse(s) == if k.len == 0 then Parts([], s[k.total..], true) else Prefixed(s[k.at..k.at + k.len], Collapse(s[k.total..]))
  {
    hide ParseChunk, HexRun, HexNumber, LineEnd;
  }

  lemma TurnParts(raw: seq<byte>, k: Chunk, goal: Parts, got: seq<byte>)
    requires k == ParseChunk(raw) && Splits(goal, got, Collapse(raw))
    ensures k == NoChunk ==> goal == Parts(got, raw, false)
    ensures k.Chunk? ==> var more := got + raw[k.at..k.at + k.len];
      if k.len == 0 then goal == Parts(more, raw[k.total..], true) else Splits(goal, more, Collapse(raw[k.total..]))
  {
    if k == NoChunk {
      CollapseNone(raw);
      SplitEnd(goal, got, raw, false);
    } else {
      CollapseSome(raw, k);
      if k.len == 0 {
        Ended(got);
        SplitEnd(goal, got, raw[k.total..], true);
      } else {
        SplitMore(goal, got, raw[k.at..k.at + k.len], Collapse(raw[k.total..]));
      }
    }
  }

  lemma MovedData(a: seq<byte>, len: nat, q: nat, at: nat, n: nat)
    requires q <= at && at + n <= len <= |a|
    ensures var b := Moved(a, q, at, n)[..len]; var c := a[..len];
      b[..q + n] == c[..q] + c[at..at + n] && b[at + n..] == c[at + n..]
  {
    var m := Moved(a, q, at, n);
    var c := a[..len];
    assert c[..q] == a[..q] && c[at..at + n] == a[at..at + n];
    assert m[..q + n] == a[..q] + a[at..at + n];
    assert m[..len][..q + n] == m[..q + n];
    MovedAfter(a, len, q, at, n);
  }

  lemma MovedAfter(a: seq<byte>, len: nat, q: nat, at: nat, n: nat)
    requires q <= at && at + n <= len <= |a|
    ensures Moved(a, q, at, n)[..len][at + n..] == a[..len][at + n..]
  {
    var m := Moved(a, q, at, n);
    forall i | at + n <= i < len ensures m[i] == a[i] {
      assert m[i] == a[q + n..][i - (q + n)];
    }
  }

  lemma StillThere(before: seq<byte>, now: seq<byte>, x: nat, y: nat)
    requires |before| == |now| && x <= y <= |now| && now[x..] == before[x..]
    ensures now[y..] == before[y..]
  {
    assert now[x..][y - x..] == now[y..] && before[x..][y - x..] == before[y..];
  }
}
