/** The reader object over a whole stream, cut into any chunks. */
module RespEndToEnd {
  import opened RespGrammar
  import opened RespRoundTrip
  import opened RespMachine
  import opened RespStore
  import opened RespReader

  /** Feeds the chunks one by one, taking all replies after each; every one of them still stands at the end. */
  method ReadChunks(chunks: seq<string>) returns (objs: seq<Obj>, addresses: seq<int>, ghost rs: seq<Reply>, failed: bool)
    ensures Stream(rs, !failed) == ParseStream(Concat(chunks))
    ensures AllShown(objs, addresses, rs, |objs|)
  {
    var reader := new Reader();
    addresses, rs := [], [];
    ghost var start := Drained([], false, IDLE);
    ghost var goal := FeedAll(start, chunks);
    assert chunks[0..] == chunks;
    for i := 0 to |chunks|
      invariant reader.Valid() && fresh(reader) && fresh(reader.rstack)
      invariant reader.handed <= |reader.objs| && AllShown(reader.objs, addresses, rs, reader.handed)
      invariant goal == FeedAll(Drained(rs, reader.err, reader.Abs()), chunks[i..])
    {
      assert chunks[i..][0] == chunks[i] && chunks[i..][1..] == chunks[i + 1..];
      addresses, rs := FeedOne(reader, chunks[i], addresses, rs);
    }
    failed := reader.err;
    objs := reader.objs;
    StillShown(objs, objs, addresses, rs, reader.handed, |objs|);
    ReaderIsGrammar(chunks);
  }

  /** One chunk, and the replies it completes behind those taken before. */
  method FeedOne(reader: Reader, chunk: string, addresses: seq<int>, ghost rs: seq<Reply>)
      returns (addresses': seq<int>, ghost rs': seq<Reply>)
    requires reader.Valid() && AllShown(reader.objs, addresses, rs, reader.handed)
    modifies reader, reader.rstack
    ensures reader.Valid() && AllShown(reader.objs, addresses', rs', reader.handed)
    ensures Drained(rs', reader.err, reader.Abs()) == FeedDrain(old(Drained(rs, reader.err, reader.Abs())), chunk)
  {
    var ok := reader.Feed(chunk);
    if ok {
      addresses', rs' := TakeMore(reader, addresses, rs);
    } else {
      addresses', rs' := addresses, rs;
    }
  }

  method TakeMore(reader: Reader, addresses: seq<int>, ghost rs: seq<Reply>)
      returns (addresses': seq<int>, ghost rs': seq<Reply>)
    requires reader.Valid() && !reader.err && AllShown(reader.objs, addresses, rs, reader.handed)
    modifies reader, reader.rstack
    ensures reader.Valid() && AllShown(reader.objs, addresses', rs', reader.handed)
    ensures Drained(rs', reader.err, reader.Abs()) == Prepend(rs, Drain(old(reader.Abs())))
  {
    hide Spine, Shows, Drain, FramesOk, Reader.Reading, Reader.Between, Reader.Valid;
    ghost var was, low := reader.objs, reader.handed;
    var more;
    ghost var qs;
    more, qs := reader.TakeAll();
    StillShown(was, reader.objs, addresses, rs, low, reader.handed);
    addresses', rs' := addresses + more, rs + qs;
  }

  /**
   End to end: the replies a server sends, in whatever pieces they arrive, come out as those
   replies up to the first one that nests arrays more than 8 deep, and fail exactly there.
   */
  lemma ServerToClient(rs: seq<Reply>, chunks: seq<string>)
    requires forall i | 0 <= i < |rs| :: Sayable(rs[i])
    requires Concat(chunks) == EncodeAll(rs)
    ensures var d := FeedAll(Drained([], false, IDLE), chunks);
      && (d.failed <==> exists i | 0 <= i < |rs| :: Depth(rs[i]) > MAX_DEPTH)
      && (!d.failed ==> d.replies == rs)
      && d.replies == Readable(rs).replies
  {
    ReaderIsGrammar(chunks);
    StreamBack(rs);
    AllReadable(rs);
  }
}
