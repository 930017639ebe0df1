/**
 The reader as a machine: a stack of unfinished arrays, the type of the item being
 read, and the bytes not yet consumed.  One step consumes a type byte or one item's
 line and data; draining runs it until it is stuck or fails.
 */
module RespMachine {
  import opened RespGrammar

  /** An array in progress: the length announced and the items already read. */
  datatype Frame = Frame(elements: int, items: seq<Reply>)

  datatype Machine = Machine(frames: seq<Frame>, kind: Kind, input: string)

  datatype StepResult =
    | Stuck
    | Fault
    | Go(m: Machine)
    | Emit(reply: Reply, m: Machine)

  const IDLE: Machine := Machine([], Untyped, "")

  predicate FramesOk(frames: seq<Frame>) {
    |frames| <= MAX_DEPTH && forall i | 0 <= i < |frames| :: |frames[i].items| < frames[i].elements
  }

  /** Puts a finished item where it belongs, closing every array it completes. */
  function Complete(frames: seq<Frame>, r: Reply, rest: string): (o: StepResult)
    requires FramesOk(frames)
    ensures o.Go? ==> o.m.kind == Untyped && o.m.input == rest && FramesOk(o.m.frames) && |o.m.frames| <= |frames|
    ensures o.Emit? ==> o.m == Machine([], Untyped, rest)
    ensures o.Go? || o.Emit?
    decreases |frames|
  {
    if frames == [] then Emit(r, Machine([], Untyped, rest))
    else
      var last := |frames| - 1;
      var items := frames[last].items + [r];
      if |items| == frames[last].elements then Complete(frames[..last], Arr(frames[last].elements, items), rest)
      else Go(Machine(frames[..last] + [Frame(frames[last].elements, items)], Untyped, rest))
  }

  /** A scanned token: nothing yet, a finished item, or one more array on the stack. */
  function Take(frames: seq<Frame>, t: Token): (o: StepResult)
    requires FramesOk(frames) && (t.Opens? ==> t.n > 0 && |frames| < MAX_DEPTH)
    ensures o.Go? || o.Emit? ==> !t.Wait? && FramesOk(o.m.frames) && o.m.kind == Untyped && o.m.input == t.rest
  {
    match t
    case Wait => Stuck
    case Leaf(r, rest) => Complete(frames, r, rest)
    case Opens(n, rest) => Go(Machine(frames + [Frame(n, [])], Untyped, rest))
  }

  function Step(m: Machine): (o: StepResult)
    requires FramesOk(m.frames)
    ensures o.Go? || o.Emit? ==> FramesOk(o.m.frames) && |o.m.input| < |m.input|
  {
    var s := m.input;
    if m.kind == Untyped then
      if s == "" then Stuck
      else if KindOf(s[0]) == Untyped then Fault
      else Go(Machine(m.frames, KindOf(s[0]), s[1..]))
    else if m.kind == KArray && |m.frames| == MAX_DEPTH then Fault
    else Take(m.frames, ScanAt(m.kind, s))
  }

  /** Scan, where only a `*` opens an array. */
  function ScanAt(kind: Kind, s: string): (t: Token)
    ensures t == Scan(kind, s)
    ensures t.Opens? ==> kind == KArray
  {
    Scan(kind, s)
  }

  /** What a drain leaves behind: the replies, and the machine or None after an error. */
  datatype Drained = Drained(replies: seq<Reply>, failed: bool, m: Machine)

  function Drain(m: Machine): (d: Drained)
    requires FramesOk(m.frames)
    ensures FramesOk(d.m.frames)
    decreases |m.input|
  {
    match Step(m)
    case Stuck => Drained([], false, m)
    case Fault => Drained([], true, IDLE)
    case Go(m') => Drain(m')
    case Emit(r, m') => var d := Drain(m'); d.(replies := [r] + d.replies)
  }

  function Fed(m: Machine, more: string): Machine {
    m.(input := m.input + more)
  }

  /** Feeding a reader that is not in error, then taking every reply it has. */
  function FeedDrain(d: Drained, chunk: string): (d': Drained)
    requires FramesOk(d.m.frames)
    ensures FramesOk(d'.m.frames)
  {
    if d.failed then d
    else var e := Drain(Fed(d.m, chunk)); e.(replies := d.replies + e.replies)
  }

  function FeedAll(d: Drained, chunks: seq<string>): (d': Drained)
    requires FramesOk(d.m.frames)
    ensures FramesOk(d'.m.frames)
    decreases |chunks|
  {
    if chunks == [] then d else FeedAll(FeedDrain(d, chunks[0]), chunks[1..])
  }

  function Concat(chunks: seq<string>): string {
    if chunks == [] then "" else chunks[0] + Concat(chunks[1..])
  }

  // ---- more input never changes a step already possible

  lemma {:induction false} NewlineStable(s: string, z: string)
    requires Newline(s) < |s|
    ensures Newline(s + z) == Newline(s)
  {
    if !(s[0] == '\r' && s[1] == '\n') {
      assert (s + z)[1..] == s[1..] + z;
      NewlineStable(s[1..], z);
    }
  }

  lemma {:induction false} DigitsStable(s: string, z: string, v: nat)
    requires Newline(s) < |s|
    ensures Digits(s + z, v) == Digits(s, v)
  {
    assert (s + z)[0] == s[0];
    if s[0] != '\r' {
      assert (s + z)[1..] == s[1..] + z;
      if 0 <= DigitVal(s[0]) < 10 {
        DigitsStable(s[1..], z, 10 * v + DigitVal(s[0]));
      }
    }
  }

  lemma NewlineTail(s: string)
    requires Newline(s) < |s| && s[0] != '\r'
    ensures Newline(s[1..]) < |s[1..]|
  {
    assert Newline(s) == 1 + Newline(s[1..]);
  }

  lemma SignedStable(s: string, z: string)
    requires Newline(s) < |s| && s[0] != '\r'
    ensures Digits((s + z)[1..], 0) == Digits(s[1..], 0)
  {
    hide Newline, Digits;
    var t := s[1..];
    NewlineTail(s);
    DigitsStable(t, z, 0);
    LongerTail(s, z);
  }

  lemma LongerTail(s: string, z: string)
    requires s != ""
    ensures (s + z)[1..] == s[1..] + z
  {
  }

  lemma NumberStable(s: string, z: string)
    requires Newline(s) < |s|
    ensures Number(s + z) == Number(s)
  {
    if s[0] == '-' || s[0] == '+' {
      SignedStable(s, z);
    } else {
      DigitsStable(s, z, 0);
    }
  }

  function LaterToken(t: Token, z: string): Token {
    match t
    case Leaf(r, rest) => Leaf(r, rest + z)
    case Opens(n, rest) => Opens(n, rest + z)
    case Wait => Wait
  }

  lemma BulkStable(n: int, data: string, z: string)
    requires Bulk(n, data) != Wait
    ensures Bulk(n, data + z) == LaterToken(Bulk(n, data), z)
  {
    if n >= 0 {
      assert (data + z)[..n] == data[..n];
      assert (data + z)[n+2..] == data[n+2..] + z;
    }
  }

  lemma ScanStable(kind: Kind, s: string, z: string)
    requires Scan(kind, s) != Wait
    ensures Scan(kind, s + z) == LaterToken(Scan(kind, s), z)
  {
    var p := Newline(s);
    NewlineStable(s, z);
    NumberStable(s, z);
    assert (s + z)[..p] == s[..p];
    assert (s + z)[p+2..] == s[p+2..] + z;
    if kind == KString {
      BulkStable(Number(s), s[p+2..], z);
    }
  }

  function Later(o: StepResult, z: string): StepResult {
    match o
    case Go(m) => Go(Fed(m, z))
    case Emit(r, m) => Emit(r, Fed(m, z))
    case _ => o
  }

  lemma {:induction false} CompleteStable(frames: seq<Frame>, r: Reply, rest: string, z: string)
    requires FramesOk(frames)
    ensures Complete(frames, r, rest + z) == Later(Complete(frames, r, rest), z)
    decreases |frames|
  {
    if frames != [] {
      var last := |frames| - 1;
      CompleteStable(frames[..last], Arr(frames[last].elements, frames[last].items + [r]), rest, z);
    }
  }

  lemma StepStable(m: Machine, z: string)
    requires FramesOk(m.frames) && Step(m) != Stuck
    ensures Step(Fed(m, z)) == Later(Step(m), z)
  {
    var s := m.input;
    if m.kind == Untyped {
      assert (s + z)[0] == s[0] && (s + z)[1..] == s[1..] + z;
    } else if m.kind == KArray && |m.frames| == MAX_DEPTH {
    } else {
      var t := ScanAt(m.kind, s);
      ScanStable(m.kind, s, z);
      if t.Leaf? {
        CompleteStable(m.frames, t.reply, t.rest, z);
      }
    }
  }

  /** Draining, then feeding more and draining again, is draining the whole. */
  function Prepend(rs: seq<Reply>, d: Drained): Drained {
    d.(replies := rs + d.replies)
  }

  lemma FeedPrepend(rs: seq<Reply>, d: Drained, z: string)
    requires FramesOk(d.m.frames)
    ensures FeedDrain(Prepend(rs, d), z) == Prepend(rs, FeedDrain(d, z))
  {
    if !d.failed {
      var e := Drain(Fed(d.m, z));
      assert rs + (d.replies + e.replies) == (rs + d.replies) + e.replies;
    }
  }

  lemma DrainStep(m: Machine)
    requires FramesOk(m.frames)
    ensures var o := Step(m);
      && (o.Stuck? ==> Drain(m) == Drained([], false, m))
      && (o.Fault? ==> Drain(m) == Drained([], true, IDLE))
      && (o.Go? ==> Drain(m) == Drain(o.m))
      && (o.Emit? ==> Drain(m) == Prepend([o.reply], Drain(o.m)))
  {
  }

  lemma {:induction false} DrainSplit(m: Machine, z: string)
    requires FramesOk(m.frames)
    ensures Drain(Fed(m, z)) == FeedDrain(Drain(m), z)
    decreases |m.input|
  {
    var o := Step(m);
    DrainStep(m);
    if o == Stuck {
      var d := Drain(Fed(m, z));
      assert [] + d.replies == d.replies;
    } else {
      StepStable(m, z);
      DrainStep(Fed(m, z));
      if o.Go? {
        DrainSplit(o.m, z);
      } else if o.Emit? {
        DrainSplit(o.m, z);
        FeedPrepend([o.reply], Drain(o.m), z);
      }
    }
  }

  /**
   Chunking does not matter: however the bytes are cut into feeds, with the replies
   taken between feeds, the replies, the error status and the state left behind are
   those of feeding everything at once.
   */
  lemma {:induction false} ChunkingInvisible(d: Drained, chunks: seq<string>)
    requires FramesOk(d.m.frames)
    requires !d.failed ==> Step(d.m) == Stuck
    ensures FeedAll(d, chunks) == FeedDrain(d, Concat(chunks))
    decreases |chunks|
  {
    if chunks == [] {
      if !d.failed {
        assert Fed(d.m, "") == d.m;
        assert d.replies + [] == d.replies;
      }
    } else {
      var d1 := FeedDrain(d, chunks[0]);
      if !d.failed { DrainStuck(Fed(d.m, chunks[0])); }
      ChunkingInvisible(d1, chunks[1..]);
      TwoFeeds(d, chunks[0], Concat(chunks[1..]));
    }
  }

  lemma TwoFeeds(d: Drained, a: string, b: string)
    requires FramesOk(d.m.frames)
    ensures FeedDrain(FeedDrain(d, a), b) == FeedDrain(d, a + b)
  {
    if !d.failed {
      DrainSplit(Fed(d.m, a), b);
      assert Fed(Fed(d.m, a), b) == Fed(d.m, a + b) by {
        assert (d.m.input + a) + b == d.m.input + (a + b);
      }
      FeedPrepend(d.replies, Drain(Fed(d.m, a)), b);
    }
  }

  lemma {:induction false} DrainStuck(m: Machine)
    requires FramesOk(m.frames)
    ensures !Drain(m).failed ==> Step(Drain(m).m) == Stuck
    decreases |m.input|
  {
    match Step(m)
    case Go(m') => DrainStuck(m');
    case Emit(_, m') => DrainStuck(m');
    case _ =>
  }

  // ---- the machine computes what the grammar says

  /** Draining after a finished item. */
  function After(frames: seq<Frame>, r: Reply, rest: string): Drained
    requires FramesOk(frames)
  {
    match Complete(frames, r, rest)
    case Go(m) => Drain(m)
    case Emit(q, m) => var d := Drain(m); d.(replies := [q] + d.replies)
  }

  ghost predicate Waits(d: Drained) {
    d.replies == [] && !d.failed
  }

  /** From the start of an item, inside the arrays on the stack, the machine follows ParseItem. */
  lemma {:induction false} ItemRun(frames: seq<Frame>, s: string)
    requires FramesOk(frames)
    ensures var d := Drain(Machine(frames, Untyped, s));
      match ParseItem(s, |frames|)
      case Item(r, rest) => d == After(frames, r, rest)
      case More => Waits(d)
      case Bad => d == Drained([], true, IDLE)
    decreases |s|, 0
  {
    if s != "" && KindOf(s[0]) != Untyped {
      var m := Machine(frames, KindOf(s[0]), s[1..]);
      assert Step(Machine(frames, Untyped, s)) == Go(m);
      assert m.kind == KArray <==> s[0] == '*';
      if !(m.kind == KArray && |frames| == MAX_DEPTH) {
        var t := ScanAt(m.kind, m.input);
        if t.Opens? {
          assert Step(m) == Go(Machine(frames + [Frame(t.n, [])], Untyped, t.rest));
          ItemsRun(frames, t.n, [], t.rest);
          var os := ParseItems(t.rest, t.n, |frames| + 1);
          if os.Items? { assert [] + os.replies == os.replies; }
        }
      }
    }
  }

  /** The machine's answer to "the next k items, then close an array of n with them after `items`". */
  ghost predicate Follows(d: Drained, o: ListOutcome, frames: seq<Frame>, n: int, items: seq<Reply>)
    requires FramesOk(frames)
  {
    match o
    case Items(rs, after) => d == After(frames, Arr(n, items + rs), after)
    case MoreItems => Waits(d)
    case BadItems => d == Drained([], true, IDLE)
  }

  lemma FollowsCons(d: Drained, o: ListOutcome, frames: seq<Frame>, n: int, items: seq<Reply>, r: Reply)
    requires FramesOk(frames) && Follows(d, o, frames, n, items + [r])
    ensures Follows(d, Cons(r, o), frames, n, items)
  {
    if o.Items? {
      assert items + ([r] + o.replies) == (items + [r]) + o.replies;
    }
  }

  lemma {:induction false} ItemsRun(frames: seq<Frame>, n: int, items: seq<Reply>, s: string)
    requires |items| < n && FramesOk(frames + [Frame(n, items)]) && FramesOk(frames)
    ensures Follows(Drain(Machine(frames + [Frame(n, items)], Untyped, s)), ParseItems(s, n - |items|, |frames| + 1), frames, n, items)
    decreases |s|, 1, n - |items|
  {
    var all, k, depth := frames + [Frame(n, items)], n - |items|, |frames| + 1;
    assert |all| == depth;
    ItemRun(all, s);
    ItemsCons(s, k, depth);
    var o := ParseItem(s, depth);
    var d := Drain(Machine(all, Untyped, s));
    var goal := ParseItems(s, k, depth);
    match o
    case More => assert goal == MoreItems && Waits(d);
    case Bad => assert goal == BadItems && d == Drained([], true, IDLE);
    case Item(r, rest) =>
      AfterPush(frames, n, items, r, rest);
      ItemsRest(frames, n, items, r, rest, d);
      assert goal == Cons(r, ParseItems(rest, k - 1, depth));
  }

  /** The items after one that is done. */
  lemma {:induction false} ItemsRest(frames: seq<Frame>, n: int, items: seq<Reply>, r: Reply, rest: string, d: Drained)
    requires |items| < n && FramesOk(frames + [Frame(n, items)]) && FramesOk(frames)
    requires d == if |items| + 1 == n then After(frames, Arr(n, items + [r]), rest)
                  else Drain(Machine(frames + [Frame(n, items + [r])], Untyped, rest))
    ensures Follows(d, Cons(r, ParseItems(rest, n - |items| - 1, |frames| + 1)), frames, n, items)
    decreases |rest|, 2, n - |items| - 1
  {
    hide Drain, Complete, ParseItem;
    var more := items + [r];
    if |more| < n {
      assert FramesOk(frames + [Frame(n, more)]);
      ItemsRun(frames, n, more, rest);
    } else {
      FollowsNone(d, frames, n, more, rest);
    }
    FollowsCons(d, ParseItems(rest, n - |more|, |frames| + 1), frames, n, items, r);
  }

  lemma FollowsNone(d: Drained, frames: seq<Frame>, n: int, items: seq<Reply>, rest: string)
    requires FramesOk(frames) && d == After(frames, Arr(n, items), rest)
    ensures Follows(d, Items([], rest), frames, n, items)
  {
    assert items + [] == items;
  }

  /** One more item for the array on top: either it is now complete, or the reader goes on with the next one. */
  lemma AfterPush(frames: seq<Frame>, n: int, items: seq<Reply>, r: Reply, rest: string)
    requires |items| < n && FramesOk(frames + [Frame(n, items)]) && FramesOk(frames)
    ensures After(frames + [Frame(n, items)], r, rest)
         == if |items| + 1 == n then After(frames, Arr(n, items + [r]), rest)
            else Drain(Machine(frames + [Frame(n, items + [r])], Untyped, rest))
  {
    assert (frames + [Frame(n, items)])[..|frames|] == frames;
  }

  /** A reader fed a whole stream emits the replies of the grammar and fails exactly where the grammar does. */
  lemma {:induction false} DrainIsParse(s: string)
    ensures var d := Drain(Machine([], Untyped, s)); Stream(d.replies, !d.failed) == ParseStream(s)
    decreases |s|
  {
    ItemRun([], s);
    match ParseItem(s, 0)
    case Item(r, rest) => DrainIsParse(rest);
    case _ =>
  }

  /** The whole reader: any bytes, cut anywhere, against the recursive-descent grammar. */
  lemma ReaderIsGrammar(chunks: seq<string>)
    ensures var d := FeedAll(Drained([], false, IDLE), chunks);
      Stream(d.replies, !d.failed) == ParseStream(Concat(chunks))
  {
    ChunkingInvisible(Drained([], false, IDLE), chunks);
    DrainIsParse(Concat(chunks));
    assert Fed(IDLE, Concat(chunks)) == Machine([], Untyped, Concat(chunks));
    var d := Drain(Machine([], Untyped, Concat(chunks)));
    assert [] + d.replies == d.replies;
  }
}
