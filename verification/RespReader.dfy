/**
 The reader object: a buffer with a cursor, a stack of nine tasks, and reply
 objects filled in place.  Its methods are proved to take the machine's steps.
 */
module RespReader {
  import opened RespGrammar
  import opened RespMachine
  import opened RespStore

  datatype Task = Task(kind: Kind, elements: int, idx: int, obj: int)

  const STACK_SLOTS: nat := 9
  const MAX_BUF: nat := 16384
  const COMPACT: nat := 1024
  const PREALLOC: nat := 1048576

  // ---- the spine of unfinished arrays

  /**
   Task t is the array of frame f, filled up to slot k; slot k holds `cur`, the later ones are
   NULL, and the items already there lie between the array and `hi`.
   */
  ghost predicate ArrayOk(objs: seq<Obj>, t: Task, k: int, f: Frame, cur: int, hi: int) {
    && 0 <= t.obj < hi <= |objs|
    && t.kind == KArray && t.elements == f.elements
    && objs[t.obj].Array? && objs[t.obj].elements == f.elements
    && var slots := objs[t.obj].slots;
       && |slots| == f.elements && k == |f.items| < f.elements
       && (forall j | 0 <= j < k :: Shows(objs, slots[j], f.items[j], t.obj + 1, hi))
       && slots[k] == cur
       && (forall j | k < j < f.elements :: slots[j] == NULL)
  }

  /** The tasks ts stand for the unfinished arrays `frames`, each hung into the one below it. */
  ghost predicate Spine(objs: seq<Obj>, ts: seq<Task>, frames: seq<Frame>, cur: int, hi: int)
    decreases |frames|
  {
    && |ts| == |frames| + 1
    && 0 <= hi <= |objs|
    && (frames == [] ||
        (var t := ts[|ts| - 2];
         && ArrayOk(objs, t, ts[|ts| - 1].idx, frames[|frames| - 1], cur, hi)
         && Spine(objs, ts[..|ts| - 1], frames[..|frames| - 1], t.obj, t.obj)))
  }

  /** Where the subtree of the current item may start: just above the array it goes into. */
  function Floor(ts: seq<Task>): int
    requires ts != []
  {
    if |ts| == 1 then 0 else ts[|ts| - 2].obj + 1
  }

  lemma ArrayFrame(objs: seq<Obj>, objs': seq<Obj>, t: Task, k: int, f: Frame, cur: int, hi: int, hi': int)
    requires ArrayOk(objs, t, k, f, cur, hi)
    requires hi <= hi' <= |objs'| && forall i | 0 <= i < hi && i != t.obj :: objs'[i] == objs[i]
    requires objs'[t.obj].Array? && objs'[t.obj].elements == f.elements && |objs'[t.obj].slots| == f.elements
    requires objs'[t.obj].slots == objs[t.obj].slots[k := objs'[t.obj].slots[k]]
    ensures ArrayOk(objs', t, k, f, objs'[t.obj].slots[k], hi')
  {
    forall j | 0 <= j < k
      ensures Shows(objs', objs[t.obj].slots[j], f.items[j], t.obj + 1, hi')
    {
      ShowsFrame(objs, objs', objs[t.obj].slots[j], f.items[j], t.obj + 1, hi, t.obj + 1, hi');
    }
  }

  /** What happens above the spine does not concern it. */
  lemma {:induction false} SpineFrame(objs: seq<Obj>, objs': seq<Obj>, ts: seq<Task>, frames: seq<Frame>, cur: int, hi: int, hi': int)
    requires Spine(objs, ts, frames, cur, hi)
    requires hi <= hi' <= |objs'| && forall i | 0 <= i < hi :: objs'[i] == objs[i]
    ensures Spine(objs', ts, frames, cur, hi')
    decreases |frames|
  {
    if frames != [] {
      var t := ts[|ts| - 2];
      ArrayFrame(objs, objs', t, ts[|ts| - 1].idx, frames[|frames| - 1], cur, hi, hi');
      SpineFrame(objs, objs', ts[..|ts| - 1], frames[..|frames| - 1], t.obj, t.obj, t.obj);
    }
  }

  /** The store after a new object has been allocated and hung into its parent's slot. */
  function Attached(objs: seq<Obj>, ts: seq<Task>, obj: Obj): seq<Obj>
    requires ts != []
  {
    var all := objs + [obj];
    if |ts| == 1 then all
    else
      var o := ts[|ts| - 2].obj;
      var k := ts[|ts| - 1].idx;
      if 0 <= o < |objs| && objs[o].Array? && 0 <= k < |objs[o].slots|
      then all[o := Array(objs[o].elements, objs[o].slots[k := |objs|])]
      else all
  }

  /** Hanging a new object in keeps the spine and makes the object the current item. */
  lemma Attach(objs: seq<Obj>, ts: seq<Task>, frames: seq<Frame>, obj: Obj, hi: int)
    requires Spine(objs, ts, frames, NULL, |objs|) && |objs| <= hi <= |objs| + 1
    ensures Spine(Attached(objs, ts, obj), ts, frames, |objs|, hi)
    ensures Attached(objs, ts, obj)[|objs|] == obj && |Attached(objs, ts, obj)| == |objs| + 1
    ensures 0 <= Floor(ts) <= |objs|
  {
    var objs' := Attached(objs, ts, obj);
    if frames != [] {
      var t := ts[|ts| - 2];
      ArrayFrame(objs, objs', t, ts[|ts| - 1].idx, frames[|frames| - 1], NULL, |objs|, hi);
      SpineFrame(objs, objs', ts[..|ts| - 1], frames[..|frames| - 1], t.obj, t.obj, t.obj);
    }
  }

  /** The outermost array lies lowest. */
  lemma {:induction false} SpineAbove(objs: seq<Obj>, ts: seq<Task>, frames: seq<Frame>, cur: int, hi: int)
    requires Spine(objs, ts, frames, cur, hi) && frames != []
    ensures 0 <= ts[0].obj <= ts[|ts| - 2].obj < hi
    decreases |frames|
  {
    if |frames| > 1 {
      var t := ts[|ts| - 2];
      SpineAbove(objs, ts[..|ts| - 1], frames[..|frames| - 1], t.obj, t.obj);
    }
  }

  /** The objects at these addresses, with everything below them, lie below `hi` and are these replies. */
  ghost predicate AllShown(objs: seq<Obj>, addresses: seq<int>, rs: seq<Reply>, hi: int) {
    |addresses| == |rs| && forall i | 0 <= i < |rs| :: Shows(objs, addresses[i], rs[i], 0, hi)
  }

  lemma StillShown(objs: seq<Obj>, objs': seq<Obj>, addresses: seq<int>, rs: seq<Reply>, low: nat, hi: nat)
    requires AllShown(objs, addresses, rs, low)
    requires low <= |objs| && low <= hi <= |objs'| && objs'[..low] == objs[..low]
    ensures AllShown(objs', addresses, rs, hi)
  {
    forall i | 0 <= i < |rs| ensures Shows(objs', addresses[i], rs[i], 0, hi) {
      forall j | 0 <= j < low ensures objs'[j] == objs[j] {
        assert objs'[..low][j] == objs[..low][j];
      }
      ShowsFrame(objs, objs', addresses[i], rs[i], 0, low, 0, hi);
    }
  }

  lemma StillSafe(a: seq<Obj>, b: seq<Obj>, c: seq<Obj>, low: nat, mid: nat)
    requires low <= |a| && low <= mid <= |b| && mid <= |c| && b[..low] == a[..low] && c[..mid] == b[..mid]
    ensures c[..low] == a[..low]
  {
    assert c[..mid][..low] == c[..low] && b[..mid][..low] == b[..low];
  }

  lemma ShownMore(objs: seq<Obj>, addresses: seq<int>, rs: seq<Reply>, a: int, r: seq<Reply>, hi: int)
    requires AllShown(objs, addresses, rs, hi) && |r| == 1 && Shows(objs, a, r[0], 0, hi)
    ensures AllShown(objs, addresses + [a], rs + r, hi)
  {
  }

  /** The tasks after array a of n items has been opened at the current one. */
  function PushedTasks(ts: seq<Task>, n: int, a: int): seq<Task>
    requires ts != []
  {
    ts[..|ts| - 1] + [ts[|ts| - 1].(kind := KArray, elements := n, obj := a), Task(Untyped, -1, 0, NULL)]
  }

  /** A new array object, once hung in, becomes the top of the spine. */
  lemma Open(objs: seq<Obj>, ts: seq<Task>, frames: seq<Frame>, n: int)
    requires Spine(objs, ts, frames, NULL, |objs|) && n > 0
    ensures var objs' := Attached(objs, ts, Array(n, seq(n, _ => NULL)));
      Spine(objs', PushedTasks(ts, n, |objs|), frames + [Frame(n, [])], NULL, |objs'|)
  {
    var objs' := Attached(objs, ts, Array(n, seq(n, _ => NULL)));
    var ts' := PushedTasks(ts, n, |objs|);
    Attach(objs, ts, frames, Array(n, seq(n, _ => NULL)), |objs|);
    var below := ts'[..|ts|];
    assert (frames + [Frame(n, [])])[..|frames|] == frames;
    assert Spine(objs', below, frames, |objs|, |objs|) by {
      assert below[..|ts| - 1] == ts[..|ts| - 1];
    }
  }

  /** The tasks after the current one has moved to the next slot of its array. */
  function Advanced(ts: seq<Task>): seq<Task>
    requires ts != []
  {
    var cur := ts[|ts| - 1];
    ts[..|ts| - 1] + [Task(Untyped, -1, cur.idx + 1, cur.obj)]
  }

  lemma ArrayNext(objs: seq<Obj>, t: Task, k: int, f: Frame, a: int, hi: int, r: Reply)
    requires ArrayOk(objs, t, k, f, a, hi) && Shows(objs, a, r, t.obj + 1, hi) && k != t.elements - 1
    ensures ArrayOk(objs, t, k + 1, Frame(f.elements, f.items + [r]), NULL, hi)
  {
    var items := f.items + [r];
    var slots := objs[t.obj].slots;
    forall j | 0 <= j < k + 1 ensures Shows(objs, slots[j], items[j], t.obj + 1, hi) {
      if j < k { assert items[j] == f.items[j]; }
    }
  }

  /** The top array takes the finished item at a, and there are more to come. */
  lemma NextItem(objs: seq<Obj>, ts: seq<Task>, frames: seq<Frame>, a: int, r: Reply)
    requires Spine(objs, ts, frames, a, |objs|) && frames != []
    requires Shows(objs, a, r, Floor(ts), |objs|)
    requires ts[|ts| - 1].idx != ts[|ts| - 2].elements - 1
    ensures var last := |frames| - 1; var f := frames[last];
      && |f.items| + 1 < f.elements
      && Spine(objs, Advanced(ts), frames[..last] + [Frame(f.elements, f.items + [r])], NULL, |objs|)
  {
    var last := |frames| - 1;
    var f := frames[last];
    ArrayNext(objs, ts[|ts| - 2], ts[|ts| - 1].idx, f, a, |objs|, r);
    var ts' := Advanced(ts);
    assert ts'[|ts| - 2] == ts[|ts| - 2] && ts'[..|ts| - 1] == ts[..|ts| - 1];
    assert (frames[..last] + [Frame(f.elements, f.items + [r])])[..last] == frames[..last];
  }

  /** The top array is complete: it is itself the finished item of the array below. */
  lemma CloseTop(objs: seq<Obj>, ts: seq<Task>, frames: seq<Frame>, a: int, r: Reply)
    requires Spine(objs, ts, frames, a, |objs|) && frames != []
    requires Shows(objs, a, r, Floor(ts), |objs|)
    requires ts[|ts| - 1].idx == ts[|ts| - 2].elements - 1
    ensures var last := |frames| - 1; var f := frames[last]; var o := ts[last].obj; var ts' := ts[..|ts| - 1];
      && |f.items| + 1 == f.elements
      && Spine(objs, ts', frames[..last], o, |objs|)
      && Shows(objs, o, Arr(f.elements, f.items + [r]), Floor(ts'), |objs|)
  {
    var last := |frames| - 1;
    var f := frames[last];
    var o := ts[last].obj;
    var ts' := ts[..|ts| - 1];
    SpineFrame(objs, objs, ts', frames[..last], o, o, |objs|);
    assert 0 <= Floor(ts') <= o by {
      if last > 0 { assert ArrayOk(objs, ts'[|ts'| - 2], ts'[|ts'| - 1].idx, frames[last - 1], o, o); }
    }
    forall j | 0 <= j < f.elements
      ensures Shows(objs, objs[o].slots[j], (f.items + [r])[j], o + 1, |objs|)
    {
    }
  }

  lemma FramesFit(objs: seq<Obj>, ts: seq<Task>, frames: seq<Frame>, cur: int, hi: int)
    requires Spine(objs, ts, frames, cur, hi)
    ensures |ts| == |frames| + 1 && (frames != [] ==> ts[|ts| - 2].kind == KArray)
  {
  }

  // ---- what one call of processItem and one call of redisReaderGetReply do to the machine

  /** Reads a type byte if none is pending, then the item. */
  function ItemStep(m: Machine): (o: StepResult)
    requires FramesOk(m.frames)
    ensures o.Go? || o.Emit? ==> FramesOk(o.m.frames)
  {
    match Step(m)
    case Go(m1) => if m.kind == Untyped then Step(m1) else Step(m)
    case _ => Step(m)
  }

  /** The machine an ItemStep that got stuck leaves: the type byte, if there was one, is gone. */
  function Typed(m: Machine): (m': Machine)
    requires FramesOk(m.frames)
    ensures FramesOk(m'.frames)
  {
    if m.kind == Untyped && Step(m).Go? then Step(m).m else m
  }

  datatype Answer = Answer(reply: seq<Reply>, failed: bool, m: Machine)

  /** Runs to the next reply, or until stuck or failed. */
  function NextReply(m: Machine): (a: Answer)
    requires FramesOk(m.frames)
    ensures FramesOk(a.m.frames) && |a.m.input| <= |m.input| && |a.reply| <= 1
    ensures a.reply != [] ==> |a.m.input| < |m.input| && !a.failed
    decreases |m.input|
  {
    match Step(m)
    case Stuck => Answer([], false, m)
    case Fault => Answer([], true, IDLE)
    case Go(m') => NextReply(m')
    case Emit(r, m') => Answer([r], false, m')
  }

  lemma {:induction false} DrainByReplies(m: Machine)
    requires FramesOk(m.frames)
    ensures var a := NextReply(m);
      Drain(m) == if a.reply == [] then Drained([], a.failed, a.m) else Prepend(a.reply, Drain(a.m))
    decreases |m.input|
  {
    match Step(m)
    case Go(m') => DrainByReplies(m');
    case _ =>
  }

  class Reader {
    var err: bool
    var buf: string
    var pos: nat
    var len: nat
    var avail: nat
    var maxbuf: nat
    const rstack: array<Task>
    var ridx: int
    var reply: int
    var objs: seq<Obj>
    ghost var frames: seq<Frame>
    ghost var handed: nat         // objects below this belong to replies already handed out

    ghost predicate BufferOk()
      reads `buf, `pos, `len
    {
      pos <= len == |buf|
    }

    ghost function Tasks(): seq<Task>
      reads `ridx, rstack
      requires rstack.Length == STACK_SLOTS && -1 <= ridx < STACK_SLOTS
    {
      rstack[..ridx + 1]
    }

    /** Inside a reply: the stack holds a spine whose current item is not there yet. */
    ghost predicate Reading()
      reads this, rstack
    {
      && BufferOk() && rstack.Length == STACK_SLOTS && 0 <= ridx < STACK_SLOTS && !err
      && FramesOk(frames)
      && Spine(objs, Tasks(), frames, NULL, |objs|)
      && reply == (if ridx == 0 then NULL else rstack[0].obj)
      && Own()
    }

    /** The reply under construction lies above everything handed out. */
    ghost predicate Own()
      reads `objs, `handed, `ridx, rstack
    {
      handed <= |objs| && (ridx > 0 && rstack.Length > 0 ==> handed <= rstack[0].obj)
    }

    /** Objects were added to `was`, and none of those handed out was touched. */
    ghost predicate Spared(was: seq<Obj>)
      reads `objs, `handed
    {
      handed <= |was| <= |objs| && objs[..handed] == was[..handed]
    }

    /** Between two replies. */
    ghost predicate Between()
      reads this, rstack
    {
      && BufferOk() && rstack.Length == STACK_SLOTS && ridx == -1
      && frames == [] && reply == NULL && handed <= |objs|
      && (err ==> buf == "")
    }

    ghost predicate Valid()
      reads this, rstack
    {
      Between() || (Reading() && !(ridx == MAX_DEPTH && rstack[ridx].kind == KArray))
    }

    /** The machine this reader is. */
    ghost function Abs(): Machine
      reads this, rstack
      requires BufferOk() && rstack.Length == STACK_SLOTS && -1 <= ridx < STACK_SLOTS
    {
      Machine(frames, if ridx < 0 then Untyped else rstack[ridx].kind, buf[pos..])
    }

    constructor ()
      ensures Valid() && !err && Abs() == IDLE && fresh(rstack) && handed == 0
    {
      err, buf, pos, len, avail, maxbuf := false, "", 0, 0, 0, MAX_BUF;
      rstack := new Task[STACK_SLOTS](_ => Task(Untyped, -1, -1, NULL));
      ridx, reply, objs := -1, NULL, [];
      frames, handed := [], 0;
    }

    /** __redisReaderSetError */
    method SetError()
      requires BufferOk() && rstack.Length == STACK_SLOTS && handed <= |objs|
      modifies this
      ensures Between() && err && Abs() == IDLE
      ensures maxbuf == old(maxbuf) && handed == old(handed) && objs == old(objs)
    {
      reply := NULL;
      buf, pos, len := "", 0, 0;
      ridx := -1;
      err := true;
      frames := [];
    }

    /** seekNewline: the first CR LF at or after `from`, or |s|. */
    static method SeekNewline(s: string) returns (p: nat)
      ensures p == Newline(s)
    {
      p := 0;
      while p + 1 < |s|
        invariant p <= |s|
        invariant Newline(s) == p + Newline(s[p..])
        decreases |s| - p
      {
        while p + 1 < |s| && s[p] != '\r'
          invariant p <= |s|
          invariant Newline(s) == p + Newline(s[p..])
          decreases |s| - p
        {
          NewlineSkip(s, p);
          p := p + 1;
        }
        if p + 1 >= |s| { break; }
        if s[p + 1] == '\n' {
          NewlineHere(s, p);
          return p;
        }
        NewlineSkip(s, p);
        p := p + 1;
      }
      assert Newline(s[p..]) == |s[p..]|;
      p := |s|;
    }

    /** readLongLong, on a text that holds a CR. */
    static method ReadLongLong(s: string) returns (n: int)
      requires Newline(s) < |s|
      ensures n == Number(s)
    {
      var mult, i := 1, 0;
      if s[0] == '-' {
        mult, i := -1, 1;
      } else if s[0] == '+' {
        i := 1;
      }
      if i == 1 { NewlineTail(s); }
      assert s[0..] == s;
      var v := ReadDigits(s, i);
      n := if v == -1 then -1 else mult * v;
    }

    /** The loop of readLongLong: the number up to the CR, or -1 for anything else. */
    static method ReadDigits(s: string, start: nat) returns (r: int)
      requires start <= |s| && Newline(s[start..]) < |s[start..]|
      ensures r == Digits(s[start..], 0)
    {
      hide Digits, Newline;
      var v: nat, i := 0, start;
      HasLine(s, start);
      while s[i] != '\r'
        invariant start <= i < |s| && Newline(s[i..]) < |s[i..]|
        invariant Digits(s[start..], 0) == Digits(s[i..], v)
        decreases |s| - i
      {
        var dec := DigitVal(s[i]);
        DigitNext(s, i, v, 10 * v + dec);
        if !(0 <= dec < 10) { return -1; }
        NewlineTail(s[i..]);
        v, i := 10 * v + dec, i + 1;
        HasLine(s, i);
      }
      DigitsEnd(s, i, v);
      r := v;
    }

    /** createStringObject and its siblings: allocate, and fill the parent's slot. */
    method Create(obj: Obj) returns (a: int)
      requires Reading()
      modifies this`objs
      ensures a == |old(objs)| && objs == Attached(old(objs), Tasks(), obj)
      ensures Spared(old(objs)) && Own()
    {
      a := |objs|;
      if ridx == 0 {
        objs := objs + [obj];
      } else {
        assert Tasks()[ridx - 1] == rstack[ridx - 1];
        SpineAbove(objs, Tasks(), frames, NULL, |objs|);
        var parent := rstack[ridx - 1].obj;
        var slots := objs[parent].slots[rstack[ridx].idx := a];
        objs := (objs + [obj])[parent := Array(objs[parent].elements, slots)];
      }
    }

    /** The next element of the same array becomes the current task. */
    method NextIndex(ghost at: int, ghost item: Reply)
      requires rstack.Length == STACK_SLOTS && 0 < ridx < STACK_SLOTS
      requires Spine(objs, Tasks(), frames, at, |objs|) && Shows(objs, at, item, Floor(Tasks()), |objs|)
      requires rstack[ridx].idx != rstack[ridx - 1].elements - 1
      modifies this`frames, rstack
      ensures Spine(objs, Tasks(), frames, NULL, |objs|)
      ensures var f := old(frames)[ridx - 1];
        |f.items| + 1 != f.elements && frames == old(frames)[..ridx - 1] + [Frame(f.elements, f.items + [item])]
      ensures rstack[ridx].kind == Untyped && rstack[0].obj == old(rstack[0].obj)
    {
      ghost var ts := Tasks();
      var cur := rstack[ridx];
      assert rstack[ridx - 1].kind == KArray && cur.idx < rstack[ridx - 1].elements by {
        assert ts[ridx - 1] == rstack[ridx - 1] && ts[ridx] == cur;
      }
      NextItem(objs, ts, frames, at, item);
      ghost var f := frames[ridx - 1];
      rstack[ridx] := Task(Untyped, -1, cur.idx + 1, cur.obj);
      frames := frames[..ridx - 1] + [Frame(f.elements, f.items + [item])];
      assert Tasks() == Advanced(ts);
    }

    /** The popping half of moveToNextTask: closes every array that object a completes. */
    method CloseArrays(ghost a: int, ghost r: Reply, ghost rest: string, ghost o: StepResult)
      returns (ghost at: int, ghost item: Reply)
      requires rstack.Length == STACK_SLOTS && 0 <= ridx < STACK_SLOTS && FramesOk(frames)
      requires Spine(objs, Tasks(), frames, a, |objs|) && Shows(objs, a, r, Floor(Tasks()), |objs|)
      requires o == Complete(frames, r, rest)
      modifies `ridx, `frames
      ensures 0 <= ridx <= old(ridx) && FramesOk(frames)
      ensures Spine(objs, Tasks(), frames, at, |objs|) && Shows(objs, at, item, Floor(Tasks()), |objs|)
      ensures o == Complete(frames, item, rest)
      ensures at == (if ridx == old(ridx) then a else rstack[ridx].obj)
      ensures ridx > 0 ==> rstack[ridx].idx != rstack[ridx - 1].elements - 1
    {
      hide Spine, Shows, Complete, FramesOk;
      item, at := r, a;
      while ridx > 0 && rstack[ridx].idx == rstack[ridx - 1].elements - 1
        invariant 0 <= ridx <= old(ridx) && FramesOk(frames)
        invariant Spine(objs, Tasks(), frames, at, |objs|) && Shows(objs, at, item, Floor(Tasks()), |objs|)
        invariant o == Complete(frames, item, rest)
        invariant at == (if ridx == old(ridx) then a else rstack[ridx].obj)
      {
        item := PopTask(at, item, rest, o);
        at := rstack[ridx].obj;
      }
    }

    /** The array on top is complete; it becomes the finished item of the one below. */
    method PopTask(ghost at: int, ghost r: Reply, ghost rest: string, ghost o: StepResult) returns (ghost item: Reply)
      requires rstack.Length == STACK_SLOTS && 0 < ridx < STACK_SLOTS && FramesOk(frames)
      requires o == Complete(frames, r, rest)
      requires Spine(objs, Tasks(), frames, at, |objs|) && Shows(objs, at, r, Floor(Tasks()), |objs|)
      requires rstack[ridx].idx == rstack[ridx - 1].elements - 1
      modifies `ridx, `frames
      ensures ridx == old(ridx) - 1 && frames == old(frames)[..ridx]
      ensures Spine(objs, Tasks(), frames, rstack[ridx].obj, |objs|)
      ensures Shows(objs, rstack[ridx].obj, item, Floor(Tasks()), |objs|)
      ensures FramesOk(frames) && o == Complete(frames, item, rest)
    {
      hide Spine, Shows, Complete, FramesOk;
      ghost var ts := Tasks();
      assert ts[ridx - 1] == rstack[ridx - 1] && ts[ridx] == rstack[ridx];
      FramesFit(objs, ts, frames, at, |objs|);
      assert rstack[ridx - 1].kind == KArray;
      CloseTop(objs, ts, frames, at, r);
      CompleteClose(frames, r, rest);
      ghost var f := frames[ridx - 1];
      item := Arr(f.elements, f.items + [r]);
      frames := frames[..ridx - 1];
      ridx := ridx - 1;
      assert Tasks() == ts[..|ts| - 1];
    }

    /** A whole reply stands in `reply`, every slot of it filled, and no task is left. */
    ghost predicate Done(r: Reply)
      reads this, rstack
    {
      && BufferOk() && rstack.Length == STACK_SLOTS && ridx == -1 && frames == [] && !err
      && Shows(objs, reply, r, 0, |objs|) && handed <= |objs|
    }

    /** Where a step of the machine leaves the reader. */
    ghost predicate After(o: StepResult, ok: bool)
      reads this, rstack
    {
      && (o.Go? ==> ok && Reading() && Abs() == o.m)
      && (o.Emit? ==> ok && Done(o.reply) && Abs() == o.m)
    }

    /** moveToNextTask, once object a with reply r stands in the current task's place. */
    method MoveToNextTask(ghost a: int, ghost r: Reply, ghost o: StepResult)
      requires BufferOk() && rstack.Length == STACK_SLOTS && 0 <= ridx < STACK_SLOTS && !err && FramesOk(frames)
      requires Spine(objs, Tasks(), frames, a, |objs|) && Shows(objs, a, r, Floor(Tasks()), |objs|)
      requires reply == (if ridx == 0 then a else rstack[0].obj) && Own()
      requires o == Complete(frames, r, buf[pos..])
      modifies this`ridx, this`frames, rstack
      ensures After(o, true)
    {
      hide Spine, Shows, Complete, FramesOk, After;
      ghost var at, item := CloseArrays(a, r, buf[pos..], o);
      if ridx == 0 {
        LeaveRoot(at, item, o);
      } else {
        StepOn(at, item, o);
      }
    }

    /** The root is whole: it is the reply. */
    method LeaveRoot(ghost at: int, ghost item: Reply, ghost o: StepResult)
      requires BufferOk() && rstack.Length == STACK_SLOTS && ridx == 0 && !err && FramesOk(frames)
      requires Spine(objs, Tasks(), frames, at, |objs|) && Shows(objs, at, item, Floor(Tasks()), |objs|)
      requires reply == at && Own() && o == Complete(frames, item, buf[pos..])
      modifies this`ridx
      ensures After(o, true)
    {
      hide Shows;
      assert frames == [];
      ridx := -1;
      assert Done(item);
    }

    /** The array goes on with its next slot. */
    method StepOn(ghost at: int, ghost item: Reply, ghost o: StepResult)
      requires BufferOk() && rstack.Length == STACK_SLOTS && 0 < ridx < STACK_SLOTS && !err && FramesOk(frames)
      requires Spine(objs, Tasks(), frames, at, |objs|) && Shows(objs, at, item, Floor(Tasks()), |objs|)
      requires rstack[ridx].idx != rstack[ridx - 1].elements - 1
      requires reply == rstack[0].obj && Own() && o == Complete(frames, item, buf[pos..])
      modifies this`frames, rstack
      ensures After(o, true)
    {
      hide Spine, Shows, Complete, FramesOk;
      FramesFit(objs, Tasks(), frames, at, |objs|);
      CompleteClose(frames, item, buf[pos..]);
      NextIndex(at, item);
      assert o == Go(Machine(frames, Untyped, buf[pos..]));
    }

    /** The bytes of the item are consumed; at the root the object is the reply. */
    method PlaceItem(a: int, newPos: nat)
      requires rstack.Length == STACK_SLOTS && 0 <= ridx < STACK_SLOTS
      modifies this`pos, this`reply
      ensures pos == newPos && reply == if ridx == 0 then a else old(reply)
    {
      pos := newPos;
      if ridx == 0 { reply := a; }
    }

    /** Creates the object of a finished item at the current task and moves on. */
    method FinishItem(obj: Obj, newPos: nat, ghost r: Reply, ghost o: StepResult)
      requires Reading() && pos <= newPos <= len && o == Complete(frames, r, buf[newPos..])
      requires IsLeaf(obj, r)
      modifies this`objs, this`pos, this`reply, this`ridx, this`frames, rstack
      ensures After(o, true) && Spared(old(objs))
    {
      hide Spine, Shows, Complete, FramesOk;
      var a := CreateItem(obj, r);
      PlaceItem(a, newPos);
      MoveToNextTask(a, r, o);
    }

    /** The object of a whole item, hung in where it belongs. */
    method CreateItem(obj: Obj, ghost r: Reply) returns (a: int)
      requires Reading() && IsLeaf(obj, r)
      modifies this`objs
      ensures Spine(objs, Tasks(), frames, a, |objs|) && Shows(objs, a, r, Floor(Tasks()), |objs|)
      ensures Spared(old(objs)) && Own()
    {
      Attach(objs, Tasks(), frames, obj, |objs| + 1);
      a := Create(obj);
      LeafShows(obj, objs, a, r, Floor(Tasks()));
    }

    method ProcessLineItem(ghost o: StepResult) returns (ok: bool)
      requires Reading() && (rstack[ridx].kind == KError || rstack[ridx].kind == KStatus || rstack[ridx].kind == KInteger)
      requires o == LineOut(frames, rstack[ridx].kind, buf[pos..])
      modifies this`objs, this`pos, this`reply, this`ridx, this`frames, rstack
      ensures After(o, ok) && Spared(old(objs))
      ensures o.Stuck? ==> !ok && unchanged(this, rstack)
    {
      hide Spine, Shows, Complete, FramesOk;
      var kind := rstack[ridx].kind;
      var s := buf[pos..];
      var p := SeekNewline(s);
      if p == |s| { return false; }
      TailOf(buf, pos, p + 2);
      var obj := LineObject(kind, s, p);
      FinishItem(obj, pos + p + 2, LineReply(kind, s), o);
      ok := true;
    }

    /** The object of a line of text or an integer. */
    static method LineObject(kind: Kind, s: string, p: nat) returns (obj: Obj)
      requires p == Newline(s) < |s| && (kind == KError || kind == KStatus || kind == KInteger)
      ensures IsLeaf(obj, LineReply(kind, s))
    {
      var text := s[..p];
      obj := Text(kind, text);
      if kind == KInteger {
        var n := ReadLongLong(s);
        obj := Count(n);
      }
    }

    /** The length line and the data of a bulk item, if the whole of it is there. */
    static method ReadBulk(s: string, ghost fs: seq<Frame>, ghost o: StepResult)
      returns (have: bool, obj: Obj, end: nat, ghost r: Reply)
      requires FramesOk(fs) && o == BulkOut(fs, s)
      ensures have ==> end <= |s| && IsLeaf(obj, r) && o == Complete(fs, r, s[end..])
      ensures !have ==> o == Stuck
      ensures o.Stuck? ==> !have
    {
      have, obj, end, r := false, Nothing, 0, Nil;
      var p := SeekNewline(s);
      if p == |s| { return; }
      var n := ReadLongLong(s);
      end := p + 2;
      if n >= 0 {
        end := p + 2 + n + 2;
        if end > |s| { return; }
        var text := s[p + 2..p + 2 + n];
        obj, r := Text(KString, text), Str(text);
      }
      have := true;
    }

    method ProcessBulkItem(ghost o: StepResult) returns (ok: bool)
      requires Reading() && rstack[ridx].kind == KString
      requires o == BulkOut(frames, buf[pos..])
      modifies this`objs, this`pos, this`reply, this`ridx, this`frames, rstack
      ensures After(o, ok) && Spared(old(objs))
      ensures o.Stuck? ==> !ok && unchanged(this, rstack)
    {
      var s := buf[pos..];
      var have, obj, end;
      ghost var r;
      have, obj, end, r := ReadBulk(s, frames, o);
      if !have { return false; }
      TailOf(buf, pos, end);
      FinishItem(obj, pos + end, r, o);
      ok := true;
    }

    /** Makes array a the current task's object and its first element the next task. */
    method PushTask(n: int, a: int)
      requires rstack.Length == STACK_SLOTS && 0 <= ridx < MAX_DEPTH
      modifies `ridx, rstack
      ensures ridx == old(ridx) + 1
      ensures Tasks() == PushedTasks(old(Tasks()), n, a)
      ensures rstack[ridx].kind == Untyped && rstack[0].obj == if ridx == 1 then a else old(rstack[0].obj)
    {
      ghost var ts := Tasks();
      rstack[ridx] := rstack[ridx].(kind := KArray, elements := n, obj := a);
      ridx := ridx + 1;
      rstack[ridx] := Task(Untyped, -1, 0, NULL);
      assert Tasks() == PushedTasks(ts, n, a);
    }

    /** An array object of n empty slots, ready to be the top of the spine. */
    method CreateArray(n: int) returns (a: int)
      requires Reading() && n > 0
      modifies this`objs
      ensures Spine(objs, PushedTasks(Tasks(), n, a), frames + [Frame(n, [])], NULL, |objs|)
      ensures Spared(old(objs)) && handed <= a && handed <= |objs| && (ridx > 0 ==> handed <= rstack[0].obj)
    {
      Open(objs, Tasks(), frames, n);
      a := Create(Array(n, seq(n, _ => NULL)));
    }

    method OpenArray(n: int, newPos: nat, ghost o: StepResult)
      requires Reading() && pos <= newPos <= len && ridx < MAX_DEPTH && n > 0
      requires o == Go(Machine(frames + [Frame(n, [])], Untyped, buf[newPos..]))
      modifies this`objs, this`pos, this`reply, this`ridx, this`frames, rstack
      ensures After(o, true) && ridx > 0 && Spared(old(objs))
    {
      hide Spine, Shows, FramesOk, After;
      var a := CreateArray(n);
      Descend(n, a, newPos, o);
    }

    /** The array at a becomes the current task's object, and its first slot the current task. */
    method Descend(n: int, a: int, newPos: nat, ghost o: StepResult)
      requires BufferOk() && rstack.Length == STACK_SLOTS && 0 <= ridx < MAX_DEPTH && !err && FramesOk(frames)
      requires Spine(objs, PushedTasks(Tasks(), n, a), frames + [Frame(n, [])], NULL, |objs|)
      requires pos <= newPos <= len && n > 0 && |frames| == ridx && handed <= a && Own()
      requires ridx > 0 ==> reply == rstack[0].obj
      requires o == Go(Machine(frames + [Frame(n, [])], Untyped, buf[newPos..]))
      modifies this`pos, this`reply, this`ridx, this`frames, rstack
      ensures After(o, true) && ridx > 0
    {
      hide Shows, ArrayOk;
      var root := ridx == 0;
      pos := newPos;
      PushTask(n, a);
      if root { reply := a; }
      frames := frames + [Frame(n, [])];
    }

    method ProcessMultiBulkItem(ghost o: StepResult) returns (ok: bool)
      requires Reading() && rstack[ridx].kind == KArray
      requires o == MultiOut(frames, buf[pos..])
      modifies this, rstack
      ensures After(o, ok) && Spared(old(objs))
      ensures o.Stuck? ==> !ok && unchanged(this, rstack) && ridx != MAX_DEPTH
      ensures o.Fault? ==> !ok && err && Between() && Abs() == IDLE
      ensures maxbuf == old(maxbuf) && handed == old(handed)
    {
      hide Spine, Shows, Complete;
      if ridx == MAX_DEPTH {
        ok := TooDeep(o);
        assert After(o, ok) && Spared(old(objs));
      } else {
        ok := ReadArray(o);
        assert !o.Fault?;
        assert o.Stuck? ==> unchanged(this, rstack);
      }
    }

    /** An array header inside 8 arrays. */
    method TooDeep(ghost o: StepResult) returns (ok: bool)
      requires Reading() && ridx == MAX_DEPTH && o == MultiOut(frames, buf[pos..])
      modifies this
      ensures !ok && o == Fault && err && Between() && Abs() == IDLE
      ensures maxbuf == old(maxbuf) && handed == old(handed) && objs == old(objs)
    {
      SetError();
      ok := false;
    }

    /** An array header inside fewer than 8 arrays. */
    method ReadArray(ghost o: StepResult) returns (ok: bool)
      requires Reading() && ridx < MAX_DEPTH && o == MultiOut(frames, buf[pos..])
      modifies this`objs, this`pos, this`reply, this`ridx, this`frames, rstack
      ensures After(o, ok) && Spared(old(objs)) && o != Fault
      ensures o.Stuck? ==> !ok && unchanged(this, rstack)
    {
      hide Shows, ArrayOk, Complete;
      var s := buf[pos..];
      var have, n, end := ReadHeader(s);
      if !have { return false; }
      TailOf(buf, pos, end);
      StartArray(n, pos + end, o);
      ok := true;
    }

    /** A header of n: a nil, an array without elements, or an array to go into. */
    method StartArray(n: int, newPos: nat, ghost o: StepResult)
      requires Reading() && pos <= newPos <= len && ridx < MAX_DEPTH
      requires o == if n == -1 then Complete(frames, Nil, buf[newPos..])
                    else if n <= 0 then Complete(frames, Arr(n, []), buf[newPos..])
                    else Go(Machine(frames + [Frame(n, [])], Untyped, buf[newPos..]))
      modifies this`objs, this`pos, this`reply, this`ridx, this`frames, rstack
      ensures After(o, true) && Spared(old(objs))
    {
      hide Spine, Shows, Complete, After;
      if n > 0 {
        OpenArray(n, newPos, o);
      } else {
        FinishItem(if n == -1 then Nothing else Array(n, []), newPos, if n == -1 then Nil else Arr(n, []), o);
      }
    }

    /** The length line of a multi bulk item. */
    static method ReadHeader(s: string) returns (have: bool, n: int, end: nat)
      ensures have <==> Newline(s) < |s|
      ensures have ==> n == Number(s) && end == Newline(s) + 2 <= |s|
    {
      var p := SeekNewline(s);
      if p == |s| { return false, 0, 0; }
      n := ReadLongLong(s);
      have, end := true, p + 2;
    }

    method ProcessTyped(ghost o: StepResult) returns (ok: bool)
      requires Reading() && rstack[ridx].kind != Untyped && o == Step(Abs())
      modifies this, rstack
      ensures After(o, ok) && Spared(old(objs))
      ensures o.Stuck? ==> !ok && unchanged(this, rstack) && !(ridx == MAX_DEPTH && rstack[ridx].kind == KArray)
      ensures o.Fault? ==> !ok && err && Between() && Abs() == IDLE
      ensures maxbuf == old(maxbuf) && handed == old(handed)
    {
      hide Spine, Shows, Complete, FramesOk, After;
      StepCases(frames, rstack[ridx].kind, buf[pos..]);
      if rstack[ridx].kind == KString {
        ok := ProcessBulkItem(o);
      } else if rstack[ridx].kind == KArray {
        ok := ProcessMultiBulkItem(o);
      } else {
        ok := ProcessLineItem(o);
      }
    }

    /** Takes the type byte of the current item. */
    method ReadType() returns (ok: bool)
      requires Reading() && rstack[ridx].kind == Untyped
      modifies this, rstack
      ensures var o := Step(old(Abs()));
        && (o.Go? ==> ok && Reading() && Abs() == o.m)
        && (o.Stuck? ==> !ok && unchanged(this, rstack))
        && (o.Fault? ==> !ok && err && Between() && Abs() == IDLE)
      ensures ok ==> rstack[ridx].kind != Untyped
      ensures maxbuf == old(maxbuf) && handed == old(handed) && objs == old(objs)
    {
      hide Spine, Shows, FramesOk;
      if pos >= len { return false; }
      var c := buf[pos];
      assert c == buf[pos..][0];
      var kind := KindOf(c);
      if kind == Untyped {
        SetError();
        return false;
      }
      ghost var ts := Tasks();
      Retype(objs, ts, frames, kind);
      assert buf[pos..][1..] == buf[pos + 1..];
      pos := pos + 1;
      rstack[ridx] := rstack[ridx].(kind := kind);
      assert Tasks() == ts[..|ts| - 1] + [ts[|ts| - 1].(kind := kind)];
      ok := true;
    }

    method ProcessItem() returns (ok: bool)
      requires Reading() && Valid()
      modifies this, rstack
      ensures var m := old(Abs()); var o := ItemStep(m);
        && After(o, ok)
        && (o.Stuck? ==> !ok && Valid() && ridx >= 0 && Abs() == Typed(m))
        && (o.Fault? ==> !ok && err && Between() && Abs() == IDLE)
      ensures maxbuf == old(maxbuf) && handed == old(handed) && Spared(old(objs))
    {
      hide Spine, Shows, FramesOk, Between, Done, MultiOut, LineOut, BulkOut;
      if rstack[ridx].kind == Untyped {
        ok := ReadType();
        if !ok { return; }
      }
      ok := ProcessTyped(Step(Abs()));
    }

    /** The buffer part of redisReaderFeed: drop a large empty buffer, grow by sds's rule, append. */
    method Append(chunk: string)
      requires BufferOk() && chunk != ""
      modifies `buf, `len, `pos, `avail
      ensures BufferOk() && buf[pos..] == old(buf[pos..]) + chunk
    {
      if len == 0 && maxbuf != 0 && avail > maxbuf {
        buf, avail, pos := "", 0, 0;
      }
      ghost var before := buf[pos..];
      if avail >= |chunk| {
        avail := avail - |chunk|;
      } else {
        var newlen := |buf| + |chunk|;
        avail := if newlen < PREALLOC then newlen else PREALLOC;
      }
      buf := buf + chunk;
      len := |buf|;
      assert buf[pos..] == before + chunk;
    }

    /** redisReaderFeed */
    method Feed(chunk: string) returns (ok: bool)
      requires Valid()
      modifies `buf, `len, `pos, `avail
      ensures Valid() && ok == !err
      ensures !err ==> Abs() == Fed(old(Abs()), chunk)
      ensures err ==> Abs() == old(Abs())
    {
      if err { return false; }
      if |chunk| >= 1 {
        Append(chunk);
      } else {
        assert buf[pos..] + chunk == buf[pos..];
      }
      ok := true;
    }

    /** The first item of a reply goes on the empty stack. */
    method PushRoot()
      requires Between() && !err
      modifies `ridx, rstack
      ensures Reading() && Valid() && Abs() == old(Abs())
    {
      rstack[0] := Task(Untyped, -1, -1, NULL);
      ridx := 0;
      assert Tasks() == [Task(Untyped, -1, -1, NULL)];
    }

    /** Drops consumed bytes once there are at least 1024 of them. */
    method Compact()
      requires BufferOk()
      modifies `buf, `len, `pos, `avail
      ensures BufferOk() && buf[pos..] == old(buf[pos..])
    {
      if pos >= COMPACT {
        avail := avail + pos;
        buf := buf[pos..];
        pos := 0;
        len := |buf|;
      }
    }

    /** What a run towards the next reply leaves behind. */
    ghost predicate Stopped(goal: Answer)
      reads this, rstack
    {
      err == goal.failed &&
      if err then Valid() && Abs() == IDLE == goal.m && goal.reply == []
      else
        && BufferOk() && rstack.Length == STACK_SLOTS && -1 <= ridx < STACK_SLOTS && Abs() == goal.m
        && if ridx >= 0 then Valid() && goal.reply == [] else |goal.reply| == 1 && Done(goal.reply[0])
    }

    /** One turn of the processing loop. */
    method Turn(ghost goal: Answer) returns (more: bool)
      requires Reading() && Valid() && goal == NextReply(Abs())
      modifies this, rstack
      ensures maxbuf == old(maxbuf) && handed == old(handed) && Spared(old(objs))
      ensures more ==> Reading() && Valid() && goal == NextReply(Abs()) && |Abs().input| < |old(Abs()).input|
      ensures !more ==> Stopped(goal)
    {
      hide Spine, Shows, FramesOk, NextReply;
      ItemNext(Abs());
      ghost var o := ItemStep(Abs());
      assert o.Go? ==> goal == NextReply(o.m);
      var ok := ProcessItem();
      more := ok && ridx >= 0;
      assert more ==> o.Go? && Abs() == o.m;
    }

    /** The processing loop of redisReaderGetReply. */
    method ProcessItems(ghost goal: Answer)
      requires Reading() && Valid() && goal == NextReply(Abs())
      modifies this, rstack
      ensures maxbuf == old(maxbuf) && handed == old(handed) && Spared(old(objs))
      ensures Stopped(goal)
    {
      hide Spine, Shows, FramesOk, NextReply, Stopped;
      var more := true;
      while more
        invariant if more then Reading() && Valid() && goal == NextReply(Abs()) else Stopped(goal)
        invariant maxbuf == old(maxbuf) && handed == old(handed) && Spared(old(objs))
        decreases more, if more then |Abs().input| else 0
      {
        ghost var was := objs;
        more := Turn(goal);
        StillSafe(old(objs), was, objs, handed, handed);
      }
    }

    /** What was handed out before is as it was. */
    ghost predicate Safe(was: seq<Obj>, low: nat)
      reads `objs, `handed
    {
      low <= handed <= |objs| && low <= |was| && objs[..low] == was[..low]
    }

    /** redisReaderGetReply: the address of the next whole reply, or NULL if there is none yet. */
    method GetReply() returns (ok: bool, address: int, ghost r: seq<Reply>)
      requires Valid()
      modifies this, rstack
      ensures Valid()
      ensures old(err) ==> !ok && address == NULL && err && Abs() == old(Abs()) && r == []
      ensures !old(err) ==> var a := NextReply(old(Abs()));
        && ok == !a.failed == !err && Abs() == a.m && r == a.reply
        && (if r == [] then address == NULL else Shows(objs, address, r[0], 0, handed))
      ensures Safe(old(objs), old(handed))
      ensures maxbuf == old(maxbuf)
    {
      hide Shows, ArrayOk, NextReply, Complete;
      if err { return false, NULL, []; }
      if len == 0 {
        EmptyStuck(Abs());
        return true, NULL, [];
      }
      ghost var goal := NextReply(Abs());
      if ridx == -1 {
        PushRoot();
      }
      ok, address := RunAndEmit(goal);
      r := goal.reply;
    }

    /** The second half of redisReaderGetReply: process, discard what is consumed, hand out. */
    method RunAndEmit(ghost goal: Answer) returns (ok: bool, address: int)
      requires Reading() && Valid() && goal == NextReply(Abs())
      modifies this, rstack
      ensures Valid() && Abs() == goal.m && ok == !goal.failed == !err
      ensures if goal.reply == [] then address == NULL else Shows(objs, address, goal.reply[0], 0, handed)
      ensures Safe(old(objs), old(handed))
      ensures maxbuf == old(maxbuf)
    {
      hide Spine, Shows, FramesOk, NextReply, Reading, Between, Done, Valid;
      address := NULL;
      ProcessItems(goal);
      if err { return false, NULL; }
      address := EmitReply(goal.reply);
      assert objs[..old(handed)] == old(objs)[..old(handed)];
      ok := true;
    }

    /** Consumed bytes are discarded, and the finished reply, if there is one, handed out. */
    method EmitReply(ghost r: seq<Reply>) returns (address: int)
      requires BufferOk() && rstack.Length == STACK_SLOTS && !err && -1 <= ridx
      requires if ridx == -1 then |r| == 1 && Done(r[0]) else Valid() && r == []
      modifies `buf, `len, `pos, `avail, `reply, `handed
      ensures Valid() && Abs() == old(Abs())
      ensures if r == [] then address == NULL else Shows(objs, address, r[0], 0, handed)
      ensures old(handed) <= handed <= |objs|
    {
      hide Spine, Shows, FramesOk;
      Compact();
      address := HandOut(r);
    }

    /** The finished reply, if there is one, goes to the caller. */
    method HandOut(ghost r: seq<Reply>) returns (address: int)
      requires BufferOk() && rstack.Length == STACK_SLOTS && !err && -1 <= ridx
      requires if ridx == -1 then |r| == 1 && Done(r[0]) else Valid() && r == []
      modifies this`reply, this`handed
      ensures Valid() && Abs() == old(Abs())
      ensures if r == [] then address == NULL else Shows(objs, address, r[0], 0, handed)
      ensures old(handed) <= handed <= |objs|
    {
      hide Spine, FramesOk;
      address := NULL;
      if ridx == -1 {
        address := reply;
        reply := NULL;
        handed := |objs|;
      }
    }

    /** One more reply, if there is one; those taken before still stand where they were. */
    method TakeNext(addresses: seq<int>, ghost rs: seq<Reply>, ghost goal: Drained)
        returns (more: bool, addresses': seq<int>, ghost rs': seq<Reply>)
      requires Valid() && !err && AllShown(objs, addresses, rs, handed) && goal == Prepend(rs, Drain(Abs()))
      modifies this, rstack
      ensures Valid() && AllShown(objs, addresses', rs', handed) && Safe(old(objs), old(handed))
      ensures more ==> !err && goal == Prepend(rs', Drain(Abs())) && |Abs().input| < |old(Abs()).input|
      ensures !more ==> goal == Drained(rs', err, Abs())
    {
      hide Spine, NextReply, Drain;
      TakeOne(Abs(), rs, goal);
      ghost var was, low := objs, handed;
      ghost var r;
      var ok, a;
      ok, a, r := GetReply();
      StillShown(was, objs, addresses, rs, low, handed);
      more := a != NULL;
      addresses', rs' := addresses, rs;
      if more {
        ShownMore(objs, addresses, rs, a, r, handed);
        addresses', rs' := addresses + [a], rs + r;
      }
    }

    /** Every reply the reader has, taken one by one until there is none or an error. */
    method TakeAll() returns (addresses: seq<int>, ghost rs: seq<Reply>)
      requires Valid() && !err
      modifies this, rstack
      ensures Valid()
      ensures var d := Drain(old(Abs())); rs == d.replies && err == d.failed && Abs() == d.m
      ensures AllShown(objs, addresses, rs, handed) && Safe(old(objs), old(handed))
    {
      hide Spine, Shows, Drain;
      addresses, rs := [], [];
      ghost var goal := Drain(Abs());
      var more := true;
      while more
        invariant Valid() && (more ==> !err)
        invariant AllShown(objs, addresses, rs, handed) && Safe(old(objs), old(handed))
        invariant if more then goal == Prepend(rs, Drain(Abs())) else goal == Drained(rs, err, Abs())
        decreases more, |Abs().input|
      {
        ghost var was, low := objs, handed;
        more, addresses, rs := TakeNext(addresses, rs, goal);
        StillSafe(old(objs), was, objs, old(handed), low);
      }
    }
  }

  lemma TakeOne(m: Machine, rs: seq<Reply>, goal: Drained)
    requires FramesOk(m.frames) && goal == Prepend(rs, Drain(m))
    ensures var a := NextReply(m);
      goal == if a.reply == [] then Drained(rs, a.failed, a.m) else Prepend(rs + a.reply, Drain(a.m))
  {
    DrainByReplies(m);
    var a := NextReply(m);
    if a.reply == [] {
      NoMore(rs);
    } else {
      Joined(rs, a.reply, Drain(a.m).replies);
    }
  }

  lemma NoMore(rs: seq<Reply>)
    ensures rs + [] == rs
  {
  }

  lemma Joined(a: seq<Reply>, b: seq<Reply>, c: seq<Reply>)
    ensures a + (b + c) == a + b + c
  {
  }

  lemma CompleteClose(frames: seq<Frame>, r: Reply, rest: string)
    requires FramesOk(frames) && frames != []
    ensures var last := |frames| - 1; var f := frames[last]; var items := f.items + [r];
      && FramesOk(frames[..last])
      && (|items| == f.elements ==> Complete(frames, r, rest) == Complete(frames[..last], Arr(f.elements, items), rest))
      && (|items| != f.elements ==> Complete(frames, r, rest) == Go(Machine(frames[..last] + [Frame(f.elements, items)], Untyped, rest)))
  {
  }

  lemma Retype(objs: seq<Obj>, ts: seq<Task>, frames: seq<Frame>, kind: Kind)
    requires Spine(objs, ts, frames, NULL, |objs|)
    ensures Spine(objs, ts[..|ts| - 1] + [ts[|ts| - 1].(kind := kind)], frames, NULL, |objs|)
  {
    var ts' := ts[..|ts| - 1] + [ts[|ts| - 1].(kind := kind)];
    assert ts'[..|ts| - 1] == ts[..|ts| - 1];
  }

  lemma TailOf(s: string, a: nat, b: nat)
    requires a + b <= |s|
    ensures s[a..][b..] == s[a + b..]
  {
  }

  lemma EmptyStuck(m: Machine)
    requires FramesOk(m.frames) && m.input == "" && !(m.kind == KArray && |m.frames| == MAX_DEPTH)
    ensures NextReply(m) == Answer([], false, m)
  {
  }

  /** One processItem call moves towards the next reply. */
  lemma ItemNext(m: Machine)
    requires FramesOk(m.frames)
    ensures var o := ItemStep(m);
      NextReply(m) ==
        match o
        case Stuck => Answer([], false, Typed(m))
        case Fault => Answer([], true, IDLE)
        case Go(m') => NextReply(m')
        case Emit(r, m') => Answer([r], false, m')
    ensures ItemStep(m).Go? ==> |ItemStep(m).m.input| < |m.input|
  {
    if m.kind == Untyped && Step(m).Go? {
      assert NextReply(m) == NextReply(Step(m).m);
    }
  }

  lemma DigitsEnd(s: string, i: nat, v: nat)
    requires i < |s| && s[i] == '\r'
    ensures Digits(s[i..], v) == v
  {
  }

  lemma HasLine(s: string, i: nat)
    requires i <= |s| && Newline(s[i..]) < |s[i..]|
    ensures i < |s|
  {
  }

  lemma DigitNext(s: string, i: nat, v: nat, next: int)
    requires i < |s| && s[i] != '\r'
    ensures s[i..][1..] == s[i + 1..]
    ensures 0 <= DigitVal(s[i]) < 10 && next == 10 * v + DigitVal(s[i]) ==> next >= 0 && Digits(s[i..], v) == Digits(s[i + 1..], next)
    ensures !(0 <= DigitVal(s[i]) < 10) ==> Digits(s[i..], v) == -1
  {
    assert s[i..][0] == s[i] && s[i..][1..] == s[i + 1..];
  }

  lemma NewlineSkip(s: string, p: nat)
    requires p + 1 < |s| && !(s[p] == '\r' && s[p + 1] == '\n')
    ensures Newline(s[p..]) == 1 + Newline(s[p + 1..])
  {
    assert s[p..][0] == s[p] && s[p..][1] == s[p + 1] && s[p..][1..] == s[p + 1..];
  }

  lemma NewlineHere(s: string, p: nat)
    requires p + 1 < |s| && s[p] == '\r' && s[p + 1] == '\n'
    ensures Newline(s[p..]) == 0
  {
    assert s[p..][0] == s[p] && s[p..][1] == s[p + 1];
  }

  /** The reply of a one-line item. */
  function LineReply(kind: Kind, s: string): Reply
    requires Newline(s) < |s|
  {
    if kind == KError then Error(s[..Newline(s)])
    else if kind == KStatus then Status(s[..Newline(s)])
    else Integer(Number(s))
  }

  /** What a step does with a line, a bulk and a multi bulk item. */
  function LineOut(frames: seq<Frame>, kind: Kind, s: string): StepResult
    requires FramesOk(frames)
  {
    var p := Newline(s);
    if p == |s| then Stuck else Complete(frames, LineReply(kind, s), s[p + 2..])
  }

  function BulkOut(frames: seq<Frame>, s: string): StepResult
    requires FramesOk(frames)
  {
    var p := Newline(s);
    if p == |s| then Stuck
    else
      var n := Number(s);
      var b := p + 2;
      if n < 0 then Complete(frames, Nil, s[b..])
      else if |s| < b + n + 2 then Stuck
      else Complete(frames, Str(s[b..b + n]), s[b + n + 2..])
  }

  function MultiOut(frames: seq<Frame>, s: string): StepResult
    requires FramesOk(frames)
  {
    var p := Newline(s);
    if |frames| == MAX_DEPTH then Fault
    else if p == |s| then Stuck
    else
      var n := Number(s);
      var rest := s[p + 2..];
      if n == -1 then Complete(frames, Nil, rest)
      else if n <= 0 then Complete(frames, Arr(n, []), rest)
      else Go(Machine(frames + [Frame(n, [])], Untyped, rest))
  }

  lemma StepCases(frames: seq<Frame>, kind: Kind, s: string)
    requires FramesOk(frames) && kind != Untyped
    ensures Step(Machine(frames, kind, s)) ==
      if kind == KString then BulkOut(frames, s)
      else if kind == KArray then MultiOut(frames, s)
      else LineOut(frames, kind, s)
  {
    var p := Newline(s);
    if kind == KString && p < |s| {
      var n, b := Number(s), p + 2;
      var data := s[b..];
      if n >= 0 && |data| >= n + 2 {
        assert data[..n] == s[b..b + n];
        assert data[n + 2..] == s[b + n + 2..];
      }
    }
  }

  /** obj alone, with no elements below it, is the reply r. */
  predicate IsLeaf(obj: Obj, r: Reply) {
    match obj
    case Text(KString, t) => r == Str(t)
    case Text(KStatus, t) => r == Status(t)
    case Text(KError, t) => r == Error(t)
    case Count(n) => r == Integer(n)
    case Nothing => r == Nil
    case Array(n, slots) => slots == [] && r == Arr(n, [])
    case _ => false
  }

  lemma LeafShows(obj: Obj, objs: seq<Obj>, a: int, r: Reply, lo: int)
    requires IsLeaf(obj, r)
    requires 0 <= lo <= a == |objs| - 1 && objs[a] == obj
    ensures Shows(objs, a, r, lo, |objs|)
  {
  }
}
