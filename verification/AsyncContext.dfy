/** The context itself: a linked list with head and tail, flags that are set and cleared, and loops that drain. */
module AsyncContexts {
  import opened AsyncRuns

  class Node {
    var cb: Callback
    var next: Node?

    constructor (cb: Callback)
      ensures this.cb == cb && next == null
    {
      this.cb := cb;
      next := null;
    }
  }

  class CallbackList {
    var head: Node?
    var tail: Node?
    ghost var nodes: seq<Node>
    ghost var contents: seq<Callback>
    ghost var repr: set<Node>

    ghost predicate Valid()
      reads this, repr
    {
      && |contents| == |nodes|
      && (forall i | 0 <= i < |nodes| :: nodes[i] in repr && nodes[i].cb == contents[i])
      && (forall i, j | 0 <= i < j < |nodes| :: nodes[i] != nodes[j])
      && (forall i | 0 <= i < |nodes| - 1 :: nodes[i].next == nodes[i + 1])
      && (nodes == [] ==> head == null && tail == null)
      && (nodes != [] ==> head == nodes[0] && tail == nodes[|nodes| - 1] && nodes[|nodes| - 1].next == null)
    }

    constructor ()
      ensures Valid() && contents == [] && fresh(repr)
    {
      head, tail := null, null;
      nodes, contents, repr := [], [], {};
    }

    /** __redisPushCallback */
    method Push(source: Callback)
      requires Valid()
      modifies this, repr
      ensures Valid() && contents == old(contents) + [source] && fresh(repr - old(repr))
    {
      var cb := new Node(source);
      if head == null {
        head := cb;
      }
      if tail != null {
        tail.next := cb;
      }
      tail := cb;
      nodes, contents, repr := nodes + [cb], contents + [source], repr + {cb};
    }

    /** __redisShiftCallback */
    method Shift() returns (target: Option<Callback>)
      requires Valid()
      modifies this
      ensures Valid() && repr == old(repr)
      ensures if old(contents) == [] then target == None && contents == []
              else target == Some(old(contents)[0]) && contents == old(contents)[1..]
    {
      var cb := head;
      if cb == null { return None; }
      head := cb.next;
      if cb == tail {
        tail := null;
      }
      target := Some(cb.cb);
      nodes, contents := nodes[1..], contents[1..];
    }
  }

  class Context {
    const replies: CallbackList
    var disconnecting: bool
    var freeing: bool
    var inCallback: bool
    var err: bool
    var unsent: bool
    var freed: bool
    var aborted: bool
    var script: seq<seq<Act>>           // what callbacks will do, run by run
    ghost var accepted: seq<Callback>
    ghost var done: seq<Done>

    ghost predicate Valid()
      reads this, replies, replies.repr
    {
      replies.Valid()
    }

    ghost function Value(): State
      reads this, replies
    {
      State(replies.contents, disconnecting, freeing, err, unsent, script, accepted, done, if freed then 1 else 0, aborted)
    }

    /** Alive, and no callback is running. */
    ghost predicate Ready()
      reads this, replies, replies.repr
    {
      Valid() && !freed && !inCallback
    }

    constructor (script: seq<seq<Act>>)
      ensures Ready() && Value() == Init(script) && fresh(replies) && fresh(replies.repr)
    {
      this.script := script;
      disconnecting, freeing, inCallback, err, unsent, freed, aborted := false, false, false, false, false, false, false;
      accepted, done := [], [];
      replies := new CallbackList();
    }

    /** __redisAsyncCommand on a plain command */
    method Issue(cb: Callback) returns (ok: bool)
      requires Valid() && !freed
      modifies this`unsent, this`accepted, replies, replies.repr
      ensures Valid() && fresh(replies.repr - old(replies.repr))
      ensures Value() == Command(old(Value()), cb)
      ensures ok == !(old(disconnecting) || old(freeing))
      ensures replies.contents == (if ok then old(replies.contents) + [cb] else old(replies.contents)) && (ok ==> unsent)
    {
      if disconnecting || freeing { return false; }
      replies.Push(cb);
      accepted := accepted + [cb];
      unsent := true;
      ok := true;
    }

    /** redisAsyncFree */
    method Free()
      requires Valid() && !freed
      modifies this, replies, replies.repr
      ensures Valid() && inCallback == old(inCallback) && fresh(replies.repr - old(replies.repr))
      ensures Value() == if inCallback then Inside(old(Value()), Act.Free) else Outside(old(Value()), Act.Free)
      ensures if inCallback then freeing && !freed && replies.contents == old(replies.contents) else freed && replies.contents == []
      decreases if inCallback then 0 else 4, 0
    {
      freeing := true;
      if !inCallback {
        AsyncFree();
      }
    }

    /** redisAsyncDisconnect */
    method Disconnect()
      requires Valid() && !freed
      modifies this, replies, replies.repr
      ensures Valid() && inCallback == old(inCallback) && fresh(replies.repr - old(replies.repr))
      ensures Value() == if inCallback then Inside(old(Value()), Act.Disconnect) else Outside(old(Value()), Act.Disconnect)
      ensures disconnecting && freed == (!inCallback && old(replies.contents) == [])
      ensures !freed ==> replies.contents == old(replies.contents)
      decreases if inCallback then 0 else 5, 0
    {
      disconnecting := true;
      if !inCallback && replies.head == null {
        AsyncDisconnect();
      }
    }

    /** One API call by user code. */
    method Perform(a: Act)
      requires Valid() && !freed
      modifies this, replies, replies.repr
      ensures Valid() && inCallback == old(inCallback) && fresh(replies.repr - old(replies.repr))
      ensures Value() == if inCallback then Inside(old(Value()), a) else Outside(old(Value()), a)
      decreases if inCallback then 1 else 6, 0
    {
      hide CallbackList.Valid;
      match a
      case Issue(cb) => var _ := Issue(cb);
      case Disconnect => Disconnect();
      case Free => Free();
    }

    /** What a running callback does. */
    method Behave(acts: seq<Act>)
      requires Valid() && !freed && inCallback
      modifies this, replies, replies.repr
      ensures Valid() && !freed && inCallback && fresh(replies.repr - old(replies.repr))
      ensures Value() == InsideAll(old(Value()), acts)
      decreases 2, 0
    {
      hide CallbackList.Valid;
      ghost var goal := InsideAll(Value(), acts);
      assert acts[0..] == acts;
      for i := 0 to |acts|
        invariant Valid() && !freed && inCallback && fresh(replies.repr - old(replies.repr))
        invariant InsideAll(Value(), acts[i..]) == goal
      {
        assert acts[i..][1..] == acts[i + 1..];
        Perform(acts[i]);
      }
    }

    /** __redisRunCallback */
    method RunCallback(cb: Callback)
      requires Ready()
      modifies this, replies, replies.repr
      ensures Ready() && fresh(replies.repr - old(replies.repr))
      ensures Value() == Called(old(Value()), cb)
      decreases 3, 0
    {
      hide CallbackList.Valid, InsideAll;
      if cb.hasFn && script != [] {
        inCallback := true;
        var acts := script[0];
        script := script[1..];
        Behave(acts);
        inCallback := false;
      }
    }

    /** The callback at the head of the queue with this reply. */
    method Consume(cb: Callback, reply: Option<Reply>, ghost s: State)
      requires Ready() && s.queue != [] && cb == s.queue[0]
      requires Value() == s.(queue := s.queue[1..])
      modifies this, replies, replies.repr
      ensures Ready() && fresh(replies.repr - old(replies.repr))
      ensures Value() == Consumed(s, reply)
      decreases 3, 1
    {
      hide CallbackList.Valid, Called;
      done := done + [Done(cb, reply)];
      RunCallback(cb);
    }

    /** __redisAsyncFree */
    method AsyncFree()
      requires Ready() && (replies.contents != [] ==> Closing(Value()))
      modifies this, replies, replies.repr
      ensures Valid() && !inCallback && freed && fresh(replies.repr - old(replies.repr))
      ensures Value() == Freed(old(Value())) && replies.contents == []
      decreases 3, 2, 1
    {
      hide CallbackList.Valid;
      ghost var goal := Freed(Value());
      ghost var s := Value();
      var cb := replies.Shift();
      while cb != None
        invariant Ready() && fresh(replies.repr - old(replies.repr))
        invariant Freeing(cb, s) && Freed(s) == goal
        decreases |s.queue|
      {
        cb, s := FreeNext(cb.value, s, goal);
      }
      freed := true;
    }

    /** cb was just shifted off the queue that s still has. */
    ghost predicate Freeing(cb: Option<Callback>, s: State)
      reads this, replies
    {
      if cb == None then s.queue == [] && Value() == s
      else s.queue != [] && Closing(s) && cb.value == s.queue[0] && Value() == s.(queue := s.queue[1..])
    }

    /** One pending callback with a NULL reply, and the next one shifted. */
    method FreeNext(cb: Callback, ghost s: State, ghost goal: State) returns (next: Option<Callback>, ghost s': State)
      requires Ready() && Freeing(Some(cb), s) && Freed(s) == goal
      modifies this, replies, replies.repr
      ensures Ready() && fresh(replies.repr - old(replies.repr))
      ensures Freeing(next, s') && Freed(s') == goal && |s'.queue| < |s.queue|
      decreases 3, 2, 0
    {
      hide CallbackList.Valid, Freed, Consumed;
      FreedStep(s);
      Consume(cb, None, s);
      s' := Value();
      assert s' == Consumed(s, None);
      next := replies.Shift();
    }

    /** __redisAsyncDisconnect: its assertion, that nobody waits on a disconnect without an error, always holds. */
    method AsyncDisconnect()
      requires Ready() && (err || replies.contents == [])
      modifies this, replies, replies.repr
      ensures Valid() && !inCallback && freed && fresh(replies.repr - old(replies.repr))
      ensures Value() == Disconnected(old(Value())) && replies.contents == []
      decreases 3, 3
    {
      hide CallbackList.Valid, Freed;
      if !err {
        var ret := replies.Shift();
        assert ret == None;
      } else {
        disconnecting := true;
      }
      AsyncFree();
    }

    /** redisProcessCallbacks; `batch` are the replies the reader has, `broken` that it then reports an error. */
    method ProcessCallbacks(batch: seq<Reply>, broken: bool)
      requires Ready() && !aborted
      modifies this, replies, replies.repr
      ensures Valid() && !inCallback && fresh(replies.repr - old(replies.repr))
      ensures Value() == Process(old(Value()), batch, broken)
    {
      hide CallbackList.Valid;
      ghost var goal := Process(Value(), batch, broken);
      assert batch[0..] == batch;
      var i := 0;
      while i < |batch|
        invariant i <= |batch| && Ready() && !aborted && fresh(replies.repr - old(replies.repr))
        invariant Process(Value(), batch[i..], broken) == goal
      {
        var more := ProcessReply(batch[i], batch[i..], broken);
        if !more { return; }
        assert batch[i..][1..] == batch[i + 1..];
        i := i + 1;
      }
      assert batch[i..] == [];
      EndOfReplies(broken);
    }

    /** No more replies: an error, the cue to disconnect, or neither. */
    method EndOfReplies(broken: bool)
      requires Ready() && !aborted
      modifies this, replies, replies.repr
      ensures Valid() && !inCallback && fresh(replies.repr - old(replies.repr))
      ensures Value() == Process(old(Value()), [], broken)
    {
      if broken {
        err := true;
        AsyncDisconnect();
      } else if disconnecting && !unsent && replies.head == null {
        AsyncDisconnect();
      }
    }

    /** The loop body on one reply; false when the context is gone or stopped. */
    method ProcessReply(reply: Reply, ghost batch: seq<Reply>, ghost broken: bool) returns (more: bool)
      requires Ready() && !aborted && batch != [] && batch[0] == reply
      modifies this, replies, replies.repr
      ensures Valid() && !inCallback && fresh(replies.repr - old(replies.repr))
      ensures if more then Ready() && !aborted && Process(Value(), batch[1..], broken) == Process(old(Value()), batch, broken)
              else Value() == Process(old(Value()), batch, broken)
    {
      hide CallbackList.Valid, Consumed, Disconnected, Freed;
      ghost var s := Value();
      var cb := replies.Shift();
      if cb == None {
        if reply.ErrorReply? {
          err := true;
          AsyncDisconnect();
        } else {
          aborted := true;
        }
        return false;
      }
      Consume(cb.value, Some(reply), s);
      AbortedKept(s, Some(reply));
      if cb.value.hasFn && freeing {
        AsyncFree();
        return false;
      }
      return true;
    }

    /** redisAsyncHandleRead on a connected context */
    method HandleRead(failed: bool, batch: seq<Reply>, broken: bool)
      requires Ready() && !aborted
      modifies this, replies, replies.repr
      ensures Valid() && !inCallback && fresh(replies.repr - old(replies.repr))
      ensures Value() == Step(old(Value()), if failed then IoFails else Readable(batch, broken))
    {
      hide CallbackList.Valid, Process, Disconnected;
      if failed {
        err := true;
        AsyncDisconnect();
      } else {
        ProcessCallbacks(batch, broken);
      }
    }

    /** redisAsyncHandleWrite on a connected context */
    method HandleWrite(failed: bool, all: bool)
      requires Ready() && !aborted
      modifies this, replies, replies.repr
      ensures Valid() && !inCallback && fresh(replies.repr - old(replies.repr))
      ensures Value() == Step(old(Value()), if failed then IoFails else Written(all))
    {
      hide CallbackList.Valid, Disconnected;
      if failed {
        err := true;
        AsyncDisconnect();
      } else {
        unsent := unsent && !all;
      }
    }
  }

  lemma {:induction false} InsideAborted(s: State, acts: seq<Act>)
    ensures InsideAll(s, acts).aborted == s.aborted
    decreases |acts|
  {
    if acts != [] { InsideAborted(Inside(s, acts[0]), acts[1..]); }
  }

  lemma AbortedKept(s: State, reply: Option<Reply>)
    requires s.queue != []
    ensures Consumed(s, reply).aborted == s.aborted
  {
    var u := s.(queue := s.queue[1..], done := s.done + [Done(s.queue[0], reply)]);
    if s.queue[0].hasFn && s.script != [] { InsideAborted(u.(script := s.script[1..]), s.script[0]); }
  }
}
