/**
 The callback queue of an asynchronous context on plain commands: what each API
 call, reply and failure does to it, for any behaviour of the callbacks.
 */
module AsyncRuns {

  /** A registered callback; one without a function is consumed silently. */
  datatype Callback = Callback(id: int, hasFn: bool)

  datatype Reply = Plain(value: int) | ErrorReply(text: int)

  datatype Option<T> = None | Some(value: T)

  /** What user code may do with the context. */
  datatype Act = Issue(cb: Callback) | Disconnect | Free

  /** A consumed callback and the reply it was given; None for a NULL reply. */
  datatype Done = Done(cb: Callback, reply: Option<Reply>)

  /**
   `script` is what the callbacks to be run will do, run by run; a run beyond it
   does nothing.  `accepted` and `done` are history.
   */
  datatype State = State(
    queue: seq<Callback>,
    disconnecting: bool, freeing: bool,
    err: bool,
    unsent: bool,
    script: seq<seq<Act>>,
    accepted: seq<Callback>, done: seq<Done>,
    freed: nat, aborted: bool)

  function Init(script: seq<seq<Act>>): State {
    State([], false, false, false, false, script, [], [], 0, false)
  }

  predicate Closing(s: State) {
    s.disconnecting || s.freeing
  }

  /** __redisAsyncCommand on a plain command */
  function Command(s: State, cb: Callback): State {
    if Closing(s) then s
    else s.(queue := s.queue + [cb], accepted := s.accepted + [cb], unsent := true)
  }

  /** An API call made while a callback runs: nothing is freed yet. */
  function Inside(s: State, a: Act): State {
    match a
    case Issue(cb) => Command(s, cb)
    case Disconnect => s.(disconnecting := true)
    case Free => s.(freeing := true)
  }

  function InsideAll(s: State, acts: seq<Act>): (t: State)
    decreases |acts|
  {
    if acts == [] then s else InsideAll(Inside(s, acts[0]), acts[1..])
  }

  /** __redisRunCallback */
  function Called(s: State, cb: Callback): State {
    if !cb.hasFn || s.script == [] then s
    else InsideAll(s.(script := s.script[1..]), s.script[0])
  }

  /** __redisShiftCallback, and the callback with this reply */
  function Consumed(s: State, reply: Option<Reply>): State
    requires s.queue != []
  {
    Called(s.(queue := s.queue[1..], done := s.done + [Done(s.queue[0], reply)]), s.queue[0])
  }

  /** While closing, callbacks change nothing but flags and what they were going to do. */
  lemma {:induction false} ClosedInside(s: State, acts: seq<Act>)
    requires Closing(s)
    ensures var t := InsideAll(s, acts);
      t == s.(disconnecting := t.disconnecting, freeing := t.freeing) && (s.disconnecting ==> t.disconnecting) && (s.freeing ==> t.freeing)
    decreases |acts|
  {
    if acts != [] { ClosedInside(Inside(s, acts[0]), acts[1..]); }
  }

  lemma ClosedConsumed(s: State, reply: Option<Reply>)
    requires Closing(s) && s.queue != []
    ensures var t := Consumed(s, reply);
      && t.queue == s.queue[1..] && t.done == s.done + [Done(s.queue[0], reply)]
      && t.accepted == s.accepted && Closing(t) && t.freed == s.freed && t.aborted == s.aborted && t.err == s.err
  {
    var u := s.(queue := s.queue[1..], done := s.done + [Done(s.queue[0], reply)]);
    if s.queue[0].hasFn && s.script != [] {
      ClosedInside(u.(script := s.script[1..]), s.script[0]);
    }
  }

  /** __redisAsyncFree: pending callbacks get a NULL reply, then the context goes. */
  function Freed(s: State): State
    requires s.queue != [] ==> Closing(s)
    decreases |s.queue|
  {
    if s.queue == [] then s.(freed := s.freed + 1)
    else
      ClosedConsumed(s, None);
      Freed(Consumed(s, None))
  }

  lemma FreedStep(s: State)
    requires Closing(s) && s.queue != []
    ensures var t := Consumed(s, None); Closing(t) && t.queue == s.queue[1..] && Freed(t) == Freed(s)
  {
    ClosedConsumed(s, None);
  }

  /** __redisAsyncDisconnect; without an error no callback may be pending. */
  function Disconnected(s: State): State
    requires s.err || s.queue == []
  {
    Freed(if s.err then s.(disconnecting := true) else s)
  }

  /** An API call made outside any callback. */
  function Outside(s: State, a: Act): State {
    match a
    case Issue(cb) => Command(s, cb)
    case Disconnect => var t := s.(disconnecting := true); if t.queue == [] then Disconnected(t) else t
    case Free => Freed(s.(freeing := true))
  }

  /** redisProcessCallbacks on the replies a read made available; `broken`: a reader error follows them. */
  function Process(s: State, batch: seq<Reply>, broken: bool): State
    decreases |batch|
  {
    if batch == [] then
      if broken then Disconnected(s.(err := true))
      else if s.disconnecting && !s.unsent && s.queue == [] then Disconnected(s)
      else s
    else if s.queue == [] then
      if batch[0].ErrorReply? then Disconnected(s.(err := true)) else s.(aborted := true)
    else
      var t := Consumed(s, Some(batch[0]));
      if s.queue[0].hasFn && t.freeing then Freed(t) else Process(t, batch[1..], broken)
  }

  /** What happens to a live context: a call by the user, a read, a write, or a failure of either. */
  datatype Event =
    | User(act: Act)
    | Readable(batch: seq<Reply>, broken: bool)
    | Written(all: bool)
    | IoFails

  function Step(s: State, e: Event): State {
    match e
    case User(a) => Outside(s, a)
    case Readable(batch, broken) => Process(s, batch, broken)
    case Written(all) => s.(unsent := s.unsent && !all)
    case IoFails => Disconnected(s.(err := true))
  }

  predicate Live(s: State) {
    s.freed == 0 && !s.aborted
  }

  /** A run: nothing happens to a context that is gone. */
  predicate CanRun(s: State, es: seq<Event>)
    decreases |es|
  {
    es == [] || (Live(s) && CanRun(Step(s, es[0]), es[1..]))
  }

  function Run(s: State, es: seq<Event>): State
    decreases |es|
  {
    if es == [] then s else Run(Step(s, es[0]), es[1..])
  }

  function Offered(e: Event): seq<Reply> {
    if e.Readable? then e.batch else []
  }

  function Replies(es: seq<Event>): seq<Reply> {
    if es == [] then [] else Offered(es[0]) + Replies(es[1..])
  }

  // ---- the queue keeps what it accepted

  function Cbs(ds: seq<Done>): seq<Callback> {
    if ds == [] then [] else Cbs(ds[..|ds|-1]) + [ds[|ds|-1].cb]
  }

  lemma CbsPush(ds: seq<Done>, d: Done)
    ensures Cbs(ds + [d]) == Cbs(ds) + [d.cb]
  {
    assert (ds + [d])[..|ds|] == ds;
  }

  /** Every accepted callback is waiting or was consumed, in the order of acceptance. */
  predicate Conserved(s: State) {
    s.accepted == Cbs(s.done) + s.queue
  }

  lemma ConservedCommand(s: State, cb: Callback)
    requires Conserved(s)
    ensures Conserved(Command(s, cb))
  {
    assert Cbs(s.done) + s.queue + [cb] == Cbs(s.done) + (s.queue + [cb]);
  }

  /** A callback's calls add to the queue and to what was accepted, and touch neither the rest of the history nor the context. */
  ghost predicate Kept(s: State, t: State) {
    Conserved(t) && t.done == s.done && t.freed == s.freed && t.aborted == s.aborted && t.err == s.err
  }

  lemma InsideOne(s: State, a: Act)
    requires Conserved(s)
    ensures Kept(s, Inside(s, a))
  {
    if a.Issue? { ConservedCommand(s, a.cb); }
  }

  lemma {:induction false} InsideKeeps(s: State, acts: seq<Act>)
    requires Conserved(s)
    ensures Kept(s, InsideAll(s, acts))
    decreases |acts|
  {
    if acts != [] {
      InsideOne(s, acts[0]);
      InsideKeeps(Inside(s, acts[0]), acts[1..]);
    }
  }

  lemma ConsumedKeeps(s: State, reply: Option<Reply>)
    requires Conserved(s) && s.queue != []
    ensures var t := Consumed(s, reply);
      && Conserved(t) && t.done == s.done + [Done(s.queue[0], reply)]
      && t.freed == s.freed && t.aborted == s.aborted && t.err == s.err
  {
    var d := Done(s.queue[0], reply);
    var u := s.(queue := s.queue[1..], done := s.done + [d]);
    CbsPush(s.done, d);
    assert Cbs(s.done) + s.queue == Cbs(s.done) + [d.cb] + s.queue[1..];
    if d.cb.hasFn && s.script != [] {
      InsideKeeps(u.(script := s.script[1..]), s.script[0]);
    }
  }

  function Nulls(cbs: seq<Callback>): seq<Done> {
    if cbs == [] then [] else [Done(cbs[0], None)] + Nulls(cbs[1..])
  }

  /** Freeing consumes every pending callback with a NULL reply, accepts nothing and frees once. */
  lemma {:induction false} FreedKeeps(s: State)
    requires Conserved(s) && (s.queue != [] ==> Closing(s))
    ensures var t := Freed(s);
      && Conserved(t) && t.queue == [] && t.done == s.done + Nulls(s.queue)
      && t.accepted == s.accepted && t.freed == s.freed + 1 && t.aborted == s.aborted && t.err == s.err
    decreases |s.queue|
  {
    if s.queue == [] {
      assert s.done + [] == s.done;
    } else {
      ClosedConsumed(s, None);
      ConsumedKeeps(s, None);
      FreedKeeps(Consumed(s, None));
      assert s.done + [Done(s.queue[0], None)] + Nulls(s.queue[1..]) == s.done + Nulls(s.queue);
    }
  }

  /** The replies given out are those of the server, in order, and then only NULLs. */
  predicate Answered(ds: seq<Done>, rs: seq<Reply>) {
    |rs| <= |ds|
    && (forall i | 0 <= i < |rs| :: ds[i].reply == Some(rs[i]))
    && (forall i | |rs| <= i < |ds| :: ds[i].reply == None)
  }

  /** Before it is gone, a context has no error and every consumed callback has had its own reply. */
  predicate Inv(s: State, got: seq<Reply>) {
    && Conserved(s) && Answered(s.done, got)
    && s.freed <= 1
    && (s.freed == 0 ==> !s.err && |got| == |s.done|)
    && (s.freed == 1 ==> s.queue == [])
  }

  lemma {:induction false} NullsAreNone(cbs: seq<Callback>)
    ensures |Nulls(cbs)| == |cbs| && forall i | 0 <= i < |cbs| :: Nulls(cbs)[i].reply == None
  {
    if cbs != [] { NullsAreNone(cbs[1..]); }
  }

  lemma InvFreed(s: State, got: seq<Reply>)
    requires Conserved(s) && Answered(s.done, got) && s.freed == 0 && (s.queue != [] ==> Closing(s))
    ensures Inv(Freed(s), got) && Freed(s).freed == 1 && Freed(s).aborted == s.aborted
  {
    FreedKeeps(s);
    NullsAreNone(s.queue);
  }

  lemma InvDisconnected(s: State, got: seq<Reply>)
    requires Conserved(s) && Answered(s.done, got) && s.freed == 0 && (s.err || s.queue == [])
    ensures Inv(Disconnected(s), got) && Disconnected(s).freed == 1 && Disconnected(s).aborted == s.aborted
  {
    InvFreed(if s.err then s.(disconnecting := true) else s, got);
  }

  lemma InvConsumed(s: State, r: Reply, got: seq<Reply>)
    requires Inv(s, got) && Live(s) && s.queue != []
    ensures Inv(Consumed(s, Some(r)), got + [r]) && Live(Consumed(s, Some(r)))
  {
    ConsumedKeeps(s, Some(r));
  }

  lemma OneMore(got: seq<Reply>, batch: seq<Reply>, m: nat)
    requires m < |batch|
    ensures got + [batch[0]] + batch[1..][..m] == got + batch[..m + 1]
  {
    assert batch[..m + 1] == [batch[0]] + batch[1..][..m];
  }

  /** What a read leaves: all of its replies given out, or a context that is gone, or one reply too many. */
  ghost predicate After(t: State, batch: seq<Reply>, got: seq<Reply>, n: nat) {
    && n <= |batch| && Inv(t, got + batch[..n])
    && (Live(t) ==> n == |batch|)
    && (t.aborted ==> n < |batch| && t.queue == [] && t.freed == 0)
  }

  /** One read: the callbacks consumed get the replies of a front part of the batch, all of it unless the context goes. */
  lemma {:induction false} InvProcess(s: State, batch: seq<Reply>, broken: bool, got: seq<Reply>) returns (n: nat)
    requires Inv(s, got) && Live(s)
    ensures After(Process(s, batch, broken), batch, got, n)
    decreases |batch|
  {
    n := 0;
    assert got + batch[..0] == got;
    if batch == [] {
      if broken { InvDisconnected(s.(err := true), got); }
      else if s.disconnecting && !s.unsent && s.queue == [] { InvDisconnected(s, got); }
    } else if s.queue == [] {
      if batch[0].ErrorReply? { InvDisconnected(s.(err := true), got); }
    } else {
      InvConsumed(s, batch[0], got);
      var t := Consumed(s, Some(batch[0]));
      var got' := got + [batch[0]];
      if s.queue[0].hasFn && t.freeing {
        InvFreed(t, got');
        n := 1;
        assert batch[..1] == [batch[0]];
      } else {
        var m := InvProcess(t, batch[1..], broken, got');
        n := m + 1;
        OneMore(got, batch, m);
      }
    }
  }

  lemma InvOutside(s: State, a: Act, got: seq<Reply>)
    requires Inv(s, got) && Live(s)
    ensures Inv(Outside(s, a), got) && !Outside(s, a).aborted
  {
    match a
    case Issue(cb) => ConservedCommand(s, cb);
    case Disconnect => if s.queue == [] { InvDisconnected(s.(disconnecting := true), got); }
    case Free => InvFreed(s.(freeing := true), got);
  }

  /** rs is a front part of all. */
  predicate FrontOf(rs: seq<Reply>, all: seq<Reply>) {
    |rs| <= |all| && rs == all[..|rs|]
  }

  /** A context stopped by an unasked-for reply had answered everything it accepted. */
  ghost predicate TooMany(t: State, got: seq<Reply>, all: seq<Reply>) {
    t.aborted ==> |got| < |all| && t.queue == [] && t.freed == 0
  }

  lemma InvStep(s: State, e: Event, got: seq<Reply>) returns (first: seq<Reply>)
    requires Inv(s, got) && Live(s)
    ensures FrontOf(first, Offered(e)) && (Live(Step(s, e)) ==> first == Offered(e))
    ensures Inv(Step(s, e), got + first) && TooMany(Step(s, e), first, Offered(e))
  {
    first := [];
    assert got + [] == got;
    match e
    case User(a) => InvOutside(s, a, got);
    case Readable(batch, broken) =>
      var n := InvProcess(s, batch, broken, got);
      first := batch[..n];
      assert batch[..|batch|] == batch;
    case Written(_) =>
    case IoFails => InvDisconnected(s.(err := true), got);
  }

  lemma FrontMore(first: seq<Reply>, off: seq<Reply>, rest: seq<Reply>)
    requires FrontOf(first, off)
    ensures FrontOf(first, off + rest)
  {
  }

  lemma FrontJoin(off: seq<Reply>, rest: seq<Reply>, all: seq<Reply>)
    requires FrontOf(rest, all)
    ensures FrontOf(off + rest, off + all)
  {
    assert (off + all)[..|off + rest|] == off + all[..|rest|];
  }

  lemma {:induction false} InvRun(s: State, es: seq<Event>, got: seq<Reply>) returns (more: seq<Reply>)
    requires Inv(s, got) && CanRun(s, es)
    ensures FrontOf(more, Replies(es)) && Inv(Run(s, es), got + more)
    ensures es != [] ==> TooMany(Run(s, es), more, Replies(es))
    decreases |es|
  {
    hide Step, Inv;
    if es == [] {
      more := [];
      assert got + [] == got;
    } else {
      var first := InvStep(s, es[0], got);
      if es[1..] == [] {
        more := first;
        FrontMore(first, Offered(es[0]), Replies(es[1..]));
        assert Run(s, es) == Run(Step(s, es[0]), []) == Step(s, es[0]);
      } else {
        var t := Step(s, es[0]);
        assert CanRun(t, es[1..]) && Live(t);
        var rest := InvRun(t, es[1..], got + first);
        assert first == Offered(es[0]) && Run(s, es) == Run(t, es[1..]);
        more := first + rest;
        assert got + first + rest == got + more;
        FrontJoin(first, rest, Replies(es[1..]));
      }
    }
  }

  /**
   Exactly once: in every run, whatever the callbacks do, each accepted callback is still waiting or was
   consumed once, in the order of acceptance; the k-th consumed one was given the server's k-th reply, and
   the ones left when the context goes are given NULL.  The context goes at most once, leaving none behind.
   The assertion on a reply nobody waits for can only fail if the server sent more replies than there were commands.
   */
  lemma ExactlyOnce(script: seq<seq<Act>>, es: seq<Event>) returns (got: seq<Reply>)
    requires CanRun(Init(script), es)
    ensures var t := Run(Init(script), es);
      && t.accepted == Cbs(t.done) + t.queue
      && FrontOf(got, Replies(es)) && Answered(t.done, got)
      && t.freed <= 1
      && (t.freed == 0 ==> |got| == |t.done|)
      && (t.freed == 1 ==> t.queue == [] && t.accepted == Cbs(t.done))
      && (t.aborted ==> |t.accepted| < |Replies(es)|)
  {
    var none: seq<Reply> := [];
    assert Cbs([]) == [];
    got := InvRun(Init(script), es, none);
    assert none + got == got;
    var t := Run(Init(script), es);
    assert Cbs(t.done) + [] == Cbs(t.done);
    CbsLength(t.done);
  }

  lemma {:induction false} CbsLength(ds: seq<Done>)
    ensures |Cbs(ds)| == |ds|
  {
    if ds != [] { CbsLength(ds[..|ds|-1]); }
  }

  // ---- nothing is accepted while closing

  lemma {:induction false} ClosedFreed(s: State)
    requires Closing(s)
    ensures Freed(s).accepted == s.accepted && Closing(Freed(s))
    decreases |s.queue|
  {
    if s.queue != [] {
      ClosedConsumed(s, None);
      ClosedFreed(Consumed(s, None));
    }
  }

  lemma {:induction false} ClosedProcess(s: State, batch: seq<Reply>, broken: bool)
    requires Closing(s)
    ensures Process(s, batch, broken).accepted == s.accepted && Closing(Process(s, batch, broken))
    decreases |batch|
  {
    if batch == [] {
      if broken { ClosedFreed(s.(err := true, disconnecting := true)); }
      else if s.disconnecting && !s.unsent && s.queue == [] { ClosedFreed(if s.err then s.(disconnecting := true) else s); }
    } else if s.queue == [] {
      if batch[0].ErrorReply? { ClosedFreed(s.(err := true, disconnecting := true)); }
    } else {
      ClosedConsumed(s, Some(batch[0]));
      var t := Consumed(s, Some(batch[0]));
      if s.queue[0].hasFn && t.freeing { ClosedFreed(t); } else { ClosedProcess(t, batch[1..], broken); }
    }
  }

  lemma ClosedStep(s: State, e: Event)
    requires Closing(s)
    ensures Step(s, e).accepted == s.accepted && Closing(Step(s, e))
  {
    match e
    case User(a) =>
      if a.Disconnect? && s.queue == [] {
        ClosedFreed(s.(disconnecting := true));
      } else if a.Free? {
        ClosedFreed(s.(freeing := true));
      }
    case Readable(batch, broken) => ClosedProcess(s, batch, broken);
    case Written(_) =>
    case IoFails => ClosedFreed(s.(err := true, disconnecting := true));
  }

  /** Once a disconnect or a free was asked for, no later command of the run is accepted, not even from a callback. */
  lemma {:induction false} NothingAccepted(s: State, es: seq<Event>)
    requires Closing(s)
    ensures Run(s, es).accepted == s.accepted
    decreases |es|
  {
    if es != [] {
      ClosedStep(s, es[0]);
      NothingAccepted(Step(s, es[0]), es[1..]);
    }
  }

  // ---- an end without an error

  predicate NoFree(acts: seq<Act>) {
    forall i | 0 <= i < |acts| :: !acts[i].Free?
  }

  predicate NoFrees(script: seq<seq<Act>>) {
    forall i | 0 <= i < |script| :: NoFree(script[i])
  }

  predicate NoFreeEvents(es: seq<Event>) {
    forall i | 0 <= i < |es| :: !(es[i].User? && es[i].act.Free?)
  }

  /** Nobody was given a NULL reply. */
  predicate AllGiven(ds: seq<Done>) {
    forall i | 0 <= i < |ds| :: ds[i].reply.Some?
  }

  /** A context that nobody has freed or will free. */
  predicate Polite(s: State) {
    s.freed == 0 && !s.err && !s.freeing && NoFrees(s.script) && AllGiven(s.done)
  }

  /** Still there, or gone with an error, or gone because a disconnect was asked for and everybody had a reply. */
  predicate EndsWell(t: State) {
    if t.freed == 0 then Polite(t) else t.err || (t.disconnecting && t.queue == [] && AllGiven(t.done))
  }

  lemma {:induction false} PoliteInside(s: State, acts: seq<Act>)
    requires !s.freeing && NoFree(acts)
    ensures var t := InsideAll(s, acts);
      !t.freeing && t.script == s.script && t.done == s.done && t.err == s.err && t.freed == s.freed
    decreases |acts|
  {
    if acts != [] {
      assert !acts[0].Free?;
      PoliteInside(Inside(s, acts[0]), acts[1..]);
    }
  }

  lemma PoliteConsumed(s: State, r: Reply)
    requires Polite(s) && s.queue != []
    ensures Polite(Consumed(s, Some(r)))
  {
    var u := s.(queue := s.queue[1..], done := s.done + [Done(s.queue[0], Some(r))]);
    if s.queue[0].hasFn && s.script != [] {
      assert NoFree(s.script[0]);
      PoliteInside(u.(script := s.script[1..]), s.script[0]);
    }
  }

  lemma {:induction false} FreedError(s: State)
    requires s.queue != [] ==> Closing(s)
    ensures Freed(s).err == s.err && Freed(s).freed > 0
    decreases |s.queue|
  {
    if s.queue != [] {
      ClosedConsumed(s, None);
      FreedError(Consumed(s, None));
    }
  }

  lemma DisconnectedWell(s: State)
    requires s.err || (s.disconnecting && s.queue == [] && AllGiven(s.done))
    ensures EndsWell(Disconnected(s)) && Disconnected(s).freed > 0
  {
    FreedError(if s.err then s.(disconnecting := true) else s);
  }

  lemma {:induction false} PoliteProcess(s: State, batch: seq<Reply>, broken: bool)
    requires Polite(s)
    ensures EndsWell(Process(s, batch, broken))
    decreases |batch|
  {
    if batch == [] {
      if broken { DisconnectedWell(s.(err := true)); }
      else if s.disconnecting && !s.unsent && s.queue == [] { DisconnectedWell(s); }
    } else if s.queue == [] {
      if batch[0].ErrorReply? { DisconnectedWell(s.(err := true)); }
    } else {
      PoliteConsumed(s, batch[0]);
      PoliteProcess(Consumed(s, Some(batch[0])), batch[1..], broken);
    }
  }

  /** A read that finds no reply completes a disconnect exactly when one was asked for, all output is written and nobody waits. */
  lemma PoliteStep(s: State, e: Event)
    requires Polite(s) && !(e.User? && e.act.Free?)
    ensures EndsWell(Step(s, e))
    ensures e == Readable([], false) ==> (Step(s, e).freed > 0 <==> s.disconnecting && !s.unsent && s.queue == [])
  {
    match e
    case User(a) => if a.Disconnect? && s.queue == [] { DisconnectedWell(s.(disconnecting := true)); }
    case Readable(batch, broken) => PoliteProcess(s, batch, broken);
    case Written(_) =>
    case IoFails => DisconnectedWell(s.(err := true));
  }

  lemma {:induction false} PoliteRun(s: State, es: seq<Event>)
    requires Polite(s) && CanRun(s, es) && NoFreeEvents(es)
    ensures EndsWell(Run(s, es))
    decreases |es|
  {
    if es != [] {
      PoliteStep(s, es[0]);
      var t := Step(s, es[0]);
      assert NoFreeEvents(es[1..]);
      if es[1..] != [] { PoliteRun(t, es[1..]); }
    }
  }

  /**
   A clean end: in every run in which nobody frees the context, neither from outside nor from a
   callback, a context that has gone without an error was asked to disconnect, and every callback
   it ever accepted was given a reply of its own, never NULL.
   */
  lemma CleanEnd(script: seq<seq<Act>>, es: seq<Event>)
    requires CanRun(Init(script), es) && NoFrees(script) && NoFreeEvents(es)
    ensures var t := Run(Init(script), es);
      t.freed > 0 && !t.err ==> t.disconnecting && t.accepted == Cbs(t.done) && AllGiven(t.done)
  {
    PoliteRun(Init(script), es);
    var got := ExactlyOnce(script, es);
  }
}
