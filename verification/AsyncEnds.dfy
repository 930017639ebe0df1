/** How a context ends: by a free, outside or inside a callback, by a failure, or by a disconnect once everybody is served. */
module AsyncEnds {
  import opened AsyncRuns

  /** From s to t everybody who waited was consumed with a NULL reply, in order, nothing was accepted, and the context is gone. */
  ghost predicate AllNull(s: State, t: State) {
    && t.freed == s.freed + 1 && t.queue == [] && t.accepted == s.accepted && t.aborted == s.aborted
    && |t.done| == |s.done| + |s.queue| && t.done[..|s.done|] == s.done
    && forall i | 0 <= i < |s.queue| :: t.done[|s.done| + i] == Done(s.queue[i], None)
  }

  lemma {:induction false} NullsAre(cbs: seq<Callback>)
    ensures |Nulls(cbs)| == |cbs| && forall i | 0 <= i < |cbs| :: Nulls(cbs)[i] == Done(cbs[i], None)
  {
    if cbs != [] { NullsAre(cbs[1..]); }
  }

  lemma FreedAllNull(s: State)
    requires Conserved(s) && (s.queue != [] ==> Closing(s))
    ensures AllNull(s, Freed(s)) && Freed(s).err == s.err
  {
    FreedKeeps(s);
    NullsAre(s.queue);
  }

  /** The flags are not part of it. */
  lemma SameNulls(s: State, u: State, t: State)
    requires AllNull(u, t)
    requires u.queue == s.queue && u.done == s.done && u.accepted == s.accepted && u.freed == s.freed && u.aborted == s.aborted
    ensures AllNull(s, t)
  {
  }

  lemma FreeOutside(s: State)
    requires Conserved(s)
    ensures AllNull(s, Step(s, User(Free))) && Step(s, User(Free)).err == s.err
  {
    hide AllNull, Freed;
    var u := s.(freeing := true);
    FreedAllNull(u);
    SameNulls(s, u, Freed(u));
  }

  lemma FailedEnds(s: State)
    requires Conserved(s)
    ensures AllNull(s, Step(s, IoFails)) && Step(s, IoFails).err
    ensures Step(s, Readable([], true)) == Step(s, IoFails)
  {
    hide AllNull, Freed;
    var u := s.(err := true, disconnecting := true);
    FreedAllNull(u);
    SameNulls(s, u, Freed(u));
  }

  /** A disconnect ends the context at once if nobody waits, and else asks for it. */
  lemma DisconnectOutside(s: State)
    requires Conserved(s)
    ensures if s.queue == [] then AllNull(s, Step(s, User(Disconnect))) && Step(s, User(Disconnect)).err == s.err
            else Step(s, User(Disconnect)) == s.(disconnecting := true)
  {
    hide AllNull, Freed;
    var u := s.(disconnecting := true);
    if s.queue == [] {
      FreedAllNull(u);
      SameNulls(s, u, Freed(u));
    }
  }

  lemma {:induction false} RunOneMore(s: State, es: seq<Event>, e: Event)
    requires CanRun(s, es) && Live(Run(s, es))
    ensures CanRun(s, es + [e]) && Run(s, es + [e]) == Step(Run(s, es), e)
    decreases |es|
  {
    if es == [] {
      assert es + [e] == [e] && [e][1..] == [];
    } else {
      RunOneMore(Step(s, es[0]), es[1..], e);
      assert (es + [e])[1..] == es[1..] + [e];
    }
  }

  lemma ReachedConserved(script: seq<seq<Act>>, es: seq<Event>)
    requires CanRun(Init(script), es)
    ensures Conserved(Run(Init(script), es))
  {
    var got := ExactlyOnce(script, es);
  }

  /**
   A free frees: after any run that leaves the context alive, a free, a failing read or write, and a reader
   error each end it at once; everybody who waited is given NULL, in order, and nothing is accepted.  Only
   the last two leave an error.
   */
  lemma FreeFrees(script: seq<seq<Act>>, es: seq<Event>, e: Event)
    requires CanRun(Init(script), es) && Live(Run(Init(script), es))
    requires e == User(Free) || e == IoFails || e == Readable([], true)
    ensures CanRun(Init(script), es + [e])
    ensures var s, t := Run(Init(script), es), Run(Init(script), es + [e]);
      AllNull(s, t) && t.freed == 1 && t.err == (e != User(Free))
  {
    var got := InvRun(Init(script), es, []);
    ReachedConserved(script, es);
    RunOneMore(Init(script), es, e);
    FreeOutside(Run(Init(script), es));
    FailedEnds(Run(Init(script), es));
  }

  // ---- inside a callback

  /** The commands a callback gets accepted: those it issues before it asks for an end. */
  function AcceptedOf(acts: seq<Act>): seq<Callback> {
    if acts == [] || !acts[0].Issue? then [] else [acts[0].cb] + AcceptedOf(acts[1..])
  }

  lemma {:induction false} InsideIs(s: State, acts: seq<Act>)
    ensures var t := InsideAll(s, acts); var more := if Closing(s) then [] else AcceptedOf(acts);
      && t.queue == s.queue + more && t.accepted == s.accepted + more
      && t.disconnecting == (s.disconnecting || Disconnect in acts) && t.freeing == (s.freeing || Free in acts)
      && t.unsent == (s.unsent || more != [])
      && t.done == s.done && t.err == s.err && t.freed == s.freed && t.aborted == s.aborted && t.script == s.script
    decreases |acts|
  {
    if acts == [] {
      assert s.queue + [] == s.queue && s.accepted + [] == s.accepted;
    } else {
      InsideIs(Inside(s, acts[0]), acts[1..]);
      InsideFirst(s, acts);
    }
  }

  lemma InsideFirst(s: State, acts: seq<Act>)
    requires acts != []
    ensures Disconnect in acts <==> acts[0] == Disconnect || Disconnect in acts[1..]
    ensures Free in acts <==> acts[0] == Free || Free in acts[1..]
    ensures acts[0].Issue? ==> var cb, more := acts[0].cb, AcceptedOf(acts[1..]);
      s.queue + [cb] + more == s.queue + ([cb] + more) && s.accepted + [cb] + more == s.accepted + ([cb] + more)
    ensures s.queue + [] + [] == s.queue + [] && s.accepted + [] + [] == s.accepted + []
  {
    assert acts == [acts[0]] + acts[1..];
  }

  /** One reply: its callback gets it, and runs what it is going to do. */
  lemma ConsumedIs(s: State, r: Reply)
    requires s.queue != []
    ensures var t := Consumed(s, Some(r)); var acts := if s.queue[0].hasFn && s.script != [] then s.script[0] else [];
      var more := if Closing(s) then [] else AcceptedOf(acts);
      && t.queue == s.queue[1..] + more && t.accepted == s.accepted + more
      && t.disconnecting == (s.disconnecting || Disconnect in acts) && t.freeing == (s.freeing || Free in acts)
      && t.unsent == (s.unsent || more != [])
      && t.done == s.done + [Done(s.queue[0], Some(r))] && t.err == s.err && t.freed == s.freed && t.aborted == s.aborted
  {
    var u := s.(queue := s.queue[1..], done := s.done + [Done(s.queue[0], Some(r))]);
    if s.queue[0].hasFn && s.script != [] {
      InsideIs(u.(script := s.script[1..]), s.script[0]);
    } else {
      assert u.queue + [] == u.queue && u.accepted + [] == u.accepted;
    }
  }

  /**
   A free asked for inside a callback takes effect when the reply it was called with has been processed:
   that callback has its reply, everybody behind it, those it had just put there included, is given NULL,
   and the rest of the read is dropped.
   */
  lemma FreeInside(s: State, batch: seq<Reply>, broken: bool)
    requires Conserved(s) && Live(s) && s.queue != [] && batch != [] && s.queue[0].hasFn && s.script != [] && Free in s.script[0]
    ensures var t, more := Step(s, Readable(batch, broken)), if Closing(s) then [] else AcceptedOf(s.script[0]);
      && t.freed == 1 && t.queue == [] && t.err == s.err && t.accepted == s.accepted + more
      && |t.done| == |s.done| + |s.queue| + |more| && t.done[..|s.done|] == s.done
      && t.done[|s.done|] == Done(s.queue[0], Some(batch[0]))
      && forall i | |s.done| < i < |t.done| :: t.done[i].reply == None
  {
    var u := Consumed(s, Some(batch[0]));
    ConsumedIs(s, batch[0]);
    ConsumedKeeps(s, Some(batch[0]));
    FreedAllNull(u);
    var t := Freed(u);
    assert t.done[..|s.done|] == u.done[..|s.done|] == s.done;
    assert t.done[|s.done|] == t.done[..|u.done|][|s.done|];
    forall i | |s.done| < i < |t.done| ensures t.done[i].reply == None {
      assert t.done[|u.done| + (i - |u.done|)] == Done(u.queue[i - |u.done|], None);
    }
  }

  // ---- replies

  /** A reply that nobody waits for: an error report ends the context, anything else stops it. */
  lemma Unasked(s: State, batch: seq<Reply>, broken: bool)
    requires Conserved(s) && Live(s) && s.queue == [] && batch != []
    ensures var t := Step(s, Readable(batch, broken));
      if batch[0].ErrorReply? then AllNull(s, t) && t.err else t == s.(aborted := true)
  {
    FreedAllNull(s.(err := true, disconnecting := true));
  }

  /** One reply for somebody whose callback asks for nothing: it is consumed, and the read goes on with the rest. */
  lemma OneReply(s: State, batch: seq<Reply>, broken: bool)
    requires Live(s) && s.queue != [] && batch != [] && !s.freeing
    requires !(s.queue[0].hasFn && s.script != [] && Free in s.script[0])
    ensures var t := Consumed(s, Some(batch[0]));
      Live(t) && !t.freeing && Step(s, Readable(batch, broken)) == Step(t, Readable(batch[1..], broken))
  {
    ConsumedIs(s, batch[0]);
  }

  /** Writing everything out is what a disconnect waits for. */
  lemma WrittenOut(s: State, all: bool)
    ensures Step(s, Written(all)) == s.(unsent := s.unsent && !all)
  {
  }

  /**
   A disconnect completes: when one was asked for, all output is written, and the server answers everybody
   who waits, the context goes without an error and everybody has had a reply of its own.
   */
  lemma {:induction false} DisconnectCompletes(s: State, batch: seq<Reply>)
    requires Conserved(s) && Live(s) && !s.err && s.disconnecting && !s.freeing && !s.unsent
    requires |batch| == |s.queue| && NoFrees(s.script)
    ensures var t := Step(s, Readable(batch, false));
      && t.freed == 1 && !t.err && t.queue == [] && t.accepted == s.accepted
      && |t.done| == |s.done| + |batch| && t.done[..|s.done|] == s.done
      && forall i | 0 <= i < |batch| :: t.done[|s.done| + i] == Done(s.queue[i], Some(batch[i]))
    decreases |batch|
  {
    if batch == [] {
      FreedAllNull(s);
    } else {
      var u := Consumed(s, Some(batch[0]));
      ConsumedIs(s, batch[0]);
      ConsumedKeeps(s, Some(batch[0]));
      assert s.accepted + [] == s.accepted && s.queue[1..] + [] == s.queue[1..];
      ScriptLater(s, batch[0]);
      OneReply(s, batch, false);
      DisconnectCompletes(u, batch[1..]);
      var t := Step(u, Readable(batch[1..], false));
      assert t.done[..|s.done|] == t.done[..|u.done|][..|s.done|];
      forall i | 0 <= i < |batch| ensures t.done[|s.done| + i] == Done(s.queue[i], Some(batch[i])) {
        if i == 0 {
          assert t.done[|s.done|] == t.done[..|u.done|][|s.done|];
        } else {
          assert t.done[|u.done| + (i - 1)] == Done(u.queue[i - 1], Some(batch[1..][i - 1]));
        }
      }
    }
  }

  lemma ScriptLater(s: State, r: Reply)
    requires s.queue != [] && NoFrees(s.script)
    ensures NoFrees(Consumed(s, Some(r)).script)
    ensures s.queue[0].hasFn && s.script != [] ==> Free !in s.script[0]
  {
    var u := s.(queue := s.queue[1..], done := s.done + [Done(s.queue[0], Some(r))]);
    if s.queue[0].hasFn && s.script != [] {
      assert NoFree(s.script[0]);
      InsideIs(u.(script := s.script[1..]), s.script[0]);
    }
  }
}
