/**
 How the steps of the protocol move the view of one diary, and what every move keeps,
 whatever version an edit claims to have read.
 */
module DiaryMoves {
  import opened DiaryProtocol
  import opened DiaryHistory

  /** atP: at the preferred site. */
  datatype Move =
    | Stay
    | Knock                            // an attempt that finds the lock taken
    | Take(req: Req, atP: bool)
    | Look(atP: bool)
    | Quit(atP: bool)
    | Mark(entry: Entry, atP: bool)
    | Keep(atP: bool)
    | Pass(atP: bool)
    | Leave
    | Land(entry: Entry, atP: bool)
    | Open

  function CommitAt(v: View, atP: bool): Commit {
    if atP then v.cp else v.cr
  }

  function WithCommit(v: View, atP: bool, c: Commit): View {
    if atP then v.(cp := c) else v.(cr := c)
  }

  predicate Allowed(v: View, m: Move) {
    match m
    case Stay => true
    case Knock => v.lock != 0
    case Take(req, atP) => v.lock == 0 && req.kind == (if atP then Fast else Slow)
    case Look(atP) => CommitAt(v, atP).Locked?
    case Quit(atP) => CommitAt(v, atP).Conflict?
    case Mark(_, atP) => CommitAt(v, atP).Checked?
    case Keep(atP) => CommitAt(v, atP).Stamped?
    case Pass(atP) => CommitAt(v, atP).Pushed?
    case Leave => v.cp.Queued?
    case Land(e, atP) => if atP then v.qr != [] && v.qr[0] == e else v.qp != [] && v.qp[0] == e
    case Open => v.held != []
  }

  function Looked(v: View, req: Req): Commit {
    if NoConflict(v.lp, req.startTs) then Checked(req) else Conflict(req)
  }

  function Kept(v: View, atP: bool, c: Commit): View
    requires c.Stamped?
  {
    if atP then v.(lp := v.lp + [c.entry], cp := Pushed(c.req, c.entry))
    else v.(lr := v.lr + [c.entry], cr := Pushed(c.req, c.entry))
  }

  function Passed(v: View, atP: bool, c: Commit): View
    requires c.Pushed?
  {
    var after := if c.req.kind == Fast then Queued(c.req) else Idle;
    if atP then v.(qp := v.qp + [c.entry], cp := after) else v.(qr := v.qr + [c.entry], cr := after)
  }

  function Landed(v: View, atP: bool, e: Entry): View
    requires if atP then v.qr != [] else v.qp != []
  {
    if atP then v.(qr := v.qr[1..], lp := v.lp + [e], held := [e]) else v.(qp := v.qp[1..], lr := v.lr + [e])
  }

  function Moved(v: View, m: Move): View
    requires Allowed(v, m)
  {
    match m
    case Stay => v
    case Knock => v.(lock := v.lock + 1)
    case Take(req, atP) => WithCommit(v.(lock := 1), atP, Locked(req))
    case Look(atP) => WithCommit(v, atP, Looked(v, CommitAt(v, atP).req))
    case Quit(atP) => WithCommit(v.(lock := 0), atP, Idle)
    case Mark(e, atP) => WithCommit(v.(all := v.all + [e]), atP, Stamped(CommitAt(v, atP).req, e))
    case Keep(atP) => Kept(v, atP, CommitAt(v, atP))
    case Pass(atP) => Passed(v, atP, CommitAt(v, atP))
    case Leave => v.(lock := 0, cp := Idle)
    case Land(e, atP) => Landed(v, atP, e)
    case Open => v.(lock := 0, held := [])
  }

  // ---- the move of a step

  function StampEntry(st: State, s: Site): Entry
    requires At(st, s).commit.Checked?
  {
    var c := StampRec(st, s);
    Entry(c.ver, c.payload, By(s, |st.commits|))
  }

  lemma MarkIs(v: View, e: Entry, atP: bool, c: Commit)
    requires Allowed(v, Mark(e, atP)) && c == Stamped(CommitAt(v, atP).req, e)
    ensures Allowed(v, Mark(e, atP))
    ensures Moved(v, Mark(e, atP)) == if atP then v.(cp := c, all := v.all + [e]) else v.(cr := c, all := v.all + [e])
  {
  }

  lemma StampedCommit(st: State, s: Site)
    requires At(st, s).commit.Checked?
    ensures At(DoStamp(st, s), s).commit == Stamped(At(st, s).commit.req, StampEntry(st, s))
  {
  }

  function MoveOf(st: State, a: Action, d: int): Move
    requires Enabled(st, a)
  {
    var k, atP := Diary(d), a.s == Home(d);
    var n := At(st, a.s);
    if a.Begin? then
      if a.req.key != k then Stay
      else if Lock(At(st, Home(d)), k) != 0 then Knock
      else Take(a.req, atP)
    else if a.Store? then (if n.delivery.msg.key == k then Land(n.delivery.msg.entry, atP) else Stay)
    else if a.Unlock? then (if n.delivery.msg.key == k then Open else Stay)
    else if a.Send? || a.Receive? || a.Count? then Stay
    else if n.commit.req.key != k then Stay
    else
      match a
      case Check(_) => Look(atP)
      case Abort(_) => Quit(atP)
      case Stamp(_) => Mark(StampEntry(st, a.s), atP)
      case Push(_) => Keep(atP)
      case Enqueue(_) => Pass(atP)
      case _ => Leave
  }

  /** The step moves the view of the diary in the way MoveOf says. */
  predicate MovesBy(st: State, a: Action, d: int)
    requires Enabled(st, a)
  {
    var v, m := ViewOf(st, Diary(d), Home(d)), MoveOf(st, a, d);
    Allowed(v, m) && ViewOf(Next(st, a), Diary(d), Home(d)) == Moved(v, m)
  }

  lemma StampMoves(st: State, a: Action, d: int)
    requires KindInv(st) && Enabled(st, a) && Homed(d) && a.Stamp?
    ensures MovesBy(st, a, d)
  {
    hide DoBegin, DoCheck, DoAbort, DoStamp, DoPush, DoEnqueue, DoRelease, DoSend, DoReceive, DoStore, DoUnlock, DoCount, IssuedMsgs, EntriesOf, Committed;
    var p := Home(d);
    ViewStamp(st, a.s, Diary(d), p);
    StampedCommit(st, a.s);
    if At(st, a.s).commit.req.key == Diary(d) {
      MarkIs(ViewOf(st, Diary(d), p), StampEntry(st, a.s), a.s == p, At(DoStamp(st, a.s), a.s).commit);
    }
  }

  lemma PushMoves(st: State, a: Action, d: int)
    requires KindInv(st) && Enabled(st, a) && Homed(d) && a.Push?
    ensures MovesBy(st, a, d)
  {
    hide DoBegin, DoCheck, DoAbort, DoStamp, DoPush, DoEnqueue, DoRelease, DoSend, DoReceive, DoStore, DoUnlock, DoCount, IssuedMsgs, EntriesOf, Committed;
    ViewPush(st, a.s, Diary(d), Home(d));
    var v, m := ViewOf(st, Diary(d), Home(d)), MoveOf(st, a, d);
    if At(st, a.s).commit.req.key == Diary(d) {
      assert m == Keep(a.s == Home(d)) && Allowed(v, m);
    } else {
      assert m == Stay;
    }
  }

  lemma EnqueueMoves(st: State, a: Action, d: int)
    requires KindInv(st) && Enabled(st, a) && Homed(d) && a.Enqueue?
    ensures MovesBy(st, a, d)
  {
    hide DoBegin, DoCheck, DoAbort, DoStamp, DoPush, DoEnqueue, DoRelease, DoSend, DoReceive, DoStore, DoUnlock, DoCount, IssuedMsgs, EntriesOf, Committed;
    ViewEnqueue(st, a.s, Diary(d), Home(d));
    var v, m := ViewOf(st, Diary(d), Home(d)), MoveOf(st, a, d);
    if At(st, a.s).commit.req.key == Diary(d) {
      assert m == Pass(a.s == Home(d)) && Allowed(v, m);
    } else {
      assert m == Stay;
    }
  }

  lemma BeginMoves(st: State, a: Action, d: int)
    requires KindInv(st) && Enabled(st, a) && Homed(d) && a.Begin?
    ensures MovesBy(st, a, d)
  {
    ViewBegin(st, a.s, a.req, d, Home(d));
  }

  lemma CheckMoves(st: State, a: Action, d: int)
    requires KindInv(st) && Enabled(st, a) && Homed(d) && a.Check?
    ensures MovesBy(st, a, d)
  {
    hide DoBegin, DoCheck, DoAbort, DoStamp, DoPush, DoEnqueue, DoRelease, DoSend, DoReceive, DoStore, DoUnlock, DoCount, IssuedMsgs, EntriesOf, Committed;
    ViewCheck(st, a.s, d, Home(d));
    var v, m := ViewOf(st, Diary(d), Home(d)), MoveOf(st, a, d);
    if At(st, a.s).commit.req.key == Diary(d) {
      assert m == Look(a.s == Home(d)) && Allowed(v, m);
    } else {
      assert m == Stay;
    }
  }

  lemma AbortMoves(st: State, a: Action, d: int)
    requires KindInv(st) && Enabled(st, a) && Homed(d) && a.Abort?
    ensures MovesBy(st, a, d)
  {
    hide DoBegin, DoCheck, DoAbort, DoStamp, DoPush, DoEnqueue, DoRelease, DoSend, DoReceive, DoStore, DoUnlock, DoCount, IssuedMsgs, EntriesOf, Committed;
    ViewAbort(st, a.s, d, Home(d));
    var v, m := ViewOf(st, Diary(d), Home(d)), MoveOf(st, a, d);
    if At(st, a.s).commit.req.key == Diary(d) {
      assert m == Quit(a.s == Home(d)) && Allowed(v, m);
    } else {
      assert m == Stay;
    }
  }

  lemma ReleaseMoves(st: State, a: Action, d: int)
    requires KindInv(st) && Enabled(st, a) && Homed(d) && a.Release?
    ensures MovesBy(st, a, d)
  {
    ViewRelease(st, a.s, d, Home(d));
    var v, m := ViewOf(st, Diary(d), Home(d)), MoveOf(st, a, d);
    if At(st, a.s).commit.req.key == Diary(d) {
      assert m == Leave && Allowed(v, m);
    } else {
      assert m == Stay;
    }
  }

  lemma StoreMoves(st: State, a: Action, d: int)
    requires KindInv(st) && Enabled(st, a) && Homed(d) && a.Store?
    ensures MovesBy(st, a, d)
  {
    var p := Home(d);
    ViewStore(st, a.s, Diary(d), p);
    var v, v', m := ViewOf(st, Diary(d), p), ViewOf(DoStore(st, a.s), Diary(d), p), MoveOf(st, a, d);
    var e := At(st, a.s).delivery.msg.entry;
    if At(st, a.s).delivery.msg.key == Diary(d) {
      assert m == Land(e, a.s == p);
      if a.s == p { Tail(v.qr, e, v'.qr); } else { Tail(v.qp, e, v'.qp); }
      assert Allowed(v, m);
    } else {
      assert m == Stay;
    }
  }

  lemma Tail(q: seq<Entry>, e: Entry, rest: seq<Entry>)
    requires q == [e] + rest
    ensures q != [] && q[0] == e && q[1..] == rest
  {
  }

  lemma UnlockMoves(st: State, a: Action, d: int)
    requires KindInv(st) && Enabled(st, a) && Homed(d) && a.Unlock?
    ensures MovesBy(st, a, d)
  {
    QueuedIssued(st, a.s);
    ViewUnlock(st, a.s, d, Home(d));
  }

  lemma QuietMoves(st: State, a: Action, d: int)
    requires KindInv(st) && Enabled(st, a) && Homed(d) && (a.Send? || a.Receive? || a.Count?)
    ensures MovesBy(st, a, d)
  {
    QueuedIssued(st, a.s);
    match a
    case Send(s) => ViewSend(st, s, Diary(d), Home(d));
    case Receive(s) => ViewReceive(st, s, Diary(d), Home(d));
    case Count(s) => ViewCount(st, s, d, Home(d));
  }

  /** Every step moves the view of every diary that has a preferred site in one of these ways. */
  lemma ViewStep(st: State, a: Action, d: int)
    requires KindInv(st) && Enabled(st, a) && Homed(d)
    ensures MovesBy(st, a, d)
  {
    match a
    case Begin(_, _) => BeginMoves(st, a, d);
    case Check(_) => CheckMoves(st, a, d);
    case Abort(_) => AbortMoves(st, a, d);
    case Stamp(_) => StampMoves(st, a, d);
    case Push(_) => PushMoves(st, a, d);
    case Enqueue(_) => EnqueueMoves(st, a, d);
    case Release(_) => ReleaseMoves(st, a, d);
    case Store(_) => StoreMoves(st, a, d);
    case Unlock(_) => UnlockMoves(st, a, d);
    case _ => QuietMoves(st, a, d);
  }

  // ---- what every move keeps

  lemma LockKept(v: View, m: Move)
    requires LockOk(v) && Allowed(v, m)
    ensures LockOk(Moved(v, m))
  {
  }

  lemma MarkHome(seed: seq<Entry>, v: View, e: Entry, atP: bool)
    requires HomeOk(seed, v) && Allowed(v, Mark(e, atP))
    ensures HomeList(seed, Moved(v, Mark(e, atP)))
  {
    assert seed + (v.all + [e]) == (seed + v.all) + [e];
  }

  lemma KeepHome(seed: seq<Entry>, v: View, atP: bool)
    requires HomeOk(seed, v) && Allowed(v, Keep(atP))
    ensures HomeList(seed, Moved(v, Keep(atP)))
  {
    var e := [CommitAt(v, atP).entry];
    if atP {
      assert v.lp + [] + e + [] == v.lp + e + ([] + []) + [] + [];
    } else {
      assert v.lp + ([] + []) + [] + e == v.lp + ([] + e) + [] + [];
    }
  }

  lemma PassHome(seed: seq<Entry>, v: View, atP: bool)
    requires HomeOk(seed, v) && Allowed(v, Pass(atP))
    ensures HomeList(seed, Moved(v, Pass(atP)))
  {
    if !atP {
      var e := [v.cr.entry];
      assert v.qr + e == (v.qr + e) + [];
    }
  }

  lemma LandHome(seed: seq<Entry>, v: View, e: Entry, atP: bool)
    requires HomeOk(seed, v) && Allowed(v, Land(e, atP))
    ensures HomeList(seed, Moved(v, Land(e, atP)))
  {
    if atP {
      Shifted(v.lp, v.qr, PushedEntry(v.cr));
    }
  }

  lemma HomeListKept(seed: seq<Entry>, v: View, m: Move)
    requires HomeOk(seed, v) && Allowed(v, m)
    ensures HomeList(seed, Moved(v, m))
  {
    match m
    case Mark(e, atP) => MarkHome(seed, v, e, atP);
    case Keep(atP) => KeepHome(seed, v, atP);
    case Pass(atP) => PassHome(seed, v, atP);
    case Land(e, atP) => LandHome(seed, v, e, atP);
    case _ =>
  }

  /** A committer that holds the lock sees every committed version in the preferred site's history. */
  lemma AllHome(seed: seq<Entry>, v: View)
    requires HomeOk(seed, v) && (v.cp.Locked? || v.cr.Locked? || v.lock == 0)
    ensures v.lp == seed + v.all
  {
    assert v.lp + ([] + []) + [] + [] == v.lp;
  }

  lemma CheckKept(seed: seq<Entry>, v: View, m: Move)
    requires HomeOk(seed, v) && Allowed(v, m)
    ensures CheckOk(seed, Moved(v, m))
  {
    if m.Look? { AllHome(seed, v); }
  }

  lemma HomeKept(seed: seq<Entry>, v: View, m: Move)
    requires HomeOk(seed, v) && Allowed(v, m)
    ensures HomeOk(seed, Moved(v, m))
  {
    LockKept(v, m);
    HomeListKept(seed, v, m);
    CheckKept(seed, v, m);
  }

  // ---- what honest moves keep besides

  lemma MarkAway(seed: seq<Entry>, v: View, e: Entry, atP: bool)
    requires ViewOk(seed, v) && Allowed(v, Mark(e, atP))
    ensures AwayOk(seed, Moved(v, Mark(e, atP)))
  {
    assert seed + (v.all + [e]) == (seed + v.all) + [e];
  }

  lemma KeepAway(seed: seq<Entry>, v: View, atP: bool)
    requires ViewOk(seed, v) && Allowed(v, Keep(atP))
    ensures AwayOk(seed, Moved(v, Keep(atP)))
  {
    var e := [CommitAt(v, atP).entry];
    if atP {
      assert v.lr + (v.qp + []) + e + [] == v.lr + (v.qp + e) + [] + [];
    } else {
      assert v.lr + ([] + []) + [] + e == v.lr + e + ([] + []) + [] + [];
    }
  }

  lemma PassAway(seed: seq<Entry>, v: View, atP: bool)
    requires ViewOk(seed, v) && Allowed(v, Pass(atP))
    ensures AwayOk(seed, Moved(v, Pass(atP)))
  {
    if atP {
      var e := [v.cp.entry];
      assert v.qp + e == (v.qp + e) + [];
    }
  }

  lemma LandAway(seed: seq<Entry>, v: View, e: Entry, atP: bool)
    requires ViewOk(seed, v) && Allowed(v, Land(e, atP))
    ensures AwayOk(seed, Moved(v, Land(e, atP)))
  {
    if atP {
      assert v.qp + PushedEntry(v.cp) == [];
    } else {
      Shifted(v.lr, v.qp, PushedEntry(v.cp));
      assert v.qp + PushedEntry(v.cp) != [] && !PastCheck(v.cr) && v.qr == [];
    }
  }

  lemma Shifted(h: seq<Entry>, q: seq<Entry>, more: seq<Entry>)
    requires q != []
    ensures h + (q + more) == h + [q[0]] + (q[1..] + more)
  {
  }

  /** The other site's history keeps up, provided a slow commit only passes when nothing is on its way to it. */
  lemma AwayKept(seed: seq<Entry>, v: View, m: Move)
    requires ViewOk(seed, v) && Allowed(v, m)
    requires m == Look(false) && NoConflict(v.lp, v.cr.req.startTs) ==> v.qp == []
    ensures AwayOk(seed, Moved(v, m))
  {
    match m
    case Mark(e, atP) => MarkAway(seed, v, e, atP);
    case Keep(atP) => KeepAway(seed, v, atP);
    case Pass(atP) => PassAway(seed, v, atP);
    case Land(e, atP) => LandAway(seed, v, e, atP);
    case _ =>
  }
}
