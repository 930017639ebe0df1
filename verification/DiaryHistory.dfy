/**
 One diary at a time: its lock, its two histories and the messages about it, seen
 as a small view of the whole state, with an invariant of that view.
 p is the diary's preferred site, r the other one.
 */
module DiaryHistory {
  import opened DiaryProtocol
  import opened DiaryClock

  /** The entries for list k carried by the messages, in order. */
  function EntriesOf(ms: seq<Msg>, k: Key): seq<Entry> {
    if ms == [] then []
    else (if ms[0].key == k then [ms[0].entry] else []) + EntriesOf(ms[1..], k)
  }

  lemma {:induction false} EntriesOfConcat(a: seq<Msg>, b: seq<Msg>, k: Key)
    ensures EntriesOf(a + b, k) == EntriesOf(a, k) + EntriesOf(b, k)
  {
    if a == [] {
      assert a + b == b;
    } else {
      assert (a + b)[1..] == a[1..] + b;
      EntriesOfConcat(a[1..], b, k);
      Assoc(if a[0].key == k then [a[0].entry] else [], EntriesOf(a[1..], k), EntriesOf(b, k));
    }
  }

  lemma Assoc(a: seq<Entry>, b: seq<Entry>, c: seq<Entry>)
    ensures a + (b + c) == a + b + c
  {
  }

  lemma {:induction false} EntriesOfMember(ms: seq<Msg>, k: Key, e: Entry) returns (i: nat)
    requires e in EntriesOf(ms, k)
    ensures i < |ms| && ms[i].key == k && ms[i].entry == e
  {
    if ms[0].key == k && ms[0].entry == e {
      i := 0;
    } else {
      i := EntriesOfMember(ms[1..], k, e);
      i := i + 1;
    }
  }

  /** The versions committed to list k, in the order they were stamped. */
  function Committed(commits: seq<Rec>, k: Key): seq<Entry> {
    if commits == [] then []
    else
      var last := |commits| - 1;
      var c := commits[last];
      Committed(commits[..last], k) + (if c.key == k then [Entry(c.ver, c.payload, By(c.origin, last))] else [])
  }

  lemma CommittedGrow(commits: seq<Rec>, c: Rec, k: Key)
    ensures Committed(commits + [c], k)
         == Committed(commits, k) + (if c.key == k then [Entry(c.ver, c.payload, By(c.origin, |commits|))] else [])
  {
    assert (commits + [c])[..|commits|] == commits;
  }

  lemma {:induction false} CommittedHas(commits: seq<Rec>, k: Key, i: nat)
    requires i < |commits| && commits[i].key == k
    ensures Entry(commits[i].ver, commits[i].payload, By(commits[i].origin, i)) in Committed(commits, k)
  {
    if i < |commits| - 1 {
      CommittedHas(commits[..|commits|-1], k, i);
    }
  }

  /** Stored nowhere yet at `to`, but already in msg_list or beyond at `from`. */
  function Unstored(from: Node, to: Node): seq<Msg> {
    (if to.delivery.Got? then [to.delivery.msg] else []) + to.inbox + from.outbox
  }

  function Focus(c: Commit, k: Key): Commit {
    if c.Idle? || c.req.key != k then Idle else c
  }

  function StampedEntry(c: Commit): seq<Entry> {
    if c.Stamped? then [c.entry] else []
  }

  function PushedEntry(c: Commit): seq<Entry> {
    if c.Pushed? then [c.entry] else []
  }

  datatype View = View(
    lp: seq<Entry>,       // history at p
    lr: seq<Entry>,       // history at r
    qp: seq<Entry>,       // from p, queued, not stored at r
    qr: seq<Entry>,       // from r, queued, not stored at p
    held: seq<Entry>,     // from r, stored at p, lock not yet released
    cp: Commit,           // commit of this diary running at p
    cr: Commit,           // commit of this diary running at r
    lock: nat,            // lock counter at p
    all: seq<Entry>)      // every committed version

  function ViewOf(st: State, k: Key, p: Site): View {
    var np, nr := At(st, p), At(st, Other(p));
    View(List(np, k), List(nr, k),
         EntriesOf(Unstored(np, nr), k), EntriesOf(Unstored(nr, np), k),
         if np.delivery.Stored? && np.delivery.msg.key == k then [np.delivery.msg.entry] else [],
         Focus(np.commit, k), Focus(nr.commit, k),
         Lock(np, k),
         Committed(st.commits, k))
  }

  /** Who holds the lock: a committer at p, a committer at r, or a slow message on its way into p. */
  function Holders(v: View): nat {
    (if v.cp.Idle? then 0 else 1) + (if v.cr.Idle? then 0 else 1) + |v.held| + |v.qr|
  }

  predicate LockOk(v: View) {
    && Holders(v) <= 1
    && (v.lock == 0 <==> Holders(v) == 0)
    && (!v.cp.Idle? ==> v.cp.req.kind == Fast)
    && (!v.cr.Idle? ==> v.cr.req.kind == Slow && !v.cr.Queued?)
  }

  predicate PastCheck(c: Commit) {
    c.Checked? || c.Stamped? || c.Pushed?
  }

  /** The preferred site's history and what is under way to it make up all committed versions. */
  predicate HomeList(seed: seq<Entry>, v: View) {
    v.lp + (v.qr + PushedEntry(v.cr)) + StampedEntry(v.cp) + StampedEntry(v.cr) == seed + v.all
  }

  predicate CheckOk(seed: seq<Entry>, v: View) {
    && (v.cp.Checked? ==> NoConflict(seed + v.all, v.cp.req.startTs))
    && (v.cr.Checked? ==> NoConflict(seed + v.all, v.cr.req.startTs))
  }

  /** What holds of every run. */
  predicate HomeOk(seed: seq<Entry>, v: View) {
    LockOk(v) && HomeList(seed, v) && CheckOk(seed, v)
  }

  /** What honest edits add: so does the other site's history, and only one site is ahead. */
  predicate AwayOk(seed: seq<Entry>, v: View) {
    && v.lr + (v.qp + PushedEntry(v.cp)) + StampedEntry(v.cp) + StampedEntry(v.cr) == seed + v.all
    && (PastCheck(v.cr) || v.qr != [] ==> v.qp + PushedEntry(v.cp) == [])
  }

  predicate ViewOk(seed: seq<Entry>, v: View) {
    HomeOk(seed, v) && AwayOk(seed, v)
  }

  // ---- what the handlers issue

  predicate IssuedMsg(s: Site, m: Msg) {
    match m.key
    case Diary(id) => m.kind == (if Prefers(id, s) then Fast else Slow)
    case Comments(id) => m.kind == Fast
  }

  predicate IssuedCommit(s: Site, c: Commit) {
    && (!c.Idle? ==> Issued(s, c.req))
    && (c.Queued? ==> c.req.kind == Fast)
  }

  ghost predicate IssuedMsgs(s: Site, q: seq<Msg>) {
    forall m | m in q :: IssuedMsg(s, m)
  }

  ghost predicate KindInv(st: State) {
    && IssuedCommit(S0, st.n0.commit) && IssuedCommit(S1, st.n1.commit)
    && IssuedMsgs(S0, ToCount(st, S0)) && IssuedMsgs(S1, ToCount(st, S1))
  }

  lemma CommitKindStep(st: State, a: Action)
    requires IssuedCommit(S0, st.n0.commit) && IssuedCommit(S1, st.n1.commit) && Enabled(st, a)
    ensures IssuedCommit(S0, Next(st, a).n0.commit) && IssuedCommit(S1, Next(st, a).n1.commit)
  {
    match a
    case Begin(s, req) =>
    case Check(s) =>
    case Abort(s) =>
    case Stamp(s) =>
    case Push(s) =>
    case Enqueue(s) =>
    case Release(s) =>
    case Send(s) =>
    case Receive(s) =>
    case Store(s) =>
    case Unlock(s) =>
    case Count(s) =>
  }

  lemma KindStep(st: State, a: Action)
    requires KindInv(st) && Enabled(st, a)
    ensures KindInv(Next(st, a))
  {
    CommitKindStep(st, a);
    if a.Stamp? {
      StampViews(st, a.s);
      var m := ToCount(Next(st, a), a.s)[|ToCount(st, a.s)|];
      assert IssuedMsg(a.s, m);
      assert IssuedMsgs(a.s, ToCount(st, a.s) + [m]);
    } else if a.Count? {
      CountViews(st, a.s);
      assert IssuedMsgs(Other(a.s), ToCount(st, Other(a.s))[1..]);
    } else {
      QuietStep(st, a);
    }
  }

  lemma QueuedIssued(st: State, s: Site)
    requires KindInv(st)
    ensures forall m | m in At(st, s).outbox :: IssuedMsg(s, m)
    ensures forall m | m in At(st, s).inbox :: IssuedMsg(Other(s), m)
    ensures !At(st, s).delivery.NoMsg? ==> IssuedMsg(Other(s), At(st, s).delivery.msg)
  {
    forall m | m in At(st, s).outbox ensures IssuedMsg(s, m) { assert m in ToCount(st, s); }
    forall m | m in At(st, s).inbox ensures IssuedMsg(Other(s), m) { assert m in ToCount(st, Other(s)); }
    if !At(st, s).delivery.NoMsg? { assert At(st, s).delivery.msg in ToCount(st, Other(s)); }
  }

  // ---- how each step moves the view of diary d

  /** The two nodes after an attempt. */
  lemma BeginNodes(st: State, s: Site, req: Req)
    ensures var st' := DoBegin(st, s, req); var n, o := At(st, s), At(st, Other(s));
      && st'.commits == st.commits
      && (req.kind == Fast ==>
            && At(st', Other(s)) == o
            && At(st', s) == if Lock(n, req.key) == 0 then Incr(n, req.key).(commit := Locked(req)) else Incr(n, req.key))
      && (req.kind == Slow ==>
            && At(st', Other(s)) == Incr(o, req.key)
            && At(st', s) == if Lock(o, req.key) == 0 then n.(commit := Locked(req)) else n)
  {
    if s == S0 {} else {}
  }

  lemma ViewBegin(st: State, s: Site, req: Req, d: int, p: Site)
    requires Enabled(st, Begin(s, req)) && Homed(d) && p == Home(d)
    ensures var v, v' := ViewOf(st, Diary(d), p), ViewOf(DoBegin(st, s, req), Diary(d), p);
      v' == if req.key != Diary(d) then v
            else if v.lock != 0 then v.(lock := v.lock + 1)
            else if s == p then v.(lock := 1, cp := Locked(req))
            else v.(lock := 1, cr := Locked(req))
    ensures req.key == Diary(d) ==> (s == p <==> req.kind == Fast)
  {
    BeginNodes(st, s, req);
    var v, v' := ViewOf(st, Diary(d), p), ViewOf(DoBegin(st, s, req), Diary(d), p);
    assert v'.all == v.all && v'.lp == v.lp && v'.lr == v.lr && v'.held == v.held;
    assert v'.qp == v.qp && v'.qr == v.qr;
    if s == p {
      assert v'.cr == v.cr;
    } else {
      assert v'.cp == v.cp;
    }
    assert req.key != Diary(d) ==> v'.lock == v.lock;
  }

  lemma ViewCheck(st: State, s: Site, d: int, p: Site)
    requires At(st, s).commit.Locked? && Issued(s, At(st, s).commit.req) && Homed(d) && p == Home(d)
    ensures var v, v' := ViewOf(st, Diary(d), p), ViewOf(DoCheck(st, s), Diary(d), p);
      var req := At(st, s).commit.req;
      v' == if req.key != Diary(d) then v
            else
              var c := if NoConflict(v.lp, req.startTs) then Checked(req) else Conflict(req);
              if s == p then v.(cp := c) else v.(cr := c)
  {
  }

  lemma ViewAbort(st: State, s: Site, d: int, p: Site)
    requires At(st, s).commit.Conflict? && Issued(s, At(st, s).commit.req) && Homed(d) && p == Home(d)
    ensures var v, v' := ViewOf(st, Diary(d), p), ViewOf(DoAbort(st, s), Diary(d), p);
      v' == if At(st, s).commit.req.key != Diary(d) then v
            else if s == p then v.(lock := 0, cp := Idle) else v.(lock := 0, cr := Idle)
  {
  }

  lemma ViewStamp(st: State, s: Site, k: Key, p: Site)
    requires At(st, s).commit.Checked?
    ensures var v, v' := ViewOf(st, k, p), ViewOf(DoStamp(st, s), k, p);
      var c := At(DoStamp(st, s), s).commit;
      v' == if c.req.key != k then v
            else if s == p then v.(cp := c, all := v.all + [c.entry]) else v.(cr := c, all := v.all + [c.entry])
  {
    CommittedGrow(st.commits, StampRec(st, s), k);
  }

  lemma ViewPush(st: State, s: Site, k: Key, p: Site)
    requires At(st, s).commit.Stamped?
    ensures var v, v' := ViewOf(st, k, p), ViewOf(DoPush(st, s), k, p);
      var c := At(st, s).commit;
      v' == if c.req.key != k then v
            else if s == p then v.(lp := v.lp + [c.entry], cp := Pushed(c.req, c.entry))
            else v.(lr := v.lr + [c.entry], cr := Pushed(c.req, c.entry))
  {
  }

  lemma EnqueueUnstored(st: State, s: Site, k: Key)
    requires At(st, s).commit.Pushed?
    ensures var c, st' := At(st, s).commit, DoEnqueue(st, s);
      && EntriesOf(Unstored(At(st', s), At(st', Other(s))), k)
         == EntriesOf(Unstored(At(st, s), At(st, Other(s))), k) + (if c.req.key == k then [c.entry] else [])
      && Unstored(At(st', Other(s)), At(st', s)) == Unstored(At(st, Other(s)), At(st, s))
  {
    var c, st' := At(st, s).commit, DoEnqueue(st, s);
    var m := Msg(c.req.kind, c.req.key, c.entry);
    assert Unstored(At(st', s), At(st', Other(s))) == Unstored(At(st, s), At(st, Other(s))) + [m];
    EntriesOfConcat(Unstored(At(st, s), At(st, Other(s))), [m], k);
    assert EntriesOf([m], k) == if m.key == k then [m.entry] else [];
  }

  lemma ViewEnqueue(st: State, s: Site, k: Key, p: Site)
    requires At(st, s).commit.Pushed?
    ensures var v, v' := ViewOf(st, k, p), ViewOf(DoEnqueue(st, s), k, p);
      var c := At(st, s).commit;
      v' == if c.req.key != k then v
            else
              var after := if c.req.kind == Fast then Queued(c.req) else Idle;
              if s == p then v.(qp := v.qp + [c.entry], cp := after) else v.(qr := v.qr + [c.entry], cr := after)
  {
    var v, v' := ViewOf(st, k, p), ViewOf(DoEnqueue(st, s), k, p);
    EnqueueUnstored(st, s, k);
    assert v'.all == v.all && v'.lp == v.lp && v'.lr == v.lr && v'.held == v.held && v'.lock == v.lock;
    var c := At(st, s).commit;
    var after := if c.req.kind == Fast then Queued(c.req) else Idle;
    var more := if c.req.key == k then [c.entry] else [];
    if s == p {
      assert v'.qr == v.qr && v'.cr == v.cr && v'.qp == v.qp + more;
      assert v'.cp == if c.req.key == k then after else v.cp;
    } else {
      assert v'.qp == v.qp && v'.cp == v.cp && v'.qr == v.qr + more;
      assert v'.cr == if c.req.key == k then after else v.cr;
    }
  }

  lemma ViewRelease(st: State, s: Site, d: int, p: Site)
    requires At(st, s).commit.Queued? && Issued(s, At(st, s).commit.req) && At(st, s).commit.req.kind == Fast
    requires Homed(d) && p == Home(d)
    ensures var v, v' := ViewOf(st, Diary(d), p), ViewOf(DoRelease(st, s), Diary(d), p);
      v' == if At(st, s).commit.req.key != Diary(d) then v else v.(lock := 0, cp := Idle)
    ensures At(st, s).commit.req.key == Diary(d) ==> s == p
  {
  }

  lemma SendUnstored(from: Node, to: Node, from': Node, to': Node)
    requires from.outbox != [] && from' == from.(outbox := from.outbox[1..]) && to' == to.(inbox := to.inbox + [from.outbox[0]])
    ensures Unstored(from', to') == Unstored(from, to) && Unstored(to', from') == Unstored(to, from)
  {
    assert from.outbox == [from.outbox[0]] + from'.outbox;
    var head := if to.delivery.Got? then [to.delivery.msg] else [];
    assert head + (to.inbox + [from.outbox[0]]) + from'.outbox == head + to.inbox + from.outbox;
  }

  lemma ViewSend(st: State, s: Site, k: Key, p: Site)
    requires At(st, s).outbox != []
    ensures ViewOf(DoSend(st, s), k, p) == ViewOf(st, k, p)
  {
    var st' := DoSend(st, s);
    SendUnstored(At(st, s), At(st, Other(s)), At(st', s), At(st', Other(s)));
    var v, v' := ViewOf(st, k, p), ViewOf(st', k, p);
    assert v'.qp == v.qp && v'.qr == v.qr;
  }

  lemma ViewReceive(st: State, s: Site, k: Key, p: Site)
    requires At(st, s).delivery.NoMsg? && At(st, s).inbox != []
    ensures ViewOf(DoReceive(st, s), k, p) == ViewOf(st, k, p)
  {
    var st' := DoReceive(st, s);
    assert Unstored(At(st', Other(s)), At(st', s)) == Unstored(At(st, Other(s)), At(st, s));
    assert Unstored(At(st', s), At(st', Other(s))) == Unstored(At(st, s), At(st, Other(s)));
  }

  lemma StoreUnstored(from: Node, to: Node, to': Node, m: Msg, k: Key)
    requires to.delivery == Got(m) && to' == RPush(to, m.key, m.entry).(delivery := Stored(m))
    ensures EntriesOf(Unstored(from, to), k) == (if m.key == k then [m.entry] else []) + EntriesOf(Unstored(from, to'), k)
    ensures Unstored(to', from) == Unstored(to, from)
  {
    var u, u' := Unstored(from, to), Unstored(from, to');
    assert u == [m] + u';
    assert u[1..] == u';
  }

  /** A store into n: its list, queue and held message. */
  lemma StoreNode(n: Node, n': Node, m: Msg, k: Key)
    requires n.delivery == Got(m) && n' == RPush(n, m.key, m.entry).(delivery := Stored(m))
    ensures List(n', k) == (if m.key == k then List(n, k) + [m.entry] else List(n, k))
    ensures Lock(n', k) == Lock(n, k) && n'.commit == n.commit
  {
  }

  lemma StoreHere(st: State, s: Site, k: Key)
    requires At(st, s).delivery.Got?
    ensures var v, v' := ViewOf(st, k, s), ViewOf(DoStore(st, s), k, s);
      var m := At(st, s).delivery.msg;
      if m.key != k then v' == v else v.qr == [m.entry] + v'.qr && v' == v.(qr := v'.qr, lp := v.lp + [m.entry], held := [m.entry])
  {
    hide EntriesOf, Committed;
    var st' := DoStore(st, s);
    var m := At(st, s).delivery.msg;
    StoreUnstored(At(st, Other(s)), At(st, s), At(st', s), m, k);
    StoreNode(At(st, s), At(st', s), m, k);
    assert At(st', Other(s)) == At(st, Other(s)) && st'.commits == st.commits;
  }

  lemma StoreThere(st: State, s: Site, k: Key)
    requires At(st, s).delivery.Got?
    ensures var v, v' := ViewOf(st, k, Other(s)), ViewOf(DoStore(st, s), k, Other(s));
      var m := At(st, s).delivery.msg;
      if m.key != k then v' == v else v.qp == [m.entry] + v'.qp && v' == v.(qp := v'.qp, lr := v.lr + [m.entry])
  {
    hide EntriesOf, Committed;
    var st' := DoStore(st, s);
    var m := At(st, s).delivery.msg;
    StoreUnstored(At(st, Other(s)), At(st, s), At(st', s), m, k);
    StoreNode(At(st, s), At(st', s), m, k);
    assert At(st', Other(s)) == At(st, Other(s)) && st'.commits == st.commits;
  }

  lemma ViewStore(st: State, s: Site, k: Key, p: Site)
    requires At(st, s).delivery.Got?
    ensures var v, v' := ViewOf(st, k, p), ViewOf(DoStore(st, s), k, p);
      var m := At(st, s).delivery.msg;
      if m.key != k then v' == v
      else if s == p then
        v.qr == [m.entry] + v'.qr && v' == v.(qr := v'.qr, lp := v.lp + [m.entry], held := [m.entry])
      else
        v.qp == [m.entry] + v'.qp && v' == v.(qp := v'.qp, lr := v.lr + [m.entry])
  {
    if s == p { StoreHere(st, s, k); } else { StoreThere(st, s, k); }
  }

  lemma ViewUnlock(st: State, s: Site, d: int, p: Site)
    requires At(st, s).delivery.Stored? && At(st, s).delivery.msg.kind == Slow
    requires IssuedMsg(Other(s), At(st, s).delivery.msg) && Homed(d) && p == Home(d)
    ensures var v, v' := ViewOf(st, Diary(d), p), ViewOf(DoUnlock(st, s), Diary(d), p);
      var m := At(st, s).delivery.msg;
      v' == if m.key != Diary(d) then v else v.(lock := 0, held := [])
    ensures At(st, s).delivery.msg.key == Diary(d) ==> s == p
  {
  }

  lemma ViewCount(st: State, s: Site, d: int, p: Site)
    requires Enabled(st, Count(s))
    requires IssuedMsg(Other(s), At(st, s).delivery.msg) && Homed(d) && p == Home(d)
    ensures ViewOf(DoCount(st, s), Diary(d), p) == ViewOf(st, Diary(d), p)
  {
  }
}
