/**
 What flows between the sites for any list, diaries and comments alike: the
 entries of one origin reach the other site exactly once and in order.
 */
module DiaryComments {
  import opened DiaryProtocol
  import opened DiaryClock
  import opened DiaryHistory
  import opened DiaryInvariant

  /** The entries of h that site j made, in order. */
  function From(h: seq<Entry>, j: Site): seq<Entry> {
    if h == [] then []
    else
      var e := h[|h|-1];
      From(h[..|h|-1], j) + (if e.tag.By? && e.tag.origin == j then [e] else [])
  }

  function SeedPart(h: seq<Entry>): seq<Entry> {
    if h == [] then []
    else SeedPart(h[..|h|-1]) + (if h[|h|-1].tag == Seed then [h[|h|-1]] else [])
  }

  lemma FromAppend(h: seq<Entry>, e: Entry, j: Site)
    ensures From(h + [e], j) == From(h, j) + (if e.tag.By? && e.tag.origin == j then [e] else [])
    ensures SeedPart(h + [e]) == SeedPart(h) + (if e.tag == Seed then [e] else [])
  {
    assert (h + [e])[..|h|] == h;
  }

  /** A list is its seeds and the entries of both origins, interleaved. */
  lemma {:induction false} Interleaved(h: seq<Entry>)
    ensures multiset(h) == multiset(SeedPart(h)) + multiset(From(h, S0)) + multiset(From(h, S1))
  {
    if h != [] {
      var e := h[|h|-1];
      assert h == h[..|h|-1] + [e];
      Interleaved(h[..|h|-1]);
      FromAppend(h[..|h|-1], e, S0);
      FromAppend(h[..|h|-1], e, S1);
    }
  }

  function CommittedBy(commits: seq<Rec>, k: Key, j: Site): seq<Entry> {
    From(Committed(commits, k), j)
  }

  datatype Flow = Flow(
    here: seq<Entry>,      // j's entries in j's own list
    there: seq<Entry>,     // j's entries in the other site's list
    moving: seq<Entry>,    // pushed at j, not stored at the other site
    unpushed: seq<Entry>,  // stamped, not pushed
    all: seq<Entry>,       // committed by j
    seeds: seq<Entry>)     // seeds in j's list

  function FlowIn(v: View, j: Site): Flow {
    Flow(From(v.lp, j), From(v.lr, j), v.qp + PushedEntry(v.cp), StampedEntry(v.cp), From(v.all, j), SeedPart(v.lp))
  }

  function FlowOf(st: State, k: Key, j: Site): Flow {
    FlowIn(ViewOf(st, k, j), j)
  }

  predicate FlowOk(seed: seq<Entry>, f: Flow) {
    && f.there + f.moving == f.here
    && f.here + f.unpushed == f.all
    && f.seeds == seed
  }

  /** Entries under way carry the tag of the site that made them. */
  predicate Tagged(n: Node, j: Site) {
    && (n.commit.Stamped? || n.commit.Pushed? ==> n.commit.entry.tag.By? && n.commit.entry.tag.origin == j)
    && (!n.delivery.NoMsg? ==> n.delivery.msg.entry.tag.By? && n.delivery.msg.entry.tag.origin == Other(j))
  }

  lemma ClockTagged(st: State, j: Site)
    requires ClockInv(st)
    ensures Tagged(At(st, j), j)
  {
    var n := At(st, j);
    if n.commit.Stamped? || n.commit.Pushed? {
      var q := ToCount(st, j);
      assert q[|q|-1].entry == n.commit.entry;
      assert Carries(st.commits, q[|q|-1], j, Comp(At(st, Other(j)).vts, j) + |q|);
    }
    if !n.delivery.NoMsg? {
      var q := ToCount(st, Other(j));
      assert q[0] == n.delivery.msg;
      assert Carries(st.commits, q[0], Other(j), Comp(n.vts, Other(j)) + 1);
    }
  }

  predicate MadeBy(e: Entry, j: Site) {
    e.tag.By? && e.tag.origin == j
  }

  lemma FlowStamp(seed: seq<Entry>, v: View, c: Commit, here: bool, j: Site)
    requires FlowOk(seed, FlowIn(v, j)) && c.Stamped? && MadeBy(c.entry, if here then j else Other(j))
    requires here ==> v.cp.Checked?
    ensures FlowOk(seed, FlowIn(if here then v.(cp := c, all := v.all + [c.entry]) else v.(cr := c, all := v.all + [c.entry]), j))
  {
    FromAppend(v.all, c.entry, j);
  }

  lemma FlowPush(seed: seq<Entry>, v: View, c: Commit, here: bool, j: Site)
    requires FlowOk(seed, FlowIn(v, j)) && c.Stamped? && MadeBy(c.entry, if here then j else Other(j))
    requires if here then v.cp == c else v.cr == c
    ensures FlowOk(seed, FlowIn(if here then v.(lp := v.lp + [c.entry], cp := Pushed(c.req, c.entry))
                                else v.(lr := v.lr + [c.entry], cr := Pushed(c.req, c.entry)), j))
  {
    hide From, SeedPart;
    if here {
      FromAppend(v.lp, c.entry, j);
      var e := [c.entry];
      NoneMore(v.qp);
      NoneMore(From(v.lp, j) + e);
      NoneMore(SeedPart(v.lp));
      Assoc(From(v.lr, j), v.qp, e);
    } else {
      FromAppend(v.lr, c.entry, j);
      NoneMore(From(v.lr, j));
    }
  }

  lemma NoneMore(s: seq<Entry>)
    ensures s + [] == s
  {
  }

  lemma FlowStore(seed: seq<Entry>, v: View, e: Entry, rest: seq<Entry>, here: bool, j: Site)
    requires FlowOk(seed, FlowIn(v, j)) && MadeBy(e, if here then Other(j) else j)
    requires if here then v.qr == [e] + rest else v.qp == [e] + rest
    ensures FlowOk(seed, FlowIn(if here then v.(qr := rest, lp := v.lp + [e], held := [e])
                                else v.(qp := rest, lr := v.lr + [e]), j))
  {
    FromAppend(v.lp, e, j);
    FromAppend(v.lr, e, j);
    if !here {
      OneOver(From(v.lr, j), e, rest, PushedEntry(v.cp));
    }
  }

  lemma OneOver(h: seq<Entry>, e: Entry, rest: seq<Entry>, more: seq<Entry>)
    ensures h + [e] + (rest + more) == h + ([e] + rest + more)
  {
  }

  lemma FlowEnqueue(seed: seq<Entry>, v: View, c: Commit, after: Commit, here: bool, j: Site)
    requires FlowOk(seed, FlowIn(v, j)) && c.Pushed? && (after.Queued? || after.Idle?)
    requires if here then v.cp == c else v.cr == c
    ensures FlowOk(seed, FlowIn(if here then v.(qp := v.qp + [c.entry], cp := after)
                                else v.(qr := v.qr + [c.entry], cr := after), j))
  {
    if here {
      assert (v.qp + [c.entry]) + PushedEntry(after) == v.qp + PushedEntry(v.cp);
    }
  }

  predicate SameLists(v: View, v': View) {
    && v'.lp == v.lp && v'.lr == v.lr && v'.qp == v.qp && v'.qr == v.qr && v'.all == v.all
    && StampedEntry(v'.cp) == StampedEntry(v.cp) && PushedEntry(v'.cp) == PushedEntry(v.cp)
  }

  /** n' differs from n in nothing the lists and queues of k depend on. */
  predicate SameNode(n: Node, n': Node, k: Key) {
    && List(n', k) == List(n, k) && n'.inbox == n.inbox && n'.outbox == n.outbox
    && n'.delivery.Got? == n.delivery.Got? && (n.delivery.Got? ==> n'.delivery == n.delivery)
    && StampedEntry(Focus(n'.commit, k)) == StampedEntry(Focus(n.commit, k))
    && PushedEntry(Focus(n'.commit, k)) == PushedEntry(Focus(n.commit, k))
  }

  predicate SameNodes(st: State, st': State, k: Key) {
    SameNode(st.n0, st'.n0, k) && SameNode(st.n1, st'.n1, k) && st'.commits == st.commits
  }

  lemma SameUnstored(n: Node, n': Node, o: Node, o': Node, k: Key)
    requires SameNode(n, n', k) && SameNode(o, o', k)
    ensures Unstored(n', o') == Unstored(n, o)
  {
  }

  lemma SameView(st: State, st': State, k: Key, p: Site)
    requires SameNodes(st, st', k)
    ensures SameLists(ViewOf(st, k, p), ViewOf(st', k, p))
  {
    SameUnstored(st.n0, st'.n0, st.n1, st'.n1, k);
    SameUnstored(st.n1, st'.n1, st.n0, st'.n0, k);
  }

  lemma KnockNodes(st: State, s: Site, req: Req, k: Key)
    requires At(st, s).commit == Idle
    ensures SameNodes(st, DoBegin(st, s, req), k)
  {
    BeginNodes(st, s, req);
    var st' := DoBegin(st, s, req);
    assert SameNode(At(st, s), At(st', s), k);
    assert SameNode(At(st, Other(s)), At(st', Other(s)), k);
    if s == S0 {} else {}
  }

  lemma QuietBegin(st: State, s: Site, req: Req, k: Key, p: Site)
    requires At(st, s).commit == Idle
    ensures SameLists(ViewOf(st, k, p), ViewOf(DoBegin(st, s, req), k, p))
  {
    KnockNodes(st, s, req, k);
    SameView(st, DoBegin(st, s, req), k, p);
  }

  lemma LockNodes(st: State, s: Site, k: Key)
    ensures At(st, s).commit.Locked? ==> SameNodes(st, DoCheck(st, s), k)
    ensures At(st, s).commit.Queued? ==> SameNodes(st, DoRelease(st, s), k)
  {
    if s == S0 {} else {}
  }

  lemma AbortNodes(st: State, s: Site, k: Key)
    requires At(st, s).commit.Conflict?
    ensures SameNodes(st, DoAbort(st, s), k)
  {
    var st' := DoAbort(st, s);
    assert SameNode(At(st, s), At(st', s), k);
    assert SameNode(At(st, Other(s)), At(st', Other(s)), k);
    if s == S0 {} else {}
  }

  lemma QuietLock(st: State, a: Action, k: Key, p: Site)
    requires Enabled(st, a) && (a.Check? || a.Abort? || a.Release?)
    ensures SameLists(ViewOf(st, k, p), ViewOf(Next(st, a), k, p))
  {
    if a.Abort? { AbortNodes(st, a.s, k); } else { LockNodes(st, a.s, k); }
    SameView(st, Next(st, a), k, p);
  }

  lemma UnlockNodes(st: State, s: Site, k: Key)
    requires At(st, s).delivery.Stored?
    ensures SameNodes(st, DoUnlock(st, s), k)
  {
  }

  lemma CountNodes(st: State, s: Site, k: Key)
    requires Enabled(st, Count(s))
    ensures SameNodes(st, DoCount(st, s), k)
  {
  }

  lemma QuietDelivery(st: State, a: Action, k: Key, p: Site)
    requires Enabled(st, a) && (a.Unlock? || a.Count?)
    ensures SameLists(ViewOf(st, k, p), ViewOf(Next(st, a), k, p))
  {
    if a.Unlock? { UnlockNodes(st, a.s, k); } else { CountNodes(st, a.s, k); }
    SameView(st, Next(st, a), k, p);
  }

  lemma FlowCommit(seed: seq<Entry>, st: State, a: Action, k: Key, j: Site)
    requires Tagged(At(st, a.s), a.s) && Enabled(st, a) && FlowOk(seed, FlowOf(st, k, j))
    requires a.Stamp? || a.Push? || a.Enqueue?
    ensures FlowOk(seed, FlowOf(Next(st, a), k, j))
  {
    var v := ViewOf(st, k, j);
    var c := At(st, a.s).commit;
    match a
    case Stamp(s) =>
      ViewStamp(st, s, k, j);
      if c.req.key == k { FlowStamp(seed, v, At(DoStamp(st, s), s).commit, s == j, j); }
    case Push(s) =>
      ViewPush(st, s, k, j);
      if c.req.key == k { FlowPush(seed, v, c, s == j, j); }
    case Enqueue(s) =>
      ViewEnqueue(st, s, k, j);
      if c.req.key == k { FlowEnqueue(seed, v, c, if c.req.kind == Fast then Queued(c.req) else Idle, s == j, j); }
  }

  lemma FlowDeliver(seed: seq<Entry>, st: State, s: Site, k: Key, j: Site)
    requires Tagged(At(st, s), s) && At(st, s).delivery.Got? && FlowOk(seed, FlowOf(st, k, j))
    ensures FlowOk(seed, FlowOf(DoStore(st, s), k, j))
  {
    ViewStore(st, s, k, j);
    var m := At(st, s).delivery.msg;
    var v' := ViewOf(DoStore(st, s), k, j);
    if m.key == k { FlowStore(seed, ViewOf(st, k, j), m.entry, if s == j then v'.qr else v'.qp, s == j, j); }
  }

  lemma FlowStep(seed: seq<Entry>, st: State, a: Action, k: Key, j: Site)
    requires ClockInv(st) && Enabled(st, a) && FlowOk(seed, FlowOf(st, k, j))
    ensures FlowOk(seed, FlowOf(Next(st, a), k, j))
  {
    ClockTagged(st, a.s);
    if a.Stamp? || a.Push? || a.Enqueue? {
      FlowCommit(seed, st, a, k, j);
    } else if a.Store? {
      FlowDeliver(seed, st, a.s, k, j);
    } else if a.Send? {
      ViewSend(st, a.s, k, j);
    } else if a.Receive? {
      ViewReceive(st, a.s, k, j);
    } else if a.Unlock? || a.Count? {
      QuietDelivery(st, a, k, j);
    } else if a.Begin? {
      QuietBegin(st, a.s, a.req, k, j);
    } else {
      QuietLock(st, a, k, j);
    }
  }

  lemma {:induction false} SeedsOnly(h: seq<Entry>, j: Site)
    requires forall i | 0 <= i < |h| :: h[i].tag == Seed
    ensures From(h, j) == [] && SeedPart(h) == h
  {
    if h != [] {
      SeedsOnly(h[..|h|-1], j);
      assert h == h[..|h|-1] + [h[|h|-1]];
    }
  }

  lemma {:induction false} FlowRun(seed: seq<Entry>, st: State, acts: seq<Action>, k: Key, j: Site)
    requires ClockInv(st) && CanRun(st, acts) && FlowOk(seed, FlowOf(st, k, j))
    ensures FlowOk(seed, FlowOf(Run(st, acts), k, j))
    decreases |acts|
  {
    if acts != [] {
      ClockStep(st, acts[0]);
      FlowStep(seed, st, acts[0], k, j);
      FlowRun(seed, Next(st, acts[0]), acts[1..], k, j);
    }
  }

  lemma InitFlow(seeds: map<Key, seq<Entry>>, k: Key, j: Site)
    requires Seeds(seeds)
    ensures FlowOk(SeedOf(seeds, k), FlowOf(Init(seeds), k, j))
  {
    var seed := SeedOf(seeds, k);
    SeedsOnly(seed, j);
    assert ViewOf(Init(seeds), k, j) == View(seed, seed, [], [], [], Idle, Idle, 0, []);
  }

  /** Holds of every run, honest or not, and of every list. */
  lemma RunFlow(seeds: map<Key, seq<Entry>>, acts: seq<Action>, k: Key, j: Site)
    requires Seeds(seeds) && CanRun(Init(seeds), acts)
    ensures FlowOk(SeedOf(seeds, k), FlowOf(Run(Init(seeds), acts), k, j))
  {
    InitClock(seeds);
    InitFlow(seeds, k, j);
    FlowRun(SeedOf(seeds, k), Init(seeds), acts, k, j);
  }
}
