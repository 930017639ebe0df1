/**
 What the version vectors mean: `vts[j]` at a site counts the commits of site j
 applied there, the rest of j's commits are queued towards it in order, and the
 versions of two commits are ordered exactly when one had been applied where the
 other was stamped.
 */
module DiaryClock {
  import opened DiaryProtocol

  /** The message of a commit that is stamped but not yet in msg_list. */
  function CommitMsg(c: Commit): seq<Msg> {
    if c.Stamped? || c.Pushed? then [Msg(c.req.kind, c.req.key, c.entry)] else []
  }

  function DeliveryMsg(d: Delivery): seq<Msg> {
    if d.NoMsg? then [] else [d.msg]
  }

  /** Everything `from` has stamped that `to` has not counted yet, oldest first. */
  function Between(from: Node, to: Node): seq<Msg> {
    DeliveryMsg(to.delivery) + to.inbox + from.outbox + CommitMsg(from.commit)
  }

  function ToCount(st: State, s: Site): seq<Msg> {
    Between(At(st, s), At(st, Other(s)))
  }

  /** `m` is the message of the n-th commit of site s. */
  predicate Carries(commits: seq<Rec>, m: Msg, s: Site, n: int) {
    && m.entry.tag.By? && m.entry.tag.origin == s && m.entry.tag.id < |commits|
    && var c := commits[m.entry.tag.id];
       c.origin == s && c.key == m.key && c.ver == m.entry.ver && c.payload == m.entry.payload
       && Comp(c.ver, s) == n
  }

  /** How many of the commits in `ids` come from site j. */
  function CountFrom(commits: seq<Rec>, ids: set<nat>, j: Site): nat
  {
    if commits == [] then 0
    else
      var last := |commits| - 1;
      CountFrom(commits[..last], ids, j) + (if last in ids && commits[last].origin == j then 1 else 0)
  }

  /** `q` holds, in order, the commits of s that lie between `there` counted and `here` made. */
  ghost predicate QueueOk(commits: seq<Rec>, q: seq<Msg>, s: Site, there: int, here: int) {
    && 0 <= there
    && there + |q| == here
    && (forall i | 0 <= i < |q| :: Carries(commits, q[i], s, there + 1 + i))
  }

  ghost predicate SeqNoOk(commits: seq<Rec>, made0: int, made1: int) {
    && (forall i | 0 <= i < |commits| :: Leq(ZERO, commits[i].ver))
    && (forall i | 0 <= i < |commits| ::
          1 <= Comp(commits[i].ver, commits[i].origin) <= (if commits[i].origin == S0 then made0 else made1))
    && (forall i, j | 0 <= i < j < |commits| && commits[i].origin == commits[j].origin ::
          Comp(commits[i].ver, commits[i].origin) < Comp(commits[j].ver, commits[j].origin))
  }

  ghost predicate AppliedOk(commits: seq<Rec>, applied: set<nat>, vts: Ver) {
    && (forall i | i in applied :: i < |commits| && Leq(commits[i].ver, vts))
    && (forall i | 0 <= i < |commits| ::
          i in applied <==> Comp(commits[i].ver, commits[i].origin) <= Comp(vts, commits[i].origin))
    && CountFrom(commits, applied, S0) == vts.first
    && CountFrom(commits, applied, S1) == vts.second
  }

  ghost predicate OrderOk(commits: seq<Rec>) {
    && (forall j | 0 <= j < |commits| :: forall i | i in commits[j].seen :: i < j)
    && (forall i, j | 0 <= i < |commits| && 0 <= j < |commits| ::
          Leq(commits[i].ver, commits[j].ver) <==> (i == j || i in commits[j].seen))
  }

  ghost predicate ClockOk(commits: seq<Rec>, v0: Ver, v1: Ver, q0: seq<Msg>, q1: seq<Msg>, a0: set<nat>, a1: set<nat>) {
    && QueueOk(commits, q0, S0, v1.first, v0.first)
    && QueueOk(commits, q1, S1, v0.second, v1.second)
    && SeqNoOk(commits, v0.first, v1.second)
    && AppliedOk(commits, a0, v0)
    && AppliedOk(commits, a1, v1)
    && OrderOk(commits)
  }

  ghost predicate ClockInv(st: State) {
    ClockOk(st.commits, st.n0.vts, st.n1.vts, ToCount(st, S0), ToCount(st, S1), st.n0.applied, st.n1.applied)
  }

  lemma {:induction false} CountFromSame(commits: seq<Rec>, ids: set<nat>, id: nat, j: Site)
    requires id >= |commits| || id in ids
    ensures CountFrom(commits, ids + {id}, j) == CountFrom(commits, ids, j)
  {
    if commits != [] {
      var last := |commits| - 1;
      if id == last && id in ids {
        assert ids + {id} == ids;
      } else {
        CountFromSame(commits[..last], ids, id, j);
      }
    }
  }

  lemma {:induction false} CountFromAdd(commits: seq<Rec>, ids: set<nat>, id: nat, j: Site)
    requires id < |commits| && id !in ids
    ensures CountFrom(commits, ids + {id}, j) == CountFrom(commits, ids, j) + (if commits[id].origin == j then 1 else 0)
  {
    var last := |commits| - 1;
    if id == last {
      CountFromSame(commits[..last], ids, id, j);
    } else {
      CountFromAdd(commits[..last], ids, id, j);
    }
  }

  lemma CountFromGrow(commits: seq<Rec>, c: Rec, ids: set<nat>, j: Site)
    ensures CountFrom(commits + [c], ids, j) == CountFrom(commits, ids, j) + (if |commits| in ids && c.origin == j then 1 else 0)
  {
    assert (commits + [c])[..|commits|] == commits;
  }

  lemma InitClock(seeds: map<Key, seq<Entry>>)
    requires Seeds(seeds)
    ensures ClockInv(Init(seeds))
  {
  }

  // ---- Stamp, on plain values: site s with vector v makes commit c; the other site has vector w

  lemma StampSeqNo(commits: seq<Rec>, c: Rec, v: Ver, w: Ver)
    requires SeqNoOk(commits, Comp(if c.origin == S0 then v else w, S0), Comp(if c.origin == S0 then w else v, S1))
    requires c.ver == Bump(v, c.origin) && Leq(ZERO, v)
    ensures SeqNoOk(commits + [c], Comp(if c.origin == S0 then c.ver else w, S0), Comp(if c.origin == S0 then w else c.ver, S1))
  {
  }

  lemma StampAppliedHere(commits: seq<Rec>, c: Rec, applied: set<nat>, v: Ver)
    requires AppliedOk(commits, applied, v)
    requires c.ver == Bump(v, c.origin)
    requires forall i | 0 <= i < |commits| && commits[i].origin == c.origin :: Comp(commits[i].ver, c.origin) <= Comp(v, c.origin)
    ensures AppliedOk(commits + [c], applied + {|commits|}, c.ver)
  {
    var id := |commits|;
    forall j: Site
      ensures CountFrom(commits + [c], applied + {id}, j) == CountFrom(commits, applied, j) + (if c.origin == j then 1 else 0)
    {
      CountFromGrow(commits, c, applied + {id}, j);
      CountFromSame(commits, applied, id, j);
    }
  }

  lemma StampAppliedThere(commits: seq<Rec>, c: Rec, applied: set<nat>, w: Ver)
    requires AppliedOk(commits, applied, w)
    requires Comp(c.ver, c.origin) > Comp(w, c.origin)
    ensures AppliedOk(commits + [c], applied, w)
  {
    CountFromGrow(commits, c, applied, S0);
    CountFromGrow(commits, c, applied, S1);
  }

  lemma StampOrder(commits: seq<Rec>, c: Rec, v: Ver, w: Ver, there: set<nat>)
    requires OrderOk(commits) && AppliedOk(commits, c.seen, v) && AppliedOk(commits, there, w)
    requires c.ver == Bump(v, c.origin)
    requires Comp(w, c.origin) <= Comp(v, c.origin)
    requires forall i | 0 <= i < |commits| && commits[i].origin == c.origin :: Comp(commits[i].ver, c.origin) <= Comp(v, c.origin)
    requires forall i | 0 <= i < |commits| && commits[i].origin != c.origin :: i in there
    ensures OrderOk(commits + [c])
  {
    forall i | 0 <= i < |commits|
      ensures Leq(commits[i].ver, c.ver) <==> i in c.seen
      ensures !Leq(c.ver, commits[i].ver)
    {
    }
  }

  lemma StampQueueHere(commits: seq<Rec>, c: Rec, q: seq<Msg>, m: Msg, v: Ver, there: int)
    requires QueueOk(commits, q, c.origin, there, Comp(v, c.origin))
    requires c.ver == Bump(v, c.origin)
    requires m.key == c.key && m.entry == Entry(c.ver, c.payload, By(c.origin, |commits|))
    ensures QueueOk(commits + [c], q + [m], c.origin, there, Comp(c.ver, c.origin))
  {
  }

  lemma StampQueueThere(commits: seq<Rec>, c: Rec, q: seq<Msg>, s: Site, there: int, here: int)
    requires QueueOk(commits, q, s, there, here)
    ensures QueueOk(commits + [c], q, s, there, here)
  {
    forall i | 0 <= i < |q|
      ensures Carries(commits + [c], q[i], s, there + 1 + i)
    {
      assert Carries(commits, q[i], s, there + 1 + i);
    }
  }

  lemma StampViews(st: State, s: Site)
    requires At(st, s).commit.Checked?
    ensures var st' := DoStamp(st, s); var c := StampRec(st, s);
      && ToCount(st', s) == ToCount(st, s) + [Msg(At(st, s).commit.req.kind, c.key, Entry(c.ver, c.payload, By(s, |st.commits|)))]
      && ToCount(st', Other(s)) == ToCount(st, Other(s))
  {
  }

  /** ClockOk with the sites named from the point of view of s: v, q, a at s and w, r, b at the other. */
  ghost predicate ClockAt(commits: seq<Rec>, s: Site, v: Ver, w: Ver, q: seq<Msg>, r: seq<Msg>, a: set<nat>, b: set<nat>) {
    if s == S0 then ClockOk(commits, v, w, q, r, a, b) else ClockOk(commits, w, v, r, q, b, a)
  }

  /** What a site has made is covered by its own vector, and what the other made by the other's. */
  lemma OwnAndOther(commits: seq<Rec>, b: set<nat>, s: Site, v: Ver, w: Ver)
    requires SeqNoOk(commits, Comp(if s == S0 then v else w, S0), Comp(if s == S0 then w else v, S1)) && AppliedOk(commits, b, w)
    ensures forall i | 0 <= i < |commits| && commits[i].origin == s :: Comp(commits[i].ver, s) <= Comp(v, s)
    ensures forall i | 0 <= i < |commits| && commits[i].origin != s :: i in b
  {
  }

  lemma StampClock(commits: seq<Rec>, c: Rec, m: Msg, v: Ver, w: Ver, q: seq<Msg>, r: seq<Msg>, b: set<nat>)
    requires ClockAt(commits, c.origin, v, w, q, r, c.seen, b)
    requires c.ver == Bump(v, c.origin)
    requires m.key == c.key && m.entry == Entry(c.ver, c.payload, By(c.origin, |commits|))
    ensures ClockAt(commits + [c], c.origin, c.ver, w, q + [m], r, c.seen + {|commits|}, b)
  {
    hide QueueOk, AppliedOk, SeqNoOk, OrderOk;
    var s := c.origin;
    OwnAndOther(commits, b, s, v, w);
    StampQueueHere(commits, c, q, m, v, Comp(w, s));
    StampQueueThere(commits, c, r, Other(s), Comp(v, Other(s)), Comp(w, Other(s)));
    StampSeqNo(commits, c, v, w);
    StampAppliedHere(commits, c, c.seen, v);
    StampAppliedThere(commits, c, b, w);
    StampOrder(commits, c, v, w, b);
  }

  lemma StampStep(st: State, s: Site)
    requires ClockInv(st) && At(st, s).commit.Checked?
    ensures ClockInv(DoStamp(st, s))
  {
    var n, o := At(st, s), At(st, Other(s));
    var c := StampRec(st, s);
    var m := Msg(n.commit.req.kind, c.key, Entry(c.ver, c.payload, By(s, |st.commits|)));
    StampViews(st, s);
    StampClock(st.commits, c, m, n.vts, o.vts, ToCount(st, s), ToCount(st, Other(s)), o.applied);
  }

  // ---- Count, on plain values: a site with vector v counts message q[0] of site o

  lemma CountApplied(commits: seq<Rec>, applied: set<nat>, v: Ver, m: Msg, o: Site, w: Ver)
    requires AppliedOk(commits, applied, v)
    requires Carries(commits, m, o, Comp(v, o) + 1)
    requires Leq(m.entry.ver, w) && Comp(w, Other(o)) <= Comp(v, Other(o))
    requires forall i, j | 0 <= i < j < |commits| && commits[i].origin == commits[j].origin ::
               Comp(commits[i].ver, commits[i].origin) < Comp(commits[j].ver, commits[j].origin)
    ensures AppliedOk(commits, applied + {m.entry.tag.id}, Bump(v, o))
  {
    var id := m.entry.tag.id;
    CountFromAdd(commits, applied, id, S0);
    CountFromAdd(commits, applied, id, S1);
  }

  lemma CountQueue(commits: seq<Rec>, q: seq<Msg>, s: Site, there: int, here: int)
    requires QueueOk(commits, q, s, there, here) && q != []
    ensures QueueOk(commits, q[1..], s, there + 1, here)
  {
    forall i | 0 <= i < |q| - 1
      ensures Carries(commits, q[1..][i], s, there + 2 + i)
    {
      assert Carries(commits, q[i + 1], s, there + 1 + (i + 1));
    }
  }

  lemma CountViews(st: State, s: Site)
    requires !At(st, s).delivery.NoMsg?
    ensures var st' := DoCount(st, s); var o := Other(s);
      && ToCount(st, o) != [] && ToCount(st, o)[0] == At(st, s).delivery.msg
      && ToCount(st', o) == ToCount(st, o)[1..]
      && ToCount(st', s) == ToCount(st, s)
  {
  }

  lemma FirstCarried(commits: seq<Rec>, s: Site, v: Ver, w: Ver, q: seq<Msg>, r: seq<Msg>, a: set<nat>, b: set<nat>)
    requires ClockAt(commits, s, v, w, q, r, a, b) && r != []
    ensures var o := Other(s);
      && QueueOk(commits, r, o, Comp(v, o), Comp(w, o)) && AppliedOk(commits, a, v) && AppliedOk(commits, b, w)
      && Carries(commits, r[0], o, Comp(v, o) + 1) && r[0].entry.tag.id in b
      && Comp(w, s) <= Comp(v, s)
    ensures forall i, j | 0 <= i < j < |commits| && commits[i].origin == commits[j].origin ::
              Comp(commits[i].ver, commits[i].origin) < Comp(commits[j].ver, commits[j].origin)
  {
    var o := Other(s);
    assert Carries(commits, r[0], o, Comp(v, o) + 1 + 0);
  }

  /** The clock, when s counts the first message on its way to it. */
  lemma CountClock(commits: seq<Rec>, s: Site, v: Ver, w: Ver, q: seq<Msg>, r: seq<Msg>, a: set<nat>, b: set<nat>)
    requires ClockAt(commits, s, v, w, q, r, a, b) && r != []
    ensures r[0].entry.tag.By?
    ensures ClockAt(commits, s, Bump(v, Other(s)), w, q, r[1..], a + {r[0].entry.tag.id}, b)
  {
    hide AppliedOk, SeqNoOk, OrderOk;
    var o := Other(s);
    FirstCarried(commits, s, v, w, q, r, a, b);
    Covered(commits, b, w, r[0].entry.tag.id);
    CountApplied(commits, a, v, r[0], o, w);
    CountQueue(commits, r, o, Comp(v, o), Comp(w, o));
  }

  lemma Covered(commits: seq<Rec>, b: set<nat>, w: Ver, id: nat)
    requires AppliedOk(commits, b, w) && id in b
    ensures id < |commits| && Leq(commits[id].ver, w)
  {
  }

  lemma CountStep(st: State, s: Site)
    requires ClockInv(st) && !At(st, s).delivery.NoMsg?
    ensures ClockInv(DoCount(st, s))
  {
    hide ClockOk, ToCount, Bump;
    var o := Other(s);
    var n := At(st, s);
    CountViews(st, s);
    CountClock(st.commits, s, n.vts, At(st, o).vts, ToCount(st, s), ToCount(st, o), n.applied, At(st, o).applied);
    FirstMade(st, s);
  }

  lemma FirstMade(st: State, s: Site)
    requires ClockInv(st) && !At(st, s).delivery.NoMsg?
    ensures At(st, s).delivery.msg.entry.tag.By?
  {
    CountViews(st, s);
    assert Carries(st.commits, ToCount(st, Other(s))[0], Other(s), Comp(At(st, s).vts, Other(s)) + 1);
  }

  /** The parts of a state the clock invariant speaks of. */
  predicate SameClock(st: State, st': State) {
    && st'.commits == st.commits
    && st'.n0.vts == st.n0.vts && st'.n1.vts == st.n1.vts
    && st'.n0.applied == st.n0.applied && st'.n1.applied == st.n1.applied
    && ToCount(st', S0) == ToCount(st, S0) && ToCount(st', S1) == ToCount(st, S1)
  }

  lemma QuietQueues(st: State, s: Site)
    ensures At(st, s).commit.Pushed? ==> SameClock(st, DoEnqueue(st, s))
    ensures At(st, s).delivery.NoMsg? && At(st, s).inbox != [] ==> SameClock(st, DoReceive(st, s))
  {
    if At(st, s).commit.Pushed? {
      assert ToCount(DoEnqueue(st, s), s) == ToCount(st, s);
    }
    if At(st, s).delivery.NoMsg? && At(st, s).inbox != [] {
      assert ToCount(DoReceive(st, s), Other(s)) == ToCount(st, Other(s));
    }
  }

  lemma QuietSend(st: State, s: Site)
    requires At(st, s).outbox != []
    ensures SameClock(st, DoSend(st, s))
  {
    var st' := DoSend(st, s);
    assert At(st, s).outbox == [At(st, s).outbox[0]] + At(st', s).outbox;
    assert ToCount(st', s) == ToCount(st, s);
  }

  lemma QuietLocks(st: State, s: Site)
    ensures At(st, s).commit.Locked? ==> SameClock(st, DoCheck(st, s))
    ensures At(st, s).commit.Conflict? ==> SameClock(st, DoAbort(st, s))
    ensures At(st, s).commit.Queued? ==> SameClock(st, DoRelease(st, s))
  {
  }

  lemma QuietBegins(st: State, s: Site, req: Req)
    requires At(st, s).commit == Idle
    ensures SameClock(st, DoBegin(st, s, req))
  {
  }

  lemma QuietLists(st: State, s: Site)
    ensures At(st, s).commit.Stamped? ==> SameClock(st, DoPush(st, s))
    ensures At(st, s).delivery.Got? ==> SameClock(st, DoStore(st, s))
    ensures At(st, s).delivery.Stored? ==> SameClock(st, DoUnlock(st, s))
  {
  }

  /** Steps other than Stamp and Count leave the queue contents and the vectors alone. */
  lemma QuietStep(st: State, a: Action)
    requires Enabled(st, a) && !a.Stamp? && !a.Count?
    ensures SameClock(st, Next(st, a))
  {
    if a.Send? {
      QuietSend(st, a.s);
    } else if a.Begin? {
      QuietBegins(st, a.s, a.req);
    } else {
      QuietQueues(st, a.s);
      QuietLocks(st, a.s);
      QuietLists(st, a.s);
    }
  }

  /** Every step keeps the clock invariant. */
  lemma ClockStep(st: State, a: Action)
    requires ClockInv(st) && Enabled(st, a)
    ensures ClockInv(Next(st, a))
  {
    if a.Stamp? {
      StampStep(st, a.s);
    } else if a.Count? {
      CountStep(st, a.s);
    } else {
      QuietStep(st, a);
    }
  }
}
