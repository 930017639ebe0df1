/**
 Where the protocol's guarantees stop: diaries whose identifier has no preferred site,
 and edits that start from a version their site is still applying.
 */
module DiaryLimits {
  import opened DiaryProtocol
  import opened DiaryClock
  import opened DiaryHistory
  import opened DiaryInvariant
  import opened DiaryTheorems

  lemma {:induction false} RunAppend(st: State, acts: seq<Action>, a: Action)
    requires CanRun(st, acts) && Enabled(Run(st, acts), a)
    ensures CanRun(st, acts + [a]) && Run(st, acts + [a]) == Next(Run(st, acts), a)
    ensures HonestRun(st, acts + [a]) <==> HonestRun(st, acts) && Honest(Run(st, acts), a)
    decreases |acts|
  {
    if acts == [] {
      assert acts + [a] == [a];
      assert [a][1..] == [];
    } else {
      RunAppend(Next(st, acts[0]), acts[1..], a);
      assert (acts + [a])[1..] == acts[1..] + [a];
    }
  }

  lemma ReachInit(seeds: map<Key, seq<Entry>>)
    requires Seeds(seeds)
    ensures Reachable(seeds, Init(seeds))
  {
    assert CanRun(Init(seeds), []) && HonestRun(Init(seeds), []);
  }

  lemma ReachNext(seeds: map<Key, seq<Entry>>, st: State, a: Action)
    requires Reachable(seeds, st) && Enabled(st, a) && Honest(st, a)
    ensures Reachable(seeds, Next(st, a))
  {
    var acts :| CanRun(Init(seeds), acts) && HonestRun(Init(seeds), acts) && Run(Init(seeds), acts) == st;
    RunAppend(Init(seeds), acts, a);
  }

  /** Two slow commits of a diary without a preferred site, both past their checks. */
  lemma HomelessChecked(d: int) returns (st: State)
    requires !Homed(d)
    ensures Reachable(map[], st)
    ensures st == State(Node(map[], map[Diary(d) := 1], ZERO, [], [], Checked(HalfReq(d)), NoMsg, {}),
                        Node(map[], map[Diary(d) := 1], ZERO, [], [], Checked(HalfReq(d)), NoMsg, {}), [])
  {
    hide Reachable, NoLostUpdate;
    var req := HalfReq(d);
    var st0 := Init(map[]);
    ReachInit(map[]);
    ReachNext(map[], st0, Begin(S0, req));
    var st1 := DoBegin(st0, S0, req);
    ReachNext(map[], st1, Begin(S1, req));
    var st2 := DoBegin(st1, S1, req);
    ReachNext(map[], st2, Check(S0));
    var st3 := DoCheck(st2, S0);
    ReachNext(map[], st3, Check(S1));
    st := DoCheck(st3, S1);
  }

  /** Without a preferred site both sites go slow, each under the other's lock, and both commit. */
  lemma HomelessLosesUpdate(d: int) returns (st: State)
    requires !Homed(d)
    ensures Reachable(map[], st) && !NoLostUpdate(st.commits, d)
  {
    var st4 := HomelessChecked(d);
    ReachNext(map[], st4, Stamp(S0));
    var st5 := DoStamp(st4, S0);
    ReachNext(map[], st5, Stamp(S1));
    st := DoStamp(st5, S1);
    assert st.commits[0].ver == Ver(1, 0) && st.commits[1].ver == Ver(0, 1);
  }

  /** The preferred site is the remainder of a division by two that truncates towards zero. */
  lemma PreferSiteIs(d: int) returns (q: int)
    ensures d == 2 * q + PreferSite(d) && -1 <= PreferSite(d) <= 1
    ensures (d >= 0 ==> PreferSite(d) >= 0) && (d <= 0 ==> PreferSite(d) <= 0)
  {
    q := if d % 2 == 0 || d > 0 then d / 2 else d / 2 + 1;
  }

  /** The protocol never loses an update of diary d exactly when `d % 2` names a site. */
  lemma NoLostUpdateIffHomed(d: int)
    ensures Homed(d) <==> PreferSite(d) == 0 || PreferSite(d) == 1
    ensures Homed(d) <==> (forall seeds, st | Reachable(seeds, st) :: NoLostUpdate(st.commits, d))
  {
    if Homed(d) {
      forall seeds, st | Reachable(seeds, st) ensures NoLostUpdate(st.commits, d) {
        NoLostUpdateEver(seeds, st, d);
      }
    } else {
      var st := HomelessLosesUpdate(d);
      assert Reachable(map[], st) && !NoLostUpdate(st.commits, d);
    }
  }

  function HalfReq(d: int): Req {
    Req(Slow, Diary(d), ZERO, "")
  }

  function HalfEntry(p: Site): Entry {
    Entry(Bump(ZERO, Other(p)), "", By(Other(p), 0))
  }

  function HalfMsg(d: int, p: Site): Msg {
    Msg(Slow, Diary(d), HalfEntry(p))
  }

  function Pair(p: Site, np: Node, nr: Node, commits: seq<Rec>): State {
    if p == S0 then State(np, nr, commits) else State(nr, np, commits)
  }

  /** An honest slow commit of d from the seedless start, up to its check. */
  lemma HalfChecked(d: int, p: Site) returns (st: State)
    requires Homed(d) && p == Home(d)
    ensures Reachable(map[], st)
    ensures st == Pair(p, Node(map[], map[Diary(d) := 1], ZERO, [], [], Idle, NoMsg, {}),
                          Node(map[], map[], ZERO, [], [], Checked(HalfReq(d)), NoMsg, {}), [])
  {
    var r := Other(p);
    var st0 := Init(map[]);
    ReachInit(map[]);
    ReachNext(map[], st0, Begin(r, HalfReq(d)));
    var st1 := DoBegin(st0, r, HalfReq(d));
    ReachNext(map[], st1, Check(r));
    st := DoCheck(st1, r);
  }

  lemma HalfStamped(d: int, p: Site) returns (st: State)
    requires Homed(d) && p == Home(d)
    ensures Reachable(map[], st)
    ensures st == Pair(p, Node(map[], map[Diary(d) := 1], ZERO, [], [], Idle, NoMsg, {}),
                          Node(map[], map[], HalfEntry(p).ver, [], [], Stamped(HalfReq(d), HalfEntry(p)), NoMsg, {0}),
                          [Rec(Other(p), Diary(d), ZERO, HalfEntry(p).ver, "", {})])
  {
    var st2 := HalfChecked(d, p);
    ReachNext(map[], st2, Stamp(Other(p)));
    st := DoStamp(st2, Other(p));
    assert {} + {0 as nat} == {0};
  }

  lemma HalfPushed(d: int, p: Site) returns (st: State)
    requires Homed(d) && p == Home(d)
    ensures Reachable(map[], st)
    ensures st == Pair(p, Node(map[], map[Diary(d) := 1], ZERO, [], [], Idle, NoMsg, {}),
                          Node(map[Diary(d) := [HalfEntry(p)]], map[], HalfEntry(p).ver, [], [], Pushed(HalfReq(d), HalfEntry(p)), NoMsg, {0}),
                          [Rec(Other(p), Diary(d), ZERO, HalfEntry(p).ver, "", {})])
  {
    var st3 := HalfStamped(d, p);
    ReachNext(map[], st3, Push(Other(p)));
    st := DoPush(st3, Other(p));
    assert [] + [HalfEntry(p)] == [HalfEntry(p)];
  }

  lemma HalfQueued(d: int, p: Site) returns (st: State)
    requires Homed(d) && p == Home(d)
    ensures Reachable(map[], st)
    ensures st == Pair(p, Node(map[], map[Diary(d) := 1], ZERO, [], [], Idle, NoMsg, {}),
                          Node(map[Diary(d) := [HalfEntry(p)]], map[], HalfEntry(p).ver, [HalfMsg(d, p)], [], Idle, NoMsg, {0}),
                          [Rec(Other(p), Diary(d), ZERO, HalfEntry(p).ver, "", {})])
  {
    var st4 := HalfPushed(d, p);
    ReachNext(map[], st4, Enqueue(Other(p)));
    st := DoEnqueue(st4, Other(p));
  }

  lemma HalfReceived(d: int, p: Site) returns (st: State)
    requires Homed(d) && p == Home(d)
    ensures Reachable(map[], st)
    ensures At(st, p) == Node(map[], map[Diary(d) := 1], ZERO, [], [], Idle, Got(HalfMsg(d, p)), {})
    ensures st.commits == [Rec(Other(p), Diary(d), ZERO, HalfEntry(p).ver, "", {})]
  {
    var st5 := HalfQueued(d, p);
    ReachNext(map[], st5, Send(Other(p)));
    var st6 := DoSend(st5, Other(p));
    assert At(st6, p).inbox == [HalfMsg(d, p)];
    ReachNext(map[], st6, Receive(p));
    st := DoReceive(st6, p);
  }

  /** The same commit, stored and unlocked at the preferred site but not yet counted there. */
  lemma HalfApplied(d: int) returns (st: State)
    requires Homed(d)
    ensures Reachable(map[], st)
    ensures var p := Home(d); var e := Bump(ZERO, Other(p));
      && At(st, p).commit == Idle && At(st, p).vts == ZERO && Lock(At(st, p), Diary(d)) == 0
      && List(At(st, p), Diary(d)) == [Entry(e, "", By(Other(p), 0))]
      && |st.commits| == 1 && st.commits[0].key == Diary(d) && st.commits[0].ver == e
  {
    var p := Home(d);
    var st7 := HalfReceived(d, p);
    ReachNext(map[], st7, Store(p));
    var st8 := DoStore(st7, p);
    ReachNext(map[], st8, Unlock(p));
    st := DoUnlock(st8, p);
  }

  /**
   The assumption on clients is needed for every diary: after an honest run, one edit that starts
   from the version its own site's history already shows, but has not finished applying, commits
   a version that does not dominate it.
   */
  lemma HonestyNeeded(d: int) returns (st: State, req: Req)
    requires Homed(d)
    ensures Reachable(map[], st) && Enabled(st, Begin(Home(d), req)) && req.key == Diary(d)
    ensures var h := List(At(st, Home(d)), Diary(d)); h != [] && req.startTs == h[|h|-1].ver
    ensures var st1 := DoBegin(st, Home(d), req);
      At(st1, Home(d)).commit.Locked? &&
      var st2 := DoCheck(st1, Home(d));
      At(st2, Home(d)).commit.Checked? && !NoLostUpdate(DoStamp(st2, Home(d)).commits, d)
  {
    hide Reachable, DoCheck, DoStamp, NoLostUpdate;
    st := HalfApplied(d);
    req := Req(Fast, Diary(d), Bump(ZERO, Other(Home(d))), "");
    assert Issued(Home(d), req) && NoConflict(List(At(st, Home(d)), Diary(d)), req.startTs);
    Overtaken(st, d, req);
  }

  lemma Overtaken(st: State, d: int, req: Req)
    requires var p := Home(d); var e := Bump(ZERO, Other(p));
      && At(st, p).commit == Idle && At(st, p).vts == ZERO && Lock(At(st, p), Diary(d)) == 0
      && NoConflict(List(At(st, p), Diary(d)), e) && req == Req(Fast, Diary(d), e, "")
      && Issued(p, req) && |st.commits| == 1 && st.commits[0].key == Diary(d) && st.commits[0].ver == e
    ensures var st1 := DoBegin(st, Home(d), req);
      At(st1, Home(d)).commit.Locked? &&
      var st2 := DoCheck(st1, Home(d));
      At(st2, Home(d)).commit.Checked? && !NoLostUpdate(DoStamp(st2, Home(d)).commits, d)
  {
    var p := Home(d);
    BeginThenCheck(st, p, req);
    var st2 := DoCheck(DoBegin(st, p, req), p);
    var cs := DoStamp(st2, p).commits;
    assert st2.commits == st.commits && cs == st.commits + [StampRec(st2, p)];
    assert cs[0].ver == Bump(ZERO, Other(p)) && cs[1].ver == Bump(ZERO, p) && cs[1].key == Diary(d);
  }

  lemma QueuedCommit(st: State, s: Site, i: nat) returns (x: nat)
    requires ClockInv(st) && i < |st.commits| && st.commits[i].origin == s
    requires Comp(st.commits[i].ver, s) > Comp(At(st, Other(s)).vts, s)
    ensures x < |ToCount(st, s)| && ToCount(st, s)[x].key == st.commits[i].key
  {
    x := Comp(st.commits[i].ver, s) - Comp(At(st, Other(s)).vts, s) - 1;
    assert Carries(st.commits, ToCount(st, s)[x], s, Comp(At(st, Other(s)).vts, s) + 1 + x);
    var id := ToCount(st, s)[x].entry.tag.id;
    if id < i {} else if i < id {}
  }

  lemma {:induction false} EntriesOfHas(ms: seq<Msg>, k: Key, x: nat)
    requires x < |ms| && ms[x].key == k
    ensures EntriesOf(ms, k) != []
  {
    if x > 0 {
      EntriesOfHas(ms[1..], k, x - 1);
    }
  }

  /** The committed versions of d lie below the site's vector iff none is on its way there. */
  lemma SettledIff(st: State, s: Site, d: int)
    requires ClockInv(st)
    ensures (forall i | 0 <= i < |st.commits| && st.commits[i].key == Diary(d) :: Leq(st.commits[i].ver, At(st, s).vts))
       <==> EntriesOf(ToCount(st, Other(s)), Diary(d)) == []
  {
    var q := ToCount(st, Other(s));
    var o := Other(s);
    assert AppliedOk(st.commits, At(st, s).applied, At(st, s).vts);
    if EntriesOf(q, Diary(d)) == [] {
      forall i | 0 <= i < |st.commits| && st.commits[i].key == Diary(d)
        ensures Leq(st.commits[i].ver, At(st, s).vts)
      {
        if i !in At(st, s).applied {
          var x := QueuedCommit(st, o, i);
          EntriesOfHas(q, Diary(d), x);
          assert false;
        }
      }
    } else {
      var x := EntriesOfMember(q, Diary(d), EntriesOf(q, Diary(d))[0]);
      assert Carries(st.commits, q[x], o, Comp(At(st, s).vts, o) + 1 + x);
      assert !Leq(st.commits[q[x].entry.tag.id].ver, At(st, s).vts);
    }
  }

  /** No commit has reached past what its own site has made, so a new stamp adds nothing below it. */
  lemma StampAboveIff(st: State, s: Site)
    requires ClockInv(st)
    ensures forall i | 0 <= i < |st.commits| ::
      Leq(st.commits[i].ver, At(st, s).vts) <==> Less(st.commits[i].ver, Bump(At(st, s).vts, s))
  {
    assert SeqNoOk(st.commits, st.n0.vts.first, st.n1.vts.second);
    forall i | 0 <= i < |st.commits|
      ensures Comp(st.commits[i].ver, s) <= Comp(At(st, s).vts, s)
    {
      if st.commits[i].origin != s {
        assert i in At(st, Other(s)).applied;
      }
    }
  }

  lemma AnyReachNext(seeds: map<Key, seq<Entry>>, st: State, a: Action)
    requires AnyReachable(seeds, st) && Enabled(st, a)
    ensures AnyReachable(seeds, Next(st, a))
  {
    var acts :| CanRun(Init(seeds), acts) && Run(Init(seeds), acts) == st;
    RunAppend(Init(seeds), acts, a);
  }

  /**
   Exactly which stamps are safe, in any run and with any steps between check and stamp: the new
   version lies above all committed versions of the diary if and only if no replication message
   about the diary is waiting for, or being applied at, the site that stamps.
   */
  lemma StampSafeIff(seeds: map<Key, seq<Entry>>, st: State, s: Site, d: int)
    requires AnyReachable(seeds, st) && At(st, s).commit.Checked?
    ensures (forall i | 0 <= i < |st.commits| && st.commits[i].key == Diary(d) :: Less(st.commits[i].ver, StampRec(st, s).ver))
       <==> EntriesOf(ToCount(st, Other(s)), Diary(d)) == []
  {
    AnyReachableInv(seeds, st);
    SettledIff(st, s, d);
    StampAboveIff(st, s);
  }

  lemma LostMore(commits: seq<Rec>, c: Rec, d: int)
    requires c.key == Diary(d)
    requires forall i | 0 <= i < |commits| && commits[i].key == Diary(d) :: Leq(commits[i].ver, c.startTs)
    ensures NoLostUpdate(commits + [c], d) <==>
      NoLostUpdate(commits, d) && forall i | 0 <= i < |commits| && commits[i].key == Diary(d) :: Less(commits[i].ver, c.ver)
  {
    var all := commits + [c];
    if NoLostUpdate(all, d) {
      forall i, j | 0 <= i < j < |commits| && commits[i].key == Diary(d) && commits[j].key == Diary(d)
        ensures Leq(commits[i].ver, commits[j].startTs) && Less(commits[i].ver, commits[j].ver)
      {
        assert all[i] == commits[i] && all[j] == commits[j];
      }
      forall i | 0 <= i < |commits| && commits[i].key == Diary(d) ensures Less(commits[i].ver, c.ver) {
        assert all[i] == commits[i] && all[|commits|] == c;
      }
    }
  }

  /** So a run of any edits loses an update of a diary exactly at the stamps that overtake a message about it. */
  lemma StampLosesIff(seeds: map<Key, seq<Entry>>, st: State, s: Site, d: int)
    requires AnyReachable(seeds, st) && Homed(d)
    requires At(st, s).commit.Checked? && At(st, s).commit.req.key == Diary(d)
    ensures NoLostUpdate(DoStamp(st, s).commits, d)
       <==> NoLostUpdate(st.commits, d) && EntriesOf(ToCount(st, Other(s)), Diary(d)) == []
  {
    AnyReachNext(seeds, st, Stamp(s));
    var c, all := StampRec(st, s), DoStamp(st, s).commits;
    StartsDominate(seeds, DoStamp(st, s), d);
    forall i | 0 <= i < |st.commits| && st.commits[i].key == Diary(d) ensures Leq(st.commits[i].ver, c.startTs) {
      assert all[i] == st.commits[i] && all[|st.commits|] == c;
    }
    LostMore(st.commits, c, d);
    StampSafeIff(seeds, st, s, d);
  }

  lemma BeginThenCheck(st: State, s: Site, req: Req)
    requires Enabled(st, Begin(s, req))
    requires var n := At(st, LockSite(s, req.kind)); Lock(n, req.key) == 0 && NoConflict(List(n, req.key), req.startTs)
    ensures var st1 := DoBegin(st, s, req);
      At(st1, s).commit.Locked? && At(DoCheck(st1, s), s).commit == Checked(req)
      && StampRec(DoCheck(st1, s), s).ver == Bump(At(st, s).vts, s)
  {
  }

  /** The same for a whole edit that gets the lock, passes the check and is stamped with no step in between. */
  lemma EditSafeIff(seeds: map<Key, seq<Entry>>, st: State, s: Site, req: Req, d: int)
    requires AnyReachable(seeds, st) && Homed(d) && req.key == Diary(d) && Enabled(st, Begin(s, req))
    requires var n := At(st, LockSite(s, req.kind)); Lock(n, Diary(d)) == 0 && NoConflict(List(n, Diary(d)), req.startTs)
    ensures var st1 := DoBegin(st, s, req);
      At(st1, s).commit.Locked? &&
      var st2 := DoCheck(st1, s);
      At(st2, s).commit == Checked(req) &&
      (NoLostUpdate(DoStamp(st2, s).commits, d)
       <==> NoLostUpdate(st.commits, d) && EntriesOf(ToCount(st, Other(s)), Diary(d)) == [])
  {
    BeginThenCheck(st, s, req);
    var st1 := DoBegin(st, s, req);
    AnyReachNext(seeds, st, Begin(s, req));
    QuietStep(st, Begin(s, req));
    AnyReachNext(seeds, st1, Check(s));
    QuietStep(st1, Check(s));
    StampLosesIff(seeds, DoCheck(st1, s), s, d);
  }
}
