/**
 The invariant of every honest run: clocks, locks, histories and the order of
 the committed versions of each diary that has a preferred site.
 */
module DiaryInvariant {
  import opened DiaryProtocol
  import opened DiaryClock
  import opened DiaryHistory
  import opened DiaryMoves

  function SeedOf(seeds: map<Key, seq<Entry>>, k: Key): seq<Entry> {
    if k in seeds then seeds[k] else []
  }

  predicate HonestCommit(n: Node) {
    !n.commit.Idle? && n.commit.req.key.Diary? ==> Leq(n.commit.req.startTs, n.vts)
  }

  predicate HonestInv(st: State) {
    HonestCommit(st.n0) && HonestCommit(st.n1)
  }

  /** Commit j of the diary started from a version at or above all earlier ones. */
  ghost predicate StartAt(seed: seq<Entry>, commits: seq<Rec>, k: Key, j: nat)
    requires j < |commits|
  {
    && (seed != [] ==> Leq(ZERO, commits[j].startTs))
    && (forall i | 0 <= i < j && commits[i].key == k :: Leq(commits[i].ver, commits[j].startTs))
  }

  ghost predicate StartsOk(seed: seq<Entry>, commits: seq<Rec>, k: Key) {
    forall j | 0 <= j < |commits| && commits[j].key == k :: StartAt(seed, commits, k, j)
  }

  /** An honest commit's version lies above the one it started from. */
  ghost predicate AboveStart(commits: seq<Rec>, k: Key) {
    forall j | 0 <= j < |commits| && commits[j].key == k :: Less(commits[j].startTs, commits[j].ver) && commits[j].ver != ZERO
  }

  /** What every run keeps of a diary. */
  ghost predicate AnyOk(seeds: map<Key, seq<Entry>>, st: State, d: int) {
    && HomeOk(SeedOf(seeds, Diary(d)), ViewOf(st, Diary(d), Home(d)))
    && StartsOk(SeedOf(seeds, Diary(d)), st.commits, Diary(d))
  }

  /** What honest edits add. */
  ghost predicate HonestOk(seeds: map<Key, seq<Entry>>, st: State, d: int) {
    && AwayOk(SeedOf(seeds, Diary(d)), ViewOf(st, Diary(d), Home(d)))
    && AboveStart(st.commits, Diary(d))
  }

  ghost predicate AnyInv(seeds: map<Key, seq<Entry>>, st: State) {
    && Seeds(seeds) && ClockInv(st) && KindInv(st)
    && (forall d | Homed(d) :: AnyOk(seeds, st, d))
  }

  ghost predicate Inv(seeds: map<Key, seq<Entry>>, st: State) {
    && AnyInv(seeds, st) && HonestInv(st)
    && (forall d | Homed(d) :: HonestOk(seeds, st, d))
  }

  lemma InitDiary(seeds: map<Key, seq<Entry>>, d: int)
    ensures AnyOk(seeds, Init(seeds), d) && HonestOk(seeds, Init(seeds), d)
  {
    var v := ViewOf(Init(seeds), Diary(d), Home(d));
    var seed := SeedOf(seeds, Diary(d));
    assert v == View(seed, seed, [], [], [], Idle, Idle, 0, []);
  }

  lemma InitInv(seeds: map<Key, seq<Entry>>)
    requires Seeds(seeds)
    ensures Inv(seeds, Init(seeds))
  {
    InitClock(seeds);
    assert KindInv(Init(seeds)) && HonestInv(Init(seeds));
    forall d | Homed(d) ensures AnyOk(seeds, Init(seeds), d) && HonestOk(seeds, Init(seeds), d) {
      InitDiary(seeds, d);
    }
  }

  lemma HonestStep(st: State, a: Action)
    requires HonestInv(st) && Enabled(st, a) && Honest(st, a)
    ensures HonestInv(Next(st, a))
  {
    match a
    case Begin(s, req) =>
    case Check(s) =>
    case Abort(s) =>
    case Stamp(s) =>
    case Push(s) =>
    case Enqueue(s) =>
    case Release(s) =>
    case Send(s) =>
    case Receive(s) =>
    case Store(s) =>
    case Unlock(s) =>
    case Count(s) =>
  }

  lemma UnstoredUncounted(st: State, s: Site, k: Key, e: Entry)
    requires ClockInv(st)
    requires e in EntriesOf(Unstored(At(st, s), At(st, Other(s))), k)
    ensures Comp(e.ver, s) > Comp(At(st, Other(s)).vts, s)
  {
    hide SeqNoOk, AppliedOk, OrderOk;
    var u := Unstored(At(st, s), At(st, Other(s)));
    var i := EntriesOfMember(u, k, e);
    assert u[i] in ToCount(st, s);
    var q := ToCount(st, s);
    var j :| 0 <= j < |q| && q[j] == u[i];
    assert QueueOk(st.commits, q, s, Comp(At(st, Other(s)).vts, s), Comp(At(st, s).vts, s)) by {
      if s == S0 {} else {}
    }
    assert Carries(st.commits, q[j], s, Comp(At(st, Other(s)).vts, s) + 1 + j);
  }

  /** A slow commit that passes its check knows that nothing about the diary is still on its way to it. */
  lemma SlowCheckSettles(seed: seq<Entry>, st: State, d: int, p: Site)
    requires ClockInv(st)
    requires ViewOk(seed, ViewOf(st, Diary(d), p))
    requires ViewOf(st, Diary(d), p).cr.Locked?
    requires Leq(ViewOf(st, Diary(d), p).cr.req.startTs, At(st, Other(p)).vts)
    requires NoConflict(ViewOf(st, Diary(d), p).lp, ViewOf(st, Diary(d), p).cr.req.startTs)
    ensures ViewOf(st, Diary(d), p).qp == []
  {
    var v := ViewOf(st, Diary(d), p);
    AllHome(seed, v);
    SlowBehind(seed, v);
    if v.qp != [] {
      var e := v.qp[0];
      assert v.lp[|v.lr|] == e;
      UnstoredUncounted(st, p, Diary(d), e);
      assert false;
    }
  }

  lemma SlowBehind(seed: seq<Entry>, v: View)
    requires ViewOk(seed, v) && v.cr.Locked? && v.lp == seed + v.all
    ensures v.lp == v.lr + v.qp
  {
    assert v.lr + (v.qp + []) + [] + [] == v.lr + v.qp;
  }

  // ---- commits

  lemma StartHere(seed: seq<Entry>, all: seq<Entry>, commits: seq<Rec>, c: Rec, k: Key)
    requires all == Committed(commits, k) && NoConflict(seed + all, c.startTs)
    requires seed != [] ==> seed[0].ver == ZERO
    ensures StartAt(seed, commits + [c], k, |commits|)
  {
    if seed != [] {
      assert (seed + all)[0] == seed[0];
    }
    forall i | 0 <= i < |commits| && commits[i].key == k
      ensures Leq(commits[i].ver, c.startTs)
    {
      CommittedHas(commits, k, i);
      var e := Entry(commits[i].ver, commits[i].payload, By(commits[i].origin, i));
      var x :| 0 <= x < |all| && all[x] == e;
      assert (seed + all)[|seed| + x] == e;
    }
  }

  lemma StartsMore(seed: seq<Entry>, commits: seq<Rec>, c: Rec, k: Key)
    requires StartsOk(seed, commits, k)
    requires c.key == k ==> StartAt(seed, commits + [c], k, |commits|)
    ensures StartsOk(seed, commits + [c], k)
  {
    forall j | 0 <= j < |commits| && commits[j].key == k ensures StartAt(seed, commits + [c], k, j) {
      assert StartAt(seed, commits, k, j);
    }
  }

  lemma StampStarts(seeds: map<Key, seq<Entry>>, st: State, s: Site, d: int)
    requires Enabled(st, Stamp(s)) && KindInv(st) && Homed(d) && AnyOk(seeds, st, d) && Seeds(seeds)
    ensures StartsOk(SeedOf(seeds, Diary(d)), DoStamp(st, s).commits, Diary(d))
  {
    var seed, c := SeedOf(seeds, Diary(d)), StampRec(st, s);
    if c.key == Diary(d) {
      StampChecked(SeedOf(seeds, Diary(d)), st, s, d);
      StartHere(seed, Committed(st.commits, Diary(d)), st.commits, c, Diary(d));
    }
    StartsMore(seed, st.commits, c, Diary(d));
  }

  /** What the check found still holds when the version is taken. */
  lemma StampChecked(seed: seq<Entry>, st: State, s: Site, d: int)
    requires Enabled(st, Stamp(s)) && At(st, s).commit.req.key == Diary(d)
    requires HomeOk(seed, ViewOf(st, Diary(d), Home(d)))
    ensures NoConflict(seed + Committed(st.commits, Diary(d)), At(st, s).commit.req.startTs)
  {
    var v := ViewOf(st, Diary(d), Home(d));
    if s == Home(d) {
      assert v.cp == At(st, s).commit;
    } else {
      assert v.cr == At(st, s).commit;
    }
  }

  lemma SameCommits(st: State, a: Action)
    requires Enabled(st, a) && !a.Stamp?
    ensures Next(st, a).commits == st.commits
  {
  }

  // ---- one diary, one step

  /** Every step, honest or not. */
  lemma AnyDiaryStep(seeds: map<Key, seq<Entry>>, st: State, a: Action, d: int)
    requires AnyInv(seeds, st) && Enabled(st, a) && Homed(d)
    ensures AnyOk(seeds, Next(st, a), d)
  {
    assert AnyOk(seeds, st, d);
    ViewStep(st, a, d);
    HomeKept(SeedOf(seeds, Diary(d)), ViewOf(st, Diary(d), Home(d)), MoveOf(st, a, d));
    if a.Stamp? {
      StampStarts(seeds, st, a.s, d);
    } else {
      SameCommits(st, a);
    }
  }

  lemma CheckSettles(seeds: map<Key, seq<Entry>>, st: State, a: Action, d: int)
    requires Inv(seeds, st) && Enabled(st, a) && Homed(d)
    requires MoveOf(st, a, d) == Look(false)
    ensures var v := ViewOf(st, Diary(d), Home(d)); v.cr.Locked? && (NoConflict(v.lp, v.cr.req.startTs) ==> v.qp == [])
  {
    assert AnyOk(seeds, st, d) && HonestOk(seeds, st, d);
    var v := ViewOf(st, Diary(d), Home(d));
    assert a.Check? && a.s == Other(Home(d)) && v.cr == At(st, a.s).commit;
    if NoConflict(v.lp, v.cr.req.startTs) {
      SlowCheckSettles(SeedOf(seeds, Diary(d)), st, d, Home(d));
    }
  }

  lemma StampAbove(st: State, s: Site, k: Key)
    requires ClockInv(st) && HonestInv(st) && Enabled(st, Stamp(s)) && AboveStart(st.commits, k) && k.Diary?
    ensures AboveStart(DoStamp(st, s).commits, k)
  {
    assert SeqNoOk(st.commits, st.n0.vts.first, st.n1.vts.second);
    assert 0 <= Comp(At(st, s).vts, s) by { MadeSome(st, s); }
  }

  /** A site's own entry counts up from 0. */
  lemma MadeSome(st: State, s: Site)
    requires ClockInv(st)
    ensures 0 <= Comp(At(st, s).vts, s)
  {
    if s == S0 {
      assert QueueOk(st.commits, ToCount(st, S0), S0, st.n1.vts.first, st.n0.vts.first);
    } else {
      assert QueueOk(st.commits, ToCount(st, S1), S1, st.n0.vts.second, st.n1.vts.second);
    }
  }

  /** Every step of a run whose edits are honest. */
  lemma HonestDiaryStep(seeds: map<Key, seq<Entry>>, st: State, a: Action, d: int)
    requires Inv(seeds, st) && Enabled(st, a) && Homed(d)
    ensures HonestOk(seeds, Next(st, a), d)
  {
    assert AnyOk(seeds, st, d) && HonestOk(seeds, st, d);
    ViewStep(st, a, d);
    var v, m := ViewOf(st, Diary(d), Home(d)), MoveOf(st, a, d);
    if m == Look(false) { CheckSettles(seeds, st, a, d); }
    AwayKept(SeedOf(seeds, Diary(d)), v, m);
    if a.Stamp? {
      StampAbove(st, a.s, Diary(d));
    } else {
      SameCommits(st, a);
    }
  }

  // ---- all diaries, all runs

  /** Every step keeps what holds of all runs. */
  lemma AnyStep(seeds: map<Key, seq<Entry>>, st: State, a: Action)
    requires AnyInv(seeds, st) && Enabled(st, a)
    ensures AnyInv(seeds, Next(st, a))
  {
    ClockStep(st, a);
    KindStep(st, a);
    forall d | Homed(d) ensures AnyOk(seeds, Next(st, a), d) {
      AnyDiaryStep(seeds, st, a, d);
    }
  }

  /** Every honest step keeps the invariant. */
  lemma InvStep(seeds: map<Key, seq<Entry>>, st: State, a: Action)
    requires Inv(seeds, st) && Enabled(st, a) && Honest(st, a)
    ensures Inv(seeds, Next(st, a))
  {
    AnyStep(seeds, st, a);
    HonestStep(st, a);
    forall d | Homed(d) ensures HonestOk(seeds, Next(st, a), d) {
      HonestDiaryStep(seeds, st, a, d);
    }
  }

  lemma {:induction false} AnyRun(seeds: map<Key, seq<Entry>>, st: State, acts: seq<Action>)
    requires AnyInv(seeds, st) && CanRun(st, acts)
    ensures AnyInv(seeds, Run(st, acts))
    decreases |acts|
  {
    if acts != [] {
      AnyStep(seeds, st, acts[0]);
      AnyRun(seeds, Next(st, acts[0]), acts[1..]);
    }
  }

  /** `st` is reachable from the seeds by any steps, whatever versions the edits claim to have read. */
  ghost predicate AnyReachable(seeds: map<Key, seq<Entry>>, st: State) {
    Seeds(seeds) && exists acts :: CanRun(Init(seeds), acts) && Run(Init(seeds), acts) == st
  }

  lemma AnyReachableInv(seeds: map<Key, seq<Entry>>, st: State)
    requires AnyReachable(seeds, st)
    ensures AnyInv(seeds, st)
  {
    var acts :| CanRun(Init(seeds), acts) && Run(Init(seeds), acts) == st;
    InitInv(seeds);
    AnyRun(seeds, Init(seeds), acts);
  }

  lemma {:induction false} InvRun(seeds: map<Key, seq<Entry>>, st: State, acts: seq<Action>)
    requires Inv(seeds, st) && CanRun(st, acts) && HonestRun(st, acts)
    ensures Inv(seeds, Run(st, acts))
    decreases |acts|
  {
    if acts != [] {
      InvStep(seeds, st, acts[0]);
      InvRun(seeds, Next(st, acts[0]), acts[1..]);
    }
  }

  lemma ReachableInv(seeds: map<Key, seq<Entry>>, st: State)
    requires Reachable(seeds, st)
    ensures Inv(seeds, st)
  {
    var acts :| CanRun(Init(seeds), acts) && HonestRun(Init(seeds), acts) && Run(Init(seeds), acts) == st;
    InitInv(seeds);
    InvRun(seeds, Init(seeds), acts);
  }
}
