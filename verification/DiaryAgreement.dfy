/**
 When the two histories of a diary agree, in runs of any edits: which steps part them, that
 nothing brings them together again, and that honest clients are needed for it.
 */
module DiaryAgreement {
  import opened DiaryProtocol
  import opened DiaryHistory
  import opened DiaryMoves
  import opened DiaryInvariant
  import opened DiaryComments
  import opened DiaryTheorems
  import opened DiaryLimits

  // ---- two lists and what is on its way between them, on values

  /** Pushed at the preferred site, not stored at the other. */
  function ToAway(v: View): seq<Entry> {
    v.qp + PushedEntry(v.cp)
  }

  /** Pushed at the other site, not stored at the preferred one. */
  function ToHome(v: View): seq<Entry> {
    v.qr + PushedEntry(v.cr)
  }

  /** Both flows of a list: each site lacks exactly what is on its way to it. */
  predicate Flows(seed: seq<Entry>, v: View, p: Site) {
    && From(v.lr, p) + ToAway(v) == From(v.lp, p)
    && From(v.lp, Other(p)) + ToHome(v) == From(v.lr, Other(p))
    && SeedPart(v.lp) == seed == SeedPart(v.lr)
  }

  lemma FlowsOf(seeds: map<Key, seq<Entry>>, st: State, k: Key, p: Site)
    requires AnyReachable(seeds, st)
    ensures Flows(SeedOf(seeds, k), ViewOf(st, k, p), p)
  {
    hide From, SeedPart, EntriesOf, Committed, CanRun, Run;
    var acts :| CanRun(Init(seeds), acts) && Run(Init(seeds), acts) == st;
    RunFlow(seeds, acts, k, p);
    RunFlow(seeds, acts, k, Other(p));
  }

  lemma {:induction false} FromConcat(a: seq<Entry>, b: seq<Entry>, j: Site)
    ensures From(a + b, j) == From(a, j) + From(b, j) && SeedPart(a + b) == SeedPart(a) + SeedPart(b)
    decreases |b|
  {
    if b == [] {
      assert a + b == a;
    } else {
      var init, e := b[..|b|-1], b[|b|-1];
      assert b == init + [e] && a + b == (a + init) + [e];
      FromConcat(a, init, j);
      FromAppend(a + init, e, j);
      FromAppend(init, e, j);
      Assoc(From(a, j), From(init, j), if MadeBy(e, j) then [e] else []);
      Assoc(SeedPart(a), SeedPart(init), if e.tag == Seed then [e] else []);
    }
  }

  /** Entries that are neither seeds nor the other site's are all of site j. */
  lemma {:induction false} AllFrom(x: seq<Entry>, j: Site)
    requires From(x, Other(j)) == [] && SeedPart(x) == []
    ensures From(x, j) == x
    decreases |x|
  {
    if x != [] {
      var init, e := x[..|x|-1], x[|x|-1];
      assert x == init + [e];
      AllFrom(init, j);
    }
  }

  lemma {:induction false} FromMade(h: seq<Entry>, j: Site)
    ensures forall i | 0 <= i < |From(h, j)| :: MadeBy(From(h, j)[i], j)
  {
    if h != [] { FromMade(h[..|h|-1], j); }
  }

  lemma Cancel(a: seq<Entry>, x: seq<Entry>, y: seq<Entry>)
    requires a + x == a + y
    ensures x == y
  {
    assert x == (a + x)[|a|..] && y == (a + y)[|a|..];
  }

  /** A list that has the other as a prefix is ahead by exactly what is on its way to it, and nothing comes back. */
  lemma AheadBy(a: seq<Entry>, b: seq<Entry>, j: Site, forth: seq<Entry>, back: seq<Entry>)
    requires a <= b && SeedPart(a) == SeedPart(b)
    requires From(a, j) + forth == From(b, j) && From(b, Other(j)) + back == From(a, Other(j))
    ensures back == [] && b == a + forth
  {
    var x := b[|a|..];
    assert b == a + x;
    FromConcat(a, x, j);
    FromConcat(a, x, Other(j));
    assert |From(x, Other(j))| + |back| == 0;
    assert From(x, Other(j)) == [] && SeedPart(x) == [];
    AllFrom(x, j);
    Cancel(From(a, j), forth, From(x, j));
  }

  predicate Agrees(v: View) {
    v.lp <= v.lr || v.lr <= v.lp
  }

  /** Agreement spelled out: one way is empty, and the longer list is the shorter and what is under way. */
  predicate OneAhead(v: View) {
    (v.lr == v.lp + ToHome(v) && ToAway(v) == []) || (v.lp == v.lr + ToAway(v) && ToHome(v) == [])
  }

  lemma AgreesIff(seed: seq<Entry>, v: View, p: Site)
    requires Flows(seed, v, p)
    ensures Agrees(v) <==> OneAhead(v)
  {
    if v.lp <= v.lr {
      AheadBy(v.lp, v.lr, Other(p), ToHome(v), ToAway(v));
    } else if v.lr <= v.lp {
      AheadBy(v.lr, v.lp, p, ToAway(v), ToHome(v));
    }
  }

  lemma LastMade(seed: seq<Entry>, v: View, p: Site)
    requires Flows(seed, v, p)
    ensures ToAway(v) != [] ==> MadeBy(ToAway(v)[|ToAway(v)| - 1], p)
    ensures ToHome(v) != [] ==> MadeBy(ToHome(v)[|ToHome(v)| - 1], Other(p))
    ensures v.qr != [] ==> MadeBy(v.qr[0], Other(p))
    ensures v.qp != [] ==> MadeBy(v.qp[0], p)
  {
    FromMade(v.lp, p);
    FromMade(v.lr, Other(p));
    Behind(From(v.lr, p), ToAway(v));
    Behind(From(v.lp, Other(p)), ToHome(v));
    if v.qr != [] { assert v.qr[0] == ToHome(v)[0]; }
    if v.qp != [] { assert v.qp[0] == ToAway(v)[0]; }
  }

  lemma Behind(a: seq<Entry>, b: seq<Entry>)
    ensures forall i | 0 <= i < |b| :: b[i] == (a + b)[|a| + i]
  {
  }

  // ---- what each move does to it

  lemma KeepHere(v: View)
    requires LockOk(v) && Allowed(v, Keep(true))
    ensures OneAhead(Moved(v, Keep(true))) <==> OneAhead(v)
  {
    var v', e := Moved(v, Keep(true)), v.cp.entry;
    assert ToHome(v) == [] == ToHome(v') && ToAway(v) == v.qp && ToAway(v') == v.qp + [e];
    Assoc(v.lr, v.qp, [e]);
    assert v.lp + [] == v.lp && v'.lp + [] == v'.lp;
    if v'.lp == v.lr + v.qp + [e] { Shorter(v.lp, v.lr + v.qp, e); }
  }

  lemma KeepThere(v: View)
    requires LockOk(v) && Allowed(v, Keep(false))
    ensures OneAhead(Moved(v, Keep(false))) <==> OneAhead(v) && v.qp == []
  {
    var v', e := Moved(v, Keep(false)), v.cr.entry;
    assert ToAway(v) == v.qp == ToAway(v') && ToHome(v) == [] && ToHome(v') == [e];
    assert v.lp + [] == v.lp && v.lr + [] == v.lr;
    if v'.lr == v.lp + [e] { Shorter(v.lr, v.lp, e); }
  }

  lemma Shorter(a: seq<Entry>, b: seq<Entry>, e: Entry)
    requires a + [e] == b + [e]
    ensures a == b
  {
    assert a == (a + [e])[..|a|] && b == (b + [e])[..|b|];
  }

  lemma LandHere(seed: seq<Entry>, v: View, e: Entry, p: Site)
    requires LockOk(v) && Allowed(v, Land(e, true)) && Flows(seed, v, p)
    ensures OneAhead(Moved(v, Land(e, true))) <==> OneAhead(v)
  {
    var v' := Moved(v, Land(e, true));
    LastMade(seed, v, p);
    Shifted(v.lp, v.qr, PushedEntry(v.cr));
    assert ToAway(v') == ToAway(v);
    if v'.lp == v.lr + ToAway(v) && ToHome(v') == [] {
      assert ToAway(v) != [] ==> e == ToAway(v)[|ToAway(v)| - 1] by { LastOf(v.lp, e, v.lr, ToAway(v)); }
      assert v.lr + [] == v.lr && v'.lp + [] == v'.lp;
    }
  }

  lemma LandThere(seed: seq<Entry>, v: View, e: Entry, p: Site)
    requires Allowed(v, Land(e, false)) && Flows(seed, v, p)
    ensures OneAhead(Moved(v, Land(e, false))) <==> OneAhead(v)
  {
    var v' := Moved(v, Land(e, false));
    LastMade(seed, v, p);
    Shifted(v.lr, v.qp, PushedEntry(v.cp));
    assert ToHome(v') == ToHome(v);
    if v'.lr == v.lp + ToHome(v) && ToAway(v') == [] {
      assert ToHome(v) != [] ==> e == ToHome(v)[|ToHome(v)| - 1] by { LastOf(v.lr, e, v.lp, ToHome(v)); }
      assert v.lp + [] == v.lp && v'.lr + [] == v'.lr;
    }
  }

  lemma LastOf(a: seq<Entry>, e: Entry, b: seq<Entry>, q: seq<Entry>)
    ensures a + [e] == b + q && q != [] ==> q[|q| - 1] == e
  {
    if a + [e] == b + q && q != [] {
      assert (a + [e])[|a|] == (b + q)[|b| + |q| - 1];
    }
  }

  lemma PassBoth(v: View, atP: bool)
    requires Allowed(v, Pass(atP))
    ensures OneAhead(Moved(v, Pass(atP))) <==> OneAhead(v)
  {
    var v' := Moved(v, Pass(atP));
    if atP {
      assert v.qp + [v.cp.entry] + [] == v.qp + [v.cp.entry];
    } else {
      assert v.qr + [v.cr.entry] + [] == v.qr + [v.cr.entry];
    }
    assert ToAway(v') == ToAway(v) && ToHome(v') == ToHome(v);
  }

  /** Only a push at the other site can part two histories, and does so exactly when it overtakes. */
  lemma AheadKept(seed: seq<Entry>, v: View, m: Move, p: Site)
    requires LockOk(v) && Allowed(v, m) && Flows(seed, v, p)
    ensures OneAhead(Moved(v, m)) <==> OneAhead(v) && (m == Keep(false) ==> v.qp == [])
  {
    hide Moved, Allowed, Flows, LockOk, OneAhead;
    match m
    case Keep(atP) => if atP { KeepHere(v); } else { KeepThere(v); }
    case Land(e, atP) => if atP { LandHere(seed, v, e, p); } else { LandThere(seed, v, e, p); }
    case Pass(atP) => PassBoth(v, atP);
    case _ => OthersKeep(v, m);
  }

  /** The other moves push, pass on and store nothing. */
  lemma OthersKeep(v: View, m: Move)
    requires LockOk(v) && Allowed(v, m) && !m.Keep? && !m.Land? && !m.Pass?
    ensures OneAhead(Moved(v, m)) <==> OneAhead(v)
  {
    var v' := Moved(v, m);
    assert PushedEntry(v'.cp) == PushedEntry(v.cp) && PushedEntry(v'.cr) == PushedEntry(v.cr);
    assert v'.lp == v.lp && v'.lr == v.lr && ToHome(v') == ToHome(v) && ToAway(v') == ToAway(v);
  }

  // ---- steps and runs

  /** A push away from the preferred site, with an entry still on its way to it. */
  predicate Overtakes(st: State, a: Action, d: int)
    requires Enabled(st, a)
  {
    var p := Home(d);
    && a == Push(Other(p)) && At(st, Other(p)).commit.req.key == Diary(d)
    && EntriesOf(Unstored(At(st, p), At(st, Other(p))), Diary(d)) != []
  }

  /**
   In any run, a step leaves the two histories of a diary in agreement if and only if they agreed
   before and it does not overtake: it does not push a slow commit at its own site while an entry
   pushed at the preferred site has yet to be stored there.
   */
  lemma AgreeStepIff(seeds: map<Key, seq<Entry>>, st: State, a: Action, d: int)
    requires AnyReachable(seeds, st) && Enabled(st, a) && Homed(d)
    ensures AgreeOn(Next(st, a), Diary(d)) <==> AgreeOn(st, Diary(d)) && !Overtakes(st, a, d)
  {
    var k, p := Diary(d), Home(d);
    var seed, v, m := SeedOf(seeds, k), ViewOf(st, k, p), MoveOf(st, a, d);
    AnyReachableInv(seeds, st);
    assert AnyOk(seeds, st, d);
    ViewStep(st, a, d);
    AnyReachNext(seeds, st, a);
    FlowsOf(seeds, st, k, p);
    FlowsOf(seeds, Next(st, a), k, p);
    AheadKept(seed, v, m, p);
    AgreesIff(seed, v, p);
    AgreesIff(seed, ViewOf(Next(st, a), k, p), p);
    KeepsThere(st, a, d);
    AgreeView(st, k, p);
    AgreeView(Next(st, a), k, p);
  }

  lemma AgreeView(st: State, k: Key, p: Site)
    ensures AgreeOn(st, k) <==> Agrees(ViewOf(st, k, p))
  {
    if p == S0 {} else {}
  }

  lemma KeepsThere(st: State, a: Action, d: int)
    requires Enabled(st, a)
    ensures MoveOf(st, a, d) == Keep(false) <==> a == Push(Other(Home(d))) && At(st, Other(Home(d))).commit.req.key == Diary(d)
  {
    if a.s != Home(d) { assert a.s == Other(Home(d)); }
  }

  predicate NoneOvertakes(st: State, acts: seq<Action>, d: int)
    requires CanRun(st, acts)
    decreases |acts|
  {
    acts == [] || (!Overtakes(st, acts[0], d) && NoneOvertakes(Next(st, acts[0]), acts[1..], d))
  }

  /** Over a run: the histories end in agreement if and only if they began so and no step overtook. */
  lemma {:induction false} AgreeRunIff(seeds: map<Key, seq<Entry>>, st: State, acts: seq<Action>, d: int)
    requires AnyReachable(seeds, st) && CanRun(st, acts) && Homed(d)
    ensures AgreeOn(Run(st, acts), Diary(d)) <==> AgreeOn(st, Diary(d)) && NoneOvertakes(st, acts, d)
    decreases |acts|
  {
    if acts != [] {
      AgreeStepIff(seeds, st, acts[0], d);
      AnyReachNext(seeds, st, acts[0]);
      AgreeRunIff(seeds, Next(st, acts[0]), acts[1..], d);
    }
  }

  /**
   A condition before the call: an uninterrupted slow edit that gets the lock and passes the check
   leaves the histories in agreement if and only if they agree and no entry of the diary is on its
   way to the editing site.
   */
  lemma AgreeEditIff(seeds: map<Key, seq<Entry>>, st: State, req: Req, d: int)
    requires var p, r := Home(d), Other(Home(d));
      && AnyReachable(seeds, st) && Homed(d) && req.key == Diary(d) && Enabled(st, Begin(r, req))
      && Lock(At(st, p), Diary(d)) == 0 && NoConflict(List(At(st, p), Diary(d)), req.startTs)
    ensures var p, r := Home(d), Other(Home(d)); var st1 := DoBegin(st, r, req);
      At(st1, r).commit.Locked? && At(DoCheck(st1, r), r).commit.Checked?
      && var st3 := DoStamp(DoCheck(st1, r), r);
         At(st3, r).commit.Stamped?
         && (AgreeOn(DoPush(st3, r), Diary(d))
             <==> AgreeOn(st, Diary(d)) && EntriesOf(Unstored(At(st, p), At(st, r)), Diary(d)) == [])
  {
    hide DoBegin, DoCheck, DoAbort, DoStamp, DoPush, DoEnqueue, DoRelease, DoSend, DoReceive, DoStore, DoUnlock, DoCount, EntriesOf, AgreeOn, Unstored, NoConflict;
    var r := Other(Home(d));
    BeginThenCheck(st, r, req);
    var st1 := DoBegin(st, r, req);
    var st2 := DoCheck(st1, r);
    var st3 := DoStamp(st2, r);
    Aside(seeds, st, Begin(r, req), d);
    Aside(seeds, st1, Check(r), d);
    StampedCommit(st2, r);
    Aside(seeds, st2, Stamp(r), d);
    AgreeStepIff(seeds, st3, Push(r), d);
  }

  /** Begin, check and stamp leave lists and queues alone. */
  lemma Aside(seeds: map<Key, seq<Entry>>, st: State, a: Action, d: int)
    requires AnyReachable(seeds, st) && Enabled(st, a) && Homed(d) && (a.Begin? || a.Check? || a.Stamp?)
    ensures var p := Home(d); var st' := Next(st, a);
      && AnyReachable(seeds, st') && (AgreeOn(st', Diary(d)) <==> AgreeOn(st, Diary(d)))
      && EntriesOf(Unstored(At(st', p), At(st', Other(p))), Diary(d)) == EntriesOf(Unstored(At(st, p), At(st, Other(p))), Diary(d))
  {
    hide DoBegin, DoCheck, DoAbort, DoStamp, DoPush, DoEnqueue, DoRelease, DoSend, DoReceive, DoStore, DoUnlock, DoCount, EntriesOf, Committed, AgreeOn, MoveOf, Allowed, Moved;
    AnyReachableInv(seeds, st);
    AnyReachNext(seeds, st, a);
    AgreeStepIff(seeds, st, a, d);
    ViewStep(st, a, d);
    MoveAside(st, a, d);
    MovedAside(ViewOf(st, Diary(d), Home(d)), MoveOf(st, a, d));
  }

  lemma MoveAside(st: State, a: Action, d: int)
    requires Enabled(st, a) && (a.Begin? || a.Check? || a.Stamp?)
    ensures var m := MoveOf(st, a, d); !m.Keep? && !m.Pass? && !m.Land?
  {
  }

  lemma MovedAside(v: View, m: Move)
    requires Allowed(v, m) && !m.Keep? && !m.Pass? && !m.Land?
    ensures Moved(v, m).qp == v.qp
  {
  }

  /**
   In any run the preferred site's history is a prefix of the committed versions; the other
   site's is if and only if the two agree.
   */
  lemma PrefixIff(seeds: map<Key, seq<Entry>>, st: State, d: int)
    requires AnyReachable(seeds, st) && Homed(d)
    ensures var all := SeedOf(seeds, Diary(d)) + Committed(st.commits, Diary(d)); var p := Home(d);
      && List(At(st, p), Diary(d)) <= all
      && (List(At(st, Other(p)), Diary(d)) <= all <==> AgreeOn(st, Diary(d)))
  {
    var k, p := Diary(d), Home(d);
    var v := ViewOf(st, k, p);
    AnyReachableInv(seeds, st);
    assert AnyOk(seeds, st, d);
    FlowsOf(seeds, st, k, p);
    AgreesIff(SeedOf(seeds, k), v, p);
    AgreeView(st, k, p);
    PrefixView(v, SeedOf(seeds, k) + v.all, StampedEntry(v.cp), StampedEntry(v.cr));
  }

  lemma PrefixView(v: View, all: seq<Entry>, x: seq<Entry>, y: seq<Entry>)
    requires v.lp + ToHome(v) + x + y == all && (Agrees(v) <==> OneAhead(v))
    ensures v.lp <= all && (v.lr <= all <==> Agrees(v))
  {
    assert v.lp + ToHome(v) <= all;
    assert v.lp <= v.lp + ToHome(v);
  }

  // ---- honesty is needed

  function AheadReq(d: int): Req {
    Req(Fast, Diary(d), ZERO, "")
  }

  function AheadEntry(p: Site): Entry {
    Entry(Bump(ZERO, p), "", By(p, 0))
  }

  function AheadCommits(d: int, p: Site): seq<Rec> {
    [Rec(p, Diary(d), ZERO, Bump(ZERO, p), "", {})]
  }

  /** A fast commit at the preferred site from the seedless start, up to its stamp. */
  lemma AheadStamped(d: int, p: Site) returns (st: State)
    requires Homed(d) && p == Home(d)
    ensures Reachable(map[], st)
    ensures st == Pair(p, Node(map[], map[Diary(d) := 1], Bump(ZERO, p), [], [], Stamped(AheadReq(d), AheadEntry(p)), NoMsg, {0}),
                          Node(map[], map[], ZERO, [], [], Idle, NoMsg, {}), AheadCommits(d, p))
  {
    hide Reachable;
    var req, st0 := AheadReq(d), Init(map[]);
    ReachInit(map[]);
    ReachNext(map[], st0, Begin(p, req));
    var st1 := DoBegin(st0, p, req);
    ReachNext(map[], st1, Check(p));
    var st2 := DoCheck(st1, p);
    ReachNext(map[], st2, Stamp(p));
    st := DoStamp(st2, p);
    assert {} + {0 as nat} == {0};
  }

  /** The same commit done: in the history, its lock free, its message not yet sent. */
  lemma AheadDone(d: int) returns (st: State)
    requires Homed(d)
    ensures Reachable(map[], st)
    ensures var p := Home(d);
      && List(At(st, p), Diary(d)) == [AheadEntry(p)] && Lock(At(st, p), Diary(d)) == 0
      && At(st, Other(p)) == Node(map[], map[], ZERO, [], [], Idle, NoMsg, {})
  {
    hide Reachable;
    var p := Home(d);
    var st3 := AheadStamped(d, p);
    ReachNext(map[], st3, Push(p));
    var st4 := DoPush(st3, p);
    ReachNext(map[], st4, Enqueue(p));
    var st5 := DoEnqueue(st4, p);
    ReachNext(map[], st5, Release(p));
    st := DoRelease(st5, p);
    assert [] + [AheadEntry(p)] == [AheadEntry(p)];
  }

  /**
   For every diary there is an honest run after which an edit at the other site that starts from
   the version the preferred site already shows parts the two histories, which by AgreeRunIff never
   agree again.
   */
  lemma AgreementNeedsHonesty(d: int) returns (st: State, req: Req)
    requires Homed(d)
    ensures var r := Other(Home(d));
      && Reachable(map[], st) && Enabled(st, Begin(r, req)) && req.key == Diary(d)
      && List(At(st, Home(d)), Diary(d)) != [] && req.startTs == List(At(st, Home(d)), Diary(d))[0].ver
      && var st1 := DoBegin(st, r, req);
         At(st1, r).commit.Locked? && At(DoCheck(st1, r), r).commit.Checked?
         && var st3 := DoStamp(DoCheck(st1, r), r);
            At(st3, r).commit.Stamped? && !AgreeOn(DoPush(st3, r), Diary(d))
  {
    hide Reachable;
    st := AheadDone(d);
    req := Req(Slow, Diary(d), Bump(ZERO, Home(d)), "");
    Parted(st, d, req);
  }

  lemma Parted(st: State, d: int, req: Req)
    requires var p := Home(d);
      && Homed(d) && List(At(st, p), Diary(d)) == [AheadEntry(p)] && Lock(At(st, p), Diary(d)) == 0
      && At(st, Other(p)) == Node(map[], map[], ZERO, [], [], Idle, NoMsg, {})
      && req == Req(Slow, Diary(d), Bump(ZERO, p), "")
    ensures var r := Other(Home(d));
      && Enabled(st, Begin(r, req))
      && var st1 := DoBegin(st, r, req);
         At(st1, r).commit.Locked? && At(DoCheck(st1, r), r).commit.Checked?
         && var st3 := DoStamp(DoCheck(st1, r), r);
            At(st3, r).commit.Stamped? && !AgreeOn(DoPush(st3, r), Diary(d))
  {
    var p, r := Home(d), Other(Home(d));
    assert NoConflict(List(At(st, p), Diary(d)), req.startTs);
    BeginThenCheck(st, r, req);
    var st2 := DoCheck(DoBegin(st, r, req), r);
    var st4 := DoPush(DoStamp(st2, r), r);
    assert List(At(st4, p), Diary(d)) == [AheadEntry(p)];
    assert |List(At(st4, r), Diary(d))| == 1 && List(At(st4, r), Diary(d))[0].tag.origin == r;
    AgreeView(st4, Diary(d), p);
  }

  // ---- a preferred site is needed

  /** Without a preferred site both sites push their own version first. */
  lemma HomelessParts(d: int) returns (st: State, e: Entry, f: Entry)
    requires !Homed(d)
    ensures Reachable(map[], st) && !AgreeOn(st, Diary(d))
    ensures st.n0.delivery == st.n1.delivery == NoMsg && st.n0.inbox == st.n1.outbox == []
    ensures List(st.n0, Diary(d)) == [e] && List(st.n1, Diary(d)) == [f] && e.ver == Ver(1, 0) && f.ver == Ver(0, 1)
    ensures st.n1.commit == Pushed(HalfReq(d), f)
  {
    hide Reachable;
    var st4 := HomelessChecked(d);
    ReachNext(map[], st4, Stamp(S0));
    var st5 := DoStamp(st4, S0);
    ReachNext(map[], st5, Stamp(S1));
    var st6 := DoStamp(st5, S1);
    ReachNext(map[], st6, Push(S0));
    var st7 := DoPush(st6, S0);
    ReachNext(map[], st7, Push(S1));
    st := DoPush(st7, S1);
    e, f := Entry(Ver(1, 0), "", By(S0, 0)), Entry(Ver(0, 1), "", By(S1, 1));
    assert [] + [e] == [e] && [] + [f] == [f];
    assert List(st.n0, Diary(d)) == [e] && List(st.n1, Diary(d)) == [f] && st.n1.commit == Pushed(HalfReq(d), f);
    assert [e][0] != [f][0];
  }

  /** Honest edits keep the histories of a diary in agreement exactly when `d % 2` names a site. */
  lemma AgreementIffHomed(d: int)
    ensures Homed(d) <==> (forall seeds, st | Reachable(seeds, st) :: AgreeOn(st, Diary(d)))
  {
    if Homed(d) {
      forall seeds, st | Reachable(seeds, st) ensures AgreeOn(st, Diary(d)) {
        Agreement(seeds, st, d);
      }
    } else {
      var st, e, f := HomelessParts(d);
      assert Reachable(map[], st) && !AgreeOn(st, Diary(d));
    }
  }
}
