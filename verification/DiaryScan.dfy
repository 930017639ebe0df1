/**
 The scan that answers a read: which entries of a history it keeps, when it keeps them all, and
 which steps of a run keep it so.
 */
module DiaryScan {
  import opened DiaryProtocol
  import opened DiaryClock
  import opened DiaryHistory
  import opened DiaryInvariant
  import opened DiaryComments
  import opened DiaryAgreement
  import opened DiaryTheorems
  import opened DiaryLimits

  /** The largest version the scan has kept among the first i entries. */
  function Running(h: seq<Entry>, i: nat): Ver
    requires i <= |h|
  {
    if i == 0 then ZERO
    else if Leq(Running(h, i - 1), h[i - 1].ver) then h[i - 1].ver
    else Running(h, i - 1)
  }

  predicate Keeps(h: seq<Entry>, i: nat)
    requires i < |h|
  {
    Leq(Running(h, i), h[i].ver)
  }

  /** The scan keeps the first n entries and none after them. */
  predicate KeptUpTo(h: seq<Entry>, n: nat)
    requires n <= |h|
  {
    (forall i | 0 <= i < n :: Keeps(h, i)) && (forall i | n <= i < |h| :: !Keeps(h, i))
  }

  lemma {:induction false} ChainKept(h: seq<Entry>, i: nat)
    requires StrictChain(h) && i < |h| && Leq(ZERO, h[0].ver)
    ensures Keeps(h, i) && Running(h, i + 1) == h[i].ver
  {
    if i > 0 {
      ChainKept(h, i - 1);
      assert Less(h[i - 1].ver, h[i].ver);
    }
  }

  /**
   The read is right because of the protocol: in every reachable state the scan of a non-empty
   diary history filters nothing out, so the entry it answers with is the last one, which is
   above every other version at that site.
   */
  lemma ScanIsRight(seeds: map<Key, seq<Entry>>, st: State, s: Site, d: int)
    requires Reachable(seeds, st) && Homed(d) && List(At(st, s), Diary(d)) != []
    ensures var h := List(At(st, s), Diary(d));
      && KeptUpTo(h, |h|)
      && forall i | 0 <= i < |h| - 1 :: Less(h[i].ver, h[|h| - 1].ver)
  {
    NoLostUpdateEver(seeds, st, d);
    var h := List(At(st, s), Diary(d));
    var all := SeedOf(seeds, Diary(d)) + Committed(st.commits, Diary(d));
    assert h <= all by {
      if s == Home(d) {} else { assert s == Other(Home(d)); }
    }
    FirstAboveZero(seeds, st, d);
    assert StrictChain(h);
    forall i | 0 <= i < |h| ensures Keeps(h, i) {
      ChainKept(h, i);
    }
  }

  // ---- runs of any edits

  /** No version is above a later one's. */
  predicate Ascending(h: seq<Entry>) {
    forall i, j | 0 <= i < j < |h| :: Leq(h[i].ver, h[j].ver)
  }

  predicate AllAboveZero(h: seq<Entry>) {
    forall i | 0 <= i < |h| :: Leq(ZERO, h[i].ver)
  }

  lemma {:induction false} RunningIs(h: seq<Entry>, n: nat)
    requires n <= |h| && (forall i | 0 <= i < n :: Keeps(h, i))
    ensures n > 0 ==> Running(h, n) == h[n - 1].ver
    ensures forall i | 0 <= i < n :: Leq(h[i].ver, Running(h, n))
  {
    if n > 0 {
      RunningIs(h, n - 1);
      assert Keeps(h, n - 1);
    }
  }

  /** The scan keeps a whole history exactly if its versions ascend. */
  lemma KeptIff(h: seq<Entry>)
    requires AllAboveZero(h)
    ensures KeptUpTo(h, |h|) <==> Ascending(h)
  {
    if KeptUpTo(h, |h|) {
      forall i, j | 0 <= i < j < |h| ensures Leq(h[i].ver, h[j].ver) {
        RunningIs(h, j);
        assert Keeps(h, j);
      }
    }
    if Ascending(h) {
      forall i | 0 <= i < |h| ensures Keeps(h, i) { AscendingKept(h, i); }
    }
  }

  lemma {:induction false} AscendingKept(h: seq<Entry>, i: nat)
    requires Ascending(h) && AllAboveZero(h) && i < |h|
    ensures Keeps(h, i) && Running(h, i + 1) == h[i].ver
  {
    if i > 0 {
      AscendingKept(h, i - 1);
      assert Leq(h[i - 1].ver, h[i].ver);
    }
  }

  /** One more entry is kept exactly if the last one is not above it. */
  lemma AscendingMore(h: seq<Entry>, e: Entry)
    ensures Ascending(h + [e]) <==> Ascending(h) && (h != [] ==> Leq(h[|h| - 1].ver, e.ver))
  {
    var h' := h + [e];
    if Ascending(h') {
      forall i, j | 0 <= i < j < |h| ensures Leq(h[i].ver, h[j].ver) {
        assert h'[i] == h[i] && h'[j] == h[j];
      }
      if h != [] { assert h'[|h| - 1] == h[|h| - 1] && h'[|h|] == e; }
    }
  }

  /** The entry a step appends to the history of d at site s, if any. */
  function Appended(st: State, a: Action, s: Site, d: int): seq<Entry>
    requires Enabled(st, a)
  {
    var n := At(st, s);
    if a == Push(s) && n.commit.req.key == Diary(d) then [n.commit.entry]
    else if a == Store(s) && n.delivery.msg.key == Diary(d) then [n.delivery.msg.entry]
    else []
  }

  lemma AppendedStep(st: State, a: Action, s: Site, d: int)
    requires Enabled(st, a)
    ensures List(At(Next(st, a), s), Diary(d)) == List(At(st, s), Diary(d)) + Appended(st, a, s, d)
  {
    hide DoBegin, DoCheck, DoAbort, DoStamp, DoPush, DoEnqueue, DoRelease, DoSend, DoReceive, DoStore, DoUnlock, DoCount;
    var h, k := List(At(st, s), Diary(d)), Diary(d);
    assert h + [] == h;
    match a
    case Begin(b, req) => KnockNodes(st, b, req, k);
    case Check(b) => LockNodes(st, b, k);
    case Abort(b) => AbortNodes(st, b, k);
    case Release(b) => LockNodes(st, b, k);
    case Unlock(b) => UnlockNodes(st, b, k);
    case Count(b) => CountNodes(st, b, k);
    case Push(b) => PushList(st, b, s, k);
    case Store(b) => StoreList(st, b, s, k);
    case _ => SameList(st, a, s, k);
  }

  lemma PushList(st: State, b: Site, s: Site, k: Key)
    requires At(st, b).commit.Stamped?
    ensures var c := At(st, b).commit;
      List(At(DoPush(st, b), s), k) == List(At(st, s), k) + if s == b && c.req.key == k then [c.entry] else []
  {
  }

  lemma StoreList(st: State, b: Site, s: Site, k: Key)
    requires At(st, b).delivery.Got?
    ensures var m := At(st, b).delivery.msg;
      List(At(DoStore(st, b), s), k) == List(At(st, s), k) + if s == b && m.key == k then [m.entry] else []
  {
  }

  lemma SameList(st: State, a: Action, s: Site, k: Key)
    requires Enabled(st, a) && (a.Stamp? || a.Enqueue? || a.Send? || a.Receive?)
    ensures List(At(Next(st, a), s), k) == List(At(st, s), k)
  {
  }

  // ---- every version in a list is a committed one or a seed's

  lemma {:induction false} InFrom(h: seq<Entry>, i: nat)
    requires i < |h|
    ensures h[i].tag.By? ==> h[i] in From(h, h[i].tag.origin)
    ensures h[i].tag.Seed? ==> h[i] in SeedPart(h)
    decreases |h|
  {
    if i < |h| - 1 {
      assert h[i] == h[..|h|-1][i];
      InFrom(h[..|h|-1], i);
    }
  }

  lemma {:induction false} FromIn(h: seq<Entry>, j: Site)
    ensures forall e | e in From(h, j) :: e in h
    decreases |h|
  {
    if h != [] {
      FromIn(h[..|h|-1], j);
      assert h == h[..|h|-1] + [h[|h|-1]];
    }
  }

  lemma VersionOf(commits: seq<Rec>, k: Key, e: Entry)
    requires e in Committed(commits, k) && forall i | 0 <= i < |commits| :: Leq(ZERO, commits[i].ver)
    ensures Leq(ZERO, e.ver)
  {
    var x :| 0 <= x < |Committed(commits, k)| && Committed(commits, k)[x] == e;
    var i := CommittedEntry(commits, k, x);
  }

  /** What a site's list holds of either origin was committed by it. */
  lemma OnlyCommitted(seeds: map<Key, seq<Entry>>, st: State, s: Site, k: Key, j: Site)
    requires AnyReachable(seeds, st)
    ensures forall e | e in From(List(At(st, s), k), j) :: e in Committed(st.commits, k)
  {
    hide From, SeedPart, EntriesOf, Committed, CanRun, Run;
    var acts :| CanRun(Init(seeds), acts) && Run(Init(seeds), acts) == st;
    RunFlow(seeds, acts, k, j);
    var f := FlowOf(st, k, j);
    assert From(List(At(st, s), k), j) == if s == j then f.here else f.there;
    assert f.all == f.there + f.moving + f.unpushed && f.all == f.here + f.unpushed;
    FromIn(Committed(st.commits, k), j);
  }

  lemma ListVersions(seeds: map<Key, seq<Entry>>, st: State, s: Site, k: Key)
    requires AnyReachable(seeds, st)
    ensures AllAboveZero(List(At(st, s), k))
  {
    hide From, SeedPart, Committed;
    AnyReachableInv(seeds, st);
    assert SeqNoOk(st.commits, st.n0.vts.first, st.n1.vts.second);
    var h := List(At(st, s), k);
    FlowsOf(seeds, st, k, s);
    forall i | 0 <= i < |h| ensures Leq(ZERO, h[i].ver) {
      InFrom(h, i);
      if h[i].tag.By? {
        OnlyCommitted(seeds, st, s, k, h[i].tag.origin);
        VersionOf(st.commits, k, h[i]);
      } else {
        assert h[i] in SeedOf(seeds, k);
      }
    }
  }

  /** In any run the scan of a history filters nothing out if and only if its versions ascend. */
  lemma ScanIff(seeds: map<Key, seq<Entry>>, st: State, s: Site, d: int)
    requires AnyReachable(seeds, st)
    ensures var h := List(At(st, s), Diary(d)); KeptUpTo(h, |h|) <==> Ascending(h)
  {
    ListVersions(seeds, st, s, Diary(d));
    KeptIff(List(At(st, s), Diary(d)));
  }

  /**
   So a step leaves a scan that filters nothing out if and only if it filtered nothing out before,
   and the entry the step appends, if any, is not behind the last one of that site's history.
   */
  lemma ScanStepIff(seeds: map<Key, seq<Entry>>, st: State, a: Action, s: Site, d: int)
    requires AnyReachable(seeds, st) && Enabled(st, a)
    ensures var h, h', x := List(At(st, s), Diary(d)), List(At(Next(st, a), s), Diary(d)), Appended(st, a, s, d);
      && h' == h + x
      && (KeptUpTo(h', |h'|) <==> KeptUpTo(h, |h|) && (h != [] && x != [] ==> Leq(h[|h| - 1].ver, x[0].ver)))
  {
    hide Next, Enabled, KeptUpTo;
    var h, x := List(At(st, s), Diary(d)), Appended(st, a, s, d);
    AppendedStep(st, a, s, d);
    ScanIff(seeds, st, s, d);
    AnyReachNext(seeds, st, a);
    ScanIff(seeds, Next(st, a), s, d);
    if x == [] {
      assert h + x == h;
    } else {
      AscendingMore(h, x[0]);
    }
  }

  /**
   Honesty is needed for the read of every diary: the edit of HonestyNeeded, once pushed, is
   filtered out at its own site.
   */
  lemma ScanNeedsHonesty(d: int) returns (st: State, req: Req)
    requires Homed(d)
    ensures var p := Home(d);
      && Reachable(map[], st) && Enabled(st, Begin(p, req)) && req.key == Diary(d)
      && List(At(st, p), Diary(d)) != [] && req.startTs == List(At(st, p), Diary(d))[0].ver
      && var st1 := DoBegin(st, p, req);
         At(st1, p).commit.Locked? && At(DoCheck(st1, p), p).commit.Checked?
         && var st3 := DoStamp(DoCheck(st1, p), p);
            At(st3, p).commit.Stamped?
            && var h := List(At(DoPush(st3, p), p), Diary(d)); |h| == 2 && KeptUpTo(h, 1)
  {
    hide Reachable;
    var p := Home(d);
    st := HalfApplied(d);
    req := Req(Fast, Diary(d), Bump(ZERO, Other(p)), "");
    assert NoConflict(List(At(st, p), Diary(d)), req.startTs);
    BeginThenCheck(st, p, req);
    var st2 := DoCheck(DoBegin(st, p, req), p);
    var h := List(At(DoPush(DoStamp(st2, p), p), p), Diary(d));
    assert h[0].ver == Bump(ZERO, Other(p)) && h[1].ver == Bump(ZERO, p);
    assert Running(h, 1) == h[0].ver;
  }

  // ---- a preferred site is needed

  /** The version of one site, delivered behind that of the other. */
  lemma HomelessFilters(d: int) returns (st: State)
    requires !Homed(d)
    ensures Reachable(map[], st) && var h := List(st.n0, Diary(d)); |h| == 2 && KeptUpTo(h, 1)
  {
    hide Reachable;
    var st7, e, f := HomelessParts(d);
    ReachNext(map[], st7, Enqueue(S1));
    var st8 := DoEnqueue(st7, S1);
    ReachNext(map[], st8, Send(S1));
    var st9 := DoSend(st8, S1);
    ReachNext(map[], st9, Receive(S0));
    var st10 := DoReceive(st9, S0);
    ReachNext(map[], st10, Store(S0));
    st := DoStore(st10, S0);
    var h := List(st.n0, Diary(d));
    assert h == [e] + [f];
    assert Running(h, 1) == h[0].ver;
  }

  /** After honest edits no read filters anything out exactly for the diaries whose `d % 2` names a site. */
  lemma ScanRightIffHomed(d: int)
    ensures Homed(d) <==> forall seeds, st, s | Reachable(seeds, st) :: KeptAll(List(At(st, s), Diary(d)))
  {
    if Homed(d) {
      forall seeds, st, s | Reachable(seeds, st) ensures KeptAll(List(At(st, s), Diary(d))) {
        if List(At(st, s), Diary(d)) != [] { ScanIsRight(seeds, st, s, d); }
      }
    } else {
      var st := HomelessFilters(d);
      var h := List(st.n0, Diary(d));
      assert !Keeps(h, 1);
      assert Reachable(map[], st) && !KeptAll(List(At(st, S0), Diary(d)));
    }
  }

  predicate KeptAll(h: seq<Entry>) {
    KeptUpTo(h, |h|)
  }
}
