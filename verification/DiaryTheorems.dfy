/**
 What every reachable state of the two sites satisfies, and exactly when.
 */
module DiaryTheorems {
  import opened DiaryProtocol
  import opened DiaryClock
  import opened DiaryHistory
  import opened DiaryMoves
  import opened DiaryInvariant
  import opened DiaryComments

  /** No commit of the diary was made from a state that missed an earlier one. */
  ghost predicate NoLostUpdate(commits: seq<Rec>, d: int) {
    forall i, j | 0 <= i < j < |commits| && commits[i].key == Diary(d) && commits[j].key == Diary(d) ::
      Leq(commits[i].ver, commits[j].startTs) && Less(commits[i].ver, commits[j].ver)
  }

  predicate StrictChain(h: seq<Entry>) {
    forall i, j | 0 <= i < j < |h| :: Less(h[i].ver, h[j].ver)
  }

  lemma {:induction false} CommittedEntry(commits: seq<Rec>, k: Key, x: nat) returns (i: nat)
    requires x < |Committed(commits, k)|
    ensures i < |commits| && commits[i].key == k && Committed(commits, k)[x].ver == commits[i].ver
  {
    var last := |commits| - 1;
    if commits[last].key == k && x == |Committed(commits, k)| - 1 {
      i := last;
    } else {
      i := CommittedEntry(commits[..last], k, x);
    }
  }

  /** The versions of the first n commits lie below that of commit n. */
  lemma BelowCommit(seed: seq<Entry>, commits: seq<Rec>, k: Key, n: nat)
    requires n < |commits| && commits[n].key == k && StartsOk(seed, commits, k) && AboveStart(commits, k)
    requires seed != [] ==> |seed| == 1 && seed[0].ver == ZERO
    ensures var h := seed + Committed(commits[..n], k); forall x | 0 <= x < |h| :: Less(h[x].ver, commits[n].ver)
  {
    var h := seed + Committed(commits[..n], k);
    assert StartAt(seed, commits, k, n);
    forall x | 0 <= x < |h| ensures Less(h[x].ver, commits[n].ver) {
      if x >= |seed| {
        var i := CommittedEntry(commits[..n], k, x - |seed|);
        assert commits[i].key == k;
      }
    }
  }

  lemma Chained(h: seq<Entry>, e: Entry)
    requires StrictChain(h) && forall x | 0 <= x < |h| :: Less(h[x].ver, e.ver)
    ensures StrictChain(h + [e])
  {
  }

  lemma {:induction false} ChainOfCommitted(seed: seq<Entry>, commits: seq<Rec>, k: Key, n: nat)
    requires n <= |commits| && StartsOk(seed, commits, k) && AboveStart(commits, k)
    requires seed != [] ==> |seed| == 1 && seed[0].ver == ZERO
    ensures StrictChain(seed + Committed(commits[..n], k))
  {
    if n == 0 {
      assert seed + Committed(commits[..0], k) == seed;
    } else {
      var last := n - 1;
      var c, before := commits[last], Committed(commits[..last], k);
      assert commits[..n] == commits[..last] + [c];
      CommittedGrow(commits[..last], c, k);
      ChainOfCommitted(seed, commits, k, last);
      if c.key == k {
        var e := Entry(c.ver, c.payload, By(c.origin, last));
        BelowCommit(seed, commits, k, last);
        Chained(seed + before, e);
        assert seed + (before + [e]) == seed + before + [e];
      } else {
        assert before + [] == before;
      }
    }
  }

  /** An honest commit starts at or above every version committed before it, and lies above them. */
  lemma NoneLost(seed: seq<Entry>, commits: seq<Rec>, d: int)
    requires StartsOk(seed, commits, Diary(d)) && AboveStart(commits, Diary(d))
    ensures NoLostUpdate(commits, d)
  {
    forall i, j | 0 <= i < j < |commits| && commits[i].key == Diary(d) && commits[j].key == Diary(d)
      ensures Leq(commits[i].ver, commits[j].startTs) && Less(commits[i].ver, commits[j].ver)
    {
      assert StartAt(seed, commits, Diary(d), j);
    }
  }

  /** The diary's invariant in a state reached honestly. */
  lemma DiaryInv(seeds: map<Key, seq<Entry>>, st: State, d: int)
    requires Reachable(seeds, st) && Homed(d)
    ensures AnyOk(seeds, st, d) && HonestOk(seeds, st, d) && Seeds(seeds)
  {
    ReachableInv(seeds, st);
  }

  /**
   No lost update.  In every reachable state the committed versions of a diary form a strict
   chain, each edit started at or above every version committed before it, and both histories
   are prefixes of that chain; together with what is stamped but not pushed they are all of it.
   */
  lemma NoLostUpdateEver(seeds: map<Key, seq<Entry>>, st: State, d: int)
    requires Reachable(seeds, st) && Homed(d)
    ensures NoLostUpdate(st.commits, d)
    ensures var all := SeedOf(seeds, Diary(d)) + Committed(st.commits, Diary(d));
      && StrictChain(all)
      && List(At(st, Home(d)), Diary(d)) <= all && List(At(st, Other(Home(d))), Diary(d)) <= all
    ensures var v := ViewOf(st, Diary(d), Home(d));
      SeedOf(seeds, Diary(d)) + Committed(st.commits, Diary(d))
      == (if |v.lp| >= |v.lr| then v.lp else v.lr) + StampedEntry(v.cp) + StampedEntry(v.cr)
  {
    DiaryInv(seeds, st, d);
    var k := Diary(d);
    var seed := SeedOf(seeds, k);
    NoneLost(seed, st.commits, d);
    ChainOfCommitted(seed, st.commits, k, |st.commits|);
    assert st.commits[..|st.commits|] == st.commits;
    Prefixes(seed, ViewOf(st, k, Home(d)));
  }

  lemma Prefixes(seed: seq<Entry>, v: View)
    requires ViewOk(seed, v)
    ensures v.lp <= seed + v.all && v.lr <= seed + v.all
    ensures seed + v.all == (if |v.lp| >= |v.lr| then v.lp else v.lr) + StampedEntry(v.cp) + StampedEntry(v.cr)
    ensures v.lp <= v.lr || v.lr <= v.lp
  {
    hide LockOk, StampedEntry;
    AheadOrBehind(seed + v.all, v.lp, v.lr, v.qr + PushedEntry(v.cr), v.qp + PushedEntry(v.cp), StampedEntry(v.cp), StampedEntry(v.cr));
  }

  lemma AheadOrBehind(all: seq<Entry>, a: seq<Entry>, b: seq<Entry>, x: seq<Entry>, y: seq<Entry>, s: seq<Entry>, t: seq<Entry>)
    requires all == a + x + s + t && all == b + y + s + t && (x == [] || y == [])
    ensures a <= all && b <= all && (a <= b || b <= a)
    ensures all == (if |a| >= |b| then a else b) + s + t
  {
    assert |a| + |x| == |b| + |y|;
    Cut(all, a, x + s + t);
    Cut(all, b, y + s + t);
    if x == [] { assert a + x == a; } else { assert b + y == b; }
  }

  lemma Cut(all: seq<Entry>, a: seq<Entry>, z: seq<Entry>)
    ensures all == a + z ==> a <= all && a == all[..|a|]
  {
  }

  lemma FirstOf(seed: seq<Entry>, commits: seq<Rec>, k: Key)
    requires forall i | 0 <= i < |commits| :: Leq(ZERO, commits[i].ver)
    requires seed != [] ==> seed[0].ver == ZERO
    ensures var all := seed + Committed(commits, k); all != [] ==> Leq(ZERO, all[0].ver)
  {
    if seed == [] && Committed(commits, k) != [] {
      var i := CommittedEntry(commits, k, 0);
    }
  }

  lemma FirstAboveZero(seeds: map<Key, seq<Entry>>, st: State, d: int)
    requires Reachable(seeds, st)
    ensures var all := SeedOf(seeds, Diary(d)) + Committed(st.commits, Diary(d)); all != [] ==> Leq(ZERO, all[0].ver)
  {
    ReachableInv(seeds, st);
    assert SeqNoOk(st.commits, st.n0.vts.first, st.n1.vts.second);
    FirstOf(SeedOf(seeds, Diary(d)), st.commits, Diary(d));
  }

  /** One site's list is a prefix of the other's. */
  predicate AgreeOn(st: State, k: Key) {
    List(st.n0, k) <= List(st.n1, k) || List(st.n1, k) <= List(st.n0, k)
  }

  /** Agreement: at every reachable state one history of a diary is a prefix of the other. */
  lemma Agreement(seeds: map<Key, seq<Entry>>, st: State, d: int)
    requires Reachable(seeds, st) && Homed(d)
    ensures AgreeOn(st, Diary(d))
  {
    DiaryInv(seeds, st, d);
    Prefixes(SeedOf(seeds, Diary(d)), ViewOf(st, Diary(d), Home(d)));
  }

  predicate Quiet(n: Node) {
    n.commit.Idle? && n.delivery.NoMsg? && n.outbox == [] && n.inbox == []
  }

  /**
   Convergence, in any run: once nothing is running and nothing is under way, the vectors agree,
   no diary with a preferred site is locked there, and every list has the same entries at both
   sites, those of each origin in the order they were committed.  The two lists are then the same
   exactly if they agree; after honest edits those of every diary with a preferred site are.
   */
  lemma Convergence(seeds: map<Key, seq<Entry>>, st: State)
    requires AnyReachable(seeds, st) && Quiet(st.n0) && Quiet(st.n1)
    ensures st.n0.vts == st.n1.vts
    ensures forall d | Homed(d) :: Lock(At(st, Home(d)), Diary(d)) == 0
    ensures forall k, j :: From(List(st.n0, k), j) == From(List(st.n1, k), j) == CommittedBy(st.commits, k, j)
    ensures forall k :: multiset(List(st.n0, k)) == multiset(List(st.n1, k))
    ensures forall k :: List(st.n0, k) == List(st.n1, k) <==> AgreeOn(st, k)
    ensures Reachable(seeds, st) ==> forall d | Homed(d) :: List(st.n0, Diary(d)) == List(st.n1, Diary(d))
  {
    AnyReachableInv(seeds, st);
    assert ToCount(st, S0) == [] && ToCount(st, S1) == [];
    forall d | Homed(d) ensures Lock(At(st, Home(d)), Diary(d)) == 0 {
      QuietLocks(seeds, st, d);
    }
    forall k, j
      ensures From(List(st.n0, k), j) == From(List(st.n1, k), j) == CommittedBy(st.commits, k, j)
    {
      QuietFlow(seeds, st, k, j);
    }
    forall k
      ensures multiset(List(st.n0, k)) == multiset(List(st.n1, k))
      ensures List(st.n0, k) == List(st.n1, k) <==> AgreeOn(st, k)
    {
      QuietMultiset(seeds, st, k);
      SamePrefix(List(st.n0, k), List(st.n1, k));
    }
    if Reachable(seeds, st) {
      forall d | Homed(d) ensures List(st.n0, Diary(d)) == List(st.n1, Diary(d)) {
        Agreement(seeds, st, d);
      }
    }
  }

  lemma QuietLocks(seeds: map<Key, seq<Entry>>, st: State, d: int)
    requires AnyInv(seeds, st) && Quiet(st.n0) && Quiet(st.n1) && Homed(d)
    ensures Lock(At(st, Home(d)), Diary(d)) == 0
  {
    assert AnyOk(seeds, st, d);
    assert Holders(ViewOf(st, Diary(d), Home(d))) == 0;
  }

  lemma QuietMultiset(seeds: map<Key, seq<Entry>>, st: State, k: Key)
    requires AnyReachable(seeds, st) && Quiet(st.n0) && Quiet(st.n1)
    ensures multiset(List(st.n0, k)) == multiset(List(st.n1, k))
  {
    QuietFlow(seeds, st, k, S0);
    QuietFlow(seeds, st, k, S1);
    Interleaved(List(st.n0, k));
    Interleaved(List(st.n1, k));
  }

  /** A prefix with the same entries is the whole. */
  lemma SamePrefix(a: seq<Entry>, b: seq<Entry>)
    requires multiset(a) == multiset(b)
    ensures a == b <==> a <= b || b <= a
  {
    assert |multiset(a)| == |a| && |multiset(b)| == |b|;
  }

  lemma QuietFlow(seeds: map<Key, seq<Entry>>, st: State, k: Key, j: Site)
    requires AnyReachable(seeds, st) && Quiet(st.n0) && Quiet(st.n1)
    ensures From(List(st.n0, k), j) == From(List(st.n1, k), j) == CommittedBy(st.commits, k, j)
    ensures SeedPart(List(At(st, j), k)) == SeedOf(seeds, k)
  {
    var acts :| CanRun(Init(seeds), acts) && Run(Init(seeds), acts) == st;
    RunFlow(seeds, acts, k, j);
    var v := ViewOf(st, k, j);
    assert v.qp == [] && v.cp == Idle;
    var f := FlowIn(v, j);
    assert f.moving == [] && f.unpushed == [];
  }

  /**
   The vector clock.  A site's vector counts the commits of each site it has applied; the
   other site's remaining commits are queued towards it in order; and versions are ordered
   exactly by "was applied at the origin before the stamp".
   */
  lemma VectorClock(seeds: map<Key, seq<Entry>>, st: State)
    requires AnyReachable(seeds, st)
    ensures forall s, j: Site :: CountFrom(st.commits, At(st, s).applied, j) == Comp(At(st, s).vts, j)
    ensures forall s :: |ToCount(st, s)| == Comp(At(st, s).vts, s) - Comp(At(st, Other(s)).vts, s)
    ensures forall s, i | 0 <= i < |ToCount(st, s)| ::
      Carries(st.commits, ToCount(st, s)[i], s, Comp(At(st, Other(s)).vts, s) + 1 + i)
    ensures forall i, j | 0 <= i < |st.commits| && 0 <= j < |st.commits| ::
      Leq(st.commits[i].ver, st.commits[j].ver) <==> (i == j || i in st.commits[j].seen)
    ensures forall i, j | 0 <= i < j < |st.commits| :: st.commits[i].ver != st.commits[j].ver
  {
    AnyReachableInv(seeds, st);
    forall s: Site ensures |ToCount(st, s)| == Comp(At(st, s).vts, s) - Comp(At(st, Other(s)).vts, s) {
      if s == S0 {} else {}
    }
    forall s, i | 0 <= i < |ToCount(st, s)|
      ensures Carries(st.commits, ToCount(st, s)[i], s, Comp(At(st, Other(s)).vts, s) + 1 + i)
    {
      if s == S0 {} else {}
    }
    forall i, j | 0 <= i < j < |st.commits| ensures st.commits[i].ver != st.commits[j].ver {
      assert j !in st.commits[i].seen;
    }
  }

  /** Snapshots are causally closed: with a commit, everything its own site had applied is there too. */
  lemma CausallyClosed(seeds: map<Key, seq<Entry>>, st: State, s: Site, c: nat)
    requires AnyReachable(seeds, st) && c in At(st, s).applied
    ensures c < |st.commits| && st.commits[c].seen <= At(st, s).applied
    ensures forall b | b in st.commits[c].seen :: b < |st.commits| && st.commits[b].seen <= st.commits[c].seen
  {
    AnyReachableInv(seeds, st);
    assert AppliedOk(st.commits, At(st, s).applied, At(st, s).vts);
    forall b | b in st.commits[c].seen
      ensures b in At(st, s).applied && st.commits[b].seen <= st.commits[c].seen
    {
      assert Leq(st.commits[b].ver, st.commits[c].ver);
      forall a | a in st.commits[b].seen ensures a in st.commits[c].seen {
        assert Leq(st.commits[a].ver, st.commits[b].ver);
      }
    }
  }

  /**
   Mutual exclusion.  A diary's lock has at most one holder across both sites and is non-zero
   exactly while it has one; the holder is a commit at the preferred site, a slow commit at the
   other, or a slow commit's message until the preferred site has applied it.
   */
  lemma MutualExclusion(seeds: map<Key, seq<Entry>>, st: State, d: int)
    requires AnyReachable(seeds, st) && Homed(d)
    ensures var v := ViewOf(st, Diary(d), Home(d)); Holders(v) <= 1 && (v.lock == 0 <==> Holders(v) == 0)
  {
    AnyReachableInv(seeds, st);
    assert AnyOk(seeds, st, d);
  }

  /** The step ends the holding that kept the lock: its own commit's, or that of the message it delivers. */
  predicate ByHolder(v: View, p: Site, a: Action) {
    || (a == Abort(p) && v.cp.Conflict?)
    || (a == Release(p) && v.cp.Queued?)
    || (a == Abort(Other(p)) && v.cr.Conflict?)
    || (a == Unlock(p) && v.held != [])
  }

  lemma FreeingMoves(v: View, m: Move)
    requires LockOk(v) && Allowed(v, m)
    ensures v.lock != 0 && Moved(v, m).lock == 0 ==> (m.Quit? || m.Leave? || m.Open?) && Holders(v) == 1 && Holders(Moved(v, m)) == 0
    ensures m.Knock? ==> Moved(v, m) == v.(lock := v.lock + 1)
  {
  }

  lemma FreeingSteps(st: State, a: Action, d: int)
    requires Enabled(st, a) && Homed(d) && KindInv(st)
    ensures var m := MoveOf(st, a, d); var v := ViewOf(st, Diary(d), Home(d));
      Allowed(v, m) && (m.Quit? || m.Leave? || m.Open?) ==> ByHolder(v, Home(d), a)
  {
    hide ViewOf;
    QueuedIssued(st, a.s);
    if a.s != Home(d) { assert a.s == Other(Home(d)); }
  }

  /** Nobody releases a lock held by someone else, and a failed attempt leaves the holder in place. */
  lemma OnlyHolderReleases(seeds: map<Key, seq<Entry>>, st: State, a: Action, d: int)
    requires AnyReachable(seeds, st) && Enabled(st, a) && Homed(d)
    ensures var p := Home(d); var v, v' := ViewOf(st, Diary(d), p), ViewOf(Next(st, a), Diary(d), p);
      && (v.lock != 0 && v'.lock == 0 ==> ByHolder(v, p, a) && Holders(v) == 1 && Holders(v') == 0)
      && (a.Begin? && a.req.key == Diary(d) && v.lock != 0 ==> v'.lock == v.lock + 1 && v'.(lock := v.lock) == v)
  {
    AnyReachableInv(seeds, st);
    assert AnyOk(seeds, st, d);
    ViewStep(st, a, d);
    FreeingSteps(st, a, d);
    FreeingMoves(ViewOf(st, Diary(d), Home(d)), MoveOf(st, a, d));
  }

  // ---- edits that are not honest

  /**
   Whatever versions the edits of a run claim to have read, each one that commits started at or
   above every version of its diary committed before it.
   */
  lemma StartsDominate(seeds: map<Key, seq<Entry>>, st: State, d: int)
    requires AnyReachable(seeds, st) && Homed(d)
    ensures forall i, j | 0 <= i < j < |st.commits| && st.commits[i].key == Diary(d) && st.commits[j].key == Diary(d) ::
      Leq(st.commits[i].ver, st.commits[j].startTs)
  {
    AnyReachableInv(seeds, st);
    assert AnyOk(seeds, st, d);
    forall i, j | 0 <= i < j < |st.commits| && st.commits[i].key == Diary(d) && st.commits[j].key == Diary(d)
      ensures Leq(st.commits[i].ver, st.commits[j].startTs)
    {
      assert StartAt(SeedOf(seeds, Diary(d)), st.commits, Diary(d), j);
    }
  }
}
