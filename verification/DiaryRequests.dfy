/** What is committed is what was asked for: every entry, wherever it lies, goes back to the request that began its commit. */
module DiaryRequests {
  import opened DiaryProtocol
  import opened DiaryClock
  import opened DiaryHistory
  import opened DiaryInvariant
  import opened DiaryScan

  /** A step of the commit running at s, or the attempt to start one. */
  predicate OfCommit(a: Action, s: Site) {
    a.s == s && (a.Begin? || a.Check? || a.Abort? || a.Stamp? || a.Push? || a.Enqueue? || a.Release?)
  }

  /** Up to step t the commit that step b began with this request has made no other step than its check. */
  predicate BegunBy(acts: seq<Action>, b: nat, t: nat, s: Site, req: Req) {
    && b < t <= |acts| && acts[b] == Begin(s, req)
    && forall x | b < x < t && OfCommit(acts[x], s) :: acts[x] == Check(s)
  }

  function Stamps(acts: seq<Action>): nat {
    if acts == [] then 0 else Stamps(acts[..|acts|-1]) + if acts[|acts|-1].Stamp? then 1 else 0
  }

  lemma {:induction false} RunLast(st: State, acts: seq<Action>)
    requires CanRun(st, acts) && acts != []
    ensures var init := acts[..|acts|-1];
      CanRun(st, init) && Enabled(Run(st, init), acts[|acts|-1]) && Run(st, acts) == Next(Run(st, init), acts[|acts|-1])
    decreases |acts|
  {
    if |acts| > 1 {
      RunLast(Next(st, acts[0]), acts[1..]);
      assert acts[..|acts|-1][1..] == acts[1..][..|acts|-2];
    }
  }

  /** Between begin and stamp. */
  predicate Unstamped(c: Commit) {
    c.Locked? || c.Checked? || c.Conflict?
  }

  /** What a step does to the commit at s, up to its stamp. */
  lemma CommitMoves(st: State, a: Action, s: Site)
    requires Enabled(st, a)
    ensures var c, c' := At(st, s).commit, At(Next(st, a), s).commit;
      && (!OfCommit(a, s) ==> c' == c)
      && (OfCommit(a, s) && Unstamped(c') ==>
            if a.Begin? then c' == Locked(a.req) else a == Check(s) && Unstamped(c) && c'.req == c.req)
  {
  }

  lemma BegunLonger(acts: seq<Action>, a: Action, b: nat, s: Site, req: Req)
    requires BegunBy(acts, b, |acts|, s, req) && (OfCommit(a, s) ==> a == Check(s))
    ensures BegunBy(acts + [a], b, |acts| + 1, s, req)
  {
  }

  lemma {:induction false} Began(seeds: map<Key, seq<Entry>>, acts: seq<Action>, s: Site) returns (b: nat)
    requires CanRun(Init(seeds), acts) && Unstamped(At(Run(Init(seeds), acts), s).commit)
    ensures BegunBy(acts, b, |acts|, s, At(Run(Init(seeds), acts), s).commit.req)
    decreases |acts|
  {
    hide Next, Enabled, CanRun;
    assert acts != [] by { NothingBegun(seeds, s); }
    RunLast(Init(seeds), acts);
    var init, a := acts[..|acts|-1], acts[|acts|-1];
    assert acts == init + [a];
    CommitMoves(Run(Init(seeds), init), a, s);
    if OfCommit(a, s) && a.Begin? {
      b := |acts| - 1;
    } else {
      b := Began(seeds, init, s);
      BegunLonger(init, a, b, s, At(Run(Init(seeds), init), s).commit.req);
    }
  }

  lemma NothingBegun(seeds: map<Key, seq<Entry>>, s: Site)
    ensures At(Run(Init(seeds), []), s).commit == Idle
  {
  }

  lemma StampCommits(st: State, a: Action)
    requires Enabled(st, a)
    ensures Next(st, a).commits == st.commits + if a.Stamp? then [StampRec(st, a.s)] else []
  {
    if !a.Stamp? {
      QuietCommits(st, a);
      assert st.commits + [] == st.commits;
    }
  }

  lemma QuietCommits(st: State, a: Action)
    requires Enabled(st, a) && !a.Stamp?
    ensures Next(st, a).commits == st.commits
  {
  }

  /** The record of a commit says what its request asked for. */
  predicate RecordOf(c: Rec, s: Site, req: Req) {
    c.origin == s && c.key == req.key && c.startTs == req.startTs && c.payload == req.payload
  }

  /** Commit i was stamped by the i-th stamp of the run, by the commit of the site and request that step b began. */
  lemma {:induction false} StampedBy(seeds: map<Key, seq<Entry>>, acts: seq<Action>, i: nat) returns (b: nat, t: nat)
    requires CanRun(Init(seeds), acts) && i < |Run(Init(seeds), acts).commits|
    ensures t < |acts| && acts[t] == Stamp(Run(Init(seeds), acts).commits[i].origin) && Stamps(acts[..t]) == i
    ensures b < t && acts[b].Begin? && RecordOf(Run(Init(seeds), acts).commits[i], acts[b].s, acts[b].req)
    ensures BegunBy(acts, b, t, acts[b].s, acts[b].req)
    decreases |acts|
  {
    hide Next, Enabled, CanRun, Init;
    assert acts != [] by { NoCommits(seeds); }
    RunLast(Init(seeds), acts);
    var init, a := acts[..|acts|-1], acts[|acts|-1];
    var st := Run(Init(seeds), init);
    assert acts == init + [a];
    StampCommits(st, a);
    StampCount(seeds, init);
    if i < |st.commits| {
      b, t := StampedBy(seeds, init, i);
      assert acts[..t] == init[..t];
    } else {
      t := |acts| - 1;
      EnabledStamp(st, a);
      b := Began(seeds, init, a.s);
    }
  }

  lemma EnabledStamp(st: State, a: Action)
    requires Enabled(st, a) && a.Stamp?
    ensures At(st, a.s).commit.Checked? && RecordOf(StampRec(st, a.s), a.s, At(st, a.s).commit.req)
  {
  }

  lemma NoCommits(seeds: map<Key, seq<Entry>>)
    ensures Run(Init(seeds), []).commits == []
  {
  }

  lemma {:induction false} StampCount(seeds: map<Key, seq<Entry>>, acts: seq<Action>)
    requires CanRun(Init(seeds), acts)
    ensures |Run(Init(seeds), acts).commits| == Stamps(acts)
    decreases |acts|
  {
    hide Next, Enabled;
    if acts != [] {
      RunLast(Init(seeds), acts);
      StampCommits(Run(Init(seeds), acts[..|acts|-1]), acts[|acts|-1]);
      StampCount(seeds, acts[..|acts|-1]);
    }
  }

  /** An entry and the record of its commit. */
  predicate EntryOf(commits: seq<Rec>, k: Key, e: Entry) {
    && e.tag.By? && e.tag.id < |commits|
    && var c := commits[e.tag.id]; c.origin == e.tag.origin && c.key == k && c.ver == e.ver && c.payload == e.payload
  }

  lemma {:induction false} CommittedIs(commits: seq<Rec>, k: Key, x: nat)
    requires x < |Committed(commits, k)|
    ensures EntryOf(commits, k, Committed(commits, k)[x])
    decreases |commits|
  {
    var last := |commits| - 1;
    if !(commits[last].key == k && x == |Committed(commits, k)| - 1) {
      CommittedIs(commits[..last], k, x);
    }
  }

  /** What a site stores that is no seed is the entry of a commit of that list. */
  lemma StoredIs(seeds: map<Key, seq<Entry>>, st: State, s: Site, k: Key, x: nat)
    requires AnyReachable(seeds, st) && x < |List(At(st, s), k)| && List(At(st, s), k)[x].tag.By?
    ensures EntryOf(st.commits, k, List(At(st, s), k)[x])
  {
    var h := List(At(st, s), k);
    InFrom(h, x);
    OnlyCommitted(seeds, st, s, k, h[x].tag.origin);
    var y :| 0 <= y < |Committed(st.commits, k)| && Committed(st.commits, k)[y] == h[x];
    CommittedIs(st.commits, k, y);
  }

  /** So is what a message on its way carries. */
  lemma QueuedIs(seeds: map<Key, seq<Entry>>, st: State, s: Site, x: nat)
    requires AnyReachable(seeds, st) && x < |ToCount(st, s)|
    ensures EntryOf(st.commits, ToCount(st, s)[x].key, ToCount(st, s)[x].entry) && ToCount(st, s)[x].entry.tag.origin == s
  {
    AnyReachableInv(seeds, st);
    assert Carries(st.commits, ToCount(st, s)[x], s, Comp(At(st, Other(s)).vts, s) + 1 + x) by {
      if s == S0 {} else {}
    }
  }

  /**
   The payload law, over any run: every entry a site stores that is no seed, and every entry a message
   carries, is what a request asked for: the request of the step that began the commit which the id-th
   stamp of the run finished, id being that of the entry's tag; with its key and its payload.
   */
  lemma EveryEntryWasAskedFor(seeds: map<Key, seq<Entry>>, acts: seq<Action>, k: Key, e: Entry) returns (b: nat, t: nat)
    requires Seeds(seeds) && CanRun(Init(seeds), acts) && e.tag.By?
    requires var st := Run(Init(seeds), acts);
      exists s: Site :: e in List(At(st, s), k) || exists m :: m in ToCount(st, s) && m.key == k && m.entry == e
    ensures t < |acts| && acts[t] == Stamp(e.tag.origin) && Stamps(acts[..t]) == e.tag.id
    ensures b < t && acts[b].Begin? && BegunBy(acts, b, t, e.tag.origin, acts[b].req)
    ensures acts[b].req.key == k && acts[b].req.payload == e.payload
  {
    hide Run, CanRun, Init;
    var st := Run(Init(seeds), acts);
    assert AnyReachable(seeds, st);
    var s: Site :| e in List(At(st, s), k) || exists m :: m in ToCount(st, s) && m.key == k && m.entry == e;
    if e in List(At(st, s), k) {
      var x :| 0 <= x < |List(At(st, s), k)| && List(At(st, s), k)[x] == e;
      StoredIs(seeds, st, s, k, x);
    } else {
      var m :| m in ToCount(st, s) && m.key == k && m.entry == e;
      var x :| 0 <= x < |ToCount(st, s)| && ToCount(st, s)[x] == m;
      QueuedIs(seeds, st, s, x);
    }
    b, t := StampedBy(seeds, acts, e.tag.id);
  }
}
