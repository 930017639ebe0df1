/** That commits and deliveries come to an end, whatever order they are scheduled in. */
module DiaryQuiet {
  import opened DiaryProtocol
  import opened DiaryInvariant
  import opened DiaryTheorems
  import opened DiaryLimits

  /** Steps a commit has still to make, and that its message will make. */
  function CommitLoad(c: Commit): nat {
    match c
    case Idle => 0
    case Locked(_) => 11
    case Checked(_) => 10
    case Conflict(_) => 1
    case Stamped(_, _) => 9
    case Pushed(_, _) => 8
    case Queued(_) => 1
  }

  function DeliveryLoad(d: Delivery): nat {
    match d
    case NoMsg => 0
    case Got(_) => 3
    case Stored(_) => 2
    case Unlocked(_) => 1
  }

  function NodeLoad(n: Node): nat {
    CommitLoad(n.commit) + DeliveryLoad(n.delivery) + 5 * |n.outbox| + 4 * |n.inbox|
  }

  /** No run without new edits is longer than this. */
  function Load(st: State): nat {
    NodeLoad(st.n0) + NodeLoad(st.n1)
  }

  lemma LoadCommit(st: State, a: Action)
    requires Enabled(st, a) && (a.Check? || a.Stamp? || a.Push? || a.Enqueue? || a.Release?)
    ensures Load(Next(st, a)) < Load(st)
  {
  }

  lemma LoadAbort(st: State, a: Action)
    requires Enabled(st, a) && a.Abort?
    ensures Load(Next(st, a)) < Load(st)
  {
  }

  lemma LoadMove(st: State, a: Action)
    requires Enabled(st, a) && (a.Send? || a.Receive?)
    ensures Load(Next(st, a)) < Load(st)
  {
  }

  lemma LoadDelivery(st: State, a: Action)
    requires Enabled(st, a) && (a.Store? || a.Unlock? || a.Count?)
    ensures Load(Next(st, a)) < Load(st)
  {
  }

  lemma LoadStep(st: State, a: Action)
    requires Enabled(st, a) && !a.Begin?
    ensures Load(Next(st, a)) < Load(st)
  {
    hide Load, Next, Enabled;
    match a
    case Abort(_) => LoadAbort(st, a);
    case Send(_) => LoadMove(st, a);
    case Receive(_) => LoadMove(st, a);
    case Store(_) => LoadDelivery(st, a);
    case Unlock(_) => LoadDelivery(st, a);
    case Count(_) => LoadDelivery(st, a);
    case _ => LoadCommit(st, a);
  }

  predicate NoBegins(acts: seq<Action>) {
    forall i | 0 <= i < |acts| :: !acts[i].Begin?
  }

  /** Whatever the schedule, a run without new edits ends. */
  lemma {:induction false} RunsEnd(st: State, acts: seq<Action>)
    requires CanRun(st, acts) && NoBegins(acts)
    ensures |acts| <= Load(st)
    decreases |acts|
  {
    if acts != [] {
      LoadStep(st, acts[0]);
      RunsEnd(Next(st, acts[0]), acts[1..]);
    }
  }

  /** A site that is not quiet has a step to make. */
  function Due(st: State, s: Site): Action
    requires !Quiet(At(st, s))
  {
    var n := At(st, s);
    match n.delivery
    case Got(_) => Store(s)
    case Stored(m) => if m.kind == Slow then Unlock(s) else Count(s)
    case Unlocked(_) => Count(s)
    case NoMsg =>
      match n.commit
      case Locked(_) => Check(s)
      case Checked(_) => Stamp(s)
      case Conflict(_) => Abort(s)
      case Stamped(_, _) => Push(s)
      case Pushed(_, _) => Enqueue(s)
      case Queued(_) => Release(s)
      case Idle => if n.inbox != [] then Receive(s) else Send(s)
  }

  lemma DueEnabled(st: State, s: Site)
    requires !Quiet(At(st, s))
    ensures Enabled(st, Due(st, s)) && !Due(st, s).Begin?
  {
  }

  /** The runs that cannot go on without a new edit are those that have become quiet. */
  lemma StuckIff(st: State)
    ensures Quiet(st.n0) && Quiet(st.n1) <==> forall a | Enabled(st, a) :: a.Begin?
  {
    if !Quiet(st.n0) { DueEnabled(st, S0); }
    if !Quiet(st.n1) { DueEnabled(st, S1); }
  }

  /** From every state some steps without new edits lead to a quiet one. */
  lemma {:induction false} Settles(st: State) returns (acts: seq<Action>)
    ensures CanRun(st, acts) && NoBegins(acts)
    ensures Quiet(Run(st, acts).n0) && Quiet(Run(st, acts).n1)
    decreases Load(st)
  {
    if Quiet(st.n0) && Quiet(st.n1) {
      acts := [];
    } else {
      var s := if !Quiet(st.n0) then S0 else S1;
      var a := Due(st, s);
      DueEnabled(st, s);
      LoadStep(st, a);
      var rest := Settles(Next(st, a));
      acts := [a] + rest;
      assert acts[1..] == rest;
    }
  }

  lemma {:induction false} StillReachable(seeds: map<Key, seq<Entry>>, st: State, acts: seq<Action>)
    requires AnyReachable(seeds, st) && CanRun(st, acts)
    ensures AnyReachable(seeds, Run(st, acts))
    decreases |acts|
  {
    if acts != [] {
      AnyReachNext(seeds, st, acts[0]);
      StillReachable(seeds, Next(st, acts[0]), acts[1..]);
    }
  }

  lemma {:induction false} StillHonest(seeds: map<Key, seq<Entry>>, st: State, acts: seq<Action>)
    requires Reachable(seeds, st) && CanRun(st, acts) && NoBegins(acts)
    ensures Reachable(seeds, Run(st, acts))
    decreases |acts|
  {
    if acts != [] {
      ReachNext(seeds, st, acts[0]);
      StillHonest(seeds, Next(st, acts[0]), acts[1..]);
    }
  }

  /**
   Convergence is reached: however the commits and deliveries of any run are scheduled once no new
   edit arrives, they end after at most Load(st) steps, and where they end the two sites have
   converged, with the same histories of all diaries with a preferred site if the run was honest.
   */
  lemma Converges(seeds: map<Key, seq<Entry>>, st: State, acts: seq<Action>)
    requires AnyReachable(seeds, st) && CanRun(st, acts) && NoBegins(acts)
    requires forall a | Enabled(Run(st, acts), a) :: a.Begin?
    ensures |acts| <= Load(st)
    ensures var end := Run(st, acts);
      && Quiet(end.n0) && Quiet(end.n1) && end.n0.vts == end.n1.vts
      && (forall k :: multiset(List(end.n0, k)) == multiset(List(end.n1, k)))
      && (forall d | Homed(d) :: Lock(At(end, Home(d)), Diary(d)) == 0)
      && (Reachable(seeds, st) ==> forall d | Homed(d) :: List(end.n0, Diary(d)) == List(end.n1, Diary(d)))
  {
    RunsEnd(st, acts);
    StuckIff(Run(st, acts));
    StillReachable(seeds, st, acts);
    if Reachable(seeds, st) { StillHonest(seeds, st, acts); }
    Convergence(seeds, Run(st, acts));
  }
}
