/**
 The two-site diary replication protocol of the server, as a state machine.

 A step is one Redis command, one update of the version vector under its mutex,
 or one move of a replication message.  Commits run one at a time at a site (the
 HTTP handler is single-threaded) and so do deliveries (one replicater thread),
 but the two interleave with each other and with the other site's steps.

 `commits`, `applied`, `Rec.seen` and `Entry.tag` are history variables: they
 record what happened and no step looks at them to decide what to do.
 */
module DiaryProtocol {

  datatype Site = S0 | S1

  function Other(s: Site): Site {
    if s == S0 then S1 else S0
  }

  /** A version vector, one component per site. */
  datatype Ver = Ver(first: int, second: int)

  function Comp(v: Ver, s: Site): int {
    if s == S0 then v.first else v.second
  }

  function Bump(v: Ver, s: Site): Ver {
    if s == S0 then v.(first := v.first + 1) else v.(second := v.second + 1)
  }

  predicate Leq(a: Ver, b: Ver) {
    a.first <= b.first && a.second <= b.second
  }

  predicate Less(a: Ver, b: Ver) {
    Leq(a, b) && a != b
  }

  const ZERO: Ver := Ver(0, 0)

  /** The C remainder `oid % 2`: the sign follows the dividend. */
  function PreferSite(oid: int): int {
    if oid % 2 == 0 then 0 else if oid > 0 then 1 else -1
  }

  function SiteId(s: Site): int {
    if s == S0 then 0 else 1
  }

  predicate Prefers(oid: int, s: Site) {
    PreferSite(oid) == SiteId(s)
  }

  /** The diary has a preferred site at all. */
  predicate Homed(oid: int) {
    oid >= 0 || oid % 2 == 0
  }

  function Home(oid: int): Site {
    if oid % 2 == 0 then S0 else S1
  }

  /** A Redis list of the server: a diary's version history, or its comments. */
  datatype Key = Diary(id: int) | Comments(id: int)

  datatype Tag = Seed | By(origin: Site, id: nat)

  datatype Entry = Entry(ver: Ver, payload: string, tag: Tag)

  datatype Kind = Fast | Slow

  /** A replication message. */
  datatype Msg = Msg(kind: Kind, key: Key, entry: Entry)

  datatype Req = Req(kind: Kind, key: Key, startTs: Ver, payload: string)

  /** How far the commit running at a site has come. */
  datatype Commit =
    | Idle
    | Locked(req: Req)                    // the INCR answered 1
    | Checked(req: Req)                   // no conflict found, or none looked for
    | Conflict(req: Req)                  // conflict found, lock still held
    | Stamped(req: Req, entry: Entry)     // version taken
    | Pushed(req: Req, entry: Entry)      // in the local history
    | Queued(req: Req)                    // in msg_list; a fast commit still holds its lock

  /** How far the delivery running at a site has come. */
  datatype Delivery =
    | NoMsg
    | Got(msg: Msg)
    | Stored(msg: Msg)
    | Unlocked(msg: Msg)

  datatype Node = Node(
    lists: map<Key, seq<Entry>>,
    locks: map<Key, nat>,
    vts: Ver,
    outbox: seq<Msg>,
    inbox: seq<Msg>,
    commit: Commit,
    delivery: Delivery,
    applied: set<nat>)

  /** What is remembered of a stamped commit; `seen` is what its site had applied. */
  datatype Rec = Rec(origin: Site, key: Key, startTs: Ver, ver: Ver, payload: string, seen: set<nat>)

  datatype State = State(n0: Node, n1: Node, commits: seq<Rec>)

  function At(st: State, s: Site): Node {
    if s == S0 then st.n0 else st.n1
  }

  function Put(st: State, s: Site, n: Node): State {
    if s == S0 then st.(n0 := n) else st.(n1 := n)
  }

  function List(n: Node, k: Key): seq<Entry> {
    if k in n.lists then n.lists[k] else []
  }

  function Lock(n: Node, k: Key): nat {
    if k in n.locks then n.locks[k] else 0
  }

  function RPush(n: Node, k: Key, e: Entry): Node {
    n.(lists := n.lists[k := List(n, k) + [e]])
  }

  function Incr(n: Node, k: Key): Node {
    n.(locks := n.locks[k := Lock(n, k) + 1])
  }

  function SetZero(n: Node, k: Key): Node {
    n.(locks := n.locks[k := 0])
  }

  /** Where the lock of a commit running at `s` lives. */
  function LockSite(s: Site, kind: Kind): Site {
    if kind == Fast then s else Other(s)
  }

  predicate NoConflict(h: seq<Entry>, startTs: Ver) {
    forall i | 0 <= i < |h| :: Leq(h[i].ver, startTs)
  }

  function EditReq(s: Site, id: int, startTs: Ver, payload: string): Req {
    Req(if Prefers(id, s) then Fast else Slow, Diary(id), startTs, payload)
  }

  datatype Action =
    | Begin(s: Site, req: Req)
    | Check(s: Site)
    | Abort(s: Site)
    | Stamp(s: Site)
    | Push(s: Site)
    | Enqueue(s: Site)
    | Release(s: Site)
    | Send(s: Site)
    | Receive(s: Site)
    | Store(s: Site)
    | Unlock(s: Site)
    | Count(s: Site)

  /** A request the handlers can issue at `s`: an edit goes fast or slow by its preferred site. */
  predicate Issued(s: Site, r: Req) {
    match r.key
    case Diary(id) => r.kind == (if Prefers(id, s) then Fast else Slow)
    case Comments(id) => r.kind == Fast && r.startTs == ZERO
  }

  predicate Enabled(st: State, a: Action) {
    var n := At(st, a.s);
    match a
    case Begin(s, req) => n.commit == Idle && Issued(s, req)
    case Check(_) => n.commit.Locked?
    case Abort(_) => n.commit.Conflict?
    case Stamp(_) => n.commit.Checked?
    case Push(_) => n.commit.Stamped?
    case Enqueue(_) => n.commit.Pushed?
    case Release(_) => n.commit.Queued?
    case Send(_) => n.delivery == NoMsg && n.outbox != []
    case Receive(_) => n.delivery == NoMsg && n.inbox != []
    case Store(_) => n.delivery.Got?
    case Unlock(_) => n.delivery.Stored? && n.delivery.msg.kind == Slow
    case Count(_) => n.delivery.Unlocked? || (n.delivery.Stored? && n.delivery.msg.kind == Fast)
  }

  function DoBegin(st: State, s: Site, req: Req): State
  {
    var ls := LockSite(s, req.kind);
    var st1 := Put(st, ls, Incr(At(st, ls), req.key));
    if Lock(At(st1, ls), req.key) == 1
    then Put(st1, s, At(st1, s).(commit := Locked(req)))
    else st1
  }

  function DoCheck(st: State, s: Site): State
    requires At(st, s).commit.Locked?
  {
    var n := At(st, s);
    var req := n.commit.req;
    var h := List(At(st, LockSite(s, req.kind)), req.key);
    Put(st, s, n.(commit := if req.key.Comments? || NoConflict(h, req.startTs) then Checked(req) else Conflict(req)))
  }

  function DoAbort(st: State, s: Site): State
    requires At(st, s).commit.Conflict?
  {
    var req := At(st, s).commit.req;
    var ls := LockSite(s, req.kind);
    var st1 := Put(st, s, At(st, s).(commit := Idle));
    Put(st1, ls, SetZero(At(st1, ls), req.key))
  }

  function StampRec(st: State, s: Site): Rec
    requires At(st, s).commit.Checked?
  {
    var n := At(st, s);
    Rec(s, n.commit.req.key, n.commit.req.startTs, Bump(n.vts, s), n.commit.req.payload, n.applied)
  }

  function DoStamp(st: State, s: Site): State
    requires At(st, s).commit.Checked?
  {
    var n := At(st, s);
    var id := |st.commits|;
    var c := StampRec(st, s);
    var n' := n.(vts := c.ver, applied := n.applied + {id},
                 commit := Stamped(n.commit.req, Entry(c.ver, c.payload, By(s, id))));
    Put(st, s, n').(commits := st.commits + [c])
  }

  function DoPush(st: State, s: Site): State
    requires At(st, s).commit.Stamped?
  {
    var n := At(st, s);
    Put(st, s, RPush(n, n.commit.req.key, n.commit.entry).(commit := Pushed(n.commit.req, n.commit.entry)))
  }

  function DoEnqueue(st: State, s: Site): State
    requires At(st, s).commit.Pushed?
  {
    var n := At(st, s);
    var req := n.commit.req;
    Put(st, s, n.(outbox := n.outbox + [Msg(req.kind, req.key, n.commit.entry)],
                  commit := if req.kind == Fast then Queued(req) else Idle))
  }

  function DoRelease(st: State, s: Site): State
    requires At(st, s).commit.Queued?
  {
    var n := At(st, s);
    Put(st, s, SetZero(n, n.commit.req.key).(commit := Idle))
  }

  function DoSend(st: State, s: Site): State
    requires At(st, s).outbox != []
  {
    var n := At(st, s);
    var o := At(st, Other(s));
    Put(Put(st, s, n.(outbox := n.outbox[1..])), Other(s), o.(inbox := o.inbox + [n.outbox[0]]))
  }

  function DoReceive(st: State, s: Site): State
    requires At(st, s).inbox != []
  {
    var n := At(st, s);
    Put(st, s, n.(inbox := n.inbox[1..], delivery := Got(n.inbox[0])))
  }

  function DoStore(st: State, s: Site): State
    requires At(st, s).delivery.Got?
  {
    var n := At(st, s);
    var m := n.delivery.msg;
    Put(st, s, RPush(n, m.key, m.entry).(delivery := Stored(m)))
  }

  function DoUnlock(st: State, s: Site): State
    requires At(st, s).delivery.Stored?
  {
    var n := At(st, s);
    var m := n.delivery.msg;
    Put(st, s, SetZero(n, m.key).(delivery := Unlocked(m)))
  }

  function DoCount(st: State, s: Site): State
    requires !At(st, s).delivery.NoMsg?
  {
    var n := At(st, s);
    var tag := n.delivery.msg.entry.tag;
    Put(st, s, n.(vts := Bump(n.vts, Other(s)), delivery := NoMsg,
                  applied := if tag.By? then n.applied + {tag.id} else n.applied))
  }

  function Next(st: State, a: Action): State
    requires Enabled(st, a)
  {
    match a
    case Begin(s, req) => DoBegin(st, s, req)
    case Check(s) => DoCheck(st, s)
    case Abort(s) => DoAbort(st, s)
    case Stamp(s) => DoStamp(st, s)
    case Push(s) => DoPush(st, s)
    case Enqueue(s) => DoEnqueue(st, s)
    case Release(s) => DoRelease(st, s)
    case Send(s) => DoSend(st, s)
    case Receive(s) => DoReceive(st, s)
    case Store(s) => DoStore(st, s)
    case Unlock(s) => DoUnlock(st, s)
    case Count(s) => DoCount(st, s)
  }

  /** Both sites start from the same seeded lists, all at version (0,0), one entry at most per diary. */
  predicate Seeds(lists: map<Key, seq<Entry>>) {
    forall k | k in lists ::
      && (forall i | 0 <= i < |lists[k]| :: lists[k][i].ver == ZERO && lists[k][i].tag == Seed)
      && (k.Diary? ==> |lists[k]| <= 1)
  }

  function FreshNode(seeds: map<Key, seq<Entry>>): Node {
    Node(seeds, map[], ZERO, [], [], Idle, NoMsg, {})
  }

  function Init(seeds: map<Key, seq<Entry>>): State {
    State(FreshNode(seeds), FreshNode(seeds), [])
  }

  predicate CanRun(st: State, acts: seq<Action>)
    decreases |acts|
  {
    acts == [] || (Enabled(st, acts[0]) && CanRun(Next(st, acts[0]), acts[1..]))
  }

  function Run(st: State, acts: seq<Action>): State
    requires CanRun(st, acts)
    decreases |acts|
  {
    if acts == [] then st else Run(Next(st, acts[0]), acts[1..])
  }

  /** The one thing asked of clients: an edit starts from a version its site has finished applying. */
  predicate Honest(st: State, a: Action) {
    a.Begin? && a.req.key.Diary? ==> Leq(a.req.startTs, At(st, a.s).vts)
  }

  predicate HonestRun(st: State, acts: seq<Action>)
    requires CanRun(st, acts)
    decreases |acts|
  {
    acts == [] || (Honest(st, acts[0]) && HonestRun(Next(st, acts[0]), acts[1..]))
  }

  /** `st` is reachable from the seeds by steps whose edits are all honest. */
  ghost predicate Reachable(seeds: map<Key, seq<Entry>>, st: State) {
    Seeds(seeds) &&
    exists acts :: CanRun(Init(seeds), acts) && HonestRun(Init(seeds), acts) && Run(Init(seeds), acts) == st
  }
}
