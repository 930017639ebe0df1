/**
 The server process of one site, as the program runs it: its own Redis, the other
 site's Redis, committedVTS and msg_list.  Every method is proved to perform steps
 of the protocol; the ghost fields only name how far it has come.
 */
module DiaryServer {
  import opened DiaryProtocol
  import opened DiaryInvariant
  import opened DiaryLimits
  import opened DiaryScan

  class Redis {
    var lists: map<Key, seq<Entry>>
    var counters: map<Key, nat>

    function Range(k: Key): seq<Entry>
      reads this
    {
      if k in lists then lists[k] else []
    }

    function Counter(k: Key): nat
      reads this
    {
      if k in counters then counters[k] else 0
    }

    constructor (seeds: map<Key, seq<Entry>>)
      ensures lists == seeds && counters == map[]
    {
      lists, counters := seeds, map[];
    }

    method Incr(k: Key) returns (n: nat)
      modifies this`counters
      ensures counters == old(counters)[k := old(Counter(k)) + 1]
      ensures n == old(Counter(k)) + 1
    {
      n := Counter(k) + 1;
      counters := counters[k := n];
    }

    method SetZero(k: Key)
      modifies this`counters
      ensures counters == old(counters)[k := 0]
    {
      counters := counters[k := 0];
    }

    method RPush(k: Key, e: Entry)
      modifies this`lists
      ensures lists == old(lists)[k := old(Range(k)) + [e]]
    {
      lists := lists[k := Range(k) + [e]];
    }
  }

  /** A record of the commits of both sites, in the order they were stamped; their number tags the entries. */
  class Log {
    var count: nat
    ghost var commits: seq<Rec>

    constructor ()
      ensures commits == [] && count == 0
    {
      count, commits := 0, [];
    }
  }

  /** A one-way link: what one site publishes and the other has not received. */
  class Channel {
    var queue: seq<Msg>

    constructor ()
      ensures queue == []
    {
      queue := [];
    }
  }

  datatype Option<T> = None | Some(value: T)

  class Server {
    const site: Site
    const cli: Redis
    const master: Redis
    const pub: Channel
    const sub: Channel
    const log: Log
    var committedVTS: Ver
    var msgList: seq<Msg>
    ghost var commit: Commit
    ghost var delivery: Delivery
    ghost var applied: set<nat>

    constructor (site: Site, cli: Redis, master: Redis, pub: Channel, sub: Channel, log: Log)
      ensures this.site == site && this.cli == cli && this.master == master
      ensures this.pub == pub && this.sub == sub && this.log == log
      ensures committedVTS == ZERO && msgList == [] && commit == Idle && delivery == NoMsg && applied == {}
    {
      this.site, this.cli, this.master, this.pub, this.sub, this.log := site, cli, master, pub, sub, log;
      committedVTS, msgList := ZERO, [];
      commit, delivery, applied := Idle, NoMsg, {};
    }

    ghost function NodeOf(): Node
      reads this, cli, sub
    {
      Node(cli.lists, cli.counters, committedVTS, msgList, sub.queue, commit, delivery, applied)
    }

    /** This process and its peer are the two ends of one system. */
    ghost predicate Wired(peer: Server)
      reads log
    {
      && site != peer.site && this != peer
      && master == peer.cli && peer.master == cli && cli != peer.cli
      && pub == peer.sub && peer.pub == sub && pub != sub
      && log == peer.log && log.count == |log.commits|
    }

    ghost function System(peer: Server): State
      reads this, cli, sub, peer, peer.cli, peer.sub, log
    {
      if site == S0 then State(NodeOf(), peer.NodeOf(), log.commits)
      else State(peer.NodeOf(), NodeOf(), log.commits)
    }

    /** An entry with this payload was committed, stored and queued for the other site, and its commit recorded; nothing else was. */
    twostate predicate Committed(kind: Kind, key: Key, startTs: Ver, payload: string)
      reads this, cli, log
    {
      var e := Entry(committedVTS, payload, By(site, old(|log.commits|)));
      && committedVTS == Bump(old(committedVTS), site)
      && cli.lists == old(cli.lists)[key := old(cli.Range(key)) + [e]]
      && msgList == old(msgList) + [Msg(kind, key, e)]
      && log.commits == old(log.commits) + [Rec(site, key, startTs, committedVTS, payload, old(applied))]
      && applied == old(applied) + {old(|log.commits|)} && delivery == old(delivery)
    }

    /** Nothing was committed here. */
    twostate predicate Uncommitted()
      reads this, cli, log
    {
      && committedVTS == old(committedVTS) && cli.lists == old(cli.lists) && msgList == old(msgList)
      && log.commits == old(log.commits) && applied == old(applied) && delivery == old(delivery)
    }

    lemma OwnNode(peer: Server)
      requires Wired(peer)
      ensures At(System(peer), site) == NodeOf()
    {
    }

    // ---- one protocol step each

    method AcquireLocal(req: Req, ghost peer: Server) returns (ok: bool)
      requires Wired(peer) && commit == Idle && req.kind == Fast
      modifies this`commit, cli`counters
      ensures System(peer) == DoBegin(old(System(peer)), site, req)
      ensures ok <==> old(cli.Counter(req.key)) == 0
      ensures commit == if ok then Locked(req) else Idle
      ensures cli.counters == old(cli.counters)[req.key := old(cli.Counter(req.key)) + 1]
    {
      var n := cli.Incr(req.key);
      ok := n == 1;
      if ok { commit := Locked(req); }
    }

    method AcquireRemote(req: Req, ghost peer: Server) returns (ok: bool)
      requires Wired(peer) && commit == Idle && req.kind == Slow
      modifies this`commit, master`counters
      ensures System(peer) == DoBegin(old(System(peer)), site, req)
      ensures ok <==> old(master.Counter(req.key)) == 0
      ensures commit == if ok then Locked(req) else Idle
      ensures master.counters == old(master.counters)[req.key := old(master.Counter(req.key)) + 1]
    {
      var n := master.Incr(req.key);
      ok := n == 1;
      if ok { commit := Locked(req); }
    }

    /** The scan of a diary's history for an entry the client has not seen. */
    static method FindConflict(h: seq<Entry>, startTs: Ver) returns (conflict: bool)
      ensures conflict <==> !NoConflict(h, startTs)
    {
      for i := 0 to |h|
        invariant NoConflict(h[..i], startTs)
      {
        if startTs.first < h[i].ver.first || startTs.second < h[i].ver.second {
          return true;
        }
        assert h[..i+1] == h[..i] + [h[i]];
      }
      assert h[..|h|] == h;
      return false;
    }

    method CheckHistory(redis: Redis, req: Req, ghost peer: Server) returns (ok: bool)
      requires Wired(peer) && commit == Locked(req)
      requires redis == if req.kind == Fast then cli else master
      modifies this`commit
      ensures System(peer) == DoCheck(old(System(peer)), site)
      ensures ok <==> req.key.Comments? || NoConflict(redis.Range(req.key), req.startTs)
      ensures commit == if ok then Checked(req) else Conflict(req)
    {
      ok := true;
      if req.key.Diary? {
        var h := redis.Range(req.key);
        var conflict := FindConflict(h, req.startTs);
        ok := !conflict;
      }
      commit := if ok then Checked(req) else Conflict(req);
    }

    method AbortCommit(redis: Redis, req: Req, ghost peer: Server)
      requires Wired(peer) && commit == Conflict(req)
      requires redis == if req.kind == Fast then cli else master
      modifies this`commit, redis`counters
      ensures System(peer) == DoAbort(old(System(peer)), site)
      ensures commit == Idle && redis.counters == old(redis.counters)[req.key := 0]
    {
      redis.SetZero(req.key);
      commit := Idle;
    }

    method TakeVersion(req: Req, ghost peer: Server) returns (e: Entry)
      requires Wired(peer) && commit == Checked(req)
      modifies this`committedVTS, this`commit, this`applied, log
      ensures Wired(peer) && System(peer) == DoStamp(old(System(peer)), site)
      ensures commit == Stamped(req, e)
      ensures e == Entry(committedVTS, req.payload, By(site, old(|log.commits|))) && committedVTS == Bump(old(committedVTS), site)
      ensures log.commits == old(log.commits) + [Rec(site, req.key, req.startTs, committedVTS, req.payload, old(applied))]
      ensures applied == old(applied) + {old(|log.commits|)}
    {
      committedVTS := Bump(committedVTS, site);
      e := Entry(committedVTS, req.payload, By(site, log.count));
      applied := applied + {log.count};
      log.commits := log.commits + [Rec(site, req.key, req.startTs, committedVTS, req.payload, old(applied))];
      log.count := log.count + 1;
      commit := Stamped(req, e);
    }

    method PushLocal(req: Req, e: Entry, ghost peer: Server)
      requires Wired(peer) && commit == Stamped(req, e)
      modifies this`commit, cli`lists
      ensures System(peer) == DoPush(old(System(peer)), site)
      ensures commit == Pushed(req, e) && cli.lists == old(cli.lists)[req.key := old(cli.Range(req.key)) + [e]]
    {
      cli.RPush(req.key, e);
      commit := Pushed(req, e);
    }

    method Replicate(req: Req, e: Entry, ghost peer: Server)
      requires Wired(peer) && commit == Pushed(req, e)
      modifies this`commit, this`msgList
      ensures System(peer) == DoEnqueue(old(System(peer)), site)
      ensures msgList == old(msgList) + [Msg(req.kind, req.key, e)]
      ensures commit == if req.kind == Fast then Queued(req) else Idle
    {
      msgList := msgList + [Msg(req.kind, req.key, e)];
      commit := if req.kind == Fast then Queued(req) else Idle;
    }

    method ReleaseLocal(req: Req, ghost peer: Server)
      requires Wired(peer) && commit == Queued(req)
      modifies this`commit, cli`counters
      ensures System(peer) == DoRelease(old(System(peer)), site)
      ensures commit == Idle && cli.counters == old(cli.counters)[req.key := 0]
    {
      cli.SetZero(req.key);
      commit := Idle;
    }

    method StoreMessage(m: Msg, ghost peer: Server)
      requires Wired(peer) && delivery == Got(m)
      modifies this`delivery, cli`lists
      ensures System(peer) == DoStore(old(System(peer)), site)
      ensures delivery == Stored(m) && cli.lists == old(cli.lists)[m.key := old(cli.Range(m.key)) + [m.entry]]
    {
      cli.RPush(m.key, m.entry);
      delivery := Stored(m);
    }

    method UnlockMessage(m: Msg, ghost peer: Server)
      requires Wired(peer) && delivery == Stored(m)
      modifies this`delivery, cli`counters
      ensures System(peer) == DoUnlock(old(System(peer)), site)
      ensures delivery == Unlocked(m) && cli.counters == old(cli.counters)[m.key := 0]
    {
      cli.SetZero(m.key);
      delivery := Unlocked(m);
    }

    method CountMessage(m: Msg, ghost peer: Server)
      requires Wired(peer) && (delivery == Stored(m) || delivery == Unlocked(m))
      modifies this`delivery, this`committedVTS, this`applied
      ensures System(peer) == DoCount(old(System(peer)), site)
      ensures delivery == NoMsg && committedVTS == Bump(old(committedVTS), Other(site))
    {
      committedVTS := Bump(committedVTS, Other(site));
      if m.entry.tag.By? { applied := applied + {m.entry.tag.id}; }
      delivery := NoMsg;
    }

    // ---- the program's functions

    /** INCR, check, and SET 0 on a conflict: the first half of both commits. */
    method Attempt(redis: Redis, req: Req, ghost peer: Server) returns (ok: bool, ghost acts: seq<Action>)
      requires Wired(peer) && commit == Idle && Issued(site, req)
      requires redis == if req.kind == Fast then cli else master
      modifies this`commit, redis`counters
      ensures RunsTo(old(System(peer)), acts, System(peer), req, site)
      ensures ok <==> old(redis.Counter(req.key)) == 0 && (req.key.Comments? || NoConflict(redis.Range(req.key), req.startTs))
      ensures commit == if ok then Checked(req) else Idle
      ensures redis.counters == old(redis.counters)[req.key :=
        if ok then 1 else if old(redis.Counter(req.key)) == 0 then 0 else old(redis.Counter(req.key)) + 1]
    {
      hide DoBegin, DoCheck, DoAbort, DoStamp, DoPush, DoEnqueue, DoRelease, DoSend, DoReceive, DoStore, DoUnlock, DoCount, NoConflict, Server.System;
      ghost var st0 := System(peer);
      OwnNode(peer);
      ok := Acquire(redis, req, peer);
      acts := More(st0, [], st0, Begin(site, req), System(peer), req, site);
      if ok {
        ok, acts := CheckOrAbort(redis, req, peer, st0, acts);
      }
    }

    method Acquire(redis: Redis, req: Req, ghost peer: Server) returns (ok: bool)
      requires Wired(peer) && commit == Idle
      requires redis == if req.kind == Fast then cli else master
      modifies this`commit, redis`counters
      ensures System(peer) == DoBegin(old(System(peer)), site, req)
      ensures ok <==> old(redis.Counter(req.key)) == 0
      ensures commit == (if ok then Locked(req) else Idle)
      ensures redis.counters == old(redis.counters)[req.key := old(redis.Counter(req.key)) + 1]
    {
      if req.kind == Fast {
        ok := AcquireLocal(req, peer);
      } else {
        ok := AcquireRemote(req, peer);
      }
    }

    method CheckOrAbort(redis: Redis, req: Req, ghost peer: Server, ghost st0: State, ghost acts0: seq<Action>)
        returns (ok: bool, ghost acts: seq<Action>)
      requires Wired(peer) && commit == Locked(req) && RunsTo(st0, acts0, System(peer), req, site)
      requires redis == if req.kind == Fast then cli else master
      modifies this`commit, redis`counters
      ensures RunsTo(st0, acts, System(peer), req, site)
      ensures ok <==> req.key.Comments? || NoConflict(redis.Range(req.key), req.startTs)
      ensures commit == (if ok then Checked(req) else Idle)
      ensures redis.counters == if ok then old(redis.counters) else old(redis.counters)[req.key := 0]
    {
      hide DoBegin, DoCheck, DoAbort, DoStamp, DoPush, DoEnqueue, DoRelease, DoSend, DoReceive, DoStore, DoUnlock, DoCount, RunsTo, NoConflict;
      ghost var st1 := System(peer);
      ok := CheckHistory(redis, req, peer);
      acts := More(st0, acts0, st1, Check(site), System(peer), req, site);
      if !ok {
        ghost var st2 := System(peer);
        AbortCommit(redis, req, peer);
        acts := More(st0, acts, st2, Abort(site), System(peer), req, site);
      }
    }

    /** Stamp, RPUSH, and append to msg_list: the second half of both commits. */
    method Publish(req: Req, ghost peer: Server, ghost st0: State, ghost acts0: seq<Action>) returns (ghost acts: seq<Action>)
      requires Wired(peer) && commit == Checked(req)
      requires RunsTo(st0, acts0, System(peer), req, site)
      modifies this, cli`lists, log
      ensures Wired(peer)
      ensures RunsTo(st0, acts, System(peer), req, site)
      ensures commit == if req.kind == Fast then Queued(req) else Idle
      ensures Committed(req.kind, req.key, req.startTs, req.payload)
    {
      hide DoBegin, DoCheck, DoAbort, DoStamp, DoPush, DoEnqueue, DoRelease, DoSend, DoReceive, DoStore, DoUnlock, DoCount, RunsTo, NoConflict, Server.System;
      ghost var st1 := System(peer);
      OwnNode(peer);
      var e := TakeVersion(req, peer);
      acts := More(st0, acts0, st1, Stamp(site), System(peer), req, site);
      ghost var st2 := System(peer);
      OwnNode(peer);
      PushLocal(req, e, peer);
      acts := More(st0, acts, st2, Push(site), System(peer), req, site);
      ghost var st3 := System(peer);
      OwnNode(peer);
      Replicate(req, e, peer);
      acts := More(st0, acts, st3, Enqueue(site), System(peer), req, site);
    }

    /** fast_commit: every path is a run of the protocol, and it succeeds exactly if the lock was free and nothing conflicts. */
    method FastCommit(key: Key, startTs: Ver, payload: string, ghost peer: Server) returns (ok: bool, ghost acts: seq<Action>)
      requires Wired(peer) && commit == Idle && Issued(site, Req(Fast, key, startTs, payload))
      modifies this, cli, log
      ensures Wired(peer)
      ensures RunsTo(old(System(peer)), acts, System(peer), Req(Fast, key, startTs, payload), site)
      ensures ok <==> old(cli.Counter(key)) == 0 && (key.Comments? || NoConflict(old(cli.Range(key)), startTs))
      ensures if ok then Committed(Fast, key, startTs, payload) else Uncommitted()
      ensures cli.counters == old(cli.counters)[key := if old(cli.Counter(key)) == 0 then 0 else old(cli.Counter(key)) + 1]
      ensures commit == Idle
    {
      hide DoBegin, DoCheck, DoAbort, DoStamp, DoPush, DoEnqueue, DoRelease, DoSend, DoReceive, DoStore, DoUnlock, DoCount, RunsTo, NoConflict, Server.System;
      var req := Req(Fast, key, startTs, payload);
      ghost var st0 := System(peer);
      ok, acts := Attempt(cli, req, peer);
      if ok {
        acts := Publish(req, peer, st0, acts);
        ghost var st1 := System(peer);
        OwnNode(peer);
        ReleaseLocal(req, peer);
        acts := More(st0, acts, st1, Release(site), System(peer), req, site);
      }
    }

    /** slow_commit: the lock and the check are at the other site, and the lock stays held on success. */
    method SlowCommit(key: Key, startTs: Ver, payload: string, ghost peer: Server) returns (ok: bool, ghost acts: seq<Action>)
      requires Wired(peer) && commit == Idle && (key.Diary? ==> Issued(site, Req(Slow, key, startTs, payload)))
      modifies this, cli`lists, master`counters, log
      ensures Wired(peer)
      ensures RunsTo(old(System(peer)), acts, System(peer), Req(Slow, key, startTs, payload), site)
      ensures ok <==> key.Diary? && old(master.Counter(key)) == 0 && NoConflict(old(master.Range(key)), startTs)
      ensures if ok then Committed(Slow, key, startTs, payload) else Uncommitted()
      ensures master.counters ==
        if key.Comments? then old(master.counters)
        else old(master.counters)[key := if ok then 1 else if old(master.Counter(key)) == 0 then 0 else old(master.Counter(key)) + 1]
      ensures commit == Idle
    {
      hide DoBegin, DoCheck, DoAbort, DoStamp, DoPush, DoEnqueue, DoRelease, DoSend, DoReceive, DoStore, DoUnlock, DoCount, NoConflict;
      var req := Req(Slow, key, startTs, payload);
      ghost var st0 := System(peer);
      if key.Comments? { return false, []; }
      ok, acts := Attempt(master, req, peer);
      if ok {
        acts := Publish(req, peer, st0, acts);
      }
    }

    /** handle_edit_diary: fast at the diary's preferred site, slow elsewhere; an honest edit keeps the whole system's invariant. */
    method EditDiary(d: int, startTs: Ver, payload: string, ghost peer: Server, ghost seeds: map<Key, seq<Entry>>)
      returns (ok: bool, ghost acts: seq<Action>)
      requires Wired(peer) && commit == Idle
      requires Inv(seeds, System(peer))
      modifies this, cli, master`counters, log
      ensures Wired(peer)
      ensures RunsTo(old(System(peer)), acts, System(peer), EditReq(site, d, startTs, payload), site)
      ensures Leq(startTs, old(committedVTS)) ==> Inv(seeds, System(peer))
      ensures ok <==>
        var redis := if Prefers(d, site) then cli else master;
        old(redis.Counter(Diary(d))) == 0 && NoConflict(old(redis.Range(Diary(d))), startTs)
      ensures if ok then Committed(if Prefers(d, site) then Fast else Slow, Diary(d), startTs, payload) else Uncommitted()
      ensures ok ==> if Prefers(d, site) then cli.Counter(Diary(d)) == 0 else master.Counter(Diary(d)) == 1
      ensures commit == Idle
    {
      hide DoBegin, DoCheck, DoAbort, DoStamp, DoPush, DoEnqueue, DoRelease, DoSend, DoReceive, DoStore, DoUnlock, DoCount, Inv, NoConflict;
      ghost var st0 := System(peer);
      if SiteId(site) == PreferSite(d) {
        ok, acts := FastCommit(Diary(d), startTs, payload, peer);
      } else {
        ok, acts := SlowCommit(Diary(d), startTs, payload, peer);
      }
      if Leq(startTs, old(committedVTS)) {
        assert Honest(st0, Begin(site, EditReq(site, d, startTs, payload)));
        InvRun(seeds, st0, acts);
      }
    }

    /** handle_add_comment: a fast commit without a check; the answer is the same whether or not it got the lock. */
    method AddComment(d: int, payload: string, ghost peer: Server, ghost seeds: map<Key, seq<Entry>>)
      returns (answer: bool, ghost stored: bool, ghost acts: seq<Action>)
      requires Wired(peer) && commit == Idle && Inv(seeds, System(peer))
      modifies this, cli, log
      ensures Wired(peer) && Inv(seeds, System(peer))
      ensures RunsTo(old(System(peer)), acts, System(peer), Req(Fast, Comments(d), ZERO, payload), site)
      ensures answer && (stored <==> old(cli.Counter(Comments(d))) == 0)
      ensures if stored then Committed(Fast, Comments(d), ZERO, payload) else Uncommitted()
      ensures commit == Idle
    {
      hide DoBegin, DoCheck, DoAbort, DoStamp, DoPush, DoEnqueue, DoRelease, DoSend, DoReceive, DoStore, DoUnlock, DoCount, Inv;
      ghost var st0 := System(peer);
      var result;
      result, acts := FastCommit(Comments(d), ZERO, payload, peer);
      answer, stored := true, result;
      assert Honest(st0, Begin(site, Req(Fast, Comments(d), ZERO, payload)));
      InvRun(seeds, st0, acts);
    }

    /** One pass of the replicater over a received message: store, unlock if it was slow, count. */
    method DeliverMessage(ghost peer: Server) returns (ghost acts: seq<Action>)
      requires Wired(peer) && delivery == NoMsg && sub.queue != []
      modifies this`delivery, this`committedVTS, this`applied, cli, sub
      ensures CanRun(old(System(peer)), acts) && Run(old(System(peer)), acts) == System(peer)
      ensures HonestRun(old(System(peer)), acts)
      ensures var m := old(sub.queue)[0];
        && sub.queue == old(sub.queue)[1..]
        && cli.lists == old(cli.lists)[m.key := old(cli.Range(m.key)) + [m.entry]]
        && cli.counters == (if m.kind == Slow then old(cli.counters)[m.key := 0] else old(cli.counters))
        && committedVTS == Bump(old(committedVTS), Other(site))
      ensures delivery == NoMsg
    {
      ghost var req := Req(Fast, Comments(0), ZERO, "");
      ghost var st0 := System(peer);
      var m := ReceiveMessage(peer);
      acts := More(st0, [], st0, Receive(site), System(peer), req, site);
      acts := ApplyMessage(m, peer, st0, acts, req);
    }

    method ReceiveMessage(ghost peer: Server) returns (m: Msg)
      requires Wired(peer) && delivery == NoMsg && sub.queue != []
      modifies this`delivery, sub
      ensures System(peer) == DoReceive(old(System(peer)), site)
      ensures delivery == Got(m) && m == old(sub.queue)[0] && sub.queue == old(sub.queue)[1..]
    {
      m := sub.queue[0];
      sub.queue := sub.queue[1..];
      delivery := Got(m);
    }

    /** Store, unlock if it was slow, count. */
    method ApplyMessage(m: Msg, ghost peer: Server, ghost st0: State, ghost acts0: seq<Action>, ghost req: Req) returns (ghost acts: seq<Action>)
      requires Wired(peer) && delivery == Got(m) && RunsTo(st0, acts0, System(peer), req, site)
      modifies this`delivery, this`committedVTS, this`applied, cli
      ensures RunsTo(st0, acts, System(peer), req, site)
      ensures cli.lists == old(cli.lists)[m.key := old(cli.Range(m.key)) + [m.entry]]
      ensures cli.counters == (if m.kind == Slow then old(cli.counters)[m.key := 0] else old(cli.counters))
      ensures committedVTS == Bump(old(committedVTS), Other(site)) && delivery == NoMsg
    {
      hide DoBegin, DoCheck, DoAbort, DoStamp, DoPush, DoEnqueue, DoRelease, DoSend, DoReceive, DoStore, DoUnlock, DoCount, RunsTo, NoConflict;
      ghost var st1 := System(peer);
      StoreMessage(m, peer);
      acts := More(st0, acts0, st1, Store(site), System(peer), req, site);
      acts := UnlockAndCount(m, peer, st0, acts, req);
    }

    method UnlockAndCount(m: Msg, ghost peer: Server, ghost st0: State, ghost acts0: seq<Action>, ghost req: Req) returns (ghost acts: seq<Action>)
      requires Wired(peer) && delivery == Stored(m) && RunsTo(st0, acts0, System(peer), req, site)
      modifies this`delivery, this`committedVTS, this`applied, cli`counters
      ensures RunsTo(st0, acts, System(peer), req, site)
      ensures cli.counters == (if m.kind == Slow then old(cli.counters)[m.key := 0] else old(cli.counters))
      ensures committedVTS == Bump(old(committedVTS), Other(site)) && delivery == NoMsg
    {
      hide DoBegin, DoCheck, DoAbort, DoStamp, DoPush, DoEnqueue, DoRelease, DoSend, DoReceive, DoStore, DoUnlock, DoCount, RunsTo, NoConflict;
      acts := acts0;
      if m.kind == Slow {
        ghost var st2 := System(peer);
        UnlockMessage(m, peer);
        acts := More(st0, acts, st2, Unlock(site), System(peer), req, site);
      }
      ghost var st3 := System(peer);
      CountMessage(m, peer);
      acts := More(st0, acts, st3, Count(site), System(peer), req, site);
    }

    /** The replicater's send loop: the whole of msg_list goes out, in order. */
    method SendAll(ghost peer: Server) returns (ghost acts: seq<Action>)
      requires Wired(peer) && delivery == NoMsg
      modifies this`msgList, pub
      ensures CanRun(old(System(peer)), acts) && Run(old(System(peer)), acts) == System(peer)
      ensures HonestRun(old(System(peer)), acts)
      ensures msgList == [] && pub.queue == old(pub.queue) + old(msgList)
    {
      hide DoSend, DoBegin, DoCheck, DoAbort, DoStamp, DoPush, DoEnqueue, DoRelease, DoReceive, DoStore, DoUnlock, DoCount;
      ghost var req := Req(Fast, Comments(0), ZERO, "");
      ghost var st0 := System(peer);
      acts := [];
      while msgList != []
        invariant RunsTo(st0, acts, System(peer), req, site)
        invariant pub.queue + msgList == old(pub.queue) + old(msgList)
        decreases |msgList|
      {
        ghost var st1 := System(peer);
        SendOne(peer);
        acts := More(st0, acts, st1, Send(site), System(peer), req, site);
      }
    }

    method SendOne(ghost peer: Server)
      requires Wired(peer) && delivery == NoMsg && msgList != []
      modifies this`msgList, pub
      ensures System(peer) == DoSend(old(System(peer)), site)
      ensures msgList == old(msgList)[1..] && pub.queue == old(pub.queue) + [old(msgList)[0]]
    {
      var m := msgList[0];
      pub.queue := pub.queue + [m];
      msgList := msgList[1..];
    }

    /** The scan of handle_get_diary_content; None where the program would index past the end of hlist. */
    method LatestDiary(d: int) returns (latest: Option<Entry>)
      ensures latest.Some? <==> exists n :: 1 <= n <= |cli.Range(Diary(d))| && KeptUpTo(cli.Range(Diary(d)), n)
      ensures forall n | 1 <= n <= |cli.Range(Diary(d))| && KeptUpTo(cli.Range(Diary(d)), n) ::
        latest == Some(cli.Range(Diary(d))[n - 1])
    {
      var h := cli.Range(Diary(d));
      var maxVer, maxIdx, hlist := ZERO, 0, [];
      for i := 0 to |h|
        invariant maxVer == Running(h, i)
        invariant if hlist == [] then maxIdx == 0 && forall j | 0 <= j < i :: !Keeps(h, j)
                  else maxIdx < i && Keeps(h, maxIdx) && forall j | maxIdx < j < i :: !Keeps(h, j)
        invariant |hlist| <= maxIdx + 1
        invariant hlist != [] ==> (|hlist| == maxIdx + 1 <==> forall j | 0 <= j <= maxIdx :: Keeps(h, j))
        invariant |hlist| == maxIdx + 1 ==> maxIdx < |h| && hlist == h[..maxIdx + 1]
      {
        if hlist == [] {
          assert i > 0 ==> !Keeps(h, 0);
        } else if maxIdx + 1 < i {
          assert !Keeps(h, maxIdx + 1);
        }
        if h[i].ver.first >= maxVer.first && h[i].ver.second >= maxVer.second {
          maxVer := h[i].ver;
          maxIdx := i;
          hlist := hlist + [h[i]];
        }
      }
      forall n | 1 <= n <= |h| && KeptUpTo(h, n)
        ensures n == maxIdx + 1 && |hlist| == n
      {
        assert Keeps(h, n - 1);
      }
      if maxIdx < |hlist| {
        assert KeptUpTo(h, maxIdx + 1);
        latest := Some(hlist[maxIdx]);
      } else {
        latest := None;
      }
    }
  }

  /** `acts` leads from st0 to st1, and honestly so if the request is honest. */
  ghost predicate RunsTo(st0: State, acts: seq<Action>, st1: State, req: Req, s: Site) {
    && CanRun(st0, acts) && Run(st0, acts) == st1
    && (Honest(st0, Begin(s, req)) ==> HonestRun(st0, acts))
  }

  lemma More(st0: State, acts: seq<Action>, st: State, a: Action, st': State, req: Req, s: Site) returns (acts': seq<Action>)
    requires RunsTo(st0, acts, st, req, s)
    requires Enabled(st, a) && st' == Next(st, a)
    requires a.Begin? ==> acts == [] && a == Begin(s, req)
    ensures RunsTo(st0, acts', st', req, s)
    ensures acts' == acts + [a]
  {
    acts' := acts + [a];
    RunAppend(st0, acts, a);
  }
}
