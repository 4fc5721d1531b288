/** The authoritative comment capability (internal/coordinator/comments.go):
    apply one relayed operation, persist it, fan the thread out; and push the
    threads of every served repo to an instance. */
module CommentServices {
  import opened Common
  import opened SpecComments
  import opened CommentOps
  import opened CommentStores
  import opened CommentRelays
  import R = Registries

  type ConnId = R.ConnId
  type Queues = map<ConnId, seq<Event>>

  /** A frame sent to a connection that is up joins the back of its queue; a
      send on a broken connection fails and is only logged. */
  function Sent(queues: Queues, up: set<ConnId>, c: ConnId, ev: Event): Queues {
    if c in up && c in queues then queues[c := queues[c] + [ev]] else queues
  }

  /** A run of frames sent to one connection. */
  function SentAll(queues: Queues, up: set<ConnId>, c: ConnId, evs: seq<Event>): Queues {
    if c in up && c in queues then queues[c := queues[c] + evs] else queues
  }

  lemma SentOneMore(queues: Queues, up: set<ConnId>, c: ConnId, evs: seq<Event>, ev: Event)
    ensures SentAll(queues, up, c, []) == queues
    ensures Sent(SentAll(queues, up, c, evs), up, c, ev) == SentAll(queues, up, c, evs + [ev])
  {
    if c in queues {
      assert queues[c] + [] == queues[c];
      assert queues[c] + (evs + [ev]) == queues[c] + evs + [ev];
    }
  }

  /** The send side of all connections. */
  class Wire {
    var queues: Queues
    var up: set<ConnId>

    method Send(c: ConnId, ev: Event) returns (ok: bool)
      modifies this`queues
      ensures queues == Sent(old(queues), up, c, ev)
      ensures ok <==> c in up && c in old(queues)
    {
      ok := c in up && c in queues;
      if ok {
        queues := queues[c := queues[c] + [ev]];
      }
    }
  }

  /** Instance inst is one of those a thread of this tenant and repo goes to. */
  predicate Receives(inst: R.Instance, tenant: string, repo: string) {
    inst.conn.Some? && R.Serves(inst, repo) && TenantKey(inst.principal) == tenant
  }

  ghost predicate ReceivesOn(insts: R.Instances, tenant: string, repo: string, c: ConnId) {
    exists id :: id in insts && insts[id].conn == Some(c) && Receives(insts[id], tenant, repo)
  }

  /** Every connection of a receiving instance gets the frame once, no other does. */
  ghost function FannedOut(insts: R.Instances, queues: Queues, up: set<ConnId>, tenant: string, repo: string, ev: Event): Queues {
    map c | c in queues :: if c in up && ReceivesOn(insts, tenant, repo, c) then queues[c] + [ev] else queues[c]
  }

  /** No connection is registered under two ids: each socket joins once. */
  ghost predicate OneIdPerConn(insts: R.Instances) {
    forall a, b :: a in insts && b in insts && insts[a].conn.Some? && insts[a].conn == insts[b].conn ==> a == b
  }

  /** The same fan-out restricted to the ids already visited. */
  ghost predicate ReceivesAmong(insts: R.Instances, ids: seq<string>, tenant: string, repo: string, c: ConnId) {
    exists k :: 0 <= k < |ids| && ids[k] in insts && insts[ids[k]].conn == Some(c) && Receives(insts[ids[k]], tenant, repo)
  }

  /** Sending to the receiving ids one after the other. */
  function FanTo(insts: R.Instances, ids: seq<string>, queues: Queues, up: set<ConnId>, tenant: string, repo: string, ev: Event): Queues
    requires forall k :: 0 <= k < |ids| ==> ids[k] in insts
    decreases |ids|
  {
    if ids == [] then queues else
      var last := insts[ids[|ids| - 1]];
      var before := FanTo(insts, ids[..|ids| - 1], queues, up, tenant, repo, ev);
      if Receives(last, tenant, repo) then Sent(before, up, last.conn.value, ev) else before
  }

  lemma ReceivesAmongLast(insts: R.Instances, ids: seq<string>, tenant: string, repo: string, c: ConnId)
    requires ids != [] && forall k :: 0 <= k < |ids| ==> ids[k] in insts
    ensures
      var last := insts[ids[|ids| - 1]];
      ReceivesAmong(insts, ids, tenant, repo, c) <==>
        ReceivesAmong(insts, ids[..|ids| - 1], tenant, repo, c) || (last.conn == Some(c) && Receives(last, tenant, repo))
  {
    var front := ids[..|ids| - 1];
    assert forall k :: 0 <= k < |front| ==> front[k] == ids[k];
    if ReceivesAmong(insts, front, tenant, repo, c) {
      var k :| 0 <= k < |front| && insts[front[k]].conn == Some(c) && Receives(insts[front[k]], tenant, repo);
      assert ids[k] == front[k];
    }
  }

  /** What one connection's queue holds after the fan-out. */
  lemma {:induction false} FanAt(insts: R.Instances, ids: seq<string>, queues: Queues, up: set<ConnId>, tenant: string, repo: string, ev: Event, c: ConnId)
    requires OneIdPerConn(insts)
    requires forall k :: 0 <= k < |ids| ==> ids[k] in insts
    requires forall a, b :: 0 <= a < b < |ids| ==> ids[a] != ids[b]
    ensures FanTo(insts, ids, queues, up, tenant, repo, ev).Keys == queues.Keys
    ensures c in queues ==>
      FanTo(insts, ids, queues, up, tenant, repo, ev)[c] ==
        if c in up && ReceivesAmong(insts, ids, tenant, repo, c) then queues[c] + [ev] else queues[c]
    decreases |ids|
  {
    if ids != [] {
      var front := ids[..|ids| - 1];
      FanAt(insts, front, queues, up, tenant, repo, ev, c);
      ReceivesAmongLast(insts, ids, tenant, repo, c);
      var last := insts[ids[|ids| - 1]];
      if last.conn == Some(c) {
        assert !ReceivesAmong(insts, front, tenant, repo, c);
      }
    }
  }

  lemma AllVisited(insts: R.Instances, ids: seq<string>, tenant: string, repo: string, c: ConnId)
    requires forall id :: id in ids <==> id in insts && R.Serves(insts[id], repo)
    ensures ReceivesAmong(insts, ids, tenant, repo, c) <==> ReceivesOn(insts, tenant, repo, c)
  {
    if ReceivesOn(insts, tenant, repo, c) {
      var id :| id in insts && insts[id].conn == Some(c) && Receives(insts[id], tenant, repo);
      assert id in ids;
    }
  }

  /** The order of the visit does not matter: each receiving connection gets the
      frame exactly once. */
  lemma FanToIsFanOut(insts: R.Instances, ids: seq<string>, queues: Queues, up: set<ConnId>, tenant: string, repo: string, ev: Event)
    requires OneIdPerConn(insts)
    requires forall a, b :: 0 <= a < b < |ids| ==> ids[a] != ids[b]
    requires forall id :: id in ids <==> id in insts && R.Serves(insts[id], repo)
    requires forall k :: 0 <= k < |ids| ==> ids[k] in insts
    ensures FanTo(insts, ids, queues, up, tenant, repo, ev) == FannedOut(insts, queues, up, tenant, repo, ev)
  {
    FanAt(insts, ids, queues, up, tenant, repo, ev, 0);
    forall c | c in queues
      ensures FanTo(insts, ids, queues, up, tenant, repo, ev)[c] == FannedOut(insts, queues, up, tenant, repo, ev)[c]
    {
      FanAt(insts, ids, queues, up, tenant, repo, ev, c);
      AllVisited(insts, ids, tenant, repo, c);
    }
  }

  /** The frames a full sync of the listed repos sends, in order; a repo whose
      query fails is skipped. */
  ghost function SyncFrames(threads: Threads, tenant: string, repos: seq<string>, failing: set<string>): seq<Event>
    decreases |repos|
  {
    if repos == [] then [] else
      var last := repos[|repos| - 1];
      SyncFrames(threads, tenant, repos[..|repos| - 1], failing) +
      (if last in failing then [] else [SyncFrame(last, ThreadsForRepo(threads, tenant, last))])
  }

  lemma SyncFramesNext(threads: Threads, tenant: string, repos: seq<string>, failing: set<string>, i: nat)
    requires i < |repos|
    ensures SyncFrames(threads, tenant, repos[..i + 1], failing) ==
      if repos[i] in failing then SyncFrames(threads, tenant, repos[..i], failing)
      else SyncFrames(threads, tenant, repos[..i], failing) + [SyncFrame(repos[i], ThreadsForRepo(threads, tenant, repos[i]))]
  {
    hide ThreadsForRepo;
    assert repos[..i + 1][..i] == repos[..i];
  }

  class CommentService {
    const store: MemStore
    const reg: R.Registry
    const wire: Wire
    var lastId: Id

    ghost predicate Valid()
      reads this, store, reg
    {
      store.Valid() && OneIdPerConn(reg.byInstance)
    }

    constructor (store: MemStore, reg: R.Registry, wire: Wire)
      ensures this.store == store && this.reg == reg && this.wire == wire && lastId == 0
    {
      this.store, this.reg, this.wire := store, reg, wire;
      lastId := 0;
    }

    /** Ids are fresh and increasing; callers rely on nothing else. */
    method NewId() returns (id: Id)
      modifies this`lastId
      ensures id > old(lastId) && lastId == id
    {
      lastId := lastId + 1;
      id := lastId;
    }

    method Fanout(tenant: string, repo: string, op: Op, t: Thread)
      requires Valid()
      modifies wire`queues
      ensures wire.queues == FannedOut(reg.byInstance, old(wire.queues), wire.up, tenant, repo, ThreadFrame(op, repo, t))
    {
      hide FannedOut;
      var ev := ThreadFrame(op, repo, t);
      var ids := reg.InstancesForRemote(repo);
      ghost var start := wire.queues;
      assert forall k :: 0 <= k < |ids| ==> ids[k] in ids;
      var i := 0;
      while i < |ids|
        invariant 0 <= i <= |ids|
        invariant wire.queues == FanTo(reg.byInstance, ids[..i], start, wire.up, tenant, repo, ev)
      {
        var inst := reg.byInstance[ids[i]];
        assert R.Serves(inst, repo);
        if TenantKey(inst.principal) == tenant && inst.conn.Some? {
          var ok := wire.Send(inst.conn.value, ev);
        }
        i := i + 1;
        assert ids[..i][..i - 1] == ids[..i - 1];
      }
      assert ids[..i] == ids;
      FanToIsFanOut(reg.byInstance, ids, start, wire.up, tenant, repo, ev);
    }

    /** Decide, persist, then fan out; a failed store write leaves both the
        store and every queue as they were. */
    method Apply(p: Principal, ev: Event, now: Time, storeOk: bool) returns (v: Verdict, ghost stamp: Stamp)
      requires Valid()
      modifies this`lastId, store, wire`queues
      ensures Valid()
      ensures stamp.now == now && old(lastId) < stamp.threadId < stamp.commentId && lastId == stamp.commentId
      ensures v == Decide(old(store.threads), p, ev, stamp)
      ensures store.threads == if storeOk then Persist(old(store.threads), v) else old(store.threads)
      ensures wire.queues ==
        if storeOk && v.Accept?
        then FannedOut(reg.byInstance, old(wire.queues), wire.up, TenantKey(p), v.thread.workspaceId, ThreadFrame(v.op, v.thread.workspaceId, v.thread))
        else old(wire.queues)
    {
      var threadId := NewId();
      var commentId := NewId();
      var s := Stamp(now, threadId, commentId);
      stamp := s;
      if ev.repo == "" || p.sub == "" {
        v := Reject(InvalidOp);
        return;
      }
      if ev.op == OpCreate {
        v := Create(p, ev, s);
      } else {
        var target := Target(ev);
        if target.None? {
          v := Reject(InvalidOp);
          return;
        }
        var loaded := store.GetThread(TenantKey(p), target.value);
        if loaded.None? {
          v := Reject(UnknownThread);
          return;
        }
        v := Edit(loaded.value, p, ev, s);
      }
      if v.Accept? && storeOk {
        store.PutThread(v.thread);
        Fanout(TenantKey(p), v.thread.workspaceId, v.op, v.thread);
      }
    }

    /** Push the full thread set of each repo the instance serves, skipping those
        whose query fails. */
    method SyncTo(inst: R.Instance, failing: set<string>)
      requires Valid()
      modifies wire`queues
      ensures wire.queues ==
        if inst.conn.None? then old(wire.queues)
        else SentAll(old(wire.queues), wire.up, inst.conn.value,
                     SyncFrames(store.threads, TenantKey(inst.principal), R.RemotesIn(inst.manifest.workspaces), failing))
    {
      if inst.conn.None? {
        return;
      }
      var c := inst.conn.value;
      var tenant := TenantKey(inst.principal);
      ghost var start := wire.queues;
      var repos := R.Remotes(inst.manifest);
      var i := 0;
      SentOneMore(start, wire.up, c, [], SyncFrame("", []));
      while i < |repos|
        invariant 0 <= i <= |repos|
        invariant wire.queues == SentAll(start, wire.up, c, SyncFrames(store.threads, tenant, repos[..i], failing))
      {
        if repos[i] !in failing {
          var threads := store.ListForRepo(tenant, repos[i]);
          SentOneMore(start, wire.up, c, SyncFrames(store.threads, tenant, repos[..i], failing), SyncFrame(repos[i], threads));
          var ok := wire.Send(c, SyncFrame(repos[i], threads));
        }
        SyncFramesNext(store.threads, tenant, repos, failing, i);
        i := i + 1;
      }
      assert repos[..i] == repos;
    }
  }
}
