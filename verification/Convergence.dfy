/** Cache convergence for the coordination protocol: whatever interleaves, the
    frames still queued for a live registered connection are exactly what its
    relay cache is missing. */
module Convergence {
  import opened Common
  import opened SpecComments
  import opened CommentRelays
  import opened CommentServices
  import opened Coordination
  import Ops = CommentOps
  import Stores = CommentStores
  import R = Registries

  /** id is registered over connection c, which is up. */
  ghost predicate LiveAt(s: State, id: string, c: ConnId) {
    id in s.reg.byInstance && s.reg.byInstance[id].conn == Some(c) && c in s.up
    && c in s.conns && c in s.queues && s.conns[c].process in s.caches
  }

  /** What the relay behind c will show for repo once its queue is drained. */
  ghost function Drained(s: State, c: ConnId, repo: string): Ops.Threads
    requires c in s.conns && c in s.queues && s.conns[c].process in s.caches
  {
    Lookup(Drain(s.caches[s.conns[c].process], s.queues[c]), repo)
  }

  /** The store's threads for the tenant behind id, in repo. */
  ghost function Wanted(s: State, id: string, repo: string): Ops.Threads
    requires id in s.reg.byInstance
  {
    RepoThreads(s.store.threads, TenantKey(s.reg.byInstance[id].principal), repo)
  }

  ghost predicate SyncedAreServed(s: State) {
    forall id, r :: id in s.reg.byInstance && r in SetAt(s.synced, id) ==> R.Serves(s.reg.byInstance[id], r)
  }

  ghost predicate Converged(s: State) {
    forall id, c, r :: LiveAt(s, id, c) && r in SetAt(s.synced, id) ==> Drained(s, c, r) == Wanted(s, id, r)
  }

  ghost predicate Good(s: State) {
    Inv(s) && SyncedAreServed(s) && Converged(s)
  }

  // ----- folding one frame -----

  lemma FoldThreadFrame(cache: Cache, op: Op, t: Thread, repo: string)
    requires op != OpSync && t.workspaceId != ""
    ensures Lookup(Fold(cache, ThreadFrame(op, t.workspaceId, t)), repo) ==
      if repo == t.workspaceId then Lookup(cache, repo)[t.id := t] else Lookup(cache, repo)
  {
  }

  lemma FoldSyncFrame(cache: Cache, threads: Ops.Threads, org: string, synced: string, repo: string)
    requires KeyedThreads(threads)
    ensures Lookup(Fold(cache, SyncFrame(synced, Stores.ThreadsForRepo(threads, org, synced))), repo) ==
      if repo == synced then RepoThreads(threads, org, repo) else Lookup(cache, repo)
  {
    ListingIndexed(threads, org, synced);
  }

  // ----- the store's view after one operation -----

  lemma PersistedView(threads: Ops.Threads, t: Thread, org: string, repo: string)
    requires t.id in threads ==> threads[t.id].orgId == t.orgId && threads[t.id].workspaceId == t.workspaceId
    ensures RepoThreads(threads[t.id := t], org, repo) ==
      if org == t.orgId && repo == t.workspaceId then RepoThreads(threads, org, repo)[t.id := t]
      else RepoThreads(threads, org, repo)
  {
  }

  /** The connection of a registered instance receives a fan-out exactly when
      that instance does. */
  lemma ReceivesIff(s: State, id: string, c: ConnId, tenant: string, repo: string)
    requires Wired(s) && LiveAt(s, id, c)
    ensures ReceivesOn(s.reg.byInstance, tenant, repo, c) <==> Receives(s.reg.byInstance[id], tenant, repo)
  {
    assert Backed(s, s.reg.byInstance[id]);
    forall other | other in s.reg.byInstance && s.reg.byInstance[other].conn == Some(c) ensures other == id {
      assert Backed(s, s.reg.byInstance[other]);
    }
  }

  lemma OpIsNotSync(threads: Ops.Threads, p: Principal, ev: Event, stamp: Ops.Stamp)
    requires Ops.Decide(threads, p, ev, stamp).Accept?
    ensures Ops.Decide(threads, p, ev, stamp).op != OpSync
  {
  }

  /** What the fan-out of one accepted operation leaves for a live connection. */
  lemma FanOutLands(s: State, id: string, c: ConnId, tenant: string, op: Op, t: Thread, r: string)
    requires Wired(s) && LiveAt(s, id, c) && op != OpSync && t.workspaceId != ""
    ensures
      var frame := ThreadFrame(op, t.workspaceId, t);
      var queues := FannedOut(s.reg.byInstance, s.queues, s.up, tenant, t.workspaceId, frame);
      Lookup(Drain(s.caches[s.conns[c].process], queues[c]), r) ==
        if r == t.workspaceId && Receives(s.reg.byInstance[id], tenant, t.workspaceId)
        then Drained(s, c, r)[t.id := t] else Drained(s, c, r)
  {
    hide Wired, Receives;
    var frame := ThreadFrame(op, t.workspaceId, t);
    ReceivesIff(s, id, c, tenant, t.workspaceId);
    var cache := s.caches[s.conns[c].process];
    DrainAppend(cache, s.queues[c], frame);
    FoldThreadFrame(Drain(cache, s.queues[c]), op, t, r);
  }

  lemma SubmitAt(s: State, a: Action, id: string, c: ConnId, r: string)
    requires Good(s) && Enabled(s, a) && a.Submit?
    requires LiveAt(Next(s, a), id, c) && r in SetAt(s.synced, id)
    ensures Drained(Next(s, a), c, r) == Wanted(Next(s, a), id, r)
  {
    SubmitEffect(s, a);
    hide Next;
    var p := s.conns[a.c].principal;
    var v := Ops.Decide(s.store.threads, p, a.ev, a.stamp);
    assert LiveAt(s, id, c);
    assert Drained(s, c, r) == Wanted(s, id, r);
    if v.Accept? {
      var t := v.thread;
      Ops.AcceptedThread(s.store.threads, p, a.ev, a.stamp);
      OpIsNotSync(s.store.threads, p, a.ev, a.stamp);
      AcceptedRepoNamed(s, a);
      hide Ops.Decide;
      FanOutLands(s, id, c, TenantKey(p), v.op, t, r);
      PersistedView(s.store.threads, t, TenantKey(s.reg.byInstance[id].principal), r);
      assert R.Serves(s.reg.byInstance[id], r);
    }
  }

  lemma AcceptedRepoNamed(s: State, a: Action)
    requires Inv(s) && Enabled(s, a) && a.Submit?
    requires Ops.Decide(s.store.threads, s.conns[a.c].principal, a.ev, a.stamp).Accept?
    ensures Ops.Decide(s.store.threads, s.conns[a.c].principal, a.ev, a.stamp).thread.workspaceId != ""
  {
    var t := Ops.Decide(s.store.threads, s.conns[a.c].principal, a.ev, a.stamp).thread;
    Ops.AcceptedThread(s.store.threads, s.conns[a.c].principal, a.ev, a.stamp);
    assert t.id in s.store.threads ==> Ops.WellFormed(s.store.threads[t.id]);
  }

  lemma SyncFrameLands(cache: Cache, queue: seq<Event>, threads: Ops.Threads, org: string, synced: string, repo: string)
    requires KeyedThreads(threads)
    ensures Lookup(Drain(cache, queue + [SyncFrame(synced, Stores.ThreadsForRepo(threads, org, synced))]), repo) ==
      if repo == synced then RepoThreads(threads, org, repo) else Lookup(Drain(cache, queue), repo)
  {
    DrainAppend(cache, queue, SyncFrame(synced, Stores.ThreadsForRepo(threads, org, synced)));
    FoldSyncFrame(Drain(cache, queue), threads, org, synced, repo);
  }

  /** The sync goes to the connection registered under id, over which it is live. */
  lemma SyncAtTarget(s: State, a: Action, id: string, c: ConnId, r: string)
    requires Inv(s) && Enabled(s, a) && a.SyncRepo? && LiveAt(s, id, c)
    requires s.conns[a.c].phase.inst.conn == Some(c)
    ensures
      Lookup(Drain(s.caches[s.conns[c].process], NextQueues(s, a)[c]), r) ==
      if r == s.conns[a.c].phase.pending[0] then Wanted(s, id, r) else Drained(s, c, r)
  {
    var inst := s.conns[a.c].phase.inst;
    assert PhaseOk(s, a.c);
    assert Backed(s, s.reg.byInstance[id]);
    SyncFrameLands(s.caches[s.conns[c].process], s.queues[c], s.store.threads, TenantKey(inst.principal), s.conns[a.c].phase.pending[0], r);
  }

  lemma SyncAt(s: State, a: Action, id: string, c: ConnId, r: string)
    requires Good(s) && Enabled(s, a) && a.SyncRepo?
    requires LiveAt(Next(s, a), id, c) && r in SetAt(Next(s, a).synced, id)
    ensures Drained(Next(s, a), c, r) == Wanted(Next(s, a), id, r)
  {
    hide Next, NextConns, RepoThreads, SyncFrameOf, Drain;
    SyncEffect(s, a);
    OwnersStay(s, a);
    var inst := s.conns[a.c].phase.inst;
    assert LiveAt(s, id, c);
    assert PhaseOk(s, a.c);
    assert r in SetAt(s.synced, id) ==> Drained(s, c, r) == Wanted(s, id, r);
    if inst.conn == Some(c) {
      SyncAtTarget(s, a, id, c, r);
    } else {
      assert r in SetAt(s.synced, id);
    }
  }

  /** Delivering a frame changes neither what the queue drains to nor what is wanted. */
  lemma DeliverKeeps(s: State, a: Action, id: string, c: ConnId, r: string)
    requires Wired(s) && Enabled(s, a) && a.Deliver? && LiveAt(Next(s, a), id, c)
    ensures LiveAt(s, id, c) && Next(s, a).reg == s.reg && Next(s, a).synced == s.synced
    ensures Drained(Next(s, a), c, r) == Drained(s, c, r) && Wanted(Next(s, a), id, r) == Wanted(s, id, r)
  {
    DeliverEffect(s, a);
    hide Next, Fold, RepoThreads;
    assert LiveAt(s, id, c);
    if c == a.c {
      DrainHead(s.caches[s.conns[c].process], s.queues[c]);
    }
  }

  lemma DeliverAt(s: State, a: Action, id: string, c: ConnId, r: string)
    requires Good(s) && Enabled(s, a) && a.Deliver?
    requires LiveAt(Next(s, a), id, c) && r in SetAt(s.synced, id)
    ensures Drained(Next(s, a), c, r) == Wanted(Next(s, a), id, r)
  {
    hide Next, Drained, Wanted, Enabled;
    DeliverKeeps(s, a, id, c, r);
  }

  /** The remaining steps touch neither the store nor a live queue or cache. */
  ghost predicate Undisturbed(s: State, t: State, id: string, c: ConnId, r: string) {
    && LiveAt(s, id, c) && LiveAt(t, id, c) && r in SetAt(s.synced, id)
    && t.store == s.store && t.queues[c] == s.queues[c]
    && t.conns[c].process == s.conns[c].process
    && t.caches[s.conns[c].process] == s.caches[s.conns[c].process]
    && t.reg.byInstance[id].principal == s.reg.byInstance[id].principal
  }

  /** A pair that is live and synced after such a step was so before it. */
  lemma WasLive(s: State, a: Action, id: string, c: ConnId, r: string)
    requires Wired(s) && Enabled(s, a) && !a.Submit? && !a.SyncRepo? && !a.Deliver?
    requires LiveAt(Next(s, a), id, c) && r in SetAt(Next(s, a).synced, id)
    ensures id in s.reg.byInstance && s.reg.byInstance[id].conn == Some(c) && r in SetAt(s.synced, id)
    ensures Next(s, a).reg.byInstance[id].principal == s.reg.byInstance[id].principal
  {
    hide NextConns, NextQueues, NextStore, NextUp, NextCaches;
    if a.Join? {
      assert PhaseOk(s, a.c);
    }
  }

  lemma DialIsFresh(s: State, a: Action, id: string, c: ConnId)
    requires Wired(s) && Enabled(s, a) && a.Dial?
    requires id in s.reg.byInstance && s.reg.byInstance[id].conn == Some(c)
    ensures c != a.c
  {
    assert Backed(s, s.reg.byInstance[id]);
  }

  lemma OtherStepsDisturbNothing(s: State, a: Action, id: string, c: ConnId, r: string)
    requires Wired(s) && Enabled(s, a) && !a.Submit? && !a.SyncRepo? && !a.Deliver?
    requires LiveAt(Next(s, a), id, c) && r in SetAt(Next(s, a).synced, id)
    ensures Undisturbed(s, Next(s, a), id, c, r)
  {
    WasLive(s, a, id, c, r);
    OtherEffect(s, a);
    OwnersStay(s, a);
    if a.Dial? {
      DialIsFresh(s, a, id, c);
    }
    assert Backed(s, s.reg.byInstance[id]);
    hide Next;
  }

  lemma CarriesOver(s: State, t: State, id: string, c: ConnId, r: string)
    requires Converged(s) && Undisturbed(s, t, id, c, r)
    ensures Drained(t, c, r) == Wanted(t, id, r)
  {
    assert Drained(s, c, r) == Wanted(s, id, r);
  }

  lemma ServedStays(s: State, a: Action)
    requires Wired(s) && SyncedAreServed(s) && Enabled(s, a)
    ensures SyncedAreServed(Next(s, a))
  {
    hide NextConns, NextQueues, NextStore, NextUp, NextCaches;
    var t := Next(s, a);
    forall id, r | id in t.reg.byInstance && r in SetAt(t.synced, id)
      ensures R.Serves(t.reg.byInstance[id], r)
    {
      assert id in s.reg.byInstance && r in SetAt(s.synced, id) ==> R.Serves(s.reg.byInstance[id], r);
    }
  }

  lemma GoodStays(s: State, a: Action)
    requires Good(s) && Enabled(s, a)
    ensures Good(Next(s, a))
  {
    InvStays(s, a);
    ServedStays(s, a);
    var t := Next(s, a);
    forall id, c, r | LiveAt(t, id, c) && r in SetAt(t.synced, id)
      ensures Drained(t, c, r) == Wanted(t, id, r)
    {
      if a.Submit? {
        SubmitAt(s, a, id, c, r);
      } else if a.SyncRepo? {
        SyncAt(s, a, id, c, r);
      } else if a.Deliver? {
        DeliverAt(s, a, id, c, r);
      } else {
        OtherStepsDisturbNothing(s, a, id, c, r);
        CarriesOver(s, t, id, c, r);
      }
    }
  }
}
