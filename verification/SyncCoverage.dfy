/** The two remaining halves of the protocol's promise. Coverage: a served repo
    is unsynced only while some handler still owes its sync, so in a quiet state
    convergence is about every served repo. Isolation: no frame carries a thread
    of another tenant than the connection's own. */
module SyncCoverage {
  import opened Common
  import opened SpecComments
  import opened CommentRelays
  import opened CommentServices
  import opened Coordination
  import opened Convergence
  import Ops = CommentOps
  import Stores = CommentStores
  import R = Registries

  // ----- coverage -----

  /** The goroutine of connection c still owes repo to the connection registered under id. */
  ghost predicate Owes(s: State, c: ConnId, id: string, repo: string)
    requires c in s.conns && id in s.reg.byInstance
  {
    var conn := s.conns[c];
    && conn.instanceId == id
    && (conn.phase.Refetching? ||
        (conn.phase.Syncing? && conn.phase.inst.conn == s.reg.byInstance[id].conn && repo in conn.phase.pending))
  }

  ghost predicate Owed(s: State, id: string, repo: string)
    requires id in s.reg.byInstance
  {
    exists c :: c in s.conns && Owes(s, c, id, repo)
  }

  ghost predicate CoveredAt(s: State, id: string, repo: string) {
    id in s.reg.byInstance && R.Serves(s.reg.byInstance[id], repo) ==>
      repo in SetAt(s.synced, id) || repo in SetAt(s.missed, id) || Owed(s, id, repo)
  }

  ghost predicate Covered(s: State) {
    forall id, repo :: CoveredAt(s, id, repo)
  }

  /** a renews the manifest of id. */
  ghost predicate Renews(s: State, a: Action, id: string)
    requires Enabled(s, a)
  {
    (a.Join? && s.conns[a.c].instanceId == id) || (a.Update? && a.m.instanceId == id)
  }

  /** A join or a manifest update owes every repo of the new manifest. */
  lemma NewManifestIsOwed(s: State, a: Action, id: string, repo: string)
    requires Inv(s) && Enabled(s, a)
    requires Renews(s, a, id)
    ensures CoveredAt(Next(s, a), id, repo)
  {
    var t := Next(s, a);
    assert PhaseOk(s, a.c);
    if id in t.reg.byInstance && R.Serves(t.reg.byInstance[id], repo) {
      assert Owes(t, a.c, id, repo);
    }
  }

  lemma EntryKept(s: State, a: Action, id: string)
    requires PhasesOk(s) && Enabled(s, a) && !Renews(s, a, id) && id in Next(s, a).reg.byInstance
    ensures id in s.reg.byInstance && Next(s, a).reg.byInstance[id] == s.reg.byInstance[id]
  {
    if a.Join? {
      assert PhaseOk(s, a.c);
    }
  }

  lemma HistoryKept(s: State, a: Action, id: string)
    requires PhasesOk(s) && Enabled(s, a) && !Renews(s, a, id)
    ensures SetAt(s.synced, id) <= SetAt(Next(s, a).synced, id)
    ensures SetAt(s.missed, id) <= SetAt(Next(s, a).missed, id)
  {
    if a.Join? {
      assert PhaseOk(s, a.c);
    }
  }

  /** Any other step keeps the registration of id as it was, or removes it. */
  lemma RegistrationKept(s: State, a: Action, id: string)
    requires PhasesOk(s) && Enabled(s, a) && !Renews(s, a, id) && id in Next(s, a).reg.byInstance
    ensures id in s.reg.byInstance && Next(s, a).reg.byInstance[id] == s.reg.byInstance[id]
    ensures SetAt(s.synced, id) <= SetAt(Next(s, a).synced, id)
    ensures SetAt(s.missed, id) <= SetAt(Next(s, a).missed, id)
  {
    EntryKept(s, a, id);
    HistoryKept(s, a, id);
  }

  lemma SyncPaysFirst(s: State, a: Action, id: string, repo: string)
    requires Inv(s) && Enabled(s, a) && (a.SyncRepo? || a.SyncFails?)
    requires id in s.reg.byInstance && R.Serves(s.reg.byInstance[id], repo) && Owes(s, a.c, id, repo)
    ensures CoveredAt(Next(s, a), id, repo)
  {
    var t := Next(s, a);
    var conn := s.conns[a.c];
    assert PhaseOk(s, a.c);
    if repo == conn.phase.pending[0] {
      assert Current(s, conn.phase.inst, repo);
    } else {
      assert conn.phase.pending == [conn.phase.pending[0]] + conn.phase.pending[1..];
      assert Owes(t, a.c, id, repo);
    }
  }

  lemma RefetchTakesOver(s: State, a: Action, id: string, repo: string)
    requires Inv(s) && Enabled(s, a) && a.Refetch?
    requires id in s.reg.byInstance && R.Serves(s.reg.byInstance[id], repo) && Owes(s, a.c, id, repo)
    ensures CoveredAt(Next(s, a), id, repo)
  {
    assert Owes(Next(s, a), a.c, id, repo);
  }

  /** Only the steps of a sync and the registry lookup move a goroutine that owes. */
  lemma OwingPhaseKept(s: State, a: Action, id: string, repo: string, d: ConnId)
    requires Enabled(s, a) && id in s.reg.byInstance && d in s.conns && Owes(s, d, id, repo)
    requires !(d == a.c && (a.SyncRepo? || a.SyncFails? || a.Refetch?))
    ensures d in Next(s, a).conns && Next(s, a).conns[d].phase == s.conns[d].phase
  {
    hide NextReg, NextQueues, NextStore, NextUp, NextCaches, NextHistory;
  }

  lemma DebtStays(s: State, a: Action, id: string, repo: string, d: ConnId)
    requires Inv(s) && Enabled(s, a)
    requires !Renews(s, a, id)
    requires id in s.reg.byInstance && id in Next(s, a).reg.byInstance && R.Serves(s.reg.byInstance[id], repo)
    requires d in s.conns && Owes(s, d, id, repo)
    ensures CoveredAt(Next(s, a), id, repo)
  {
    if d == a.c && (a.SyncRepo? || a.SyncFails?) {
      SyncPaysFirst(s, a, id, repo);
    } else if d == a.c && a.Refetch? {
      RefetchTakesOver(s, a, id, repo);
    } else {
      OwingPhaseKept(s, a, id, repo, d);
      OwnersStay(s, a);
      RegistrationKept(s, a, id);
      hide Next;
      assert Owes(Next(s, a), d, id, repo);
    }
  }

  lemma CoveredStays(s: State, a: Action)
    requires Inv(s) && Covered(s) && Enabled(s, a)
    ensures Covered(Next(s, a))
  {
    var t := Next(s, a);
    forall id, repo ensures CoveredAt(t, id, repo) {
      if Renews(s, a, id) {
        NewManifestIsOwed(s, a, id, repo);
      } else if id in t.reg.byInstance && R.Serves(t.reg.byInstance[id], repo) {
        RegistrationKept(s, a, id);
        assert CoveredAt(s, id, repo);
        if Owed(s, id, repo) {
          var d :| d in s.conns && Owes(s, d, id, repo);
          DebtStays(s, a, id, repo, d);
        }
      }
    }
  }

  // ----- isolation -----

  ghost predicate OfTenant(ev: Event, tenant: string) {
    && (ev.thread.Some? ==> ev.thread.value.orgId == tenant)
    && (forall k :: 0 <= k < |ev.threads| ==> ev.threads[k].orgId == tenant)
  }

  ghost predicate IsolatedAt(s: State, c: ConnId) {
    c in s.conns && c in s.queues ==>
      forall k :: 0 <= k < |s.queues[c]| ==> OfTenant(s.queues[c][k], TenantKey(s.conns[c].principal))
  }

  ghost predicate Isolated(s: State) {
    forall c :: IsolatedAt(s, c)
  }

  /** A queue that grew by a frame of the connection's own tenant. */
  lemma OneMoreFrame(s: State, t: State, c: ConnId, ev: Event)
    requires Inv(s) && Isolated(s) && SameOwners(s, t) && c in s.conns && c in t.queues
    requires t.queues[c] == s.queues[c] || (t.queues[c] == s.queues[c] + [ev] && OfTenant(ev, TenantKey(s.conns[c].principal)))
    ensures IsolatedAt(t, c)
  {
    assert IsolatedAt(s, c);
  }

  lemma SyncIsolates(s: State, a: Action, c: ConnId)
    requires Inv(s) && Isolated(s) && Enabled(s, a) && a.SyncRepo?
    ensures IsolatedAt(Next(s, a), c)
  {
    var inst := s.conns[a.c].phase.inst;
    var repo := s.conns[a.c].phase.pending[0];
    var tenant := TenantKey(inst.principal);
    var ts := Stores.ThreadsForRepo(s.store.threads, tenant, repo);
    assert PhaseOk(s, a.c);
    OwnersStay(s, a);
    forall k | 0 <= k < |ts| ensures ts[k].orgId == tenant {
      ListedThread(s.store.threads, tenant, repo, k);
    }
    if c in s.conns {
      OneMoreFrame(s, Next(s, a), c, SyncFrame(repo, ts));
    }
  }

  lemma SubmitIsolates(s: State, a: Action, c: ConnId)
    requires Inv(s) && Isolated(s) && Enabled(s, a) && a.Submit?
    ensures IsolatedAt(Next(s, a), c)
  {
    SubmitEffect(s, a);
    hide Next, NextStore;
    var p := s.conns[a.c].principal;
    var v := Ops.Decide(s.store.threads, p, a.ev, a.stamp);
    assert IsolatedAt(s, c);
    if v.Accept? && c in s.conns {
      Ops.AcceptedThread(s.store.threads, p, a.ev, a.stamp);
      hide Ops.Decide;
      var ev := ThreadFrame(v.op, v.thread.workspaceId, v.thread);
      if ReceivesOn(s.reg.byInstance, TenantKey(p), v.thread.workspaceId, c) {
        var id :| id in s.reg.byInstance && s.reg.byInstance[id].conn == Some(c) && Receives(s.reg.byInstance[id], TenantKey(p), v.thread.workspaceId);
        assert Backed(s, s.reg.byInstance[id]);
      }
      OneMoreFrame(s, Next(s, a), c, ev);
    }
  }

  lemma DeliverIsolates(s: State, a: Action, c: ConnId)
    requires Isolated(s) && Enabled(s, a) && a.Deliver?
    ensures IsolatedAt(Next(s, a), c)
  {
    DeliverEffect(s, a);
    hide Next, NextCaches;
    assert IsolatedAt(s, c);
  }

  lemma OtherIsolates(s: State, a: Action, c: ConnId)
    requires Isolated(s) && Enabled(s, a) && !a.Submit? && !a.Deliver? && !a.SyncRepo?
    ensures IsolatedAt(Next(s, a), c)
  {
    OtherEffect(s, a);
    OwnersStay(s, a);
    hide Next;
    assert IsolatedAt(s, c);
  }

  lemma IsolatedStays(s: State, a: Action)
    requires Inv(s) && Isolated(s) && Enabled(s, a)
    ensures Isolated(Next(s, a))
  {
    forall c ensures IsolatedAt(Next(s, a), c) {
      if a.SyncRepo? {
        SyncIsolates(s, a, c);
      } else if a.Submit? {
        SubmitIsolates(s, a, c);
      } else if a.Deliver? {
        DeliverIsolates(s, a, c);
      } else {
        OtherIsolates(s, a, c);
      }
    }
  }

  // ----- every run -----

  ghost predicate CanRun(s: State, acts: seq<Action>)
    decreases |acts|
  {
    acts == [] || (Enabled(s, acts[0]) && CanRun(Next(s, acts[0]), acts[1..]))
  }

  ghost function Run(s: State, acts: seq<Action>): State
    requires CanRun(s, acts)
    decreases |acts|
  {
    if acts == [] then s else Run(Next(s, acts[0]), acts[1..])
  }

  lemma {:induction false} RunsStayGood(s: State, acts: seq<Action>)
    requires Good(s) && Covered(s) && Isolated(s) && CanRun(s, acts)
    ensures Good(Run(s, acts)) && Covered(Run(s, acts)) && Isolated(Run(s, acts))
    decreases |acts|
  {
    if acts != [] {
      GoodStays(s, acts[0]);
      CoveredStays(s, acts[0]);
      IsolatedStays(s, acts[0]);
      RunsStayGood(Next(s, acts[0]), acts[1..]);
    }
  }

  lemma InitIsGood()
    ensures Good(INIT) && Covered(INIT) && Isolated(INIT)
  {
  }

  /** Cache convergence: in every reachable state, draining the queue of a live
      registered connection gives, for each repo pushed to it since that repo
      last joined its manifest, exactly the store's threads of its tenant. */
  lemma CacheConvergence(acts: seq<Action>, id: string, c: ConnId, repo: string)
    requires CanRun(INIT, acts)
    requires LiveAt(Run(INIT, acts), id, c)
    requires repo in SetAt(Run(INIT, acts).synced, id)
    ensures Drained(Run(INIT, acts), c, repo) == Wanted(Run(INIT, acts), id, repo)
  {
    InitIsGood();
    RunsStayGood(INIT, acts);
  }

  /** No handler serving id is between a manifest and the end of its sync. */
  ghost predicate Quiet(s: State, id: string) {
    forall c :: c in s.conns && s.conns[c].instanceId == id ==> !s.conns[c].phase.Refetching? && !s.conns[c].phase.Syncing?
  }

  /** In a quiet state with no failed query this is about every served repo: once
      the queue is empty the cache itself equals the store. */
  lemma QuietConvergence(acts: seq<Action>, id: string, c: ConnId, repo: string)
    requires CanRun(INIT, acts)
    requires LiveAt(Run(INIT, acts), id, c) && Quiet(Run(INIT, acts), id)
    requires SetAt(Run(INIT, acts).missed, id) == {}
    requires R.Serves(Run(INIT, acts).reg.byInstance[id], repo)
    ensures Drained(Run(INIT, acts), c, repo) == Wanted(Run(INIT, acts), id, repo)
    ensures
      var s := Run(INIT, acts);
      s.queues[c] == [] ==> Lookup(s.caches[s.conns[c].process], repo) == Wanted(s, id, repo)
  {
    InitIsGood();
    RunsStayGood(INIT, acts);
    var s := Run(INIT, acts);
    assert CoveredAt(s, id, repo);
    assert !Owed(s, id, repo);
    CacheConvergence(acts, id, c, repo);
  }

  /** Tenant isolation: no frame queued for any connection in any reachable state
      carries a thread of another tenant. */
  lemma TenantIsolation(acts: seq<Action>, c: ConnId, k: nat)
    requires CanRun(INIT, acts) && c in Run(INIT, acts).conns && c in Run(INIT, acts).queues
    requires k < |Run(INIT, acts).queues[c]|
    ensures OfTenant(Run(INIT, acts).queues[c][k], TenantKey(Run(INIT, acts).conns[c].principal))
  {
    InitIsGood();
    RunsStayGood(INIT, acts);
    assert IsolatedAt(Run(INIT, acts), c);
  }

  /** What a browser then lists is what the coordinator lists. */
  lemma RelayListsTheStore(threads: Ops.Threads, org: string, repo: string, out: seq<Thread>)
    requires KeyedThreads(threads)
    requires Stores.SortedById(out)
    requires forall t :: t in out <==> t.id in RepoThreads(threads, org, repo) && RepoThreads(threads, org, repo)[t.id] == t
    ensures out == Stores.ThreadsForRepo(threads, org, repo)
  {
    Stores.ListingIsUnique(threads, org, repo, out);
  }
}
