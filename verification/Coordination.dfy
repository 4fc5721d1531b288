/** The spec-comment coordination protocol as a transition system: the store,
    the registry with generations, one serving goroutine and one first-in
    first-out queue per connection, and one relay cache per instance process
    (internal/coordinator/accept.go, comments.go, registry.go and
    internal/handler/commentrelay.go).

    Step granularity: one relayed operation (load, persist, fan out) is one step,
    and so is each repo of a sync (read, send). Everything else interleaves:
    dialling, joining, every repo of a sync on its own, the manifest update and
    the later registry lookup of its re-sync, delivery, lost connections, and
    leaving. An instance id may be reused by later connections while an earlier
    one is still being served. */
module Coordination {
  import opened Common
  import opened SpecComments
  import opened CommentRelays
  import opened CommentServices
  import Ops = CommentOps
  import Stores = CommentStores
  import R = Registries

  type ProcId = nat

  /** Where the goroutine serving a connection is. */
  datatype Phase =
    | Dialed(manifest: R.Manifest)                   // accepted, manifest sent, not joined
    | Syncing(inst: R.Instance, pending: seq<string>) // inside SyncTo(inst)
    | Serving                                        // reading the next frame
    | Refetching                                     // manifest updated, instance not yet looked up
    | Closed

  datatype Conn = Conn(process: ProcId, principal: Principal, instanceId: string, generation: nat, phase: Phase)

  /** synced and missed are history variables: for a registered id, the served
      repos that were pushed to (or whose query failed for) its connection since
      they last joined its manifest. */
  datatype State = State(
    store: Ops.Store,
    reg: R.State,
    conns: map<ConnId, Conn>,
    queues: Queues,
    up: set<ConnId>,
    caches: map<ProcId, Cache>,
    synced: map<string, set<string>>,
    missed: map<string, set<string>>)

  const INIT := State(Ops.EMPTY, R.EMPTY, map[], map[], {}, map[], map[], map[])

  datatype Action =
    | Dial(c: ConnId, process: ProcId, p: Principal, m: R.Manifest)
    | Join(c: ConnId)
    | SyncRepo(c: ConnId)
    | SyncFails(c: ConnId)
    | EndSync(c: ConnId)
    | Update(c: ConnId, m: R.Manifest)
    | Refetch(c: ConnId)
    | Submit(c: ConnId, ev: Event, stamp: Ops.Stamp)
    | Deliver(c: ConnId)
    | Drop(c: ConnId)
    | Close(c: ConnId)

  function RemoteSet(m: R.Manifest): set<string> {
    set r | r in R.RemotesIn(m.workspaces)
  }

  function SetAt(sets: map<string, set<string>>, id: string): set<string> {
    if id in sets then sets[id] else {}
  }

  ghost predicate Enabled(s: State, a: Action) {
    match a
    case Dial(c, process, p, m) =>
      c !in s.conns && p.sub != "" && m.instanceId != "" &&
      forall d :: d in s.up && d in s.conns ==> s.conns[d].process != process
    case Join(c) => c in s.conns && s.conns[c].phase.Dialed?
    case SyncRepo(c) => c in s.conns && s.conns[c].phase.Syncing? && s.conns[c].phase.pending != []
    case SyncFails(c) => c in s.conns && s.conns[c].phase.Syncing? && s.conns[c].phase.pending != []
    case EndSync(c) => c in s.conns && s.conns[c].phase.Syncing? && s.conns[c].phase.pending == []
    case Update(c, m) => c in s.conns && s.conns[c].phase.Serving? && m.instanceId == s.conns[c].instanceId
    case Refetch(c) => c in s.conns && s.conns[c].phase.Refetching?
    case Submit(c, ev, stamp) => c in s.conns && s.conns[c].phase.Serving? && Ops.Fresh(s.store, stamp)
    case Deliver(c) => c in s.conns && c in s.up && c in s.queues && s.queues[c] != [] && s.conns[c].process in s.caches
    case Drop(c) => c in s.up
    case Close(c) => c in s.conns && (s.conns[c].phase.Serving? || s.conns[c].phase.Dialed?)
  }

  /** The sync of inst still goes to the connection registered under its id, and
      that registration serves repo. */
  predicate Current(s: State, inst: R.Instance, repo: string) {
    var id := inst.manifest.instanceId;
    id in s.reg.byInstance && s.reg.byInstance[id].conn == inst.conn && R.Serves(s.reg.byInstance[id], repo)
  }

  // ----- the effect of an action, component by component -----

  ghost function NextStore(s: State, a: Action): Ops.Store
    requires Enabled(s, a)
  {
    if a.Submit? then Ops.Step(s.store, Ops.Request(s.conns[a.c].principal, a.ev, a.stamp)) else s.store
  }

  /** The registry changes only by a call one of the serving goroutines makes. */
  ghost function CallOf(s: State, a: Action): Option<R.Call>
    requires Enabled(s, a)
  {
    match a
    case Join(c) => Some(R.Join(R.Instance(s.conns[c].principal, s.conns[c].phase.manifest, Some(c), 0)))
    case Update(c, m) => Some(R.UpdateManifest(m.instanceId, m))
    case Close(c) =>
      if s.conns[c].phase.Dialed? then None
      else Some(R.LeaveRegistration(R.Registration(s.conns[c].instanceId, s.conns[c].generation)))
    case _ => None
  }

  ghost function NextReg(s: State, a: Action): R.State
    requires Enabled(s, a)
  {
    if CallOf(s, a).Some? then R.Apply(s.reg, CallOf(s, a).value) else s.reg
  }

  /** The phase the goroutine of connection a.c moves to. */
  ghost function NextPhase(s: State, a: Action): Phase
    requires Enabled(s, a) && a.c in s.conns
  {
    var conn := s.conns[a.c];
    match a
    case Join(c) =>
      var m := conn.phase.manifest;
      Syncing(R.Instance(conn.principal, m, Some(c), NextReg(s, a).nextGen), R.RemotesIn(m.workspaces))
    case SyncRepo(c) => Syncing(conn.phase.inst, conn.phase.pending[1..])
    case SyncFails(c) => Syncing(conn.phase.inst, conn.phase.pending[1..])
    case EndSync(c) => Serving
    case Update(c, m) => Refetching
    case Refetch(c) =>
      if conn.instanceId in s.reg.byInstance
      then Syncing(s.reg.byInstance[conn.instanceId], R.RemotesIn(s.reg.byInstance[conn.instanceId].manifest.workspaces))
      else Serving
    case Close(c) => Closed
    case _ => conn.phase
  }

  ghost function NextConn(s: State, a: Action): Conn
    requires Enabled(s, a) && (a.c in s.conns || a.Dial?)
  {
    if a.Dial? then Conn(a.process, a.p, a.m.instanceId, 0, Dialed(a.m)) else
      var conn := s.conns[a.c].(phase := NextPhase(s, a));
      if a.Join? then conn.(generation := NextReg(s, a).nextGen) else conn
  }

  ghost function NextConns(s: State, a: Action): map<ConnId, Conn>
    requires Enabled(s, a)
  {
    if a.c in s.conns || a.Dial? then s.conns[a.c := NextConn(s, a)] else s.conns
  }

  ghost function SyncFrameOf(s: State, inst: R.Instance, repo: string): Event {
    SyncFrame(repo, Stores.ThreadsForRepo(s.store.threads, TenantKey(inst.principal), repo))
  }

  ghost function NextQueues(s: State, a: Action): Queues
    requires Enabled(s, a)
  {
    match a
    case Dial(c, _, _, _) => s.queues[c := []]
    case SyncRepo(c) =>
      var inst := s.conns[c].phase.inst;
      if inst.conn.Some? then Sent(s.queues, s.up, inst.conn.value, SyncFrameOf(s, inst, s.conns[c].phase.pending[0])) else s.queues
    case Submit(c, ev, stamp) =>
      var p := s.conns[c].principal;
      var v := Ops.Decide(s.store.threads, p, ev, stamp);
      if v.Reject? then s.queues
      else FannedOut(s.reg.byInstance, s.queues, s.up, TenantKey(p), v.thread.workspaceId,
                     ThreadFrame(v.op, v.thread.workspaceId, v.thread))
    case Deliver(c) => s.queues[c := s.queues[c][1..]]
    case _ => s.queues
  }

  ghost function NextUp(s: State, a: Action): set<ConnId> {
    if a.Dial? then s.up + {a.c} else if a.Drop? || a.Close? then s.up - {a.c} else s.up
  }

  ghost function NextCaches(s: State, a: Action): map<ProcId, Cache>
    requires Enabled(s, a)
  {
    match a
    case Dial(c, process, _, _) => if process in s.caches then s.caches else s.caches[process := map[]]
    case Deliver(c) =>
      var p := s.conns[c].process;
      s.caches[p := Fold(s.caches[p], s.queues[c][0])]
    case _ => s.caches
  }

  /** Shared bookkeeping of synced and missed: a join empties them, a manifest
      update keeps what is still served, a step of a current sync adds its repo. */
  ghost function NextHistory(s: State, a: Action, sets: map<string, set<string>>, adds: bool): map<string, set<string>>
    requires Enabled(s, a) && (adds ==> a.SyncRepo? || a.SyncFails?)
  {
    if a.Join? then sets[s.conns[a.c].phase.manifest.instanceId := {}]
    else if a.Update? then sets[a.m.instanceId := SetAt(sets, a.m.instanceId) * RemoteSet(a.m)]
    else if !adds then sets
    else
      var inst := s.conns[a.c].phase.inst;
      var repo := s.conns[a.c].phase.pending[0];
      var id := inst.manifest.instanceId;
      if Current(s, inst, repo) then sets[id := SetAt(sets, id) + {repo}] else sets
  }

  ghost function Next(s: State, a: Action): State
    requires Enabled(s, a)
  {
    State(NextStore(s, a), NextReg(s, a), NextConns(s, a), NextQueues(s, a), NextUp(s, a), NextCaches(s, a),
          NextHistory(s, a, s.synced, a.SyncRepo?), NextHistory(s, a, s.missed, a.SyncFails?))
  }

  lemma SubmitEffect(s: State, a: Action)
    requires Enabled(s, a) && a.Submit?
    ensures Next(s, a) == s.(store := NextStore(s, a), queues := NextQueues(s, a))
  {
    hide NextStore, NextQueues;
    assert NextConns(s, a) == s.conns;
  }

  lemma DeliverEffect(s: State, a: Action)
    requires Enabled(s, a) && a.Deliver?
    ensures Next(s, a) == s.(queues := NextQueues(s, a), caches := NextCaches(s, a))
  {
    hide NextQueues, NextCaches;
    assert NextConns(s, a) == s.conns;
  }

  lemma SyncEffect(s: State, a: Action)
    requires Enabled(s, a) && a.SyncRepo?
    ensures Next(s, a) == s.(conns := NextConns(s, a), queues := NextQueues(s, a), synced := NextHistory(s, a, s.synced, true))
  {
    hide NextConns, NextQueues;
  }

  /** Every other action leaves the store alone, and the queues and caches of all
      connections but a newly dialled one. */
  lemma OtherEffect(s: State, a: Action)
    requires Enabled(s, a) && !a.Submit? && !a.Deliver? && !a.SyncRepo?
    ensures
      var t := Next(s, a);
      && t.store == s.store
      && t.queues == (if a.Dial? then s.queues[a.c := []] else s.queues)
      && (forall p :: p in s.caches ==> p in t.caches && t.caches[p] == s.caches[p])
      && t.up <= s.up + {a.c} && (a.c in t.up ==> a.c in s.up || a.Dial?)
  {
    hide NextConns, NextReg, NextHistory;
  }

  // ----- structural invariant -----

  ghost predicate ConnsOk(s: State) {
    && s.conns.Keys == s.queues.Keys
    && s.up <= s.conns.Keys
    && (forall c :: c in s.conns ==> s.conns[c].process in s.caches)
    && (forall c, d :: c in s.up && d in s.up && s.conns[c].process == s.conns[d].process ==> c == d)
  }

  /** A registered instance and the connection it names agree. */
  ghost predicate Backed(s: State, inst: R.Instance) {
    && inst.conn.Some? && inst.conn.value in s.conns
    && s.conns[inst.conn.value].instanceId == inst.manifest.instanceId
    && s.conns[inst.conn.value].principal == inst.principal
  }

  ghost predicate RegOk(s: State) {
    forall id :: id in s.reg.byInstance ==>
      s.reg.byInstance[id].manifest.instanceId == id && Backed(s, s.reg.byInstance[id])
  }

  ghost predicate PhaseOk(s: State, c: ConnId)
    requires c in s.conns
  {
    var conn := s.conns[c];
    && (conn.phase.Dialed? ==> conn.phase.manifest.instanceId == conn.instanceId)
    && (conn.phase.Syncing? ==> conn.phase.inst.manifest.instanceId == conn.instanceId && Backed(s, conn.phase.inst))
  }

  ghost predicate PhasesOk(s: State) {
    forall c :: c in s.conns ==> PhaseOk(s, c)
  }

  /** Connections, registrations and serving goroutines are consistent. */
  ghost predicate Wired(s: State) {
    ConnsOk(s) && RegOk(s) && PhasesOk(s)
  }

  ghost predicate Inv(s: State) {
    Ops.Valid(s.store) && Wired(s)
  }

  /** Connections keep who they belong to; only their phase and generation move. */
  ghost predicate SameOwners(s: State, t: State) {
    && s.conns.Keys <= t.conns.Keys
    && forall c :: c in s.conns ==>
         t.conns[c].process == s.conns[c].process &&
         t.conns[c].instanceId == s.conns[c].instanceId &&
         t.conns[c].principal == s.conns[c].principal
  }

  lemma OwnersStay(s: State, a: Action)
    requires Enabled(s, a)
    ensures SameOwners(s, Next(s, a))
    ensures forall d :: d in s.conns && d != a.c ==> Next(s, a).conns[d] == s.conns[d]
    ensures forall d :: d in Next(s, a).conns ==> d in s.conns || d == a.c
  {
    hide NextPhase, NextReg, NextStore, NextQueues, NextUp, NextCaches, NextHistory;
  }

  lemma BackedStays(s: State, t: State, inst: R.Instance)
    requires Backed(s, inst) && SameOwners(s, t)
    ensures Backed(t, inst)
  {
  }

  /** An entry of the registry is the one just joined, or one that was there, of the
      same principal and connection. */
  lemma EntryComesFrom(s: State, a: Action, id: string)
    requires PhasesOk(s) && RegOk(s) && Enabled(s, a) && id in NextReg(s, a).byInstance
    ensures var inst := NextReg(s, a).byInstance[id];
      && inst.manifest.instanceId == id
      && (|| (a.Join? && id == s.conns[a.c].instanceId && inst.conn == Some(a.c) && inst.principal == s.conns[a.c].principal)
          || (id in s.reg.byInstance && inst.conn == s.reg.byInstance[id].conn && inst.principal == s.reg.byInstance[id].principal))
  {
    hide Backed;
    if a.Join? {
      assert PhaseOk(s, a.c);
    }
  }

  lemma RegStays(s: State, a: Action)
    requires Wired(s) && Enabled(s, a)
    ensures RegOk(Next(s, a))
  {
    OwnersStay(s, a);
    var t := Next(s, a);
    assert t.reg == NextReg(s, a);
    hide NextReg, Next, Enabled, PhasesOk, ConnsOk;
    forall id | id in t.reg.byInstance
      ensures t.reg.byInstance[id].manifest.instanceId == id && Backed(t, t.reg.byInstance[id])
    {
      EntryComesFrom(s, a, id);
      if id in s.reg.byInstance {
        BackedStays(s, t, s.reg.byInstance[id]);
      }
    }
  }

  /** A connection whose phase did not move stays in order, and so does one
      that drops its first pending repo. */
  lemma PhaseStays(s: State, t: State, d: ConnId)
    requires PhasesOk(s) && SameOwners(s, t) && d in s.conns
    requires t.conns[d].phase == s.conns[d].phase || !t.conns[d].phase.Dialed?
    requires t.conns[d].phase.Syncing? ==>
      || (s.conns[d].phase.Syncing? && t.conns[d].phase.inst == s.conns[d].phase.inst)
      || (t.conns[d].phase.inst.manifest.instanceId == s.conns[d].instanceId && Backed(t, t.conns[d].phase.inst))
    ensures PhaseOk(t, d)
  {
    assert PhaseOk(s, d);
    if s.conns[d].phase.Syncing? {
      BackedStays(s, t, s.conns[d].phase.inst);
    }
  }

  lemma JoinedPhase(s: State, a: Action)
    requires Wired(s) && Enabled(s, a) && a.Join?
    ensures PhaseOk(Next(s, a), a.c)
  {
    assert PhaseOk(s, a.c);
  }

  lemma RefetchedPhase(s: State, a: Action)
    requires Wired(s) && Enabled(s, a) && a.Refetch?
    ensures PhaseOk(Next(s, a), a.c)
  {
    OwnersStay(s, a);
    var id := s.conns[a.c].instanceId;
    if id in s.reg.byInstance {
      BackedStays(s, Next(s, a), s.reg.byInstance[id]);
    }
  }

  lemma OtherPhase(s: State, a: Action)
    requires PhasesOk(s) && Enabled(s, a) && !a.Join? && !a.Refetch? && !a.Dial? && a.c in s.conns
    ensures PhaseOk(Next(s, a), a.c)
  {
    OwnersStay(s, a);
    PhaseStays(s, Next(s, a), a.c);
  }

  lemma MovedPhase(s: State, a: Action)
    requires Wired(s) && Enabled(s, a) && a.c in Next(s, a).conns
    ensures PhaseOk(Next(s, a), a.c)
  {
    if a.Join? {
      JoinedPhase(s, a);
    } else if a.Refetch? {
      RefetchedPhase(s, a);
    } else if !a.Dial? {
      OtherPhase(s, a);
    }
  }

  lemma PhasesStay(s: State, a: Action)
    requires Wired(s) && Enabled(s, a)
    ensures PhasesOk(Next(s, a))
  {
    var t := Next(s, a);
    OwnersStay(s, a);
    forall d | d in t.conns ensures PhaseOk(t, d) {
      if d == a.c {
        MovedPhase(s, a);
      } else {
        PhaseStays(s, t, d);
      }
    }
  }

  lemma ConnsFrame(s: State, t: State)
    requires ConnsOk(s) && SameOwners(s, t)
    requires t.conns.Keys == s.conns.Keys && t.queues.Keys == s.queues.Keys
    requires t.up <= s.up && s.caches.Keys <= t.caches.Keys
    ensures ConnsOk(t)
  {
  }

  lemma QueueKeysStay(s: State, a: Action)
    requires Enabled(s, a) && !a.Dial?
    ensures NextQueues(s, a).Keys == s.queues.Keys
  {
    hide SyncFrameOf, ReceivesOn, Ops.Decide;
  }

  lemma KeysStay(s: State, a: Action)
    requires ConnsOk(s) && Enabled(s, a) && !a.Dial?
    ensures Next(s, a).conns.Keys == s.conns.Keys && Next(s, a).queues.Keys == s.queues.Keys
    ensures Next(s, a).up <= s.up && s.caches.Keys <= Next(s, a).caches.Keys
  {
    hide NextConn, NextReg, NextStore, NextHistory, SyncFrameOf, ReceivesOn, Ops.Decide;
    QueueKeysStay(s, a);
    hide NextQueues, Fold;
    assert a.c in s.conns ==> NextConns(s, a).Keys == s.conns.Keys;
  }

  lemma ConnsStay(s: State, a: Action)
    requires Wired(s) && Enabled(s, a)
    ensures ConnsOk(Next(s, a))
  {
    if !a.Dial? {
      OwnersStay(s, a);
      KeysStay(s, a);
      ConnsFrame(s, Next(s, a));
    }
  }

  lemma StoreStays(s: State, a: Action)
    requires Inv(s) && Enabled(s, a)
    ensures Ops.Valid(Next(s, a).store)
  {
    if a.Submit? {
      Ops.StepKeepsValid(s.store, Ops.Request(s.conns[a.c].principal, a.ev, a.stamp));
    }
  }

  lemma WiredStays(s: State, a: Action)
    requires Wired(s) && Enabled(s, a)
    ensures Wired(Next(s, a))
  {
    RegStays(s, a);
    PhasesStay(s, a);
    ConnsStay(s, a);
  }

  lemma InvStays(s: State, a: Action)
    requires Inv(s) && Enabled(s, a)
    ensures Inv(Next(s, a))
  {
    WiredStays(s, a);
    StoreStays(s, a);
  }
}
