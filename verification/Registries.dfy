/** The coordinator's in-memory map of live instances
    (internal/coordinator/registry.go) and the manifest it stores
    (internal/coordinator/wire.go). Generations are unbounded here. */
module Registries {
  import opened Common
  import opened SpecComments

  datatype WorkspaceRef = WorkspaceRef(remote: string, localKey: string)

  datatype Manifest = Manifest(
    instanceId: string, hostLabel: string, version: string,
    workspaces: seq<WorkspaceRef>, capabilities: seq<string>)

  /** The non-empty workspace keys, in manifest order. */
  function RemotesIn(ws: seq<WorkspaceRef>): seq<string> {
    if ws == [] then [] else
      var last := ws[|ws| - 1].remote;
      RemotesIn(ws[..|ws| - 1]) + (if last != "" then [last] else [])
  }

  /** A workspace without a remote never joins collaboration; all others do. */
  lemma {:induction false} RemotesAreTheNamedOnes(ws: seq<WorkspaceRef>, x: string)
    ensures x in RemotesIn(ws) <==> x != "" && exists k :: 0 <= k < |ws| && ws[k].remote == x
    decreases |ws|
  {
    if ws != [] {
      var front := ws[..|ws| - 1];
      RemotesAreTheNamedOnes(front, x);
      assert forall k :: 0 <= k < |front| ==> front[k] == ws[k];
    }
  }

  method Remotes(m: Manifest) returns (out: seq<string>)
    ensures out == RemotesIn(m.workspaces)
  {
    out := [];
    var i := 0;
    while i < |m.workspaces|
      invariant 0 <= i <= |m.workspaces|
      invariant out == RemotesIn(m.workspaces[..i])
    {
      if m.workspaces[i].remote != "" {
        out := out + [m.workspaces[i].remote];
      }
      i := i + 1;
      assert m.workspaces[..i][..i - 1] == m.workspaces[..i - 1];
    }
    assert m.workspaces[..i] == m.workspaces;
  }

  /** The number of a live connection's send handle. */
  type ConnId = nat

  datatype Instance = Instance(principal: Principal, manifest: Manifest, conn: Option<ConnId>, generation: nat)

  predicate Serves(inst: Instance, remote: string) {
    remote in RemotesIn(inst.manifest.workspaces)
  }

  datatype EventKind = EventJoin | EventLeave | EventManifest

  datatype RegistryEvent = RegistryEvent(kind: EventKind, principal: Principal, instanceId: string)

  /** The token Join hands to the connection that joined. */
  datatype Registration = Registration(instanceId: string, generation: nat)

  // ----- the registry as a value, with the events it emitted so far -----

  type Instances = map<string, Instance>

  datatype State = State(byInstance: Instances, nextGen: nat, emitted: seq<RegistryEvent>)

  datatype Call =
    | Join(inst: Instance)
    | UpdateManifest(instanceId: string, manifest: Manifest)
    | Leave(instanceId: string)
    | LeaveRegistration(reg: Registration)

  function Without(m: Instances, id: string): Instances {
    m - {id}
  }

  function Apply(s: State, c: Call): State {
    match c
    case Join(inst) =>
      var id := inst.manifest.instanceId;
      var kind := if id in s.byInstance then EventManifest else EventJoin;
      State(s.byInstance[id := inst.(generation := s.nextGen + 1)], s.nextGen + 1,
            s.emitted + [RegistryEvent(kind, inst.principal, id)])
    case UpdateManifest(id, m) =>
      if id !in s.byInstance then s else
        State(s.byInstance[id := s.byInstance[id].(manifest := m)], s.nextGen,
              s.emitted + [RegistryEvent(EventManifest, s.byInstance[id].principal, id)])
    case Leave(id) =>
      if id !in s.byInstance then s else
        State(Without(s.byInstance, id), s.nextGen,
              s.emitted + [RegistryEvent(EventLeave, s.byInstance[id].principal, id)])
    case LeaveRegistration(reg) =>
      if reg.instanceId !in s.byInstance || s.byInstance[reg.instanceId].generation != reg.generation then s else
        State(Without(s.byInstance, reg.instanceId), s.nextGen,
              s.emitted + [RegistryEvent(EventLeave, s.byInstance[reg.instanceId].principal, reg.instanceId)])
  }

  const EMPTY := State(map[], 0, [])

  ghost function After(calls: seq<Call>): State
    decreases |calls|
  {
    if calls == [] then EMPTY
    else Apply(After(calls[..|calls| - 1]), calls[|calls| - 1])
  }

  class Registry {
    var byInstance: Instances
    var nextGen: nat
    ghost var emitted: seq<RegistryEvent>

    ghost function Value(): State
      reads this
    {
      State(byInstance, nextGen, emitted)
    }

    constructor ()
      ensures Value() == EMPTY
    {
      byInstance, nextGen, emitted := map[], 0, [];
    }

    method Join(inst: Instance) returns (reg: Registration)
      modifies this
      ensures Value() == Apply(old(Value()), Call.Join(inst))
      ensures reg == Registration(inst.manifest.instanceId, nextGen)
    {
      var id := inst.manifest.instanceId;
      var existed := id in byInstance;
      nextGen := nextGen + 1;
      byInstance := byInstance[id := inst.(generation := nextGen)];
      var kind := EventJoin;
      if existed {
        kind := EventManifest;
      }
      emitted := emitted + [RegistryEvent(kind, inst.principal, id)];
      reg := Registration(id, nextGen);
    }

    method UpdateManifest(instanceId: string, m: Manifest)
      modifies this
      ensures Value() == Apply(old(Value()), Call.UpdateManifest(instanceId, m))
    {
      if instanceId !in byInstance {
        return;
      }
      var inst := byInstance[instanceId];
      byInstance := byInstance[instanceId := inst.(manifest := m)];
      emitted := emitted + [RegistryEvent(EventManifest, inst.principal, instanceId)];
    }

    method Leave(instanceId: string)
      modifies this
      ensures Value() == Apply(old(Value()), Call.Leave(instanceId))
    {
      if instanceId !in byInstance {
        return;
      }
      emitted := emitted + [RegistryEvent(EventLeave, byInstance[instanceId].principal, instanceId)];
      byInstance := byInstance - {instanceId};
    }

    method LeaveRegistration(reg: Registration)
      modifies this
      ensures Value() == Apply(old(Value()), Call.LeaveRegistration(reg))
    {
      if reg.instanceId !in byInstance || byInstance[reg.instanceId].generation != reg.generation {
        return;
      }
      emitted := emitted + [RegistryEvent(EventLeave, byInstance[reg.instanceId].principal, reg.instanceId)];
      byInstance := byInstance - {reg.instanceId};
    }

    /** Every registered instance serving the remote, each once, in any order. */
    method InstancesForRemote(remote: string) returns (ids: seq<string>)
      ensures forall i, j :: 0 <= i < j < |ids| ==> ids[i] != ids[j]
      ensures forall id :: id in ids <==> id in byInstance && Serves(byInstance[id], remote)
    {
      ids := [];
      var todo := byInstance.Keys;
      while todo != {}
        invariant todo <= byInstance.Keys
        invariant forall i, j :: 0 <= i < j < |ids| ==> ids[i] != ids[j]
        invariant forall id :: id in ids <==> id in byInstance && id !in todo && Serves(byInstance[id], remote)
        decreases todo
      {
        var id :| id in todo;
        todo := todo - {id};
        var remotes := Remotes(byInstance[id].manifest);
        if remote in remotes {
          assert id !in ids;
          ids := ids + [id];
        }
      }
    }
  }

  // ----- registered means: the latest join has not left -----

  ghost function JoinCount(calls: seq<Call>): nat
    decreases |calls|
  {
    if calls == [] then 0
    else JoinCount(calls[..|calls| - 1]) + (if calls[|calls| - 1].Join? then 1 else 0)
  }

  ghost predicate Joins(c: Call, id: string) {
    c.Join? && c.inst.manifest.instanceId == id
  }

  /** Call i joined id. */
  ghost predicate JoinedAt(calls: seq<Call>, i: int, id: string) {
    0 <= i < |calls| && Joins(calls[i], id)
  }

  /** c ends the registration that the join numbered gen of id created. */
  ghost predicate Ends(c: Call, id: string, gen: nat) {
    c == Call.Leave(id) || c == Call.LeaveRegistration(Registration(id, gen))
  }

  /** Call i joined id, nothing joined id since, and that join has not left. */
  ghost predicate LiveJoin(calls: seq<Call>, i: int, id: string) {
    && JoinedAt(calls, i, id)
    && (forall j :: i < j < |calls| ==> !Joins(calls[j], id))
    && (forall j :: i < j < |calls| ==> !Ends(calls[j], id, JoinCount(calls[..i + 1])))
  }

  lemma {:induction false} GenerationCountsJoins(calls: seq<Call>)
    ensures After(calls).nextGen == JoinCount(calls)
    decreases |calls|
  {
    if calls != [] {
      GenerationCountsJoins(calls[..|calls| - 1]);
    }
  }

  lemma LiveJoinInFront(calls: seq<Call>, i: int, id: string)
    requires calls != [] && 0 <= i < |calls| - 1
    ensures
      var last := |calls| - 1;
      LiveJoin(calls, i, id) <==>
        LiveJoin(calls[..last], i, id) && !Joins(calls[last], id) && !Ends(calls[last], id, JoinCount(calls[..i + 1]))
  {
    var last := |calls| - 1;
    var front := calls[..last];
    assert front[..i + 1] == calls[..i + 1];
    assert forall j :: 0 <= j < last ==> front[j] == calls[j];
  }

  ghost predicate CurrentJoin(calls: seq<Call>, id: string) {
    && (id in After(calls).byInstance ==> exists i :: LiveJoin(calls, i, id))
    && (forall i :: LiveJoin(calls, i, id) ==>
         id in After(calls).byInstance && After(calls).byInstance[id].generation == JoinCount(calls[..i + 1]))
  }

  lemma LastCallJoins(calls: seq<Call>, id: string)
    requires calls != [] && Joins(calls[|calls| - 1], id)
    ensures CurrentJoin(calls, id)
  {
    var last := |calls| - 1;
    GenerationCountsJoins(calls[..last]);
    assert calls[..last + 1] == calls;
    assert LiveJoin(calls, last, id);
    forall i | LiveJoin(calls, i, id) ensures i == last {
      assert JoinedAt(calls, i, id);
    }
  }

  lemma LastCallDoesNotJoin(calls: seq<Call>, id: string)
    requires calls != [] && !Joins(calls[|calls| - 1], id)
    requires CurrentJoin(calls[..|calls| - 1], id)
    ensures CurrentJoin(calls, id)
  {
    var last := |calls| - 1;
    var front := calls[..last];
    forall i | LiveJoin(calls, i, id)
      ensures id in After(calls).byInstance && After(calls).byInstance[id].generation == JoinCount(calls[..i + 1])
    {
      assert JoinedAt(calls, i, id);
      LiveJoinInFront(calls, i, id);
      assert front[..i + 1] == calls[..i + 1];
    }
    if id in After(calls).byInstance {
      assert id in After(front).byInstance;
      var i :| LiveJoin(front, i, id);
      assert JoinedAt(front, i, id);
      assert front[..i + 1] == calls[..i + 1];
      LiveJoinInFront(calls, i, id);
      assert LiveJoin(calls, i, id);
    }
  }

  lemma {:induction false} CurrentJoinHolds(calls: seq<Call>, id: string)
    ensures CurrentJoin(calls, id)
    decreases |calls|
  {
    if calls == [] {
      assert forall i :: !JoinedAt(calls, i, id);
    } else {
      CurrentJoinHolds(calls[..|calls| - 1], id);
      if Joins(calls[|calls| - 1], id) {
        LastCallJoins(calls, id);
      } else {
        LastCallDoesNotJoin(calls, id);
      }
    }
  }

  /** Registration safety: after any sequence of calls, an id is registered if
      and only if its latest join has not left; and then the entry carries the
      generation of that join. */
  lemma RegisteredIffLatestJoinLives(calls: seq<Call>, id: string)
    ensures id in After(calls).byInstance <==> exists i :: LiveJoin(calls, i, id)
    ensures forall i :: LiveJoin(calls, i, id) && id in After(calls).byInstance ==>
      After(calls).byInstance[id].generation == JoinCount(calls[..i + 1])
  {
    CurrentJoinHolds(calls, id);
  }

  lemma {:induction false} JoinCountGrows(calls: seq<Call>, i: nat, j: nat)
    requires i < j < |calls| && calls[j].Join?
    ensures JoinCount(calls[..i + 1]) < JoinCount(calls[..j + 1])
    decreases j - i
  {
    assert calls[..j + 1][..j] == calls[..j];
    if i + 1 < j {
      JoinCountMonotone(calls, i + 1, j);
    }
  }

  lemma {:induction false} JoinCountMonotone(calls: seq<Call>, a: nat, b: nat)
    requires a <= b <= |calls|
    ensures JoinCount(calls[..a]) <= JoinCount(calls[..b])
    decreases b - a
  {
    if a < b {
      JoinCountMonotone(calls, a, b - 1);
      assert calls[..b][..b - 1] == calls[..b - 1];
    }
  }

  /** A stale leave changes nothing: the token of a join that a later join of the
      same id replaced no longer removes anything. */
  lemma StaleLeaveIsNoOp(calls: seq<Call>, i: nat, j: nat, id: string)
    requires i < j && JoinedAt(calls, i, id) && JoinedAt(calls, j, id)
    ensures Apply(After(calls), Call.LeaveRegistration(Registration(id, JoinCount(calls[..i + 1])))) == After(calls)
  {
    CurrentJoinHolds(calls, id);
    if id in After(calls).byInstance {
      var k :| LiveJoin(calls, k, id);
      assert JoinedAt(calls, k, id);
      assert i < j <= k;
      JoinCountGrows(calls, i, k);
    }
  }

  /** Leaving twice with one token is leaving once. */
  lemma SecondLeaveIsNoOp(calls: seq<Call>, reg: Registration)
    ensures
      var once := Apply(After(calls), Call.LeaveRegistration(reg));
      Apply(once, Call.LeaveRegistration(reg)) == once
  {
  }

  // ----- the event stream of one id -----

  function KindsOf(events: seq<RegistryEvent>, id: string): seq<EventKind>
    decreases |events|
  {
    if events == [] then [] else
      var last := events[|events| - 1];
      KindsOf(events[..|events| - 1], id) + (if last.instanceId == id then [last.kind] else [])
  }

  /** A prefix of (Join Manifest* Leave)*: a Join opens exactly the positions
      that start the stream or follow a Leave. */
  ghost predicate Rounds(kinds: seq<EventKind>) {
    forall k :: 0 <= k < |kinds| ==> OpensExactlyAt(kinds, k)
  }

  ghost predicate OpensExactlyAt(kinds: seq<EventKind>, k: nat)
    requires k < |kinds|
  {
    kinds[k] == EventJoin <==> (k == 0 || kinds[k - 1] == EventLeave)
  }

  /** The last round is unfinished. */
  ghost predicate Open(kinds: seq<EventKind>) {
    kinds != [] && kinds[|kinds| - 1] != EventLeave
  }

  lemma KindsAppend(events: seq<RegistryEvent>, e: RegistryEvent, id: string)
    ensures KindsOf(events + [e], id) == KindsOf(events, id) + (if e.instanceId == id then [e.kind] else [])
  {
    assert (events + [e])[..|events|] == events;
  }

  lemma RoundsAppend(kinds: seq<EventKind>, kind: EventKind)
    requires Rounds(kinds)
    requires kind == EventJoin <==> !Open(kinds)
    ensures Rounds(kinds + [kind]) && (Open(kinds + [kind]) <==> kind != EventLeave)
  {
    var more := kinds + [kind];
    forall k | 0 <= k < |more|
      ensures OpensExactlyAt(more, k)
    {
      assert k > 0 ==> more[k - 1] == kinds[k - 1];
      assert k < |kinds| ==> more[k] == kinds[k] && OpensExactlyAt(kinds, k);
    }
  }

  ghost predicate InRounds(s: State, id: string) {
    && Rounds(KindsOf(s.emitted, id))
    && (Open(KindsOf(s.emitted, id)) <==> id in s.byInstance)
  }

  /** One emitted event: a join event exactly when its id was absent, and the id
      is present afterwards unless it left. */
  lemma EventKeepsRounds(s: State, t: State, e: RegistryEvent, id: string)
    requires InRounds(s, id) && t.emitted == s.emitted + [e]
    requires e.kind == EventJoin <==> e.instanceId !in s.byInstance
    requires e.instanceId in t.byInstance <==> e.kind != EventLeave
    requires id != e.instanceId ==> (id in t.byInstance <==> id in s.byInstance)
    ensures InRounds(t, id)
  {
    KindsAppend(s.emitted, e, id);
    var kinds := KindsOf(s.emitted, id);
    if e.instanceId == id {
      RoundsAppend(kinds, e.kind);
    } else {
      assert kinds + [] == kinds;
    }
  }

  lemma CallKeepsRounds(s: State, c: Call, id: string)
    requires InRounds(s, id)
    ensures InRounds(Apply(s, c), id)
  {
    var t := Apply(s, c);
    if t != s {
      EventKeepsRounds(s, t, t.emitted[|s.emitted|], id);
    }
  }

  /** The event stream of every id has the form (Join Manifest* Leave)* with at
      most one unfinished round, which is open exactly while id is registered. */
  lemma {:induction false} EventsComeInRounds(calls: seq<Call>, id: string)
    ensures Rounds(KindsOf(After(calls).emitted, id))
    ensures Open(KindsOf(After(calls).emitted, id)) <==> id in After(calls).byInstance
    decreases |calls|
  {
    if calls != [] {
      EventsComeInRounds(calls[..|calls| - 1], id);
      CallKeepsRounds(After(calls[..|calls| - 1]), calls[|calls| - 1], id);
    }
  }
}
