/** The serve-stale file list cache (internal/handler/file_index.go). Each action is
    one critical section of the index lock, the start of a build, or the end of a
    call. A build is named by the stamp of its start; what it lists and whether an
    entry counts as stale depend on the disk and the clock, so both are free. */
module FileIndex {

  type Workspace = nat
  type Task = nat
  type Stamp = nat

  /** A goroutine inside the index. floor: the newest build any call for this
      workspace had returned when the call began (0: none). */
  datatype Phase =
    | Found(ws: Workspace, floor: Stamp, build: Stamp)
    | Missed(ws: Workspace, floor: Stamp)
    | Building(ws: Workspace, floor: Stamp, build: Stamp)
    | Answering(ws: Workspace, floor: Stamp, build: Stamp)
    | Spawned(ws: Workspace)
    | Refreshing(ws: Workspace, build: Stamp)

  /** served: the newest build returned so far. stored: every build ever stored. */
  datatype Index = Index(clock: Stamp, entries: map<Workspace, Stamp>, refreshing: set<Workspace>,
    tasks: map<Task, Phase>, served: map<Workspace, Stamp>, stored: set<(Workspace, Stamp)>)

  datatype Action =
    | Call(t: Task, ws: Workspace)
    | Fresh(t: Task)
    | Stale(t: Task, bg: Task)
    | BeginBuild(t: Task)
    | ColdStore(t: Task)
    | RefreshStore(t: Task)
    | Return(t: Task)

  predicate Background(p: Phase) {
    p.Spawned? || p.Refreshing?
  }

  predicate Enabled(x: Index, a: Action) {
    match a
    case Call(t, _) => t !in x.tasks
    case Fresh(t) => t in x.tasks && x.tasks[t].Found?
    case Stale(t, bg) => t in x.tasks && x.tasks[t].Found? && bg !in x.tasks
    case BeginBuild(t) => t in x.tasks && (x.tasks[t].Missed? || x.tasks[t].Spawned?)
    case ColdStore(t) => t in x.tasks && x.tasks[t].Building?
    case RefreshStore(t) => t in x.tasks && x.tasks[t].Refreshing?
    case Return(t) => t in x.tasks && x.tasks[t].Answering?
  }

  function Newest(m: map<Workspace, Stamp>, ws: Workspace): Stamp {
    if ws in m then m[ws] else 0
  }

  function Put(x: Index, ws: Workspace, b: Stamp): Index {
    x.(entries := x.entries[ws := b], stored := x.stored + {(ws, b)})
  }

  function Next(x: Index, a: Action): Index
    requires Enabled(x, a)
  {
    match a
    case Call(t, ws) =>
      var floor := Newest(x.served, ws);
      x.(tasks := x.tasks[t := if ws in x.entries then Found(ws, floor, x.entries[ws]) else Missed(ws, floor)])
    case Fresh(t) =>
      var p := x.tasks[t];
      x.(tasks := x.tasks[t := Answering(p.ws, p.floor, p.build)])
    case Stale(t, bg) =>
      var p := x.tasks[t];
      var tasks := x.tasks[t := Answering(p.ws, p.floor, p.build)];
      if p.ws in x.refreshing then x.(tasks := tasks)
      else x.(tasks := tasks[bg := Spawned(p.ws)], refreshing := x.refreshing + {p.ws})
    case BeginBuild(t) =>
      var p := x.tasks[t];
      var next := if p.Missed? then Building(p.ws, p.floor, x.clock) else Refreshing(p.ws, x.clock);
      x.(clock := x.clock + 1, tasks := x.tasks[t := next])
    case ColdStore(t) =>
      var p := x.tasks[t];
      if p.ws !in x.entries then Put(x, p.ws, p.build).(tasks := x.tasks[t := Answering(p.ws, p.floor, p.build)])
      else x.(tasks := x.tasks[t := Answering(p.ws, p.floor, x.entries[p.ws])])
    case RefreshStore(t) =>
      var p := x.tasks[t];
      Put(x, p.ws, p.build).(refreshing := x.refreshing - {p.ws}, tasks := x.tasks - {t})
    case Return(t) =>
      var p := x.tasks[t];
      x.(tasks := x.tasks - {t},
         served := x.served[p.ws := if Newest(x.served, p.ws) < p.build then p.build else Newest(x.served, p.ws)])
  }

  const EMPTY := Index(1, map[], {}, map[], map[], {})

  // ----- what every step keeps -----

  ghost predicate PhaseInv(x: Index, p: Phase) {
    match p
    case Found(ws, floor, b) => floor <= b <= Newest(x.entries, ws) && (ws, b) in x.stored && ws in x.entries
    case Answering(ws, floor, b) => floor <= b <= Newest(x.entries, ws) && (ws, b) in x.stored
    case Missed(ws, floor) => floor <= Newest(x.entries, ws)
    case Building(ws, floor, b) => floor <= Newest(x.entries, ws) && 0 < b < x.clock
    case Spawned(ws) => ws in x.refreshing && ws in x.entries
    case Refreshing(ws, b) => ws in x.refreshing && ws in x.entries && x.entries[ws] < b < x.clock
  }

  ghost predicate BackgroundOf(x: Index, t: Task, ws: Workspace) {
    t in x.tasks && Background(x.tasks[t]) && x.tasks[t].ws == ws
  }

  ghost predicate OneEach(x: Index) {
    && (forall t, u, ws :: BackgroundOf(x, t, ws) && BackgroundOf(x, u, ws) ==> t == u)
    && (forall ws :: ws in x.refreshing ==> exists t :: BackgroundOf(x, t, ws))
  }

  ghost predicate Inv(x: Index) {
    && x.clock > 0
    && (forall ws :: ws in x.entries ==> 0 < x.entries[ws] < x.clock && (ws, x.entries[ws]) in x.stored)
    && (forall ws :: ws in x.served ==> x.served[ws] <= Newest(x.entries, ws))
    && (forall t :: t in x.tasks ==> PhaseInv(x, x.tasks[t]))
    && OneEach(x)
  }

  /** The index grew: nothing stored is forgotten and no entry got older. */
  ghost predicate Grew(x: Index, y: Index) {
    && x.clock <= y.clock && x.stored <= y.stored
    && (forall ws :: ws in x.entries ==> ws in y.entries && x.entries[ws] <= y.entries[ws])
  }

  lemma StepGrows(x: Index, a: Action)
    requires Inv(x) && Enabled(x, a)
    ensures Grew(x, Next(x, a))
  {
    hide OneEach;
    assert a.RefreshStore? ==> PhaseInv(x, x.tasks[a.t]);
  }

  /** A phase that did not itself move is still right after the index grew, if its
      refresh is still the one under way. */
  lemma PhaseStays(x: Index, y: Index, p: Phase)
    requires PhaseInv(x, p) && Grew(x, y)
    requires Background(p) ==> p.ws in y.refreshing && Newest(y.entries, p.ws) == Newest(x.entries, p.ws)
    ensures PhaseInv(y, p)
  {
  }

  lemma OthersStay(x: Index, a: Action, t: Task)
    requires Inv(x) && Enabled(x, a) && t in x.tasks && t != a.t
    ensures t in Next(x, a).tasks && Next(x, a).tasks[t] == x.tasks[t]
    ensures PhaseInv(Next(x, a), x.tasks[t])
  {
    StepGrows(x, a);
    var p := x.tasks[t];
    if Background(p) {
      assert BackgroundOf(x, t, p.ws);
      if a.RefreshStore? {
        assert BackgroundOf(x, a.t, x.tasks[a.t].ws);
      }
    }
    PhaseStays(x, Next(x, a), p);
  }

  lemma MoverStays(x: Index, a: Action)
    requires Inv(x) && Enabled(x, a)
    ensures var y := Next(x, a);
      && (a.t in y.tasks ==> PhaseInv(y, y.tasks[a.t]))
      && (a.Stale? && a.bg in y.tasks ==> PhaseInv(y, y.tasks[a.bg]))
  {
    hide OneEach;
    assert a.t in x.tasks ==> PhaseInv(x, x.tasks[a.t]);
  }

  lemma ServedStays(x: Index, a: Action)
    requires Inv(x) && Enabled(x, a)
    ensures var y := Next(x, a);
      && y.clock > 0
      && (forall ws :: ws in y.entries ==> 0 < y.entries[ws] < y.clock && (ws, y.entries[ws]) in y.stored)
      && (forall ws :: ws in y.served ==> y.served[ws] <= Newest(y.entries, ws))
  {
    hide OneEach;
    StepGrows(x, a);
    assert a.t in x.tasks ==> PhaseInv(x, x.tasks[a.t]);
  }

  lemma OneEachStays(x: Index, a: Action)
    requires Inv(x) && Enabled(x, a)
    ensures OneEach(Next(x, a))
  {
    var y := Next(x, a);
    hide PhaseInv;
    forall t, u, ws | BackgroundOf(y, t, ws) && BackgroundOf(y, u, ws) ensures t == u {
      BackgroundComesFrom(x, a, t, ws);
      BackgroundComesFrom(x, a, u, ws);
    }
    forall ws | ws in y.refreshing ensures exists t :: BackgroundOf(y, t, ws) {
      if ws in x.refreshing {
        var t :| BackgroundOf(x, t, ws);
        BackgroundGoesOn(x, a, t, ws);
      } else {
        assert BackgroundOf(y, a.bg, ws);
      }
    }
  }

  /** A background refresh either was there before or is the one just spawned. */
  lemma BackgroundComesFrom(x: Index, a: Action, t: Task, ws: Workspace)
    requires Inv(x) && Enabled(x, a) && BackgroundOf(Next(x, a), t, ws)
    ensures BackgroundOf(x, t, ws) || (a.Stale? && t == a.bg && ws !in x.refreshing)
    ensures BackgroundOf(x, t, ws) ==> ws in x.refreshing
  {
    hide OneEach;
    assert t in x.tasks ==> PhaseInv(x, x.tasks[t]);
  }

  lemma BackgroundGoesOn(x: Index, a: Action, t: Task, ws: Workspace)
    requires Inv(x) && Enabled(x, a) && BackgroundOf(x, t, ws) && ws in Next(x, a).refreshing
    ensures BackgroundOf(Next(x, a), t, ws)
  {
    hide PhaseInv, OneEach;
  }

  lemma StepKeepsInv(x: Index, a: Action)
    requires Inv(x) && Enabled(x, a)
    ensures Inv(Next(x, a))
  {
    ServedStays(x, a);
    OneEachStays(x, a);
    var y := Next(x, a);
    forall t | t in y.tasks ensures PhaseInv(y, y.tasks[t]) {
      MoverStays(x, a);
      if t in x.tasks && t != a.t {
        OthersStay(x, a, t);
      }
    }
  }

  // ----- whole runs -----

  ghost predicate CanRun(x: Index, run: seq<Action>)
    decreases |run|, 0
  {
    run == [] || (CanRun(x, run[..|run| - 1]) && Enabled(After(x, run[..|run| - 1]), run[|run| - 1]))
  }

  ghost function After(x: Index, run: seq<Action>): Index
    requires CanRun(x, run)
    decreases |run|, 1
  {
    if run == [] then x else Next(After(x, run[..|run| - 1]), run[|run| - 1])
  }

  lemma {:induction false} RunKeepsInv(x: Index, run: seq<Action>)
    requires Inv(x) && CanRun(x, run)
    ensures Inv(After(x, run)) && Grew(x, After(x, run))
    decreases |run|
  {
    hide Inv, Enabled, Next;
    if run != [] {
      var mid := After(x, run[..|run| - 1]);
      RunKeepsInv(x, run[..|run| - 1]);
      StepKeepsInv(mid, run[|run| - 1]);
      StepGrows(mid, run[|run| - 1]);
    }
  }

  lemma EmptyIsFine()
    ensures Inv(EMPTY)
  {
  }

  /** At most one background rebuild per workspace, and the flag says exactly
      whether there is one. */
  lemma OneRefreshEach(run: seq<Action>, ws: Workspace)
    requires CanRun(EMPTY, run)
    ensures var x := After(EMPTY, run);
      && (forall t, u :: BackgroundOf(x, t, ws) && BackgroundOf(x, u, ws) ==> t == u)
      && (ws in x.refreshing <==> exists t :: BackgroundOf(x, t, ws))
  {
    EmptyIsFine();
    RunKeepsInv(EMPTY, run);
    var x := After(EMPTY, run);
    if t :| BackgroundOf(x, t, ws) {
      assert PhaseInv(x, x.tasks[t]);
    }
  }

  /** Every answer is a build that was stored for that very workspace, and no older
      than any answer an earlier call had already returned. */
  lemma AnswersDoNotGoBack(run: seq<Action>, t: Task)
    requires CanRun(EMPTY, run)
    requires t in After(EMPTY, run).tasks && After(EMPTY, run).tasks[t].Answering?
    ensures var x := After(EMPTY, run); var p := x.tasks[t];
      && (p.ws, p.build) in x.stored && p.floor <= p.build <= Newest(x.entries, p.ws)
  {
    EmptyIsFine();
    RunKeepsInv(EMPTY, run);
    var x := After(EMPTY, run);
    assert PhaseInv(x, x.tasks[t]);
  }

  /** Stored entries only move forward to builds that began later. */
  lemma EntriesMoveForward(run: seq<Action>, more: seq<Action>, ws: Workspace)
    requires CanRun(EMPTY, run) && CanRun(After(EMPTY, run), more)
    requires ws in After(EMPTY, run).entries
    ensures ws in After(After(EMPTY, run), more).entries
    ensures After(EMPTY, run).entries[ws] <= After(After(EMPTY, run), more).entries[ws]
  {
    EmptyIsFine();
    RunKeepsInv(EMPTY, run);
    RunKeepsInv(After(EMPTY, run), more);
  }

  // ----- the critical sections -----

  /** The cache under its lock. Each method is one critical section of a call or of
      a background goroutine; model is the state machine it advances. */
  class FileCache {
    var entries: map<Workspace, Stamp>
    var refreshing: set<Workspace>
    ghost var model: Index

    ghost predicate Valid() reads this {
      Inv(model) && entries == model.entries && refreshing == model.refreshing
    }

    constructor ()
      ensures Valid() && model == EMPTY
    {
      entries, refreshing, model := map[], {}, EMPTY;
    }

    /** The fast path of a call: the cached build, if there is one. */
    method Lookup(t: Task, ws: Workspace) returns (found: bool, build: Stamp)
      requires Valid() && Enabled(model, Call(t, ws))
      modifies this
      ensures Valid() && model == Next(old(model), Call(t, ws))
      ensures found == model.tasks[t].Found? && (found ==> build == model.tasks[t].build)
    {
      StepKeepsInv(model, Call(t, ws));
      hide Inv;
      model := Next(model, Call(t, ws));
      found := ws in entries;
      build := if found then entries[ws] else 0;
    }

    /** Spawn a background rebuild unless one is running; afterwards one is. */
    method TriggerRefresh(t: Task, ws: Workspace, bg: Task) returns (spawned: bool)
      requires Valid() && Enabled(model, Stale(t, bg)) && model.tasks[t].ws == ws
      modifies this
      ensures Valid() && model == Next(old(model), Stale(t, bg))
      ensures spawned <==> ws !in old(model).refreshing
      ensures exists u :: BackgroundOf(model, u, ws)
    {
      StepKeepsInv(model, Stale(t, bg));
      model := Next(model, Stale(t, bg));
      assert OneEach(model);
      spawned := ws !in refreshing;
      if spawned {
        refreshing := refreshing + {ws};
      }
    }

    /** A cold build is stored unless another call stored one first; the caller
        answers with whichever is in the cache. */
    method StoreCold(t: Task, ws: Workspace, build: Stamp) returns (answer: Stamp)
      requires Valid() && Enabled(model, ColdStore(t)) && model.tasks[t].ws == ws && model.tasks[t].build == build
      modifies this
      ensures Valid() && model == Next(old(model), ColdStore(t))
      ensures model.tasks[t].Answering? && answer == model.tasks[t].build == model.entries[ws]
    {
      StepKeepsInv(model, ColdStore(t));
      hide Inv;
      model := Next(model, ColdStore(t));
      if ws !in entries {
        entries := entries[ws := build];
        answer := build;
      } else {
        answer := entries[ws];
      }
    }

    /** A background rebuild replaces the entry by a newer one and ends. */
    method StoreRefresh(t: Task, ws: Workspace, build: Stamp)
      requires Valid() && Enabled(model, RefreshStore(t)) && model.tasks[t].ws == ws && model.tasks[t].build == build
      modifies this
      ensures Valid() && model == Next(old(model), RefreshStore(t))
      ensures ws in old(entries) && old(entries)[ws] < entries[ws] == build && ws !in refreshing
    {
      assert PhaseInv(model, model.tasks[t]);
      StepKeepsInv(model, RefreshStore(t));
      hide Inv;
      model := Next(model, RefreshStore(t));
      entries := entries[ws := build];
      refreshing := refreshing - {ws};
    }
  }
}
