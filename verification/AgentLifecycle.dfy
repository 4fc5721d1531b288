/** Launch, Kill and Wait of host agents interleaving over one backend
    (internal/executor/host.go). Each action is one atomic step of one goroutine:
    a channel operation on the budget, a critical section of the process table,
    or the effect of one state transition, which Executor.StateCell.Transition
    shows to be a single valid move or none. */
module AgentLifecycle {
  import opened Common
  import opened Executor

  type Name = nat
  type Handle = nat

  /** How the process ended: with an exit code (zero or not), or with an error
      that is not an exit status. */
  datatype Outcome = Exit(code: int) | Broken

  /** Where the calls on a handle stand. Launch goes from Acquired to Live or to
      GaveBack; Wait goes from Live to Reaped. */
  datatype Phase =
    | Acquired | StartFailed | GaveBack
    | Started | Registered | Live
    | Exited(outcome: Outcome) | Checked(outcome: Outcome, terminal: bool) | Moved(outcome: Outcome)
    | Freed(outcome: Outcome) | Reaped(outcome: Outcome)

  /** killed: some Kill moved the handle to Stopping. freed: how often its slot
      was given back. */
  datatype Agent = Agent(name: Name, state: BackendState, phase: Phase, killed: bool, freed: nat)

  /** tokens: the entries of the budget channel. procs: the process table. */
  datatype Backend = Backend(maxAgents: nat, tokens: nat, agents: map<Handle, Agent>, procs: map<Name, Handle>)

  datatype Action =
    | Acquire(h: Handle, name: Name) | StartFails(h: Handle) | GiveBack(h: Handle)
    | Start(h: Handle) | Register(h: Handle) | Return(h: Handle)
    | Kill(h: Handle)
    | ProcessExits(h: Handle, outcome: Outcome) | CheckTerminal(h: Handle) | MoveFinal(h: Handle)
    | FreeSlot(h: Handle) | Unregister(h: Handle)

  predicate Limited(b: Backend) {
    b.maxAgents > 0
  }

  predicate In(b: Backend, h: Handle, p: Phase) {
    h in b.agents && b.agents[h].phase == p
  }

  predicate Enabled(b: Backend, a: Action) {
    match a
    case Acquire(h, _) => h !in b.agents && (Limited(b) ==> b.tokens < b.maxAgents)
    case StartFails(h) => In(b, h, Acquired)
    case GiveBack(h) => In(b, h, StartFailed) && CanRelease(b)
    case Start(h) => In(b, h, Acquired)
    case Register(h) => In(b, h, Started)
    case Return(h) => In(b, h, Registered)
    case Kill(h) => h in b.agents && Returned(b.agents[h].phase)
    case ProcessExits(h, _) => In(b, h, Live)
    case CheckTerminal(h) => h in b.agents && b.agents[h].phase.Exited?
    case MoveFinal(h) => h in b.agents && b.agents[h].phase.Checked?
    case FreeSlot(h) => h in b.agents && b.agents[h].phase.Moved? && CanRelease(b)
    case Unregister(h) => h in b.agents && b.agents[h].phase.Freed?
  }

  /** Receiving from the budget channel blocks while it is empty. */
  predicate CanRelease(b: Backend) {
    Limited(b) ==> b.tokens > 0
  }

  predicate Returned(p: Phase) {
    p.Live? || p.Exited? || p.Checked? || p.Moved? || p.Freed? || p.Reaped?
  }

  function Attempt(from: BackendState, to: BackendState): BackendState {
    if CanTransition(from, to) then to else from
  }

  function Goal(o: Outcome): BackendState {
    if o.Exit? then Stopped else Failed
  }

  /** What an action does to its own handle. */
  function NextAgent(g: Agent, a: Action): Agent
    requires a.Acquire? || a.StartFails? || a.GiveBack? || a.Start? || a.Register? || a.Return? || a.Kill? || a.ProcessExits?
      || (a.CheckTerminal? && g.phase.Exited?) || (a.MoveFinal? && g.phase.Checked?)
      || (a.FreeSlot? && g.phase.Moved?) || (a.Unregister? && g.phase.Freed?)
  {
    match a
    case Acquire(_, name) => Agent(name, Creating, Acquired, false, 0)
    case StartFails(_) => g.(state := Attempt(g.state, Failed), phase := StartFailed)
    case GiveBack(_) => g.(phase := GaveBack, freed := g.freed + 1)
    case Start(_) => g.(state := Attempt(g.state, Running), phase := Started)
    case Register(_) => g.(phase := Registered)
    case Return(_) => g.(phase := Live)
    case Kill(_) =>
      if Terminal(g.state) then g
      else g.(state := Attempt(g.state, Stopping), killed := g.killed || CanTransition(g.state, Stopping))
    case ProcessExits(_, o) => g.(phase := Exited(o))
    case CheckTerminal(_) => g.(phase := Checked(g.phase.outcome, Terminal(g.state)))
    case MoveFinal(_) =>
      g.(state := if g.phase.terminal then g.state else Attempt(g.state, Goal(g.phase.outcome)), phase := Moved(g.phase.outcome))
    case FreeSlot(_) => g.(phase := Freed(g.phase.outcome), freed := g.freed + 1)
    case Unregister(_) => g.(phase := Reaped(g.phase.outcome))
  }

  const NEW_AGENT := Agent(0, Creating, Acquired, false, 0)

  function AgentOf(b: Backend, h: Handle): Agent {
    if h in b.agents then b.agents[h] else NEW_AGENT
  }

  function NextTokens(b: Backend, a: Action): nat
    requires Enabled(b, a)
  {
    if !Limited(b) then b.tokens
    else if a.Acquire? then b.tokens + 1
    else if a.GiveBack? || a.FreeSlot? then b.tokens - 1
    else b.tokens
  }

  function NextProcs(b: Backend, a: Action): map<Name, Handle> {
    if a.Register? then b.procs[AgentOf(b, a.h).name := a.h]
    else if a.Unregister? then b.procs - {AgentOf(b, a.h).name}
    else b.procs
  }

  function Next(b: Backend, a: Action): Backend
    requires Enabled(b, a)
  {
    Backend(b.maxAgents, NextTokens(b, a), b.agents[a.h := NextAgent(AgentOf(b, a.h), a)], NextProcs(b, a))
  }

  function Start0(maxAgents: nat): Backend {
    Backend(maxAgents, 0, map[], map[])
  }

  ghost predicate CanRun(b: Backend, run: seq<Action>)
    decreases |run|, 0
  {
    run == [] || (CanRun(b, run[..|run| - 1]) && Enabled(After(b, run[..|run| - 1]), run[|run| - 1]))
  }

  ghost function After(b: Backend, run: seq<Action>): Backend
    requires CanRun(b, run)
    decreases |run|, 1
  {
    if run == [] then b else Next(After(b, run[..|run| - 1]), run[|run| - 1])
  }

  // ----- what every run keeps of one handle -----

  predicate HoldsSlot(p: Phase) {
    !p.GaveBack? && !p.Freed? && !p.Reaped?
  }

  /** The state an agent ends in: an exit status always ends Stopped, whatever
      Kill does; another error ends Failed unless a Kill had moved the handle to
      Stopping, and then it stays there. */
  function FinalState(o: Outcome, killed: bool): BackendState {
    if o.Exit? then Stopped else if killed then Stopping else Failed
  }

  ghost predicate AgentInv(g: Agent) {
    && g.freed == (if HoldsSlot(g.phase) then 0 else 1)
    && (g.phase.Acquired? ==> g.state == Creating && !g.killed)
    && (g.phase.StartFailed? || g.phase.GaveBack? ==> g.state == Failed && !g.killed)
    && (g.phase.Started? || g.phase.Registered? ==> g.state == Running && !g.killed)
    && (g.phase.Live? || g.phase.Exited? || g.phase.Checked? ==> g.state == if g.killed then Stopping else Running)
    && (g.phase.Checked? ==> !g.phase.terminal)
    && (g.phase.Moved? || g.phase.Freed? || g.phase.Reaped? ==> g.state == FinalState(g.phase.outcome, g.killed))
  }

  lemma AgentStep(b: Backend, a: Action)
    requires Enabled(b, a) && (a.h in b.agents ==> AgentInv(b.agents[a.h]))
    ensures AgentInv(NextAgent(AgentOf(b, a.h), a))
    ensures a.Acquire? || var g := b.agents[a.h]; var g' := NextAgent(g, a);
      && g'.name == g.name
      && (g'.state == g.state || CanTransition(g.state, g'.state))
      && (HoldsSlot(g.phase) && !HoldsSlot(g'.phase) <==> a.GiveBack? || a.FreeSlot?)
      && (HoldsSlot(g'.phase) ==> HoldsSlot(g.phase))
  {
  }

  // ----- the budget -----

  ghost function Holders(b: Backend): set<Handle> {
    set h | h in b.agents && HoldsSlot(b.agents[h].phase)
  }

  ghost predicate Inv(b: Backend) {
    && (forall h :: h in b.agents ==> AgentInv(b.agents[h]))
    && (if Limited(b) then b.tokens == |Holders(b)| <= b.maxAgents else b.tokens == 0)
  }

  lemma HoldersStep(b: Backend, a: Action)
    requires Inv(b) && Enabled(b, a)
    ensures Holders(Next(b, a)) ==
      if a.Acquire? then Holders(b) + {a.h} else if a.GiveBack? || a.FreeSlot? then Holders(b) - {a.h} else Holders(b)
    ensures a.Acquire? ==> a.h !in Holders(b)
    ensures a.GiveBack? || a.FreeSlot? ==> a.h in Holders(b)
  {
    AgentStep(b, a);
    hide Enabled, NextAgent, AgentInv, NextTokens, NextProcs, HoldsSlot;
    var b' := Next(b, a);
    forall h | h != a.h ensures h in Holders(b') <==> h in Holders(b) {
    }
    AcquireHolds(b, a);
  }

  lemma AcquireHolds(b: Backend, a: Action)
    requires Enabled(b, a)
    ensures a.Acquire? ==> HoldsSlot(NextAgent(AgentOf(b, a.h), a).phase) && a.h !in b.agents
    ensures !a.Acquire? ==> a.h in b.agents && b.agents[a.h] == AgentOf(b, a.h)
  {
  }

  lemma AgentsStay(b: Backend, a: Action, h: Handle)
    requires Inv(b) && Enabled(b, a) && h in Next(b, a).agents
    ensures AgentInv(Next(b, a).agents[h])
  {
    AgentStep(b, a);
    hide NextAgent, AgentInv, NextProcs, NextTokens, Enabled, Holders;
  }

  lemma TokensStay(b: Backend, a: Action)
    requires Inv(b) && Enabled(b, a)
    ensures var b' := Next(b, a);
      if Limited(b') then b'.tokens == |Holders(b')| <= b'.maxAgents else b'.tokens == 0
  {
    HoldersStep(b, a);
    hide NextAgent, AgentInv, HoldsSlot, NextProcs, Holders;
    assert Next(b, a).tokens == NextTokens(b, a) && Next(b, a).maxAgents == b.maxAgents;
  }

  lemma StepKeepsInv(b: Backend, a: Action)
    requires Inv(b) && Enabled(b, a)
    ensures Inv(Next(b, a))
  {
    TokensStay(b, a);
    var b' := Next(b, a);
    forall h | h in b'.agents ensures AgentInv(b'.agents[h]) {
      AgentsStay(b, a, h);
    }
    hide Next, Enabled, AgentInv, Holders;
  }

  lemma {:induction false} RunKeepsInv(maxAgents: nat, run: seq<Action>)
    requires CanRun(Start0(maxAgents), run)
    ensures Inv(After(Start0(maxAgents), run)) && After(Start0(maxAgents), run).maxAgents == maxAgents
    decreases |run|
  {
    hide Enabled, Inv, NextAgent, NextTokens, NextProcs;
    if run == [] {
      StartsWell(maxAgents);
    } else {
      RunKeepsInv(maxAgents, run[..|run| - 1]);
      StepKeepsInv(After(Start0(maxAgents), run[..|run| - 1]), run[|run| - 1]);
    }
  }

  lemma StartsWell(maxAgents: nat)
    ensures Inv(Start0(maxAgents))
  {
    assert Holders(Start0(maxAgents)) == {};
  }

  /** Never more agents than the budget between acquiring and freeing a slot; a
      limited budget counts exactly those, an unlimited one counts nothing. */
  lemma BudgetIsKept(maxAgents: nat, run: seq<Action>)
    requires CanRun(Start0(maxAgents), run)
    ensures var b := After(Start0(maxAgents), run);
      if maxAgents > 0 then b.tokens == |Holders(b)| <= maxAgents else b.tokens == 0
  {
    RunKeepsInv(maxAgents, run);
  }

  /** Each slot is given back exactly once, on either path out of the backend,
      and giving it back never blocks. */
  lemma SlotsAreFreedOnce(maxAgents: nat, run: seq<Action>, h: Handle)
    requires CanRun(Start0(maxAgents), run)
    requires h in After(Start0(maxAgents), run).agents
    ensures var b := After(Start0(maxAgents), run); var g := b.agents[h];
      && g.freed <= 1
      && (g.phase.GaveBack? || g.phase.Reaped? ==> g.freed == 1)
      && (g.phase.StartFailed? ==> Enabled(b, GiveBack(h)))
      && (g.phase.Moved? ==> Enabled(b, FreeSlot(h)))
  {
    RunKeepsInv(maxAgents, run);
    var b := After(Start0(maxAgents), run);
    if HoldsSlot(b.agents[h].phase) {
      assert h in Holders(b);
      assert |Holders(b)| > 0;
    }
  }

  /** When every agent is done the whole budget is back. */
  lemma QuietBudgetIsFull(maxAgents: nat, run: seq<Action>)
    requires CanRun(Start0(maxAgents), run)
    requires forall h :: h in After(Start0(maxAgents), run).agents ==>
      var p := After(Start0(maxAgents), run).agents[h].phase; p.GaveBack? || p.Reaped?
    ensures After(Start0(maxAgents), run).tokens == 0
  {
    RunKeepsInv(maxAgents, run);
    assert Holders(After(Start0(maxAgents), run)) == {};
  }

  /** Step j of the run is a Kill of h that finds the agent running. */
  ghost predicate KilledAt(b: Backend, run: seq<Action>, h: Handle, j: nat)
    requires CanRun(b, run)
  {
    j < |run| && run[j] == Kill(h) && CanRun(b, run[..j]) &&
    h in After(b, run[..j]).agents && After(b, run[..j]).agents[h].state == Running
  }

  lemma KilledInFront(b: Backend, run: seq<Action>, h: Handle, j: nat)
    requires CanRun(b, run) && j + 1 < |run|
    ensures CanRun(b, run[..|run| - 1]) && (KilledAt(b, run, h, j) <==> KilledAt(b, run[..|run| - 1], h, j))
  {
    hide Enabled;
    assert run[..|run| - 1][..j] == run[..j];
  }

  lemma KilledStep(b: Backend, a: Action, h: Handle)
    requires Inv(b) && Enabled(b, a) && h in Next(b, a).agents
    ensures var g' := Next(b, a).agents[h];
      if h !in b.agents then !g'.killed
      else g'.killed <==> b.agents[h].killed || (a == Kill(h) && b.agents[h].state == Running)
  {
    hide NextTokens, NextProcs;
    assert h in b.agents ==> AgentInv(b.agents[h]);
  }

  /** The history bit of a handle, over the run: some Kill found it running. */
  lemma {:induction false} KilledIff(maxAgents: nat, run: seq<Action>, h: Handle)
    requires CanRun(Start0(maxAgents), run) && h in After(Start0(maxAgents), run).agents
    ensures After(Start0(maxAgents), run).agents[h].killed <==> exists j: nat :: KilledAt(Start0(maxAgents), run, h, j)
    decreases |run|
  {
    hide Enabled, NextAgent, NextTokens, NextProcs, Inv;
    var b := Start0(maxAgents);
    var front, last := run[..|run| - 1], run[|run| - 1];
    RunKeepsInv(maxAgents, front);
    KilledStep(After(b, front), last, h);
    forall j: nat | j + 1 < |run| ensures KilledAt(b, run, h, j) <==> KilledAt(b, front, h, j) {
      KilledInFront(b, run, h, j);
    }
    assert KilledAt(b, run, h, |run| - 1) <==> last == Kill(h) && h in After(b, front).agents && After(b, front).agents[h].state == Running;
    if h in After(b, front).agents {
      KilledIff(maxAgents, front, h);
      if j: nat :| KilledAt(b, front, h, j) {
        assert KilledAt(b, run, h, j);
      }
    } else {
      NotKilledBefore(maxAgents, front, h);
    }
  }

  /** Before its launch nothing happened to a handle. */
  lemma {:induction false} NotKilledBefore(maxAgents: nat, run: seq<Action>, h: Handle)
    requires CanRun(Start0(maxAgents), run) && h !in After(Start0(maxAgents), run).agents
    ensures forall j: nat :: !KilledAt(Start0(maxAgents), run, h, j)
    decreases |run|
  {
    hide Enabled, NextAgent, NextTokens, NextProcs, Inv;
    var b := Start0(maxAgents);
    if run != [] {
      var front := run[..|run| - 1];
      NotKilledBefore(maxAgents, front, h);
      forall j: nat | j < |run| ensures !KilledAt(b, run, h, j) {
        if j + 1 < |run| {
          KilledInFront(b, run, h, j);
        }
      }
    }
  }

  /** Where a waited-for agent ends, for every interleaving with Kill: an exit status
      ends Stopped; another error ends terminal exactly when no Kill of the run
      found the agent still running. */
  lemma WaitEndsIn(maxAgents: nat, run: seq<Action>, h: Handle)
    requires CanRun(Start0(maxAgents), run)
    requires var b := After(Start0(maxAgents), run); h in b.agents && b.agents[h].phase.Reaped?
    ensures var g := After(Start0(maxAgents), run).agents[h];
      var killed := exists j: nat :: KilledAt(Start0(maxAgents), run, h, j);
      && (g.phase.outcome.Exit? ==> g.state == Stopped)
      && (g.phase.outcome.Broken? ==> g.state == if killed then Stopping else Failed)
      && (Terminal(g.state) <==> g.phase.outcome.Exit? || !killed)
  {
    hide Enabled, NextAgent, NextTokens, NextProcs;
    RunKeepsInv(maxAgents, run);
    KilledIff(maxAgents, run, h);
    assert AgentInv(After(Start0(maxAgents), run).agents[h]);
  }

  /** A handle only moves along the table, so a terminal one never moves again. */
  lemma {:induction false} StatesMoveForward(b: Backend, run: seq<Action>, h: Handle)
    requires Inv(b) && h in b.agents && CanRun(b, run)
    ensures Inv(After(b, run)) && h in After(b, run).agents
    ensures var s := b.agents[h].state; var s' := After(b, run).agents[h].state;
      && Rank(s') <= Rank(s) && (s' != s ==> Rank(s') < Rank(s)) && (Terminal(s) ==> s' == s)
    decreases |run|
  {
    hide Enabled, Inv, NextAgent, NextTokens, NextProcs, AgentInv;
    if run != [] {
      var mid := After(b, run[..|run| - 1]);
      StatesMoveForward(b, run[..|run| - 1], h);
      StepKeepsInv(mid, run[|run| - 1]);
      StepMovesForward(mid, run[|run| - 1], h);
    }
  }

  lemma StepMovesForward(b: Backend, a: Action, h: Handle)
    requires Inv(b) && h in b.agents && Enabled(b, a)
    ensures h in Next(b, a).agents
    ensures var s := b.agents[h].state; var s' := Next(b, a).agents[h].state; s' == s || CanTransition(s, s')
  {
    AgentStep(b, a);
    AcquireHolds(b, a);
    hide Enabled, NextAgent, AgentInv, NextTokens, NextProcs;
  }

  // ----- the process table -----

  predicate Listed(p: Phase) {
    p.Registered? || p.Live? || p.Exited? || p.Checked? || p.Moved? || p.Freed?
  }

  predicate Gone(p: Phase) {
    p.StartFailed? || p.GaveBack? || p.Reaped?
  }

  /** The caller does not reuse a name before its agent is gone. */
  ghost predicate FreshName(b: Backend, a: Action) {
    a.Acquire? ==> forall h :: h in b.agents && b.agents[h].name == a.name ==> Gone(b.agents[h].phase)
  }

  ghost predicate FreshNames(b: Backend, run: seq<Action>)
    requires CanRun(b, run)
    decreases |run|
  {
    run == [] || (FreshNames(b, run[..|run| - 1]) && FreshName(After(b, run[..|run| - 1]), run[|run| - 1]))
  }

  /** The table lists exactly the registered, unreaped agents, under their names. */
  ghost predicate TableExact(b: Backend) {
    && (forall n :: n in b.procs ==> b.procs[n] in b.agents && b.agents[b.procs[n]].name == n && Listed(b.agents[b.procs[n]].phase))
    && (forall h :: h in b.agents && Listed(b.agents[h].phase) ==> b.agents[h].name in b.procs && b.procs[b.agents[h].name] == h)
  }

  ghost predicate NamesDistinct(b: Backend) {
    forall h, k :: h in b.agents && k in b.agents && h != k && b.agents[h].name == b.agents[k].name ==>
      Gone(b.agents[h].phase) || Gone(b.agents[k].phase)
  }

  lemma PhaseStep(b: Backend, a: Action)
    requires Enabled(b, a) && !a.Acquire?
    ensures a.h in b.agents && AgentOf(b, a.h) == b.agents[a.h]
    ensures var g := b.agents[a.h]; var g' := NextAgent(g, a);
      && g'.name == g.name
      && (Gone(g.phase) ==> Gone(g'.phase))
      && (Listed(g'.phase) <==> a.Register? || (Listed(g.phase) && !a.Unregister?))
      && (a.Register? ==> !Gone(g.phase) && !Listed(g.phase))
      && (a.Unregister? ==> Listed(g.phase))
      && (Listed(g.phase) ==> !Gone(g.phase))
  {
  }

  lemma TableStep(b: Backend, a: Action)
    requires Enabled(b, a) && FreshName(b, a) && TableExact(b) && NamesDistinct(b)
    ensures TableExact(Next(b, a)) && NamesDistinct(Next(b, a))
  {
    if a.Acquire? {
      AcquireTable(b, a);
    } else {
      hide Enabled, NextAgent, NextTokens, Listed, Gone, TableExact, NextProcs;
      PhaseStep(b, a);
      TableOthers(b, a);
    }
  }

  lemma AcquireTable(b: Backend, a: Action)
    requires Enabled(b, a) && FreshName(b, a) && TableExact(b) && NamesDistinct(b) && a.Acquire?
    ensures TableExact(Next(b, a)) && NamesDistinct(Next(b, a))
  {
    hide NextTokens;
  }

  lemma TableOthers(b: Backend, a: Action)
    requires Enabled(b, a) && TableExact(b) && NamesDistinct(b) && !a.Acquire?
    ensures TableExact(Next(b, a))
  {
    hide Enabled, NextAgent, NextTokens, Listed, Gone;
    PhaseStep(b, a);
    if a.Register? {
      RegisterTable(b, a);
    } else if a.Unregister? {
      UnregisterTable(b, a);
    }
  }

  lemma RegisterTable(b: Backend, a: Action)
    requires Enabled(b, a) && TableExact(b) && NamesDistinct(b) && a.Register?
    ensures TableExact(Next(b, a))
  {
    PhaseStep(b, a);
    hide Enabled, NextAgent, NextTokens, Listed;
    var b' := Next(b, a);
    forall h | h in b'.agents && h != a.h && Listed(b'.agents[h].phase)
      ensures b'.agents[h].name in b'.procs && b'.procs[b'.agents[h].name] == h
    {
      ListedIsPresent(b.agents[h].phase);
    }
  }

  lemma ListedIsPresent(p: Phase)
    requires Listed(p)
    ensures !Gone(p)
  {
  }

  lemma UnregisterTable(b: Backend, a: Action)
    requires Enabled(b, a) && TableExact(b) && a.Unregister?
    ensures TableExact(Next(b, a))
  {
    hide Enabled, NextAgent, NextTokens, Listed, Gone;
    PhaseStep(b, a);
  }

  /** While names of present agents are distinct, the table is exact in every run. */
  lemma {:induction false} TableIsExact(maxAgents: nat, run: seq<Action>)
    requires CanRun(Start0(maxAgents), run) && FreshNames(Start0(maxAgents), run)
    ensures var b := After(Start0(maxAgents), run); TableExact(b) && NamesDistinct(b)
    decreases |run|
  {
    hide Enabled, NextAgent, NextTokens, NextProcs, FreshName, Next;
    if run != [] {
      TableIsExact(maxAgents, run[..|run| - 1]);
      TableStep(After(Start0(maxAgents), run[..|run| - 1]), run[|run| - 1]);
    }
  }

  /** Without that discipline the table drops a running agent: of two listed
      agents with the same name, reaping one unlists the other. An agent with
      another name keeps its entry. */
  lemma ReapingUnlistsNamesakes(b: Backend, h: Handle, k: Handle)
    requires Enabled(b, Unregister(h)) && k in b.agents && k != h
    requires b.agents[k].name in b.procs && b.procs[b.agents[k].name] == k && Listed(b.agents[k].phase)
    ensures var b' := Next(b, Unregister(h)); var n := b.agents[k].name;
      && b'.agents[k] == b.agents[k]
      && (n in b'.procs <==> n != b.agents[h].name)
      && (TableExact(b') ==> n != b.agents[h].name)
  {
  }

  // ----- the backend's own operations -----

  /** The backend's shared fields: the budget channel, the process table and the
      state words. Each method is one of its atomic operations; model is the state
      machine it advances. */
  class HostBackend {
    const maxAgents: nat
    var tokens: nat
    var procs: map<Name, Handle>
    var states: map<Handle, BackendState>
    ghost var model: Backend

    ghost predicate Tied() reads this {
      && model.maxAgents == maxAgents && tokens == model.tokens && procs == model.procs
      && (forall h :: h in model.agents <==> h in states)
      && (forall h :: h in model.agents ==> states[h] == model.agents[h].state)
    }

    ghost predicate Valid() reads this {
      Tied() && Inv(model)
    }

    constructor (maxAgents: nat)
      ensures Valid() && model == Start0(maxAgents)
    {
      this.maxAgents, tokens, procs, states, model := maxAgents, 0, map[], map[], Start0(maxAgents);
      new;
      StartsWell(maxAgents);
    }

    /** Reserve a slot; a full channel blocks, so nothing is reserved. */
    method AcquireSlot(h: Handle, name: Name) returns (ok: bool)
      requires Valid() && h !in model.agents
      modifies this
      ensures Valid() && ok == Enabled(old(model), Acquire(h, name))
      ensures model == if ok then Next(old(model), Acquire(h, name)) else old(model)
      ensures ok ==> maxAgents == 0 || |Holders(old(model))| < maxAgents
    {
      ok := maxAgents == 0 || tokens < maxAgents;
      if ok {
        StepKeepsInv(model, Acquire(h, name));
        hide Inv;
        model := Next(model, Acquire(h, name));
        states := states[h := Creating];
        if maxAgents > 0 {
          tokens := tokens + 1;
        }
      }
    }

    /** Give a reaped agent's slot back; there is always one to take. */
    method Release(h: Handle)
      requires Valid() && h in model.agents && model.agents[h].phase.Moved?
      modifies this
      ensures Valid() && Enabled(old(model), FreeSlot(h)) && model == Next(old(model), FreeSlot(h))
      ensures |Holders(model)| == |Holders(old(model))| - 1
    {
      assert h in Holders(model);
      assert |Holders(model)| > 0;
      HoldersStep(model, FreeSlot(h));
      StepKeepsInv(model, FreeSlot(h));
      hide Inv;
      model := Next(model, FreeSlot(h));
      if maxAgents > 0 {
        tokens := tokens - 1;
      }
    }

    method RegisterHandle(h: Handle, name: Name)
      requires Valid() && Enabled(model, Register(h)) && model.agents[h].name == name
      modifies this
      ensures Valid() && model == Next(old(model), Register(h))
      ensures name in procs && procs[name] == h
    {
      StepKeepsInv(model, Register(h));
      hide Inv;
      model := Next(model, Register(h));
      procs := procs[name := h];
    }

    method RemoveFromBackend(h: Handle, name: Name)
      requires Valid() && Enabled(model, Unregister(h)) && model.agents[h].name == name
      modifies this
      ensures Valid() && model == Next(old(model), Unregister(h)) && name !in procs
    {
      StepKeepsInv(model, Unregister(h));
      hide Inv;
      model := Next(model, Unregister(h));
      procs := procs - {name};
    }

    /** The state change of Kill: to Stopping from a running agent, nothing else. */
    method KillHandle(h: Handle)
      requires Valid() && Enabled(model, Kill(h))
      modifies this
      ensures Valid() && model == Next(old(model), Kill(h))
      ensures states[h] == if old(states)[h] == Running then Stopping else old(states)[h]
    {
      assert AgentInv(model.agents[h]);
      StepKeepsInv(model, Kill(h));
      hide Inv, AgentInv;
      model := Next(model, Kill(h));
      if !Terminal(states[h]) && CanTransition(states[h], Stopping) {
        states := states[h := Stopping];
      }
    }
  }
}
