/** Executing a flow (internal/flow/engine.go): groups one after the other, the
    steps of a group concurrently, each fed from a snapshot of the results of
    earlier groups. The launcher is a function of slug and prompt. */
module FlowEngine {
  import opened Common
  import opened ParallelGroups

  /** A parsed result: a string, or another value with its printed form. */
  datatype Value = Text(s: string) | Other(printed: string)

  function Sprint(v: Value): string {
    match v case Text(s) => s case Other(p) => p
  }

  datatype Outcome = Done(v: Value) | Failed

  type Results = map<string, Value>

  type Launcher = (string, string) -> Outcome

  datatype Flow = Flow(groups: seq<seq<Step>>, base: string)

  function ResolvePrompt(step: Step, base: string, results: Results): string {
    if step.inputFrom == "" then base
    else if step.inputFrom !in results then base
    else Sprint(results[step.inputFrom])
  }

  // ----- the reference: group after group, no concurrency -----

  /** The outcome of step i of a group when every prompt is read from results. */
  function Asked(group: seq<Step>, base: string, results: Results, run: Launcher, i: nat): Outcome
    requires i < |group|
  {
    run(group[i].agentSlug, ResolvePrompt(group[i], base, results))
  }

  /** The results of the first n steps of a group. */
  function Successes(group: seq<Step>, base: string, results: Results, run: Launcher, n: nat): Results
    requires n <= |group|
  {
    if n == 0 then map[] else
      var rest := Successes(group, base, results, run, n - 1);
      var out := Asked(group, base, results, run, n - 1);
      if out.Done? then rest[group[n - 1].agentSlug := out.v] else rest
  }

  /** The results after the first k groups. */
  function ResultsAfter(f: Flow, run: Launcher, k: nat): Results
    requires k <= |f.groups|
  {
    if k == 0 then map[] else
      var before := ResultsAfter(f, run, k - 1);
      before + Successes(f.groups[k - 1], f.base, before, run, |f.groups[k - 1]|)
  }

  /** The prompt the reference gives step i of group g. */
  function Prompt(f: Flow, run: Launcher, g: nat, i: nat): string
    requires g < |f.groups| && i < |f.groups[g]|
  {
    ResolvePrompt(f.groups[g][i], f.base, ResultsAfter(f, run, g))
  }

  function OutcomeOf(f: Flow, run: Launcher, g: nat, i: nat): Outcome
    requires g < |f.groups| && i < |f.groups[g]|
  {
    run(f.groups[g][i].agentSlug, Prompt(f, run, g, i))
  }

  /** A mandatory step of group g fails. */
  ghost predicate GroupFails(f: Flow, run: Launcher, g: nat)
    requires g < |f.groups|
  {
    exists i :: 0 <= i < |f.groups[g]| && !f.groups[g][i].optional && OutcomeOf(f, run, g, i).Failed?
  }

  // ----- any interleaving -----

  /** One execution: the current group, its snapshotted prompts once it has begun,
      which of its steps have been launched and have returned, what they parsed,
      whether a mandatory one failed; the results so far; and, as history, the
      prompt each launched step received. */
  datatype Exec = Exec(
    g: nat, begun: bool, prompts: seq<string>, started: set<nat>, finished: set<nat>,
    parsed: Results, failed: bool, results: Results, received: map<(nat, nat), string>, stopped: bool)

  const START := Exec(0, false, [], {}, {}, map[], false, map[], map[], false)

  datatype Action =
    | Begin
    | Launch(i: nat)
    | Return(i: nat, out: Outcome)
    | Wait
    | Cancel

  ghost predicate Enabled(f: Flow, run: Launcher, s: Exec, a: Action) {
    match a
    case Begin => !s.stopped && !s.begun && s.g < |f.groups|
    case Launch(i) => !s.stopped && s.begun && s.g < |f.groups| && i < |f.groups[s.g]| && i < |s.prompts| && i !in s.started
    case Return(i, out) =>
      // once a mandatory step has failed the group context is cancelled, and
      // the remaining steps may return anything
      && !s.stopped && s.begun && s.g < |f.groups| && i in s.started && i !in s.finished
      && i < |f.groups[s.g]| && i < |s.prompts|
      && (!s.failed ==> out == run(f.groups[s.g][i].agentSlug, s.prompts[i]))
    case Wait => !s.stopped && s.begun && s.g < |f.groups| && forall i :: 0 <= i < |f.groups[s.g]| ==> i in s.finished
    case Cancel => !s.stopped && !s.begun
  }

  function Snapshot(group: seq<Step>, base: string, results: Results): (r: seq<string>)
    ensures |r| == |group| && forall i :: 0 <= i < |group| ==> r[i] == ResolvePrompt(group[i], base, results)
  {
    seq(|group|, i requires 0 <= i < |group| => ResolvePrompt(group[i], base, results))
  }

  ghost function Next(f: Flow, run: Launcher, s: Exec, a: Action): Exec
    requires Enabled(f, run, s, a)
  {
    match a
    case Begin =>
      s.(begun := true, prompts := Snapshot(f.groups[s.g], f.base, s.results),
         started := {}, finished := {}, parsed := map[], failed := false)
    case Launch(i) =>
      s.(started := s.started + {i}, received := s.received[(s.g, i) := s.prompts[i]])
    case Return(i, out) =>
      var step := f.groups[s.g][i];
      if out.Done? then s.(finished := s.finished + {i}, parsed := s.parsed[step.agentSlug := out.v])
      else s.(finished := s.finished + {i}, failed := s.failed || !step.optional)
    case Wait =>
      if s.failed then s.(stopped := true)
      else s.(g := s.g + 1, begun := false, results := s.results + s.parsed)
    case Cancel => s.(stopped := true)
  }

  ghost predicate CanRun(f: Flow, run: Launcher, s: Exec, acts: seq<Action>)
    decreases |acts|
  {
    acts == [] || (Enabled(f, run, s, acts[0]) && CanRun(f, run, Next(f, run, s, acts[0]), acts[1..]))
  }

  ghost function Run(f: Flow, run: Launcher, s: Exec, acts: seq<Action>): Exec
    requires CanRun(f, run, s, acts)
    decreases |acts|
  {
    if acts == [] then s else Run(f, run, Next(f, run, s, acts[0]), acts[1..])
  }

  // ----- the invariant -----

  ghost predicate DistinctInGroups(f: Flow) {
    forall g :: 0 <= g < |f.groups| ==> DistinctSlugs(f.groups[g])
  }

  /** What has been parsed is what the returned steps produced. */
  ghost predicate ParsedIs(f: Flow, run: Launcher, s: Exec)
    requires s.g < |f.groups|
  {
    && (forall i :: i in s.finished && i < |f.groups[s.g]| ==>
         var out := OutcomeOf(f, run, s.g, i);
         if out.Done? then f.groups[s.g][i].agentSlug in s.parsed && s.parsed[f.groups[s.g][i].agentSlug] == out.v
         else f.groups[s.g][i].optional)
    && (forall slug :: slug in s.parsed ==> exists i :: i in s.finished && ParsedFrom(f, run, s.g, i, slug))
  }

  ghost predicate ParsedFrom(f: Flow, run: Launcher, g: nat, i: nat, slug: string) {
    g < |f.groups| && i < |f.groups[g]| && f.groups[g][i].agentSlug == slug && OutcomeOf(f, run, g, i).Done?
  }

  /** Exactly the steps of earlier groups and the launched steps of this one have
      received a prompt, and each the reference prompt. */
  ghost predicate ReceivedIs(f: Flow, run: Launcher, s: Exec) {
    forall g, i :: (g, i) in s.received ==>
      && 0 <= g < |f.groups| && 0 <= i < |f.groups[g]|
      && (g < s.g || (g == s.g && s.begun && i in s.started))
      && s.received[(g, i)] == Prompt(f, run, g, i)
  }

  ghost predicate AllEarlierReceived(f: Flow, s: Exec) {
    && s.g <= |f.groups|
    && (forall g, i :: 0 <= g < s.g && 0 <= i < |f.groups[g]| ==> (g, i) in s.received)
    && (s.begun ==> forall i :: i in s.started ==> (s.g, i) in s.received)
  }

  ghost predicate Inv(f: Flow, run: Launcher, s: Exec) {
    && s.g <= |f.groups|
    && s.results == ResultsAfter(f, run, s.g)
    && ReceivedIs(f, run, s) && AllEarlierReceived(f, s)
    && (forall g :: 0 <= g < s.g ==> !GroupFails(f, run, g))
    && (s.begun && s.g < |f.groups| ==>
         && s.prompts == Snapshot(f.groups[s.g], f.base, s.results)
         && s.finished <= s.started
         && (forall i :: i in s.started ==> 0 <= i < |f.groups[s.g]|)
         && (!s.failed ==> ParsedIs(f, run, s))
         && (s.failed ==> GroupFails(f, run, s.g)))
  }

  lemma ReturnKeepsParsed(f: Flow, run: Launcher, s: Exec, i: nat, out: Outcome)
    requires Inv(f, run, s) && DistinctInGroups(f) && Enabled(f, run, s, Return(i, out))
    requires !Next(f, run, s, Return(i, out)).failed
    ensures ParsedIs(f, run, Next(f, run, s, Return(i, out)))
  {
    var t := Next(f, run, s, Return(i, out));
    assert out == OutcomeOf(f, run, s.g, i);
    forall slug | slug in t.parsed ensures exists j :: j in t.finished && ParsedFrom(f, run, t.g, j, slug) {
      if out.Done? && slug == f.groups[s.g][i].agentSlug {
        assert ParsedFrom(f, run, t.g, i, slug);
      } else {
        var j :| j in s.finished && ParsedFrom(f, run, s.g, j, slug);
        assert j in t.finished;
      }
    }
    forall j | j in t.finished && j < |f.groups[t.g]|
      ensures
        var o := OutcomeOf(f, run, t.g, j);
        if o.Done? then f.groups[t.g][j].agentSlug in t.parsed && t.parsed[f.groups[t.g][j].agentSlug] == o.v
        else f.groups[t.g][j].optional
    {
      assert DistinctSlugs(f.groups[t.g]);
      assert j != i ==> f.groups[t.g][j].agentSlug != f.groups[t.g][i].agentSlug;
    }
  }

  lemma {:induction false} SuccessesContents(f: Flow, run: Launcher, g: nat, n: nat, slug: string)
    requires g < |f.groups| && n <= |f.groups[g]| && DistinctSlugs(f.groups[g])
    ensures
      var m := Successes(f.groups[g], f.base, ResultsAfter(f, run, g), run, n);
      && (slug in m <==> exists i :: 0 <= i < n && ParsedFrom(f, run, g, i, slug))
      && (forall i :: 0 <= i < n && ParsedFrom(f, run, g, i, slug) ==> slug in m && m[slug] == OutcomeOf(f, run, g, i).v)
    decreases n
  {
    if n > 0 {
      SuccessesContents(f, run, g, n - 1, slug);
      var m := Successes(f.groups[g], f.base, ResultsAfter(f, run, g), run, n);
      if slug == f.groups[g][n - 1].agentSlug && OutcomeOf(f, run, g, n - 1).Done? {
        assert ParsedFrom(f, run, g, n - 1, slug);
        forall i | 0 <= i < n && ParsedFrom(f, run, g, i, slug) ensures i == n - 1 {
        }
      }
    }
  }

  /** When every step has returned and none failed, the parsed map is the
      reference result of the group, in whatever order the steps returned. */
  lemma WaitMerges(f: Flow, run: Launcher, s: Exec)
    requires Inv(f, run, s) && DistinctInGroups(f) && Enabled(f, run, s, Wait) && !s.failed
    ensures s.parsed == Successes(f.groups[s.g], f.base, s.results, run, |f.groups[s.g]|)
  {
    var n := |f.groups[s.g]|;
    var m := Successes(f.groups[s.g], f.base, s.results, run, n);
    forall slug ensures slug in s.parsed <==> slug in m {
      SuccessesContents(f, run, s.g, n, slug);
    }
    forall slug | slug in m ensures s.parsed[slug] == m[slug] {
      SuccessesContents(f, run, s.g, n, slug);
      var i :| 0 <= i < n && ParsedFrom(f, run, s.g, i, slug);
      assert i in s.finished;
    }
  }

  lemma ReturnStep(f: Flow, run: Launcher, s: Exec, i: nat, out: Outcome)
    requires Inv(f, run, s) && DistinctInGroups(f) && Enabled(f, run, s, Return(i, out))
    ensures Inv(f, run, Next(f, run, s, Return(i, out)))
  {
    var t := Next(f, run, s, Return(i, out));
    if !t.failed {
      ReturnKeepsParsed(f, run, s, i, out);
    } else if !s.failed {
      assert OutcomeOf(f, run, s.g, i).Failed?;
    }
  }

  /** A group that was waited for without a failure has no failing step. */
  lemma WaitedGroupPassed(f: Flow, run: Launcher, s: Exec)
    requires Inv(f, run, s) && Enabled(f, run, s, Wait) && !s.failed
    ensures !GroupFails(f, run, s.g)
  {
    forall i | 0 <= i < |f.groups[s.g]| && !f.groups[s.g][i].optional ensures OutcomeOf(f, run, s.g, i).Done? {
      assert i in s.finished;
    }
  }

  lemma WaitStep(f: Flow, run: Launcher, s: Exec)
    requires Inv(f, run, s) && DistinctInGroups(f) && Enabled(f, run, s, Wait)
    ensures Inv(f, run, Next(f, run, s, Wait))
  {
    hide Prompt, Successes, Snapshot;
    if !s.failed {
      WaitMerges(f, run, s);
      WaitedGroupPassed(f, run, s);
      forall i | 0 <= i < |f.groups[s.g]| ensures (s.g, i) in s.received {
        assert i in s.started;
      }
    }
  }

  lemma StepKeepsInv(f: Flow, run: Launcher, s: Exec, a: Action)
    requires Inv(f, run, s) && DistinctInGroups(f) && Enabled(f, run, s, a)
    ensures Inv(f, run, Next(f, run, s, a))
  {
    match a
    case Begin =>
    case Launch(i) =>
    case Return(i, out) => ReturnStep(f, run, s, i, out);
    case Wait => WaitStep(f, run, s);
    case Cancel =>
  }

  lemma {:induction false} RunKeepsInv(f: Flow, run: Launcher, s: Exec, acts: seq<Action>)
    requires Inv(f, run, s) && DistinctInGroups(f) && CanRun(f, run, s, acts)
    ensures Inv(f, run, Run(f, run, s, acts))
    decreases |acts|
  {
    if acts != [] {
      StepKeepsInv(f, run, s, acts[0]);
      RunKeepsInv(f, run, Next(f, run, s, acts[0]), acts[1..]);
    }
  }

  /** Flow confluence: whatever the interleaving within groups, a run that gets
      through every group ends with the reference results, having given every
      step exactly its reference prompt. */
  lemma Confluence(f: Flow, run: Launcher, acts: seq<Action>)
    requires DistinctInGroups(f) && CanRun(f, run, START, acts)
    requires Run(f, run, START, acts).g == |f.groups|
    ensures Run(f, run, START, acts).results == ResultsAfter(f, run, |f.groups|)
    ensures forall g, i :: 0 <= g < |f.groups| && 0 <= i < |f.groups[g]| ==>
      (g, i) in Run(f, run, START, acts).received && Run(f, run, START, acts).received[(g, i)] == Prompt(f, run, g, i)
    ensures forall g, i :: (g, i) in Run(f, run, START, acts).received ==> 0 <= g < |f.groups| && 0 <= i < |f.groups[g]|
  {
    RunKeepsInv(f, run, START, acts);
  }

  /** A mandatory failure stops the flow: no run passes a failing group, and no
      step of any later group is ever launched. */
  lemma FailureStopsTheFlow(f: Flow, run: Launcher, acts: seq<Action>, g: nat)
    requires DistinctInGroups(f) && CanRun(f, run, START, acts)
    requires g < |f.groups| && GroupFails(f, run, g)
    ensures Run(f, run, START, acts).g <= g
    ensures forall h, i :: (h, i) in Run(f, run, START, acts).received ==> h <= g
  {
    RunKeepsInv(f, run, START, acts);
  }

  /** Until a flow stops or is through, some step of it can be taken. */
  lemma CanGoOn(f: Flow, run: Launcher, s: Exec) returns (a: Action)
    requires Inv(f, run, s) && !s.stopped && s.g < |f.groups|
    ensures a != Cancel && Enabled(f, run, s, a)
  {
    if !s.begun {
      a := Begin;
    } else if i: nat :| i < |f.groups[s.g]| && i !in s.started {
      a := Launch(i);
    } else if i: nat :| i < |f.groups[s.g]| && i !in s.finished {
      a := Return(i, run(f.groups[s.g][i].agentSlug, s.prompts[i]));
    } else {
      a := Wait;
    }
  }

  ghost predicate StoppedByFailure(f: Flow, s: Exec) {
    s.stopped ==> s.failed && s.begun && s.g < |f.groups|
  }

  lemma {:induction false} StopsByFailureOnly(f: Flow, run: Launcher, s: Exec, acts: seq<Action>)
    requires StoppedByFailure(f, s) && CanRun(f, run, s, acts) && Cancel !in acts
    ensures StoppedByFailure(f, Run(f, run, s, acts))
    decreases |acts|
  {
    if acts != [] {
      assert acts[0] != Cancel;
      StopsByFailureOnly(f, run, Next(f, run, s, acts[0]), acts[1..]);
    }
  }

  /** And nothing else does: a run that was not cancelled and has nothing left to do
      is through every group if no mandatory step fails, and otherwise stands
      stopped at the first group in which one does. */
  lemma OnlyFailureStops(f: Flow, run: Launcher, acts: seq<Action>)
    requires DistinctInGroups(f) && CanRun(f, run, START, acts) && Cancel !in acts
    requires forall a :: a != Cancel ==> !Enabled(f, run, Run(f, run, START, acts), a)
    ensures var s := Run(f, run, START, acts);
      && (s.g == |f.groups| <==> forall h :: 0 <= h < |f.groups| ==> !GroupFails(f, run, h))
      && (s.g < |f.groups| ==> s.stopped && GroupFails(f, run, s.g) && forall h :: 0 <= h < s.g ==> !GroupFails(f, run, h))
  {
    hide GroupFails;
    RunKeepsInv(f, run, START, acts);
    StopsByFailureOnly(f, run, START, acts);
    var s := Run(f, run, START, acts);
    if s.g < |f.groups| && !s.stopped {
      var a := CanGoOn(f, run, s);
      assert false;
    }
  }

  // ----- where a prompt comes from -----

  /** No slug occurs twice in the flow. */
  ghost predicate DistinctAcross(f: Flow) {
    forall g: nat, i: nat, h: nat, j: nat :: InFlow(f, g, i) && InFlow(f, h, j) && f.groups[g][i].agentSlug == f.groups[h][j].agentSlug ==> g == h && i == j
  }

  ghost predicate InFlow(f: Flow, g: nat, i: nat) {
    g < |f.groups| && i < |f.groups[g]|
  }

  lemma AcrossImpliesWithin(f: Flow)
    requires DistinctAcross(f)
    ensures DistinctInGroups(f)
  {
    forall g, i, j | 0 <= g < |f.groups| && 0 <= i < j < |f.groups[g]|
      ensures f.groups[g][i].agentSlug != f.groups[g][j].agentSlug
    {
      assert InFlow(f, g, i) && InFlow(f, g, j);
    }
  }

  /** The step (g, i) with this slug succeeded in one of the first k groups. */
  ghost predicate SucceededBefore(f: Flow, run: Launcher, k: nat, slug: string) {
    exists g, i :: 0 <= g < k && 0 <= i && ParsedFrom(f, run, g, i, slug)
  }

  lemma {:induction false} ResultsContents(f: Flow, run: Launcher, k: nat, slug: string)
    requires DistinctAcross(f) && k <= |f.groups|
    ensures slug in ResultsAfter(f, run, k) <==> SucceededBefore(f, run, k, slug)
    ensures forall g, i :: 0 <= g < k && 0 <= i && ParsedFrom(f, run, g, i, slug) ==>
      slug in ResultsAfter(f, run, k) && ResultsAfter(f, run, k)[slug] == OutcomeOf(f, run, g, i).v
    decreases k
  {
    if k > 0 {
      AcrossImpliesWithin(f);
      ResultsContents(f, run, k - 1, slug);
      var n := |f.groups[k - 1]|;
      SuccessesContents(f, run, k - 1, n, slug);
      forall g, i | 0 <= g < k && 0 <= i && ParsedFrom(f, run, g, i, slug)
        ensures slug in ResultsAfter(f, run, k) && ResultsAfter(f, run, k)[slug] == OutcomeOf(f, run, g, i).v
      {
        assert InFlow(f, g, i);
        var prev := k - 1;
        forall j | 0 <= j < n ensures g < prev ==> !ParsedFrom(f, run, prev, j, slug) {
          assert InFlow(f, prev, j);
        }
      }
    }
  }

  /** A step sees the printed result of its InputFrom step exactly when that step
      succeeded in an earlier group; a sibling, a later step, a failed step or an
      unknown slug leaves the base prompt. */
  lemma PromptComesFromEarlierGroup(f: Flow, run: Launcher, k: nat, j: nat)
    requires DistinctAcross(f) && InFlow(f, k, j)
    ensures
      var from := f.groups[k][j].inputFrom;
      && (from == "" || !SucceededBefore(f, run, k, from) ==> Prompt(f, run, k, j) == f.base)
      && (forall g, i :: 0 <= g < k && 0 <= i && from != "" && ParsedFrom(f, run, g, i, from) ==>
           Prompt(f, run, k, j) == Sprint(OutcomeOf(f, run, g, i).v))
  {
    ResultsContents(f, run, k, f.groups[k][j].inputFrom);
  }

  /** Why slugs must be distinct: two steps of one group with the same slug and
      different results leave the result of whichever returned last. */
  lemma DuplicateSlugsRace(f: Flow, run: Launcher, s: Exec, i: nat, oi: Outcome, j: nat, oj: Outcome)
    requires i != j && Enabled(f, run, s, Return(i, oi)) && Enabled(f, run, s, Return(j, oj))
    requires f.groups[s.g][i].agentSlug == f.groups[s.g][j].agentSlug
    requires oi.Done? && oj.Done? && oi.v != oj.v
    ensures Next(f, run, Next(f, run, s, Return(i, oi)), Return(j, oj)).parsed
         != Next(f, run, Next(f, run, s, Return(j, oj)), Return(i, oi)).parsed
  {
    var slug := f.groups[s.g][i].agentSlug;
    assert Next(f, run, Next(f, run, s, Return(i, oi)), Return(j, oj)).parsed[slug] == oj.v;
    assert Next(f, run, Next(f, run, s, Return(j, oj)), Return(i, oi)).parsed[slug] == oi.v;
  }

  // ----- the engine -----

  function Indices(n: nat): (r: set<nat>)
    ensures forall i :: i in r <==> 0 <= i < n
  {
    if n == 0 then {} else Indices(n - 1) + {n - 1}
  }

  lemma GroupOutcome(f: Flow, run: Launcher, s: Exec)
    requires Inv(f, run, s) && DistinctInGroups(f) && Enabled(f, run, s, Wait)
    ensures s.failed <==> GroupFails(f, run, s.g)
    ensures !s.failed ==> s.parsed == Successes(f.groups[s.g], f.base, s.results, run, |f.groups[s.g]|)
  {
    hide Successes, GroupFails, ParsedIs;
    if !s.failed {
      WaitMerges(f, run, s);
      WaitedGroupPassed(f, run, s);
    }
  }

  /** One step of the group launched and returned. */
  lemma LaunchAndReturn(f: Flow, run: Launcher, s: Exec, i: nat)
    requires Inv(f, run, s) && DistinctInGroups(f) && s.begun && !s.stopped && s.g < |f.groups|
    requires i < |f.groups[s.g]| == |s.prompts| && i !in s.started && i !in s.finished
    ensures Enabled(f, run, s, Launch(i))
    ensures
      var mid := Next(f, run, s, Launch(i));
      var out := run(f.groups[s.g][i].agentSlug, s.prompts[i]);
      Enabled(f, run, mid, Return(i, out)) &&
      var t := Next(f, run, mid, Return(i, out));
      && Inv(f, run, t) && t.begun && !t.stopped && t.g == s.g && t.results == s.results && t.prompts == s.prompts
      && t.started == s.started + {i} && t.finished == s.finished + {i}
      && t.failed == (s.failed || (out.Failed? && !f.groups[s.g][i].optional))
      && t.parsed == if out.Done? then s.parsed[f.groups[s.g][i].agentSlug := out.v] else s.parsed
  {
    hide Inv;
    StepKeepsInv(f, run, s, Launch(i));
    var mid := Next(f, run, s, Launch(i));
    StepKeepsInv(f, run, mid, Return(i, run(f.groups[s.g][i].agentSlug, s.prompts[i])));
  }

  /** Runs one group, its steps returning in any order: it fails exactly when a
      mandatory step fails, and otherwise has parsed what the reference parses. */
  method ExecuteGroup(f: Flow, run: Launcher, g: nat, results: Results, ghost s0: Exec)
    returns (failed: bool, parsed: Results, ghost s: Exec)
    requires Inv(f, run, s0) && DistinctInGroups(f) && Enabled(f, run, s0, Begin)
    requires s0.results == results && s0.g == g < |f.groups|
    ensures Inv(f, run, s) && Enabled(f, run, s, Wait)
    ensures s.g == s0.g && s.results == s0.results && s.failed == failed && s.parsed == parsed
    ensures failed <==> GroupFails(f, run, g)
    ensures !failed ==> parsed == Successes(f.groups[g], f.base, results, run, |f.groups[g]|)
  {
    s := Next(f, run, s0, Begin);
    StepKeepsInv(f, run, s0, Begin);
    hide Successes, Inv, GroupFails, Next;
    var group := f.groups[g];
    var prompts := Snapshot(group, f.base, results);
    failed, parsed := false, map[];
    var pending := Indices(|group|);
    while pending != {}
      invariant Inv(f, run, s) && s.begun && !s.stopped
      invariant s.g == s0.g && s.results == results && s.failed == failed && s.parsed == parsed && s.prompts == prompts
      invariant forall i :: 0 <= i < |group| ==> (i in pending <==> i !in s.started) && (i in pending <==> i !in s.finished)
      invariant forall i :: i in pending ==> 0 <= i < |group|
      decreases pending
    {
      var i :| i in pending;
      pending := pending - {i};
      var out := run(group[i].agentSlug, prompts[i]);
      LaunchAndReturn(f, run, s, i);
      s := Next(f, run, Next(f, run, s, Launch(i)), Return(i, out));
      if out.Failed? {
        if !group[i].optional {
          failed := true;
        }
      } else {
        parsed := parsed[group[i].agentSlug := out.v];
      }
    }
    GroupOutcome(f, run, s);
  }

  /** Walks the groups; stops with an error at the first one a mandatory step of
      which fails, else returns the reference results. */
  method ExecuteGroups(f: Flow, run: Launcher) returns (err: bool, results: Results, last: nat)
    requires DistinctInGroups(f)
    ensures !err ==> last == |f.groups| && results == ResultsAfter(f, run, |f.groups|)
    ensures err ==> last < |f.groups| && GroupFails(f, run, last)
    ensures forall g :: 0 <= g < last ==> !GroupFails(f, run, g)
  {
    err, results, last := false, map[], 0;
    ghost var s := START;
    while last < |f.groups|
      invariant 0 <= last <= |f.groups|
      invariant Inv(f, run, s) && !s.begun && !s.stopped && s.g == last && s.results == results
    {
      var failed, parsed;
      failed, parsed, s := ExecuteGroup(f, run, last, results, s);
      if failed {
        err := true;
        return;
      }
      StepKeepsInv(f, run, s, Wait);
      s := Next(f, run, s, Wait);
      results := results + parsed;
      last := last + 1;
    }
  }

  lemma MembersAreDistinct(steps: seq<Step>, groups: seq<seq<Step>>, base: string)
    requires DistinctSlugs(steps) && Renders(steps, Components(steps), groups)
    ensures DistinctAcross(Flow(groups, base))
  {
    var f := Flow(groups, base);
    var cs := Components(steps);
    GroupsAreComponents(steps);
    forall g: nat, i: nat, h: nat, j: nat | InFlow(f, g, i) && InFlow(f, h, j) && groups[g][i].agentSlug == groups[h][j].agentSlug
      ensures g == h && i == j
    {
      assert groups[g][i] == steps[cs[g][i]] && groups[h][j] == steps[cs[h][j]];
      assert cs[g][i] == cs[h][j];
      assert InGroup(cs, g, cs[g][i]) && InGroup(cs, h, cs[h][j]);
      assert StrictlyAscending(cs[g]);
    }
  }

  method Execute(steps: seq<Step>, base: string, run: Launcher) returns (err: bool, results: Results, groups: seq<seq<Step>>)
    requires DistinctSlugs(steps)
    ensures Renders(steps, Components(steps), groups)
    ensures !err ==> results == ResultsAfter(Flow(groups, base), run, |groups|)
    ensures err <==> exists g :: 0 <= g < |groups| && GroupFails(Flow(groups, base), run, g)
  {
    groups := BuildParallelGroups(steps);
    MembersAreDistinct(steps, groups, base);
    AcrossImpliesWithin(Flow(groups, base));
    var last;
    err, results, last := ExecuteGroups(Flow(groups, base), run);
  }
}
