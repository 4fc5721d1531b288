/** What the builder's graph promises: exactly the declared edges between what is
    displayed, no dangling edge, and no cycle that was not in the input. */
module GraphLaws {
  import opened Common
  import opened GraphTypes
  import opened CriticalPath
  import opened DepGraph

  // ----- which edges are emitted -----

  lemma {:induction false} ChildEdgesAre(id: string, children: seq<string>, sp: set<string>, e: Edge)
    ensures e in ChildEdges(id, children, sp) <==>
      exists c :: c in children && c in sp && e == Edge(id, SpecId(c), Containment)
    decreases |children|
  {
    if children != [] {
      ChildEdgesAre(id, children[..|children| - 1], sp, e);
      assert children == children[..|children| - 1] + [children[|children| - 1]];
    }
  }

  lemma {:induction false} SpecDepEdgesAre(id: string, deps: seq<string>, sp: set<string>, e: Edge)
    ensures e in SpecDepEdges(id, deps, sp) <==>
      exists d :: d in deps && d in sp && e == Edge(SpecId(d), id, SpecDep)
    decreases |deps|
  {
    if deps != [] {
      SpecDepEdgesAre(id, deps[..|deps| - 1], sp, e);
      assert deps == deps[..|deps| - 1] + [deps[|deps| - 1]];
    }
  }

  lemma {:induction false} TaskDepEdgesAre(id: string, deps: seq<string>, tk: set<string>, e: Edge)
    ensures e in TaskDepEdges(id, deps, tk) <==>
      exists d :: d in deps && d in tk && e == Edge(TaskId(d), id, TaskDep)
    decreases |deps|
  {
    if deps != [] {
      TaskDepEdgesAre(id, deps[..|deps| - 1], tk, e);
      assert deps == deps[..|deps| - 1] + [deps[|deps| - 1]];
    }
  }

  ghost predicate FromSpec(specs: seq<SpecEntry>, inc: bool, sp: set<string>, tk: set<string>, e: Edge, k: nat) {
    k < |specs| && ShowsSpec(specs[k], inc) && e in SpecEdgesOf(specs[k], sp, tk)
  }

  lemma {:induction false} SpecEdgesAre(specs: seq<SpecEntry>, inc: bool, sp: set<string>, tk: set<string>, e: Edge)
    ensures e in SpecEdges(specs, inc, sp, tk) <==> exists k :: FromSpec(specs, inc, sp, tk, e, k)
    decreases |specs|
  {
    hide SpecEdgesOf;
    if specs != [] {
      var last := |specs| - 1;
      var front := specs[..last];
      SpecEdgesAre(front, inc, sp, tk, e);
      if k: nat :| FromSpec(front, inc, sp, tk, e, k) {
        assert FromSpec(specs, inc, sp, tk, e, k);
      }
      if k: nat :| FromSpec(specs, inc, sp, tk, e, k) {
        assert k < last ==> FromSpec(front, inc, sp, tk, e, k);
      }
      assert ShowsSpec(specs[last], inc) && e in SpecEdgesOf(specs[last], sp, tk) ==> FromSpec(specs, inc, sp, tk, e, last);
    }
  }

  ghost predicate FromTask(tasks: seq<Task>, inc: bool, tk: set<string>, e: Edge, k: nat) {
    k < |tasks| && ShowsTask(tasks[k], inc) && e in TaskDepEdges(TaskId(tasks[k].id), tasks[k].dependsOn, tk)
  }

  lemma {:induction false} TaskEdgesAre(tasks: seq<Task>, inc: bool, tk: set<string>, e: Edge)
    ensures e in TaskEdges(tasks, inc, tk) <==> exists k :: FromTask(tasks, inc, tk, e, k)
    decreases |tasks|
  {
    if tasks != [] {
      var last := |tasks| - 1;
      var front := tasks[..last];
      TaskEdgesAre(front, inc, tk, e);
      if k: nat :| FromTask(front, inc, tk, e, k) {
        assert FromTask(tasks, inc, tk, e, k);
      }
      if k: nat :| FromTask(tasks, inc, tk, e, k) {
        assert k < last ==> FromTask(front, inc, tk, e, k);
      }
      assert ShowsTask(tasks[last], inc) && e in TaskDepEdges(TaskId(tasks[last].id), tasks[last].dependsOn, tk) ==>
        FromTask(tasks, inc, tk, e, last);
    }
  }

  // ----- in terms of the input -----

  /** Displayed spec k of the input declares child c, dependency a, or task t. */
  ghost predicate DeclaresChild(specs: seq<SpecEntry>, inc: bool, a: string, c: string) {
    c in ShownSpecs(specs, inc) &&
    exists k :: 0 <= k < |specs| && ShowsSpec(specs[k], inc) && specs[k].path == a && c in specs[k].children
  }

  ghost predicate DeclaresSpecDep(specs: seq<SpecEntry>, inc: bool, a: string, b: string) {
    a in ShownSpecs(specs, inc) &&
    exists k :: 0 <= k < |specs| && ShowsSpec(specs[k], inc) && specs[k].path == b && a in specs[k].spec.value.dependsOn
  }

  ghost predicate DeclaresDispatch(specs: seq<SpecEntry>, tasks: seq<Task>, inc: bool, a: string, t: string) {
    t in ShownTasks(tasks, inc) &&
    exists k :: 0 <= k < |specs| && ShowsSpec(specs[k], inc) && specs[k].path == a && specs[k].spec.value.dispatchedTaskId == Some(t)
  }

  ghost predicate DeclaresTaskDep(tasks: seq<Task>, inc: bool, a: string, b: string) {
    a in ShownTasks(tasks, inc) &&
    exists k :: 0 <= k < |tasks| && ShowsTask(tasks[k], inc) && tasks[k].id == b && a in tasks[k].dependsOn
  }

  /** The edge the input declares between displayed specs and tasks. */
  ghost predicate Declared(specs: seq<SpecEntry>, tasks: seq<Task>, inc: bool, e: Edge) {
    match e.kind
    case Containment => exists a, c :: e.from == SpecId(a) && e.to == SpecId(c) && DeclaresChild(specs, inc, a, c)
    case SpecDep => exists a, b :: e.from == SpecId(a) && e.to == SpecId(b) && DeclaresSpecDep(specs, inc, a, b)
    case Dispatch => exists a, t :: e.from == SpecId(a) && e.to == TaskId(t) && DeclaresDispatch(specs, tasks, inc, a, t)
    case TaskDep => exists a, b :: e.from == TaskId(a) && e.to == TaskId(b) && DeclaresTaskDep(tasks, inc, a, b)
  }

  lemma SpecEdgeIsDeclared(specs: seq<SpecEntry>, tasks: seq<Task>, inc: bool, e: Edge, k: nat)
    requires FromSpec(specs, inc, ShownSpecs(specs, inc), ShownTasks(tasks, inc), e, k)
    ensures Declared(specs, tasks, inc, e) && e.kind != TaskDep
  {
    var n := specs[k];
    var sp := ShownSpecs(specs, inc);
    ChildEdgesAre(SpecId(n.path), n.children, sp, e);
    SpecDepEdgesAre(SpecId(n.path), n.spec.value.dependsOn, sp, e);
    if c :| c in n.children && c in sp && e == Edge(SpecId(n.path), SpecId(c), Containment) {
      assert DeclaresChild(specs, inc, n.path, c);
    } else if d :| d in n.spec.value.dependsOn && d in sp && e == Edge(SpecId(d), SpecId(n.path), SpecDep) {
      assert DeclaresSpecDep(specs, inc, d, n.path);
    } else {
      assert DeclaresDispatch(specs, tasks, inc, n.path, n.spec.value.dispatchedTaskId.value);
    }
  }

  lemma TaskEdgeIsDeclared(specs: seq<SpecEntry>, tasks: seq<Task>, inc: bool, e: Edge, k: nat)
    requires FromTask(tasks, inc, ShownTasks(tasks, inc), e, k)
    ensures Declared(specs, tasks, inc, e) && e.kind == TaskDep
  {
    var t := tasks[k];
    TaskDepEdgesAre(TaskId(t.id), t.dependsOn, ShownTasks(tasks, inc), e);
    var d :| d in t.dependsOn && d in ShownTasks(tasks, inc) && e == Edge(TaskId(d), TaskId(t.id), TaskDep);
    assert DeclaresTaskDep(tasks, inc, d, t.id);
  }

  lemma DeclaredSpecEdgeIsEmitted(specs: seq<SpecEntry>, tasks: seq<Task>, inc: bool, e: Edge)
    requires Declared(specs, tasks, inc, e) && e.kind != TaskDep
    ensures exists k :: FromSpec(specs, inc, ShownSpecs(specs, inc), ShownTasks(tasks, inc), e, k)
  {
    var sp := ShownSpecs(specs, inc);
    var tk := ShownTasks(tasks, inc);
    match e.kind
    case Containment =>
      var a, c :| e.from == SpecId(a) && e.to == SpecId(c) && DeclaresChild(specs, inc, a, c);
      var k :| 0 <= k < |specs| && ShowsSpec(specs[k], inc) && specs[k].path == a && c in specs[k].children;
      ChildEdgesAre(SpecId(a), specs[k].children, sp, e);
      assert FromSpec(specs, inc, sp, tk, e, k);
    case SpecDep =>
      var a, b :| e.from == SpecId(a) && e.to == SpecId(b) && DeclaresSpecDep(specs, inc, a, b);
      var k :| 0 <= k < |specs| && ShowsSpec(specs[k], inc) && specs[k].path == b && a in specs[k].spec.value.dependsOn;
      SpecDepEdgesAre(SpecId(b), specs[k].spec.value.dependsOn, sp, e);
      assert FromSpec(specs, inc, sp, tk, e, k);
    case Dispatch =>
      var a, t :| e.from == SpecId(a) && e.to == TaskId(t) && DeclaresDispatch(specs, tasks, inc, a, t);
      var k :| 0 <= k < |specs| && ShowsSpec(specs[k], inc) && specs[k].path == a && specs[k].spec.value.dispatchedTaskId == Some(t);
      assert e == Edge(SpecId(a), TaskId(t), Dispatch);
      assert FromSpec(specs, inc, sp, tk, e, k);
  }

  lemma DeclaredTaskEdgeIsEmitted(specs: seq<SpecEntry>, tasks: seq<Task>, inc: bool, e: Edge)
    requires Declared(specs, tasks, inc, e) && e.kind == TaskDep
    ensures exists k :: FromTask(tasks, inc, ShownTasks(tasks, inc), e, k)
  {
    var a, b :| e.from == TaskId(a) && e.to == TaskId(b) && DeclaresTaskDep(tasks, inc, a, b);
    var k :| 0 <= k < |tasks| && ShowsTask(tasks[k], inc) && tasks[k].id == b && a in tasks[k].dependsOn;
    TaskDepEdgesAre(TaskId(b), tasks[k].dependsOn, ShownTasks(tasks, inc), e);
    assert FromTask(tasks, inc, ShownTasks(tasks, inc), e, k);
  }

  /** The emitted edges are exactly the declared ones whose two ends are displayed. */
  lemma EdgesAreDeclared(specs: seq<SpecEntry>, tasks: seq<Task>, inc: bool, e: Edge)
    ensures e in GraphOf(specs, tasks, inc).edges <==> Declared(specs, tasks, inc, e)
  {
    var sp := ShownSpecs(specs, inc);
    var tk := ShownTasks(tasks, inc);
    SpecEdgesAre(specs, inc, sp, tk, e);
    TaskEdgesAre(tasks, inc, tk, e);
    if k: nat :| FromSpec(specs, inc, sp, tk, e, k) {
      SpecEdgeIsDeclared(specs, tasks, inc, e, k);
    } else if k: nat :| FromTask(tasks, inc, tk, e, k) {
      TaskEdgeIsDeclared(specs, tasks, inc, e, k);
    } else if Declared(specs, tasks, inc, e) {
      if e.kind == TaskDep {
        DeclaredTaskEdgeIsEmitted(specs, tasks, inc, e);
      } else {
        DeclaredSpecEdgeIsEmitted(specs, tasks, inc, e);
      }
    }
  }

  // ----- no dangling edge -----

  lemma {:induction false} ShownSpecsAre(specs: seq<SpecEntry>, inc: bool, path: string)
    ensures path in ShownSpecs(specs, inc) <==> exists k :: 0 <= k < |specs| && ShowsSpec(specs[k], inc) && specs[k].path == path
    decreases |specs|
  {
    if specs != [] {
      ShownSpecsAre(specs[..|specs| - 1], inc, path);
      assert forall k :: 0 <= k < |specs| - 1 ==> specs[..|specs| - 1][k] == specs[k];
    }
  }

  lemma {:induction false} ShownTasksAre(tasks: seq<Task>, inc: bool, id: string)
    ensures id in ShownTasks(tasks, inc) <==> exists k :: 0 <= k < |tasks| && ShowsTask(tasks[k], inc) && tasks[k].id == id
    decreases |tasks|
  {
    if tasks != [] {
      ShownTasksAre(tasks[..|tasks| - 1], inc, id);
      assert forall k :: 0 <= k < |tasks| - 1 ==> tasks[..|tasks| - 1][k] == tasks[k];
    }
  }

  /** The id of a displayed spec or task. */
  ghost predicate Named(specs: seq<SpecEntry>, tasks: seq<Task>, inc: bool, id: string) {
    || (exists k :: 0 <= k < |specs| && ShowsSpec(specs[k], inc) && SpecId(specs[k].path) == id)
    || (exists k :: 0 <= k < |tasks| && ShowsTask(tasks[k], inc) && TaskId(tasks[k].id) == id)
  }

  lemma PresentSingle(n: Node, id: string)
    ensures Present([n], id) <==> n.id == id
  {
    assert [n][0] == n;
  }

  lemma PresentAppend(a: seq<Node>, b: seq<Node>, id: string)
    ensures Present(a + b, id) <==> Present(a, id) || Present(b, id)
  {
    if Present(b, id) {
      var k :| 0 <= k < |b| && b[k].id == id;
      assert (a + b)[|a| + k].id == id;
    }
    if Present(a, id) {
      var k :| 0 <= k < |a| && a[k].id == id;
      assert (a + b)[k].id == id;
    }
  }

  lemma {:induction false} SpecNodesPresent(specs: seq<SpecEntry>, inc: bool, id: string)
    ensures Present(SpecNodes(specs, inc), id) <==>
      exists k :: 0 <= k < |specs| && ShowsSpec(specs[k], inc) && SpecId(specs[k].path) == id
    decreases |specs|
  {
    if specs != [] {
      var front := specs[..|specs| - 1];
      SpecNodesPresent(front, inc, id);
      assert forall k :: 0 <= k < |front| ==> front[k] == specs[k];
      var n := specs[|specs| - 1];
      if ShowsSpec(n, inc) {
        PresentAppend(SpecNodes(front, inc), [SpecNodeOf(n)], id);
        PresentSingle(SpecNodeOf(n), id);
      } else {
        assert SpecNodes(specs, inc) == SpecNodes(front, inc);
      }
    }
  }

  lemma {:induction false} TaskNodesPresent(all: seq<Task>, tasks: seq<Task>, inc: bool, id: string)
    ensures Present(TaskNodes(all, tasks, inc), id) <==>
      exists k :: 0 <= k < |tasks| && ShowsTask(tasks[k], inc) && TaskId(tasks[k].id) == id
    decreases |tasks|
  {
    if tasks != [] {
      var front := tasks[..|tasks| - 1];
      TaskNodesPresent(all, front, inc, id);
      assert forall k :: 0 <= k < |front| ==> front[k] == tasks[k];
      var t := tasks[|tasks| - 1];
      if ShowsTask(t, inc) {
        PresentAppend(TaskNodes(all, front, inc), [TaskNodeOf(all, t)], id);
        PresentSingle(TaskNodeOf(all, t), id);
      } else {
        assert TaskNodes(all, tasks, inc) == TaskNodes(all, front, inc);
      }
    }
  }

  /** The emitted nodes are exactly the displayed specs and tasks. */
  lemma NodesAreNamed(specs: seq<SpecEntry>, tasks: seq<Task>, inc: bool, id: string)
    ensures Present(GraphOf(specs, tasks, inc).nodes, id) <==> Named(specs, tasks, inc, id)
  {
    SpecNodesPresent(specs, inc, id);
    TaskNodesPresent(tasks, tasks, inc, id);
    PresentAppend(SpecNodes(specs, inc), TaskNodes(tasks, tasks, inc), id);
  }

  lemma DeclaredEndsAreNamed(specs: seq<SpecEntry>, tasks: seq<Task>, inc: bool, e: Edge)
    requires Declared(specs, tasks, inc, e)
    ensures Named(specs, tasks, inc, e.from) && Named(specs, tasks, inc, e.to)
  {
    match e.kind
    case Containment =>
      var a, c :| e.from == SpecId(a) && e.to == SpecId(c) && DeclaresChild(specs, inc, a, c);
      ShownSpecsAre(specs, inc, c);
    case SpecDep =>
      var a, b :| e.from == SpecId(a) && e.to == SpecId(b) && DeclaresSpecDep(specs, inc, a, b);
      ShownSpecsAre(specs, inc, a);
    case Dispatch =>
      var a, t :| e.from == SpecId(a) && e.to == TaskId(t) && DeclaresDispatch(specs, tasks, inc, a, t);
      ShownTasksAre(tasks, inc, t);
    case TaskDep =>
      var a, b :| e.from == TaskId(a) && e.to == TaskId(b) && DeclaresTaskDep(tasks, inc, a, b);
      ShownTasksAre(tasks, inc, a);
  }

  /** Graph soundness: every emitted edge joins two emitted nodes. */
  lemma EdgesJoinNodes(specs: seq<SpecEntry>, tasks: seq<Task>, inc: bool, e: Edge)
    requires e in GraphOf(specs, tasks, inc).edges
    ensures
      var g := GraphOf(specs, tasks, inc);
      Present(g.nodes, e.from) && Present(g.nodes, e.to)
  {
    EdgesAreDeclared(specs, tasks, inc, e);
    DeclaredEndsAreNamed(specs, tasks, inc, e);
    NodesAreNamed(specs, tasks, inc, e.from);
    NodesAreNamed(specs, tasks, inc, e.to);
  }

  // ----- no new cycle -----

  ghost predicate SpecDepAt(specs: seq<SpecEntry>, inc: bool, p: seq<string>, k: nat)
    requires k + 1 < |p|
  {
    DeclaresSpecDep(specs, inc, p[k], p[k + 1])
  }

  ghost predicate TaskDepAt(tasks: seq<Task>, inc: bool, p: seq<string>, k: nat)
    requires k + 1 < |p|
  {
    DeclaresTaskDep(tasks, inc, p[k], p[k + 1])
  }

  ghost predicate Returns(p: seq<string>) {
    p != [] && p[0] == p[|p| - 1]
  }

  ghost predicate SpecChain(specs: seq<SpecEntry>, inc: bool, p: seq<string>) {
    |p| >= 2 && forall k :: 0 <= k < |p| - 1 ==> SpecDepAt(specs, inc, p, k)
  }

  ghost predicate TaskChain(tasks: seq<Task>, inc: bool, p: seq<string>) {
    |p| >= 2 && forall k :: 0 <= k < |p| - 1 ==> TaskDepAt(tasks, inc, p, k)
  }

  /** No displayed spec depends on itself through declared spec dependencies. */
  ghost predicate SpecsAcyclic(specs: seq<SpecEntry>, inc: bool) {
    forall p :: SpecChain(specs, inc, p) ==> !Returns(p)
  }

  ghost predicate TasksAcyclic(tasks: seq<Task>, inc: bool) {
    forall p :: TaskChain(tasks, inc, p) ==> !Returns(p)
  }

  ghost predicate IsSpecId(id: string) {
    |id| >= 5 && id == SpecId(id[5..])
  }

  ghost predicate IsTaskId(id: string) {
    |id| >= 5 && id == TaskId(id[5..])
  }

  /** One hop: never from a task to a spec; within a kind it is an input edge. */
  lemma HopKinds(specs: seq<SpecEntry>, tasks: seq<Task>, inc: bool, a: string, b: string)
    requires var g := GraphOf(specs, tasks, inc); Depends(g.nodes, g.edges, a, b)
    ensures (IsSpecId(a) && IsSpecId(b) && DeclaresSpecDep(specs, inc, a[5..], b[5..]))
         || (IsSpecId(a) && IsTaskId(b))
         || (IsTaskId(a) && IsTaskId(b) && DeclaresTaskDep(tasks, inc, a[5..], b[5..]))
  {
    var g := GraphOf(specs, tasks, inc);
    var k :| 0 <= k < |g.edges| && g.edges[k].kind != Containment && g.edges[k].from == a && g.edges[k].to == b;
    EdgesAreDeclared(specs, tasks, inc, g.edges[k]);
    match g.edges[k].kind
    case SpecDep =>
      var x, y :| a == SpecId(x) && b == SpecId(y) && DeclaresSpecDep(specs, inc, x, y);
      assert a[5..] == x && b[5..] == y;
    case Dispatch =>
      var x, y :| a == SpecId(x) && b == TaskId(y) && DeclaresDispatch(specs, tasks, inc, x, y);
      assert a[5..] == x && b[5..] == y;
    case TaskDep =>
      var x, y :| a == TaskId(x) && b == TaskId(y) && DeclaresTaskDep(tasks, inc, x, y);
      assert a[5..] == x && b[5..] == y;
  }

  lemma SpecIsNotTask(id: string)
    ensures !(IsSpecId(id) && IsTaskId(id))
  {
    if IsSpecId(id) {
      IdSpaces(id[5..], if |id| >= 5 then id[5..] else "");
    }
  }

  /** Once a chain is among tasks it stays there. */
  lemma {:induction false} TasksStayTasks(specs: seq<SpecEntry>, tasks: seq<Task>, inc: bool, p: seq<string>, i: nat, j: nat)
    requires var g := GraphOf(specs, tasks, inc); DependencyChain(g.nodes, g.edges, p)
    requires i <= j < |p| && IsTaskId(p[i])
    ensures IsTaskId(p[j])
    decreases j - i
  {
    if i < j {
      TasksStayTasks(specs, tasks, inc, p, i, j - 1);
      var g := GraphOf(specs, tasks, inc);
      assert DependsAt(g.nodes, g.edges, p, j - 1);
      HopKinds(specs, tasks, inc, p[j - 1], p[j]);
      SpecIsNotTask(p[j - 1]);
    }
  }

  function Stripped(p: seq<string>): (r: seq<string>)
    requires forall k :: 0 <= k < |p| ==> |p[k]| >= 5
    ensures |r| == |p| && forall k :: 0 <= k < |p| ==> r[k] == p[k][5..]
  {
    seq(|p|, k requires 0 <= k < |p| => p[k][5..])
  }

  ghost predicate SpecHop(specs: seq<SpecEntry>, inc: bool, p: seq<string>, k: nat)
    requires k + 1 < |p|
  {
    IsSpecId(p[k]) && IsSpecId(p[k + 1]) && DeclaresSpecDep(specs, inc, p[k][5..], p[k + 1][5..])
  }

  ghost predicate TaskHop(tasks: seq<Task>, inc: bool, p: seq<string>, k: nat)
    requires k + 1 < |p|
  {
    IsTaskId(p[k]) && IsTaskId(p[k + 1]) && DeclaresTaskDep(tasks, inc, p[k][5..], p[k + 1][5..])
  }

  lemma SpecCycleInInput(specs: seq<SpecEntry>, tasks: seq<Task>, inc: bool, p: seq<string>)
    requires var g := GraphOf(specs, tasks, inc); DependencyChain(g.nodes, g.edges, p)
    requires |p| >= 2 && p[0] == p[|p| - 1] && IsSpecId(p[0])
    ensures !SpecsAcyclic(specs, inc)
  {
    var g := GraphOf(specs, tasks, inc);
    forall k | 0 <= k < |p| - 1 ensures SpecHop(specs, inc, p, k) {
      assert DependsAt(g.nodes, g.edges, p, k);
      HopKinds(specs, tasks, inc, p[k], p[k + 1]);
      SpecIsNotTask(p[|p| - 1]);
      if IsTaskId(p[k]) {
        TasksStayTasks(specs, tasks, inc, p, k, |p| - 1);
      }
      if IsTaskId(p[k + 1]) {
        TasksStayTasks(specs, tasks, inc, p, k + 1, |p| - 1);
      }
    }
    forall k | 0 <= k < |p| ensures |p[k]| >= 5 {
      assert k < |p| - 1 ==> SpecHop(specs, inc, p, k);
    }
    var q := Stripped(p);
    forall k | 0 <= k < |q| - 1 ensures SpecDepAt(specs, inc, q, k) {
      assert SpecHop(specs, inc, p, k);
    }
    assert q[0] == q[|q| - 1];
    assert SpecChain(specs, inc, q);
  }

  lemma TaskCycleInInput(specs: seq<SpecEntry>, tasks: seq<Task>, inc: bool, p: seq<string>)
    requires var g := GraphOf(specs, tasks, inc); DependencyChain(g.nodes, g.edges, p)
    requires |p| >= 2 && p[0] == p[|p| - 1] && IsTaskId(p[0])
    ensures !TasksAcyclic(tasks, inc)
  {
    var g := GraphOf(specs, tasks, inc);
    forall k | 0 <= k < |p| - 1 ensures TaskHop(tasks, inc, p, k) {
      TasksStayTasks(specs, tasks, inc, p, 0, k);
      assert DependsAt(g.nodes, g.edges, p, k);
      HopKinds(specs, tasks, inc, p[k], p[k + 1]);
      SpecIsNotTask(p[k]);
    }
    forall k | 0 <= k < |p| ensures |p[k]| >= 5 {
      assert k < |p| - 1 ==> TaskHop(tasks, inc, p, k);
    }
    var q := Stripped(p);
    forall k | 0 <= k < |q| - 1 ensures TaskDepAt(tasks, inc, q, k) {
      assert TaskHop(tasks, inc, p, k);
    }
    assert q[0] == q[|q| - 1];
    assert TaskChain(tasks, inc, q);
  }

  /** The combined dependency graph is acyclic whenever the displayed specs'
      dependencies and the displayed tasks' dependencies each are. */
  lemma CombinedIsAcyclic(specs: seq<SpecEntry>, tasks: seq<Task>, inc: bool)
    requires SpecsAcyclic(specs, inc) && TasksAcyclic(tasks, inc)
    ensures var g := GraphOf(specs, tasks, inc); NoDependencyCycle(g.nodes, g.edges)
  {
    var g := GraphOf(specs, tasks, inc);
    forall p | DependencyChain(g.nodes, g.edges, p) && |p| >= 2 ensures p[0] != p[|p| - 1] {
      if p[0] == p[|p| - 1] {
        assert DependsAt(g.nodes, g.edges, p, 0);
        HopKinds(specs, tasks, inc, p[0], p[1]);
        if IsSpecId(p[0]) {
          SpecCycleInInput(specs, tasks, inc, p);
        } else {
          TaskCycleInInput(specs, tasks, inc, p);
        }
      }
    }
  }

  // ----- the converse: nothing declared is dropped -----

  lemma SpecDepIsDependency(specs: seq<SpecEntry>, tasks: seq<Task>, inc: bool, a: string, b: string)
    requires DeclaresSpecDep(specs, inc, a, b)
    ensures var g := GraphOf(specs, tasks, inc); Depends(g.nodes, g.edges, SpecId(a), SpecId(b))
  {
    var e := Edge(SpecId(a), SpecId(b), SpecDep);
    assert Declared(specs, tasks, inc, e);
    EdgesAreDeclared(specs, tasks, inc, e);
    EdgesJoinNodes(specs, tasks, inc, e);
  }

  lemma TaskDepIsDependency(specs: seq<SpecEntry>, tasks: seq<Task>, inc: bool, a: string, b: string)
    requires DeclaresTaskDep(tasks, inc, a, b)
    ensures var g := GraphOf(specs, tasks, inc); Depends(g.nodes, g.edges, TaskId(a), TaskId(b))
  {
    var e := Edge(TaskId(a), TaskId(b), TaskDep);
    assert Declared(specs, tasks, inc, e);
    EdgesAreDeclared(specs, tasks, inc, e);
    EdgesJoinNodes(specs, tasks, inc, e);
  }

  function SpecIds(p: seq<string>): (r: seq<string>)
    ensures |r| == |p| && forall k :: 0 <= k < |p| ==> r[k] == SpecId(p[k])
  {
    seq(|p|, k requires 0 <= k < |p| => SpecId(p[k]))
  }

  function TaskIds(p: seq<string>): (r: seq<string>)
    ensures |r| == |p| && forall k :: 0 <= k < |p| ==> r[k] == TaskId(p[k])
  {
    seq(|p|, k requires 0 <= k < |p| => TaskId(p[k]))
  }

  lemma SpecCycleIsEmitted(specs: seq<SpecEntry>, tasks: seq<Task>, inc: bool, p: seq<string>)
    requires SpecChain(specs, inc, p)
    ensures var g := GraphOf(specs, tasks, inc); DependencyChain(g.nodes, g.edges, SpecIds(p))
    ensures |p| >= 2
  {
    hide GraphOf;
    var g := GraphOf(specs, tasks, inc);
    var q := SpecIds(p);
    forall k | 0 <= k < |q| - 1 ensures DependsAt(g.nodes, g.edges, q, k) {
      assert SpecDepAt(specs, inc, p, k);
      SpecDepIsDependency(specs, tasks, inc, p[k], p[k + 1]);
    }
  }

  lemma TaskCycleIsEmitted(specs: seq<SpecEntry>, tasks: seq<Task>, inc: bool, p: seq<string>)
    requires TaskChain(tasks, inc, p)
    ensures var g := GraphOf(specs, tasks, inc); DependencyChain(g.nodes, g.edges, TaskIds(p))
    ensures |p| >= 2
  {
    hide GraphOf;
    var g := GraphOf(specs, tasks, inc);
    var q := TaskIds(p);
    forall k | 0 <= k < |q| - 1 ensures DependsAt(g.nodes, g.edges, q, k) {
      assert TaskDepAt(tasks, inc, p, k);
      TaskDepIsDependency(specs, tasks, inc, p[k], p[k + 1]);
    }
  }

  lemma NoSpecCycle(specs: seq<SpecEntry>, tasks: seq<Task>, inc: bool, p: seq<string>)
    requires var g := GraphOf(specs, tasks, inc); NoDependencyCycle(g.nodes, g.edges)
    requires SpecChain(specs, inc, p)
    ensures !Returns(p)
  {
    hide GraphOf, DependencyChain, DeclaresSpecDep;
    SpecCycleIsEmitted(specs, tasks, inc, p);
    var q := SpecIds(p);
    assert q[0] != q[|q| - 1];
  }

  lemma NoTaskCycle(specs: seq<SpecEntry>, tasks: seq<Task>, inc: bool, p: seq<string>)
    requires var g := GraphOf(specs, tasks, inc); NoDependencyCycle(g.nodes, g.edges)
    requires TaskChain(tasks, inc, p)
    ensures !Returns(p)
  {
    hide GraphOf, DependencyChain, DeclaresTaskDep;
    TaskCycleIsEmitted(specs, tasks, inc, p);
    var q := TaskIds(p);
    assert q[0] != q[|q| - 1];
  }

  /** The combined dependency graph is acyclic exactly when the displayed specs'
      dependencies and the displayed tasks' dependencies each are. */
  lemma AcyclicExactlyWhenBothAre(specs: seq<SpecEntry>, tasks: seq<Task>, inc: bool)
    ensures var g := GraphOf(specs, tasks, inc);
      NoDependencyCycle(g.nodes, g.edges) <==> SpecsAcyclic(specs, inc) && TasksAcyclic(tasks, inc)
  {
    hide GraphOf, SpecChain, TaskChain, Returns, NoDependencyCycle;
    var g := GraphOf(specs, tasks, inc);
    if SpecsAcyclic(specs, inc) && TasksAcyclic(tasks, inc) {
      CombinedIsAcyclic(specs, tasks, inc);
    } else if NoDependencyCycle(g.nodes, g.edges) {
      forall p | SpecChain(specs, inc, p) ensures !Returns(p) {
        NoSpecCycle(specs, tasks, inc, p);
      }
      forall p | TaskChain(tasks, inc, p) ensures !Returns(p) {
        NoTaskCycle(specs, tasks, inc, p);
      }
    }
  }

  lemma NodesHaveNames(specs: seq<SpecEntry>, tasks: seq<Task>, inc: bool, k: nat)
    requires k < |GraphOf(specs, tasks, inc).nodes|
    ensures GraphOf(specs, tasks, inc).nodes[k].id != ""
  {
    var g := GraphOf(specs, tasks, inc);
    assert Present(g.nodes, g.nodes[k].id);
    NodesAreNamed(specs, tasks, inc, g.nodes[k].id);
  }

  /** The whole build: on dependencies without cycles the graph comes with a
      longest chain. */
  method Build(specs: seq<SpecEntry>, tasks: seq<Task>, inc: bool) returns (g: Graph, path: seq<string>)
    requires SpecsAcyclic(specs, inc) && TasksAcyclic(tasks, inc)
    ensures g == GraphOf(specs, tasks, inc)
    ensures path == [] <==> forall a, b :: !Depends(g.nodes, g.edges, a, b)
    ensures path != [] ==> |path| >= 2 && DependencyChain(g.nodes, g.edges, path) && NoRepeats(path)
    ensures path != [] ==> forall p :: DependencyChain(g.nodes, g.edges, p) ==> |p| <= |path|
  {
    g := BuildGraph(specs, tasks, inc);
    CombinedIsAcyclic(specs, tasks, inc);
    forall k | 0 <= k < |g.nodes| ensures g.nodes[k].id != "" {
      NodesHaveNames(specs, tasks, inc, k);
    }
    path := Longest(g.nodes, g.edges);
  }
}
