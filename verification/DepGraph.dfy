/** Building the unified spec and task graph (internal/graph/graph.go). */
module DepGraph {
  import opened Common
  import opened GraphTypes
  import opened CriticalPath

  datatype SpecStatus = Vague | Drafted | Validated | Testing | Complete | Stale | Archived

  datatype Spec = Spec(title: string, status: SpecStatus, dependsOn: seq<string>, dispatchedTaskId: Option<string>, doc: bool)

  datatype SpecEntry = SpecEntry(path: string, spec: Option<Spec>, children: seq<string>, isLeaf: bool, depth: int)

  datatype TaskStatus = Backlog | Done | OtherStatus(name: string)

  datatype Task = Task(id: string, title: string, status: TaskStatus, archived: bool, dependsOn: seq<string>)

  datatype Graph = Graph(nodes: seq<Node>, edges: seq<Edge>, blocked: seq<string>)

  function SpecId(path: string): string { "spec:" + path }

  function TaskId(id: string): string { "task:" + id }

  /** The two id spaces are disjoint and each prefix is injective. */
  lemma IdSpaces(a: string, b: string)
    ensures SpecId(a) != TaskId(b) && SpecId(a) != "" && TaskId(a) != ""
    ensures SpecId(a) == SpecId(b) ==> a == b
    ensures TaskId(a) == TaskId(b) ==> a == b
  {
    assert SpecId(a)[0] == 's' && TaskId(b)[0] == 't';
    assert SpecId(a)[5..] == a && SpecId(b)[5..] == b;
    assert TaskId(a)[5..] == a && TaskId(b)[5..] == b;
  }

  // ----- what one spec or task contributes -----

  /** The lifecycle edges the inline verbs are checked against (internal/spec/lifecycle.go). */
  predicate CanTransition(from: SpecStatus, to: SpecStatus) {
    match from
    case Vague => to in {Drafted, Archived}
    case Drafted => to in {Validated, Stale, Archived}
    case Validated => to in {Testing, Stale}
    case Testing => to in {Complete, Stale, Archived}
    case Complete => to in {Stale, Archived}
    case Stale => to in {Drafted, Validated, Archived}
    case Archived => to in {Drafted}
  }

  function SpecActions(s: Spec, isLeaf: bool): seq<string> {
    match s.status
    case Drafted => if CanTransition(s.status, Validated) then ["validate"] else []
    case Validated => if s.dispatchedTaskId.Some? then ["undispatch"] else if isLeaf then ["dispatch"] else []
    case Testing => if CanTransition(s.status, Complete) then ["force-complete"] else []
    case Stale => if CanTransition(s.status, Validated) || CanTransition(s.status, Drafted) then ["unstale"] else []
    case Archived => if CanTransition(s.status, Drafted) then ["unarchive"] else []
    case _ => []
  }

  function StatusName(s: SpecStatus): string {
    match s
    case Vague => "vague" case Drafted => "drafted" case Validated => "validated" case Testing => "testing"
    case Complete => "complete" case Stale => "stale" case Archived => "archived"
  }

  function TaskStatusName(s: TaskStatus): string {
    match s case Backlog => "backlog" case Done => "done" case OtherStatus(n) => n
  }

  function TaskTitle(t: Task): string {
    if t.title != "" then t.title else if |t.id| >= 8 then t.id[..8] else t.id
  }

  /** A spec renders unless it is a free-form doc or hidden as archived. */
  predicate ShowsSpec(n: SpecEntry, includeArchived: bool) {
    n.spec.Some? && !n.spec.value.doc && (n.spec.value.status != Archived || includeArchived)
  }

  predicate ShowsTask(t: Task, includeArchived: bool) {
    !t.archived || includeArchived
  }

  function SpecNodeOf(n: SpecEntry): Node
    requires n.spec.Some?
  {
    Node(SpecId(n.path), NodeSpec, if n.spec.value.title != "" then n.spec.value.title else n.path,
         StatusName(n.spec.value.status), n.path, n.depth, SpecActions(n.spec.value, n.isLeaf))
  }

  /** Readiness over the full task set: the first task with the id decides. */
  function TaskDone(tasks: seq<Task>, id: string): bool {
    if tasks == [] then false
    else if tasks[0].id == id then tasks[0].status == Done
    else TaskDone(tasks[1..], id)
  }

  predicate BlockedBy(tasks: seq<Task>, deps: seq<string>) {
    exists k :: 0 <= k < |deps| && !TaskDone(tasks, deps[k])
  }

  predicate IsBlocked(tasks: seq<Task>, t: Task) {
    t.status == Backlog && BlockedBy(tasks, t.dependsOn)
  }

  function TaskNodeOf(tasks: seq<Task>, t: Task): Node {
    Node(TaskId(t.id), NodeTask, TaskTitle(t), TaskStatusName(t.status), t.id, 0,
         if t.status == Backlog && !BlockedBy(tasks, t.dependsOn) then ["start"] else [])
  }

  function ChildEdges(id: string, children: seq<string>, specs: set<string>): seq<Edge>
    decreases |children|
  {
    if children == [] then [] else
      var c := children[|children| - 1];
      ChildEdges(id, children[..|children| - 1], specs) + (if c in specs then [Edge(id, SpecId(c), Containment)] else [])
  }

  function SpecDepEdges(id: string, deps: seq<string>, specs: set<string>): seq<Edge>
    decreases |deps|
  {
    if deps == [] then [] else
      var d := deps[|deps| - 1];
      SpecDepEdges(id, deps[..|deps| - 1], specs) + (if d in specs then [Edge(SpecId(d), id, SpecDep)] else [])
  }

  function DispatchEdges(id: string, task: Option<string>, tasks: set<string>): seq<Edge> {
    if task.Some? && task.value in tasks then [Edge(id, TaskId(task.value), Dispatch)] else []
  }

  function TaskDepEdges(id: string, deps: seq<string>, tasks: set<string>): seq<Edge>
    decreases |deps|
  {
    if deps == [] then [] else
      var d := deps[|deps| - 1];
      TaskDepEdges(id, deps[..|deps| - 1], tasks) + (if d in tasks then [Edge(TaskId(d), id, TaskDep)] else [])
  }

  function SpecEdgesOf(n: SpecEntry, specs: set<string>, tasks: set<string>): seq<Edge>
    requires n.spec.Some?
  {
    ChildEdges(SpecId(n.path), n.children, specs)
    + SpecDepEdges(SpecId(n.path), n.spec.value.dependsOn, specs)
    + DispatchEdges(SpecId(n.path), n.spec.value.dispatchedTaskId, tasks)
  }

  // ----- the whole graph -----

  function ShownSpecs(specs: seq<SpecEntry>, inc: bool): set<string>
    decreases |specs|
  {
    if specs == [] then {} else
      var n := specs[|specs| - 1];
      ShownSpecs(specs[..|specs| - 1], inc) + (if ShowsSpec(n, inc) then {n.path} else {})
  }

  function ShownTasks(tasks: seq<Task>, inc: bool): set<string>
    decreases |tasks|
  {
    if tasks == [] then {} else
      var t := tasks[|tasks| - 1];
      ShownTasks(tasks[..|tasks| - 1], inc) + (if ShowsTask(t, inc) then {t.id} else {})
  }

  function SpecNodes(specs: seq<SpecEntry>, inc: bool): seq<Node>
    decreases |specs|
  {
    if specs == [] then [] else
      var n := specs[|specs| - 1];
      SpecNodes(specs[..|specs| - 1], inc) + (if ShowsSpec(n, inc) then [SpecNodeOf(n)] else [])
  }

  function SpecEdges(specs: seq<SpecEntry>, inc: bool, sp: set<string>, tk: set<string>): seq<Edge>
    decreases |specs|
  {
    if specs == [] then [] else
      var n := specs[|specs| - 1];
      SpecEdges(specs[..|specs| - 1], inc, sp, tk) + (if ShowsSpec(n, inc) then SpecEdgesOf(n, sp, tk) else [])
  }

  function TaskNodes(all: seq<Task>, tasks: seq<Task>, inc: bool): seq<Node>
    decreases |tasks|
  {
    if tasks == [] then [] else
      var t := tasks[|tasks| - 1];
      TaskNodes(all, tasks[..|tasks| - 1], inc) + (if ShowsTask(t, inc) then [TaskNodeOf(all, t)] else [])
  }

  function TaskEdges(tasks: seq<Task>, inc: bool, tk: set<string>): seq<Edge>
    decreases |tasks|
  {
    if tasks == [] then [] else
      var t := tasks[|tasks| - 1];
      TaskEdges(tasks[..|tasks| - 1], inc, tk) + (if ShowsTask(t, inc) then TaskDepEdges(TaskId(t.id), t.dependsOn, tk) else [])
  }

  function BlockedIds(all: seq<Task>, tasks: seq<Task>, inc: bool): seq<string>
    decreases |tasks|
  {
    if tasks == [] then [] else
      var t := tasks[|tasks| - 1];
      BlockedIds(all, tasks[..|tasks| - 1], inc) + (if ShowsTask(t, inc) && IsBlocked(all, t) then [TaskId(t.id)] else [])
  }

  function GraphOf(specs: seq<SpecEntry>, tasks: seq<Task>, inc: bool): Graph {
    var sp := ShownSpecs(specs, inc);
    var tk := ShownTasks(tasks, inc);
    Graph(SpecNodes(specs, inc) + TaskNodes(tasks, tasks, inc),
          SpecEdges(specs, inc, sp, tk) + TaskEdges(tasks, inc, tk),
          BlockedIds(tasks, tasks, inc))
  }

  // ----- the builder -----

  method EmitSpecEdges(n: SpecEntry, specs: set<string>, tasks: set<string>) returns (edges: seq<Edge>)
    requires n.spec.Some?
    ensures edges == SpecEdgesOf(n, specs, tasks)
  {
    var id := SpecId(n.path);
    var s := n.spec.value;
    edges := [];
    var i := 0;
    while i < |n.children|
      invariant 0 <= i <= |n.children|
      invariant edges == ChildEdges(id, n.children[..i], specs)
    {
      if n.children[i] in specs {
        edges := edges + [Edge(id, SpecId(n.children[i]), Containment)];
      }
      i := i + 1;
      assert n.children[..i][..i - 1] == n.children[..i - 1];
    }
    assert n.children[..i] == n.children;
    ghost var kids := edges;
    i := 0;
    while i < |s.dependsOn|
      invariant 0 <= i <= |s.dependsOn|
      invariant edges == kids + SpecDepEdges(id, s.dependsOn[..i], specs)
    {
      if s.dependsOn[i] in specs {
        edges := edges + [Edge(SpecId(s.dependsOn[i]), id, SpecDep)];
      }
      i := i + 1;
      assert s.dependsOn[..i][..i - 1] == s.dependsOn[..i - 1];
    }
    assert s.dependsOn[..i] == s.dependsOn;
    if s.dispatchedTaskId.Some? && s.dispatchedTaskId.value in tasks {
      edges := edges + [Edge(id, TaskId(s.dispatchedTaskId.value), Dispatch)];
    }
  }

  /** One pass over the prerequisites of a task: its edges and whether any is unmet. */
  method EmitTaskEdges(all: seq<Task>, t: Task, tasks: set<string>) returns (edges: seq<Edge>, blocked: bool)
    ensures edges == TaskDepEdges(TaskId(t.id), t.dependsOn, tasks)
    ensures blocked <==> BlockedBy(all, t.dependsOn)
  {
    edges, blocked := [], false;
    var i := 0;
    while i < |t.dependsOn|
      invariant 0 <= i <= |t.dependsOn|
      invariant edges == TaskDepEdges(TaskId(t.id), t.dependsOn[..i], tasks)
      invariant blocked <==> exists k :: 0 <= k < i && !TaskDone(all, t.dependsOn[k])
    {
      if !TaskDone(all, t.dependsOn[i]) {
        blocked := true;
      }
      if t.dependsOn[i] in tasks {
        edges := edges + [Edge(TaskId(t.dependsOn[i]), TaskId(t.id), TaskDep)];
      }
      i := i + 1;
      assert t.dependsOn[..i][..i - 1] == t.dependsOn[..i - 1];
    }
    assert t.dependsOn[..i] == t.dependsOn;
  }

  method EmitTask(all: seq<Task>, t: Task, tasks: set<string>) returns (node: Node, edges: seq<Edge>, blocked: bool)
    ensures node == TaskNodeOf(all, t) && edges == TaskDepEdges(TaskId(t.id), t.dependsOn, tasks)
    ensures blocked <==> IsBlocked(all, t)
  {
    var unmet;
    edges, unmet := EmitTaskEdges(all, t, tasks);
    blocked := t.status == Backlog && unmet;
    var actions := [];
    if t.status == Backlog && !unmet {
      actions := ["start"];
    }
    node := Node(TaskId(t.id), NodeTask, TaskTitle(t), TaskStatusName(t.status), t.id, 0, actions);
  }

  method CollectShown(specs: seq<SpecEntry>, tasks: seq<Task>, inc: bool) returns (sp: set<string>, tk: set<string>)
    ensures sp == ShownSpecs(specs, inc) && tk == ShownTasks(tasks, inc)
  {
    tk := {};
    var i := 0;
    while i < |tasks|
      invariant 0 <= i <= |tasks| && tk == ShownTasks(tasks[..i], inc)
    {
      if !(tasks[i].archived && !inc) {
        tk := tk + {tasks[i].id};
      }
      i := i + 1;
      assert tasks[..i][..i - 1] == tasks[..i - 1];
    }
    assert tasks[..i] == tasks;
    sp := {};
    i := 0;
    while i < |specs|
      invariant 0 <= i <= |specs| && sp == ShownSpecs(specs[..i], inc)
    {
      if ShowsSpec(specs[i], inc) {
        sp := sp + {specs[i].path};
      }
      i := i + 1;
      assert specs[..i][..i - 1] == specs[..i - 1];
    }
    assert specs[..i] == specs;
  }

  method BuildSpecs(specs: seq<SpecEntry>, inc: bool, sp: set<string>, tk: set<string>)
    returns (nodes: seq<Node>, edges: seq<Edge>)
    ensures nodes == SpecNodes(specs, inc) && edges == SpecEdges(specs, inc, sp, tk)
  {
    nodes, edges := [], [];
    var i := 0;
    while i < |specs|
      invariant 0 <= i <= |specs|
      invariant nodes == SpecNodes(specs[..i], inc) && edges == SpecEdges(specs[..i], inc, sp, tk)
    {
      if ShowsSpec(specs[i], inc) {
        nodes := nodes + [SpecNodeOf(specs[i])];
        var more := EmitSpecEdges(specs[i], sp, tk);
        edges := edges + more;
      }
      i := i + 1;
      assert specs[..i][..i - 1] == specs[..i - 1];
    }
    assert specs[..i] == specs;
  }

  method BuildTasks(tasks: seq<Task>, inc: bool, tk: set<string>)
    returns (nodes: seq<Node>, edges: seq<Edge>, blocked: seq<string>)
    ensures nodes == TaskNodes(tasks, tasks, inc) && edges == TaskEdges(tasks, inc, tk)
    ensures blocked == BlockedIds(tasks, tasks, inc)
  {
    nodes, edges, blocked := [], [], [];
    var i := 0;
    while i < |tasks|
      invariant 0 <= i <= |tasks|
      invariant nodes == TaskNodes(tasks, tasks[..i], inc) && edges == TaskEdges(tasks[..i], inc, tk)
      invariant blocked == BlockedIds(tasks, tasks[..i], inc)
    {
      if ShowsTask(tasks[i], inc) {
        var node, more, isBlocked := EmitTask(tasks, tasks[i], tk);
        edges := edges + more;
        if isBlocked {
          blocked := blocked + [TaskId(tasks[i].id)];
        }
        nodes := nodes + [node];
      }
      i := i + 1;
      assert tasks[..i][..i - 1] == tasks[..i - 1];
    }
    assert tasks[..i] == tasks;
  }

  method BuildGraph(specs: seq<SpecEntry>, tasks: seq<Task>, inc: bool) returns (g: Graph)
    ensures g == GraphOf(specs, tasks, inc)
  {
    var sp, tk := CollectShown(specs, tasks, inc);
    var specNodes, specEdges := BuildSpecs(specs, inc, sp, tk);
    var taskNodes, taskEdges, blocked := BuildTasks(tasks, inc, tk);
    g := Graph(specNodes + taskNodes, specEdges + taskEdges, blocked);
  }
}
