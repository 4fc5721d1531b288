/** The default view (archived hidden) against the full view of the same input. */
module ArchivedView {
  import opened Common
  import opened GraphTypes
  import opened DepGraph

  ghost predicate UniquePaths(specs: seq<SpecEntry>) {
    forall i, j :: 0 <= i < j < |specs| ==> specs[i].path != specs[j].path
  }

  ghost predicate UniqueTaskIds(tasks: seq<Task>) {
    forall i, j :: 0 <= i < j < |tasks| ==> tasks[i].id != tasks[j].id
  }

  /** The ids the default view displays. */
  ghost function DisplayedIds(specs: seq<SpecEntry>, tasks: seq<Task>): set<string> {
    (set p | p in ShownSpecs(specs, false) :: SpecId(p)) + (set t | t in ShownTasks(tasks, false) :: TaskId(t))
  }

  lemma SpecDisplayed(specs: seq<SpecEntry>, tasks: seq<Task>, p: string)
    ensures SpecId(p) in DisplayedIds(specs, tasks) <==> p in ShownSpecs(specs, false)
  {
    forall q | q in ShownSpecs(specs, false) {
      IdSpaces(p, q);
    }
    forall t | t in ShownTasks(tasks, false) {
      IdSpaces(p, t);
    }
  }

  lemma TaskDisplayed(specs: seq<SpecEntry>, tasks: seq<Task>, t: string)
    ensures TaskId(t) in DisplayedIds(specs, tasks) <==> t in ShownTasks(tasks, false)
  {
    forall u | u in ShownTasks(tasks, false) {
      IdSpaces(t, u);
    }
    forall q | q in ShownSpecs(specs, false) {
      IdSpaces(q, t);
    }
  }

  // ----- restriction -----

  ghost function KeepNodes(nodes: seq<Node>, ids: set<string>): seq<Node>
    decreases |nodes|
  {
    if nodes == [] then [] else
      var n := nodes[|nodes| - 1];
      KeepNodes(nodes[..|nodes| - 1], ids) + (if n.id in ids then [n] else [])
  }

  ghost function KeepEdges(edges: seq<Edge>, ids: set<string>): seq<Edge>
    decreases |edges|
  {
    if edges == [] then [] else
      var e := edges[|edges| - 1];
      KeepEdges(edges[..|edges| - 1], ids) + (if e.from in ids && e.to in ids then [e] else [])
  }

  ghost function KeepIds(s: seq<string>, ids: set<string>): seq<string>
    decreases |s|
  {
    if s == [] then [] else
      KeepIds(s[..|s| - 1], ids) + (if s[|s| - 1] in ids then [s[|s| - 1]] else [])
  }

  lemma {:induction false} KeepNodesAppend(a: seq<Node>, b: seq<Node>, ids: set<string>)
    ensures KeepNodes(a + b, ids) == KeepNodes(a, ids) + KeepNodes(b, ids)
    decreases |b|
  {
    if b == [] {
      assert a + b == a;
    } else {
      KeepNodesAppend(a, b[..|b| - 1], ids);
      assert (a + b)[..|a + b| - 1] == a + b[..|b| - 1];
    }
  }

  lemma {:induction false} KeepEdgesAppend(a: seq<Edge>, b: seq<Edge>, ids: set<string>)
    ensures KeepEdges(a + b, ids) == KeepEdges(a, ids) + KeepEdges(b, ids)
    decreases |b|
  {
    if b == [] {
      assert a + b == a;
    } else {
      KeepEdgesAppend(a, b[..|b| - 1], ids);
      assert (a + b)[..|a + b| - 1] == a + b[..|b| - 1];
    }
  }

  // ----- members of the input -----

  lemma {:induction false} ShownSpecHere(specs: seq<SpecEntry>, k: nat)
    requires UniquePaths(specs) && k < |specs|
    ensures specs[k].path in ShownSpecs(specs, false) <==> ShowsSpec(specs[k], false)
    decreases |specs|
  {
    var front := specs[..|specs| - 1];
    if k < |front| {
      ShownSpecHere(front, k);
    } else {
      PathNotEarlier(front, specs[k].path);
    }
  }

  lemma {:induction false} PathNotEarlier(specs: seq<SpecEntry>, path: string)
    requires forall k :: 0 <= k < |specs| ==> specs[k].path != path
    ensures path !in ShownSpecs(specs, false)
    decreases |specs|
  {
    if specs != [] {
      PathNotEarlier(specs[..|specs| - 1], path);
    }
  }

  lemma {:induction false} ShownTaskHere(tasks: seq<Task>, k: nat)
    requires UniqueTaskIds(tasks) && k < |tasks|
    ensures tasks[k].id in ShownTasks(tasks, false) <==> ShowsTask(tasks[k], false)
    decreases |tasks|
  {
    var front := tasks[..|tasks| - 1];
    if k < |front| {
      ShownTaskHere(front, k);
    } else {
      IdNotEarlier(front, tasks[k].id);
    }
  }

  lemma {:induction false} IdNotEarlier(tasks: seq<Task>, id: string)
    requires forall k :: 0 <= k < |tasks| ==> tasks[k].id != id
    ensures id !in ShownTasks(tasks, false)
    decreases |tasks|
  {
    if tasks != [] {
      IdNotEarlier(tasks[..|tasks| - 1], id);
    }
  }

  lemma {:induction false} MoreSpecsShown(specs: seq<SpecEntry>)
    ensures ShownSpecs(specs, false) <= ShownSpecs(specs, true)
    decreases |specs|
  {
    if specs != [] {
      MoreSpecsShown(specs[..|specs| - 1]);
    }
  }

  lemma {:induction false} MoreTasksShown(tasks: seq<Task>)
    ensures ShownTasks(tasks, false) <= ShownTasks(tasks, true)
    decreases |tasks|
  {
    if tasks != [] {
      MoreTasksShown(tasks[..|tasks| - 1]);
    }
  }

  // ----- nodes -----

  lemma SpecNodesNext(specs: seq<SpecEntry>, n: nat, inc: bool)
    requires 0 < n <= |specs|
    ensures SpecNodes(specs[..n], inc) ==
      SpecNodes(specs[..n - 1], inc) + (if ShowsSpec(specs[n - 1], inc) then [SpecNodeOf(specs[n - 1])] else [])
  {
    hide SpecNodeOf, ShowsSpec;
    assert specs[..n][..n - 1] == specs[..n - 1];
  }

  lemma KeepOneNode(n: Node, ids: set<string>)
    ensures KeepNodes([n], ids) == if n.id in ids then [n] else []
  {
    assert [n][..0] == [];
  }

  /** The id of a shown spec is its path's, and it is displayed when the default view
      shows it. */
  lemma SpecNodeKept(specs: seq<SpecEntry>, tasks: seq<Task>, k: nat)
    requires UniquePaths(specs) && k < |specs|
    ensures ShowsSpec(specs[k], false) ==> ShowsSpec(specs[k], true)
    ensures ShowsSpec(specs[k], true) ==> specs[k].spec.Some?
    ensures ShowsSpec(specs[k], true) ==> (SpecNodeOf(specs[k]).id in DisplayedIds(specs, tasks) <==> ShowsSpec(specs[k], false))
  {
    hide DisplayedIds, ShownSpecs;
    ShownSpecHere(specs, k);
    SpecDisplayed(specs, tasks, specs[k].path);
  }

  lemma {:induction false} SpecNodesRestrict(specs: seq<SpecEntry>, tasks: seq<Task>, n: nat)
    requires UniquePaths(specs) && n <= |specs|
    ensures KeepNodes(SpecNodes(specs[..n], true), DisplayedIds(specs, tasks)) == SpecNodes(specs[..n], false)
  {
    hide SpecNodeOf, ShowsSpec, DisplayedIds, KeepNodes, UniquePaths;
    var ids := DisplayedIds(specs, tasks);
    if n == 0 {
      NoNodesKept(ids);
      assert specs[..0] == [];
    } else {
      hide SpecNodes;
      SpecNodesRestrict(specs, tasks, n - 1);
      SpecNodesNext(specs, n, true);
      SpecNodesNext(specs, n, false);
      SpecNodeKept(specs, tasks, n - 1);
      var more := SpecNodes(specs[..n - 1], true);
      if ShowsSpec(specs[n - 1], true) {
        var node := SpecNodeOf(specs[n - 1]);
        KeepNodesAppend(more, [node], ids);
        KeepOneNode(node, ids);
        assert SpecNodes(specs[..n], true) == more + [node];
      } else {
        assert SpecNodes(specs[..n], true) == more + [] == more;
      }
    }
  }

  lemma NoNodesKept(ids: set<string>)
    ensures KeepNodes([], ids) == []
  {
  }

  lemma {:induction false} TaskNodesRestrict(specs: seq<SpecEntry>, tasks: seq<Task>, n: nat)
    requires UniqueTaskIds(tasks) && n <= |tasks|
    ensures KeepNodes(TaskNodes(tasks, tasks[..n], true), DisplayedIds(specs, tasks)) == TaskNodes(tasks, tasks[..n], false)
  {
    if n > 0 {
      TaskNodesRestrict(specs, tasks, n - 1);
      assert tasks[..n][..n - 1] == tasks[..n - 1];
      ShownTaskHere(tasks, n - 1);
      TaskDisplayed(specs, tasks, tasks[n - 1].id);
      assert TaskNodes(tasks, tasks[..n], true)[..|TaskNodes(tasks, tasks[..n - 1], true)|] == TaskNodes(tasks, tasks[..n - 1], true);
    }
  }

  lemma {:induction false} BlockedRestrict(specs: seq<SpecEntry>, tasks: seq<Task>, n: nat)
    requires UniqueTaskIds(tasks) && n <= |tasks|
    ensures KeepIds(BlockedIds(tasks, tasks[..n], true), DisplayedIds(specs, tasks)) == BlockedIds(tasks, tasks[..n], false)
  {
    if n > 0 {
      BlockedRestrict(specs, tasks, n - 1);
      assert tasks[..n][..n - 1] == tasks[..n - 1];
      ShownTaskHere(tasks, n - 1);
      TaskDisplayed(specs, tasks, tasks[n - 1].id);
      if IsBlocked(tasks, tasks[n - 1]) {
        assert BlockedIds(tasks, tasks[..n], true)[..|BlockedIds(tasks, tasks[..n - 1], true)|] == BlockedIds(tasks, tasks[..n - 1], true);
      } else {
        assert BlockedIds(tasks, tasks[..n], true) == BlockedIds(tasks, tasks[..n - 1], true);
      }
    }
  }

  // ----- edges -----

  /** Restricting the edges of one entry to displayed ids: nothing if the entry
      itself is hidden, else its edges against the smaller display sets. */
  lemma {:induction false} ChildEdgesRestrict(specs: seq<SpecEntry>, tasks: seq<Task>, path: string, children: seq<string>)
    ensures
      KeepEdges(ChildEdges(SpecId(path), children, ShownSpecs(specs, true)), DisplayedIds(specs, tasks)) ==
        if path in ShownSpecs(specs, false) then ChildEdges(SpecId(path), children, ShownSpecs(specs, false)) else []
    decreases |children|
  {
    if children != [] {
      var c := children[|children| - 1];
      var front := ChildEdges(SpecId(path), children[..|children| - 1], ShownSpecs(specs, true));
      ChildEdgesRestrict(specs, tasks, path, children[..|children| - 1]);
      SpecDisplayed(specs, tasks, path);
      SpecDisplayed(specs, tasks, c);
      MoreSpecsShown(specs);
      KeepEdgesAppend(front, if c in ShownSpecs(specs, true) then [Edge(SpecId(path), SpecId(c), Containment)] else [], DisplayedIds(specs, tasks));
    }
  }

  lemma {:induction false} SpecDepEdgesRestrict(specs: seq<SpecEntry>, tasks: seq<Task>, path: string, deps: seq<string>)
    ensures
      KeepEdges(SpecDepEdges(SpecId(path), deps, ShownSpecs(specs, true)), DisplayedIds(specs, tasks)) ==
        if path in ShownSpecs(specs, false) then SpecDepEdges(SpecId(path), deps, ShownSpecs(specs, false)) else []
    decreases |deps|
  {
    if deps != [] {
      var d := deps[|deps| - 1];
      var front := SpecDepEdges(SpecId(path), deps[..|deps| - 1], ShownSpecs(specs, true));
      SpecDepEdgesRestrict(specs, tasks, path, deps[..|deps| - 1]);
      SpecDisplayed(specs, tasks, path);
      SpecDisplayed(specs, tasks, d);
      MoreSpecsShown(specs);
      KeepEdgesAppend(front, if d in ShownSpecs(specs, true) then [Edge(SpecId(d), SpecId(path), SpecDep)] else [], DisplayedIds(specs, tasks));
    }
  }

  lemma {:induction false} TaskDepEdgesRestrict(specs: seq<SpecEntry>, tasks: seq<Task>, id: string, deps: seq<string>)
    ensures
      KeepEdges(TaskDepEdges(TaskId(id), deps, ShownTasks(tasks, true)), DisplayedIds(specs, tasks)) ==
        if id in ShownTasks(tasks, false) then TaskDepEdges(TaskId(id), deps, ShownTasks(tasks, false)) else []
    decreases |deps|
  {
    if deps != [] {
      var d := deps[|deps| - 1];
      var front := TaskDepEdges(TaskId(id), deps[..|deps| - 1], ShownTasks(tasks, true));
      TaskDepEdgesRestrict(specs, tasks, id, deps[..|deps| - 1]);
      TaskDisplayed(specs, tasks, id);
      TaskDisplayed(specs, tasks, d);
      MoreTasksShown(tasks);
      KeepEdgesAppend(front, if d in ShownTasks(tasks, true) then [Edge(TaskId(d), TaskId(id), TaskDep)] else [], DisplayedIds(specs, tasks));
    }
  }

  lemma DispatchEdgesRestrict(specs: seq<SpecEntry>, tasks: seq<Task>, path: string, task: Option<string>)
    ensures
      KeepEdges(DispatchEdges(SpecId(path), task, ShownTasks(tasks, true)), DisplayedIds(specs, tasks)) ==
        if path in ShownSpecs(specs, false) then DispatchEdges(SpecId(path), task, ShownTasks(tasks, false)) else []
  {
    SpecDisplayed(specs, tasks, path);
    MoreTasksShown(tasks);
    if task.Some? {
      TaskDisplayed(specs, tasks, task.value);
      if task.value in ShownTasks(tasks, true) {
        var e := Edge(SpecId(path), TaskId(task.value), Dispatch);
        assert [e][..0] == [];
      }
    }
  }

  lemma OneSpecRestricts(specs: seq<SpecEntry>, tasks: seq<Task>, n: SpecEntry)
    requires n.spec.Some?
    ensures
      KeepEdges(SpecEdgesOf(n, ShownSpecs(specs, true), ShownTasks(tasks, true)), DisplayedIds(specs, tasks)) ==
        if n.path in ShownSpecs(specs, false) then SpecEdgesOf(n, ShownSpecs(specs, false), ShownTasks(tasks, false)) else []
  {
    var ids := DisplayedIds(specs, tasks);
    var a := ChildEdges(SpecId(n.path), n.children, ShownSpecs(specs, true));
    var b := SpecDepEdges(SpecId(n.path), n.spec.value.dependsOn, ShownSpecs(specs, true));
    var c := DispatchEdges(SpecId(n.path), n.spec.value.dispatchedTaskId, ShownTasks(tasks, true));
    KeepEdgesAppend(a + b, c, ids);
    KeepEdgesAppend(a, b, ids);
    ChildEdgesRestrict(specs, tasks, n.path, n.children);
    SpecDepEdgesRestrict(specs, tasks, n.path, n.spec.value.dependsOn);
    DispatchEdgesRestrict(specs, tasks, n.path, n.spec.value.dispatchedTaskId);
  }

  lemma {:induction false} SpecEdgesRestrict(specs: seq<SpecEntry>, tasks: seq<Task>, n: nat)
    requires UniquePaths(specs) && n <= |specs|
    ensures
      KeepEdges(SpecEdges(specs[..n], true, ShownSpecs(specs, true), ShownTasks(tasks, true)), DisplayedIds(specs, tasks)) ==
        SpecEdges(specs[..n], false, ShownSpecs(specs, false), ShownTasks(tasks, false))
  {
    if n > 0 {
      SpecEdgesRestrict(specs, tasks, n - 1);
      assert specs[..n][..n - 1] == specs[..n - 1];
      var e := specs[n - 1];
      var front := SpecEdges(specs[..n - 1], true, ShownSpecs(specs, true), ShownTasks(tasks, true));
      ShownSpecHere(specs, n - 1);
      if ShowsSpec(e, true) {
        OneSpecRestricts(specs, tasks, e);
        KeepEdgesAppend(front, SpecEdgesOf(e, ShownSpecs(specs, true), ShownTasks(tasks, true)), DisplayedIds(specs, tasks));
      } else {
        assert SpecEdges(specs[..n], true, ShownSpecs(specs, true), ShownTasks(tasks, true)) == front;
      }
    }
  }

  lemma {:induction false} TaskEdgesRestrict(specs: seq<SpecEntry>, tasks: seq<Task>, n: nat)
    requires UniqueTaskIds(tasks) && n <= |tasks|
    ensures
      KeepEdges(TaskEdges(tasks[..n], true, ShownTasks(tasks, true)), DisplayedIds(specs, tasks)) ==
        TaskEdges(tasks[..n], false, ShownTasks(tasks, false))
  {
    if n > 0 {
      TaskEdgesRestrict(specs, tasks, n - 1);
      assert tasks[..n][..n - 1] == tasks[..n - 1];
      var t := tasks[n - 1];
      var front := TaskEdges(tasks[..n - 1], true, ShownTasks(tasks, true));
      ShownTaskHere(tasks, n - 1);
      TaskDepEdgesRestrict(specs, tasks, t.id, t.dependsOn);
      KeepEdgesAppend(front, TaskDepEdges(TaskId(t.id), t.dependsOn, ShownTasks(tasks, true)), DisplayedIds(specs, tasks));
    }
  }

  /** Archived filtering: for unique paths and ids the default view is the full
      view restricted to the displayed nodes, nodes and edges in the same order
      and unchanged, and with the same blocked verdicts. */
  lemma DefaultViewIsRestriction(specs: seq<SpecEntry>, tasks: seq<Task>)
    requires UniquePaths(specs) && UniqueTaskIds(tasks)
    ensures
      var full := GraphOf(specs, tasks, true);
      var view := GraphOf(specs, tasks, false);
      var ids := DisplayedIds(specs, tasks);
      && view.nodes == KeepNodes(full.nodes, ids)
      && view.edges == KeepEdges(full.edges, ids)
      && view.blocked == KeepIds(full.blocked, ids)
  {
    var ids := DisplayedIds(specs, tasks);
    assert specs[..|specs|] == specs && tasks[..|tasks|] == tasks;
    SpecNodesRestrict(specs, tasks, |specs|);
    TaskNodesRestrict(specs, tasks, |tasks|);
    KeepNodesAppend(SpecNodes(specs, true), TaskNodes(tasks, tasks, true), ids);
    SpecEdgesRestrict(specs, tasks, |specs|);
    TaskEdgesRestrict(specs, tasks, |tasks|);
    KeepEdgesAppend(SpecEdges(specs, true, ShownSpecs(specs, true), ShownTasks(tasks, true)), TaskEdges(tasks, true, ShownTasks(tasks, true)), ids);
    BlockedRestrict(specs, tasks, |tasks|);
  }

  // ----- blocked or start -----

  lemma {:induction false} BlockedAre(all: seq<Task>, tasks: seq<Task>, inc: bool, id: string)
    ensures TaskId(id) in BlockedIds(all, tasks, inc) <==>
      exists k :: 0 <= k < |tasks| && ShowsTask(tasks[k], inc) && IsBlocked(all, tasks[k]) && tasks[k].id == id
    decreases |tasks|
  {
    if tasks != [] {
      var front := tasks[..|tasks| - 1];
      BlockedAre(all, front, inc, id);
      assert forall k :: 0 <= k < |front| ==> front[k] == tasks[k];
      IdSpaces(tasks[|tasks| - 1].id, id);
    }
  }

  /** Each displayed backlog task is either listed as blocked or offers start,
      never both, and a task in another status does neither. */
  lemma BlockedXorStart(tasks: seq<Task>, inc: bool, k: nat)
    requires UniqueTaskIds(tasks) && k < |tasks| && ShowsTask(tasks[k], inc)
    ensures
      var listed := TaskId(tasks[k].id) in BlockedIds(tasks, tasks, inc);
      var offered := "start" in TaskNodeOf(tasks, tasks[k]).actions;
      if tasks[k].status == Backlog then listed != offered else !listed && !offered
    ensures
      tasks[k].status == Backlog ==>
        (TaskId(tasks[k].id) in BlockedIds(tasks, tasks, inc) <==> exists d :: d in tasks[k].dependsOn && !TaskDone(tasks, d))
  {
    BlockedAre(tasks, tasks, inc, tasks[k].id);
    if exists d :: d in tasks[k].dependsOn && !TaskDone(tasks, d) {
      var d :| d in tasks[k].dependsOn && !TaskDone(tasks, d);
      var j :| 0 <= j < |tasks[k].dependsOn| && tasks[k].dependsOn[j] == d;
      assert BlockedBy(tasks, tasks[k].dependsOn);
    }
  }
}
