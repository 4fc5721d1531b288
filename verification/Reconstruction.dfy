/** When the loop that rebuilds the critical path from the memo ends
    (internal/graph/graph.go). The walk is guarded against cycles; this loop is not. */
module Reconstruction {
  import opened Common
  import opened GraphTypes
  import opened CriticalPath

  /** Where following the memo from start leads in k hops, if it gets that far. */
  ghost function TrailAt(memo: Memo, start: string, k: nat): Option<string> {
    if k == 0 then Some(start) else
      match TrailAt(memo, start, k - 1)
      case None => None
      case Some(v) => if v !in memo || memo[v].next == "" then None else Some(memo[v].next)
  }

  /** The loop leaves its last node after some number of hops. */
  ghost predicate TrailEnds(memo: Memo, start: string) {
    exists k: nat :: TrailAt(memo, start, k).None?
  }

  /** A memo as the walk leaves it: sound, and holding every node. */
  ghost predicate Complete(adj: Adjacency, present: set<string>, memo: Memo) {
    Closed(adj, present) && Sound(adj, memo) && present <= memo.Keys
  }

  lemma {:induction false} TrailShortens(memo: Memo, start: string, i: nat, k: nat)
    requires i <= k && TrailAt(memo, start, k).Some?
    ensures TrailAt(memo, start, i).Some?
    decreases k
  {
    if i < k {
      TrailShortens(memo, start, i, k - 1);
    }
  }

  /** The trail follows hops and stays among the nodes. */
  lemma {:induction false} TrailIsReachable(adj: Adjacency, present: set<string>, memo: Memo, start: string, k: nat)
    requires Complete(adj, present, memo) && start in present && TrailAt(memo, start, k).Some?
    ensures var v := TrailAt(memo, start, k).value; v in present && Reaches(adj, start, v)
    decreases k
  {
    hide Reaches;
    if k == 0 {
      ReachesItself(adj, start);
    } else {
      TrailIsReachable(adj, present, memo, start, k - 1);
      var last := TrailAt(memo, start, k - 1).value;
      assert Local(adj, last, memo[last]);
      ReachesLast(adj, start, last, memo[last].next);
    }
  }

  // ----- where no cycle can be reached -----

  /** On every graph, from a node that reaches no cycle the trail is the longest
      chain there is from it, and ends with it. */
  lemma {:induction false} TameTrail(adj: Adjacency, memo: Memo, start: string, k: nat)
    requires Sound(adj, memo) && start in memo && Tame(adj, start)
    ensures IsLongest(adj, start, memo[start].length)
    ensures TrailAt(memo, start, k).Some? <==> k <= memo[start].length
    ensures k <= memo[start].length ==>
      var v := TrailAt(memo, start, k).value; v in memo && Tame(adj, v) && memo[v].length == memo[start].length - k
    ensures 0 < k <= memo[start].length ==>
      TrailAt(memo, start, k - 1).Some? && Hop(adj, TrailAt(memo, start, k - 1).value, TrailAt(memo, start, k).value)
    decreases k
  {
    hide Tame, IsLongest;
    assert ExactAt(adj, memo, start);
    if k > 0 {
      TameTrail(adj, memo, start, k - 1);
      if k - 1 <= memo[start].length {
        var last := TrailAt(memo, start, k - 1).value;
        assert Local(adj, last, memo[last]) && ExactAt(adj, memo, last);
        if memo[last].length > 0 {
          TameHop(adj, last, memo[last].next);
        }
      }
    }
  }

  lemma {:induction false} TrailContinues(memo: Memo, start: string, i: nat, n: nat)
    requires TrailAt(memo, start, i).Some?
    ensures TrailAt(memo, start, i + n) == TrailAt(memo, TrailAt(memo, start, i).value, n)
    decreases n
  {
    if n > 0 {
      TrailContinues(memo, start, i, n - 1);
    }
  }

  lemma SinkIsTame(adj: Adjacency, v: string)
    requires Successors(adj, v) == []
    ensures Tame(adj, v)
  {
    forall q | ChainFrom(adj, q, v) ensures q == [v] {
      assert |q| >= 2 ==> HopAt(adj, q, 0);
    }
    forall p | Cycle(adj, p) ensures p[0] != v {
      assert HopAt(adj, p, 0);
    }
  }

  /** The trail ends exactly when it gets to a node from which no cycle can be
      reached. */
  lemma EndsIffItLeavesTheCycles(adj: Adjacency, present: set<string>, memo: Memo, start: string)
    requires Complete(adj, present, memo) && start in present
    ensures TrailEnds(memo, start) <==> exists k: nat :: TrailAt(memo, start, k).Some? && Tame(adj, TrailAt(memo, start, k).value)
  {
    hide Tame;
    if TrailEnds(memo, start) {
      var k: nat :| TrailAt(memo, start, k).None?;
      LastOfTrail(adj, present, memo, start, k);
    }
    if k: nat :| TrailAt(memo, start, k).Some? && Tame(adj, TrailAt(memo, start, k).value) {
      TrailIsReachable(adj, present, memo, start, k);
      var v := TrailAt(memo, start, k).value;
      var n := memo[v].length + 1;
      TameTrail(adj, memo, v, n);
      TrailContinues(memo, start, k, n);
      assert TrailAt(memo, start, k + n).None?;
    }
  }

  lemma {:induction false} LastOfTrail(adj: Adjacency, present: set<string>, memo: Memo, start: string, k: nat)
    requires Complete(adj, present, memo) && start in present && TrailAt(memo, start, k).None?
    ensures exists i: nat :: TrailAt(memo, start, i).Some? && Tame(adj, TrailAt(memo, start, i).value)
    decreases k
  {
    hide Tame;
    if TrailAt(memo, start, k - 1).None? {
      LastOfTrail(adj, present, memo, start, k - 1);
    } else {
      TrailIsReachable(adj, present, memo, start, k - 1);
      var last := TrailAt(memo, start, k - 1).value;
      assert Local(adj, last, memo[last]);
      SinkIsTame(adj, last);
    }
  }

  // ----- where no sink can be reached -----

  /** If the trail ends, it ends at a node without successors that start reaches;
      so where none can be reached it never ends. */
  lemma NoSinkNeverEnds(adj: Adjacency, present: set<string>, memo: Memo, start: string)
    requires Complete(adj, present, memo) && start in present
    requires forall w :: Reaches(adj, start, w) ==> Successors(adj, w) != []
    ensures !TrailEnds(memo, start)
  {
    forall k: nat ensures TrailAt(memo, start, k).Some? {
      NoSinkGoesOn(adj, present, memo, start, k);
    }
  }

  lemma NonSinkLeadsOn(adj: Adjacency, present: set<string>, memo: Memo, v: string)
    requires Complete(adj, present, memo) && v in present && Successors(adj, v) != []
    ensures v in memo && memo[v].next != ""
  {
    hide TameExact, Closed;
    assert Local(adj, v, memo[v]);
  }

  lemma {:induction false} NoSinkGoesOn(adj: Adjacency, present: set<string>, memo: Memo, start: string, k: nat)
    requires Complete(adj, present, memo) && start in present
    requires forall w :: Reaches(adj, start, w) ==> Successors(adj, w) != []
    ensures TrailAt(memo, start, k).Some?
    decreases k
  {
    hide Reaches, Complete, Successors;
    if k > 0 {
      NoSinkGoesOn(adj, present, memo, start, k - 1);
      TrailIsReachable(adj, present, memo, start, k - 1);
      NonSinkLeadsOn(adj, present, memo, TrailAt(memo, start, k - 1).value);
    }
  }

  // ----- a bound on the hops to watch -----

  lemma {:induction false} DistinctFit(p: seq<string>, s: set<string>)
    requires NoRepeats(p) && forall k :: 0 <= k < |p| ==> p[k] in s
    ensures |p| <= |s|
    decreases |p|
  {
    if p != [] {
      var last := p[|p| - 1];
      DistinctFit(p[..|p| - 1], s - {last});
    }
  }

  ghost function TrailUpTo(memo: Memo, start: string, n: nat): (p: seq<string>)
    requires n > 0 ==> TrailAt(memo, start, n - 1).Some?
    ensures |p| == n
  {
    if n == 0 then [] else
      if n == 1 then [start] else
      TrailShortens(memo, start, n - 2, n - 1);
      TrailUpTo(memo, start, n - 1) + [TrailAt(memo, start, n - 1).value]
  }

  lemma {:induction false} TrailUpToAt(memo: Memo, start: string, n: nat, k: nat)
    requires k < n && TrailAt(memo, start, n - 1).Some?
    ensures TrailAt(memo, start, k) == Some(TrailUpTo(memo, start, n)[k])
    decreases n
  {
    if n > 1 {
      TrailShortens(memo, start, n - 2, n - 1);
      if k < n - 1 {
        TrailUpToAt(memo, start, n - 1, k);
      }
    }
  }

  /** A trail that meets a node again goes round for ever. */
  lemma {:induction false} RepeatingGoesOn(memo: Memo, start: string, i: nat, j: nat, k: nat)
    requires i < j && TrailAt(memo, start, j).Some? && TrailAt(memo, start, i) == TrailAt(memo, start, j)
    ensures TrailAt(memo, start, k).Some?
    decreases k
  {
    if k <= j {
      TrailShortens(memo, start, k, j);
    } else {
      TrailShortens(memo, start, i, j);
      RepeatingGoesOn(memo, start, i, j, k - (j - i));
      TrailContinues(memo, start, j, k - j);
      TrailContinues(memo, start, i, k - j);
      assert i + (k - j) == k - (j - i);
    }
  }

  /** A trail longer than there are nodes meets one of them twice. */
  lemma LongTrailRepeats(adj: Adjacency, present: set<string>, memo: Memo, start: string) returns (i: nat, j: nat)
    requires Complete(adj, present, memo) && start in present && TrailAt(memo, start, |present|).Some?
    ensures i < j <= |present| && TrailAt(memo, start, i) == TrailAt(memo, start, j)
  {
    var n := |present|;
    var p := TrailUpTo(memo, start, n + 1);
    forall k | 0 <= k < n + 1 ensures TrailAt(memo, start, k) == Some(p[k]) && p[k] in present {
      TrailUpToAt(memo, start, n + 1, k);
      TrailIsReachable(adj, present, memo, start, k);
    }
    hide Complete, TrailAt, TrailUpTo;
    if NoRepeats(p) {
      DistinctFit(p, present);
    }
    i, j :| 0 <= i < j < n + 1 && p[i] == p[j];
  }

  /** The trail ends exactly when it ends within as many hops as there are nodes. */
  lemma EndsWithinTheNodes(adj: Adjacency, present: set<string>, memo: Memo, start: string)
    requires Complete(adj, present, memo) && start in present
    ensures TrailEnds(memo, start) <==> TrailAt(memo, start, |present|).None?
  {
    hide Complete, TrailAt;
    if TrailAt(memo, start, |present|).Some? {
      var i, j := LongTrailRepeats(adj, present, memo, start);
      TrailShortens(memo, start, j, |present|);
      forall k: nat ensures TrailAt(memo, start, k).Some? {
        RepeatingGoesOn(memo, start, i, j, k);
      }
    }
  }

  // ----- from nodes and edges -----

  /** What the walk over all nodes of a graph leaves, and where it starts. */
  ghost function TourOf(present: set<string>, nodes: seq<Node>, edges: seq<Edge>): Tour
    requires Names(present, nodes) && "" !in present
  {
    ClosedAdjacency(present, edges);
    assert forall k :: 0 <= k < |nodes| ==> Present(nodes, nodes[k].id);
    Toured(AdjacencyOf(present, edges), present, nodes, |nodes|)
  }

  lemma TourIsComplete(present: set<string>, nodes: seq<Node>, edges: seq<Edge>)
    requires Names(present, nodes) && "" !in present && nodes != []
    ensures var t := TourOf(present, nodes, edges);
      Complete(AdjacencyOf(present, edges), present, t.memo) && t.start in present
  {
    hide Toured;
    var adj := AdjacencyOf(present, edges);
    ClosedAdjacency(present, edges);
    assert forall k :: 0 <= k < |nodes| ==> Present(nodes, nodes[k].id);
    TourIsSound(adj, present, nodes, |nodes|);
    TourMemo(adj, nodes, |nodes|, TourOf(present, nodes, edges));
    TourCovers(adj, present, nodes, TourOf(present, nodes, edges));
  }

  /** What the loop does on any graph, from the start the walk chooses: where that
      start reaches no cycle it ends with the longest chain from there; where it
      reaches no sink it never ends; and it ends at all exactly when it does so
      within as many hops as there are nodes. */
  lemma LoopOutcome(present: set<string>, nodes: seq<Node>, edges: seq<Edge>)
    requires Names(present, nodes) && "" !in present && nodes != []
    ensures
      var adj := AdjacencyOf(present, edges);
      var t := TourOf(present, nodes, edges);
      && t.start in present && t.start in t.memo
      && (Tame(adj, t.start) ==> TrailEnds(t.memo, t.start) && IsLongest(adj, t.start, t.memo[t.start].length))
      && ((forall w :: Reaches(adj, t.start, w) ==> Successors(adj, w) != []) ==> !TrailEnds(t.memo, t.start))
      && (TrailEnds(t.memo, t.start) <==> TrailAt(t.memo, t.start, |present|).None?)
  {
    hide TourOf, Tame, IsLongest, TrailAt, Sound, AdjacencyOf, Reaches;
    var adj := AdjacencyOf(present, edges);
    var t := TourOf(present, nodes, edges);
    TourIsComplete(present, nodes, edges);
    if Tame(adj, t.start) {
      TameTrail(adj, t.memo, t.start, t.memo[t.start].length + 1);
    }
    if forall w :: Reaches(adj, t.start, w) ==> Successors(adj, w) != [] {
      NoSinkNeverEnds(adj, present, t.memo, t.start);
    }
    EndsWithinTheNodes(adj, present, t.memo, t.start);
  }

  /** A work-ordering edge between the two ends named. */
  function Dep(a: string, b: string): Edge {
    Edge(a, b, TaskDep)
  }

  lemma ThreeEdges(present: set<string>, e: Edge, f: Edge, g: Edge)
    ensures AdjacencyOf(present, [e, f, g]) ==
      WithEdge(present, WithEdge(present, WithEdge(present, map[], e), f), g)
  {
    assert [e, f, g][..2] == [e, f] && [e, f][..1] == [e] && [e][..0] == [];
    assert AdjacencyOf(present, [e]) == WithEdge(present, map[], e);
    assert AdjacencyOf(present, [e, f]) == WithEdge(present, AdjacencyOf(present, [e]), f);
  }

  /** The walk from a through a cycle a, b with a way out of b to c: b hops to
      whichever of its two successors comes first. */
  lemma WalkThroughCycle(adj: Adjacency, present: set<string>, a: string, b: string, c: string)
    requires present == {a, b, c} && a != b && b != c && a != c && Closed(adj, present)
    requires Successors(adj, a) == [b] && Successors(adj, c) == []
    requires Successors(adj, b) == [a, c] || Successors(adj, b) == [c, a]
    ensures var v := Walked(adj, present, map[], {}, a);
      v.memo == map[a := Best(2, b), b := Best(1, Successors(adj, b)[0]), c := Best(0, "")] && v.best == Best(2, b)
  {
    var s2 := {} + {a} + {b};
    var s3 := s2 + {c};
    assert Scanned(adj, present, map[], s3, c, 0) == Visit(map[], Best(0, ""));
    assert Walked(adj, present, map[], s2, c) == Visit(map[c := Best(0, "")], Best(0, ""));
    assert Walked(adj, present, map[], s2, a) == Visit(map[], Best(0, ""));
    assert Walked(adj, present, map[c := Best(0, "")], s2, a) == Visit(map[c := Best(0, "")], Best(0, ""));
    assert Scanned(adj, present, map[], s2, b, 0) == Visit(map[], Best(0, ""));
    assert Scanned(adj, present, map[], s2, b, 1).best == Best(1, Successors(adj, b)[0]);
    assert Scanned(adj, present, map[], s2, b, 2) == Visit(map[c := Best(0, "")], Best(1, Successors(adj, b)[0]));
    var m := map[c := Best(0, "")][b := Best(1, Successors(adj, b)[0])];
    assert Walked(adj, present, map[], {} + {a}, b) == Visit(m, Best(1, Successors(adj, b)[0]));
    assert Scanned(adj, present, map[], {} + {a}, a, 0) == Visit(map[], Best(0, ""));
    assert Scanned(adj, present, map[], {} + {a}, a, 1) == Visit(m, Best(2, b));
  }

  lemma TourOfCycle(adj: Adjacency, present: set<string>, nodes: seq<Node>)
    requires |nodes| == 3 && present == {nodes[0].id, nodes[1].id, nodes[2].id} && Closed(adj, present)
    requires nodes[0].id != nodes[1].id && nodes[1].id != nodes[2].id && nodes[0].id != nodes[2].id
    requires Successors(adj, nodes[0].id) == [nodes[1].id] && Successors(adj, nodes[2].id) == []
    requires Successors(adj, nodes[1].id) == [nodes[0].id, nodes[2].id] || Successors(adj, nodes[1].id) == [nodes[2].id, nodes[0].id]
    ensures var t := Toured(adj, present, nodes, 3);
      && t.start == nodes[0].id
      && t.memo == map[nodes[0].id := Best(2, nodes[1].id), nodes[1].id := Best(1, Successors(adj, nodes[1].id)[0]), nodes[2].id := Best(0, "")]
  {
    var a, b, c := nodes[0].id, nodes[1].id, nodes[2].id;
    WalkThroughCycle(adj, present, a, b, c);
    hide Scanned;
    var t1 := Toured(adj, present, nodes, 1);
    assert Toured(adj, present, nodes, 0) == Tour(map[], "", -1);
    assert t1 == Tour(Walked(adj, present, map[], {}, a).memo, a, 2);
    var t2 := Toured(adj, present, nodes, 2);
    assert t2 == t1;
  }

  ghost predicate ThreeNodes(nodes: seq<Node>, present: set<string>) {
    && |nodes| == 3 && present == {nodes[0].id, nodes[1].id, nodes[2].id} && "" !in present
    && nodes[0].id != nodes[1].id && nodes[1].id != nodes[2].id && nodes[0].id != nodes[2].id
  }

  /** a to b, b back to a, b on to c. */
  function BackFirst(nodes: seq<Node>): seq<Edge>
    requires |nodes| == 3
  {
    [Dep(nodes[0].id, nodes[1].id), Dep(nodes[1].id, nodes[0].id), Dep(nodes[1].id, nodes[2].id)]
  }

  function OnFirst(nodes: seq<Node>): seq<Edge>
    requires |nodes| == 3
  {
    [Dep(nodes[0].id, nodes[1].id), Dep(nodes[1].id, nodes[2].id), Dep(nodes[1].id, nodes[0].id)]
  }

  /** With the edge back listed first the loop goes round a and b for ever. */
  lemma BackFirstNeverEnds(nodes: seq<Node>, present: set<string>)
    requires ThreeNodes(nodes, present)
    ensures Names(present, nodes)
    ensures var t := TourOf(present, nodes, BackFirst(nodes)); !TrailEnds(t.memo, t.start)
  {
    var edges := BackFirst(nodes);
    NamesOfThree(nodes, present);
    ThreeEdges(present, edges[0], edges[1], edges[2]);
    ClosedAdjacency(present, edges);
    var adj := AdjacencyOf(present, edges);
    assert Successors(adj, nodes[1].id) == [nodes[0].id, nodes[2].id];
    TourOfCycle(adj, present, nodes);
    hide Toured, AdjacencyOf, TrailAt;
    GoesRound(TourOf(present, nodes, edges).memo, nodes[0].id, nodes[1].id);
  }

  /** With the edge on listed first it ends at c. */
  lemma OnFirstEnds(nodes: seq<Node>, present: set<string>)
    requires ThreeNodes(nodes, present)
    ensures Names(present, nodes)
    ensures var t := TourOf(present, nodes, OnFirst(nodes)); TrailEnds(t.memo, t.start)
  {
    var edges := OnFirst(nodes);
    NamesOfThree(nodes, present);
    ThreeEdges(present, edges[0], edges[1], edges[2]);
    ClosedAdjacency(present, edges);
    var adj := AdjacencyOf(present, edges);
    assert Successors(adj, nodes[1].id) == [nodes[2].id, nodes[0].id];
    TourOfCycle(adj, present, nodes);
    hide Toured, AdjacencyOf, TrailAt;
    GoesOut(TourOf(present, nodes, edges).memo, nodes[0].id, nodes[1].id, nodes[2].id);
  }

  /** So no condition on the set of edges alone can decide it: the same nodes and the
      same edges end or do not end by the order in which the edges are listed. */
  lemma EdgeOrderDecides(nodes: seq<Node>, present: set<string>)
    requires ThreeNodes(nodes, present)
    ensures Names(present, nodes) && multiset(BackFirst(nodes)) == multiset(OnFirst(nodes))
    ensures var t := TourOf(present, nodes, BackFirst(nodes)); !TrailEnds(t.memo, t.start)
    ensures var t := TourOf(present, nodes, OnFirst(nodes)); TrailEnds(t.memo, t.start)
  {
    BackFirstNeverEnds(nodes, present);
    OnFirstEnds(nodes, present);
  }

  lemma NamesOfThree(nodes: seq<Node>, present: set<string>)
    requires |nodes| == 3 && present == {nodes[0].id, nodes[1].id, nodes[2].id}
    ensures Names(present, nodes)
  {
    assert Present(nodes, nodes[0].id) && Present(nodes, nodes[1].id) && Present(nodes, nodes[2].id);
  }

  lemma GoesRound(memo: Memo, a: string, b: string)
    requires a in memo && b in memo && memo[a].next == b != "" && memo[b].next == a != ""
    ensures !TrailEnds(memo, a)
  {
    assert TrailAt(memo, a, 0) == Some(a);
    assert TrailAt(memo, a, 1) == Some(b);
    assert TrailAt(memo, a, 2) == Some(a);
    forall k: nat ensures TrailAt(memo, a, k).Some? {
      RepeatingGoesOn(memo, a, 0, 2, k);
    }
  }

  lemma GoesOut(memo: Memo, a: string, b: string, c: string)
    requires a in memo && b in memo && memo[a].next == b != "" && memo[b].next == c != "" && c in memo && memo[c].next == ""
    ensures TrailEnds(memo, a)
  {
    assert TrailAt(memo, a, 0) == Some(a);
    assert TrailAt(memo, a, 1) == Some(b);
    assert TrailAt(memo, a, 2) == Some(c);
    assert TrailAt(memo, a, 3).None?;
  }
}
