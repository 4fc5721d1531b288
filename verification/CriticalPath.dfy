/** The longest dependency chain (internal/graph/graph.go): a memoised walk with
    a cycle guard, then a reconstruction that follows the memo. */
module CriticalPath {
  import opened Common
  import opened GraphTypes

  type Adjacency = map<string, seq<string>>

  function Successors(adj: Adjacency, v: string): seq<string> {
    if v in adj then adj[v] else []
  }

  ghost predicate Hop(adj: Adjacency, a: string, b: string) {
    b in Successors(adj, a)
  }

  // ----- chains -----

  ghost predicate HopAt(adj: Adjacency, p: seq<string>, k: nat)
    requires k + 1 < |p|
  {
    Hop(adj, p[k], p[k + 1])
  }

  ghost predicate Chain(adj: Adjacency, p: seq<string>) {
    p != [] && forall k :: 0 <= k < |p| - 1 ==> HopAt(adj, p, k)
  }

  ghost predicate ChainFrom(adj: Adjacency, p: seq<string>, v: string) {
    Chain(adj, p) && p[0] == v
  }

  ghost predicate Cycle(adj: Adjacency, p: seq<string>) {
    Chain(adj, p) && |p| >= 2 && p[0] == p[|p| - 1]
  }

  ghost predicate Acyclic(adj: Adjacency) {
    forall p :: !Cycle(adj, p)
  }

  ghost predicate Reaches(adj: Adjacency, a: string, b: string) {
    exists p :: ChainFrom(adj, p, a) && p[|p| - 1] == b
  }

  lemma ChainTail(adj: Adjacency, p: seq<string>)
    requires Chain(adj, p) && |p| >= 2
    ensures Chain(adj, p[1..]) && Hop(adj, p[0], p[1])
  {
    assert HopAt(adj, p, 0);
    var q := p[1..];
    forall k | 0 <= k < |q| - 1 ensures HopAt(adj, q, k) {
      assert HopAt(adj, p, k + 1);
    }
  }

  lemma ChainPrepend(adj: Adjacency, v: string, p: seq<string>)
    requires Chain(adj, p) && Hop(adj, v, p[0])
    ensures Chain(adj, [v] + p)
  {
    var q := [v] + p;
    forall k | 0 <= k < |q| - 1 ensures HopAt(adj, q, k) {
      if k > 0 {
        assert HopAt(adj, p, k - 1);
      }
    }
  }

  lemma ChainAppend(adj: Adjacency, p: seq<string>, v: string)
    requires Chain(adj, p) && Hop(adj, p[|p| - 1], v)
    ensures Chain(adj, p + [v])
  {
    var q := p + [v];
    forall k | 0 <= k < |q| - 1 ensures HopAt(adj, q, k) {
      if k < |p| - 1 {
        assert HopAt(adj, p, k);
      }
    }
  }

  lemma ChainSlice(adj: Adjacency, p: seq<string>, i: nat, j: nat)
    requires Chain(adj, p) && i <= j < |p|
    ensures Chain(adj, p[i..j + 1])
  {
    var q := p[i..j + 1];
    forall k | 0 <= k < |q| - 1 ensures HopAt(adj, q, k) {
      assert HopAt(adj, p, i + k);
    }
  }

  /** Without cycles no chain repeats a node. */
  lemma ChainsDoNotRepeat(adj: Adjacency, p: seq<string>)
    requires Acyclic(adj) && Chain(adj, p)
    ensures forall i, j :: 0 <= i < j < |p| ==> p[i] != p[j]
  {
    forall i, j | 0 <= i < j < |p| ensures p[i] != p[j] {
      ChainSlice(adj, p, i, j);
      assert !Cycle(adj, p[i..j + 1]);
    }
  }

  /** No cycle can be reached from v. */
  ghost predicate Tame(adj: Adjacency, v: string) {
    forall p :: Cycle(adj, p) ==> !Reaches(adj, v, p[0])
  }

  lemma AcyclicIsTame(adj: Adjacency, v: string)
    requires Acyclic(adj)
    ensures Tame(adj, v)
  {
  }

  lemma ReachesItself(adj: Adjacency, v: string)
    ensures Reaches(adj, v, v)
  {
    assert ChainFrom(adj, [v], v);
  }

  lemma ReachesFirst(adj: Adjacency, v: string, w: string, x: string)
    requires Hop(adj, v, w) && Reaches(adj, w, x)
    ensures Reaches(adj, v, x)
  {
    var p :| ChainFrom(adj, p, w) && p[|p| - 1] == x;
    ChainPrepend(adj, v, p);
    assert ChainFrom(adj, [v] + p, v) && ([v] + p)[|[v] + p| - 1] == x;
  }

  lemma ReachesLast(adj: Adjacency, v: string, w: string, x: string)
    requires Reaches(adj, v, w) && Hop(adj, w, x)
    ensures Reaches(adj, v, x)
  {
    var p :| ChainFrom(adj, p, v) && p[|p| - 1] == w;
    ChainAppend(adj, p, x);
    assert ChainFrom(adj, p + [x], v);
  }

  lemma TameHop(adj: Adjacency, v: string, w: string)
    requires Tame(adj, v) && Hop(adj, v, w)
    ensures Tame(adj, w)
  {
    forall p | Cycle(adj, p) ensures !Reaches(adj, w, p[0]) {
      if Reaches(adj, w, p[0]) {
        ReachesFirst(adj, v, w, p[0]);
      }
    }
  }

  /** A tame node does not come back to itself. */
  lemma TameDoesNotReturn(adj: Adjacency, v: string, w: string)
    requires Tame(adj, v) && Hop(adj, v, w)
    ensures !Reaches(adj, w, v)
  {
    if Reaches(adj, w, v) {
      var p :| ChainFrom(adj, p, w) && p[|p| - 1] == v;
      ChainPrepend(adj, v, p);
      assert Cycle(adj, [v] + p);
      ReachesItself(adj, v);
    }
  }

  // ----- the memo -----

  /** The number of hops on the best chain known, and its first hop. */
  datatype Best = Best(length: nat, next: string)

  type Memo = map<string, Best>

  /** n hops is the most any chain from v has, and some chain has them. */
  ghost predicate IsLongest(adj: Adjacency, v: string, n: nat) {
    && (exists p :: ChainFrom(adj, p, v) && |p| == n + 1)
    && (forall p :: ChainFrom(adj, p, v) ==> |p| <= n + 1)
  }

  /** An entry that holds on every graph: no hop exactly for a sink, and a hop
      otherwise. */
  ghost predicate Local(adj: Adjacency, v: string, b: Best) {
    && (b.length == 0 <==> Successors(adj, v) == [])
    && (b.length == 0 <==> b.next == "")
    && (b.length > 0 ==> Hop(adj, v, b.next))
  }

  /** An entry that is exact: the longest chain, continued exactly by its hop. */
  ghost predicate ExactAt(adj: Adjacency, memo: Memo, v: string)
    requires v in memo
  {
    && IsLongest(adj, v, memo[v].length)
    && (memo[v].length > 0 ==> memo[v].next in memo && memo[memo[v].next].length == memo[v].length - 1)
  }

  ghost predicate AllLocal(adj: Adjacency, memo: Memo) {
    forall v :: v in memo ==> Local(adj, v, memo[v])
  }

  /** Wherever no cycle can be reached the entry is exact. */
  ghost predicate TameExact(adj: Adjacency, memo: Memo) {
    forall v :: v in memo && Tame(adj, v) ==> ExactAt(adj, memo, v)
  }

  ghost predicate Grew(a: Memo, b: Memo) {
    forall v :: v in a ==> v in b && b[v] == a[v]
  }

  /** After the first k successors of v, best is the best hop among them. */
  ghost predicate BestOf(adj: Adjacency, memo: Memo, v: string, k: nat, best: Best)
    requires k <= |Successors(adj, v)|
  {
    && (forall j :: 0 <= j < k ==> Successors(adj, v)[j] in memo && memo[Successors(adj, v)[j]].length + 1 <= best.length)
    && (best.length > 0 ==> best.next in memo && memo[best.next].length + 1 == best.length)
  }

  lemma ShorterThroughSuccessor(adj: Adjacency, memo: Memo, v: string, best: Best, p: seq<string>)
    requires TameExact(adj, memo) && Tame(adj, v) && BestOf(adj, memo, v, |Successors(adj, v)|, best)
    requires ChainFrom(adj, p, v)
    ensures |p| <= best.length + 1
  {
    if |p| >= 2 {
      ChainTail(adj, p);
      TameHop(adj, v, p[1]);
      var j :| 0 <= j < |Successors(adj, v)| && Successors(adj, v)[j] == p[1];
      assert ExactAt(adj, memo, p[1]);
      assert ChainFrom(adj, p[1..], p[1]);
    }
  }

  lemma LongestThroughSuccessors(adj: Adjacency, memo: Memo, v: string, best: Best)
    requires TameExact(adj, memo) && Tame(adj, v)
    requires BestOf(adj, memo, v, |Successors(adj, v)|, best) && Local(adj, v, best)
    ensures IsLongest(adj, v, best.length)
  {
    if best.length == 0 {
      assert ChainFrom(adj, [v], v) && |[v]| == 1;
    } else {
      TameHop(adj, v, best.next);
      assert ExactAt(adj, memo, best.next);
      var q :| ChainFrom(adj, q, best.next) && |q| == memo[best.next].length + 1;
      ChainPrepend(adj, v, q);
      assert ChainFrom(adj, [v] + q, v) && |[v] + q| == best.length + 1;
    }
    forall p | ChainFrom(adj, p, v) ensures |p| <= best.length + 1 {
      ShorterThroughSuccessor(adj, memo, v, best, p);
    }
  }

  lemma ExactAfterStore(adj: Adjacency, memo: Memo, v: string, best: Best)
    requires TameExact(adj, memo) && v !in memo && Local(adj, v, best)
    requires Tame(adj, v) ==> BestOf(adj, memo, v, |Successors(adj, v)|, best)
    ensures TameExact(adj, memo[v := best])
  {
    if Tame(adj, v) {
      LongestThroughSuccessors(adj, memo, v, best);
    }
    hide Tame, IsLongest, Local;
    var more := memo[v := best];
    forall u | u in more && Tame(adj, u) ensures ExactAt(adj, more, u) {
      assert u in memo ==> ExactAt(adj, memo, u);
    }
  }

  /** Everything on the stack leads to v; so where no cycle can be reached, no
      successor of v is on the stack. */
  lemma SuccessorNotOnStack(adj: Adjacency, stack: set<string>, v: string, nx: string)
    requires Hop(adj, v, nx) && forall u :: u in stack ==> Reaches(adj, u, v)
    ensures forall u :: u in stack ==> Reaches(adj, u, nx)
    ensures Tame(adj, v) ==> nx !in stack
  {
    hide Reaches;
    forall u | u in stack ensures Reaches(adj, u, nx) {
      ReachesLast(adj, u, v, nx);
    }
    if Tame(adj, v) {
      TameDoesNotReturn(adj, v, nx);
    }
  }

  /** Hops stay inside the given nodes, none of which is unnamed. */
  ghost predicate Closed(adj: Adjacency, present: set<string>) {
    forall v, w :: v in present && Hop(adj, v, w) ==> w in present && w != ""
  }

  function Better(best: Best, r: Best, nx: string): Best {
    if r.length + 1 > best.length then Best(r.length + 1, nx) else best
  }

  /** Visiting one more successor, while the memo only grows. */
  lemma BestOfNext(adj: Adjacency, before: Memo, memo: Memo, v: string, k: nat, best: Best)
    requires k < |Successors(adj, v)| && BestOf(adj, before, v, k, best) && Grew(before, memo)
    requires Successors(adj, v)[k] in memo
    ensures BestOf(adj, memo, v, k + 1, Better(best, memo[Successors(adj, v)[k]], Successors(adj, v)[k]))
  {
  }

  /** best is a proper best hop over the first k successors of v, on any graph. */
  ghost predicate Hopping(adj: Adjacency, v: string, k: nat, best: Best) {
    && (best.length == 0 <==> k == 0)
    && (best.length == 0 <==> best.next == "")
    && (best.length > 0 ==> Hop(adj, v, best.next))
  }

  lemma HoppingNext(adj: Adjacency, v: string, k: nat, best: Best, r: Best)
    requires k < |Successors(adj, v)| && Hopping(adj, v, k, best) && Successors(adj, v)[k] != ""
    ensures Hopping(adj, v, k + 1, Better(best, r, Successors(adj, v)[k]))
  {
  }

  // ----- the walk -----

  /** The memo a walk leaves and the answer it gives. */
  datatype Visit = Visit(memo: Memo, best: Best)

  /** The recursive walk from id: a memoised answer, the guard for a node on the
      stack, or the best hop over all successors. It is defined on every graph,
      because the nodes not on the stack shrink with the recursion. */
  ghost function Walked(adj: Adjacency, present: set<string>, memo: Memo, stack: set<string>, id: string): Visit
    requires Closed(adj, present) && id in present
    decreases present - stack, 0
  {
    if id in memo then Visit(memo, memo[id])
    else if id in stack then Visit(memo, Best(0, ""))
    else
      var v := Scanned(adj, present, memo, stack + {id}, id, |Successors(adj, id)|);
      Visit(v.memo[id := v.best], v.best)
  }

  /** The loop over the first k successors of id. */
  ghost function Scanned(adj: Adjacency, present: set<string>, memo: Memo, stack: set<string>, id: string, k: nat): Visit
    requires Closed(adj, present) && id in present && k <= |Successors(adj, id)|
    decreases present - stack, k
  {
    if k == 0 then Visit(memo, Best(0, "")) else
      var v := Scanned(adj, present, memo, stack, id, k - 1);
      var nx := Successors(adj, id)[k - 1];
      assert Hop(adj, id, nx);
      var w := Walked(adj, present, v.memo, stack, nx);
      Visit(w.memo, Better(v.best, w.best, nx))
  }

  /** A memo that every walk keeps sound. */
  ghost predicate Sound(adj: Adjacency, memo: Memo) {
    AllLocal(adj, memo) && TameExact(adj, memo)
  }

  /** What a walk from a node its whole stack leads to promises. */
  ghost predicate WalkOk(adj: Adjacency, memo: Memo, stack: set<string>, id: string, v: Visit) {
    && Sound(adj, v.memo) && Grew(memo, v.memo)
    && (forall u :: u in stack && u in v.memo ==> u in memo)
    && (id !in stack ==> id in v.memo)
    && (id in v.memo ==> v.best == v.memo[id])
  }

  ghost predicate ScanOk(adj: Adjacency, memo: Memo, stack: set<string>, id: string, k: nat, v: Visit)
    requires k <= |Successors(adj, id)|
  {
    && Sound(adj, v.memo) && Grew(memo, v.memo)
    && (forall u :: u in stack && u in v.memo ==> u in memo)
    && Hopping(adj, id, k, v.best)
    && (Tame(adj, id) ==> BestOf(adj, v.memo, id, k, v.best))
  }

  ghost predicate StackLeads(adj: Adjacency, stack: set<string>, id: string) {
    forall u :: u in stack ==> Reaches(adj, u, id)
  }

  lemma {:induction false} WalkIsSound(adj: Adjacency, present: set<string>, memo: Memo, stack: set<string>, id: string)
    requires Closed(adj, present) && id in present && Sound(adj, memo) && StackLeads(adj, stack, id)
    ensures WalkOk(adj, memo, stack, id, Walked(adj, present, memo, stack, id))
    decreases present - stack, 0
  {
    if id !in memo && id !in stack {
      var n := |Successors(adj, id)|;
      ReachesItself(adj, id);
      ScanIsSound(adj, present, memo, stack + {id}, id, n);
      var v := Scanned(adj, present, memo, stack + {id}, id, n);
      hide Scanned, Tame, Reaches, BestOf;
      StoreIsSound(adj, memo, stack, id, v);
    }
  }

  lemma StoreIsSound(adj: Adjacency, memo: Memo, stack: set<string>, id: string, v: Visit)
    requires id !in memo && id !in stack && ScanOk(adj, memo, stack + {id}, id, |Successors(adj, id)|, v)
    ensures WalkOk(adj, memo, stack, id, Visit(v.memo[id := v.best], v.best))
  {
    hide TameExact, Tame, BestOf, Local;
    assert id !in v.memo;
    HoppingIsLocal(adj, id, v.best);
    ExactAfterStore(adj, v.memo, id, v.best);
  }

  lemma HoppingIsLocal(adj: Adjacency, id: string, best: Best)
    requires Hopping(adj, id, |Successors(adj, id)|, best)
    ensures Local(adj, id, best)
  {
  }

  lemma {:induction false} ScanIsSound(adj: Adjacency, present: set<string>, memo: Memo, stack: set<string>, id: string, k: nat)
    requires Closed(adj, present) && id in present && k <= |Successors(adj, id)|
    requires Sound(adj, memo) && StackLeads(adj, stack, id)
    ensures ScanOk(adj, memo, stack, id, k, Scanned(adj, present, memo, stack, id, k))
    decreases present - stack, k
  {
    if k > 0 {
      ScanIsSound(adj, present, memo, stack, id, k - 1);
      var v := Scanned(adj, present, memo, stack, id, k - 1);
      var nx := Successors(adj, id)[k - 1];
      assert Hop(adj, id, nx);
      SuccessorNotOnStack(adj, stack, id, nx);
      WalkIsSound(adj, present, v.memo, stack, nx);
      var w := Walked(adj, present, v.memo, stack, nx);
      assert w.best == w.best && Scanned(adj, present, memo, stack, id, k) == Visit(w.memo, Better(v.best, w.best, nx));
      hide Scanned, Walked, Tame, Reaches;
      ScanNext(adj, memo, stack, id, k - 1, v, w);
    }
  }

  lemma ScanNext(adj: Adjacency, memo: Memo, stack: set<string>, id: string, k: nat, v: Visit, w: Visit)
    requires k < |Successors(adj, id)| && ScanOk(adj, memo, stack, id, k, v) && Successors(adj, id)[k] != ""
    requires WalkOk(adj, v.memo, stack, Successors(adj, id)[k], w)
    requires Tame(adj, id) ==> Successors(adj, id)[k] !in stack
    ensures ScanOk(adj, memo, stack, id, k + 1, Visit(w.memo, Better(v.best, w.best, Successors(adj, id)[k])))
  {
    hide Sound, Tame, BestOf, Hopping;
    var nx := Successors(adj, id)[k];
    HoppingNext(adj, id, k, v.best, w.best);
    if Tame(adj, id) {
      BestOfNext(adj, v.memo, w.memo, id, k, v.best);
    }
  }

  class Walker {
    const adj: Adjacency
    ghost const present: set<string>
    var memo: Memo
    var onStack: set<string>

    ghost predicate Valid()
      reads this
    {
      Closed(adj, present) && onStack <= present
    }

    constructor (adj: Adjacency, ghost present: set<string>)
      requires Closed(adj, present)
      ensures Valid() && this.adj == adj && this.present == present && memo == map[] && onStack == {}
    {
      this.adj, this.present := adj, present;
      memo, onStack := map[], {};
    }

    /** Terminates on every graph, with the memo and answer of the specification. */
    method Walk(id: string) returns (r: Best)
      requires Valid() && id in present
      modifies this
      ensures Valid() && onStack == old(onStack)
      ensures Visit(memo, r) == Walked(adj, present, old(memo), old(onStack), id)
      decreases present - onStack, 0
    {
      if id in memo {
        return memo[id];
      }
      if id in onStack {
        return Best(0, "");
      }
      onStack := onStack + {id};
      var best := Scan(id);
      onStack := onStack - {id};
      memo := memo[id := best];
      r := best;
    }

    /** The loop of the walk: the best hop over all successors of id. */
    method Scan(id: string) returns (best: Best)
      requires Valid() && id in present && id in onStack
      modifies this
      ensures Valid() && onStack == old(onStack)
      ensures Visit(memo, best) == Scanned(adj, present, old(memo), old(onStack), id, |Successors(adj, id)|)
      decreases present - onStack, 1
    {
      best := Best(0, "");
      var next := Successors(adj, id);
      var k := 0;
      while k < |next|
        invariant 0 <= k <= |next| && Valid() && onStack == old(onStack)
        invariant Visit(memo, best) == Scanned(adj, present, old(memo), old(onStack), id, k)
      {
        var nx := next[k];
        assert Hop(adj, id, nx);
        var r := Walk(nx);
        best := Better(best, r, nx);
        k := k + 1;
      }
    }
  }

  // ----- from nodes and edges -----

  ghost predicate Present(nodes: seq<Node>, id: string) {
    exists k :: 0 <= k < |nodes| && nodes[k].id == id
  }

  /** A work-ordering edge between two nodes of the graph. */
  ghost predicate Depends(nodes: seq<Node>, edges: seq<Edge>, a: string, b: string) {
    Present(nodes, a) && Present(nodes, b) &&
    exists k :: 0 <= k < |edges| && edges[k].kind != Containment && edges[k].from == a && edges[k].to == b
  }

  function WithEdge(present: set<string>, adj: Adjacency, e: Edge): Adjacency {
    if e.kind != Containment && e.from in present && e.to in present
    then adj[e.from := Successors(adj, e.from) + [e.to]] else adj
  }

  function AdjacencyOf(present: set<string>, edges: seq<Edge>): Adjacency
    decreases |edges|
  {
    if edges == [] then map[] else WithEdge(present, AdjacencyOf(present, edges[..|edges| - 1]), edges[|edges| - 1])
  }

  lemma {:induction false} HopIsEdge(present: set<string>, edges: seq<Edge>, a: string, b: string)
    ensures Hop(AdjacencyOf(present, edges), a, b) <==>
      a in present && b in present &&
      exists k :: 0 <= k < |edges| && edges[k].kind != Containment && edges[k].from == a && edges[k].to == b
    decreases |edges|
  {
    if edges != [] {
      var front := edges[..|edges| - 1];
      HopIsEdge(present, front, a, b);
      assert forall k :: 0 <= k < |front| ==> front[k] == edges[k];
    }
  }

  ghost predicate Names(present: set<string>, nodes: seq<Node>) {
    forall id :: id in present <==> Present(nodes, id)
  }

  lemma HopIsDependency(present: set<string>, nodes: seq<Node>, edges: seq<Edge>, a: string, b: string)
    requires Names(present, nodes)
    ensures Hop(AdjacencyOf(present, edges), a, b) <==> Depends(nodes, edges, a, b)
  {
    HopIsEdge(present, edges, a, b);
  }

  ghost predicate DependsAt(nodes: seq<Node>, edges: seq<Edge>, p: seq<string>, k: nat)
    requires k + 1 < |p|
  {
    Depends(nodes, edges, p[k], p[k + 1])
  }

  /** A chain of work-ordering edges. */
  ghost predicate DependencyChain(nodes: seq<Node>, edges: seq<Edge>, p: seq<string>) {
    p != [] && forall k :: 0 <= k < |p| - 1 ==> DependsAt(nodes, edges, p, k)
  }

  /** No dependency chain returns to where it started. */
  ghost predicate NoDependencyCycle(nodes: seq<Node>, edges: seq<Edge>) {
    forall p :: DependencyChain(nodes, edges, p) && |p| >= 2 ==> p[0] != p[|p| - 1]
  }

  lemma ChainIsDependencyChain(present: set<string>, nodes: seq<Node>, edges: seq<Edge>, p: seq<string>)
    requires Names(present, nodes)
    ensures Chain(AdjacencyOf(present, edges), p) <==> DependencyChain(nodes, edges, p)
  {
    var adj := AdjacencyOf(present, edges);
    if p != [] {
      forall k | 0 <= k < |p| - 1 ensures HopAt(adj, p, k) <==> DependsAt(nodes, edges, p, k) {
        HopIsDependency(present, nodes, edges, p[k], p[k + 1]);
      }
    }
  }

  lemma AcyclicIff(present: set<string>, nodes: seq<Node>, edges: seq<Edge>)
    requires Names(present, nodes)
    ensures Acyclic(AdjacencyOf(present, edges)) <==> NoDependencyCycle(nodes, edges)
  {
    var adj := AdjacencyOf(present, edges);
    forall p ensures Chain(adj, p) <==> DependencyChain(nodes, edges, p) {
      ChainIsDependencyChain(present, nodes, edges, p);
    }
    if Acyclic(adj) {
      forall p | DependencyChain(nodes, edges, p) && |p| >= 2 ensures p[0] != p[|p| - 1] {
        assert !Cycle(adj, p);
      }
    }
  }

  lemma ClosedAdjacency(present: set<string>, edges: seq<Edge>)
    requires "" !in present
    ensures Closed(AdjacencyOf(present, edges), present)
  {
    forall v, w | v in present && Hop(AdjacencyOf(present, edges), v, w) ensures w in present && w != "" {
      HopIsEdge(present, edges, v, w);
    }
  }

  method CollectPresent(nodes: seq<Node>) returns (present: set<string>)
    ensures Names(present, nodes)
  {
    present := {};
    var i := 0;
    while i < |nodes|
      invariant 0 <= i <= |nodes|
      invariant forall id :: id in present <==> exists k :: 0 <= k < i && nodes[k].id == id
    {
      present := present + {nodes[i].id};
      i := i + 1;
    }
  }

  method CollectAdjacency(present: set<string>, edges: seq<Edge>) returns (adj: Adjacency)
    ensures adj == AdjacencyOf(present, edges)
  {
    adj := map[];
    var i := 0;
    while i < |edges|
      invariant 0 <= i <= |edges|
      invariant adj == AdjacencyOf(present, edges[..i])
    {
      adj := WithEdge(present, adj, edges[i]);
      i := i + 1;
      assert edges[..i][..i - 1] == edges[..i - 1];
    }
    assert edges[..i] == edges;
  }

  // ----- walking every node -----

  /** The memo after a tour of the first n nodes, and the node whose chain is the
      longest so far. */
  datatype Tour = Tour(memo: Memo, start: string, length: int)

  ghost function Toured(adj: Adjacency, present: set<string>, nodes: seq<Node>, n: nat): Tour
    requires Closed(adj, present) && n <= |nodes| && forall k :: 0 <= k < |nodes| ==> nodes[k].id in present
  {
    if n == 0 then Tour(map[], "", -1) else
      var t := Toured(adj, present, nodes, n - 1);
      var v := Walked(adj, present, t.memo, {}, nodes[n - 1].id);
      if v.best.length > t.length then Tour(v.memo, nodes[n - 1].id, v.best.length) else t.(memo := v.memo)
  }

  ghost predicate TourOk(adj: Adjacency, nodes: seq<Node>, n: nat, t: Tour)
    requires n <= |nodes|
  {
    && Sound(adj, t.memo)
    && (forall k :: 0 <= k < n ==> nodes[k].id in t.memo && t.memo[nodes[k].id].length <= t.length)
    && (n == 0 ==> t.start == "" && t.length == -1)
    && (n > 0 ==> t.start in t.memo && t.memo[t.start].length == t.length && exists k :: 0 <= k < n && nodes[k].id == t.start)
  }

  lemma TourNext(adj: Adjacency, nodes: seq<Node>, n: nat, t: Tour, v: Visit)
    requires n < |nodes| && TourOk(adj, nodes, n, t) && WalkOk(adj, t.memo, {}, nodes[n].id, v)
    ensures TourOk(adj, nodes, n + 1, if v.best.length > t.length then Tour(v.memo, nodes[n].id, v.best.length) else t.(memo := v.memo))
  {
    hide Sound;
  }

  lemma TourStarts(adj: Adjacency, nodes: seq<Node>)
    ensures TourOk(adj, nodes, 0, Tour(map[], "", -1))
  {
  }

  lemma TourMemo(adj: Adjacency, nodes: seq<Node>, n: nat, t: Tour)
    requires n <= |nodes| && TourOk(adj, nodes, n, t)
    ensures Sound(adj, t.memo)
  {
  }

  lemma {:induction false} TourIsSound(adj: Adjacency, present: set<string>, nodes: seq<Node>, n: nat)
    requires Closed(adj, present) && n <= |nodes| && forall k :: 0 <= k < |nodes| ==> nodes[k].id in present
    ensures TourOk(adj, nodes, n, Toured(adj, present, nodes, n))
  {
    hide Walked, TourOk, WalkOk, Sound, Closed;
    if n == 0 {
      TourStarts(adj, nodes);
    } else {
      TourIsSound(adj, present, nodes, n - 1);
      var t := Toured(adj, present, nodes, n - 1);
      TourMemo(adj, nodes, n - 1, t);
      WalkIsSound(adj, present, t.memo, {}, nodes[n - 1].id);
      TourNext(adj, nodes, n - 1, t, Walked(adj, present, t.memo, {}, nodes[n - 1].id));
    }
  }

  /** Walks every node; the winner's chain is the longest the memo knows. Terminates
      on every graph, and is exact wherever no cycle can be reached. */
  method WalkAll(nodes: seq<Node>, adj: Adjacency, ghost present: set<string>) returns (memo: Memo, bestStart: string)
    requires Names(present, nodes) && "" !in present && Closed(adj, present)
    requires forall k :: 0 <= k < |nodes| ==> nodes[k].id in present
    ensures var t := Toured(adj, present, nodes, |nodes|); memo == t.memo && bestStart == t.start
    ensures AllLocal(adj, memo) && TameExact(adj, memo) && (forall id :: id in present ==> id in memo)
    ensures nodes == [] <==> bestStart == ""
    ensures nodes != [] ==> bestStart in present
    ensures nodes != [] ==> forall id :: id in present ==> memo[id].length <= memo[bestStart].length
  {
    hide Walked, Names, AllLocal, TameExact, Closed;
    var w := new Walker(adj, present);
    bestStart := "";
    var bestLen: int := -1;
    var i := 0;
    while i < |nodes|
      invariant 0 <= i <= |nodes| && w.Valid() && fresh(w) && w.adj == adj && w.present == present && w.onStack == {}
      invariant Tour(w.memo, bestStart, bestLen) == Toured(adj, present, nodes, i)
    {
      var r := w.Walk(nodes[i].id);
      if r.length > bestLen {
        bestLen, bestStart := r.length, nodes[i].id;
      }
      i := i + 1;
    }
    memo := w.memo;
    TourIsRight(adj, present, nodes);
  }

  lemma TourIsRight(adj: Adjacency, present: set<string>, nodes: seq<Node>)
    requires Names(present, nodes) && "" !in present && Closed(adj, present)
    requires forall k :: 0 <= k < |nodes| ==> nodes[k].id in present
    ensures var t := Toured(adj, present, nodes, |nodes|);
      && AllLocal(adj, t.memo) && TameExact(adj, t.memo)
      && (forall id :: id in present ==> id in t.memo && t.memo[id].length <= t.length)
      && (nodes == [] <==> t.start == "")
      && (nodes != [] ==> t.start in present && t.start in t.memo && t.memo[t.start].length == t.length)
  {
    hide Toured, TourOk, Names, Closed, AllLocal, TameExact;
    TourIsSound(adj, present, nodes, |nodes|);
    TourMemo(adj, nodes, |nodes|, Toured(adj, present, nodes, |nodes|));
    TourCovers(adj, present, nodes, Toured(adj, present, nodes, |nodes|));
  }

  lemma TourCovers(adj: Adjacency, present: set<string>, nodes: seq<Node>, t: Tour)
    requires Names(present, nodes) && "" !in present && TourOk(adj, nodes, |nodes|, t)
    ensures forall id :: id in present ==> id in t.memo && t.memo[id].length <= t.length
    ensures nodes == [] <==> t.start == ""
    ensures nodes != [] ==> t.start in present && t.start in t.memo && t.memo[t.start].length == t.length
  {
    hide Sound;
    forall id | id in present ensures id in t.memo && t.memo[id].length <= t.length {
      var k :| 0 <= k < |nodes| && nodes[k].id == id;
    }
    if nodes != [] {
      var k :| 0 <= k < |nodes| && nodes[k].id == t.start;
      assert Present(nodes, t.start);
    }
  }

  // ----- reconstruction -----

  /** From a node that reaches no cycle, on any graph, the memo unrolls into a chain
      of the promised length. */
  method Reconstruct(adj: Adjacency, memo: Memo, start: string) returns (path: seq<string>)
    requires TameExact(adj, memo) && AllLocal(adj, memo) && start in memo && Tame(adj, start)
    ensures ChainFrom(adj, path, start) && |path| == memo[start].length + 1
  {
    hide Tame;
    path := [start];
    var cur := start;
    while memo[cur].next != ""
      invariant cur in memo && Tame(adj, cur) && ChainFrom(adj, path, start) && path[|path| - 1] == cur
      invariant |path| + memo[cur].length == memo[start].length + 1
      decreases memo[cur].length
    {
      assert Local(adj, cur, memo[cur]) && ExactAt(adj, memo, cur);
      TameHop(adj, cur, memo[cur].next);
      ChainAppend(adj, path, memo[cur].next);
      path := path + [memo[cur].next];
      cur := memo[cur].next;
    }
    assert Local(adj, cur, memo[cur]);
  }

  ghost predicate NoRepeats(p: seq<string>) {
    forall i, j :: 0 <= i < j < |p| ==> p[i] != p[j]
  }

  /** On an acyclic graph: a repetition-free chain of work-ordering edges that no
      other chain exceeds; empty exactly when there is no such edge. */
  method Longest(nodes: seq<Node>, edges: seq<Edge>) returns (path: seq<string>)
    requires forall k :: 0 <= k < |nodes| ==> nodes[k].id != ""
    requires NoDependencyCycle(nodes, edges)
    ensures path == [] <==> forall a, b :: !Depends(nodes, edges, a, b)
    ensures path != [] ==> |path| >= 2 && DependencyChain(nodes, edges, path) && NoRepeats(path)
    ensures path != [] ==> forall p :: DependencyChain(nodes, edges, p) ==> |p| <= |path|
  {
    hide Toured;
    var present := CollectPresent(nodes);
    var adj := CollectAdjacency(present, edges);
    AcyclicIff(present, nodes, edges);
    ClosedAdjacency(present, edges);
    assert forall k :: 0 <= k < |nodes| ==> Present(nodes, nodes[k].id);
    var memo, bestStart := WalkAll(nodes, adj, present);
    if bestStart == "" {
      path := [];
      return;
    }
    AcyclicIsTame(adj, bestStart);
    path := Reconstruct(adj, memo, bestStart);
    ChainIsDependencyChain(present, nodes, edges, path);
    ChainsDoNotRepeat(adj, path);
    NoneIsLonger(nodes, edges, present, memo, bestStart, |path|);
    if |path| < 2 {
      path := [];
    }
  }

  lemma NoneIsLonger(nodes: seq<Node>, edges: seq<Edge>, present: set<string>, memo: Memo, bestStart: string, n: nat)
    requires Names(present, nodes) && bestStart in present && bestStart in memo && n == memo[bestStart].length + 1
    requires forall id :: id in present ==> id in memo && memo[id].length <= memo[bestStart].length
    requires Acyclic(AdjacencyOf(present, edges)) && TameExact(AdjacencyOf(present, edges), memo)
    ensures forall p :: DependencyChain(nodes, edges, p) && |p| >= 2 ==> |p| <= n
    ensures n >= 2 ==> exists a, b :: Depends(nodes, edges, a, b)
    ensures n < 2 ==> forall a, b :: !Depends(nodes, edges, a, b)
  {
    var adj := AdjacencyOf(present, edges);
    forall id | id in present ensures ExactAt(adj, memo, id) {
      AcyclicIsTame(adj, id);
    }
    hide Tame, Acyclic;
    forall p | DependencyChain(nodes, edges, p) && |p| >= 2 ensures |p| <= n {
      ChainIsDependencyChain(present, nodes, edges, p);
      assert DependsAt(nodes, edges, p, 0);
      assert ExactAt(adj, memo, p[0]);
      assert ChainFrom(adj, p, p[0]);
    }
    if n >= 2 {
      assert ExactAt(adj, memo, bestStart);
      var p :| ChainFrom(adj, p, bestStart) && |p| == n;
      ChainIsDependencyChain(present, nodes, edges, p);
      assert DependsAt(nodes, edges, p, 0);
    } else {
      forall a, b ensures !Depends(nodes, edges, a, b) {
        assert Depends(nodes, edges, a, b) ==> DependsAt(nodes, edges, [a, b], 0);
        assert Depends(nodes, edges, a, b) ==> DependencyChain(nodes, edges, [a, b]);
      }
    }
  }

}
