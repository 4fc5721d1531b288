/** Grouping the steps of a flow that run together (internal/flow/engine.go).
    The grouping is the partition of the steps into connected components of the
    symmetric closure of RunInParallelWith. */
module ParallelGroups {
  import opened Common

  datatype Step = Step(agentSlug: string, optional: bool, inputFrom: string, peers: seq<string>)

  // ----- the relation -----

  /** slug -> index; a later duplicate wins. */
  function IndexBySlug(steps: seq<Step>): (m: map<string, nat>)
    ensures forall s :: s in m ==> m[s] < |steps|
    decreases |steps|
  {
    if steps == [] then map[] else
      IndexBySlug(steps[..|steps| - 1])[steps[|steps| - 1].agentSlug := |steps| - 1]
  }

  /** One of the first k peers of step i names step j. */
  predicate NamesBefore(steps: seq<Step>, i: nat, j: nat, k: nat)
    requires i < |steps| && k <= |steps[i].peers|
  {
    var index := IndexBySlug(steps);
    i != j && exists p :: 0 <= p < k && steps[i].peers[p] in index && index[steps[i].peers[p]] == j
  }

  predicate Names(steps: seq<Step>, i: nat, j: nat) {
    i < |steps| && NamesBefore(steps, i, j, |steps[i].peers|)
  }

  /** Step i and step j are declared to run together, by either of them. */
  predicate Linked(steps: seq<Step>, i: nat, j: nat) {
    i < |steps| && j < |steps| && (Names(steps, i, j) || Names(steps, j, i))
  }

  ghost predicate DistinctSlugs(steps: seq<Step>) {
    forall i, j :: 0 <= i < j < |steps| ==> steps[i].agentSlug != steps[j].agentSlug
  }

  lemma {:induction false} IndexOfDistinct(steps: seq<Step>, j: nat)
    requires DistinctSlugs(steps) && j < |steps|
    ensures steps[j].agentSlug in IndexBySlug(steps) && IndexBySlug(steps)[steps[j].agentSlug] == j
    decreases |steps|
  {
    if j < |steps| - 1 {
      IndexOfDistinct(steps[..|steps| - 1], j);
    }
  }

  lemma {:induction false} IndexedSlug(steps: seq<Step>, slug: string)
    requires slug in IndexBySlug(steps)
    ensures steps[IndexBySlug(steps)[slug]].agentSlug == slug
    decreases |steps|
  {
    var last := |steps| - 1;
    if slug != steps[last].agentSlug {
      IndexedSlug(steps[..last], slug);
    }
  }

  /** With distinct slugs, naming a step is listing its slug. */
  lemma NamesBySlug(steps: seq<Step>, i: nat, j: nat)
    requires DistinctSlugs(steps) && i < |steps| && j < |steps|
    ensures Names(steps, i, j) <==> i != j && steps[j].agentSlug in steps[i].peers
  {
    IndexOfDistinct(steps, j);
    if Names(steps, i, j) {
      var p :| 0 <= p < |steps[i].peers| && steps[i].peers[p] in IndexBySlug(steps) && IndexBySlug(steps)[steps[i].peers[p]] == j;
      IndexedSlug(steps, steps[i].peers[p]);
    }
  }

  ghost predicate Chain(steps: seq<Step>, path: seq<nat>) {
    && path != []
    && (forall k :: 0 <= k < |path| ==> path[k] < |steps|)
    && (forall k :: 0 <= k < |path| - 1 ==> LinkAt(steps, path, k))
  }

  ghost predicate LinkAt(steps: seq<Step>, path: seq<nat>, k: nat)
    requires k + 1 < |path|
  {
    Linked(steps, path[k], path[k + 1])
  }

  ghost predicate ChainFromTo(steps: seq<Step>, path: seq<nat>, i: nat, j: nat) {
    Chain(steps, path) && path[0] == i && path[|path| - 1] == j
  }

  /** A chain of links joins i and j. */
  ghost predicate Connected(steps: seq<Step>, i: nat, j: nat) {
    exists path :: ChainFromTo(steps, path, i, j)
  }

  lemma ConnectedReflexive(steps: seq<Step>, i: nat)
    requires i < |steps|
    ensures Connected(steps, i, i)
  {
    assert ChainFromTo(steps, [i], i, i);
  }

  lemma ConnectedExtend(steps: seq<Step>, i: nat, j: nat, k: nat)
    requires Connected(steps, i, j) && Linked(steps, j, k)
    ensures Connected(steps, i, k)
  {
    var path :| ChainFromTo(steps, path, i, j);
    var longer := path + [k];
    forall m | 0 <= m < |longer| - 1 ensures LinkAt(steps, longer, m) {
      assert m < |path| - 1 ==> LinkAt(steps, path, m);
    }
    assert ChainFromTo(steps, longer, i, k);
  }

  lemma {:induction false} ConnectedTransitive(steps: seq<Step>, i: nat, path: seq<nat>)
    requires Chain(steps, path) && Connected(steps, i, path[0])
    ensures Connected(steps, i, path[|path| - 1])
    decreases |path|
  {
    if |path| > 1 {
      var front := path[..|path| - 1];
      forall m | 0 <= m < |front| - 1 ensures LinkAt(steps, front, m) {
        assert LinkAt(steps, path, m);
      }
      ConnectedTransitive(steps, i, front);
      assert LinkAt(steps, path, |path| - 2);
      ConnectedExtend(steps, i, front[|front| - 1], path[|path| - 1]);
    }
  }

  lemma {:induction false} ConnectedBack(steps: seq<Step>, path: seq<nat>)
    requires Chain(steps, path)
    ensures Connected(steps, path[|path| - 1], path[0])
    decreases |path|
  {
    if |path| == 1 {
      ConnectedReflexive(steps, path[0]);
    } else {
      var rest := path[1..];
      forall m | 0 <= m < |rest| - 1 ensures LinkAt(steps, rest, m) {
        assert LinkAt(steps, path, m + 1);
      }
      ConnectedBack(steps, rest);
      assert LinkAt(steps, path, 0);
      ConnectedExtend(steps, path[|path| - 1], path[1], path[0]);
    }
  }

  /** Connected is an equivalence on the step indices. */
  lemma ConnectedIsEquivalence(steps: seq<Step>, i: nat, j: nat, k: nat)
    requires Connected(steps, i, j)
    ensures i < |steps| && j < |steps| && Connected(steps, j, i)
    ensures Connected(steps, j, k) ==> Connected(steps, i, k)
  {
    var path :| ChainFromTo(steps, path, i, j);
    ConnectedBack(steps, path);
    if Connected(steps, j, k) {
      var more :| ChainFromTo(steps, more, j, k);
      ConnectedTransitive(steps, i, more);
    }
  }

  /** A set of steps closed under links that holds one end of a chain holds both. */
  lemma {:induction false} ClosedHoldsChain(steps: seq<Step>, s: set<nat>, path: seq<nat>)
    requires Chain(steps, path) && path[0] in s
    requires forall a, b :: a in s && Linked(steps, a, b) ==> b in s
    ensures path[|path| - 1] in s
    decreases |path|
  {
    if |path| > 1 {
      var rest := path[1..];
      forall m | 0 <= m < |rest| - 1 ensures LinkAt(steps, rest, m) {
        assert LinkAt(steps, path, m + 1);
      }
      assert LinkAt(steps, path, 0);
      ClosedHoldsChain(steps, s, rest);
    }
  }

  // ----- the reference partition -----

  /** The indices below n connected to i, in authored order. */
  ghost function MembersBelow(steps: seq<Step>, i: nat, n: nat): (r: seq<nat>)
    ensures forall x :: x in r <==> 0 <= x < n && Connected(steps, i, x)
    ensures StrictlyAscending(r)
  {
    if n == 0 then [] else
      var front := MembersBelow(steps, i, n - 1);
      assert forall k :: 0 <= k < |front| ==> front[k] in front;
      if Connected(steps, i, n - 1) then front + [n - 1] else front
  }

  ghost function Members(steps: seq<Step>, i: nat): seq<nat> {
    MembersBelow(steps, i, |steps|)
  }

  /** i is the first step of its component. */
  ghost predicate Leads(steps: seq<Step>, i: nat) {
    i < |steps| && forall j :: 0 <= j < i ==> !Connected(steps, i, j)
  }

  /** The components led by a step below n, in order of their leaders. */
  ghost function ComponentsBelow(steps: seq<Step>, n: nat): seq<seq<nat>> {
    if n == 0 then [] else
      ComponentsBelow(steps, n - 1) + (if Leads(steps, n - 1) then [Members(steps, n - 1)] else [])
  }

  ghost function Components(steps: seq<Step>): seq<seq<nat>> {
    ComponentsBelow(steps, |steps|)
  }

  // ----- what the partition means -----

  ghost predicate InGroup(groups: seq<seq<nat>>, g: nat, i: nat) {
    g < |groups| && i in groups[g]
  }

  ghost predicate StartsBefore(groups: seq<seq<nat>>, g: nat, h: nat)
    requires g < |groups| && h < |groups|
  {
    groups[g] != [] && groups[h] != [] && groups[g][0] < groups[h][0]
  }

  ghost predicate Grouped(groups: seq<seq<nat>>, i: nat) {
    exists g :: InGroup(groups, g, i)
  }

  lemma {:induction false} ComponentIsLed(steps: seq<Step>, n: nat, g: nat)
    requires g < |ComponentsBelow(steps, n)|
    ensures exists i :: 0 <= i < n && Leads(steps, i) && ComponentsBelow(steps, n)[g] == Members(steps, i)
  {
    if g < |ComponentsBelow(steps, n - 1)| {
      ComponentIsLed(steps, n - 1, g);
    }
  }

  lemma {:induction false} LeaderHasComponent(steps: seq<Step>, n: nat, i: nat)
    requires i < n && Leads(steps, i)
    ensures exists g :: 0 <= g < |ComponentsBelow(steps, n)| && ComponentsBelow(steps, n)[g] == Members(steps, i)
  {
    if i < n - 1 {
      LeaderHasComponent(steps, n - 1, i);
      var g :| 0 <= g < |ComponentsBelow(steps, n - 1)| && ComponentsBelow(steps, n - 1)[g] == Members(steps, i);
      assert ComponentsBelow(steps, n)[g] == Members(steps, i);
    } else {
      assert ComponentsBelow(steps, n)[|ComponentsBelow(steps, n - 1)|] == Members(steps, i);
    }
  }

  /** Every step has a leader in its component. */
  lemma {:induction false} LeaderExists(steps: seq<Step>, i: nat, low: nat)
    requires low < |steps| && Connected(steps, i, low)
    ensures exists l :: 0 <= l <= low && Leads(steps, l) && Connected(steps, i, l)
    decreases low
  {
    ConnectedIsEquivalence(steps, i, low, low);
    if !Leads(steps, low) {
      var j :| 0 <= j < low && Connected(steps, low, j);
      ConnectedIsEquivalence(steps, i, low, j);
      LeaderExists(steps, i, j);
    }
  }

  /** Every step lies in some group. */
  lemma EveryStepIsGrouped(steps: seq<Step>, i: nat)
    requires i < |steps|
    ensures Grouped(Components(steps), i)
  {
    ConnectedReflexive(steps, i);
    LeaderExists(steps, i, i);
    var l :| 0 <= l <= i && Leads(steps, l) && Connected(steps, i, l);
    ConnectedIsEquivalence(steps, i, l, l);
    LeaderHasComponent(steps, |steps|, l);
    var g :| 0 <= g < |Components(steps)| && Components(steps)[g] == Members(steps, l);
    assert InGroup(Components(steps), g, i);
  }

  /** Two steps of one group are connected. */
  lemma GroupMatesAreConnected(steps: seq<Step>, g: nat, i: nat, j: nat)
    requires InGroup(Components(steps), g, i) && InGroup(Components(steps), g, j)
    ensures Connected(steps, i, j)
  {
    ComponentIsLed(steps, |steps|, g);
    var l :| 0 <= l < |steps| && Leads(steps, l) && Components(steps)[g] == Members(steps, l);
    ConnectedIsEquivalence(steps, l, i, i);
    ConnectedIsEquivalence(steps, i, l, j);
  }

  /** Groups are ordered by their first member, which is their smallest. */
  lemma {:induction false} LeadersAscend(steps: seq<Step>, n: nat, g: nat, h: nat)
    requires g < h < |ComponentsBelow(steps, n)|
    ensures ComponentsBelow(steps, n)[g] != [] && ComponentsBelow(steps, n)[h] != []
    ensures ComponentsBelow(steps, n)[g][0] < ComponentsBelow(steps, n)[h][0]
    decreases n
  {
    if h < |ComponentsBelow(steps, n - 1)| {
      LeadersAscend(steps, n - 1, g, h);
    } else {
      ComponentIsLed(steps, n - 1, g);
      var l :| 0 <= l < n - 1 && Leads(steps, l) && ComponentsBelow(steps, n - 1)[g] == Members(steps, l);
      LeaderIsFirst(steps, l);
      LeaderIsFirst(steps, n - 1);
    }
  }

  lemma LeaderIsFirst(steps: seq<Step>, l: nat)
    requires Leads(steps, l)
    ensures Members(steps, l) != [] && Members(steps, l)[0] == l
  {
    ConnectedReflexive(steps, l);
    var ms := Members(steps, l);
    assert l in ms;
    var k :| 0 <= k < |ms| && ms[k] == l;
    assert ms[0] in ms;
    assert k == 0;
  }

  /** Connected steps share every group. */
  lemma ConnectedShareGroup(steps: seq<Step>, g: nat, i: nat, j: nat)
    requires InGroup(Components(steps), g, i) && Connected(steps, i, j)
    ensures InGroup(Components(steps), g, j)
  {
    ComponentIsLed(steps, |steps|, g);
    var l :| 0 <= l < |steps| && Leads(steps, l) && Components(steps)[g] == Members(steps, l);
    ConnectedIsEquivalence(steps, l, i, j);
    ConnectedIsEquivalence(steps, i, j, j);
  }

  /** A step lies in only one group. */
  lemma GroupIsUnique(steps: seq<Step>, g: nat, h: nat, i: nat)
    requires InGroup(Components(steps), g, i) && InGroup(Components(steps), h, i)
    ensures g == h
  {
    if g < h {
      SharedLeadersClash(steps, g, h, i);
    } else if h < g {
      SharedLeadersClash(steps, h, g, i);
    }
  }

  lemma SharedLeadersClash(steps: seq<Step>, g: nat, h: nat, i: nat)
    requires g < |Components(steps)| && h < |Components(steps)| && i in Components(steps)[g] && g < h
    ensures i !in Components(steps)[h]
  {
    var cs := Components(steps);
    LeadersAscend(steps, |steps|, g, h);
    ComponentIsLed(steps, |steps|, g);
    ComponentIsLed(steps, |steps|, h);
    var l :| 0 <= l < |steps| && Leads(steps, l) && cs[g] == Members(steps, l);
    var m :| 0 <= m < |steps| && Leads(steps, m) && cs[h] == Members(steps, m);
    LeaderIsFirst(steps, l);
    LeaderIsFirst(steps, m);
    if Connected(steps, m, i) {
      ConnectedIsEquivalence(steps, l, i, i);
      ConnectedIsEquivalence(steps, m, i, l);
    }
  }

  /** The grouping theorem: every step lies in exactly one group, two steps share
      it exactly when a chain of declared links joins them, members keep authored
      order, and groups are ordered by their smallest member. */
  lemma GroupsAreComponents(steps: seq<Step>)
    ensures forall i :: 0 <= i < |steps| ==> Grouped(Components(steps), i)
    ensures forall g, h, i :: InGroup(Components(steps), g, i) && InGroup(Components(steps), h, i) ==> g == h
    ensures forall g, i, j :: InGroup(Components(steps), g, i) ==>
      (InGroup(Components(steps), g, j) <==> Connected(steps, i, j))
    ensures forall g :: 0 <= g < |Components(steps)| ==> StrictlyAscending(Components(steps)[g])
    ensures forall g, h :: 0 <= g < h < |Components(steps)| ==> StartsBefore(Components(steps), g, h)
  {
    forall i | 0 <= i < |steps| ensures Grouped(Components(steps), i) {
      EveryStepIsGrouped(steps, i);
    }
    forall g, h, i | InGroup(Components(steps), g, i) && InGroup(Components(steps), h, i) ensures g == h {
      GroupIsUnique(steps, g, h, i);
    }
    forall g, i, j | InGroup(Components(steps), g, i)
      ensures InGroup(Components(steps), g, j) <==> Connected(steps, i, j)
    {
      if InGroup(Components(steps), g, j) {
        GroupMatesAreConnected(steps, g, i, j);
      }
      if Connected(steps, i, j) {
        ConnectedShareGroup(steps, g, i, j);
      }
    }
    forall g | 0 <= g < |Components(steps)| ensures StrictlyAscending(Components(steps)[g]) {
      ComponentIsLed(steps, |steps|, g);
    }
    forall g, h | 0 <= g < h < |Components(steps)|
      ensures StartsBefore(Components(steps), g, h)
    {
      LeadersAscend(steps, |steps|, g, h);
    }
  }

  // ----- the algorithm -----

  function Insert(x: nat, s: seq<nat>): (r: seq<nat>)
    requires StrictlyAscending(s) && x !in s
    ensures StrictlyAscending(r) && forall y :: y in r <==> y == x || y in s
  {
    if s == [] || x < s[0] then [x] + s
    else
      var rest := Insert(x, s[1..]);
      assert forall y :: y in s <==> y == s[0] || y in s[1..];
      assert forall k :: 0 <= k < |rest| ==> rest[k] in rest;
      [s[0]] + rest
  }

  predicate NoDuplicates(s: seq<nat>) {
    forall i, j :: 0 <= i < j < |s| ==> s[i] != s[j]
  }

  function Sorted(s: seq<nat>): (r: seq<nat>)
    requires NoDuplicates(s)
    ensures StrictlyAscending(r) && forall y :: y in r <==> y in s
  {
    if s == [] then [] else
      assert forall y :: y in s <==> y == s[0] || y in s[1..];
      Insert(s[0], Sorted(s[1..]))
  }

  function StepsAt(steps: seq<Step>, members: seq<nat>): (r: seq<Step>)
    requires forall k :: 0 <= k < |members| ==> members[k] < |steps|
    ensures |r| == |members| && forall k :: 0 <= k < |r| ==> r[k] == steps[members[k]]
  {
    seq(|members|, k requires 0 <= k < |members| => steps[members[k]])
  }

  method IndexSteps(steps: seq<Step>) returns (index: map<string, nat>)
    ensures index == IndexBySlug(steps)
  {
    index := map[];
    var i := 0;
    while i < |steps|
      invariant 0 <= i <= |steps|
      invariant index == IndexBySlug(steps[..i])
    {
      index := index[steps[i].agentSlug := i];
      i := i + 1;
      assert steps[..i][..i - 1] == steps[..i - 1];
    }
    assert steps[..i] == steps;
  }

  /** The links declared by the steps before i and by the first k peers of step i. */
  predicate DeclaredBy(steps: seq<Step>, i: nat, k: nat, a: nat, b: nat)
    requires i <= |steps| && (i < |steps| ==> k <= |steps[i].peers|)
  {
    (a < i && Names(steps, a, b)) || (a == i && i < |steps| && NamesBefore(steps, i, b, k))
  }

  ghost predicate AdjHolds(steps: seq<Step>, adj: seq<seq<nat>>, i: nat, k: nat)
    requires i <= |steps| && (i < |steps| ==> k <= |steps[i].peers|)
  {
    && |adj| == |steps|
    && forall a, b :: 0 <= a < |adj| && 0 <= b ==>
         (b in adj[a] <==> DeclaredBy(steps, i, k, a, b) || (b < |steps| && DeclaredBy(steps, i, k, b, a)))
  }

  lemma NamesNext(steps: seq<Step>, i: nat, k: nat, b: nat)
    requires i < |steps| && k < |steps[i].peers|
    ensures
      var index := IndexBySlug(steps);
      var peer := steps[i].peers[k];
      NamesBefore(steps, i, b, k + 1) <==> NamesBefore(steps, i, b, k) || (peer in index && index[peer] == b && i != b)
  {
  }

  method BuildAdjacency(steps: seq<Step>) returns (adj: seq<seq<nat>>)
    ensures |adj| == |steps|
    ensures forall a, b :: 0 <= a < |adj| && 0 <= b ==> (b in adj[a] <==> Linked(steps, a, b))
  {
    var index := IndexSteps(steps);
    adj := seq(|steps|, i => []);
    var i := 0;
    while i < |steps|
      invariant 0 <= i <= |steps|
      invariant AdjHolds(steps, adj, i, 0)
    {
      var k := 0;
      while k < |steps[i].peers|
        invariant 0 <= k <= |steps[i].peers|
        invariant AdjHolds(steps, adj, i, k)
      {
        forall b: nat {
          NamesNext(steps, i, k, b);
        }
        var peer := steps[i].peers[k];
        if peer in index && index[peer] != i {
          var j := index[peer];
          adj := adj[i := adj[i] + [j]];
          adj := adj[j := adj[j] + [i]];
        }
        k := k + 1;
      }
      i := i + 1;
    }
  }

  lemma {:induction false} DistinctBelowFit(s: seq<nat>, n: nat)
    requires NoDuplicates(s) && forall k :: 0 <= k < |s| ==> s[k] < n
    ensures |s| <= n
    decreases n
  {
    assert |s| > 0 ==> s[0] < n;
    if n > 0 {
      if k :| 0 <= k < |s| && s[k] == n - 1 {
        DistinctBelowFit(s[..k] + s[k + 1..], n - 1);
      } else {
        DistinctBelowFit(s, n - 1);
      }
    }
  }

  /** Whatever was assigned before is closed under links. */
  ghost predicate ClosedAssignment(steps: seq<Step>, groupOf: seq<int>) {
    && |groupOf| == |steps|
    && forall a, b :: 0 <= a < |groupOf| && 0 <= b < |groupOf| && Linked(steps, a, b) && groupOf[a] != -1 ==> groupOf[b] != -1
  }

  /** The state of the search: members carry the group id, all else is as before. */
  ghost predicate Searching(steps: seq<Step>, before: seq<int>, now: seq<int>, members: seq<nat>, i: nat, groupId: int) {
    && |now| == |before| == |steps| && i < |steps|
    && NoDuplicates(members) && i in members
    && (forall m :: m in members ==> m < |steps| && before[m] == -1 && now[m] == groupId && Connected(steps, i, m))
    && (forall a :: 0 <= a < |steps| && a !in members ==> now[a] == before[a])
  }

  /** The first head members have had all their links followed. */
  ghost predicate Followed(steps: seq<Step>, members: seq<nat>, head: nat) {
    forall k, b :: 0 <= k < head && k < |members| && Linked(steps, members[k], b) ==> b in members
  }

  lemma SearchStep(steps: seq<Step>, before: seq<int>, now: seq<int>, members: seq<nat>, i: nat, groupId: int, cur: nat, nb: nat)
    requires Searching(steps, before, now, members, i, groupId) && groupId >= 0
    requires cur in members && Linked(steps, cur, nb) && now[nb] == -1
    ensures Searching(steps, before, now[nb := groupId], members + [nb], i, groupId)
  {
    ConnectedExtend(steps, i, cur, nb);
    assert nb !in members;
  }

  /** A neighbour that is already assigned is a member: it cannot belong to an
      earlier group, because earlier groups are closed. */
  lemma AssignedNeighbourIsMember(steps: seq<Step>, before: seq<int>, now: seq<int>, members: seq<nat>, i: nat, groupId: int, cur: nat, nb: nat)
    requires Searching(steps, before, now, members, i, groupId) && ClosedAssignment(steps, before)
    requires cur in members && Linked(steps, cur, nb) && now[nb] != -1
    ensures nb in members
  {
    assert Linked(steps, nb, cur);
  }

  lemma SearchDone(steps: seq<Step>, before: seq<int>, now: seq<int>, members: seq<nat>, i: nat, groupId: int, x: nat)
    requires Searching(steps, before, now, members, i, groupId) && Followed(steps, members, |members|)
    requires Connected(steps, i, x)
    ensures x in members
  {
    var path :| ChainFromTo(steps, path, i, x);
    var s := set k | 0 <= k < |members| :: members[k];
    assert i in s;
    forall a, b | a in s && Linked(steps, a, b) ensures b in s {
      var k :| 0 <= k < |members| && members[k] == a;
      assert b in members;
    }
    ClosedHoldsChain(steps, s, path);
  }

  /** Follows every link of cur, adding the steps not yet assigned. */
  method Visit(steps: seq<Step>, adj: seq<nat>, groupOf: array<int>, ghost before: seq<int>,
               members0: seq<nat>, queue0: seq<nat>, i: nat, groupId: int, cur: nat)
    returns (members: seq<nat>, queue: seq<nat>)
    requires groupId >= 0 && ClosedAssignment(steps, before)
    requires Searching(steps, before, groupOf[..], members0, i, groupId) && cur in members0
    requires forall b :: 0 <= b ==> (b in adj <==> Linked(steps, cur, b))
    modifies groupOf
    ensures Searching(steps, before, groupOf[..], members, i, groupId)
    ensures exists extra :: members == members0 + extra && queue == queue0 + extra
    ensures forall b :: 0 <= b && Linked(steps, cur, b) ==> b in members
  {
    members, queue := members0, queue0;
    ghost var extra: seq<nat> := [];
    assert members0 + extra == members && queue0 + extra == queue;
    var k := 0;
    while k < |adj|
      invariant 0 <= k <= |adj|
      invariant Searching(steps, before, groupOf[..], members, i, groupId)
      invariant members == members0 + extra && queue == queue0 + extra
      invariant forall p :: 0 <= p < k ==> adj[p] in members
    {
      var nb := adj[k];
      assert nb in adj && cur in members;
      if groupOf[nb] == -1 {
        SearchStep(steps, before, groupOf[..], members, i, groupId, cur, nb);
        ghost var now := groupOf[..];
        groupOf[nb] := groupId;
        assert groupOf[..] == now[nb := groupId];
        members := members + [nb];
        queue := queue + [nb];
        extra := extra + [nb];
      } else {
        AssignedNeighbourIsMember(steps, before, groupOf[..], members, i, groupId, cur, nb);
      }
      k := k + 1;
    }
  }

  /** The breadth-first closure of step i. */
  method Closure(steps: seq<Step>, adj: seq<seq<nat>>, groupOf: array<int>, i: nat, groupId: int)
    returns (members: seq<nat>)
    requires |adj| == |steps| && groupId >= 0 && i < |steps|
    requires forall a, b :: 0 <= a < |adj| && 0 <= b ==> (b in adj[a] <==> Linked(steps, a, b))
    requires ClosedAssignment(steps, groupOf[..]) && groupOf[i] == -1
    modifies groupOf
    ensures NoDuplicates(members)
    ensures forall x :: x in members <==> 0 <= x < |steps| && Connected(steps, i, x)
    ensures forall a :: 0 <= a < |steps| ==> groupOf[a] == if a in members then groupId else old(groupOf[a])
  {
    ghost var before := groupOf[..];
    var queue := [i];
    groupOf[i] := groupId;
    members := [i];
    ConnectedReflexive(steps, i);
    ghost var head := 0;
    while queue != []
      invariant 0 <= head <= |members| && queue == members[head..]
      invariant Searching(steps, before, groupOf[..], members, i, groupId)
      invariant Followed(steps, members, head)
      decreases |steps| - head
    {
      var cur := queue[0];
      assert cur == members[head];
      queue := queue[1..];
      assert forall k :: 0 <= k < |members| ==> members[k] in members;
      DistinctBelowFit(members, |steps|);
      ghost var was := members;
      members, queue := Visit(steps, adj[cur], groupOf, before, members, queue, i, groupId, cur);
      head := head + 1;
      assert Followed(steps, members, head) by {
        forall k, b | 0 <= k < head && k < |members| && Linked(steps, members[k], b) ensures b in members {
          assert k < head - 1 ==> members[k] == was[k] && b in was;
        }
      }
    }
    forall x | 0 <= x < |steps| && Connected(steps, i, x) ensures x in members {
      SearchDone(steps, before, groupOf[..], members, i, groupId, x);
    }
  }

  /** Step a belongs to the component of some step below n. */
  ghost predicate ReachedBelow(steps: seq<Step>, n: nat, a: nat) {
    exists j :: 0 <= j < n && Connected(steps, j, a)
  }

  lemma ReachedNext(steps: seq<Step>, n: nat, a: nat)
    requires n < |steps| && a < |steps|
    ensures ReachedBelow(steps, n + 1, a) <==> ReachedBelow(steps, n, a) || Connected(steps, n, a)
    ensures ReachedBelow(steps, n, n) && Connected(steps, n, a) ==> ReachedBelow(steps, n, a)
  {
    if ReachedBelow(steps, n, n) && Connected(steps, n, a) {
      var j :| 0 <= j < n && Connected(steps, j, n);
      ConnectedIsEquivalence(steps, j, n, a);
    }
  }

  lemma UnreachedLeads(steps: seq<Step>, n: nat)
    requires n < |steps|
    ensures ReachedBelow(steps, n, n) <==> !Leads(steps, n)
  {
    if ReachedBelow(steps, n, n) {
      var j :| 0 <= j < n && Connected(steps, j, n);
      ConnectedIsEquivalence(steps, j, n, n);
    } else if !Leads(steps, n) {
      var j :| 0 <= j < n && Connected(steps, n, j);
      ConnectedIsEquivalence(steps, n, j, j);
      assert ReachedBelow(steps, n, n);
    }
  }

  lemma ReachedIsClosed(steps: seq<Step>, n: nat, groupOf: seq<int>)
    requires |groupOf| == |steps|
    requires forall a :: 0 <= a < |steps| ==> (groupOf[a] != -1 <==> ReachedBelow(steps, n, a))
    ensures ClosedAssignment(steps, groupOf)
  {
    forall a, b | 0 <= a < |groupOf| && 0 <= b < |groupOf| && Linked(steps, a, b) && groupOf[a] != -1
      ensures groupOf[b] != -1
    {
      var j :| 0 <= j < n && Connected(steps, j, a);
      ConnectedExtend(steps, j, a, b);
    }
  }

  ghost predicate Renders(steps: seq<Step>, members: seq<seq<nat>>, groups: seq<seq<Step>>) {
    && |groups| == |members|
    && forall g :: 0 <= g < |groups| ==>
         (forall k :: 0 <= k < |members[g]| ==> members[g][k] < |steps|) && groups[g] == StepsAt(steps, members[g])
  }

  lemma SortedIsMembers(steps: seq<Step>, i: nat, members: seq<nat>)
    requires NoDuplicates(members)
    requires forall x :: x in members <==> 0 <= x < |steps| && Connected(steps, i, x)
    ensures Sorted(members) == Members(steps, i)
  {
    var all := set x | x in members;
    AscendingIsUnique(Sorted(members), all);
    AscendingIsUnique(Members(steps, i), all);
  }

  lemma RendersOneMore(steps: seq<Step>, n: nat, groups: seq<seq<Step>>)
    requires Renders(steps, ComponentsBelow(steps, n), groups) && Leads(steps, n)
    ensures forall k :: 0 <= k < |Members(steps, n)| ==> Members(steps, n)[k] < |steps|
    ensures Renders(steps, ComponentsBelow(steps, n + 1), groups + [StepsAt(steps, Members(steps, n))])
  {
    var ms := Members(steps, n);
    assert forall k :: 0 <= k < |ms| ==> ms[k] in ms;
  }

  ghost predicate Tracks(steps: seq<Step>, n: nat, groupOf: seq<int>) {
    |groupOf| == |steps| && forall a :: 0 <= a < |steps| ==> (groupOf[a] != -1 <==> ReachedBelow(steps, n, a))
  }

  lemma TracksNext(steps: seq<Step>, n: nat, before: seq<int>, after: seq<int>)
    requires n < |steps| && Tracks(steps, n, before) && |after| == |steps|
    requires
      if before[n] != -1 then after == before
      else forall a :: 0 <= a < |steps| ==> (after[a] != -1 <==> before[a] != -1 || Connected(steps, n, a))
    ensures Tracks(steps, n + 1, after)
  {
    forall a | 0 <= a < |steps| ensures after[a] != -1 <==> ReachedBelow(steps, n + 1, a) {
      ReachedNext(steps, n, a);
      assert before[a] != -1 <==> ReachedBelow(steps, n, a);
    }
  }

  /** Groups in order of their first member, each in authored order: exactly the
      components of the steps. */
  method BuildParallelGroups(steps: seq<Step>) returns (groups: seq<seq<Step>>)
    ensures Renders(steps, Components(steps), groups)
  {
    groups := [];
    var adj := BuildAdjacency(steps);
    var groupOf := new int[|steps|](_ => -1);
    var i := 0;
    while i < |steps|
      invariant 0 <= i <= |steps|
      invariant Tracks(steps, i, groupOf[..])
      invariant Renders(steps, ComponentsBelow(steps, i), groups)
    {
      UnreachedLeads(steps, i);
      ghost var before := groupOf[..];
      if groupOf[i] == -1 {
        ReachedIsClosed(steps, i, groupOf[..]);
        var members := Closure(steps, adj, groupOf, i, |groups|);
        SortedIsMembers(steps, i, members);
        RendersOneMore(steps, i, groups);
        groups := groups + [StepsAt(steps, Sorted(members))];
      }
      TracksNext(steps, i, before, groupOf[..]);
      i := i + 1;
    }
  }
}
