/** Runs of the split protocol, from nothing, after which the cache of a live, fully synced
    instance disagrees with the store though no frame is missing: for any two members of
    a tenant that serve the same repo. */
module SplitRuns {
  import opened Common
  import opened SpecComments
  import opened CommentRelays
  import opened CommentServices
  import opened Coordination
  import opened Convergence
  import opened CommitViews
  import opened SplitCoordination
  import opened SplitConvergence
  import Ops = CommentOps
  import Stores = CommentStores
  import SI = StoreInterleaving
  import R = Registries

  lemma EmptyRun()
    ensures CanRun([]) && After([]) == START
  {
  }

  lemma Extend(run: seq<Step>, st: Step)
    requires CanRun(run) && CanStep(After(run), st)
    ensures CanRun(run + [st]) && After(run + [st]) == Stepped(After(run), st)
  {
    hide CanStep, Stepped;
    assert (run + [st])[..|run|] == run;
  }

  // ----- a member connects -----

  /** Each connection so far is of a process of its own, numbered alike. */
  ghost predicate OwnProcesses(net: State) {
    forall d :: d in net.conns ==> net.conns[d].process == d
  }

  ghost predicate CanConnect(net: State, c: ConnId, p: Principal, m: R.Manifest, repo: string) {
    && c !in net.conns && OwnProcesses(net) && p.sub != "" && m.instanceId != "" && m.instanceId !in net.reg.byInstance
    && R.RemotesIn(m.workspaces) == [repo]
  }

  lemma DialNext(net: State, c: ConnId, p: Principal, m: R.Manifest)
    requires c !in net.conns && OwnProcesses(net) && p.sub != "" && m.instanceId != ""
    ensures var a := Dial(c, c, p, m);
      && Enabled(net, a) && Next(net, a).conns == net.conns[c := Conn(c, p, m.instanceId, 0, Dialed(m))]
      && Next(net, a).up == net.up + {c} && Next(net, a).reg == net.reg && Next(net, a).store == net.store
  {
  }

  lemma JoinNext(net: State, c: ConnId, p: Principal, m: R.Manifest)
    requires c in net.conns && net.conns[c].phase == Dialed(m) && net.conns[c].principal == p
    ensures var a := Join(c); var inst := R.Instance(p, m, Some(c), net.reg.nextGen + 1);
      && Enabled(net, a) && Next(net, a).up == net.up && Next(net, a).store == net.store
      && Next(net, a).reg.byInstance == net.reg.byInstance[m.instanceId := inst]
      && Next(net, a).conns == net.conns[c := net.conns[c].(generation := inst.generation, phase := Syncing(inst, R.RemotesIn(m.workspaces)))]
  {
  }

  lemma EndNext(net: State, c: ConnId)
    requires c in net.conns && net.conns[c].phase.Syncing? && net.conns[c].phase.pending == []
    ensures var a := EndSync(c);
      && Enabled(net, a) && Next(net, a).up == net.up && Next(net, a).store == net.store && Next(net, a).reg == net.reg
      && Next(net, a).conns == net.conns[c := net.conns[c].(phase := Serving)]
  {
  }

  lemma SyncNext(net: State, c: ConnId, repo: string)
    requires c in net.conns && net.conns[c].phase.Syncing? && net.conns[c].phase.pending == [repo]
    ensures var a := SyncRepo(c);
      && Enabled(net, a) && Next(net, a).up == net.up && Next(net, a).store == net.store && Next(net, a).reg == net.reg
      && Next(net, a).conns == net.conns[c := net.conns[c].(phase := Syncing(net.conns[c].phase.inst, []))]
  {
    assert [repo][1..] == [];
  }

  /** Connection c is registered under id for p, which serves repo, and is up. */
  ghost predicate Registered(net: State, c: ConnId, id: string, p: Principal, repo: string) {
    && c in net.conns && net.conns[c].principal == p && c in net.up
    && id in net.reg.byInstance && net.reg.byInstance[id].conn == Some(c) && net.reg.byInstance[id].principal == p
    && R.Serves(net.reg.byInstance[id], repo)
  }

  /** A member: registered, up, served, and with nothing in progress. */
  ghost predicate Member(s: Split, c: ConnId, id: string, p: Principal, repo: string) {
    Registered(s.net, c, id, p, repo) && s.net.conns[c].phase.Serving? && !Busy(s, c)
  }

  /** The same, but for a sync that is read and not sent. */
  ghost predicate HasRead(s: Split, c: ConnId, id: string, p: Principal, repo: string, rows: map<Id, Stores.ThreadRow>) {
    && Registered(s.net, c, id, p, repo) && s.net.conns[c].phase.Syncing? && s.net.conns[c].phase.pending == [repo]
    && s.net.conns[c].phase.inst.conn == Some(c)
    && c in s.readings && s.readings[c].comments.Some? && s.readings[c].rows == rows
    && s.readings[c].org == TenantKey(p) && s.readings[c].repo == repo
    && c !in s.fans && c !in s.sys.flights
  }

  function Arrives(c: ConnId, p: Principal, m: R.Manifest): seq<Step> {
    [Whole(Dial(c, c, p, m)), Whole(Join(c)), ReadRows(c), ReadComments(c)]
  }

  function Settles(c: ConnId): seq<Step> {
    [Send(c), Whole(EndSync(c))]
  }

  /** Nothing of the connections and registrations changes but those of c and id. */
  ghost predicate OthersSame(a: State, b: State, c: ConnId, id: string) {
    && b.conns.Keys == a.conns.Keys + {c} && (forall d :: d in a.conns && d != c ==> b.conns[d] == a.conns[d])
    && b.up == a.up + {c} && (OwnProcesses(a) ==> OwnProcesses(b)) && b.store == a.store
    && b.reg.byInstance.Keys == a.reg.byInstance.Keys + {id}
    && (forall i :: i in a.reg.byInstance && i != id ==> b.reg.byInstance[i] == a.reg.byInstance[i])
  }

  lemma Joins(run: seq<Step>, c: ConnId, p: Principal, m: R.Manifest, repo: string)
    requires CanRun(run) && CanConnect(After(run).net, c, p, m, repo) && !Busy(After(run), c)
    ensures var more := run + [Whole(Dial(c, c, p, m)), Whole(Join(c))];
      CanRun(more) &&
      var s, t := After(run), After(more);
      && t.sys == s.sys && t.readings == s.readings && t.fans == s.fans && OthersSame(s.net, t.net, c, m.instanceId)
      && Registered(t.net, c, m.instanceId, p, repo) && t.net.conns[c].phase.Syncing? && t.net.conns[c].phase.pending == [repo]
      && t.net.conns[c].phase.inst.conn == Some(c) && t.net.conns[c].phase.inst.principal == p
  {
    hide CanRun, After, Next, Enabled, Stepped, OwnProcesses, OthersSame, Registered;
    var s, dial := After(run), Dial(c, c, p, m);
    DialNext(s.net, c, p, m);
    Extend(run, Whole(dial));
    WholeEffect(s, dial);
    var r1 := run + [Whole(dial)];
    JoinNext(After(r1).net, c, p, m);
    Extend(r1, Whole(Join(c)));
    WholeEffect(After(r1), Join(c));
    assert r1 + [Whole(Join(c))] == run + [Whole(dial), Whole(Join(c))];
    Joined(s.net, After(r1).net, After(r1 + [Whole(Join(c))]).net, c, p, m, repo);
  }

  lemma Joined(a: State, b: State, d: State, c: ConnId, p: Principal, m: R.Manifest, repo: string)
    requires CanConnect(a, c, p, m, repo)
    requires b.conns == a.conns[c := Conn(c, p, m.instanceId, 0, Dialed(m))] && b.up == a.up + {c} && b.reg == a.reg && b.store == a.store
    requires var inst := R.Instance(p, m, Some(c), b.reg.nextGen + 1);
      && d.up == b.up && d.store == b.store && d.reg.byInstance == b.reg.byInstance[m.instanceId := inst]
      && d.conns == b.conns[c := b.conns[c].(generation := inst.generation, phase := Syncing(inst, [repo]))]
    ensures OthersSame(a, d, c, m.instanceId) && Registered(d, c, m.instanceId, p, repo)
  {
  }

  lemma ReadsRows(run: seq<Step>, c: ConnId, p: Principal, repo: string)
    requires CanRun(run) && !Busy(After(run), c) && c in After(run).net.conns
    requires var ph := After(run).net.conns[c].phase; ph.Syncing? && ph.pending == [repo] && ph.inst.principal == p
    ensures CanRun(run + [ReadRows(c)])
    ensures var s, t := After(run), After(run + [ReadRows(c)]);
      && t.net == s.net && t.sys == s.sys && t.fans == s.fans
      && t.readings == s.readings[c := Reading(TenantKey(p), repo, RowsOf(s.sys.db, TenantKey(p), repo), None)]
  {
    hide CanRun, After, RowsOf;
    assert Enabled(After(run).net, SyncRepo(c));
    Extend(run, ReadRows(c));
  }

  lemma ReadsComments(run: seq<Step>, c: ConnId)
    requires CanRun(run) && c in After(run).readings && After(run).readings[c].comments.None?
    ensures CanRun(run + [ReadComments(c)])
    ensures var s, t := After(run), After(run + [ReadComments(c)]);
      && t.net == s.net && t.sys == s.sys && t.fans == s.fans
      && t.readings == s.readings[c := s.readings[c].(comments := Some(CommentsOf(s.sys.db, s.readings[c].rows)))]
  {
    hide CanRun, After, CommentsOf;
    Extend(run, ReadComments(c));
  }

  lemma Arriving(run: seq<Step>, c: ConnId, p: Principal, m: R.Manifest, repo: string)
    requires CanRun(run) && CanConnect(After(run).net, c, p, m, repo) && !Busy(After(run), c)
    ensures var more := run + Arrives(c, p, m);
      CanRun(more) &&
      var s, t := After(run), After(more);
      && t.sys == s.sys && t.fans == s.fans && t.readings.Keys == s.readings.Keys + {c} && OthersSame(s.net, t.net, c, m.instanceId)
      && HasRead(t, c, m.instanceId, p, repo, RowsOf(s.sys.db, TenantKey(p), repo))
  {
    hide CanRun, After, RowsOf, CommentsOf, OthersSame, Registered;
    Joins(run, c, p, m, repo);
    var r2 := run + [Whole(Dial(c, c, p, m)), Whole(Join(c))];
    RegisteredIsServed(After(r2).net, c, m.instanceId, p, repo);
    ReadsRows(r2, c, p, repo);
    var r3 := r2 + [ReadRows(c)];
    ReadsComments(r3, c);
    assert r3 + [ReadComments(c)] == run + Arrives(c, p, m);
  }

  lemma RegisteredIsServed(net: State, c: ConnId, id: string, p: Principal, repo: string)
    requires Registered(net, c, id, p, repo)
    ensures c in net.conns
  {
  }

  /** The sync is sent and the goroutine goes on to serve. */
  lemma Settling(run: seq<Step>, c: ConnId, id: string, p: Principal, repo: string, rows: map<Id, Stores.ThreadRow>)
    requires CanRun(run) && HasRead(After(run), c, id, p, repo, rows)
    ensures CanRun(run + [Send(c)]) && CanRun(run + Settles(c))
    ensures var s, t := After(run), After(run + Settles(c));
      && t.sys == s.sys && t.fans == s.fans && t.readings == s.readings - {c} && Member(t, c, id, p, repo)
      && t.net.up == s.net.up && t.net.reg == s.net.reg && t.net.store == s.net.store
      && t.net.conns == s.net.conns[c := s.net.conns[c].(phase := Serving)]
  {
    hide CanRun, After, Next, Enabled, Stepped;
    var s := After(run);
    SyncNext(s.net, c, repo);
    Extend(run, Send(c));
    var r1 := run + [Send(c)];
    SendNet(s, c);
    EndNext(After(r1).net, c);
    Extend(r1, Whole(EndSync(c)));
    WholeEffect(After(r1), EndSync(c));
    assert r1 + [Whole(EndSync(c))] == run + Settles(c);
  }

  lemma SendNet(s: Split, c: ConnId)
    requires CanStep(s, Send(c))
    ensures var t, n := Stepped(s, Send(c)), Next(s.net, SyncRepo(c));
      && t.net.conns == n.conns && t.net.up == n.up && t.net.reg == n.reg && t.net.store == n.store
      && t.sys == s.sys && t.fans == s.fans && t.readings == s.readings - {c}
  {
    hide Next, SentQueues, Enabled;
  }

  function Connects(c: ConnId, p: Principal, m: R.Manifest): seq<Step> {
    Arrives(c, p, m) + Settles(c)
  }

  lemma Connecting(run: seq<Step>, c: ConnId, p: Principal, m: R.Manifest, repo: string)
    requires CanRun(run) && CanConnect(After(run).net, c, p, m, repo) && !Busy(After(run), c)
    ensures var more := run + Connects(c, p, m);
      CanRun(more) &&
      var s, t := After(run), After(more);
      && t.sys == s.sys && t.fans == s.fans && t.readings.Keys == s.readings.Keys && OthersSame(s.net, t.net, c, m.instanceId)
      && Member(t, c, m.instanceId, p, repo)
  {
    hide CanRun, After, RowsOf, Registered;
    Arriving(run, c, p, m, repo);
    var r4 := run + Arrives(c, p, m);
    Settling(r4, c, m.instanceId, p, repo, RowsOf(After(run).sys.db, TenantKey(p), repo));
    assert r4 + Settles(c) == run + Connects(c, p, m);
  }

  /** Another member is not disturbed. */
  lemma MemberStays(s: Split, t: Split, c: ConnId, id: string, d: ConnId, other: string, p: Principal, repo: string)
    requires Member(s, d, other, p, repo) && OthersSame(s.net, t.net, c, id) && d != c && other != id
    requires t.sys == s.sys && t.fans == s.fans && t.readings.Keys <= s.readings.Keys + {c}
    ensures Member(t, d, other, p, repo)
  {
  }

  /** Two members of one tenant that serve one repo. */
  ghost predicate Pair(p: Principal, m: R.Manifest, q: Principal, n: R.Manifest, repo: string) {
    && p.sub != "" && q.sub != "" && TenantKey(p) == TenantKey(q)
    && m.instanceId != "" && n.instanceId != "" && m.instanceId != n.instanceId
    && R.RemotesIn(m.workspaces) == [repo] && R.RemotesIn(n.workspaces) == [repo]
  }

  lemma FirstConnects(p: Principal, m: R.Manifest, repo: string)
    requires p.sub != "" && m.instanceId != "" && R.RemotesIn(m.workspaces) == [repo]
    ensures CanRun(Connects(0, p, m)) && Member(After(Connects(0, p, m)), 0, m.instanceId, p, repo)
    ensures var s := After(Connects(0, p, m));
      && s.sys == SI.INIT && s.fans == map[] && s.readings == map[] && s.net.conns.Keys == {0} && OwnProcesses(s.net)
      && s.net.reg.byInstance.Keys == {m.instanceId}
  {
    hide CanRun, After, Member;
    EmptyRun();
    Connecting([], 0, p, m, repo);
    assert [] + Connects(0, p, m) == Connects(0, p, m);
  }

  lemma BothConnect(p: Principal, m: R.Manifest, q: Principal, n: R.Manifest, repo: string)
    requires Pair(p, m, q, n, repo)
    ensures var run := Connects(0, p, m) + Connects(1, q, n);
      CanRun(run) &&
      var s := After(run);
      && s.sys == SI.INIT && s.fans == map[] && s.readings == map[]
      && Member(s, 0, m.instanceId, p, repo) && Member(s, 1, n.instanceId, q, repo)
  {
    hide CanRun, After, Member;
    FirstConnects(p, m, repo);
    var r := Connects(0, p, m);
    Connecting(r, 1, q, n, repo);
    MemberStays(After(r), After(r + Connects(1, q, n)), 1, n.instanceId, 0, m.instanceId, p, repo);
  }

  // ----- operations -----

  /** The steps of operations leave connections and registrations alone. */
  ghost predicate SameNet(a: State, b: State) {
    b.conns == a.conns && b.up == a.up && b.reg == a.reg
  }

  lemma Works(run: seq<Step>, w: SI.Action)
    requires CanRun(run) && CanStep(After(run), Work(w))
    ensures CanRun(run + [Work(w)])
    ensures var s, t := After(run), After(run + [Work(w)]);
      && t.sys == SI.Next(s.sys, w) && SameNet(s.net, t.net) && t.readings == s.readings && (!w.Commit? ==> t.fans == s.fans)
  {
    hide CanRun, After, Stepped, SI.Next, CanStep;
    Extend(run, Work(w));
    WorkEffect(After(run), w);
  }

  lemma Fans(run: seq<Step>, c: ConnId)
    requires CanRun(run) && c in After(run).fans
    ensures CanRun(run + [FanOut(c)])
    ensures var s, t := After(run), After(run + [FanOut(c)]);
      t.sys == s.sys && SameNet(s.net, t.net) && t.readings == s.readings && t.fans == s.fans - {c}
  {
    hide CanRun, After, Stepped;
    Extend(run, FanOut(c));
    FanEffect(After(run), c);
  }

  ghost predicate RowAt(db: Stores.Tables, tid: Id, org: string, repo: string) {
    tid in db.threadRows && db.threadRows[tid].orgId == org && db.threadRows[tid].workspaceId == repo
  }

  lemma BeginEffect(sys: SI.Sys, c: ConnId, p: Principal, ev: Event, stamp: Ops.Stamp)
    requires c !in sys.flights && SI.FreshStamp(sys, stamp) && ev.op == OpCreate && Ops.Decide(map[], p, ev, stamp).Accept?
    ensures var w := SI.BeginCreate(c, p, ev, stamp);
      SI.Enabled(sys, w) &&
      var t := SI.Next(sys, w);
      && t.db == sys.db && t.lastId == stamp.commentId && t.flights == sys.flights[c := t.flights[c]] && t.flights[c].Edited?
      && t.flights[c].change.thread.id == stamp.threadId && t.flights[c].change.thread.orgId == TenantKey(p)
      && t.flights[c].change.thread.workspaceId == ev.repo
  {
  }

  lemma CommitNext(sys: SI.Sys, c: ConnId)
    requires Shaped(sys) && c in sys.flights && sys.flights[c].Edited?
    ensures SI.Enabled(sys, SI.Commit(c))
    ensures var t, v := SI.Next(sys, SI.Commit(c)), sys.flights[c].change.thread;
      && t.flights == sys.flights - {c} && t.lastId == sys.lastId && RowAt(t.db, v.id, v.orgId, v.workspaceId)
      && Stores.CommentIds(t.db.commentRows, v.id) == Stores.CommentIds(sys.db.commentRows, v.id) + IdsOf(v.comments)
  {
    CommitPlaces(sys, c);
    CommitIds(sys, c, sys.flights[c].change.thread.id);
    RowColumns(sys.flights[c].change.thread);
    hide Shaped, Stores.CommentIds, IdsOf, Stores.RowOfThread, Stores.UpsertThread, Stores.UpsertComments;
  }

  /** A commit leaves a fan-out awaited. */
  lemma Commits(run: seq<Step>, c: ConnId)
    requires CanRun(run) && c in After(run).sys.flights && After(run).sys.flights[c].Edited?
    requires c in After(run).net.conns && After(run).net.conns[c].phase.Serving? && c !in After(run).fans
    ensures CanRun(run + [Work(SI.Commit(c))])
    ensures var s, t := After(run), After(run + [Work(SI.Commit(c))]); var v := s.sys.flights[c].change.thread;
      && SameNet(s.net, t.net) && t.readings == s.readings && t.fans == s.fans[c := t.fans[c]]
      && t.fans[c].change == s.sys.flights[c].change && t.fans[c].tenant == v.orgId
      && t.sys.flights == s.sys.flights - {c} && t.sys.lastId == s.sys.lastId && RowAt(t.sys.db, v.id, v.orgId, v.workspaceId)
      && Stores.CommentIds(t.sys.db.commentRows, v.id) == Stores.CommentIds(s.sys.db.commentRows, v.id) + IdsOf(v.comments)
  {
    hide CanRun, After, Stepped, SI.Next, Sane, FanOf, RowAt, Stores.CommentIds, IdsOf;
    var s := After(run);
    RunStaysSane(run);
    SaneParts(s);
    hide NetOk, ReadsOk, FansOk, FlightsOwned, Shaped;
    CommitNext(s.sys, c);
    assert CanStep(s, Work(SI.Commit(c)));
    Works(run, SI.Commit(c));
    Extend(run, Work(SI.Commit(c)));
    CommitEffect(s, c);
    FanOfChange(s, c);
    FanTenant(s, c);
  }

  function CreateSteps(c: ConnId, p: Principal, ev: Event, stamp: Ops.Stamp): seq<Step> {
    [Work(SI.BeginCreate(c, p, ev, stamp)), Work(SI.Commit(c)), FanOut(c)]
  }

  lemma Creating(run: seq<Step>, c: ConnId, id: string, p: Principal, repo: string, ev: Event, stamp: Ops.Stamp)
    requires CanRun(run) && Member(After(run), c, id, p, repo) && ev.op == OpCreate && ev.repo == repo
    requires Ops.Decide(map[], p, ev, stamp).Accept? && SI.FreshStamp(After(run).sys, stamp)
    ensures var more := run + CreateSteps(c, p, ev, stamp);
      CanRun(more) &&
      var s, t := After(run), After(more);
      && SameNet(s.net, t.net) && t.readings == s.readings && t.fans == s.fans && t.sys.flights == s.sys.flights
      && t.sys.lastId == stamp.commentId && RowAt(t.sys.db, stamp.threadId, TenantKey(p), repo)
  {
    hide CanRun, After, SI.Next, RowAt, Ops.Decide, Stores.CommentIds, IdsOf;
    var s, w := After(run), SI.BeginCreate(c, p, ev, stamp);
    BeginEffect(s.sys, c, p, ev, stamp);
    Works(run, w);
    var r1 := run + [Work(w)];
    Commits(r1, c);
    var r2 := r1 + [Work(SI.Commit(c))];
    Fans(r2, c);
    assert r2 + [FanOut(c)] == run + CreateSteps(c, p, ev, stamp);
    assert s.sys.flights[c := After(r1).sys.flights[c]] - {c} == s.sys.flights;
    assert s.fans[c := After(r2).fans[c]] - {c} == s.fans;
  }

  /** Flight c has loaded thread tid for a reply, with these comments. */
  ghost predicate LoadedReply(sys: SI.Sys, c: ConnId, p: Principal, ev: Event, tid: Id, repo: string, seen: set<Id>) {
    && c in sys.flights && sys.flights[c].Loaded?
    && sys.flights[c].p == p && sys.flights[c].ev == ev && sys.flights[c].seen == seen
    && sys.flights[c].thread.id == tid && sys.flights[c].thread.orgId == TenantKey(p) && sys.flights[c].thread.workspaceId == repo
  }

  lemma LoadRowEffect(sys: SI.Sys, c: ConnId, p: Principal, ev: Event, tid: Id, repo: string)
    requires c !in sys.flights && p.sub != "" && tid != NO_ID && Ops.IsReply(ev, tid) && RowAt(sys.db, tid, TenantKey(p), repo)
    ensures var w := SI.LoadRow(c, p, ev);
      SI.Enabled(sys, w) &&
      var t := SI.Next(sys, w);
      && t.db == sys.db && t.lastId == sys.lastId
      && t.flights == sys.flights[c := SI.RowLoaded(p, ev, tid, sys.db.threadRows[tid], |sys.puts|)]
  {
  }

  lemma LoadRestEffect(sys: SI.Sys, c: ConnId, p: Principal, ev: Event, tid: Id, repo: string)
    requires c in sys.flights && sys.flights[c].RowLoaded? && sys.flights[c].p == p && sys.flights[c].ev == ev && sys.flights[c].id == tid
    requires sys.flights[c].row.orgId == TenantKey(p) && sys.flights[c].row.workspaceId == repo
    ensures var w := SI.LoadRest(c);
      SI.Enabled(sys, w) &&
      var t := SI.Next(sys, w);
      && t.db == sys.db && t.lastId == sys.lastId && t.flights == sys.flights[c := t.flights[c]]
      && LoadedReply(t, c, p, ev, tid, repo, Stores.CommentIds(sys.db.commentRows, tid))
  {
    hide Stores.LoadComments, Stores.CommentIds;
  }

  function LoadSteps(c: ConnId, p: Principal, ev: Event): seq<Step> {
    [Work(SI.LoadRow(c, p, ev)), Work(SI.LoadRest(c))]
  }

  lemma Loading(run: seq<Step>, c: ConnId, id: string, p: Principal, repo: string, ev: Event, tid: Id)
    requires CanRun(run) && Member(After(run), c, id, p, repo) && p.sub != "" && tid != NO_ID && Ops.IsReply(ev, tid)
    requires RowAt(After(run).sys.db, tid, TenantKey(p), repo)
    ensures var more := run + LoadSteps(c, p, ev);
      CanRun(more) &&
      var s, t := After(run), After(more);
      && SameNet(s.net, t.net) && t.readings == s.readings && t.fans == s.fans && t.sys.db == s.sys.db && t.sys.lastId == s.sys.lastId
      && c in t.sys.flights && t.sys.flights == s.sys.flights[c := t.sys.flights[c]]
      && LoadedReply(t.sys, c, p, ev, tid, repo, Stores.CommentIds(s.sys.db.commentRows, tid))
  {
    hide CanRun, After, SI.Next, Stores.CommentIds, Ops.IsReply;
    LoadRowEffect(After(run).sys, c, p, ev, tid, repo);
    Works(run, SI.LoadRow(c, p, ev));
    var r1 := run + [Work(SI.LoadRow(c, p, ev))];
    LoadRestEffect(After(r1).sys, c, p, ev, tid, repo);
    Works(r1, SI.LoadRest(c));
    assert r1 + [Work(SI.LoadRest(c))] == run + LoadSteps(c, p, ev);
  }

  lemma EditEffect(sys: SI.Sys, c: ConnId, p: Principal, ev: Event, tid: Id, repo: string, seen: set<Id>, stamp: Ops.Stamp)
    requires CopiesOk(sys) && LoadedReply(sys, c, p, ev, tid, repo, seen) && tid != NO_ID && Ops.IsReply(ev, tid) && SI.FreshStamp(sys, stamp)
    ensures var w := SI.EditCopy(c, stamp);
      SI.Enabled(sys, w) &&
      var t := SI.Next(sys, w);
      && t.db == sys.db && t.lastId == stamp.commentId && t.flights == sys.flights[c := t.flights[c]] && t.flights[c].Edited?
      && var v := t.flights[c].change.thread;
         v.id == tid && v.orgId == TenantKey(p) && v.workspaceId == repo && IdsOf(v.comments) == seen + {stamp.commentId}
  {
    var f := sys.flights[c];
    assert CopyOk(f);
    IdsOfMore(f.thread.comments, Ops.ReplyOf(p, ev, stamp, tid));
    hide IdsOf, CopiesOk;
  }

  lemma Editing(run: seq<Step>, c: ConnId, p: Principal, ev: Event, tid: Id, repo: string, seen: set<Id>, stamp: Ops.Stamp)
    requires CanRun(run) && LoadedReply(After(run).sys, c, p, ev, tid, repo, seen) && tid != NO_ID && Ops.IsReply(ev, tid)
    requires SI.FreshStamp(After(run).sys, stamp) && c in After(run).net.conns && After(run).net.conns[c].phase.Serving? && c !in After(run).fans
    ensures CanRun(run + [Work(SI.EditCopy(c, stamp))])
    ensures var s, t := After(run), After(run + [Work(SI.EditCopy(c, stamp))]);
      && SameNet(s.net, t.net) && t.readings == s.readings && t.fans == s.fans && t.sys.db == s.sys.db && t.sys.lastId == stamp.commentId
      && c in t.sys.flights && t.sys.flights[c].Edited? && t.sys.flights == s.sys.flights[c := t.sys.flights[c]]
      && var v := t.sys.flights[c].change.thread;
         v.id == tid && v.orgId == TenantKey(p) && v.workspaceId == repo && IdsOf(v.comments) == seen + {stamp.commentId}
  {
    hide CanRun, After, SI.Next, IdsOf, Sane, SameNet;
    RunStaysSane(run);
    CopiesAreOk(After(run));
    hide CopiesOk;
    EditEffect(After(run).sys, c, p, ev, tid, repo, seen, stamp);
    WorkCan(After(run), SI.EditCopy(c, stamp));
    Works(run, SI.EditCopy(c, stamp));
  }

  lemma CopiesAreOk(s: Split)
    requires Sane(s)
    ensures CopiesOk(s.sys)
  {
  }

  function ReplySteps(c: ConnId, stamp: Ops.Stamp): seq<Step> {
    [Work(SI.EditCopy(c, stamp)), Work(SI.Commit(c))]
  }

  /** A loaded reply is edited and committed: its copy has the comments it loaded and its
      own, and the store has those and whatever else was there. */
  lemma Replying(run: seq<Step>, c: ConnId, p: Principal, ev: Event, tid: Id, repo: string, seen: set<Id>, stamp: Ops.Stamp)
    requires CanRun(run) && LoadedReply(After(run).sys, c, p, ev, tid, repo, seen) && tid != NO_ID && Ops.IsReply(ev, tid)
    requires SI.FreshStamp(After(run).sys, stamp) && c in After(run).net.conns && After(run).net.conns[c].phase.Serving? && c !in After(run).fans
    ensures var more := run + ReplySteps(c, stamp);
      CanRun(more) &&
      var s, t := After(run), After(more);
      && SameNet(s.net, t.net) && t.readings == s.readings && c in t.fans && t.fans == s.fans[c := t.fans[c]]
      && t.sys.flights == s.sys.flights - {c} && t.sys.lastId == stamp.commentId && RowAt(t.sys.db, tid, TenantKey(p), repo)
      && Copied(t.fans[c], tid, TenantKey(p), repo, seen + {stamp.commentId})
      && Stores.CommentIds(t.sys.db.commentRows, tid) == Stores.CommentIds(s.sys.db.commentRows, tid) + (seen + {stamp.commentId})
  {
    hide CanRun, After, RowAt, Stores.CommentIds, IdsOf, Ops.IsReply, LoadedReply, SI.FreshStamp;
    Editing(run, c, p, ev, tid, repo, seen, stamp);
    var r1 := run + [Work(SI.EditCopy(c, stamp))];
    Commits(r1, c);
    assert r1 + [Work(SI.Commit(c))] == run + ReplySteps(c, stamp);
    FlightsLess(After(run).sys.flights, After(r1).sys.flights, c);
  }

  lemma FlightsLess(a: Flights, b: Flights, c: ConnId)
    requires c in b && b == a[c := b[c]]
    ensures b - {c} == a - {c}
  {
  }

  lemma WorkCan(s: Split, w: SI.Action)
    requires w.k in s.net.conns && s.net.conns[w.k].phase.Serving? && w.k !in s.fans && SI.Enabled(s.sys, w)
    requires w.EditCopy?
    ensures CanStep(s, Work(w))
  {
  }

  /** The copy awaiting fan-out has exactly these comments. */
  ghost predicate Copied(f: Fan, tid: Id, org: string, repo: string, ids: set<Id>) {
    var v := f.change.thread;
    v.id == tid && v.orgId == org == f.tenant && v.workspaceId == repo && IdsOf(v.comments) == ids
  }

  // ----- the cache left behind -----

  /** The relay of instance id shows the thread without a comment that is stored for it. */
  ghost predicate Lacks(net: State, id: string, c: ConnId, repo: string, tid: Id, cid: Id) {
    && LiveAt(net, id, c) && tid in Drained(net, c, repo) && tid in Wanted(net, id, repo)
    && cid !in IdsOf(Drained(net, c, repo)[tid].comments) && cid in IdsOf(Wanted(net, id, repo)[tid].comments)
  }

  lemma StoredIsWanted(net: State, db: Stores.Tables, id: string, repo: string, tid: Id)
    requires net.store.threads == Stores.View(db) && id in net.reg.byInstance
    requires RowAt(db, tid, TenantKey(net.reg.byInstance[id].principal), repo)
    ensures tid in Wanted(net, id, repo) && IdsOf(Wanted(net, id, repo)[tid].comments) == Stores.CommentIds(db.commentRows, tid)
  {
    ViewColumns(db, tid);
    LoadIdsOrdered(db.commentRows, Stores.CommentIds(db.commentRows, tid));
    hide Stores.LoadIds, Stores.CommentIds, IdsOf;
  }

  lemma RegisteredIsLive(s: Split, c: ConnId, id: string, p: Principal, repo: string)
    requires NetOk(s) && Registered(s.net, c, id, p, repo)
    ensures LiveAt(s.net, id, c)
  {
  }

  /** Fanning out a copy that lacks a stored comment leaves the relay without it. */
  lemma FanLacks(run: seq<Step>, c: ConnId, id: string, to: ConnId, p: Principal, repo: string, tid: Id, ids: set<Id>, cid: Id)
    requires CanRun(run) && c in After(run).fans && Registered(After(run).net, to, id, p, repo)
    requires Copied(After(run).fans[c], tid, TenantKey(p), repo, ids) && RowAt(After(run).sys.db, tid, TenantKey(p), repo)
    requires cid in Stores.CommentIds(After(run).sys.db.commentRows, tid) && cid !in ids
    ensures CanRun(run + [FanOut(c)]) && Lacks(After(run + [FanOut(c)]).net, id, to, repo, tid, cid)
  {
    hide CanRun, After, Sane, Stepped, Drained, Wanted, RowAt, Stores.CommentIds, IdsOf, FansOk;
    var s := After(run);
    RunStaysSane(run);
    SaneParts(s);
    hide Shaped, ReadsOk, FlightsOwned, Wired, SyncedAreServed;
    RegisteredIsLive(s, to, id, p, repo);
    Extend(run, FanOut(c));
    FanLands(s, c, id, to, repo);
    StoredIsWanted(s.net, s.sys.db, id, repo, tid);
  }

  // ----- the runs -----

  ghost predicate Opens(p: Principal, repo: string, ev: Event, stamp: Ops.Stamp) {
    ev.op == OpCreate && ev.repo == repo && Ops.Decide(map[], p, ev, stamp).Accept? && 0 < stamp.threadId < stamp.commentId
  }

  /** Nothing is in progress. */
  ghost predicate Quiet(s: Split) {
    s.readings == map[] && s.fans == map[] && s.sys.flights == map[]
  }

  lemma StoredIsOld(run: seq<Step>, tid: Id)
    requires CanRun(run)
    ensures forall cid :: cid in Stores.CommentIds(After(run).sys.db.commentRows, tid) ==> cid <= After(run).sys.lastId
  {
    hide CanRun, After;
    RunStaysSane(run);
    var sys := After(run).sys;
    assert SI.Inv(sys);
    hide Sane;
  }

  lemma MemberKept(s: Split, t: Split, c: ConnId, id: string, p: Principal, repo: string)
    requires Registered(s.net, c, id, p, repo) && s.net.conns[c].phase.Serving? && SameNet(s.net, t.net) && !Busy(t, c)
    ensures Member(t, c, id, p, repo)
  {
  }

  function Begun(p: Principal, m: R.Manifest, q: Principal, n: R.Manifest, ev: Event, st0: Ops.Stamp): seq<Step> {
    Connects(0, p, m) + Connects(1, q, n) + CreateSteps(0, p, ev, st0)
  }

  /** Two members are connected, and the first has opened a thread. */
  lemma Beginning(p: Principal, m: R.Manifest, q: Principal, n: R.Manifest, repo: string, ev: Event, st0: Ops.Stamp)
    requires Pair(p, m, q, n, repo) && Opens(p, repo, ev, st0)
    ensures var run := Begun(p, m, q, n, ev, st0);
      CanRun(run) &&
      var s := After(run);
      && Member(s, 0, m.instanceId, p, repo) && Member(s, 1, n.instanceId, q, repo) && Quiet(s)
      && s.sys.lastId == st0.commentId && RowAt(s.sys.db, st0.threadId, TenantKey(p), repo)
  {
    hide CanRun, After, RowAt, Ops.Decide;
    BothConnect(p, m, q, n, repo);
    var r := Connects(0, p, m) + Connects(1, q, n);
    Creating(r, 0, m.instanceId, p, repo, ev, st0);
    MemberKept(After(r), After(r + CreateSteps(0, p, ev, st0)), 0, m.instanceId, p, repo);
    MemberKept(After(r), After(r + CreateSteps(0, p, ev, st0)), 1, n.instanceId, q, repo);
  }

  ghost predicate Replies(e1: Event, e2: Event, st0: Ops.Stamp, st1: Ops.Stamp, st2: Ops.Stamp) {
    && Ops.IsReply(e1, st0.threadId) && Ops.IsReply(e2, st0.threadId)
    && st0.commentId < st1.threadId < st1.commentId < st2.threadId < st2.commentId
  }

  /** Both members load the thread before either commits. */
  lemma BothLoad(run: seq<Step>, p: Principal, m: R.Manifest, q: Principal, n: R.Manifest, repo: string, tid: Id, e1: Event, e2: Event)
    requires CanRun(run) && Pair(p, m, q, n, repo) && tid != NO_ID && Ops.IsReply(e1, tid) && Ops.IsReply(e2, tid)
    requires var s := After(run); Member(s, 0, m.instanceId, p, repo) && Member(s, 1, n.instanceId, q, repo) && Quiet(s)
    requires RowAt(After(run).sys.db, tid, TenantKey(p), repo)
    ensures var more := run + LoadSteps(0, p, e1) + LoadSteps(1, q, e2);
      CanRun(more) &&
      var s, t := After(run), After(more);
      var seen := Stores.CommentIds(s.sys.db.commentRows, tid);
      && SameNet(s.net, t.net) && t.readings == map[] && t.fans == map[] && t.sys.db == s.sys.db && t.sys.lastId == s.sys.lastId
      && t.sys.flights.Keys == {0, 1}
      && LoadedReply(t.sys, 0, p, e1, tid, repo, seen) && LoadedReply(t.sys, 1, q, e2, tid, repo, seen)
  {
    hide CanRun, After, RowAt, Ops.IsReply, Stores.CommentIds;
    Loading(run, 0, m.instanceId, p, repo, e1, tid);
    var r1 := run + LoadSteps(0, p, e1);
    MemberKept(After(run), After(r1), 1, n.instanceId, q, repo);
    Loading(r1, 1, n.instanceId, q, repo, e2, tid);
  }

  /** A flight loaded by one member is not touched by the commit of another. */
  lemma LoadedStays(a: SI.Sys, b: SI.Sys, c: ConnId, d: ConnId, p: Principal, ev: Event, tid: Id, repo: string, seen: set<Id>)
    requires LoadedReply(a, d, p, ev, tid, repo, seen) && b.flights == a.flights - {c} && d != c
    ensures LoadedReply(b, d, p, ev, tid, repo, seen)
  {
  }

  function StaleCopySteps(p: Principal, e1: Event, st1: Ops.Stamp, q: Principal, e2: Event, st2: Ops.Stamp): seq<Step> {
    LoadSteps(0, p, e1) + LoadSteps(1, q, e2) + ReplySteps(0, st1) + [FanOut(0)] + ReplySteps(1, st2) + [FanOut(1)]
  }

  /** Two members reply, both having loaded the thread before either commits, and each fans
      out right after its commit. The tables keep both replies, and the second copy that
      is fanned out, the last commit of all, lacks the first. */
  lemma StaleCopyIsFannedOut(
      p: Principal, m: R.Manifest, q: Principal, n: R.Manifest, repo: string, ev: Event, st0: Ops.Stamp, e1: Event, st1: Ops.Stamp, e2: Event, st2: Ops.Stamp)
    requires Pair(p, m, q, n, repo) && Opens(p, repo, ev, st0) && Replies(e1, e2, st0, st1, st2)
    ensures var run := Begun(p, m, q, n, ev, st0) + StaleCopySteps(p, e1, st1, q, e2, st2);
      && CanRun(run) && Quiet(After(run)) && Lacks(After(run).net, m.instanceId, 0, repo, st0.threadId, st1.commentId)
  {
    hide CanRun, After, RowAt, Ops.Decide, Stores.CommentIds, Lacks;
    Beginning(p, m, q, n, repo, ev, st0);
    var r0 := Begun(p, m, q, n, ev, st0);
    StoredIsOld(r0, st0.threadId);
    BothLoad(r0, p, m, q, n, repo, st0.threadId, e1, e2);
    var r4 := r0 + LoadSteps(0, p, e1) + LoadSteps(1, q, e2);
    hide Member, Pair, Opens;
    StaleFan(r4, m.instanceId, p, e1, st1, q, e2, st2, st0.threadId, repo, Stores.CommentIds(After(r0).sys.db.commentRows, st0.threadId));
    assert r4 + ReplySteps(0, st1) + [FanOut(0)] + ReplySteps(1, st2) + [FanOut(1)] == r0 + StaleCopySteps(p, e1, st1, q, e2, st2);
  }

  lemma StaleFan(run: seq<Step>, id: string, p: Principal, e1: Event, st1: Ops.Stamp, q: Principal, e2: Event, st2: Ops.Stamp, tid: Id, repo: string, seen: set<Id>)
    requires CanRun(run) && TenantKey(p) == TenantKey(q) && Registered(After(run).net, 0, id, p, repo) && tid != NO_ID
    requires var s := After(run); s.net.conns[0].phase.Serving? && 1 in s.net.conns && s.net.conns[1].phase.Serving?
    requires var s := After(run); s.readings == map[] && s.fans == map[] && s.sys.flights.Keys == {0, 1}
    requires LoadedReply(After(run).sys, 0, p, e1, tid, repo, seen) && LoadedReply(After(run).sys, 1, q, e2, tid, repo, seen)
    requires Ops.IsReply(e1, tid) && Ops.IsReply(e2, tid) && After(run).sys.lastId < st1.threadId < st1.commentId < st2.threadId < st2.commentId
    requires st1.commentId !in seen
    ensures var more := run + ReplySteps(0, st1) + [FanOut(0)] + ReplySteps(1, st2) + [FanOut(1)];
      CanRun(more) && Quiet(After(more)) && Lacks(After(more).net, id, 0, repo, tid, st1.commentId)
  {
    hide CanRun, After, RowAt, Ops.IsReply, Stores.CommentIds, Lacks, Copied, LoadedReply;
    Replying(run, 0, p, e1, tid, repo, seen, st1);
    var r1 := run + ReplySteps(0, st1);
    Fans(r1, 0);
    var r2 := r1 + [FanOut(0)];
    LoadedStays(After(run).sys, After(r2).sys, 0, 1, q, e2, tid, repo, seen);
    Replying(r2, 1, q, e2, tid, repo, seen, st2);
    var r3 := r2 + ReplySteps(1, st2);
    FanLacks(r3, 1, id, 0, p, repo, tid, seen + {st2.commentId}, st1.commentId);
    Fans(r3, 1);
  }

  function OutOfOrderSteps(p: Principal, e1: Event, st1: Ops.Stamp, q: Principal, e2: Event, st2: Ops.Stamp): seq<Step> {
    LoadSteps(0, p, e1) + ReplySteps(0, st1) + LoadSteps(1, q, e2) + ReplySteps(1, st2) + [FanOut(1), FanOut(0)]
  }

  /** Two members reply one after the other, and their fan-outs are sent in the opposite
      order: the relay ends with the first copy. */
  lemma OutOfOrderIsReachable(
      p: Principal, m: R.Manifest, q: Principal, n: R.Manifest, repo: string, ev: Event, st0: Ops.Stamp, e1: Event, st1: Ops.Stamp, e2: Event, st2: Ops.Stamp)
    requires Pair(p, m, q, n, repo) && Opens(p, repo, ev, st0) && Replies(e1, e2, st0, st1, st2)
    ensures var run := Begun(p, m, q, n, ev, st0) + OutOfOrderSteps(p, e1, st1, q, e2, st2);
      && CanRun(run) && Quiet(After(run)) && Lacks(After(run).net, m.instanceId, 0, repo, st0.threadId, st2.commentId)
  {
    hide CanRun, After, RowAt, Ops.Decide, Stores.CommentIds, Lacks, Copied, Ops.IsReply;
    Beginning(p, m, q, n, repo, ev, st0);
    var r0 := Begun(p, m, q, n, ev, st0);
    var tid := st0.threadId;
    StoredIsOld(r0, tid);
    Loading(r0, 0, m.instanceId, p, repo, e1, tid);
    var r1 := r0 + LoadSteps(0, p, e1);
    var seen := Stores.CommentIds(After(r0).sys.db.commentRows, tid);
    LoadedIsServed(After(r1).sys, 0, p, e1, tid, repo, seen);
    Replying(r1, 0, p, e1, tid, repo, seen, st1);
    var r2 := r1 + ReplySteps(0, st1);
    MemberKept(After(r0), After(r2), 1, n.instanceId, q, repo);
    SecondOvertakes(r2, m.instanceId, n.instanceId, p, st1, q, e2, st2, tid, repo, seen + {st1.commentId});
    assert r2 + LoadSteps(1, q, e2) + ReplySteps(1, st2) + [FanOut(1)] + [FanOut(0)] == r0 + OutOfOrderSteps(p, e1, st1, q, e2, st2);
  }

  lemma LoadedIsServed(sys: SI.Sys, c: ConnId, p: Principal, ev: Event, tid: Id, repo: string, seen: set<Id>)
    requires LoadedReply(sys, c, p, ev, tid, repo, seen)
    ensures c in sys.flights
  {
  }

  lemma SecondOvertakes(run: seq<Step>, id: string, other: string, p: Principal, st1: Ops.Stamp, q: Principal, e2: Event, st2: Ops.Stamp, tid: Id, repo: string, ids: set<Id>)
    requires CanRun(run) && TenantKey(p) == TenantKey(q) && q.sub != "" && tid != NO_ID && Ops.IsReply(e2, tid)
    requires Registered(After(run).net, 0, id, p, repo) && Member(After(run), 1, other, q, repo) && RowAt(After(run).sys.db, tid, TenantKey(p), repo)
    requires var s := After(run); s.readings == map[] && s.fans.Keys == {0} && s.sys.flights == map[] && Copied(s.fans[0], tid, TenantKey(p), repo, ids)
    requires After(run).sys.lastId < st2.threadId < st2.commentId && st2.commentId !in ids
    ensures var more := run + LoadSteps(1, q, e2) + ReplySteps(1, st2) + [FanOut(1)] + [FanOut(0)];
      CanRun(more) && Quiet(After(more)) && Lacks(After(more).net, id, 0, repo, tid, st2.commentId)
  {
    hide CanRun, After, RowAt, Ops.IsReply, Stores.CommentIds, Lacks, Copied, LoadedReply;
    Loading(run, 1, other, q, repo, e2, tid);
    var r1 := run + LoadSteps(1, q, e2);
    var seen := Stores.CommentIds(After(run).sys.db.commentRows, tid);
    Replying(r1, 1, q, e2, tid, repo, seen, st2);
    var r2 := r1 + ReplySteps(1, st2);
    Fans(r2, 1);
    var r3 := r2 + [FanOut(1)];
    FanLacks(r3, 0, id, 0, p, repo, tid, ids, st2.commentId);
    Fans(r3, 0);
  }

  // ----- a sync overtaken by an operation -----

  /** The relay of instance id does not show a thread that is stored for its tenant. */
  ghost predicate Misses(net: State, id: string, c: ConnId, repo: string, tid: Id) {
    LiveAt(net, id, c) && tid !in Drained(net, c, repo) && tid in Wanted(net, id, repo)
  }

  lemma NoRows(org: string, repo: string)
    ensures RowsOf(SI.INIT.db, org, repo) == map[]
  {
  }

  lemma HasReadKept(s: Split, t: Split, c: ConnId, id: string, p: Principal, repo: string, rows: map<Id, Stores.ThreadRow>)
    requires HasRead(s, c, id, p, repo, rows) && SameNet(s.net, t.net) && t.readings == s.readings
    requires t.fans == s.fans && t.sys.flights == s.sys.flights
    ensures HasRead(t, c, id, p, repo, rows)
  {
  }

  /** A sync that read no rows leaves the relay without a thread that is stored now. */
  lemma SendMisses(run: seq<Step>, c: ConnId, id: string, p: Principal, repo: string, tid: Id)
    requires CanRun(run) && HasRead(After(run), c, id, p, repo, map[]) && RowAt(After(run).sys.db, tid, TenantKey(p), repo)
    ensures CanRun(run + [Send(c)]) && Misses(After(run + [Send(c)]).net, id, c, repo, tid)
    ensures var s, t := After(run), After(run + [Send(c)]); t.sys == s.sys && t.fans == s.fans && t.readings == s.readings - {c}
  {
    hide CanRun, After, Sane, Stepped, Drained, Wanted, Next, Stores.View, NetOk, ReadsOk, LiveAt, RepoThreads, Seen, RowAt, Enabled;
    var s := After(run);
    RunStaysSane(run);
    SaneParts(s);
    RegisteredIsLive(s, c, id, p, repo);
    SyncNext(s.net, c, repo);
    Extend(run, Send(c));
    SendNet(s, c);
    SendDrained(s, c, id, c);
    NothingSeen(s.readings[c].comments.value, TenantKey(p), repo);
    RowIsViewed(s.sys.db, tid, TenantKey(p), repo);
  }

  lemma NothingSeen(comments: map<Id, seq<Comment>>, org: string, repo: string)
    ensures RepoThreads(Seen(map[], comments), org, repo) == map[]
  {
    assert Seen(map[], comments) == map[];
  }

  lemma RowIsViewed(db: Stores.Tables, tid: Id, org: string, repo: string)
    requires RowAt(db, tid, org, repo)
    ensures tid in RepoThreads(Stores.View(db), org, repo)
  {
    ViewColumns(db, tid);
    hide Stores.View, Stores.ViewAt;
  }

  /** While a second member arrives, the first opens a thread after the sync has read the
      store and before it is sent: the sync takes the thread out of the cache again. */
  lemma OvertakenSyncIsStale(p: Principal, m: R.Manifest, q: Principal, n: R.Manifest, repo: string, ev: Event, st0: Ops.Stamp)
    requires Pair(p, m, q, n, repo) && Opens(p, repo, ev, st0)
    ensures var run := Connects(0, p, m) + Arrives(1, q, n) + CreateSteps(0, p, ev, st0) + [Send(1)];
      && CanRun(run) && Quiet(After(run)) && Misses(After(run).net, n.instanceId, 1, repo, st0.threadId)
  {
    hide CanRun, After, RowAt, Ops.Decide, RowsOf, Misses, Member, OthersSame, HasRead;
    FirstConnects(p, m, repo);
    var r0 := Connects(0, p, m);
    CanFollow(After(r0).net, q, n, repo, m.instanceId);
    Arriving(r0, 1, q, n, repo);
    var r1 := r0 + Arrives(1, q, n);
    MemberStays(After(r0), After(r1), 1, n.instanceId, 0, m.instanceId, p, repo);
    Creating(r1, 0, m.instanceId, p, repo, ev, st0);
    var r2 := r1 + CreateSteps(0, p, ev, st0);
    NoRows(TenantKey(q), repo);
    HasReadKept(After(r1), After(r2), 1, n.instanceId, q, repo, map[]);
    SendMisses(r2, 1, n.instanceId, q, repo, st0.threadId);
  }

  lemma CanFollow(net: State, q: Principal, n: R.Manifest, repo: string, id: string)
    requires net.conns.Keys == {0} && OwnProcesses(net) && net.reg.byInstance.Keys == {id}
    requires q.sub != "" && n.instanceId != "" && n.instanceId != id && R.RemotesIn(n.workspaces) == [repo]
    ensures CanConnect(net, 1, q, n, repo)
  {
  }
}
