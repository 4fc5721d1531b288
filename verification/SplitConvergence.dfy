/** Convergence of the split protocol: exactly when a sync or a fan-out leaves a cache in
    agreement with the store, and agreement along every run in which no commit falls
    between the parts of another operation or sync on the same threads. */
module SplitConvergence {
  import opened Common
  import opened SpecComments
  import opened CommentRelays
  import opened CommentServices
  import opened Coordination
  import opened Convergence
  import opened CommitViews
  import opened SplitCoordination
  import Ops = CommentOps
  import Stores = CommentStores
  import SI = StoreInterleaving
  import R = Registries

  // ----- one sync -----

  lemma SeenIsKeyed(rows: map<Id, Stores.ThreadRow>, comments: map<Id, seq<Comment>>)
    ensures KeyedThreads(Seen(rows, comments))
  {
  }

  /** All that was read is of the tenant and repo. */
  lemma SeenIsOfRepo(r: Reading)
    requires RowsRead(r) && r.comments.Some?
    ensures var seen := Seen(r.rows, r.comments.value); RepoThreads(seen, r.org, r.repo) == seen && seen.Keys == r.rows.Keys
  {
    var seen := Seen(r.rows, r.comments.value);
    forall id | id in r.rows ensures id in seen && seen[id].orgId == r.org && seen[id].workspaceId == r.repo {
      assert RowRead(r, id);
    }
  }

  /** The tenant's threads in a repo are its rows with their comments. */
  lemma ViewIsRows(db: Stores.Tables, org: string, repo: string)
    ensures RepoThreads(Stores.View(db), org, repo) == Seen(RowsOf(db, org, repo), CommentsOf(db, RowsOf(db, org, repo)))
  {
    hide Stores.LoadComments;
    var view, rows := Stores.View(db), RowsOf(db, org, repo);
    assert view.Keys == db.threadRows.Keys;
    forall id ensures id in RepoThreads(view, org, repo) <==> id in rows {
    }
  }

  lemma SeenSame(rows: map<Id, Stores.ThreadRow>, comments: map<Id, seq<Comment>>, rows': map<Id, Stores.ThreadRow>, comments': map<Id, seq<Comment>>)
    requires comments.Keys == rows.Keys && comments'.Keys == rows'.Keys
    requires (forall id :: id in rows ==> RowOk(rows[id])) && (forall id :: id in rows' ==> RowOk(rows'[id]))
    ensures Seen(rows, comments) == Seen(rows', comments') <==> rows == rows' && comments == comments'
  {
    var seen, seen' := Seen(rows, comments), Seen(rows', comments');
    if seen == seen' {
      assert seen.Keys == rows.Keys && seen'.Keys == rows'.Keys;
      forall id | id in rows ensures rows[id] == rows'[id] && comments[id] == comments'[id] {
        assert seen[id] == seen'[id];
        RowRoundTrip(id, rows[id], comments[id]);
        RowRoundTrip(id, rows'[id], comments'[id]);
        hide Stores.RowOfThread;
      }
    }
  }

  /** What was read is what the store shows exactly when the rows and the comments are. */
  lemma SeenIff(sys: SI.Sys, r: Reading)
    requires RowsPlaced(sys) && RowsRead(r) && r.comments.Some?
    ensures RepoThreads(Seen(r.rows, r.comments.value), r.org, r.repo) == RepoThreads(Stores.View(sys.db), r.org, r.repo) <==>
      ReadingCurrent(sys.db, r)
  {
    var rows := RowsOf(sys.db, r.org, r.repo);
    SeenIsOfRepo(r);
    ViewIsRows(sys.db, r.org, r.repo);
    forall id | id in r.rows ensures RowOk(r.rows[id]) {
      assert RowRead(r, id);
    }
    SeenSame(r.rows, r.comments.value, rows, CommentsOf(sys.db, rows));
  }

  /** The rows read are those of the tenant's repo now, and so are their comments. */
  ghost predicate ReadingCurrent(db: Stores.Tables, r: Reading) {
    && r.rows == RowsOf(db, r.org, r.repo)
    && (r.comments.Some? ==> r.comments.value == CommentsOf(db, r.rows))
  }

  /** What the sync of goroutine c leaves for the connection it is sent to. */
  lemma SendLands(s: Split, c: ConnId, id: string, to: ConnId, r: string)
    requires NetOk(s) && ReadsOk(s) && CanStep(s, Send(c)) && LiveAt(s.net, id, to) && s.net.conns[c].phase.inst.conn == Some(to)
    ensures TenantKey(s.net.reg.byInstance[id].principal) == s.readings[c].org
    ensures var rd := s.readings[c];
      Lookup(Drain(s.net.caches[s.net.conns[to].process], SentQueues(s.net, c, rd)[to]), r) ==
      if r == rd.repo then RepoThreads(Seen(rd.rows, rd.comments.value), rd.org, r) else Drained(s.net, to, r)
  {
    var b, rd := s.net, s.readings[c];
    assert ReaderAt(b, c, rd) && PhaseOk(b, c) && Backed(b, b.reg.byInstance[id]);
    hide NetOk, RepoThreads, Stores.ThreadsForRepo, Seen;
    SeenIsKeyed(rd.rows, rd.comments.value);
    SyncFrameLands(b.caches[b.conns[to].process], b.queues[to], Seen(rd.rows, rd.comments.value), rd.org, rd.repo, r);
  }

  lemma SendEffect(s: Split, c: ConnId)
    requires CanStep(s, Send(c))
    ensures var t := Stepped(s, Send(c));
      && t.net == s.net.(conns := NextConns(s.net, SyncRepo(c)), queues := SentQueues(s.net, c, s.readings[c]),
                         synced := NextHistory(s.net, SyncRepo(c), s.net.synced, true))
      && SameOwners(s.net, t.net) && t.sys == s.sys && t.fans == s.fans && t.readings == s.readings - {c}
  {
    SyncEffect(s.net, SyncRepo(c));
    OwnersStay(s.net, SyncRepo(c));
    hide Next, SentQueues, NextConns, NextHistory, Enabled;
  }

  /** After a send the relay behind the connection agrees with the store on that repo
      exactly when the thread rows that were read are the current ones, and the comments
      that were read after them are, even if the two queries saw different tables. */
  lemma SendAgreesIff(s: Split, c: ConnId, id: string, to: ConnId)
    requires Sane(s) && CanStep(s, Send(c)) && LiveAt(s.net, id, to) && s.net.conns[c].phase.inst.conn == Some(to)
    ensures
      var t, rd := Stepped(s, Send(c)).net, s.readings[c];
      && LiveAt(t, id, to)
      && (Drained(t, to, rd.repo) == Wanted(t, id, rd.repo) <==>
            rd.rows == RowsOf(s.sys.db, rd.org, rd.repo) && rd.comments.value == CommentsOf(s.sys.db, rd.rows))
  {
    hide Stepped, RepoThreads, Shaped, FansOk, FlightsOwned, RowsRead, Seen, RowsOf, CommentsOf, NetOk, LiveAt, Enabled, ReaderAt;
    SendDrained(s, c, id, to);
    ShapedRows(s.sys);
    assert RowsRead(s.readings[c]);
    hide ReadsOk;
    SeenIff(s.sys, s.readings[c]);
  }

  lemma SendDrained(s: Split, c: ConnId, id: string, to: ConnId)
    requires NetOk(s) && ReadsOk(s) && CanStep(s, Send(c)) && LiveAt(s.net, id, to) && s.net.conns[c].phase.inst.conn == Some(to)
    ensures var t, rd := Stepped(s, Send(c)).net, s.readings[c];
      && LiveAt(t, id, to) && Drained(t, to, rd.repo) == RepoThreads(Seen(rd.rows, rd.comments.value), rd.org, rd.repo)
      && Wanted(t, id, rd.repo) == RepoThreads(Stores.View(s.sys.db), rd.org, rd.repo)
  {
    hide Stepped, FrameOf, RepoThreads, Seen, Wired, SyncedAreServed, NextConns, NextHistory, ReadsOk;
    SendLands(s, c, id, to, s.readings[c].repo);
    SendEffect(s, c);
  }

  lemma ShapedRows(sys: SI.Sys)
    requires Shaped(sys)
    ensures RowsPlaced(sys)
  {
  }

  // ----- one fan-out -----

  lemma FanEffect(s: Split, c: ConnId)
    requires CanStep(s, FanOut(c))
    ensures Stepped(s, FanOut(c)) == Split(s.net.(queues := FanQueues(s.net, s.fans[c])), s.sys, s.readings, s.fans - {c})
    ensures FanQueues(s.net, s.fans[c]).Keys == s.net.queues.Keys
  {
    hide ReceivesOn;
  }

  /** What a fan-out leaves for a live connection. */
  lemma FanLands(s: Split, c: ConnId, id: string, to: ConnId, r: string)
    requires NetOk(s) && FansOk(s) && CanStep(s, FanOut(c)) && LiveAt(s.net, id, to)
    ensures var t, f := Stepped(s, FanOut(c)).net, s.fans[c];
      && LiveAt(t, id, to) && Wanted(t, id, r) == Wanted(s.net, id, r)
      && Drained(t, to, r) ==
           if r == f.change.thread.workspaceId && Receives(s.net.reg.byInstance[id], f.tenant, r)
           then Drained(s.net, to, r)[f.change.thread.id := f.change.thread] else Drained(s.net, to, r)
  {
    hide Wired, Receives, RepoThreads, Stepped, FanPut;
    var f := s.fans[c];
    FanEffect(s, c);
    FanOutLands(s.net, id, to, f.tenant, f.change.op, f.change.thread, r);
  }

  ghost predicate SameAt(m: Ops.Threads, n: Ops.Threads, tid: Id) {
    (tid in m <==> tid in n) && (tid in m && tid in n ==> m[tid] == n[tid])
  }

  ghost predicate Shows(threads: Ops.Threads, t: Thread) {
    t.id in threads && threads[t.id] == t
  }

  /** A copy that was fanned out is what the store shows exactly when it was so at the
      commit and the thread shows the same now: comments are never pruned, so a later
      commit does not make up for one the copy lacks. */
  lemma ShownIff(db: Stores.Tables, f: Fan)
    requires FanPut(db, f)
    ensures var t := f.change.thread; var view := Stores.View(db);
      Shows(view, t) <==> f.before <= f.change.seen && t.id in view && view[t.id] == f.put
  {
    var t := f.change.thread;
    ViewColumns(db, t.id);
    if Stores.ViewAt(db, t.id) == t {
      LoadIdsOrdered(db.commentRows, Stores.CommentIds(db.commentRows, t.id));
      assert IdsOf(t.comments) == Stores.CommentIds(db.commentRows, t.id);
    }
  }

  lemma SameAtWhenPut(m: Ops.Threads, threads: Ops.Threads, org: string, t: Thread)
    requires t.orgId == org
    ensures SameAt(m[t.id := t], RepoThreads(threads, org, t.workspaceId), t.id) <==> Shows(threads, t)
  {
    var n := RepoThreads(threads, org, t.workspaceId);
    assert t.id in n ==> n[t.id] == threads[t.id];
    assert Shows(threads, t) ==> t.id in n;
  }

  /** After a fan-out the relay shows the thread as the store has it exactly when the copy
      that was fanned out is what the store shows. */
  lemma FanOutShowsIff(s: Split, c: ConnId, id: string, to: ConnId)
    requires NetOk(s) && FansOk(s) && CanStep(s, FanOut(c)) && LiveAt(s.net, id, to)
    requires Receives(s.net.reg.byInstance[id], s.fans[c].tenant, s.fans[c].change.thread.workspaceId)
    ensures var t, v := Stepped(s, FanOut(c)).net, s.fans[c].change.thread;
      && LiveAt(t, id, to)
      && (SameAt(Drained(t, to, v.workspaceId), Wanted(t, id, v.workspaceId), v.id) <==> Shows(s.net.store.threads, v))
  {
    hide Stepped, Drained, Wired, SyncedAreServed, RepoThreads, SameAt, FanPut, Stores.View;
    var f := s.fans[c];
    FanLands(s, c, id, to, f.change.thread.workspaceId);
    assert FanSent(f);
    SameAtWhenPut(Drained(s.net, to, f.change.thread.workspaceId), s.net.store.threads, f.tenant, f.change.thread);
  }

  /** That is so exactly when each comment that was stored for the thread before the commit
      had been loaded by the operation, and no later commit has changed what readers see
      of the thread. */
  lemma FanOutAgreesIff(s: Split, c: ConnId, id: string, to: ConnId)
    requires Sane(s) && CanStep(s, FanOut(c)) && LiveAt(s.net, id, to)
    requires Receives(s.net.reg.byInstance[id], s.fans[c].tenant, s.fans[c].change.thread.workspaceId)
    ensures
      var t, f, v := Stepped(s, FanOut(c)).net, s.fans[c], s.fans[c].change.thread;
      && LiveAt(t, id, to)
      && (SameAt(Drained(t, to, v.workspaceId), Wanted(t, id, v.workspaceId), v.id) <==>
            f.before <= f.change.seen && v.id in s.net.store.threads && s.net.store.threads[v.id] == f.put)
  {
    hide Stepped, Drained, Wanted, LiveAt, Shaped, ReadsOk, FlightsOwned, Wired, SyncedAreServed, SameAt, FanPut, Stores.View, Receives;
    FanOutShowsIff(s, c, id, to);
    assert FanPut(s.sys.db, s.fans[c]);
    ShownIff(s.sys.db, s.fans[c]);
  }

  // ----- agreement while fan-outs are awaited -----

  /** The fan-out is of thread tid in this tenant's repo. */
  predicate IsFor(f: Fan, org: string, repo: string, tid: Id) {
    f.tenant == org && f.change.thread.workspaceId == repo && f.change.thread.id == tid
  }

  ghost predicate Awaited(fans: Fans, org: string, repo: string, tid: Id) {
    exists d :: d in fans && IsFor(fans[d], org, repo, tid)
  }

  /** Two sets of threads agree but for those whose fan-out is awaited. */
  ghost predicate Agree(fans: Fans, org: string, repo: string, drained: Ops.Threads, wanted: Ops.Threads) {
    forall tid :: Awaited(fans, org, repo, tid) || SameAt(drained, wanted, tid)
  }

  ghost predicate AgreeAt(s: Split, id: string, c: ConnId, r: string)
    requires LiveAt(s.net, id, c)
  {
    Agree(s.fans, TenantKey(s.net.reg.byInstance[id].principal), r, Drained(s.net, c, r), Wanted(s.net, id, r))
  }

  lemma AgreeAfterPut(fans: Fans, c: ConnId, f: Fan, org: string, repo: string, drained: Ops.Threads, wanted: Ops.Threads)
    requires Agree(fans, org, repo, drained, wanted) && c !in fans
    ensures var t := f.change.thread;
      Agree(fans[c := f], org, repo, drained, if f.tenant == org && t.workspaceId == repo then wanted[t.id := t] else wanted)
  {
    var t, more := f.change.thread, fans[c := f];
    assert c in more;
    forall tid ensures Awaited(fans, org, repo, tid) || IsFor(f, org, repo, tid) ==> Awaited(more, org, repo, tid) {
      if d :| d in fans && IsFor(fans[d], org, repo, tid) {
        assert d in more && more[d] == fans[d];
      }
    }
    forall tid ensures Awaited(more, org, repo, tid) ||
      SameAt(drained, if f.tenant == org && t.workspaceId == repo then wanted[t.id := t] else wanted, tid)
    {
      assert Awaited(fans, org, repo, tid) || SameAt(drained, wanted, tid);
    }
  }

  lemma AgreeAfterFan(fans: Fans, c: ConnId, org: string, repo: string, drained: Ops.Threads, wanted: Ops.Threads)
    requires Agree(fans, org, repo, drained, wanted) && c in fans
    requires fans[c].tenant == org && fans[c].change.thread.workspaceId == repo ==> Shows(wanted, fans[c].change.thread)
    ensures var t := fans[c].change.thread;
      Agree(fans - {c}, org, repo, if fans[c].tenant == org && t.workspaceId == repo then drained[t.id := t] else drained, wanted)
  {
    var f, t, less := fans[c], fans[c].change.thread, fans - {c};
    forall tid ensures Awaited(fans, org, repo, tid) ==> Awaited(less, org, repo, tid) || IsFor(f, org, repo, tid) {
      if d :| d in fans && IsFor(fans[d], org, repo, tid) {
        assert d != c ==> d in less && less[d] == fans[d];
      }
    }
    forall tid ensures Awaited(less, org, repo, tid) ||
      SameAt(if f.tenant == org && t.workspaceId == repo then drained[t.id := t] else drained, wanted, tid)
    {
      assert Awaited(fans, org, repo, tid) || SameAt(drained, wanted, tid);
    }
  }

  lemma AgreeWhenEqual(fans: Fans, org: string, repo: string, m: Ops.Threads)
    ensures Agree(fans, org, repo, m, m)
  {
  }

  lemma EqualWhenNoneAwaited(fans: Fans, org: string, repo: string, drained: Ops.Threads, wanted: Ops.Threads)
    requires Agree(fans, org, repo, drained, wanted)
    requires forall d :: d in fans ==> fans[d].change.thread.workspaceId != repo
    ensures drained == wanted
  {
    forall tid ensures SameAt(drained, wanted, tid) {
      assert !Awaited(fans, org, repo, tid);
    }
    assert forall tid :: tid in drained ==> SameAt(drained, wanted, tid);
    assert forall tid :: tid in wanted ==> SameAt(drained, wanted, tid);
  }

  // ----- nothing overtaken -----

  type Flights = map<nat, SI.Flight>

  /** The operation has loaded every comment that is stored for its thread. */
  ghost predicate FlightCurrent(db: Stores.Tables, f: SI.Flight) {
    match f
    case RowLoaded(_, _, _, _, _) => true
    case Loaded(_, _, t, _, seen) => Stores.CommentIds(db.commentRows, t.id) <= seen
    case Edited(change) => Stores.CommentIds(db.commentRows, change.thread.id) <= change.seen
  }

  ghost predicate FansCurrent(view: Ops.Threads, fans: Fans) {
    && (forall c :: c in fans ==> Shows(view, fans[c].change.thread))
    && (forall c, d :: c in fans && d in fans && c != d ==> fans[c].change.thread.id != fans[d].change.thread.id)
  }

  ghost predicate ReadingsCurrent(db: Stores.Tables, readings: Readings) {
    forall c :: c in readings ==> ReadingCurrent(db, readings[c])
  }

  ghost predicate FlightsCurrent(db: Stores.Tables, flights: Flights) {
    forall k :: k in flights ==> FlightCurrent(db, flights[k])
  }

  /** Nothing loaded, read or put has been overtaken by a later commit. */
  ghost predicate Fresh(s: Split) {
    FansCurrent(s.net.store.threads, s.fans) && ReadingsCurrent(s.sys.db, s.readings) && FlightsCurrent(s.sys.db, s.sys.flights)
  }

  ghost predicate Agreeing(s: Split) {
    forall id, c, r {:trigger LiveAt(s.net, id, c), r in SetAt(s.net.synced, id)} ::
      LiveAt(s.net, id, c) && r in SetAt(s.net.synced, id) ==> AgreeAt(s, id, c, r)
  }

  ghost predicate Converging(s: Split) {
    Sane(s) && Fresh(s) && Agreeing(s)
  }

  /** A commit does not fall between the parts of something else: its thread has no fan-out
      outstanding, no other operation has loaded the thread's comments and not committed
      yet, and no sync has begun to read its repo and not sent yet. */
  ghost predicate Apart(s: Split, st: Step)
    requires CanStep(s, st)
  {
    st.Work? && st.w.Commit? ==>
      var t := s.sys.flights[st.w.k].change.thread;
      && (forall d :: d in s.fans ==> s.fans[d].change.thread.id != t.id)
      && (forall d :: d in s.sys.flights && d != st.w.k && !s.sys.flights[d].RowLoaded? ==> SI.CopyOf(s.sys.flights[d]).id != t.id)
      && (forall d :: d in s.readings ==> !(s.readings[d].org == t.orgId && s.readings[d].repo == t.workspaceId))
  }

  // ----- a commit -----

  /** In a fresh state a commit puts its copy, and readers see just that. */
  lemma CommitPuts(s: Split, k: ConnId, f: Thread)
    requires Sane(s) && Fresh(s) && CanStep(s, Work(SI.Commit(k)))
    requires k in s.sys.flights && s.sys.flights[k].Edited? && s.sys.flights[k].change.thread == f
    ensures var t := Stepped(s, Work(SI.Commit(k)));
      && t.net.store.threads == s.net.store.threads[f.id := f]
      && (f.id in s.net.store.threads ==> s.net.store.threads[f.id].orgId == f.orgId && s.net.store.threads[f.id].workspaceId == f.workspaceId)
  {
    hide Stepped, SI.Next, Stores.View, Shaped, ReadsOk, FansOk, FlightsOwned, FansCurrent, ReadingsCurrent;
    WorkEffect(s, SI.Commit(k));
    CommitView(s.sys, k);
    CommitShowsCopyIff(s.sys, k);
    assert FlightCurrent(s.sys.db, s.sys.flights[k]);
    ViewKeys(s.sys.db);
  }

  lemma ViewKeys(db: Stores.Tables)
    ensures Stores.View(db).Keys == db.threadRows.Keys
  {
  }

  lemma FansAfterCommit(s: Split, k: ConnId)
    requires Sane(s) && Fresh(s) && CanStep(s, Work(SI.Commit(k))) && Apart(s, Work(SI.Commit(k)))
    ensures FansCurrent(Stepped(s, Work(SI.Commit(k))).net.store.threads, Stepped(s, Work(SI.Commit(k))).fans)
  {
    hide Stepped, SI.Next, Sane, ReadingsCurrent, FlightsCurrent, FanOf, FansCurrent;
    CommitEffect(s, k);
    CommitPuts(s, k, s.sys.flights[k].change.thread);
    FanOfChange(s, k);
    FansAfterPut(s.net.store.threads, s.fans, k, FanOf(s, k));
  }

  lemma FansAfterPut(view: Ops.Threads, fans: Fans, k: ConnId, f: Fan)
    requires FansCurrent(view, fans) && forall c :: c in fans ==> fans[c].change.thread.id != f.change.thread.id
    ensures FansCurrent(view[f.change.thread.id := f.change.thread], fans[k := f])
  {
  }

  lemma FanOfChange(s: Split, k: ConnId)
    requires CanStep(s, Work(SI.Commit(k))) && s.sys.flights[k].change.thread.id in SI.Next(s.sys, SI.Commit(k)).db.threadRows
    ensures FanOf(s, k).change == s.sys.flights[k].change && FanOf(s, k).tenant == TenantKey(s.net.conns[k].principal)
  {
  }

  /** The rows of another repo, and their comments, stay as they were. */
  lemma ReadingAfterCommit(sys: SI.Sys, k: nat, r: Reading)
    requires Shaped(sys) && SI.Enabled(sys, SI.Commit(k)) && ReadingCurrent(sys.db, r)
    requires var t := sys.flights[k].change.thread; !(r.org == t.orgId && r.repo == t.workspaceId)
    ensures ReadingCurrent(SI.Next(sys, SI.Commit(k)).db, r)
  {
    hide SI.Next, SI.Inv, FlightsPlaced, CopiesOk, Stores.LoadComments, Stores.RowOfThread, RowsOf, CommentsOf, Stores.CommentIds;
    var t, after := sys.flights[k].change.thread, SI.Next(sys, SI.Commit(k)).db;
    CommitPlaces(sys, k);
    RowColumns(t);
    OtherRows(sys.db, after, t.id, Stores.RowOfThread(t), r.org, r.repo);
    forall id | id in r.rows ensures Stores.LoadComments(after.commentRows, id) == Stores.LoadComments(sys.db.commentRows, id) {
      CommitElsewhere(sys, k, id);
    }
    SameComments(sys.db, after, r.rows);
  }

  lemma RowColumns(t: Thread)
    ensures Stores.RowOfThread(t).orgId == t.orgId && Stores.RowOfThread(t).workspaceId == t.workspaceId
  {
  }

  /** A row put in another repo is not among this one's. */
  lemma OtherRows(a: Stores.Tables, b: Stores.Tables, id: Id, row: Stores.ThreadRow, org: string, repo: string)
    requires b.threadRows == a.threadRows[id := row]
    requires !(row.orgId == org && row.workspaceId == repo) && (id in a.threadRows ==> SameColumns(a.threadRows[id], row))
    ensures RowsOf(b, org, repo) == RowsOf(a, org, repo) && id !in RowsOf(a, org, repo)
  {
  }

  lemma SameComments(a: Stores.Tables, b: Stores.Tables, rows: map<Id, Stores.ThreadRow>)
    requires forall id :: id in rows ==> Stores.LoadComments(b.commentRows, id) == Stores.LoadComments(a.commentRows, id)
    ensures CommentsOf(b, rows) == CommentsOf(a, rows)
  {
    hide Stores.LoadComments;
  }

  lemma ReadingsAfterCommit(s: Split, k: ConnId)
    requires Shaped(s.sys) && ReadingsCurrent(s.sys.db, s.readings) && CanStep(s, Work(SI.Commit(k))) && Apart(s, Work(SI.Commit(k)))
    ensures ReadingsCurrent(SI.Next(s.sys, SI.Commit(k)).db, s.readings)
  {
    hide SI.Next, Shaped, ReadingCurrent;
    forall c | c in s.readings ensures ReadingCurrent(SI.Next(s.sys, SI.Commit(k)).db, s.readings[c]) {
      ReadingAfterCommit(s.sys, k, s.readings[c]);
    }
  }

  lemma FlightsAfterCommit(s: Split, k: ConnId)
    requires Shaped(s.sys) && FlightsCurrent(s.sys.db, s.sys.flights) && CanStep(s, Work(SI.Commit(k))) && Apart(s, Work(SI.Commit(k)))
    ensures FlightsCurrent(SI.Next(s.sys, SI.Commit(k)).db, SI.Next(s.sys, SI.Commit(k)).flights)
  {
    hide SI.Next, Shaped, Stores.CommentIds;
    var t := SI.Next(s.sys, SI.Commit(k));
    forall d | d in t.flights ensures FlightCurrent(t.db, t.flights[d]) {
      SI.FlightEffect(s.sys, SI.Commit(k), d);
      assert FlightCurrent(s.sys.db, s.sys.flights[d]);
      if !s.sys.flights[d].RowLoaded? {
        CommitElsewhere(s.sys, k, SI.CopyOf(s.sys.flights[d]).id);
      }
    }
  }

  /** Steps of an operation before its commit leave the tables alone; what they load is
      current. */
  lemma FlightsAfterWork(s: Split, w: SI.Action)
    requires Shaped(s.sys) && FlightsCurrent(s.sys.db, s.sys.flights) && SI.Enabled(s.sys, w) && !w.Commit?
    ensures SI.Next(s.sys, w).db == s.sys.db && FlightsCurrent(s.sys.db, SI.Next(s.sys, w).flights)
  {
    SameTables(s.sys, w);
    hide SI.Next, Shaped;
    var t := SI.Next(s.sys, w);
    forall d | d in t.flights ensures FlightCurrent(s.sys.db, t.flights[d]) {
      SI.FlightEffect(s.sys, w, d);
      if d == w.k {
        FlownIsCurrent(s, w);
      } else {
        assert FlightCurrent(s.sys.db, s.sys.flights[d]);
      }
    }
  }

  lemma SameTables(sys: SI.Sys, w: SI.Action)
    requires SI.Enabled(sys, w) && !w.Commit?
    ensures SI.Next(sys, w).db == sys.db
  {
    hide SI.Flown;
  }

  lemma FlownIsCurrent(s: Split, w: SI.Action)
    requires Shaped(s.sys) && FlightsCurrent(s.sys.db, s.sys.flights) && SI.Enabled(s.sys, w) && !w.Commit? && !w.Abandon?
    ensures FlightCurrent(s.sys.db, SI.Flown(s.sys, w))
  {
    if w.EditCopy? {
      assert FlightCurrent(s.sys.db, s.sys.flights[w.k]);
    } else if w.BeginCreate? {
      ShapedRows(s.sys);
      NoCommentsYet(s.sys, w.stamp.threadId);
    }
    hide Shaped, Stores.LoadComments;
  }

  lemma NoCommentsYet(sys: SI.Sys, id: Id)
    requires RowsPlaced(sys) && id > sys.lastId
    ensures Stores.CommentIds(sys.db.commentRows, id) == {}
  {
  }

  // ----- every step keeps nothing overtaken -----

  lemma CommitStaysFresh(s: Split, k: ConnId)
    requires Sane(s) && Fresh(s) && CanStep(s, Work(SI.Commit(k))) && Apart(s, Work(SI.Commit(k)))
    ensures Fresh(Stepped(s, Work(SI.Commit(k))))
  {
    hide Stepped, SI.Next, NetOk, Shaped, ReadsOk, FansOk, FlightsOwned, FansCurrent, ReadingsCurrent, FlightsCurrent, CanStep, Apart;
    WorkEffect(s, SI.Commit(k));
    FansAfterCommit(s, k);
    ReadingsAfterCommit(s, k);
    FlightsAfterCommit(s, k);
  }

  lemma WorkStaysFresh(s: Split, w: SI.Action)
    requires Sane(s) && Fresh(s) && CanStep(s, Work(w)) && !w.Commit?
    ensures Fresh(Stepped(s, Work(w))) && Stepped(s, Work(w)).net.store.threads == s.net.store.threads
  {
    hide Stepped, SI.Next, Shaped, ReadsOk, FansOk, FlightsOwned, Wired, SyncedAreServed, FansCurrent, ReadingsCurrent, FlightsCurrent, SI.Enabled, Stores.View;
    WorkEffect(s, w);
    FlightsAfterWork(s, w);
  }

  lemma FewerFans(view: Ops.Threads, fans: Fans, c: ConnId)
    requires FansCurrent(view, fans)
    ensures FansCurrent(view, fans - {c})
  {
    hide Shows;
  }

  lemma FewerReadings(db: Stores.Tables, readings: Readings, c: ConnId)
    requires ReadingsCurrent(db, readings)
    ensures ReadingsCurrent(db, readings - {c})
  {
    hide ReadingCurrent;
  }

  lemma MoreReadings(db: Stores.Tables, readings: Readings, c: ConnId, r: Reading)
    requires ReadingsCurrent(db, readings) && ReadingCurrent(db, r)
    ensures ReadingsCurrent(db, readings[c := r])
  {
    hide ReadingCurrent;
  }

  lemma ReadStaysFresh(s: Split, st: Step)
    requires Fresh(s) && CanStep(s, st) && (st.ReadRows? || st.ReadComments?)
    ensures Fresh(Stepped(s, st)) && Stepped(s, st).net == s.net && Stepped(s, st).fans == s.fans
  {
    hide FansCurrent, FlightsCurrent, ReadingsCurrent, RowsOf, CommentsOf;
    if st.ReadComments? {
      CurrentSoFar(s.sys.db, s.readings, st.c);
    }
    MoreReadings(s.sys.db, s.readings, st.c, NextReads(s, st)[st.c]);
  }

  lemma CurrentSoFar(db: Stores.Tables, readings: Readings, c: ConnId)
    requires ReadingsCurrent(db, readings) && c in readings
    ensures ReadingCurrent(db, readings[c])
  {
  }

  lemma WholeEffect(s: Split, a: Action)
    requires CanStep(s, Whole(a))
    ensures var t := Stepped(s, Whole(a));
      && t.net == Next(s.net, a) && t.net.store == s.net.store && t.sys == s.sys && t.fans == s.fans
      && t.readings == (if a.SyncFails? then s.readings - {a.c} else s.readings)
  {
    WholeStore(s.net, a);
    hide Next, Enabled;
  }

  lemma StepStaysFresh(s: Split, st: Step)
    requires Sane(s) && Fresh(s) && CanStep(s, st) && Apart(s, st)
    ensures Fresh(Stepped(s, st))
  {
    hide Stepped, Sane, FansCurrent, ReadingsCurrent, FlightsCurrent, Apart, CanStep, SentQueues, FanQueues, NextConns, NextHistory;
    match st
    case Whole(a) =>
      WholeEffect(s, a);
      FewerReadings(s.sys.db, s.readings, a.c);
    case ReadRows(_) => ReadStaysFresh(s, st);
    case ReadComments(_) => ReadStaysFresh(s, st);
    case Send(c) =>
      SendEffect(s, c);
      FewerReadings(s.sys.db, s.readings, c);
    case Work(w) =>
      if w.Commit? {
        CommitStaysFresh(s, w.k);
      } else {
        WorkStaysFresh(s, w);
      }
    case FanOut(c) =>
      FanEffect(s, c);
      FewerFans(s.net.store.threads, s.fans, c);
  }

  // ----- every step keeps the caches in agreement -----

  lemma CommitAgrees(s: Split, k: ConnId, id: string, c: ConnId, r: string)
    requires Converging(s) && CanStep(s, Work(SI.Commit(k)))
    requires LiveAt(Stepped(s, Work(SI.Commit(k))).net, id, c) && r in SetAt(Stepped(s, Work(SI.Commit(k))).net.synced, id)
    ensures AgreeAt(Stepped(s, Work(SI.Commit(k))), id, c, r)
  {
    hide Sane, Stepped, Fresh, Agree, RepoThreads, SI.Next, FanOf, Stores.View;
    var f := s.sys.flights[k].change.thread;
    WorkEffect(s, SI.Commit(k));
    CommitEffect(s, k);
    CommitPuts(s, k, f);
    FanOfChange(s, k);
    SaneParts(s);
    FanTenant(s, k);
    hide NetOk, Shaped, ReadsOk, FansOk, FlightsOwned;
    assert LiveAt(s.net, id, c) && AgreeAt(s, id, c, r);
    hide CanStep, Agreeing;
    var org := TenantKey(s.net.reg.byInstance[id].principal);
    PersistedView(s.net.store.threads, f, org, r);
    AgreeAfterPut(s.fans, k, FanOf(s, k), org, r, Drained(s.net, c, r), Wanted(s.net, id, r));
  }

  lemma FanTenant(s: Split, k: ConnId)
    requires FlightsOwned(s) && CanStep(s, Work(SI.Commit(k))) && s.sys.flights[k].change.thread.id in SI.Next(s.sys, SI.Commit(k)).db.threadRows
    ensures FanOf(s, k).tenant == s.sys.flights[k].change.thread.orgId
  {
    hide SI.Next;
    assert Owner(s.net.conns[k].principal, s.sys.flights[k]);
  }

  lemma FanAgrees(s: Split, d: ConnId, id: string, c: ConnId, r: string)
    requires Converging(s) && CanStep(s, FanOut(d))
    requires LiveAt(Stepped(s, FanOut(d)).net, id, c) && r in SetAt(Stepped(s, FanOut(d)).net.synced, id)
    ensures AgreeAt(Stepped(s, FanOut(d)), id, c, r)
  {
    hide Stepped, Agree, Drained, Shaped, ReadsOk, FlightsOwned, Wired, RepoThreads, FanPut, ReadingsCurrent, FlightsCurrent, FanQueues;
    var f := s.fans[d];
    FanEffect(s, d);
    assert LiveAt(s.net, id, c) && AgreeAt(s, id, c, r);
    hide Agreeing;
    assert R.Serves(s.net.reg.byInstance[id], r);
    FanLands(s, d, id, c, r);
    assert Shows(s.net.store.threads, f.change.thread) && FanSent(f);
    ShownToTenant(s.net.store.threads, f, TenantKey(s.net.reg.byInstance[id].principal), r);
    AgreeAfterFan(s.fans, d, TenantKey(s.net.reg.byInstance[id].principal), r, Drained(s.net, c, r), Wanted(s.net, id, r));
  }

  lemma ShownToTenant(threads: Ops.Threads, f: Fan, org: string, repo: string)
    requires Shows(threads, f.change.thread) && FanSent(f)
    ensures f.tenant == org && f.change.thread.workspaceId == repo ==> Shows(RepoThreads(threads, org, repo), f.change.thread)
  {
  }

  /** A repo the send adds to the synced ones is the one it sends, over the connection
      registered. */
  lemma SyncedBySend(s: Split, c: ConnId, id: string, to: ConnId, r: string)
    requires ReadsOk(s) && CanStep(s, Send(c)) && LiveAt(s.net, id, to)
    requires r in SetAt(NextHistory(s.net, SyncRepo(c), s.net.synced, true), id)
    ensures r in SetAt(s.net.synced, id) || (s.net.conns[c].phase.inst.conn == Some(to) && r == s.readings[c].repo)
    ensures s.net.conns[c].phase.inst.conn != Some(to) ==> SentQueues(s.net, c, s.readings[c])[to] == s.net.queues[to]
  {
    assert ReaderAt(s.net, c, s.readings[c]);
    hide FrameOf, ReadsOk;
  }

  lemma DrainedAfterSend(s: Split, c: ConnId, id: string, to: ConnId, r: string)
    requires NetOk(s) && ReadsOk(s) && CanStep(s, Send(c)) && LiveAt(Stepped(s, Send(c)).net, id, to)
    requires r in SetAt(Stepped(s, Send(c)).net.synced, id)
    ensures LiveAt(s.net, id, to)
    ensures var t, rd := Stepped(s, Send(c)).net, s.readings[c];
      && t.reg == s.net.reg && Wanted(t, id, r) == Wanted(s.net, id, r)
      && (if s.net.conns[c].phase.inst.conn == Some(to) && r == rd.repo
          then TenantKey(t.reg.byInstance[id].principal) == rd.org && Drained(t, to, r) == RepoThreads(Seen(rd.rows, rd.comments.value), rd.org, r)
          else r in SetAt(s.net.synced, id) && Drained(t, to, r) == Drained(s.net, to, r))
  {
    hide Stepped, SentQueues, RepoThreads, NextConns, NextHistory, ReadsOk, Seen;
    SendEffect(s, c);
    assert Backed(s.net, s.net.reg.byInstance[id]);
    assert LiveAt(s.net, id, to);
    hide NetOk;
    SyncedBySend(s, c, id, to, r);
    if s.net.conns[c].phase.inst.conn == Some(to) {
      SendLands(s, c, id, to, r);
    }
  }

  lemma SendAgrees(s: Split, d: ConnId, id: string, c: ConnId, r: string)
    requires Converging(s) && CanStep(s, Send(d))
    requires LiveAt(Stepped(s, Send(d)).net, id, c) && r in SetAt(Stepped(s, Send(d)).net.synced, id)
    ensures AgreeAt(Stepped(s, Send(d)), id, c, r)
  {
    hide Stepped, Agree, SentQueues, RepoThreads, NextConns, NextHistory, Drained, Shaped, FansOk, FlightsOwned, Wired, SyncedAreServed, Seen, RowsRead, ReaderAt, FansCurrent, FlightsCurrent, RowsOf, CommentsOf, Stores.View;
    var rd := s.readings[d];
    assert ReadingCurrent(s.sys.db, rd) && RowsRead(rd);
    DrainedAfterSend(s, d, id, c, r);
    SendEffect(s, d);
    ShapedRows(s.sys);
    SeenIff(s.sys, rd);
    var t := Stepped(s, Send(d)).net;
    if s.net.conns[d].phase.inst.conn == Some(c) && r == rd.repo {
      AgreeWhenEqual(s.fans, TenantKey(t.reg.byInstance[id].principal), r, Wanted(t, id, r));
    } else {
      assert AgreeAt(s, id, c, r);
    }
  }

  lemma WholeAgrees(s: Split, a: Action, id: string, c: ConnId, r: string)
    requires Converging(s) && CanStep(s, Whole(a))
    requires LiveAt(Stepped(s, Whole(a)).net, id, c) && r in SetAt(Stepped(s, Whole(a)).net.synced, id)
    ensures AgreeAt(Stepped(s, Whole(a)), id, c, r)
  {
    hide Stepped, Next, Enabled, Fresh, RepoThreads, Agree, Shaped, ReadsOk, FansOk, FlightsOwned, Wired, SyncedAreServed, Stores.View;
    WholeEffect(s, a);
    if a.Deliver? {
      DeliverKeeps(s.net, a, id, c, r);
    } else {
      OtherStepsDisturbNothing(s.net, a, id, c, r);
    }
    assert AgreeAt(s, id, c, r);
  }

  lemma StepAgrees(s: Split, st: Step, id: string, c: ConnId, r: string)
    requires Converging(s) && CanStep(s, st)
    requires LiveAt(Stepped(s, st).net, id, c) && r in SetAt(Stepped(s, st).net.synced, id)
    ensures AgreeAt(Stepped(s, st), id, c, r)
  {
    hide Stepped, Sane, Fresh, CanStep, Agree;
    match st
    case Whole(a) => WholeAgrees(s, a, id, c, r);
    case Send(d) => SendAgrees(s, d, id, c, r);
    case FanOut(d) => FanAgrees(s, d, id, c, r);
    case ReadRows(_) => ReadStaysFresh(s, st); assert AgreeAt(s, id, c, r);
    case ReadComments(_) => ReadStaysFresh(s, st); assert AgreeAt(s, id, c, r);
    case Work(w) =>
      if w.Commit? {
        CommitAgrees(s, w.k, id, c, r);
      } else {
        WorkEffect(s, w);
        WorkStaysFresh(s, w);
        assert AgreeAt(s, id, c, r);
      }
  }

  lemma StepConverges(s: Split, st: Step)
    requires Converging(s) && CanStep(s, st) && Apart(s, st)
    ensures Converging(Stepped(s, st))
  {
    hide Sane, Fresh, Stepped, CanStep, Apart, AgreeAt;
    StaysSane(s, st);
    StepStaysFresh(s, st);
    var t := Stepped(s, st);
    forall id, c, r | LiveAt(t.net, id, c) && r in SetAt(t.net.synced, id) ensures AgreeAt(t, id, c, r) {
      StepAgrees(s, st, id, c, r);
    }
  }

  // ----- every run -----

  ghost predicate CanRun(run: seq<Step>)
    decreases |run|, 0
  {
    run == [] || (CanRun(run[..|run| - 1]) && CanStep(After(run[..|run| - 1]), run[|run| - 1]))
  }

  /** The state every run reaches. */
  ghost function After(run: seq<Step>): Split
    requires CanRun(run)
    decreases |run|, 1
  {
    if run == [] then START else Stepped(After(run[..|run| - 1]), run[|run| - 1])
  }

  /** No commit of the run falls between the parts of something else on the same threads. */
  ghost predicate AllApart(run: seq<Step>)
    requires CanRun(run)
    decreases |run|
  {
    run == [] || (AllApart(run[..|run| - 1]) && Apart(After(run[..|run| - 1]), run[|run| - 1]))
  }

  lemma {:induction false} RunStaysSane(run: seq<Step>)
    requires CanRun(run)
    ensures Sane(After(run))
    decreases |run|
  {
    hide Sane, CanStep, Stepped;
    if run == [] {
      StartIsSane();
    } else {
      RunStaysSane(run[..|run| - 1]);
      StaysSane(After(run[..|run| - 1]), run[|run| - 1]);
    }
  }

  lemma {:induction false} RunConverges(run: seq<Step>)
    requires CanRun(run) && AllApart(run)
    ensures Converging(After(run))
    decreases |run|
  {
    hide Converging, CanStep, Stepped, Apart;
    if run == [] {
      StartConverges();
    } else {
      RunConverges(run[..|run| - 1]);
      StepConverges(After(run[..|run| - 1]), run[|run| - 1]);
    }
  }

  lemma StartConverges()
    ensures Converging(START)
  {
    StartIsSane();
  }

  /** Convergence of the split protocol: along every run without such overlaps, draining
      the queue of a live connection gives, for each synced repo, exactly the store's
      threads of its tenant, but for those whose fan-out is still awaited. */
  lemma SplitCacheConvergence(run: seq<Step>, id: string, c: ConnId, repo: string)
    requires CanRun(run) && AllApart(run)
    requires LiveAt(After(run).net, id, c) && repo in SetAt(After(run).net.synced, id)
    ensures AgreeAt(After(run), id, c, repo)
    ensures var s := After(run);
      (forall d :: d in s.fans ==> s.fans[d].change.thread.workspaceId != repo) ==> Drained(s.net, c, repo) == Wanted(s.net, id, repo)
  {
    hide CanRun, After, AllApart, Drained, Wanted, Agree, Sane, Fresh;
    RunConverges(run);
    var s := After(run);
    assert AgreeAt(s, id, c, repo);
    if forall d :: d in s.fans ==> s.fans[d].change.thread.workspaceId != repo {
      var org := TenantKey(s.net.reg.byInstance[id].principal);
      EqualWhenNoneAwaited(s.fans, org, repo, Drained(s.net, c, repo), Wanted(s.net, id, repo));
    }
  }

  // ----- two fan-outs in the wrong order -----

  /** Two operations on one thread whose fan-outs are sent in the opposite order to
      their commits: the relay ends with the first version, so it agrees with the store
      exactly when the second commit changed nothing. */
  lemma FansOutOfOrder(s: Split, first: ConnId, second: ConnId, id: string, to: ConnId)
    requires Sane(s) && first != second && first in s.fans && second in s.fans && LiveAt(s.net, id, to)
    requires s.fans[first].change.thread.id == s.fans[second].change.thread.id && Shows(s.net.store.threads, s.fans[second].change.thread)
    requires Receives(s.net.reg.byInstance[id], s.fans[first].tenant, s.fans[first].change.thread.workspaceId)
    ensures CanStep(s, FanOut(second)) && CanStep(Stepped(s, FanOut(second)), FanOut(first))
    ensures
      var t, v := Stepped(Stepped(s, FanOut(second)), FanOut(first)).net, s.fans[first].change.thread;
      && LiveAt(t, id, to)
      && (SameAt(Drained(t, to, v.workspaceId), Wanted(t, id, v.workspaceId), v.id) <==> v == s.fans[second].change.thread)
  {
    hide Sane, Stepped, Drained, Wanted, Receives, SameAt, NetOk, FansOk, FanQueues;
    var mid := Stepped(s, FanOut(second));
    FanEffect(s, second);
    StaysSane(s, FanOut(second));
    SaneParts(mid);
    FanOutShowsIff(mid, first, id, to);
  }

  // ----- a sync overtaken by a commit -----

  /** Between the reads and the send of a sync, another operation commits and fans out a
      thread of that repo: the relay then agrees with the store exactly when the commit
      changed nothing of what readers see, whether the thread is new or old. */
  lemma OvertakenSyncIff(s: Split, c: ConnId, d: ConnId, v: Thread, id: string, to: ConnId)
    requires Sane(s) && c in s.readings && s.readings[c].comments.Some? && ReadingCurrent(s.sys.db, s.readings[c])
    requires CanStep(s, Work(SI.Commit(d))) && d in s.sys.flights && s.sys.flights[d].Edited? && s.sys.flights[d].change.thread == v
    requires v.orgId == s.readings[c].org && v.workspaceId == s.readings[c].repo
    requires LiveAt(s.net, id, to) && c in s.net.conns && s.net.conns[c].phase.Syncing? && s.net.conns[c].phase.inst.conn == Some(to)
    ensures var s1 := Stepped(s, Work(SI.Commit(d)));
      CanStep(s1, FanOut(d)) &&
      var s2 := Stepped(s1, FanOut(d));
      CanStep(s2, Send(c)) &&
      var t := Stepped(s2, Send(c)).net;
      && LiveAt(t, id, to)
      && (Drained(t, to, v.workspaceId) == Wanted(t, id, v.workspaceId) <==>
            v.id in s.net.store.threads && v.id in s1.net.store.threads && s1.net.store.threads[v.id] == s.net.store.threads[v.id])
  {
    hide Stepped, Sane, Drained, Wanted, LiveAt, RowsOf, CommentsOf, SI.Next, CanStep, RowsRead, ReaderAt;
    var s1 := Stepped(s, Work(SI.Commit(d)));
    ReadIsOk(s, c);
    var s2 := CommitThenFan(s, d, id, to);
    ReaderFrame(s.net, s2.net, c, s.readings[c]);
    SendCan(s2, c);
    SendAgreesIff(s2, c, id, to);
    CommitChangesView(s, d, v, s.readings[c]);
  }

  lemma ReadIsOk(s: Split, c: ConnId)
    requires Sane(s) && c in s.readings
    ensures ReaderAt(s.net, c, s.readings[c]) && RowsRead(s.readings[c])
  {
  }

  lemma SendCan(s: Split, c: ConnId)
    requires c in s.readings && s.readings[c].comments.Some? && ReaderAt(s.net, c, s.readings[c])
    ensures CanStep(s, Send(c))
  {
  }

  lemma CommitThenFan(s: Split, d: ConnId, id: string, to: ConnId) returns (s2: Split)
    requires Sane(s) && CanStep(s, Work(SI.Commit(d))) && LiveAt(s.net, id, to)
    ensures var s1 := Stepped(s, Work(SI.Commit(d)));
      && CanStep(s1, FanOut(d)) && s2 == Stepped(s1, FanOut(d)) && Sane(s2) && LiveAt(s2.net, id, to)
      && s2.sys == s1.sys && s2.net.conns == s.net.conns && s2.readings == s.readings
  {
    hide Stepped, Sane, FanQueues, FanOf, SI.Next, SI.Enabled, Stores.View;
    StaysSane(s, Work(SI.Commit(d)));
    WorkEffect(s, SI.Commit(d));
    CommitEffect(s, d);
    var s1 := Stepped(s, Work(SI.Commit(d)));
    FanCan(s1, d);
    hide CanStep;
    StaysSane(s1, FanOut(d));
    FanEffect(s1, d);
    s2 := Stepped(s1, FanOut(d));
  }

  lemma FanCan(s: Split, c: ConnId)
    requires c in s.fans
    ensures CanStep(s, FanOut(c))
  {
  }

  /** What a sync read before a commit in its repo is current after it exactly when the
      commit changed nothing. */
  lemma CommitChangesView(s: Split, d: ConnId, v: Thread, r: Reading)
    requires Sane(s) && RowsRead(r) && r.comments.Some? && ReadingCurrent(s.sys.db, r)
    requires CanStep(s, Work(SI.Commit(d))) && d in s.sys.flights && s.sys.flights[d].Edited? && s.sys.flights[d].change.thread == v
    requires v.orgId == r.org && v.workspaceId == r.repo
    ensures var t := Stepped(s, Work(SI.Commit(d)));
      ReadingCurrent(t.sys.db, r) <==>
        v.id in s.net.store.threads && v.id in t.net.store.threads && t.net.store.threads[v.id] == s.net.store.threads[v.id]
  {
    hide Stepped, Sane, SI.Next, ReadingCurrent, RowsRead, RepoThreads, Seen, Stores.View, Stores.ViewAt, CanStep;
    var t := Stepped(s, Work(SI.Commit(d)));
    StaysSane(s, Work(SI.Commit(d)));
    WorkEffect(s, SI.Commit(d));
    ViewsOf(s);
    ViewsOf(t);
    SeenIff(s.sys, r);
    SeenIff(t.sys, r);
    CommitView(s.sys, d);
    ViewKeys(s.sys.db);
    ViewChanges(s.net.store.threads, v.id, Stores.ViewAt(t.sys.db, v.id), r.org, r.repo);
  }

  lemma ViewsOf(s: Split)
    requires Sane(s)
    ensures s.net.store.threads == Stores.View(s.sys.db) && RowsPlaced(s.sys) && Shaped(s.sys)
  {
  }

  /** Replacing a thread changes what its repo shows exactly when it changes the thread. */
  lemma ViewChanges(threads: Ops.Threads, id: Id, v: Thread, org: string, repo: string)
    requires v.orgId == org && v.workspaceId == repo
    requires id in threads ==> threads[id].orgId == org && threads[id].workspaceId == repo
    ensures RepoThreads(threads, org, repo) == RepoThreads(threads[id := v], org, repo) <==> id in threads && threads[id] == v
  {
    var m, n := RepoThreads(threads, org, repo), RepoThreads(threads[id := v], org, repo);
    assert id in n && n[id] == v;
    if id in threads && threads[id] == v {
      assert threads[id := v] == threads;
    } else {
      assert id in m ==> m[id] == threads[id];
    }
  }
}
