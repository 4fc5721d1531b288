/** The coordination protocol with its compound steps taken apart, over the Postgres
    tables: an operation loads its thread row, then its comments, edits its copy, commits
    it and fans it out, and a sync reads the thread rows of a repo, then their comments,
    and sends what it read. The code holds no lock across any two of these
    (internal/coordinator/comments.go, pgstore.go). */
module SplitCoordination {
  import opened Common
  import opened SpecComments
  import opened CommentRelays
  import opened CommentServices
  import opened Coordination
  import opened Convergence
  import opened CommitViews
  import Ops = CommentOps
  import Stores = CommentStores
  import SI = StoreInterleaving
  import R = Registries

  /** What the goroutine of a connection has read and not yet sent: the thread rows of one
      tenant and repo, and once the second query is done, their comments. */
  datatype Reading = Reading(org: string, repo: string, rows: map<Id, Stores.ThreadRow>, comments: Option<map<Id, seq<Comment>>>)

  /** What it has committed and not yet fanned out. History: the ids of the comments that
      were stored for the thread before the commit, and the thread as readers saw it
      right after. */
  datatype Fan = Fan(tenant: string, change: SI.Change, before: set<Id>, put: Thread)

  type Readings = map<ConnId, Reading>
  type Fans = map<ConnId, Fan>

  /** The store of net is what the tables show. An operation in flight is kept under the
      connection it came from. */
  datatype Split = Split(net: State, sys: SI.Sys, readings: Readings, fans: Fans)

  datatype Step =
    | Whole(a: Action)
    | ReadRows(c: ConnId)
    | ReadComments(c: ConnId)
    | Send(c: ConnId)
    | Work(w: SI.Action)
    | FanOut(c: ConnId)

  const START := Split(INIT, SI.INIT, map[], map[])

  predicate Busy(s: Split, c: ConnId) {
    c in s.readings || c in s.fans || c in s.sys.flights
  }

  /** The goroutine serving a connection takes these steps itself. */
  predicate OwnStep(a: Action) {
    !a.Dial? && !a.Deliver? && !a.Drop?
  }

  /** The second query of a sync fails. */
  predicate HalfRead(s: Split, a: Action) {
    a.SyncFails? && a.c in s.readings && s.readings[a.c].comments.None?
  }

  ghost predicate CanStep(s: Split, st: Step) {
    match st
    case Whole(a) => !a.SyncRepo? && !a.Submit? && Enabled(s.net, a) && (OwnStep(a) ==> !Busy(s, a.c) || HalfRead(s, a))
    case ReadRows(c) => Enabled(s.net, SyncRepo(c)) && !Busy(s, c)
    case ReadComments(c) => c in s.readings && s.readings[c].comments.None?
    case Send(c) => c in s.readings && s.readings[c].comments.Some? && Enabled(s.net, SyncRepo(c))
    case Work(w) =>
      && w.k in s.net.conns && s.net.conns[w.k].phase.Serving? && w.k !in s.fans && SI.Enabled(s.sys, w)
      && (w.BeginCreate? || w.LoadRow? ==> w.p == s.net.conns[w.k].principal)
    case FanOut(c) => c in s.fans
  }

  ghost function RowsOf(db: Stores.Tables, org: string, repo: string): map<Id, Stores.ThreadRow> {
    map id | id in db.threadRows && db.threadRows[id].orgId == org && db.threadRows[id].workspaceId == repo :: db.threadRows[id]
  }

  ghost function CommentsOf(db: Stores.Tables, rows: map<Id, Stores.ThreadRow>): map<Id, seq<Comment>> {
    map id | id in rows :: Stores.LoadComments(db.commentRows, id)
  }

  /** The threads that were read. */
  ghost function Seen(rows: map<Id, Stores.ThreadRow>, comments: map<Id, seq<Comment>>): Ops.Threads {
    map id | id in rows && id in comments :: Stores.ThreadOfRow(id, rows[id], comments[id])
  }

  ghost function FrameOf(r: Reading): Event
    requires r.comments.Some?
  {
    SyncFrame(r.repo, Stores.ThreadsForRepo(Seen(r.rows, r.comments.value), r.org, r.repo))
  }

  ghost function SentQueues(b: State, c: ConnId, r: Reading): Queues
    requires Enabled(b, SyncRepo(c)) && r.comments.Some?
  {
    var inst := b.conns[c].phase.inst;
    if inst.conn.Some? then Sent(b.queues, b.up, inst.conn.value, FrameOf(r)) else b.queues
  }

  ghost function FanQueues(b: State, f: Fan): Queues {
    var t := f.change.thread;
    FannedOut(b.reg.byInstance, b.queues, b.up, f.tenant, t.workspaceId, ThreadFrame(f.change.op, t.workspaceId, t))
  }

  ghost function NextNet(s: Split, st: Step): State
    requires CanStep(s, st)
  {
    match st
    case Whole(a) => Next(s.net, a)
    case Send(c) => Next(s.net, SyncRepo(c)).(queues := SentQueues(s.net, c, s.readings[c]))
    case Work(w) => s.net.(store := Ops.Store(Stores.View(SI.Next(s.sys, w).db), SI.Next(s.sys, w).lastId))
    case FanOut(c) => s.net.(queues := FanQueues(s.net, s.fans[c]))
    case _ => s.net
  }

  ghost function NextReads(s: Split, st: Step): Readings
    requires CanStep(s, st)
  {
    match st
    case Whole(a) => if a.SyncFails? then s.readings - {a.c} else s.readings
    case ReadRows(c) =>
      var org, repo := TenantKey(s.net.conns[c].phase.inst.principal), s.net.conns[c].phase.pending[0];
      s.readings[c := Reading(org, repo, RowsOf(s.sys.db, org, repo), None)]
    case ReadComments(c) => s.readings[c := s.readings[c].(comments := Some(CommentsOf(s.sys.db, s.readings[c].rows)))]
    case Send(c) => s.readings - {c}
    case _ => s.readings
  }

  ghost function FanOf(s: Split, k: ConnId): Fan
    requires k in s.net.conns && SI.Enabled(s.sys, SI.Commit(k))
    requires s.sys.flights[k].change.thread.id in SI.Next(s.sys, SI.Commit(k)).db.threadRows
  {
    var f := s.sys.flights[k].change;
    Fan(TenantKey(s.net.conns[k].principal), f, Stores.CommentIds(s.sys.db.commentRows, f.thread.id),
        Stores.ViewAt(SI.Next(s.sys, SI.Commit(k)).db, f.thread.id))
  }

  ghost function NextFans(s: Split, st: Step): Fans
    requires CanStep(s, st)
  {
    if st.Work? && st.w.Commit? then s.fans[st.w.k := FanOf(s, st.w.k)]
    else if st.FanOut? then s.fans - {st.c}
    else s.fans
  }

  ghost function Stepped(s: Split, st: Step): Split
    requires CanStep(s, st)
  {
    Split(NextNet(s, st), if st.Work? then SI.Next(s.sys, st.w) else s.sys, NextReads(s, st), NextFans(s, st))
  }

  // ----- what the split steps change -----

  lemma CommitHasRow(sys: SI.Sys, k: ConnId)
    requires SI.Enabled(sys, SI.Commit(k))
    ensures sys.flights[k].change.thread.id in SI.Next(sys, SI.Commit(k)).db.threadRows
  {
    hide Stores.UpsertComments;
  }

  lemma WorkEffect(s: Split, w: SI.Action)
    requires CanStep(s, Work(w))
    ensures var t := Stepped(s, Work(w));
      && t.sys == SI.Next(s.sys, w) && t.net == s.net.(store := Ops.Store(Stores.View(t.sys.db), t.sys.lastId)) && t.readings == s.readings
      && (!w.Commit? ==> t.fans == s.fans)
  {
    hide SI.Next, Stores.View, FanOf;
  }

  lemma CommitEffect(s: Split, k: ConnId)
    requires CanStep(s, Work(SI.Commit(k)))
    ensures s.sys.flights[k].change.thread.id in SI.Next(s.sys, SI.Commit(k)).db.threadRows
    ensures Stepped(s, Work(SI.Commit(k))).fans == s.fans[k := FanOf(s, k)] && k !in s.fans
  {
    CommitHasRow(s.sys, k);
    hide SI.Next, Stores.View, FanOf;
  }

  // ----- what every run keeps -----

  ghost predicate RowRead(r: Reading, id: Id)
    requires id in r.rows
  {
    RowOk(r.rows[id]) && r.rows[id].orgId == r.org && r.rows[id].workspaceId == r.repo
  }

  ghost predicate RowsRead(r: Reading) {
    && (forall id :: id in r.rows ==> RowRead(r, id))
    && (r.comments.Some? ==> r.comments.value.Keys == r.rows.Keys)
  }

  /** The goroutine stands at the repo it has read. */
  ghost predicate ReaderAt(net: State, c: ConnId, r: Reading) {
    && Enabled(net, SyncRepo(c)) && r.repo == net.conns[c].phase.pending[0]
    && r.org == TenantKey(net.conns[c].phase.inst.principal)
  }

  ghost predicate ReadsOk(s: Split) {
    forall c :: c in s.readings ==> ReaderAt(s.net, c, s.readings[c]) && RowsRead(s.readings[c])
  }

  ghost predicate FanSent(f: Fan) {
    f.tenant == f.change.thread.orgId && f.change.thread.workspaceId != "" && f.change.op != OpSync
  }

  /** What was put is the copy exactly when each comment stored before had been loaded;
      and what was stored before still is. */
  ghost predicate FanPut(db: Stores.Tables, f: Fan) {
    var t := f.change.thread;
    && t.id in db.threadRows && f.before <= Stores.CommentIds(db.commentRows, t.id)
    && (f.before <= f.change.seen <==> f.before <= IdsOf(t.comments))
    && (f.put == t <==> f.before <= f.change.seen)
  }

  ghost predicate FansOk(s: Split) {
    forall c :: c in s.fans ==> FanSent(s.fans[c]) && FanPut(s.sys.db, s.fans[c])
  }

  ghost predicate Owner(p: Principal, f: SI.Flight) {
    match f
    case RowLoaded(q, _, _, _, _) => q == p
    case Loaded(q, _, _, _, _) => q == p
    case Edited(change) => change.thread.orgId == TenantKey(p)
  }

  ghost predicate FlightsOwned(s: Split) {
    forall k :: k in s.sys.flights ==>
      k in s.net.conns && s.net.conns[k].phase.Serving? && Owner(s.net.conns[k].principal, s.sys.flights[k])
  }

  ghost predicate NetOk(s: Split) {
    Wired(s.net) && SyncedAreServed(s.net) && s.net.store.threads == Stores.View(s.sys.db)
  }

  ghost predicate Sane(s: Split) {
    NetOk(s) && Shaped(s.sys) && ReadsOk(s) && FansOk(s) && FlightsOwned(s)
  }

  lemma SaneParts(s: Split)
    requires Sane(s)
    ensures NetOk(s) && Shaped(s.sys) && ReadsOk(s) && FansOk(s) && FlightsOwned(s)
  {
  }

  // ----- connections and registrations -----

  /** Being wired does not depend on the store, nor on what the queues hold. */
  lemma WiredWith(t: State, u: State)
    requires Wired(t) && SyncedAreServed(t) && u == t.(queues := u.queues, store := u.store) && u.queues.Keys == t.queues.Keys
    ensures Wired(u) && SyncedAreServed(u)
  {
    assert ConnsOk(u);
    forall c | c in u.conns ensures PhaseOk(u, c) {
      assert PhaseOk(t, c);
    }
    forall id | id in u.reg.byInstance ensures Backed(u, u.reg.byInstance[id]) {
      assert Backed(t, t.reg.byInstance[id]);
    }
  }

  lemma SendKeys(b: State, c: ConnId, r: Reading)
    requires Wired(b) && Enabled(b, SyncRepo(c)) && r.comments.Some?
    ensures SentQueues(b, c, r).Keys == Next(b, SyncRepo(c)).queues.Keys
  {
    KeysStay(b, SyncRepo(c));
    hide Next, FrameOf;
  }

  lemma WiringStays(s: Split, st: Step)
    requires NetOk(s) && CanStep(s, st)
    ensures Wired(NextNet(s, st)) && SyncedAreServed(NextNet(s, st))
  {
    hide Wired, SyncedAreServed, Next, Enabled, SentQueues;
    match st
    case Whole(a) =>
      WiredStays(s.net, a);
      ServedStays(s.net, a);
    case Send(c) =>
      WiredStays(s.net, SyncRepo(c));
      ServedStays(s.net, SyncRepo(c));
      SendKeys(s.net, c, s.readings[c]);
      WiredWith(Next(s.net, SyncRepo(c)), NextNet(s, st));
    case Work(w) => WiredWith(s.net, NextNet(s, st));
    case FanOut(c) => WiredWith(s.net, NextNet(s, st));
    case _ =>
  }

  /** The steps that are not split leave the store alone. */
  lemma WholeStore(b: State, a: Action)
    requires Enabled(b, a) && !a.Submit?
    ensures Next(b, a).store == b.store
  {
    hide NextReg, NextConns, NextQueues, NextUp, NextCaches, NextHistory;
  }

  lemma NetStays(s: Split, st: Step)
    requires NetOk(s) && CanStep(s, st)
    ensures NetOk(Stepped(s, st))
  {
    WiringStays(s, st);
    if st.Whole? {
      WholeStore(s.net, st.a);
    } else if st.Send? {
      WholeStore(s.net, SyncRepo(st.c));
    }
    hide Wired, SyncedAreServed, Next, Enabled, NextReads, NextFans, SI.Next, SentQueues, FanQueues, Stores.View;
  }

  /** A goroutine stands where it stood, whatever others do. */
  lemma OthersStand(b: State, a: Action, c: ConnId)
    requires Enabled(b, a) && c in b.conns && (a.c != c || !OwnStep(a))
    ensures c in Next(b, a).conns && Next(b, a).conns[c] == b.conns[c]
  {
    OwnersStay(b, a);
    hide NextReg, NextQueues, NextStore, NextUp, NextCaches, NextHistory;
  }

  /** A goroutine in the middle of something is moved by its own next step only. */
  lemma BusyStands(s: Split, st: Step, c: ConnId)
    requires CanStep(s, st) && c in s.net.conns && Busy(s, c)
    requires !(st.Send? && st.c == c) && !(st.Whole? && HalfRead(s, st.a) && st.a.c == c)
    ensures c in Stepped(s, st).net.conns && Stepped(s, st).net.conns[c] == s.net.conns[c]
  {
    if st.Whole? {
      OthersStand(s.net, st.a, c);
    } else if st.Send? {
      OthersStand(s.net, SyncRepo(st.c), c);
    }
    hide Next, NextReads, NextFans, SI.Next, SentQueues, FanQueues;
  }

  // ----- readings -----

  lemma ReaderFrame(b: State, d: State, c: ConnId, r: Reading)
    requires ReaderAt(b, c, r) && c in d.conns && d.conns[c] == b.conns[c]
    ensures ReaderAt(d, c, r)
  {
  }

  lemma FirstRead(s: Split, c: ConnId)
    requires Shaped(s.sys) && CanStep(s, ReadRows(c))
    ensures var t := Stepped(s, ReadRows(c)); c in t.readings && ReaderAt(t.net, c, t.readings[c]) && RowsRead(t.readings[c])
  {
    assert RowsPlaced(s.sys);
    hide Shaped;
  }

  lemma SecondRead(s: Split, c: ConnId)
    requires ReadsOk(s) && CanStep(s, ReadComments(c))
    ensures var t := Stepped(s, ReadComments(c));
      c in t.readings && ReaderAt(t.net, c, t.readings[c]) && RowsRead(t.readings[c])
  {
    hide Stores.LoadComments;
    assert ReaderAt(s.net, c, s.readings[c]);
  }

  /** The readings a step leaves are those there were, but for the one it makes. */
  lemma ReadsEffect(s: Split, st: Step, c: ConnId)
    requires CanStep(s, st) && c in NextReads(s, st)
    ensures (st.ReadRows? && c == st.c) || (st.ReadComments? && c == st.c) ||
      (c in s.readings && NextReads(s, st)[c] == s.readings[c] && !(st.Send? && st.c == c) && !(st.Whole? && HalfRead(s, st.a) && st.a.c == c))
  {
    hide Enabled, SI.Enabled;
  }

  lemma ReadsStay(s: Split, st: Step)
    requires NetOk(s) && Shaped(s.sys) && ReadsOk(s) && CanStep(s, st)
    ensures ReadsOk(Stepped(s, st))
  {
    hide NetOk, Shaped, CanStep, ReaderAt, RowsRead, NextNet, NextReads, NextFans;
    var t := Stepped(s, st);
    forall c | c in t.readings ensures ReaderAt(t.net, c, t.readings[c]) && RowsRead(t.readings[c]) {
      ReadsEffect(s, st, c);
      if st.ReadRows? && c == st.c {
        FirstRead(s, c);
      } else if st.ReadComments? && c == st.c {
        SecondRead(s, c);
      } else {
        ReaderIsServed(s.net, c, s.readings[c]);
        BusyStands(s, st, c);
        ReaderFrame(s.net, t.net, c, s.readings[c]);
      }
    }
  }

  lemma ReaderIsServed(net: State, c: ConnId, r: Reading)
    requires ReaderAt(net, c, r)
    ensures c in net.conns
  {
  }

  // ----- operations in flight -----

  lemma WorkIsOwned(s: Split, w: SI.Action)
    requires Shaped(s.sys) && FlightsOwned(s) && CanStep(s, Work(w)) && !w.Commit? && !w.Abandon?
    ensures Owner(s.net.conns[w.k].principal, SI.Flown(s.sys, w))
  {
    if w.EditCopy? {
      assert FlightPlaced(s.sys.db.threadRows, s.sys.lastId, s.sys.flights[w.k]);
    }
    hide Shaped, Stores.LoadComments, Stores.CommentIds;
  }

  lemma FlightsStayOwned(s: Split, st: Step)
    requires Shaped(s.sys) && FlightsOwned(s) && CanStep(s, st)
    ensures FlightsOwned(Stepped(s, st))
  {
    hide Shaped, CanStep, Owner, NextNet, NextReads, NextFans, SI.Next;
    var t := Stepped(s, st);
    forall k | k in t.sys.flights
      ensures k in t.net.conns && t.net.conns[k].phase.Serving? && Owner(t.net.conns[k].principal, t.sys.flights[k])
    {
      if st.Work? {
        WorkStands(s, st.w, t, k);
      } else {
        NotReading(s, st, k);
        BusyStands(s, st, k);
      }
    }
  }

  lemma NotReading(s: Split, st: Step, k: ConnId)
    requires CanStep(s, st) && k in s.net.conns && s.net.conns[k].phase.Serving?
    ensures !(st.Send? && st.c == k) && !(st.Whole? && HalfRead(s, st.a) && st.a.c == k)
  {
  }

  lemma WorkStands(s: Split, w: SI.Action, t: Split, k: ConnId)
    requires Shaped(s.sys) && FlightsOwned(s) && CanStep(s, Work(w)) && t == Stepped(s, Work(w)) && k in t.sys.flights
    ensures k in t.net.conns && t.net.conns[k].phase.Serving? && Owner(t.net.conns[k].principal, t.sys.flights[k])
  {
    hide Shaped, Owner, SI.Next, SI.Flown, Stepped, SI.Enabled;
    WorkEffect(s, w);
    SI.FlightEffect(s.sys, w, k);
    if k == w.k {
      WorkIsOwned(s, w);
    }
  }

  // ----- fan-outs awaited -----

  /** Tables only grow. */
  ghost predicate TablesGrow(a: Stores.Tables, b: Stores.Tables) {
    a.threadRows.Keys <= b.threadRows.Keys && SI.Grows(a.commentRows, b.commentRows)
  }

  lemma WorkGrows(sys: SI.Sys, w: SI.Action)
    requires Shaped(sys) && SI.Enabled(sys, w)
    ensures TablesGrow(sys.db, SI.Next(sys, w).db)
  {
    SI.StepKeepsInv(sys, w);
    if w.Commit? {
      CommitPlaces(sys, w.k);
      hide SI.Next;
    }
    hide SI.Inv, SI.Flown, SI.Grows;
  }

  lemma FanPutStays(a: Stores.Tables, b: Stores.Tables, f: Fan)
    requires FanPut(a, f) && TablesGrow(a, b)
    ensures FanPut(b, f)
  {
    hide IdsOf;
    forall id | id in Stores.CommentIds(a.commentRows, f.change.thread.id) ensures id in Stores.CommentIds(b.commentRows, f.change.thread.id) {
    }
  }

  lemma FanIsOk(s: Split, k: ConnId)
    requires Shaped(s.sys) && FlightsOwned(s) && CanStep(s, Work(SI.Commit(k)))
    ensures var t := Stepped(s, Work(SI.Commit(k)));
      k in t.fans && FanSent(t.fans[k]) && FanPut(t.sys.db, t.fans[k])
  {
    WorkEffect(s, SI.Commit(k));
    CommitEffect(s, k);
    hide Stepped;
    var f := s.sys.flights[k].change;
    assert FlightPlaced(s.sys.db.threadRows, s.sys.lastId, s.sys.flights[k]);
    CommitPlaces(s.sys, k);
    CommitIds(s.sys, k, f.thread.id);
    StoredWasSeen(s.sys, k, Stores.CommentIds(s.sys.db.commentRows, f.thread.id));
    CommitShowsCopyIff(s.sys, k);
    hide SI.Next, Shaped, Stores.ViewAt, Stores.CommentIds, IdsOf;
  }

  lemma FansStay(s: Split, st: Step)
    requires Shaped(s.sys) && FlightsOwned(s) && FansOk(s) && CanStep(s, st)
    ensures FansOk(Stepped(s, st))
  {
    if st.Work? {
      WorkKeepsFans(s, st.w);
    } else {
      hide Shaped, FlightsOwned, FanSent, FanPut, NextNet, NextReads, CanStep;
    }
  }

  lemma WorkKeepsFans(s: Split, w: SI.Action)
    requires Shaped(s.sys) && FlightsOwned(s) && FansOk(s) && CanStep(s, Work(w))
    ensures FansOk(Stepped(s, Work(w)))
  {
    hide Shaped, FlightsOwned, FanSent, FanPut, Stepped, SI.Next, TablesGrow, FanOf, SI.Enabled;
    WorkEffect(s, w);
    WorkGrows(s.sys, w);
    if w.Commit? {
      CommitEffect(s, w.k);
      FanIsOk(s, w.k);
    }
    var t := Stepped(s, Work(w));
    forall c | c in t.fans ensures FanSent(t.fans[c]) && FanPut(t.sys.db, t.fans[c]) {
      if c in s.fans {
        FanPutStays(s.sys.db, t.sys.db, s.fans[c]);
      }
    }
  }

  lemma TablesStayShaped(s: Split, st: Step)
    requires Shaped(s.sys) && CanStep(s, st)
    ensures Shaped(Stepped(s, st).sys)
  {
    hide Shaped, SI.Next;
    if st.Work? {
      StepStaysShaped(s.sys, st.w);
    }
  }

  lemma StaysSane(s: Split, st: Step)
    requires Sane(s) && CanStep(s, st)
    ensures Sane(Stepped(s, st))
  {
    hide NetOk, Shaped, ReadsOk, FansOk, FlightsOwned, CanStep, Stepped;
    NetStays(s, st);
    TablesStayShaped(s, st);
    ReadsStay(s, st);
    FansStay(s, st);
    FlightsStayOwned(s, st);
  }

  lemma StartIsSane()
    ensures Sane(START)
  {
    StartIsShaped();
    assert Stores.View(SI.INIT.db) == map[];
  }
}
