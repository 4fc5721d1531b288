/** What readers of the Postgres tables see right after a commit, with other operations
    in flight: exactly when it is the committed copy. */
module CommitViews {
  import opened Common
  import opened SpecComments
  import opened CommentOps
  import opened CommentStores
  import opened StoreInterleaving

  // ----- a listing of comments is known by its ids -----

  ghost function IdsOf(cs: seq<Comment>): set<Id> {
    set i | 0 <= i < |cs| :: cs[i].id
  }

  ghost predicate Ordered(cs: seq<Comment>) {
    forall i, j :: 0 <= i < j < |cs| ==> cs[i].id < cs[j].id
  }

  lemma IdsOfMore(cs: seq<Comment>, c: Comment)
    ensures IdsOf(cs + [c]) == IdsOf(cs) + {c.id}
  {
    var all := cs + [c];
    forall x ensures x in IdsOf(all) <==> x in IdsOf(cs) || x == c.id {
      if x in IdsOf(cs) {
        var i :| 0 <= i < |cs| && cs[i].id == x;
        assert all[i].id == x;
      }
      assert all[|cs|].id == c.id;
    }
  }

  lemma OrderedMore(cs: seq<Comment>, c: Comment)
    requires Ordered(cs) && forall id :: id in IdsOf(cs) ==> id < c.id
    ensures Ordered(cs + [c])
  {
    forall i | 0 <= i < |cs| ensures cs[i].id < c.id {
      assert cs[i].id in IdsOf(cs);
    }
  }

  lemma {:induction false} LoadIdsOrdered(rows: map<Id, CommentRow>, ids: set<Id>)
    requires ids <= rows.Keys
    ensures Ordered(LoadIds(rows, ids)) && IdsOf(LoadIds(rows, ids)) == ids
  {
    if ids != {} {
      var m := Maximum(ids);
      var front, last := LoadIds(rows, ids - {m}), CommentOfRow(m, rows[m]);
      LoadIdsOrdered(rows, ids - {m});
      assert LoadIds(rows, ids) == front + [last];
      hide LoadIds;
      IdsOfMore(front, last);
      OrderedMore(front, last);
    }
  }

  lemma LastIsGreatest(cs: seq<Comment>)
    requires cs != [] && Ordered(cs)
    ensures IdsOf(cs) != {} && Maximum(IdsOf(cs)) == cs[|cs| - 1].id
    ensures IdsOf(cs) - {cs[|cs| - 1].id} == IdsOf(cs[..|cs| - 1])
  {
    var n := |cs| - 1;
    assert cs[n].id in IdsOf(cs);
    var m := Maximum(IdsOf(cs));
    assert exists i :: 0 <= i < |cs| && cs[i].id == m;
    assert cs == cs[..n] + [cs[n]];
    IdsOfMore(cs[..n], cs[n]);
    forall x | x in IdsOf(cs[..n]) ensures x != cs[n].id {
      var i :| 0 <= i < n && cs[..n][i].id == x;
    }
  }

  /** Comments in id order that are stored as they are load back as they are. */
  lemma {:induction false} OrderedLoads(rows: map<Id, CommentRow>, t: Id, cs: seq<Comment>)
    requires Ordered(cs) && IdsOf(cs) <= rows.Keys
    requires forall i :: 0 <= i < |cs| ==> cs[i].threadId == t && cs[i].id in rows && rows[cs[i].id] == RowOfComment(t, cs[i])
    ensures LoadIds(rows, IdsOf(cs)) == cs
    decreases |cs|
  {
    if cs == [] {
      assert IdsOf(cs) == {};
    } else {
      var n := |cs| - 1;
      LastIsGreatest(cs);
      OrderedLoads(rows, t, cs[..n]);
      assert CommentOfRow(cs[n].id, rows[cs[n].id]) == cs[n];
    }
  }

  /** The comments stored for a thread are the copy's exactly when their ids are. */
  lemma LoadedIff(rows: map<Id, CommentRow>, t: Thread)
    requires Ordered(t.comments) && Kept(rows, t)
    ensures LoadComments(rows, t.id) == t.comments <==> CommentIds(rows, t.id) == IdsOf(t.comments)
  {
    LoadIdsOrdered(rows, CommentIds(rows, t.id));
    if CommentIds(rows, t.id) == IdsOf(t.comments) {
      OrderedLoads(rows, t.id, t.comments);
    }
  }

  lemma {:induction false} UpsertedKeys(rows: map<Id, CommentRow>, t: Id, cs: seq<Comment>)
    ensures UpsertComments(rows, t, cs).Keys == rows.Keys + IdsOf(cs)
    decreases |cs|
  {
    if cs != [] {
      var n := |cs| - 1;
      UpsertedKeys(rows, t, cs[..n]);
      IdsOfMore(cs[..n], cs[n]);
      assert cs == cs[..n] + [cs[n]];
    }
  }

  /** A put adds the ids of its copy to its thread's comments, and to no other's. */
  lemma IdsAfterPut(ledger: map<Id, CommentRow>, rows: map<Id, CommentRow>, t: Thread, id: Id)
    requires RowsOnLedger(ledger, rows) && OnLedger(ledger, t)
    ensures CommentIds(UpsertComments(rows, t.id, t.comments), id) ==
      CommentIds(rows, id) + (if id == t.id then IdsOf(t.comments) else {})
    ensures Grows(rows, UpsertComments(rows, t.id, t.comments))
  {
    UpsertStaysOnLedger(ledger, rows, t.id, t.comments);
    UpsertedKeys(rows, t.id, t.comments);
    hide UpsertComments;
    var after := UpsertComments(rows, t.id, t.comments);
    forall x ensures x in CommentIds(after, id) <==> x in CommentIds(rows, id) || (id == t.id && x in IdsOf(t.comments)) {
      if x in IdsOf(t.comments) {
        var i :| 0 <= i < |t.comments| && t.comments[i].id == x;
        assert ledger[x] == RowOfComment(t.id, t.comments[i]) && after[x] == ledger[x];
      }
    }
  }

  lemma SameIdsLoadSame(a: map<Id, CommentRow>, b: map<Id, CommentRow>, id: Id)
    requires Grows(a, b) && CommentIds(a, id) == CommentIds(b, id)
    ensures LoadComments(a, id) == LoadComments(b, id)
  {
    LoadIdsFrame(a, b, CommentIds(a, id));
  }

  // ----- rows and copies name the same threads -----

  ghost predicate RowOk(row: ThreadRow) {
    row.workspaceId != "" && row.resolvedAt != Some(ZERO_TIME)
  }

  /** The columns no put changes. */
  ghost predicate SameColumns(a: ThreadRow, b: ThreadRow) {
    a.orgId == b.orgId && a.workspaceId == b.workspaceId && a.specPath == b.specPath
    && a.authorSub == b.authorSub && a.createdAt == b.createdAt
  }

  ghost predicate Placed(rows: map<Id, ThreadRow>, id: Id, row: ThreadRow) {
    RowOk(row) && id in rows && SameColumns(rows[id], row)
  }

  ghost predicate ChangePlaced(rows: map<Id, ThreadRow>, lastId: Id, f: Change) {
    && f.op != OpSync
    && (if f.op == OpCreate then f.thread.id !in rows && f.thread.id <= lastId && RowOk(RowOfThread(f.thread)) && f.seen == {}
        else Placed(rows, f.thread.id, RowOfThread(f.thread)))
  }

  ghost predicate FlightPlaced(rows: map<Id, ThreadRow>, lastId: Id, f: Flight) {
    match f
    case RowLoaded(p, ev, id, row, _) => Target(ev) == Some(id) && Placed(rows, id, row) && row.orgId == TenantKey(p)
    case Loaded(p, ev, t, _, _) => Target(ev) == Some(t.id) && Placed(rows, t.id, RowOfThread(t)) && t.orgId == TenantKey(p)
    case Edited(change) => ChangePlaced(rows, lastId, change)
  }

  predicate Creates(f: Flight) {
    f.Edited? && f.change.op == OpCreate
  }

  ghost predicate RowsPlaced(s: Sys) {
    && (forall id :: id in s.db.threadRows ==> RowOk(s.db.threadRows[id]) && id <= s.lastId)
    && (forall cid :: cid in s.db.commentRows ==> s.db.commentRows[cid].threadId in s.db.threadRows)
  }

  ghost predicate FlightsPlaced(s: Sys) {
    && (forall k :: k in s.flights ==> FlightPlaced(s.db.threadRows, s.lastId, s.flights[k]))
    && (forall j, k :: j in s.flights && k in s.flights && j != k && Creates(s.flights[j]) && Creates(s.flights[k]) ==>
          s.flights[j].change.thread.id != s.flights[k].change.thread.id)
  }

  lemma RowRoundTrip(id: Id, row: ThreadRow, cs: seq<Comment>)
    requires RowOk(row)
    ensures RowOfThread(ThreadOfRow(id, row, cs)) == row
  {
  }

  lemma EditedIsPlaced(s: Sys, a: Action)
    requires Enabled(s, a) && (a.BeginCreate? || a.EditCopy?) && RowsPlaced(s)
    requires a.EditCopy? ==> FlightPlaced(s.db.threadRows, s.lastId, s.flights[a.k])
    ensures ChangePlaced(s.db.threadRows, a.stamp.commentId, Flown(s, a).change)
    ensures a.BeginCreate? ==> Flown(s, a).change.thread.id > s.lastId
    ensures Creates(Flown(s, a)) <==> a.BeginCreate?
  {
    if a.BeginCreate? {
      assert Flown(s, a).change.thread.id == a.stamp.threadId;
    }
  }

  lemma LoadedIsPlaced(s: Sys, a: Action)
    requires Enabled(s, a) && (a.LoadRow? || a.LoadRest?) && RowsPlaced(s)
    requires a.LoadRest? ==> FlightPlaced(s.db.threadRows, s.lastId, s.flights[a.k])
    ensures FlightPlaced(s.db.threadRows, s.lastId, Flown(s, a)) && !Creates(Flown(s, a))
  {
    hide LoadComments, CommentIds;
    if a.LoadRest? {
      RowRoundTrip(s.flights[a.k].id, s.flights[a.k].row, LoadComments(s.db.commentRows, s.flights[a.k].id));
    }
  }

  lemma FlightStaysPlaced(a: map<Id, ThreadRow>, b: map<Id, ThreadRow>, before: Id, after: Id, f: Flight)
    requires FlightPlaced(a, before, f) && before <= after
    requires forall id :: id in a ==> id in b && SameColumns(a[id], b[id])
    requires Creates(f) ==> f.change.thread.id !in b
    ensures FlightPlaced(b, after, f)
  {
  }

  /** What a put does to the thread rows. */
  lemma PutRows(rows: map<Id, ThreadRow>, t: Thread)
    requires t.id in rows ==> SameColumns(rows[t.id], RowOfThread(t))
    ensures UpsertThread(rows, t) == rows[t.id := RowOfThread(t)]
  {
  }

  lemma CommitPlaces(s: Sys, k: nat)
    requires Inv(s) && RowsPlaced(s) && FlightsPlaced(s) && Enabled(s, Commit(k))
    ensures var t, after := s.flights[k].change.thread, Next(s, Commit(k)).db;
      && after.threadRows == s.db.threadRows[t.id := RowOfThread(t)]
      && RowOk(RowOfThread(t)) && (t.id in s.db.threadRows ==> SameColumns(s.db.threadRows[t.id], RowOfThread(t)))
      && t.id <= s.lastId
  {
    var f := s.flights[k].change;
    assert FlightPlaced(s.db.threadRows, s.lastId, s.flights[k]);
    hide RowOfThread, UpsertComments;
    PutRows(s.db.threadRows, f.thread);
  }

  lemma RowsStayPlaced(s: Sys, a: Action)
    requires Inv(s) && RowsPlaced(s) && FlightsPlaced(s) && Enabled(s, a)
    ensures RowsPlaced(Next(s, a))
  {
    if a.Commit? {
      CommitPlaces(s, a.k);
      var t := s.flights[a.k].change.thread;
      assert OnLedger(s.ledger, CopyOf(s.flights[a.k]));
      forall id ensures CommentIds(Next(s, a).db.commentRows, id) == CommentIds(s.db.commentRows, id) + (if id == t.id then IdsOf(t.comments) else {}) {
        IdsAfterPut(s.ledger, s.db.commentRows, t, id);
      }
      hide Next, FlightsPlaced, Inv;
      RowsKeepThreads(s.db, Next(s, a).db, t);
    } else {
      hide Flown, NoteNew;
    }
  }

  lemma RowsKeepThreads(a: Tables, b: Tables, t: Thread)
    requires forall cid :: cid in a.commentRows ==> a.commentRows[cid].threadId in a.threadRows
    requires b.threadRows.Keys == a.threadRows.Keys + {t.id}
    requires forall id :: CommentIds(b.commentRows, id) == CommentIds(a.commentRows, id) + (if id == t.id then IdsOf(t.comments) else {})
    ensures forall cid :: cid in b.commentRows ==> b.commentRows[cid].threadId in b.threadRows
  {
    forall cid | cid in b.commentRows ensures b.commentRows[cid].threadId in b.threadRows {
      var id := b.commentRows[cid].threadId;
      assert cid in CommentIds(b.commentRows, id);
      if id != t.id {
        assert cid in CommentIds(a.commentRows, id);
      }
    }
  }

  /** A step keeps every row's columns and takes no create's id, but for the create it
      commits. */
  lemma ColumnsStay(s: Sys, a: Action, k: nat)
    requires Inv(s) && RowsPlaced(s) && FlightsPlaced(s) && Enabled(s, a) && k in s.flights && k != a.k
    ensures var rows := Next(s, a).db.threadRows;
      && (forall id :: id in s.db.threadRows ==> id in rows && SameColumns(s.db.threadRows[id], rows[id]))
      && (Creates(s.flights[k]) ==> s.flights[k].change.thread.id !in rows)
      && s.lastId <= Next(s, a).lastId
  {
    assert FlightPlaced(s.db.threadRows, s.lastId, s.flights[k]);
    if a.Commit? {
      CommitPlaces(s, a.k);
      assert FlightPlaced(s.db.threadRows, s.lastId, s.flights[a.k]);
      hide RowOfThread, Inv, UpsertThread, UpsertComments;
    } else {
      hide Flown, NoteNew;
    }
  }

  lemma FlightsStayPlaced(s: Sys, a: Action)
    requires Inv(s) && RowsPlaced(s) && FlightsPlaced(s) && Enabled(s, a)
    ensures FlightsPlaced(Next(s, a))
  {
    hide Inv, Next, RowsPlaced, FlightPlaced, Flown;
    var t := Next(s, a);
    forall k | k in t.flights
      ensures FlightPlaced(t.db.threadRows, t.lastId, t.flights[k])
      ensures k == a.k && Creates(t.flights[k]) ==> a.BeginCreate? && t.flights[k].change.thread.id > s.lastId
      ensures k != a.k ==> k in s.flights && t.flights[k] == s.flights[k] && (Creates(t.flights[k]) ==> t.flights[k].change.thread.id <= s.lastId)
    {
      FlightEffect(s, a, k);
      if k in s.flights && k != a.k {
        ColumnsStay(s, a, k);
        FlightStaysPlaced(s.db.threadRows, t.db.threadRows, s.lastId, t.lastId, s.flights[k]);
        CreateIsOld(s, k);
      } else {
        MovedIsPlaced(s, a);
      }
    }
  }

  lemma CreateIsOld(s: Sys, k: nat)
    requires k in s.flights && FlightPlaced(s.db.threadRows, s.lastId, s.flights[k])
    ensures Creates(s.flights[k]) ==> s.flights[k].change.thread.id <= s.lastId
  {
  }

  lemma MovedIsPlaced(s: Sys, a: Action)
    requires RowsPlaced(s) && FlightsPlaced(s) && Enabled(s, a) && !a.Commit? && !a.Abandon?
    ensures FlightPlaced(Next(s, a).db.threadRows, Next(s, a).lastId, Flown(s, a))
    ensures Creates(Flown(s, a)) ==> a.BeginCreate? && Flown(s, a).change.thread.id > s.lastId
  {
    if a.LoadRow? || a.LoadRest? {
      LoadedIsPlaced(s, a);
    } else {
      EditedIsPlaced(s, a);
    }
    hide RowsPlaced, FlightPlaced, ChangePlaced, Flown, NoteNew;
  }

  // ----- what a flight minted is its own until it commits -----

  /** The ids in a copy that its operation had not loaded. */
  ghost function Own(f: Flight): set<Id> {
    if f.Edited? then IdsOf(f.change.thread.comments) - f.change.seen else {}
  }

  ghost predicate CopyOk(f: Flight) {
    match f
    case RowLoaded(_, _, _, _, _) => true
    case Loaded(_, _, t, _, seen) => Ordered(t.comments) && IdsOf(t.comments) == seen
    case Edited(f) => Ordered(f.thread.comments) && f.seen <= IdsOf(f.thread.comments)
  }

  ghost function Held(f: Flight): set<Id> {
    if f.RowLoaded? then {} else IdsOf(CopyOf(f).comments)
  }

  ghost predicate CopiesOk(s: Sys) {
    && (forall k :: k in s.flights ==> CopyOk(s.flights[k]) && Own(s.flights[k]) !! s.db.commentRows.Keys)
    && (forall j, k :: j in s.flights && k in s.flights && j != k ==> Own(s.flights[j]) !! Held(s.flights[k]))
  }

  lemma HeldIsOld(s: Sys, k: nat)
    requires Inv(s) && k in s.flights
    ensures forall id :: id in Held(s.flights[k]) ==> id <= s.lastId
    ensures Own(s.flights[k]) <= Held(s.flights[k])
  {
    if !s.flights[k].RowLoaded? {
      var t := CopyOf(s.flights[k]);
      assert OnLedger(s.ledger, t);
      forall id | id in Held(s.flights[k]) ensures id <= s.lastId {
        var i :| 0 <= i < |t.comments| && t.comments[i].id == id;
      }
    }
  }

  /** The copy an edit or a create leaves: in order, and at most one comment of its own,
      minted now. */
  lemma EditedCopy(s: Sys, a: Action)
    requires Inv(s) && CopiesOk(s) && Enabled(s, a) && (a.BeginCreate? || a.EditCopy?)
    ensures var f := Flown(s, a);
      && CopyOk(f) && Own(f) <= {a.stamp.commentId}
      && Held(f) <= (if a.EditCopy? then Held(s.flights[a.k]) else {}) + {a.stamp.commentId}
  {
    if a.BeginCreate? {
      var t := Decide(map[], a.p, a.ev, a.stamp).thread;
      assert t.comments == [t.comments[0]];
    } else {
      var f := s.flights[a.k];
      HeldIsOld(s, a.k);
      assert CopyOk(f);
      hide Inv, CopiesOk;
      AppendedCopy(f.thread, Edit(f.thread, f.p, f.ev, a.stamp).thread, a.stamp);
    }
  }

  lemma AppendedCopy(before: Thread, after: Thread, stamp: Stamp)
    requires Ordered(before.comments) && forall id :: id in IdsOf(before.comments) ==> id < stamp.commentId
    requires AtMostOneNew(before.comments, after, stamp)
    ensures Ordered(after.comments) && IdsOf(before.comments) <= IdsOf(after.comments) <= IdsOf(before.comments) + {stamp.commentId}
  {
    if after.comments != before.comments {
      var n := |after.comments| - 1;
      assert after.comments == before.comments + [after.comments[n]];
      IdsOfMore(before.comments, after.comments[n]);
      OrderedMore(before.comments, after.comments[n]);
    }
  }

  lemma LoadedCopy(s: Sys, a: Action)
    requires Enabled(s, a) && (a.LoadRow? || a.LoadRest?)
    ensures var f := Flown(s, a); CopyOk(f) && Own(f) == {} && Held(f) <= s.db.commentRows.Keys
  {
    if a.LoadRest? {
      LoadIdsOrdered(s.db.commentRows, CommentIds(s.db.commentRows, s.flights[a.k].id));
    }
  }

  /** What a step leaves of a flight, in ids: its own are those it had, or a new one; what
      it holds is what it held, or stored, or new. */
  ghost predicate Moves(s: Sys, t: Sys, a: Action, k: nat)
    requires k in t.flights
  {
    && CopyOk(t.flights[k])
    && (if k == a.k
        then (forall id :: id in Own(t.flights[k]) ==> id > s.lastId) &&
             (forall id :: id in Held(t.flights[k]) ==> id > s.lastId || id in s.db.commentRows || (k in s.flights && id in Held(s.flights[k])))
        else k in s.flights && t.flights[k] == s.flights[k])
  }

  lemma StepMoves(s: Sys, a: Action, k: nat)
    requires Inv(s) && CopiesOk(s) && Enabled(s, a) && k in Next(s, a).flights
    ensures Moves(s, Next(s, a), a, k)
  {
    FlightEffect(s, a, k);
    if k == a.k {
      if a.LoadRow? || a.LoadRest? {
        LoadedCopy(s, a);
      } else {
        EditedCopy(s, a);
      }
    }
    hide Inv, Next, Flown, CopyOk, Own, Held;
  }

  /** A step stores no comment but those the flight it commits holds. */
  lemma StoredBy(s: Sys, a: Action)
    requires Inv(s) && Enabled(s, a)
    ensures Next(s, a).db.commentRows.Keys == s.db.commentRows.Keys + (if a.Commit? then Held(s.flights[a.k]) else {})
    ensures forall id :: id in s.db.commentRows ==> id <= s.lastId
  {
    if a.Commit? {
      var t := s.flights[a.k].change.thread;
      UpsertedKeys(s.db.commentRows, t.id, t.comments);
    }
    hide Flown, UpsertComments, IdsOf;
  }

  lemma OwnStaysUnstored(s: Sys, a: Action, k: nat)
    requires Inv(s) && CopiesOk(s) && Enabled(s, a) && k in Next(s, a).flights
    ensures Own(Next(s, a).flights[k]) !! Next(s, a).db.commentRows.Keys
  {
    hide Next, Inv, Own, Held, CopyOk;
    StepMoves(s, a, k);
    StoredBy(s, a);
    FlightEffect(s, a, k);
  }

  lemma OwnStaysUnheld(s: Sys, a: Action, j: nat, k: nat)
    requires Inv(s) && CopiesOk(s) && Enabled(s, a) && j in Next(s, a).flights && k in Next(s, a).flights && j != k
    ensures Own(Next(s, a).flights[j]) !! Held(Next(s, a).flights[k])
  {
    hide Next, Inv, Own, Held, CopyOk, Enabled;
    StepMoves(s, a, j);
    StepMoves(s, a, k);
    if j == a.k {
      HeldIsOld(s, k);
    } else {
      HeldIsOld(s, j);
    }
  }

  lemma CopiesStayOk(s: Sys, a: Action)
    requires Inv(s) && CopiesOk(s) && Enabled(s, a)
    ensures CopiesOk(Next(s, a))
  {
    hide Next, Inv, Own, Held, CopyOk, Enabled;
    var t := Next(s, a);
    forall k | k in t.flights ensures CopyOk(t.flights[k]) && Own(t.flights[k]) !! t.db.commentRows.Keys {
      StepMoves(s, a, k);
      OwnStaysUnstored(s, a, k);
    }
    forall j, k | j in t.flights && k in t.flights && j != k ensures Own(t.flights[j]) !! Held(t.flights[k]) {
      OwnStaysUnheld(s, a, j, k);
    }
  }

  // ----- the view after a commit -----

  /** Everything above, along every run. */
  ghost predicate Shaped(s: Sys) {
    Inv(s) && RowsPlaced(s) && FlightsPlaced(s) && CopiesOk(s)
  }

  lemma StepStaysShaped(s: Sys, a: Action)
    requires Shaped(s) && Enabled(s, a)
    ensures Shaped(Next(s, a))
  {
    hide Inv, RowsPlaced, FlightsPlaced, CopiesOk, Enabled, Next;
    StepKeepsInv(s, a);
    RowsStayPlaced(s, a);
    FlightsStayPlaced(s, a);
    CopiesStayOk(s, a);
  }

  lemma StartIsShaped()
    ensures Shaped(INIT)
  {
  }

  lemma {:induction false} RunStaysShaped(acts: seq<Action>)
    requires CanRun(acts)
    ensures Shaped(StoreInterleaving.After(acts))
    decreases |acts|
  {
    hide Enabled, Next, Shaped;
    if acts == [] {
      StartIsShaped();
    } else {
      RunStaysShaped(acts[..|acts| - 1]);
      StepStaysShaped(StoreInterleaving.After(acts[..|acts| - 1]), acts[|acts| - 1]);
    }
  }

  /** The comments of the committed thread after the commit, by id. */
  lemma CommitIds(s: Sys, k: nat, id: Id)
    requires Shaped(s) && Enabled(s, Commit(k))
    ensures var f, after := s.flights[k].change, Next(s, Commit(k)).db.commentRows;
      && CommentIds(after, id) == CommentIds(s.db.commentRows, id) + (if id == f.thread.id then IdsOf(f.thread.comments) else {})
      && Grows(s.db.commentRows, after)
  {
    assert OnLedger(s.ledger, CopyOf(s.flights[k]));
    IdsAfterPut(s.ledger, s.db.commentRows, s.flights[k].change.thread, id);
  }

  /** What an operation holds of the comments stored for its thread is what it loaded. */
  lemma StoredWasSeen(s: Sys, k: nat, ids: set<Id>)
    requires CopiesOk(s) && k in s.flights && s.flights[k].Edited? && ids <= s.db.commentRows.Keys
    ensures var f := s.flights[k].change; ids <= f.seen <==> ids <= IdsOf(f.thread.comments)
  {
    var f := s.flights[k].change;
    assert CopyOk(s.flights[k]) && Own(s.flights[k]) !! s.db.commentRows.Keys;
    forall id | id in ids && id in IdsOf(f.thread.comments) ensures id in f.seen {
      assert id !in Own(s.flights[k]);
    }
  }

  /** Readers see the committed copy exactly when each comment stored for the thread
      before the commit had been loaded by the operation. */
  lemma CommitShowsCopyIff(s: Sys, k: nat)
    requires Shaped(s) && Enabled(s, Commit(k))
    ensures var f, after := s.flights[k].change, Next(s, Commit(k)).db;
      && f.thread.id in after.threadRows
      && (ViewAt(after, f.thread.id) == f.thread <==> CommentIds(s.db.commentRows, f.thread.id) <= f.seen)
  {
    var t, after := s.flights[k].change.thread, Next(s, Commit(k)).db;
    CommitPlaces(s, k);
    CommitIds(s, k, t.id);
    CommittedIsKept(s, k);
    StoredWasSeen(s, k, CommentIds(s.db.commentRows, t.id));
    assert CopyOk(s.flights[k]);
    hide Next, Shaped, LoadComments, CommentIds, Kept, Grows, RowOfThread;
    LoadedIff(after.commentRows, t);
    ViewOfRow(t, LoadComments(after.commentRows, t.id));
  }

  lemma ViewOfRow(t: Thread, cs: seq<Comment>)
    ensures ThreadOfRow(t.id, RowOfThread(t), cs) == t.(comments := cs)
    ensures ThreadOfRow(t.id, RowOfThread(t), cs) == t <==> cs == t.comments
  {
  }

  /** Every other thread is seen as before. */
  lemma CommitElsewhere(s: Sys, k: nat, id: Id)
    requires Shaped(s) && Enabled(s, Commit(k)) && id != s.flights[k].change.thread.id
    ensures var after := Next(s, Commit(k)).db;
      && (id in after.threadRows <==> id in s.db.threadRows)
      && CommentIds(after.commentRows, id) == CommentIds(s.db.commentRows, id)
      && LoadComments(after.commentRows, id) == LoadComments(s.db.commentRows, id)
      && (id in s.db.threadRows ==> after.threadRows[id] == s.db.threadRows[id] && ViewAt(after, id) == ViewAt(s.db, id))
  {
    CommitPlaces(s, k);
    CommitIds(s, k, id);
    hide Next, Shaped, LoadComments, CommentIds, Grows, RowOfThread;
    SameIdsLoadSame(s.db.commentRows, Next(s, Commit(k)).db.commentRows, id);
  }

  /** In the view a commit replaces one thread, by what readers then see of it. */
  lemma CommitView(s: Sys, k: nat)
    requires Shaped(s) && Enabled(s, Commit(k))
    ensures var t, after := s.flights[k].change.thread, Next(s, Commit(k)).db;
      && t.id in after.threadRows && View(after) == View(s.db)[t.id := ViewAt(after, t.id)]
      && ViewAt(after, t.id).orgId == t.orgId && ViewAt(after, t.id).workspaceId == t.workspaceId
      && (t.id in s.db.threadRows ==> View(s.db)[t.id].orgId == t.orgId && View(s.db)[t.id].workspaceId == t.workspaceId)
  {
    hide Next, LoadComments, Inv, RowsPlaced, FlightsPlaced, CopiesOk, ViewAt, View;
    var t, after := s.flights[k].change.thread, Next(s, Commit(k)).db;
    CommitPlaces(s, k);
    forall id | id in s.db.threadRows && id != t.id ensures ViewAt(after, id) == ViewAt(s.db, id) {
      CommitElsewhere(s, k, id);
    }
    ViewReplaced(s.db, after, t.id);
    ViewColumns(after, t.id);
    if t.id in s.db.threadRows {
      ViewColumns(s.db, t.id);
    }
  }

  lemma ViewColumns(db: Tables, id: Id)
    requires id in db.threadRows
    ensures id in View(db) && View(db)[id] == ViewAt(db, id)
    ensures ViewAt(db, id).id == id && ViewAt(db, id).orgId == db.threadRows[id].orgId && ViewAt(db, id).workspaceId == db.threadRows[id].workspaceId
  {
  }

  lemma ViewReplaced(a: Tables, b: Tables, id: Id)
    requires b.threadRows.Keys == a.threadRows.Keys + {id}
    requires forall other :: other in a.threadRows && other != id ==> ViewAt(b, other) == ViewAt(a, other)
    ensures View(b) == View(a)[id := ViewAt(b, id)]
  {
    hide ViewAt;
    assert View(b).Keys == b.threadRows.Keys && View(a).Keys == a.threadRows.Keys;
  }
}
