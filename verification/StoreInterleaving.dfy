/** Concurrent operations against the Postgres store, at the granularity of its
    queries: each operation loads the thread row, then the comment rows, then
    edits its private copy, then commits one put. Nothing is locked in between.
    History variables: the ledger holds the row of every comment ever minted, puts has
    what each step committed, and a flight knows the step at which it loaded its thread
    row and the comments it then found. */
module StoreInterleaving {
  import opened Common
  import opened SpecComments
  import opened CommentOps
  import opened CommentStores
  import opened LastPuts

  /** What an operation puts: its copy, and the ids of the comments it had loaded. */
  datatype Change = Change(op: Op, thread: Thread, at: nat, seen: set<Id>)

  datatype Flight =
    | RowLoaded(p: Principal, ev: Event, id: Id, row: ThreadRow, at: nat)
    | Loaded(p: Principal, ev: Event, thread: Thread, at: nat, seen: set<Id>)
    | Edited(change: Change)

  datatype Sys = Sys(db: Tables, flights: map<nat, Flight>, lastId: Id, ledger: map<Id, CommentRow>, puts: Puts<Id, Change>)

  datatype Action =
    | BeginCreate(k: nat, p: Principal, ev: Event, stamp: Stamp)
    | LoadRow(k: nat, p: Principal, ev: Event)
    | LoadRest(k: nat)
    | EditCopy(k: nat, stamp: Stamp)
    | Commit(k: nat)
    | Abandon(k: nat)

  predicate FreshStamp(s: Sys, stamp: Stamp) {
    s.lastId < stamp.threadId < stamp.commentId
  }

  ghost predicate Enabled(s: Sys, a: Action) {
    match a
    case BeginCreate(k, p, ev, stamp) =>
      k !in s.flights && FreshStamp(s, stamp) && ev.op == OpCreate && Decide(map[], p, ev, stamp).Accept?
    case LoadRow(k, p, ev) =>
      k !in s.flights && ev.repo != "" && p.sub != "" && Target(ev).Some? && Target(ev).value in s.db.threadRows
      && s.db.threadRows[Target(ev).value].orgId == TenantKey(p)
    case LoadRest(k) => k in s.flights && s.flights[k].RowLoaded?
    case EditCopy(k, stamp) =>
      k in s.flights && s.flights[k].Loaded? && FreshStamp(s, stamp)
      && Target(s.flights[k].ev).Some?
      && Edit(s.flights[k].thread, s.flights[k].p, s.flights[k].ev, stamp).Accept?
    case Commit(k) => k in s.flights && s.flights[k].Edited?
    case Abandon(k) => k in s.flights
  }

  /** The comment an edit or a create adds, if any, is the last of the thread. */
  function NoteNew(ledger: map<Id, CommentRow>, t: Thread, stamp: Stamp): map<Id, CommentRow> {
    if t.comments != [] && t.comments[|t.comments| - 1].id == stamp.commentId
    then ledger[stamp.commentId := RowOfComment(t.id, t.comments[|t.comments| - 1])]
    else ledger
  }

  /** The flight of a.k after a step that moves it on. */
  ghost function Flown(s: Sys, a: Action): Flight
    requires Enabled(s, a) && !a.Commit? && !a.Abandon?
  {
    var now := |s.puts|;
    match a
    case BeginCreate(k, p, ev, stamp) => Edited(Change(OpCreate, Decide(map[], p, ev, stamp).thread, now, {}))
    case LoadRow(k, p, ev) => RowLoaded(p, ev, Target(ev).value, s.db.threadRows[Target(ev).value], now)
    case LoadRest(k) =>
      var f := s.flights[k];
      Loaded(f.p, f.ev, ThreadOfRow(f.id, f.row, LoadComments(s.db.commentRows, f.id)), f.at, CommentIds(s.db.commentRows, f.id))
    case EditCopy(k, stamp) =>
      var f := s.flights[k];
      Edited(Change(f.ev.op, Edit(f.thread, f.p, f.ev, stamp).thread, f.at, f.seen))
  }

  function PutBy(s: Sys, a: Action): map<Id, Change>
    requires a.Commit? ==> a.k in s.flights && s.flights[a.k].Edited?
  {
    if a.Commit? then map[s.flights[a.k].change.thread.id := s.flights[a.k].change] else map[]
  }

  ghost function Next(s: Sys, a: Action): Sys
    requires Enabled(s, a)
  {
    Sys(if a.Commit? then PutThread(s.db, s.flights[a.k].change.thread) else s.db,
        if a.Commit? || a.Abandon? then s.flights - {a.k} else s.flights[a.k := Flown(s, a)],
        if a.BeginCreate? || a.EditCopy? then a.stamp.commentId else s.lastId,
        if a.BeginCreate? || a.EditCopy? then NoteNew(s.ledger, Flown(s, a).change.thread, a.stamp) else s.ledger,
        s.puts + [PutBy(s, a)])
  }

  // ----- invariant: every row and every private copy agrees with the ledger -----

  ghost predicate OnLedger(ledger: map<Id, CommentRow>, t: Thread) {
    forall i :: 0 <= i < |t.comments| ==>
      && t.comments[i].threadId == t.id
      && t.comments[i].id in ledger
      && ledger[t.comments[i].id] == RowOfComment(t.id, t.comments[i])
  }

  ghost predicate RowsOnLedger(ledger: map<Id, CommentRow>, rows: map<Id, CommentRow>) {
    forall id :: id in rows ==> id in ledger && ledger[id] == rows[id]
  }

  ghost predicate LedgerTidy(ledger: map<Id, CommentRow>, lastId: Id) {
    forall id :: id in ledger ==> id <= lastId && ledger[id].editedAt != Some(ZERO_TIME)
  }

  function CopyOf(f: Flight): Thread
    requires !f.RowLoaded?
  {
    if f.Loaded? then f.thread else f.change.thread
  }

  ghost predicate FlightsOnLedger(s: Sys) {
    forall k :: k in s.flights && !s.flights[k].RowLoaded? ==> OnLedger(s.ledger, CopyOf(s.flights[k]))
  }

  ghost predicate Inv(s: Sys) {
    LedgerTidy(s.ledger, s.lastId) && RowsOnLedger(s.ledger, s.db.commentRows) && FlightsOnLedger(s)
  }

  /** Rows only ever gain entries. */
  ghost predicate Grows(a: map<Id, CommentRow>, b: map<Id, CommentRow>) {
    forall id :: id in a ==> id in b && b[id] == a[id]
  }

  lemma {:induction false} UpsertStaysOnLedger(ledger: map<Id, CommentRow>, rows: map<Id, CommentRow>, threadId: Id, cs: seq<Comment>)
    requires RowsOnLedger(ledger, rows)
    requires forall i :: 0 <= i < |cs| ==> cs[i].id in ledger && ledger[cs[i].id] == RowOfComment(threadId, cs[i])
    ensures RowsOnLedger(ledger, UpsertComments(rows, threadId, cs))
    ensures Grows(rows, UpsertComments(rows, threadId, cs))
    ensures forall i :: 0 <= i < |cs| ==> cs[i].id in UpsertComments(rows, threadId, cs)
    decreases |cs|
  {
    if cs != [] {
      var last := |cs| - 1;
      UpsertStaysOnLedger(ledger, rows, threadId, cs[..last]);
      assert forall i :: 0 <= i < last ==> cs[..last][i] == cs[i];
      assert cs[last].id in ledger;
    }
  }

  lemma LoadedIsOnLedger(s: Sys, id: Id, row: ThreadRow)
    requires Inv(s)
    ensures OnLedger(s.ledger, ThreadOfRow(id, row, LoadComments(s.db.commentRows, id)))
  {
    var cs := LoadComments(s.db.commentRows, id);
    forall i | 0 <= i < |cs|
      ensures cs[i].threadId == id && cs[i].id in s.ledger && s.ledger[cs[i].id] == RowOfComment(id, cs[i])
    {
      LoadedFromRows(s.db.commentRows, id, i);
      assert s.ledger[cs[i].id] == s.db.commentRows[cs[i].id];
    }
  }

  /** Adding one minted comment to the ledger keeps every other copy on it. */
  lemma MintKeepsLedger(ledger: map<Id, CommentRow>, lastId: Id, id: Id, row: CommentRow, t: Thread)
    requires LedgerTidy(ledger, lastId) && id > lastId && OnLedger(ledger, t)
    ensures OnLedger(ledger[id := row], t)
  {
    forall i | 0 <= i < |t.comments| ensures t.comments[i].id != id {
      assert t.comments[i].id <= lastId;
    }
  }

  /** The comments of t are those before, or one more, minted now. */
  ghost predicate AtMostOneNew(before: seq<Comment>, t: Thread, stamp: Stamp) {
    t.comments == before ||
    (t.comments != [] && before == t.comments[..|t.comments| - 1] &&
     t.comments[|t.comments| - 1].id == stamp.commentId &&
     t.comments[|t.comments| - 1].threadId == t.id &&
     t.comments[|t.comments| - 1].editedAt == ZERO_TIME)
  }

  /** t is a copy already on the ledger, or such a copy with one new comment. */
  lemma EditedIsOnLedger(s: Sys, before: seq<Comment>, t: Thread, stamp: Stamp)
    requires Inv(s) && FreshStamp(s, stamp)
    requires OnLedger(s.ledger, t.(comments := before))
    requires AtMostOneNew(before, t, stamp)
    ensures OnLedger(NoteNew(s.ledger, t, stamp), t)
    ensures LedgerTidy(NoteNew(s.ledger, t, stamp), stamp.commentId)
    ensures Grows(s.ledger, NoteNew(s.ledger, t, stamp))
  {
    var u := t.(comments := before);
    assert stamp.commentId !in s.ledger;
    if t.comments == before {
      assert t == u;
      assert t.comments != [] ==> t.comments[|t.comments| - 1].id in s.ledger;
    } else {
      var last := |t.comments| - 1;
      var row := RowOfComment(t.id, t.comments[last]);
      MintKeepsLedger(s.ledger, s.lastId, stamp.commentId, row, u);
      assert forall i :: 0 <= i < last ==> t.comments[i] == u.comments[i];
    }
  }

  lemma GrownLedgerKeepsFlights(s: Sys, ledger: map<Id, CommentRow>)
    requires Inv(s) && Grows(s.ledger, ledger)
    ensures FlightsOnLedger(s.(ledger := ledger)) && RowsOnLedger(ledger, s.db.commentRows)
  {
    forall k | k in s.flights && !s.flights[k].RowLoaded?
      ensures OnLedger(ledger, CopyOf(s.flights[k]))
    {
      assert OnLedger(s.ledger, CopyOf(s.flights[k]));
    }
  }

  lemma EditStep(s: Sys, k: nat, f: Change, stamp: Stamp, before: seq<Comment>)
    requires Inv(s) && FreshStamp(s, stamp)
    requires OnLedger(s.ledger, f.thread.(comments := before)) && AtMostOneNew(before, f.thread, stamp)
    ensures Inv(s.(flights := s.flights[k := Edited(f)], lastId := stamp.commentId, ledger := NoteNew(s.ledger, f.thread, stamp)))
    ensures Grows(s.ledger, NoteNew(s.ledger, f.thread, stamp))
  {
    EditedIsOnLedger(s, before, f.thread, stamp);
    GrownLedgerKeepsFlights(s, NoteNew(s.ledger, f.thread, stamp));
  }

  lemma EditKeepsInv(s: Sys, a: Action)
    requires Inv(s) && Enabled(s, a) && (a.BeginCreate? || a.EditCopy?)
    ensures Inv(Next(s, a))
  {
    if a.BeginCreate? {
      var t := Decide(map[], a.p, a.ev, a.stamp).thread;
      assert OnLedger(s.ledger, t.(comments := []));
      EditStep(s, a.k, Flown(s, a).change, a.stamp, []);
    } else {
      var f := s.flights[a.k];
      var t := Edit(f.thread, f.p, f.ev, a.stamp).thread;
      assert OnLedger(s.ledger, CopyOf(f));
      assert OnLedger(s.ledger, t.(comments := f.thread.comments));
      EditStep(s, a.k, Flown(s, a).change, a.stamp, f.thread.comments);
    }
  }

  lemma StepKeepsInv(s: Sys, a: Action)
    requires Inv(s) && Enabled(s, a)
    ensures Inv(Next(s, a)) && Grows(s.db.commentRows, Next(s, a).db.commentRows)
  {
    match a
    case BeginCreate(k, p, ev, stamp) => EditKeepsInv(s, a);
    case LoadRow(k, p, ev) =>
    case LoadRest(k) => LoadedIsOnLedger(s, s.flights[k].id, s.flights[k].row);
    case EditCopy(k, stamp) => EditKeepsInv(s, a);
    case Commit(k) =>
      var t := s.flights[k].change.thread;
      assert OnLedger(s.ledger, CopyOf(s.flights[k]));
      UpsertStaysOnLedger(s.ledger, s.db.commentRows, t.id, t.comments);
    case Abandon(k) =>
  }

  // ----- runs -----

  const INIT := Sys(Tables(map[], map[]), map[], 0, map[], [])

  ghost predicate CanRun(acts: seq<Action>)
    decreases |acts|, 0
  {
    acts == [] || (CanRun(acts[..|acts| - 1]) && Enabled(After(acts[..|acts| - 1]), acts[|acts| - 1]))
  }

  /** The state every run reaches. */
  ghost function After(acts: seq<Action>): Sys
    requires CanRun(acts)
    decreases |acts|, 1
  {
    if acts == [] then INIT else Next(After(acts[..|acts| - 1]), acts[|acts| - 1])
  }

  lemma EmptyRun()
    ensures CanRun([]) && After([]) == INIT
  {
  }

  lemma Extend(acts: seq<Action>, a: Action)
    requires CanRun(acts) && Enabled(After(acts), a)
    ensures CanRun(acts + [a]) && After(acts + [a]) == Next(After(acts), a)
  {
    hide Enabled, Next;
    assert (acts + [a])[..|acts|] == acts;
  }

  lemma {:induction false} LogLength(acts: seq<Action>)
    requires CanRun(acts)
    ensures |After(acts).puts| == |acts|
    decreases |acts|
  {
    hide Enabled, Flown, PutBy;
    if acts != [] {
      LogLength(acts[..|acts| - 1]);
    }
  }

  lemma PutsOneMore(s: Sys, a: Action)
    requires Enabled(s, a)
    ensures Next(s, a).puts == s.puts + [PutBy(s, a)]
  {
    hide Flown, PutBy;
  }

  lemma {:induction false} Prefix(acts: seq<Action>, n: nat)
    requires CanRun(acts) && n <= |acts|
    ensures CanRun(acts[..n]) && After(acts[..n]).puts <= After(acts).puts && |After(acts[..n]).puts| == n
    decreases |acts|
  {
    hide Enabled, Next;
    LogLength(acts);
    if n < |acts| {
      var front := acts[..|acts| - 1];
      Prefix(front, n);
      assert front[..n] == acts[..n];
      PutsOneMore(After(front), acts[|acts| - 1]);
    } else {
      assert acts[..n] == acts;
    }
  }

  lemma {:induction false} RunKeepsInv(acts: seq<Action>)
    requires CanRun(acts)
    ensures Inv(After(acts))
    decreases |acts|
  {
    hide Enabled, Next;
    if acts != [] {
      RunKeepsInv(acts[..|acts| - 1]);
      StepKeepsInv(After(acts[..|acts| - 1]), acts[|acts| - 1]);
    }
  }

  // ----- every committed comment survives -----

  /** Each comment of the thread is stored as it is. */
  ghost predicate Kept(rows: map<Id, CommentRow>, t: Thread) {
    forall n :: 0 <= n < |t.comments| ==>
      t.comments[n].threadId == t.id && t.comments[n].id in rows && rows[t.comments[n].id] == RowOfComment(t.id, t.comments[n])
  }

  /** Every copy that was put is still stored. */
  ghost predicate PutsKept(s: Sys) {
    forall i: nat, id :: PutsAt(s.puts, i, id) ==> s.puts[i][id].thread.id == id && Kept(s.db.commentRows, s.puts[i][id].thread)
  }

  lemma KeptStays(a: map<Id, CommentRow>, b: map<Id, CommentRow>, t: Thread)
    requires Kept(a, t) && Grows(a, b)
    ensures Kept(b, t)
  {
  }

  lemma CommittedIsKept(s: Sys, k: nat)
    requires Inv(s) && Enabled(s, Commit(k))
    ensures Kept(Next(s, Commit(k)).db.commentRows, s.flights[k].change.thread)
  {
    var t := s.flights[k].change.thread;
    assert OnLedger(s.ledger, CopyOf(s.flights[k]));
    UpsertStaysOnLedger(s.ledger, s.db.commentRows, t.id, t.comments);
  }

  lemma StepKeepsPuts(s: Sys, a: Action)
    requires Inv(s) && PutsKept(s) && Enabled(s, a)
    ensures PutsKept(Next(s, a))
  {
    StepKeepsInv(s, a);
    PutsOneMore(s, a);
    if a.Commit? {
      CommittedIsKept(s, a.k);
    }
    hide Inv, Next, Grows, Kept;
    var t := Next(s, a);
    forall i: nat, id | PutsAt(t.puts, i, id) ensures t.puts[i][id].thread.id == id && Kept(t.db.commentRows, t.puts[i][id].thread) {
      if i < |s.puts| {
        assert PutsAt(s.puts, i, id);
        KeptStays(s.db.commentRows, t.db.commentRows, s.puts[i][id].thread);
      }
    }
  }

  lemma {:induction false} RunKeepsPuts(acts: seq<Action>)
    requires CanRun(acts)
    ensures PutsKept(After(acts))
    decreases |acts|
  {
    hide Enabled, Next, Inv, Kept;
    if acts != [] {
      RunKeepsPuts(acts[..|acts| - 1]);
      RunKeepsInv(acts[..|acts| - 1]);
      StepKeepsPuts(After(acts[..|acts| - 1]), acts[|acts| - 1]);
    }
  }

  /** Store refinement, concurrent part: once an operation commits, each comment of
      the thread it put is read back unchanged at the end of every run, whatever
      else loads, edits and commits. */
  lemma CommittedCommentsSurvive(acts: seq<Action>, i: nat, id: Id, n: nat)
    requires CanRun(acts) && PutsAt(After(acts).puts, i, id) && n < |After(acts).puts[i][id].thread.comments|
    ensures After(acts).puts[i][id].thread.comments[n] in LoadComments(After(acts).db.commentRows, id)
  {
    hide CanRun, After, LoadComments;
    RunKeepsPuts(acts);
    var rows, c := After(acts).db.commentRows, After(acts).puts[i][id].thread.comments[n];
    assert rows[c.id] == RowOfComment(id, c);
    RowIsLoaded(rows, id, c.id);
    assert CommentOfRow(c.id, rows[c.id]) == c;
  }

  // ----- the thread row is the last writer's -----

  /** The columns a put overwrites. */
  datatype Mutable = Mutable(anchor: Anchor, resolved: bool, resolvedBy: string, resolvedAt: Option<Time>, status: Status)

  function MutableOf(row: ThreadRow): Mutable {
    Mutable(row.anchor, row.resolved, row.resolvedBy, row.resolvedAt, row.status)
  }

  ghost predicate Written(rows: map<Id, ThreadRow>, put: map<Id, Change>) {
    rows.Keys == put.Keys && forall id :: id in rows ==> MutableOf(rows[id]) == MutableOf(RowOfThread(put[id].thread))
  }

  lemma WrittenAfterPut(rows: map<Id, ThreadRow>, log: Puts<Id, Change>, f: Change, put: map<Id, Change>)
    requires Written(rows, Replayed(log)) && put == map[f.thread.id := f]
    ensures Written(UpsertThread(rows, f.thread), Replayed(log + [put]))
  {
    ReplayedOneMore(log, put);
    hide Replayed, RowOfThread;
  }

  lemma StepKeepsRows(s: Sys, a: Action)
    requires Written(s.db.threadRows, Replayed(s.puts)) && Enabled(s, a)
    ensures Written(Next(s, a).db.threadRows, Replayed(Next(s, a).puts))
  {
    hide Replayed, Written, UpsertComments, Flown, UpsertThread;
    PutsOneMore(s, a);
    if a.Commit? {
      WrittenAfterPut(s.db.threadRows, s.puts, s.flights[a.k].change, PutBy(s, a));
    } else {
      ReplayedOneMore(s.puts, PutBy(s, a));
      assert Replayed(s.puts) + map[] == Replayed(s.puts);
    }
  }

  lemma {:induction false} RunKeepsRows(acts: seq<Action>)
    requires CanRun(acts)
    ensures Written(After(acts).db.threadRows, Replayed(After(acts).puts))
    decreases |acts|
  {
    hide Enabled, Next, MutableOf, RowOfThread;
    if acts != [] {
      RunKeepsRows(acts[..|acts| - 1]);
      StepKeepsRows(After(acts[..|acts| - 1]), acts[|acts| - 1]);
    }
  }

  /** After every run there is a row for exactly the threads that were put, and its
      mutable columns are those of the copy the last operation put. */
  lemma RowIsLastPut(acts: seq<Action>, id: Id)
    requires CanRun(acts)
    ensures var rows, puts := After(acts).db.threadRows, After(acts).puts;
      && (id in rows <==> exists i: nat :: PutsAt(puts, i, id))
      && (forall i: nat :: LastPut(puts, i, id) ==> id in rows && MutableOf(rows[id]) == MutableOf(RowOfThread(puts[i][id].thread)))
  {
    hide CanRun, After, MutableOf, RowOfThread;
    RunKeepsRows(acts);
    ReplayedIsLastPut(After(acts).puts, id);
  }

  // ----- where the flag of a copy comes from -----

  /** The thread had a row n steps into the run. */
  ghost predicate HeldAt(acts: seq<Action>, n: nat, id: Id) {
    n <= |acts| && CanRun(acts[..n]) && id in After(acts[..n]).db.threadRows
  }

  ghost predicate FlagOk(acts: seq<Action>, f: Flight) {
    match f
    case RowLoaded(_, _, id, row, at) => HeldAt(acts, at, id) && row == After(acts[..at]).db.threadRows[id]
    case Loaded(_, _, thread, at, _) =>
      HeldAt(acts, at, thread.id) && thread.resolved == After(acts[..at]).db.threadRows[thread.id].resolved
    case Edited(change) => ChangeOk(acts, change)
  }

  ghost predicate ChangeOk(acts: seq<Action>, f: Change) {
    if f.op == OpCreate then !f.thread.resolved
    else
      && HeldAt(acts, f.at, f.thread.id)
      && (f.op == OpResolve ==> f.thread.resolved)
      && (f.op == OpReopen ==> !f.thread.resolved)
      && (f.op != OpResolve && f.op != OpReopen ==> f.thread.resolved == After(acts[..f.at]).db.threadRows[f.thread.id].resolved)
  }

  ghost predicate FlightFlags(acts: seq<Action>, s: Sys) {
    forall k :: k in s.flights ==> FlagOk(acts, s.flights[k])
  }

  ghost predicate PutFlags(acts: seq<Action>, s: Sys) {
    forall i: nat, id :: PutsAt(s.puts, i, id) ==>
      s.puts[i][id].thread.id == id && ChangeOk(acts, s.puts[i][id]) && (s.puts[i][id].op != OpCreate ==> s.puts[i][id].at <= i)
  }

  lemma ChangeStays(acts: seq<Action>, n: nat, f: Change)
    requires n <= |acts| && ChangeOk(acts[..n], f)
    ensures ChangeOk(acts, f)
  {
    hide CanRun, After;
    assert f.at <= n ==> acts[..n][..f.at] == acts[..f.at];
  }

  lemma FlagStays(acts: seq<Action>, n: nat, f: Flight)
    requires n <= |acts| && FlagOk(acts[..n], f)
    ensures FlagOk(acts, f)
  {
    hide CanRun, After;
    if f.Edited? {
      ChangeStays(acts, n, f.change);
    } else {
      assert f.at <= n ==> acts[..n][..f.at] == acts[..f.at];
    }
  }

  lemma LoadedFlag(acts: seq<Action>, a: Action)
    requires CanRun(acts) && |After(acts).puts| == |acts| && FlightFlags(acts, After(acts))
    requires (a.LoadRow? || a.LoadRest?) && Enabled(After(acts), a)
    ensures FlagOk(acts + [a], Flown(After(acts), a))
  {
    hide CanRun, After, LoadComments, CommentIds;
    assert (acts + [a])[..|acts|] == acts;
    if a.LoadRest? {
      FlagStays(acts + [a], |acts|, After(acts).flights[a.k]);
    }
  }

  lemma EditedFlag(acts: seq<Action>, a: Action)
    requires CanRun(acts) && FlightFlags(acts, After(acts)) && (a.BeginCreate? || a.EditCopy?) && Enabled(After(acts), a)
    ensures FlagOk(acts, Flown(After(acts), a))
  {
    hide CanRun, After;
    if a.EditCopy? {
      assert FlagOk(acts, After(acts).flights[a.k]);
    }
  }

  /** No step moves another flight than its own. */
  lemma FlightEffect(s: Sys, a: Action, k: nat)
    requires Enabled(s, a) && k in Next(s, a).flights
    ensures if k in s.flights && k != a.k then Next(s, a).flights[k] == s.flights[k]
      else k == a.k && !a.Commit? && !a.Abandon? && Next(s, a).flights[k] == Flown(s, a)
  {
    hide Flown, PutBy;
  }

  lemma FlightFlagsStay(acts: seq<Action>, a: Action)
    requires CanRun(acts) && |After(acts).puts| == |acts| && FlightFlags(acts, After(acts)) && Enabled(After(acts), a)
    ensures FlightFlags(acts + [a], Next(After(acts), a))
  {
    hide CanRun, After, FlagOk, Next, Flown, Enabled;
    var s, t := After(acts), Next(After(acts), a);
    assert (acts + [a])[..|acts|] == acts;
    forall k | k in t.flights ensures FlagOk(acts + [a], t.flights[k]) {
      FlightEffect(s, a, k);
      if k in s.flights && k != a.k {
        FlagStays(acts + [a], |acts|, s.flights[k]);
      } else if a.LoadRow? || a.LoadRest? {
        LoadedFlag(acts, a);
      } else {
        EditedFlag(acts, a);
        FlagStays(acts + [a], |acts|, t.flights[k]);
      }
    }
  }

  lemma PutFlagsStay(acts: seq<Action>, a: Action)
    requires CanRun(acts) && |After(acts).puts| == |acts| && FlightFlags(acts, After(acts)) && PutFlags(acts, After(acts))
    requires Enabled(After(acts), a)
    ensures PutFlags(acts + [a], Next(After(acts), a))
  {
    hide CanRun, After, Next, Flown, ChangeOk;
    var s, t := After(acts), Next(After(acts), a);
    PutsOneMore(s, a);
    assert (acts + [a])[..|acts|] == acts;
    forall i: nat, id | PutsAt(t.puts, i, id)
      ensures t.puts[i][id].thread.id == id && ChangeOk(acts + [a], t.puts[i][id]) && (t.puts[i][id].op != OpCreate ==> t.puts[i][id].at <= i)
    {
      if i < |s.puts| {
        assert PutsAt(s.puts, i, id);
        ChangeStays(acts + [a], |acts|, s.puts[i][id]);
      } else {
        assert FlagOk(acts, s.flights[a.k]);
        LoadedEarlier(acts, s.flights[a.k].change);
        ChangeStays(acts + [a], |acts|, s.flights[a.k].change);
      }
    }
  }

  lemma LoadedEarlier(acts: seq<Action>, f: Change)
    requires ChangeOk(acts, f)
    ensures f.op != OpCreate ==> f.at <= |acts|
  {
    hide CanRun, After;
  }

  lemma {:induction false} RunKeepsFlags(acts: seq<Action>)
    requires CanRun(acts)
    ensures FlightFlags(acts, After(acts)) && PutFlags(acts, After(acts))
    decreases |acts|
  {
    hide Enabled, Next, FlightFlags, PutFlags;
    if acts == [] {
      StartFlags();
    } else {
      var front, a := acts[..|acts| - 1], acts[|acts| - 1];
      RunKeepsFlags(front);
      LogLength(front);
      FlightFlagsStay(front, a);
      PutFlagsStay(front, a);
      assert front + [a] == acts;
    }
  }

  lemma StartFlags()
    ensures FlightFlags([], INIT) && PutFlags([], INIT)
  {
  }

  ghost predicate ResolvedAt(acts: seq<Action>, n: nat, id: Id) {
    HeldAt(acts, n, id) && After(acts[..n]).db.threadRows[id].resolved
  }

  /** A thread is resolved at the end of a run exactly when the last operation to put
      it resolves it, or leaves the flag alone and had loaded it resolved. */
  lemma ResolvedIff(acts: seq<Action>, i: nat, id: Id)
    requires CanRun(acts) && LastPut(After(acts).puts, i, id)
    ensures id in After(acts).db.threadRows
    ensures var f := After(acts).puts[i][id];
      After(acts).db.threadRows[id].resolved <==>
        f.op == OpResolve || (f.op != OpReopen && f.op != OpCreate && ResolvedAt(acts, f.at, id))
  {
    hide CanRun, After;
    RunKeepsFlags(acts);
    RowIsLastPut(acts, id);
    var f := After(acts).puts[i][id];
    assert ChangeOk(acts, f) && f.thread.id == id;
    assert MutableOf(After(acts).db.threadRows[id]).resolved == f.thread.resolved;
  }

  /** A resolve put at step r, and the next put of that thread at step i. The resolve
      survives it exactly when that operation resolves the thread itself, or does
      not reopen it and loaded the row after the resolve or when the thread was
      resolved already. */
  lemma ResolveSurvivesIff(acts: seq<Action>, r: nat, i: nat, id: Id)
    requires CanRun(acts) && r < i && PutsAt(After(acts).puts, r, id) && LastPut(After(acts).puts, i, id)
    requires forall j: nat :: r < j < i ==> !PutsAt(After(acts).puts, j, id)
    requires After(acts).puts[r][id].op == OpResolve && After(acts).puts[i][id].op != OpCreate
    ensures id in After(acts).db.threadRows
    ensures var f := After(acts).puts[i][id];
      After(acts).db.threadRows[id].resolved <==>
        f.op == OpResolve || (f.op != OpReopen && (f.at > r || ResolvedAt(acts, f.at, id)))
  {
    hide CanRun, After, ResolvedAt, ChangeOk;
    ResolvedIff(acts, i, id);
    RunKeepsFlags(acts);
    LogLength(acts);
    var f := After(acts).puts[i][id];
    assert f.at <= i;
    if f.at > r {
      ResolvedSince(acts, r, f.at, i, id);
    }
  }

  /** After a resolve, until the next put, every load finds the thread resolved. */
  lemma ResolvedSince(acts: seq<Action>, r: nat, n: nat, i: nat, id: Id)
    requires CanRun(acts) && r < n <= i <= |acts| && PutsAt(After(acts).puts, r, id) && After(acts).puts[r][id].op == OpResolve
    requires forall j: nat :: r < j < i ==> !PutsAt(After(acts).puts, j, id)
    ensures ResolvedAt(acts, n, id)
  {
    hide CanRun, After;
    Prefix(acts, n);
    var front := acts[..n];
    var all, some := After(acts).puts, After(front).puts;
    assert forall j: nat :: j < n ==> (PutsAt(some, j, id) <==> PutsAt(all, j, id));
    assert LastPut(some, r, id);
    ResolvedIff(front, r, id);
  }

  // ----- a run that undoes a resolve -----

  ghost predicate IsResolve(ev: Event, id: Id) {
    ev.op == OpResolve && ev.repo != "" && ev.thread.Some? && ev.thread.value.id == id
  }

  /** A thread is created and put. */
  lemma CreateRun(p: Principal, ev: Event, stamp: Stamp)
    requires ev.op == OpCreate && Decide(map[], p, ev, stamp).Accept? && 0 < stamp.threadId < stamp.commentId
    ensures
      var t := Decide(map[], p, ev, stamp).thread;
      var acts := [BeginCreate(0, p, ev, stamp), Commit(0)];
      && t.id == stamp.threadId && t.orgId == TenantKey(p) && !t.resolved
      && CanRun(acts) && After(acts).db.threadRows == map[t.id := RowOfThread(t)]
      && After(acts).flights == map[] && After(acts).lastId == stamp.commentId
  {
    hide CanRun, After, UpsertComments;
    var create := BeginCreate(0, p, ev, stamp);
    EmptyRun();
    Extend([], create);
    assert [] + [create] == [create];
    Extend([create], Commit(0));
    assert [create] + [Commit(0)] == [create, Commit(0)];
  }

  /** p replies and q resolves, both having loaded the thread before either put. */
  function ReplyOverResolve(p: Principal, reply: Event, st1: Stamp, q: Principal, resolve: Event, st2: Stamp): seq<Action> {
    [LoadRow(1, p, reply), LoadRest(1), LoadRow(2, q, resolve), LoadRest(2), EditCopy(1, st1), EditCopy(2, st2), Commit(2)]
  }

  /** For any two members of the tenant: once the resolve is committed the thread is
      resolved, and once the earlier loaded reply is committed it is open again. */
  lemma StaleReplyUndoesResolve(p0: Principal, ev0: Event, st0: Stamp, p: Principal, reply: Event, st1: Stamp, q: Principal, resolve: Event, st2: Stamp)
    requires ev0.op == OpCreate && Decide(map[], p0, ev0, st0).Accept?
    requires p.sub != "" && q.sub != "" && TenantKey(p) == TenantKey(p0) == TenantKey(q)
    requires IsReply(reply, st0.threadId) && IsResolve(resolve, st0.threadId)
    requires 0 < st0.threadId < st0.commentId < st1.threadId < st1.commentId < st2.threadId < st2.commentId
    ensures var id := st0.threadId;
      var acts := [BeginCreate(0, p0, ev0, st0), Commit(0)] + ReplyOverResolve(p, reply, st1, q, resolve, st2);
      && CanRun(acts) && CanRun(acts + [Commit(1)])
      && id in After(acts).db.threadRows && After(acts).db.threadRows[id].resolved
      && id in After(acts + [Commit(1)]).db.threadRows && !After(acts + [Commit(1)]).db.threadRows[id].resolved
  {
    hide CanRun, After, Decide, UpsertComments, LoadComments;
    var t0 := Decide(map[], p0, ev0, st0).thread;
    var a2 := [BeginCreate(0, p0, ev0, st0), Commit(0)];
    CreateRun(p0, ev0, st0);
    ResolveRun(a2, t0, p, reply, st1, q, resolve, st2);
    Extend(a2 + ReplyOverResolve(p, reply, st1, q, resolve, st2), Commit(1));
  }

  lemma ResolveRun(a2: seq<Action>, t0: Thread, p: Principal, reply: Event, st1: Stamp, q: Principal, resolve: Event, st2: Stamp)
    requires CanRun(a2) && After(a2).db.threadRows == map[t0.id := RowOfThread(t0)] && After(a2).flights == map[]
    requires t0.id != NO_ID && !t0.resolved && p.sub != "" && q.sub != "" && TenantKey(p) == t0.orgId == TenantKey(q)
    requires IsReply(reply, t0.id) && IsResolve(resolve, t0.id)
    requires After(a2).lastId < st1.threadId < st1.commentId < st2.threadId < st2.commentId
    ensures var acts := a2 + ReplyOverResolve(p, reply, st1, q, resolve, st2);
      && CanRun(acts) && t0.id in After(acts).db.threadRows && After(acts).db.threadRows[t0.id].resolved
      && 1 in After(acts).flights && After(acts).flights[1].Edited?
      && After(acts).flights[1].change.thread.id == t0.id && !After(acts).flights[1].change.thread.resolved
  {
    hide CanRun, After, UpsertComments, LoadComments;
    var b := ReplyOverResolve(p, reply, st1, q, resolve, st2);
    BothLoaded(a2, t0, p, reply, q, resolve, b[..4]);
    var a6 := a2 + b[..4];
    Extend(a6, b[4]);
    Extend(a6 + [b[4]], b[5]);
    Extend(a6 + [b[4]] + [b[5]], b[6]);
    assert a6 + [b[4]] + [b[5]] + [b[6]] == a2 + b;
  }

  /** One operation loads its thread. */
  lemma Loads(acts: seq<Action>, k: nat, p: Principal, ev: Event, id: Id)
    requires CanRun(acts) && k !in After(acts).flights && id in After(acts).db.threadRows && After(acts).db.threadRows[id].orgId == TenantKey(p)
    requires p.sub != "" && ev.repo != "" && Target(ev) == Some(id)
    ensures var more := acts + [LoadRow(k, p, ev)] + [LoadRest(k)];
      CanRun(more) &&
      var s, t := After(acts), After(more);
      && t.db == s.db && t.lastId == s.lastId && k in t.flights && t.flights == s.flights[k := t.flights[k]]
      && t.flights[k].Loaded? && t.flights[k].p == p && t.flights[k].ev == ev && t.flights[k].thread.id == id
      && t.flights[k].thread.resolved == s.db.threadRows[id].resolved && t.flights[k].thread.orgId == TenantKey(p)
  {
    hide CanRun, After, LoadComments, CommentIds;
    Extend(acts, LoadRow(k, p, ev));
    Extend(acts + [LoadRow(k, p, ev)], LoadRest(k));
  }

  lemma BothLoaded(a2: seq<Action>, t0: Thread, p: Principal, reply: Event, q: Principal, resolve: Event, b: seq<Action>)
    requires CanRun(a2) && After(a2).db.threadRows == map[t0.id := RowOfThread(t0)] && After(a2).flights == map[]
    requires t0.id != NO_ID && !t0.resolved && p.sub != "" && q.sub != "" && TenantKey(p) == t0.orgId == TenantKey(q)
    requires IsReply(reply, t0.id) && IsResolve(resolve, t0.id)
    requires b == [LoadRow(1, p, reply), LoadRest(1), LoadRow(2, q, resolve), LoadRest(2)]
    ensures CanRun(a2 + b)
    ensures var s := After(a2 + b);
      && s.db == After(a2).db && s.lastId == After(a2).lastId
      && 1 in s.flights && s.flights[1].Loaded? && s.flights[1].p == p && s.flights[1].ev == reply
      && s.flights[1].thread.id == t0.id && !s.flights[1].thread.resolved && s.flights[1].thread.orgId == t0.orgId
      && 2 in s.flights && s.flights[2].Loaded? && s.flights[2].p == q && s.flights[2].ev == resolve
      && s.flights[2].thread.id == t0.id && s.flights[2].thread.orgId == t0.orgId
  {
    hide CanRun, After;
    Loads(a2, 1, p, reply, t0.id);
    var a4 := a2 + [b[0]] + [b[1]];
    Loads(a4, 2, q, resolve, t0.id);
    assert a4 + [b[2]] + [b[3]] == a2 + b;
  }
}
