/** Concurrent operations against the in-memory store (internal/coordinator/comments.go
    over internal/coordinator/commentstore.go): each operation loads a thread, edits its
    copy and puts the copy back, replacing whatever is there. Nothing is locked in
    between. The copies are structs, but their comments are slices: a loaded copy shares
    its backing array with the stored thread, and a reply appends in place when the array
    has room. History variables: what each step puts and which cells it writes, and the
    steps at which a flight loaded and edited. */
module ReplaceInterleaving {
  import opened Common
  import opened SpecComments
  import opened CommentOps
  import opened LastPuts

  /** One place in a backing array. */
  datatype Cell = Cell(arr: nat, index: nat)

  type Cells = map<Cell, Comment>

  /** A thread struct: its fields, with no comments in them, and its slice of comments by
      array and length. */
  datatype Copy = Copy(head: Thread, arr: nat, len: nat)

  /** What an operation puts: from is the copy that was loaded, minted what the operation
      added to it. */
  datatype Change = Change(op: Op, from: Copy, copy: Copy, minted: seq<Comment>, at: nat, edited: nat)

  datatype Flight = Loaded(p: Principal, ev: Event, copy: Copy, at: nat) | Edited(change: Change)

  /** caps has the capacity of every array allocated so far. */
  datatype Sys = Sys(
    cells: Cells, caps: seq<nat>, threads: map<Id, Copy>, flights: map<nat, Flight>, lastId: Id,
    puts: Puts<Id, Change>, writes: Puts<Cell, Comment>)

  /** An edit names the capacity to allocate should it have to grow the array. */
  datatype Action =
    | BeginCreate(k: nat, p: Principal, ev: Event, stamp: Stamp)
    | Load(k: nat, p: Principal, ev: Event)
    | EditCopy(k: nat, stamp: Stamp, cap: nat)
    | Commit(k: nat)
    | Abandon(k: nat)

  const INIT := Sys(map[], [], map[], map[], 0, [], [])

  predicate FreshStamp(s: Sys, stamp: Stamp) {
    s.lastId < stamp.threadId < stamp.commentId
  }

  predicate Enabled(s: Sys, a: Action) {
    match a
    case BeginCreate(k, p, ev, stamp) =>
      k !in s.flights && FreshStamp(s, stamp) && ev.op == OpCreate && Decide(map[], p, ev, stamp).Accept?
    case Load(k, p, ev) =>
      k !in s.flights && ev.repo != "" && p.sub != "" && Target(ev).Some? && Target(ev).value in s.threads
      && s.threads[Target(ev).value].head.orgId == TenantKey(p)
    case EditCopy(k, stamp, cap) =>
      k in s.flights && s.flights[k].Loaded? && FreshStamp(s, stamp) && Target(s.flights[k].ev).Some?
      && cap > s.flights[k].copy.len && EditOf(s.flights[k], stamp).Accept?
    case Commit(k) => k in s.flights && s.flights[k].Edited?
    case Abandon(k) => k in s.flights
  }

  /** The edit, on the fields alone: what it appends is then all there is. */
  function EditOf(f: Flight, stamp: Stamp): Verdict
    requires f.Loaded? && Target(f.ev).Some?
  {
    Edit(f.copy.head, f.p, f.ev, stamp)
  }

  predicate HasRoom(caps: seq<nat>, c: Copy) {
    c.arr < |caps| && c.len < caps[c.arr]
  }

  /** The comments of a copy, moved to another array. */
  function Moved(cells: Cells, c: Copy, to: nat): Cells {
    map j | 0 <= j < c.len && Cell(c.arr, j) in cells :: Cell(to, j) := cells[Cell(c.arr, j)]
  }

  /** The cells an append of at most one comment writes; below, the array it ends in. */
  function Appended(cells: Cells, caps: seq<nat>, c: Copy, more: seq<Comment>): Cells {
    if more == [] then map[]
    else if HasRoom(caps, c) then map[Cell(c.arr, c.len) := more[0]]
    else Moved(cells, c, |caps|)[Cell(|caps|, c.len) := more[0]]
  }

  function ArrayAfter(caps: seq<nat>, c: Copy, more: seq<Comment>): nat {
    if more == [] || HasRoom(caps, c) then c.arr else |caps|
  }

  function Writes(s: Sys, a: Action): Cells
    requires Enabled(s, a)
  {
    match a
    case BeginCreate(k, p, ev, stamp) => map[Cell(|s.caps|, 0) := Decide(map[], p, ev, stamp).thread.comments[0]]
    case EditCopy(k, stamp, cap) => Appended(s.cells, s.caps, s.flights[k].copy, EditOf(s.flights[k], stamp).thread.comments)
    case _ => map[]
  }

  function Capacities(s: Sys, a: Action): seq<nat>
    requires Enabled(s, a)
  {
    match a
    case BeginCreate(k, p, ev, stamp) => s.caps + [1]
    case EditCopy(k, stamp, cap) =>
      if EditOf(s.flights[k], stamp).thread.comments == [] || HasRoom(s.caps, s.flights[k].copy) then s.caps else s.caps + [cap]
    case _ => s.caps
  }

  /** The flight of a.k after a step that moves it on. */
  function Flown(s: Sys, a: Action): Flight
    requires Enabled(s, a) && (a.BeginCreate? || a.Load? || a.EditCopy?)
  {
    var now := |s.puts|;
    match a
    case BeginCreate(k, p, ev, stamp) =>
      var t := Decide(map[], p, ev, stamp).thread;
      var copy := Copy(t.(comments := []), |s.caps|, 1);
      Edited(Change(OpCreate, copy, copy, t.comments, now, now))
    case Load(k, p, ev) => Loaded(p, ev, s.threads[Target(ev).value], now)
    case EditCopy(k, stamp, cap) =>
      var f := s.flights[k];
      var t := EditOf(f, stamp).thread;
      var copy := Copy(t.(comments := []), ArrayAfter(s.caps, f.copy, t.comments), f.copy.len + |t.comments|);
      Edited(Change(f.ev.op, f.copy, copy, t.comments, f.at, now))
  }

  function PutBy(s: Sys, a: Action): map<Id, Change>
    requires Enabled(s, a)
  {
    if a.Commit? then map[s.flights[a.k].change.copy.head.id := s.flights[a.k].change] else map[]
  }

  function Next(s: Sys, a: Action): Sys
    requires Enabled(s, a)
  {
    Sys(s.cells + Writes(s, a),
        Capacities(s, a),
        if a.Commit? then s.threads[s.flights[a.k].change.copy.head.id := s.flights[a.k].change.copy] else s.threads,
        if a.Commit? || a.Abandon? then s.flights - {a.k} else s.flights[a.k := Flown(s, a)],
        if a.BeginCreate? || a.EditCopy? then a.stamp.commentId else s.lastId,
        s.puts + [PutBy(s, a)],
        s.writes + [Writes(s, a)])
  }

  ghost predicate CanRun(acts: seq<Action>)
    decreases |acts|, 0
  {
    acts == [] || (CanRun(acts[..|acts| - 1]) && Enabled(After(acts[..|acts| - 1]), acts[|acts| - 1]))
  }

  /** The state every run reaches. */
  ghost function After(acts: seq<Action>): Sys
    requires CanRun(acts)
    decreases |acts|, 1
  {
    if acts == [] then INIT else Next(After(acts[..|acts| - 1]), acts[|acts| - 1])
  }

  lemma EmptyRun()
    ensures CanRun([]) && After([]) == INIT
  {
  }

  lemma Extend(acts: seq<Action>, a: Action)
    requires CanRun(acts) && Enabled(After(acts), a)
    ensures CanRun(acts + [a]) && After(acts + [a]) == Next(After(acts), a)
  {
    hide Enabled, Next;
    assert (acts + [a])[..|acts|] == acts;
  }

  // ----- what a copy shows -----

  /** Every cell of the copy's slice has been written. */
  ghost predicate Whole(cells: Cells, c: Copy) {
    forall j :: 0 <= j < c.len ==> Cell(c.arr, j) in cells
  }

  ghost function Comments(cells: Cells, c: Copy): seq<Comment>
    requires Whole(cells, c)
  {
    seq(c.len, j requires 0 <= j < c.len => cells[Cell(c.arr, j)])
  }

  // ----- the state along every run -----

  ghost predicate CopyOk(s: Sys, c: Copy) {
    Whole(s.cells, c) && c.head.comments == [] && c.arr < |s.caps| && c.len <= s.caps[c.arr]
  }

  ghost predicate CellsOk(s: Sys) {
    forall cell :: cell in s.cells ==>
      cell.arr < |s.caps| && cell.index < s.caps[cell.arr] && s.cells[cell].id <= s.lastId
  }

  ghost predicate ThreadsOk(s: Sys) {
    forall id :: id in s.threads ==> s.threads[id].head.id == id && CopyOk(s, s.threads[id])
  }

  function CopyOf(f: Flight): Copy {
    if f.Loaded? then f.copy else f.change.copy
  }

  ghost predicate FlightsOk(s: Sys) {
    forall k :: k in s.flights ==> CopyOk(s, CopyOf(s.flights[k]))
  }

  ghost predicate Sound(s: Sys) {
    CellsOk(s) && ThreadsOk(s) && FlightsOk(s)
  }

  /** What was allocated and written stays so, though a cell may be written again. */
  ghost predicate Extends(s: Sys, t: Sys) {
    && |s.caps| <= |t.caps| && (forall x :: 0 <= x < |s.caps| ==> t.caps[x] == s.caps[x])
    && (forall cell :: cell in s.cells ==> cell in t.cells)
  }

  lemma CopyStaysOk(s: Sys, t: Sys, c: Copy)
    requires CopyOk(s, c) && Extends(s, t)
    ensures CopyOk(t, c)
  {
  }

  /** What an edit or a create appends: at most the comment it minted. */
  lemma MintedIsFresh(s: Sys, a: Action)
    requires Enabled(s, a) && (a.BeginCreate? || a.EditCopy?) && (a.EditCopy? ==> s.flights[a.k].copy.head.comments == [])
    ensures Flown(s, a).Edited?
    ensures var f := Flown(s, a).change;
      && |f.minted| <= 1 && (forall j :: 0 <= j < |f.minted| ==> f.minted[j].id == a.stamp.commentId)
      && (a.BeginCreate? ==> f.minted == Decide(map[], a.p, a.ev, a.stamp).thread.comments && |f.minted| == 1)
      && (a.EditCopy? ==> f.minted == EditOf(s.flights[a.k], a.stamp).thread.comments)
      && f.copy.head.comments == []
      && (a.EditCopy? ==> f.copy.head.id == s.flights[a.k].copy.head.id)
  {
  }

  lemma WritesAreFresh(s: Sys, a: Action, cell: Cell)
    requires Sound(s) && Enabled(s, a) && cell in Writes(s, a)
    ensures cell.arr < |Capacities(s, a)| && cell.index < Capacities(s, a)[cell.arr]
    ensures Writes(s, a)[cell].id <= Next(s, a).lastId
    ensures cell in s.cells ==> Writes(s, a)[cell].id > s.lastId
  {
    if a.EditCopy? {
      assert CopyOk(s, s.flights[a.k].copy);
    }
    MintedIsFresh(s, a);
    hide Decide, Edit;
  }

  lemma StepExtends(s: Sys, a: Action)
    requires Enabled(s, a)
    ensures Extends(s, Next(s, a)) && s.lastId <= Next(s, a).lastId
  {
    hide Writes, Flown, EditOf, Decide;
  }

  lemma CellsStayOk(s: Sys, a: Action)
    requires Sound(s) && Enabled(s, a)
    ensures CellsOk(Next(s, a))
  {
    StepExtends(s, a);
    var t := Next(s, a);
    forall cell | cell in t.cells ensures cell.arr < |t.caps| && cell.index < t.caps[cell.arr] && t.cells[cell].id <= t.lastId {
      if cell in Writes(s, a) {
        WritesAreFresh(s, a, cell);
      }
    }
  }

  /** The copy an append leaves shows the comments of the copy before and the new one. */
  lemma AppendedShows(s: Sys, c: Copy, more: seq<Comment>, cells: Cells)
    requires CopyOk(s, c) && |more| <= 1 && cells == s.cells + Appended(s.cells, s.caps, c, more)
    requires forall cell :: cell in s.cells ==> cell.arr < |s.caps|
    ensures var d := Copy(c.head, ArrayAfter(s.caps, c, more), c.len + |more|);
      Whole(cells, d) && Comments(cells, d) == Comments(s.cells, c) + more
  {
    var d := Copy(c.head, ArrayAfter(s.caps, c, more), c.len + |more|);
    forall j | 0 <= j < d.len
      ensures Cell(d.arr, j) in cells && cells[Cell(d.arr, j)] == (Comments(s.cells, c) + more)[j]
    {
      assert j < c.len ==> Cell(c.arr, j) in s.cells;
    }
  }

  lemma CreatedIsOk(s: Sys, a: Action)
    requires Enabled(s, a) && a.BeginCreate?
    ensures CopyOk(Next(s, a), CopyOf(Flown(s, a)))
  {
    hide Decide;
    MintedIsFresh(s, a);
    var t := Next(s, a);
    assert t.caps == s.caps + [1] && Cell(|s.caps|, 0) in t.cells;
  }

  lemma EditedIsOk(s: Sys, a: Action)
    requires CellsOk(s) && Enabled(s, a) && a.EditCopy? && CopyOk(s, s.flights[a.k].copy)
    ensures CopyOk(Next(s, a), CopyOf(Flown(s, a)))
  {
    MintedIsFresh(s, a);
    hide EditOf, Appended, Comments;
    var c, f, t := s.flights[a.k].copy, Flown(s, a).change, Next(s, a);
    AppendedShows(s, c, f.minted, t.cells);
    assert Whole(t.cells, f.copy) by {
      assert Whole(t.cells, Copy(c.head, f.copy.arr, f.copy.len));
    }
  }

  lemma FlownIsOk(s: Sys, a: Action)
    requires Sound(s) && Enabled(s, a) && (a.BeginCreate? || a.Load? || a.EditCopy?)
    ensures CopyOk(Next(s, a), CopyOf(Flown(s, a)))
  {
    if a.BeginCreate? {
      CreatedIsOk(s, a);
    } else if a.EditCopy? {
      assert CopyOk(s, CopyOf(s.flights[a.k]));
      hide CellsOk, CopyOk, Next;
      EditedIsOk(s, a);
    } else {
      StepExtends(s, a);
      hide Extends, CopyOk, Next;
      CopyStaysOk(s, Next(s, a), s.threads[Target(a.ev).value]);
    }
  }

  lemma ThreadsStayOk(s: Sys, a: Action)
    requires Sound(s) && Enabled(s, a)
    ensures ThreadsOk(Next(s, a))
  {
    StepExtends(s, a);
    hide Writes, Capacities, Flown, Enabled, PutBy, CellsOk, CopyOk, Extends;
    var t := Next(s, a);
    forall id | id in t.threads ensures t.threads[id].head.id == id && CopyOk(t, t.threads[id]) {
      CopyStaysOk(s, t, t.threads[id]);
    }
  }

  lemma FlightsStayOk(s: Sys, a: Action)
    requires Sound(s) && Enabled(s, a)
    ensures FlightsOk(Next(s, a))
  {
    StepExtends(s, a);
    if a.BeginCreate? || a.Load? || a.EditCopy? {
      FlownIsOk(s, a);
    }
    hide Writes, Capacities, Flown, Enabled, PutBy, CellsOk, ThreadsOk, CopyOk, Extends;
    var t := Next(s, a);
    forall k | k in t.flights ensures CopyOk(t, CopyOf(t.flights[k])) {
      if k in s.flights && t.flights[k] == s.flights[k] {
        CopyStaysOk(s, t, CopyOf(s.flights[k]));
      }
    }
  }

  lemma StepKeepsSound(s: Sys, a: Action)
    requires Sound(s) && Enabled(s, a)
    ensures Sound(Next(s, a))
  {
    CellsStayOk(s, a);
    ThreadsStayOk(s, a);
    FlightsStayOk(s, a);
    hide Next, Enabled, CellsOk, ThreadsOk, FlightsOk;
  }

  lemma {:induction false} RunKeepsSound(acts: seq<Action>)
    requires CanRun(acts)
    ensures Sound(After(acts))
    decreases |acts|
  {
    hide Enabled, Next, Sound;
    if acts == [] {
      StartIsSound();
    } else {
      RunKeepsSound(acts[..|acts| - 1]);
      StepKeepsSound(After(acts[..|acts| - 1]), acts[|acts| - 1]);
    }
  }

  lemma StartIsSound()
    ensures Sound(INIT)
  {
  }

  // ----- the last put of a thread, the last write of a cell -----

  ghost predicate Copied(threads: map<Id, Copy>, put: map<Id, Change>) {
    threads.Keys == put.Keys && forall id :: id in threads ==> threads[id] == put[id].copy
  }

  /** The map and the cells are what the puts and the writes leave. */
  ghost predicate Logged(s: Sys) {
    s.cells == Replayed(s.writes) && |s.writes| == |s.puts| && Copied(s.threads, Replayed(s.puts))
  }

  lemma CopiedAfterPut(threads: map<Id, Copy>, put: map<Id, Change>, id: Id, f: Change)
    requires Copied(threads, put)
    ensures Copied(threads[id := f.copy], put + map[id := f])
  {
  }

  lemma LoggedPut(threads: map<Id, Copy>, log: Puts<Id, Change>, id: Id, f: Change, put: map<Id, Change>)
    requires Copied(threads, Replayed(log)) && put == map[id := f]
    ensures Copied(threads[id := f.copy], Replayed(log + [put]))
  {
    hide Replayed, Copied;
    ReplayedOneMore(log, put);
    CopiedAfterPut(threads, Replayed(log), id, f);
  }

  lemma LoggedNothing<K, V>(log: Puts<K, V>)
    ensures Replayed(log + [map[]]) == Replayed(log)
  {
    hide Replayed;
    ReplayedOneMore(log, map[]);
    assert Replayed(log) + map[] == Replayed(log);
  }

  lemma LogEffect(s: Sys, a: Action)
    requires Enabled(s, a)
    ensures var t, put := Next(s, a), PutBy(s, a);
      && t.cells == s.cells + Writes(s, a) && t.writes == s.writes + [Writes(s, a)] && t.puts == s.puts + [put]
      && (if a.Commit? then var f := s.flights[a.k].change; put == map[f.copy.head.id := f] && t.threads == s.threads[f.copy.head.id := f.copy]
          else put == map[] && t.threads == s.threads)
  {
    hide Writes, Capacities, Flown;
  }

  lemma StepKeepsLogged(s: Sys, a: Action)
    requires Logged(s) && Enabled(s, a)
    ensures Logged(Next(s, a))
  {
    hide Writes, Next, PutBy, Replayed, Copied;
    LogEffect(s, a);
    ReplayedOneMore(s.writes, Writes(s, a));
    if a.Commit? {
      var f := s.flights[a.k].change;
      LoggedPut(s.threads, s.puts, f.copy.head.id, f, PutBy(s, a));
    } else {
      LoggedNothing(s.puts);
    }
  }

  lemma {:induction false} RunKeepsLogged(acts: seq<Action>)
    requires CanRun(acts)
    ensures Logged(After(acts)) && |After(acts).puts| == |acts|
    decreases |acts|
  {
    hide Enabled, Logged, Writes, Capacities, Flown, PutBy;
    if acts == [] {
      StartIsLogged();
    } else {
      RunKeepsLogged(acts[..|acts| - 1]);
      StepKeepsLogged(After(acts[..|acts| - 1]), acts[|acts| - 1]);
    }
  }

  lemma StartIsLogged()
    ensures Logged(INIT)
  {
  }

  /** After every run the map holds exactly the threads that were put, each as the
      struct the last operation put: its fields, and its slice. */
  lemma MapIsLastPut(acts: seq<Action>, id: Id)
    requires CanRun(acts)
    ensures var s := After(acts);
      && (id in s.threads <==> exists i: nat :: PutsAt(s.puts, i, id))
      && (forall i: nat :: LastPut(s.puts, i, id) ==> id in s.threads && s.threads[id] == s.puts[i][id].copy)
  {
    hide CanRun, After;
    RunKeepsLogged(acts);
    ReplayedIsLastPut(After(acts).puts, id);
  }

  /** Step w is the last to write cell j of the copy, and writes c. */
  ghost predicate WroteLast(writes: Puts<Cell, Comment>, copy: Copy, j: nat, w: nat, c: Comment) {
    j < copy.len && LastPut(writes, w, Cell(copy.arr, j)) && writes[w][Cell(copy.arr, j)] == c
  }

  /** A comment is in the map after a run exactly when the copy put last covers a cell
      that the comment was the last to be written to. */
  lemma CommentSurvivesIff(acts: seq<Action>, i: nat, id: Id, c: Comment)
    requires CanRun(acts) && LastPut(After(acts).puts, i, id)
    ensures var s := After(acts); id in s.threads && Whole(s.cells, s.threads[id])
    ensures var s := After(acts);
      c in Comments(s.cells, s.threads[id]) <==> exists j: nat, w: nat :: WroteLast(s.writes, s.puts[i][id].copy, j, w, c)
  {
    RunKeepsSound(acts);
    RunKeepsLogged(acts);
    MapIsLastPut(acts, id);
    hide CanRun, After, LastPut, Logged, WroteLast;
    ShownIff(After(acts), After(acts).threads[id], c);
  }

  lemma ShownIff(s: Sys, copy: Copy, c: Comment)
    requires Logged(s) && Whole(s.cells, copy)
    ensures c in Comments(s.cells, copy) <==> exists j: nat, w: nat :: WroteLast(s.writes, copy, j, w, c)
  {
    hide LastPut, Logged;
    if c in Comments(s.cells, copy) {
      var j :| 0 <= j < copy.len && s.cells[Cell(copy.arr, j)] == c;
      var w := CellIsLastWrite(s, Cell(copy.arr, j));
      assert WroteLast(s.writes, copy, j, w, c);
    }
    forall j: nat, w: nat | WroteLast(s.writes, copy, j, w, c) ensures c in Comments(s.cells, copy) {
      LastWriteIsCell(s, Cell(copy.arr, j), w);
      assert Comments(s.cells, copy)[j] == c;
    }
  }

  lemma LastWriteIsCell(s: Sys, cell: Cell, w: nat)
    requires Logged(s) && LastPut(s.writes, w, cell)
    ensures cell in s.cells && s.cells[cell] == s.writes[w][cell]
  {
    ReplayedIsLastPut(s.writes, cell);
  }

  lemma CellIsLastWrite(s: Sys, cell: Cell) returns (w: nat)
    requires Logged(s) && cell in s.cells
    ensures LastPut(s.writes, w, cell) && s.writes[w][cell] == s.cells[cell]
  {
    ReplayedIsLastPut(s.writes, cell);
    var i: nat :| PutsAt(s.writes, i, cell);
    w := SomePutIsLast(s.writes, i, cell);
  }

  // ----- what a copy shows later -----

  lemma {:induction false} Prefix(acts: seq<Action>, n: nat)
    requires CanRun(acts) && n <= |acts|
    ensures CanRun(acts[..n]) && After(acts[..n]).lastId <= After(acts).lastId
    ensures After(acts[..n]).writes <= After(acts).writes && |After(acts[..n]).writes| == n
    decreases |acts|
  {
    hide Enabled, Next;
    LogLength(acts);
    if n == |acts| {
      assert acts[..n] == acts;
    } else {
      var front := acts[..|acts| - 1];
      Prefix(front, n);
      assert front[..n] == acts[..n];
      StepExtends(After(front), acts[|acts| - 1]);
      LogEffect(After(front), acts[|acts| - 1]);
    }
  }

  lemma LogLength(acts: seq<Action>)
    requires CanRun(acts)
    ensures |After(acts).writes| == |acts|
  {
    RunKeepsLogged(acts);
    hide CanRun, After;
  }

  /** From s to t, n steps into the run and later: the cell shows the same, unless a step
      in between wrote it, and then it shows a comment minted since. */
  ghost predicate CellKept(s: Sys, t: Sys, n: nat, cell: Cell) {
    && cell in s.cells && cell in t.cells
    && (if exists w: nat :: n <= w && PutsAt(t.writes, w, cell) then t.cells[cell].id > s.lastId else t.cells[cell] == s.cells[cell])
  }

  lemma {:induction false} CellSince(acts: seq<Action>, n: nat, cell: Cell)
    requires CanRun(acts) && n <= |acts| && CanRun(acts[..n]) && cell in After(acts[..n]).cells
    ensures CellKept(After(acts[..n]), After(acts), n, cell)
    decreases |acts|
  {
    hide Enabled, Next, Sound;
    LogLength(acts);
    if n == |acts| {
      assert acts[..n] == acts;
    } else {
      var front := acts[..|acts| - 1];
      assert front[..n] == acts[..n];
      CellSince(front, n, cell);
      Prefix(front, n);
      RunKeepsSound(front);
      LogLength(front);
      hide CanRun, After;
      CellStep(After(front), acts[|acts| - 1], cell);
      WrittenSince(After(front).writes, Writes(After(front), acts[|acts| - 1]), n, cell);
    }
  }

  lemma WrittenSince(log: Puts<Cell, Comment>, m: Cells, n: nat, cell: Cell)
    requires n <= |log|
    ensures (exists w: nat :: n <= w && PutsAt(log + [m], w, cell)) <==> cell in m || exists w: nat :: n <= w && PutsAt(log, w, cell)
  {
    var more := log + [m];
    assert forall w: nat :: w < |log| ==> (PutsAt(more, w, cell) <==> PutsAt(log, w, cell));
    assert PutsAt(more, |log|, cell) <==> cell in m;
  }

  lemma CellStep(s: Sys, a: Action, cell: Cell)
    requires Sound(s) && Enabled(s, a) && cell in s.cells
    ensures var t := Next(s, a);
      && cell in t.cells && t.writes == s.writes + [Writes(s, a)]
      && (if cell in Writes(s, a) then t.cells[cell].id > s.lastId else t.cells[cell] == s.cells[cell])
  {
    if cell in Writes(s, a) {
      WritesAreFresh(s, a, cell);
    }
    hide Writes, Capacities, Flown;
  }

  // ----- where a copy comes from -----

  /** The map held thread id n steps into the run. */
  ghost predicate HeldAt(acts: seq<Action>, n: nat, id: Id) {
    n <= |acts| && CanRun(acts[..n]) && id in After(acts[..n]).threads
  }

  /** Right after its edit a copy shows what the loaded one showed right before, and what
      the operation minted. */
  ghost predicate EditShows(acts: seq<Action>, f: Change) {
    && f.edited < |acts| && CanRun(acts[..f.edited]) && CanRun(acts[..f.edited + 1])
    && CopyOk(After(acts[..f.edited + 1]), f.copy)
    && var shown := Comments(After(acts[..f.edited + 1]).cells, f.copy);
       if f.op == OpCreate then shown == f.minted
       else CopyOk(After(acts[..f.edited]), f.from) && shown == Comments(After(acts[..f.edited]).cells, f.from) + f.minted
  }

  ghost predicate LoadedAt(acts: seq<Action>, at: nat, copy: Copy) {
    HeldAt(acts, at, copy.head.id) && copy == After(acts[..at]).threads[copy.head.id]
  }

  ghost predicate FlagsOk(op: Op, from: Copy, copy: Copy) {
    && (op == OpCreate ==> !copy.head.resolved)
    && (op == OpResolve ==> copy.head.resolved)
    && (op == OpReopen ==> !copy.head.resolved)
    && (op != OpCreate && op != OpResolve && op != OpReopen ==> copy.head.resolved == from.head.resolved)
  }

  ghost predicate ChangeOk(acts: seq<Action>, f: Change) {
    EditShows(acts, f) && FlagsOk(f.op, f.from, f.copy)
    && (f.op != OpCreate ==> f.at <= f.edited && LoadedAt(acts, f.at, f.from) && f.from.head.id == f.copy.head.id)
  }

  ghost predicate FlightOk(acts: seq<Action>, f: Flight) {
    match f
    case Loaded(_, ev, copy, at) => LoadedAt(acts, at, copy) && ev.op != OpCreate
    case Edited(change) => ChangeOk(acts, change)
  }

  ghost predicate PutOk(acts: seq<Action>, id: Id, f: Change) {
    f.copy.head.id == id && ChangeOk(acts, f)
  }

  ghost predicate FlightsTraced(acts: seq<Action>, s: Sys) {
    forall k :: k in s.flights ==> FlightOk(acts, s.flights[k])
  }

  ghost predicate PutsTraced(acts: seq<Action>, s: Sys) {
    forall i: nat, id :: PutsAt(s.puts, i, id) ==> PutOk(acts, id, s.puts[i][id])
  }

  lemma FlightStays(acts: seq<Action>, a: Action, f: Flight)
    requires FlightOk(acts, f)
    ensures FlightOk(acts + [a], f)
  {
    hide CanRun, After, CopyOk, FlagsOk;
    if f.Edited? {
      ChangeStays(acts, a, f.change);
    } else {
      assert (acts + [a])[..f.at] == acts[..f.at];
    }
  }

  lemma ChangeStays(acts: seq<Action>, a: Action, f: Change)
    requires ChangeOk(acts, f)
    ensures ChangeOk(acts + [a], f)
  {
    hide CanRun, After, CopyOk, FlagsOk;
    assert f.at <= |acts| ==> (acts + [a])[..f.at] == acts[..f.at];
    assert (acts + [a])[..f.edited] == acts[..f.edited] && (acts + [a])[..f.edited + 1] == acts[..f.edited + 1];
  }

  lemma LoadIsTraced(acts: seq<Action>, a: Action)
    requires CanRun(acts) && Sound(After(acts)) && |After(acts).puts| == |acts| && a.Load? && Enabled(After(acts), a)
    ensures FlightOk(acts + [a], Flown(After(acts), a))
  {
    hide CanRun, After, CopyOk, CellsOk, FlightsOk;
    assert (acts + [a])[..|acts|] == acts;
  }

  lemma EditFlags(s: Sys, a: Action)
    requires Enabled(s, a) && (a.BeginCreate? || a.EditCopy?)
    ensures Flown(s, a).Edited?
    ensures var f := Flown(s, a).change; FlagsOk(f.op, f.from, f.copy) && f.edited == |s.puts|
    ensures var f := Flown(s, a).change; a.EditCopy? ==>
      f.op == s.flights[a.k].ev.op && f.from == s.flights[a.k].copy && f.copy.head.id == f.from.head.id && f.at == s.flights[a.k].at
    ensures a.BeginCreate? ==> Flown(s, a).change.op == OpCreate
  {
  }

  lemma EditedShows(s: Sys, a: Action)
    requires Sound(s) && Enabled(s, a) && (a.BeginCreate? || a.EditCopy?)
    ensures Flown(s, a).Edited?
    ensures var f, t := Flown(s, a).change, Next(s, a);
      && CopyOk(t, f.copy)
      && (a.BeginCreate? ==> Comments(t.cells, f.copy) == f.minted)
      && (a.EditCopy? ==> CopyOk(s, f.from) && Comments(t.cells, f.copy) == Comments(s.cells, f.from) + f.minted)
  {
    FlownIsOk(s, a);
    if a.EditCopy? {
      var c := s.flights[a.k].copy;
      assert CopyOk(s, c);
      MintedIsFresh(s, a);
      hide Decide, Edit;
      AppendedShows(s, c, Flown(s, a).change.minted, Next(s, a).cells);
    } else {
      MintedIsFresh(s, a);
      hide Decide;
    }
  }

  lemma EditIsTraced(acts: seq<Action>, a: Action)
    requires CanRun(acts) && Sound(After(acts)) && |After(acts).puts| == |acts| && FlightsTraced(acts, After(acts))
    requires (a.BeginCreate? || a.EditCopy?) && Enabled(After(acts), a)
    ensures FlightOk(acts + [a], Flown(After(acts), a))
  {
    hide CanRun, After, Next, Flown, CopyOk, FlagsOk, Sound, Comments, FreshStamp, EditOf, Decide;
    var s, more := After(acts), acts + [a];
    Extend(acts, a);
    EditFlags(s, a);
    EditedShows(s, a);
    assert more[..|acts|] == acts && more[..|acts| + 1] == more;
    var f := Flown(s, a).change;
    assert EditShows(more, f);
    if a.EditCopy? {
      FlightStays(acts, a, s.flights[a.k]);
      assert FlightOk(acts, s.flights[a.k]);
    }
  }

  /** No step moves another flight than its own. */
  lemma FlightEffect(s: Sys, a: Action, k: nat)
    requires Enabled(s, a) && k in Next(s, a).flights
    ensures if k in s.flights && k != a.k then Next(s, a).flights[k] == s.flights[k]
      else k == a.k && (a.BeginCreate? || a.Load? || a.EditCopy?) && Next(s, a).flights[k] == Flown(s, a)
  {
    hide Writes, Capacities, PutBy, Flown;
  }

  lemma FlightsStayTraced(acts: seq<Action>, a: Action)
    requires CanRun(acts) && Sound(After(acts)) && |After(acts).puts| == |acts| && FlightsTraced(acts, After(acts))
    requires Enabled(After(acts), a)
    ensures FlightsTraced(acts + [a], Next(After(acts), a))
  {
    hide CanRun, After, Sound, FlightOk, Enabled, Next, Flown;
    var s, t := After(acts), Next(After(acts), a);
    forall k | k in t.flights ensures FlightOk(acts + [a], t.flights[k]) {
      FlightEffect(s, a, k);
      if k in s.flights && k != a.k {
        FlightStays(acts, a, s.flights[k]);
      } else if a.Load? {
        LoadIsTraced(acts, a);
      } else {
        EditIsTraced(acts, a);
      }
    }
  }

  lemma PutsStayTraced(acts: seq<Action>, a: Action)
    requires CanRun(acts) && FlightsTraced(acts, After(acts)) && PutsTraced(acts, After(acts)) && Enabled(After(acts), a)
    ensures PutsTraced(acts + [a], Next(After(acts), a))
  {
    hide CanRun, After, ChangeOk, Flown, Writes, Capacities;
    var s := After(acts);
    var t := Next(s, a);
    forall i: nat, id | PutsAt(t.puts, i, id) ensures PutOk(acts + [a], id, t.puts[i][id]) {
      if i < |s.puts| {
        assert PutsAt(s.puts, i, id);
        ChangeStays(acts, a, s.puts[i][id]);
      } else {
        assert FlightOk(acts, s.flights[a.k]);
        ChangeStays(acts, a, s.flights[a.k].change);
      }
    }
  }

  lemma {:induction false} RunIsTraced(acts: seq<Action>)
    requires CanRun(acts)
    ensures FlightsTraced(acts, After(acts)) && PutsTraced(acts, After(acts))
    decreases |acts|
  {
    hide Enabled, Next, Sound, Logged, FlightsTraced, PutsTraced;
    if acts == [] {
      StartIsTraced();
    } else {
      var front, a := acts[..|acts| - 1], acts[|acts| - 1];
      RunIsTraced(front);
      RunKeepsSound(front);
      RunKeepsLogged(front);
      FlightsStayTraced(front, a);
      PutsStayTraced(front, a);
      assert front + [a] == acts;
    }
  }

  lemma StartIsTraced()
    ensures FlightsTraced([], INIT) && PutsTraced([], INIT)
  {
  }

  // ----- when a put shows what its operation meant it to -----

  /** No step from lo up to hi writes a cell of the copy. */
  ghost predicate Unwritten(writes: Puts<Cell, Comment>, lo: nat, hi: nat, copy: Copy) {
    forall w: nat, j: nat :: lo <= w < hi && j < copy.len ==> !PutsAt(writes, w, Cell(copy.arr, j))
  }

  ghost predicate Newer(a: seq<Comment>, b: seq<Comment>, j: nat) {
    j < |a| && j < |b| && a[j].id < b[j].id
  }

  ghost predicate NoOlder(a: seq<Comment>, b: seq<Comment>) {
    |a| == |b| && forall j: nat :: j < |a| ==> a[j].id <= b[j].id
  }

  /** What a copy shows since then: the same, if none of its cells was written, and else
      a newer comment somewhere; nowhere an older one. */
  lemma CopySince(acts: seq<Action>, n: nat, c: Copy)
    requires CanRun(acts) && n <= |acts| && CanRun(acts[..n]) && CopyOk(After(acts[..n]), c)
    ensures CopyOk(After(acts), c)
    ensures var a, b := Comments(After(acts[..n]).cells, c), Comments(After(acts).cells, c);
      && NoOlder(a, b)
      && (Unwritten(After(acts).writes, n, |acts|, c) ==> a == b)
      && (!Unwritten(After(acts).writes, n, |acts|, c) ==> exists j: nat :: Newer(a, b, j))
  {
    RunKeepsSound(acts[..n]);
    LogLength(acts);
    ArraysStay(acts, n);
    hide CanRun, After, CellKept, Extends, Unwritten, ThreadsOk, FlightsOk, NoOlder;
    var s, t := After(acts[..n]), After(acts);
    forall j: nat | j < c.len ensures CellKept(s, t, n, Cell(c.arr, j)) {
      CellSince(acts, n, Cell(c.arr, j));
    }
    ShownSince(s, t, n, c);
  }

  lemma {:induction false} ArraysStay(acts: seq<Action>, n: nat)
    requires CanRun(acts) && n <= |acts| && CanRun(acts[..n])
    ensures Extends(After(acts[..n]), After(acts))
    decreases |acts|
  {
    hide Enabled, Next;
    if n == |acts| {
      assert acts[..n] == acts;
    } else {
      var front := acts[..|acts| - 1];
      assert front[..n] == acts[..n];
      ArraysStay(front, n);
      StepExtends(After(front), acts[|acts| - 1]);
    }
  }

  lemma ShownSince(s: Sys, t: Sys, n: nat, c: Copy)
    requires CopyOk(s, c) && Extends(s, t) && CellsOk(s)
    requires forall j: nat :: j < c.len ==> CellKept(s, t, n, Cell(c.arr, j))
    ensures CopyOk(t, c)
    ensures var a, b := Comments(s.cells, c), Comments(t.cells, c);
      && NoOlder(a, b)
      && (Unwritten(t.writes, n, |t.writes|, c) ==> a == b)
      && (!Unwritten(t.writes, n, |t.writes|, c) ==> exists j: nat :: Newer(a, b, j))
  {
    var a, b := Comments(s.cells, c), Comments(t.cells, c);
    assert forall j: nat :: j < c.len ==> s.cells[Cell(c.arr, j)].id <= s.lastId;
    if Unwritten(t.writes, n, |t.writes|, c) {
      forall j: nat | j < c.len ensures a[j] == b[j] {
        assert forall w: nat :: n <= w ==> !PutsAt(t.writes, w, Cell(c.arr, j));
      }
    } else {
      var w: nat, j: nat :| n <= w < |t.writes| && j < c.len && PutsAt(t.writes, w, Cell(c.arr, j));
      assert Newer(a, b, j);
    }
  }

  /** A copy shows a when it is loaded, b right before its edit, and f at the end: f is a
      and what was minted exactly when nothing was written in between. */
  lemma ShownThrough(a: seq<Comment>, b: seq<Comment>, minted: seq<Comment>, f: seq<Comment>, same1: bool, same2: bool)
    requires NoOlder(a, b) && NoOlder(b + minted, f)
    requires same1 ==> a == b
    requires !same1 ==> exists j: nat :: Newer(a, b, j)
    requires same2 ==> b + minted == f
    requires !same2 ==> exists j: nat :: Newer(b + minted, f, j)
    ensures f == a + minted <==> same1 && same2
  {
    if !same1 {
      var j: nat :| Newer(a, b, j);
      assert (b + minted)[j] == b[j];
      assert (a + minted)[j] == a[j] && a[j].id < f[j].id;
    } else if !same2 {
      var j: nat :| Newer(b + minted, f, j);
      assert (b + minted)[j].id < f[j].id;
    }
  }

  /** The comments of thread id as it was stored n steps into the run. */
  ghost function CommentsAt(acts: seq<Action>, n: nat, id: Id): seq<Comment>
    requires HeldAt(acts, n, id)
  {
    var s := After(acts[..n]);
    RunKeepsSound(acts[..n]);
    Comments(s.cells, s.threads[id])
  }

  lemma LastChange(acts: seq<Action>, i: nat, id: Id) returns (f: Change)
    requires CanRun(acts) && LastPut(After(acts).puts, i, id)
    ensures f == After(acts).puts[i][id] && id in After(acts).threads && After(acts).threads[id] == f.copy
    ensures f.copy.head.id == id && ChangeOk(acts, f)
  {
    hide CanRun, After, EditShows;
    f := After(acts).puts[i][id];
    MapIsLastPut(acts, id);
    RunIsTraced(acts);
    assert PutOk(acts, id, f);
  }

  lemma ChangeShowsIff(acts: seq<Action>, f: Change)
    requires CanRun(acts) && ChangeOk(acts, f) && f.op != OpCreate
    ensures CopyOk(After(acts), f.copy) && CopyOk(After(acts[..f.at]), f.from)
    ensures
      Comments(After(acts).cells, f.copy) == Comments(After(acts[..f.at]).cells, f.from) + f.minted <==>
        Unwritten(After(acts).writes, f.at, f.edited, f.from) && Unwritten(After(acts).writes, f.edited + 1, |acts|, f.copy)
  {
    hide CanRun, After, Whole, FlagsOk, Unwritten, NoOlder, Newer, CellsOk, FlightsOk;
    var early := acts[..f.edited];
    assert early[..f.at] == acts[..f.at];
    RunKeepsSound(acts[..f.at]);
    assert CopyOk(After(acts[..f.at]), f.from);
    CopySince(early, f.at, f.from);
    CopySince(acts, f.edited + 1, f.copy);
    Prefix(acts, f.edited);
    var writes := After(acts).writes;
    UnwrittenPrefix(After(early).writes, writes, f.at, f.edited, f.from);
    ShownThrough(Comments(After(acts[..f.at]).cells, f.from), Comments(After(early).cells, f.from), f.minted,
                 Comments(After(acts).cells, f.copy), Unwritten(writes, f.at, f.edited, f.from), Unwritten(writes, f.edited + 1, |acts|, f.copy));
  }

  /** After every run a thread shows the comments its last put loaded and the one it
      minted exactly when no append was made to a cell of the loaded slice before its
      edit, nor to a cell of its own slice after it. */
  lemma PutShowsIff(acts: seq<Action>, i: nat, id: Id)
    requires CanRun(acts) && LastPut(After(acts).puts, i, id) && After(acts).puts[i][id].op != OpCreate
    ensures HeldAt(acts, |acts|, id) && HeldAt(acts, After(acts).puts[i][id].at, id)
    ensures var s, f := After(acts), After(acts).puts[i][id];
      CommentsAt(acts, |acts|, id) == CommentsAt(acts, f.at, id) + f.minted <==>
        Unwritten(s.writes, f.at, f.edited, f.from) && Unwritten(s.writes, f.edited + 1, |acts|, f.copy)
  {
    hide CanRun, After, Whole, FlagsOk, Unwritten, EditShows, CellsOk, FlightsOk, ThreadsOk;
    var f := LastChange(acts, i, id);
    hide LastPut;
    assert acts[..|acts|] == acts;
    ChangeShowsIff(acts, f);
  }

  lemma UnwrittenPrefix(a: Puts<Cell, Comment>, b: Puts<Cell, Comment>, lo: nat, hi: nat, copy: Copy)
    requires a <= b && |a| == hi
    ensures Unwritten(a, lo, hi, copy) <==> Unwritten(b, lo, hi, copy)
  {
    assert forall w: nat, j: nat :: w < hi ==> (PutsAt(a, w, Cell(copy.arr, j)) <==> PutsAt(b, w, Cell(copy.arr, j)));
  }

  // ----- runs in which no append lands on another -----

  /** The reply appends to a slice that has room, where another append was before it. */
  predicate Overwrites(s: Sys, a: Action)
    requires Enabled(s, a)
  {
    a.EditCopy? && EditOf(s.flights[a.k], a.stamp).thread.comments != [] &&
    var c := s.flights[a.k].copy;
    HasRoom(s.caps, c) && Cell(c.arr, c.len) in s.cells
  }

  lemma OverwritesIff(s: Sys, a: Action)
    requires CellsOk(s) && Enabled(s, a)
    ensures Overwrites(s, a) <==> exists cell :: cell in Writes(s, a) && cell in s.cells
  {
    hide EditOf, Decide;
    if Overwrites(s, a) {
      var c := s.flights[a.k].copy;
      assert Cell(c.arr, c.len) in Writes(s, a);
    }
  }

  ghost predicate OverwritesAt(acts: seq<Action>, n: nat) {
    n < |acts| && CanRun(acts[..n]) && Enabled(After(acts[..n]), acts[n]) && Overwrites(After(acts[..n]), acts[n])
  }

  lemma StepAt(acts: seq<Action>, w: nat)
    requires CanRun(acts) && w < |acts|
    ensures CanRun(acts[..w]) && Enabled(After(acts[..w]), acts[w]) && w < |After(acts).writes|
    ensures After(acts).writes[w] == Writes(After(acts[..w]), acts[w])
  {
    hide Enabled, Next, Writes;
    Prefix(acts, w);
    Prefix(acts, w + 1);
    var upTo := acts[..w + 1];
    assert upTo[..w] == acts[..w];
    LogEffect(After(acts[..w]), acts[w]);
  }

  lemma NothingOverwritten(acts: seq<Action>, lo: nat, hi: nat, c: Copy)
    requires CanRun(acts) && lo <= hi <= |acts| && CanRun(acts[..lo]) && CopyOk(After(acts[..lo]), c)
    requires forall n: nat :: !OverwritesAt(acts, n)
    ensures Unwritten(After(acts).writes, lo, hi, c)
  {
    hide CanRun, After, Enabled, Writes, Overwrites;
    forall w: nat, j: nat | lo <= w < hi && j < c.len ensures !PutsAt(After(acts).writes, w, Cell(c.arr, j)) {
      StepAt(acts, w);
      assert acts[..w][..lo] == acts[..lo];
      ArraysStay(acts[..w], lo);
      RunKeepsSound(acts[..w]);
      OverwritesIff(After(acts[..w]), acts[w]);
      assert Cell(c.arr, j) in After(acts[..lo]).cells;
      assert !OverwritesAt(acts, w);
    }
  }

  lemma ChangeIsShown(acts: seq<Action>, f: Change)
    requires CanRun(acts) && ChangeOk(acts, f) && forall n: nat :: !OverwritesAt(acts, n)
    ensures CopyOk(After(acts), f.copy)
    ensures f.op == OpCreate ==> Comments(After(acts).cells, f.copy) == f.minted
    ensures f.op != OpCreate ==> CopyOk(After(acts[..f.at]), f.from)
    ensures f.op != OpCreate ==> Comments(After(acts).cells, f.copy) == Comments(After(acts[..f.at]).cells, f.from) + f.minted
  {
    hide CanRun, After, Whole, FlagsOk, Unwritten, OverwritesAt, CellsOk, FlightsOk, NoOlder, Newer;
    NothingOverwritten(acts, f.edited + 1, |acts|, f.copy);
    if f.op == OpCreate {
      CopySince(acts, f.edited + 1, f.copy);
    } else {
      RunKeepsSound(acts[..f.at]);
      assert CopyOk(After(acts[..f.at]), f.from);
      NothingOverwritten(acts, f.at, f.edited, f.from);
      ChangeShowsIff(acts, f);
    }
  }

  /** Along a run in which no append lands on another one, a comment is in the map exactly
      when the last operation to put its thread minted it or had loaded it. */
  lemma UnsharedCommentSurvivesIff(acts: seq<Action>, i: nat, id: Id, c: Comment)
    requires CanRun(acts) && LastPut(After(acts).puts, i, id) && forall n: nat :: !OverwritesAt(acts, n)
    ensures HeldAt(acts, |acts|, id)
    ensures var f := After(acts).puts[i][id];
      && (f.op != OpCreate ==> HeldAt(acts, f.at, id))
      && (c in CommentsAt(acts, |acts|, id) <==> c in f.minted || (f.op != OpCreate && c in CommentsAt(acts, f.at, id)))
  {
    hide CanRun, After, Whole, FlagsOk, EditShows, CellsOk, FlightsOk, OverwritesAt;
    var f := LastChange(acts, i, id);
    hide LastPut;
    assert acts[..|acts|] == acts;
    ChangeIsShown(acts, f);
  }

  /** The resolved flag, along every run: it is what the last put sets, or else what its
      load found. */
  lemma ResolvedIff(acts: seq<Action>, i: nat, id: Id)
    requires CanRun(acts) && LastPut(After(acts).puts, i, id)
    ensures id in After(acts).threads
    ensures var f := After(acts).puts[i][id];
      After(acts).threads[id].head.resolved <==>
        f.op == OpResolve ||
        (f.op != OpReopen && f.op != OpCreate && HeldAt(acts, f.at, id) && After(acts[..f.at]).threads[id].head.resolved)
  {
    hide CanRun, After, EditShows;
    var f := LastChange(acts, i, id);
  }

  // ----- runs that lose a reply -----

  /** Nothing is in flight, and thread id of the tenant is stored with this slice. */
  ghost predicate Idle(s: Sys, id: Id, org: string, arr: nat, len: nat) {
    && s.flights == map[] && id in s.threads && arr < |s.caps|
    && s.threads[id].head.id == id && s.threads[id].head.orgId == org && s.threads[id].head.comments == []
    && s.threads[id].arr == arr && s.threads[id].len == len
  }

  lemma LoadEffect(s: Sys, k: nat, p: Principal, e: Event, id: Id, org: string)
    requires k !in s.flights && id in s.threads && s.threads[id].head.orgId == org && id != NO_ID
    requires p.sub != "" && TenantKey(p) == org && IsReply(e, id)
    ensures var a := Load(k, p, e);
      && Enabled(s, a)
      && Next(s, a) == s.(flights := s.flights[k := Loaded(p, e, s.threads[id], |s.puts|)], puts := s.puts + [map[]], writes := s.writes + [map[]])
  {
    assert s.cells + map[] == s.cells;
  }

  /** The arrays before the n-th hold the same. */
  ghost predicate SameBelow(a: Cells, b: Cells, n: nat) {
    forall cell :: cell in a && cell.arr < n ==> cell in b && b[cell] == a[cell]
  }

  /** A reply appends where there is room, and else to a new array. */
  lemma ReplyEffect(s: Sys, k: nat, stamp: Stamp, cap: nat, id: Id)
    requires k in s.flights && s.flights[k].Loaded? && FreshStamp(s, stamp) && id != NO_ID && IsReply(s.flights[k].ev, id)
    requires var c := s.flights[k].copy; c.head.comments == [] && c.head.id == id && c.len < cap && c.arr < |s.caps|
    ensures var a := EditCopy(k, stamp, cap); var f := s.flights[k]; var c := f.copy;
      var reply := ReplyOf(f.p, f.ev, stamp, id);
      && Enabled(s, a) && Next(s, a).threads == s.threads && Next(s, a).lastId == stamp.commentId
      && Next(s, a).flights.Keys == s.flights.Keys && (forall d :: d in s.flights && d != k ==> Next(s, a).flights[d] == s.flights[d])
      && Next(s, a).flights[k].Edited? && Next(s, a).flights[k].change.minted == [reply]
      && Next(s, a).flights[k].change.copy == Copy(c.head, if HasRoom(s.caps, c) then c.arr else |s.caps|, c.len + 1)
      && Next(s, a).caps == (if HasRoom(s.caps, c) then s.caps else s.caps + [cap])
      && (HasRoom(s.caps, c) ==> Next(s, a).cells == s.cells[Cell(c.arr, c.len) := reply])
      && (!HasRoom(s.caps, c) ==> SameBelow(s.cells, Next(s, a).cells, |s.caps|))
  {
    hide EditOf, ReplyOf, Moved;
    ReplyEdit(s.flights[k], stamp, id);
    var a := EditCopy(k, stamp, cap);
    assert Enabled(s, a);
    ReplyCells(s, a, ReplyOf(s.flights[k].p, s.flights[k].ev, stamp, id));
    hide Writes;
  }

  lemma ReplyEdit(f: Flight, stamp: Stamp, id: Id)
    requires f.Loaded? && id != NO_ID && IsReply(f.ev, id) && f.copy.head.comments == [] && f.copy.head.id == id
    ensures Target(f.ev).Some? && EditOf(f, stamp).Accept?
    ensures EditOf(f, stamp).thread == f.copy.head.(comments := [ReplyOf(f.p, f.ev, stamp, id)])
    ensures EditOf(f, stamp).thread.(comments := []) == f.copy.head
  {
    assert [] + [ReplyOf(f.p, f.ev, stamp, id)] == [ReplyOf(f.p, f.ev, stamp, id)];
  }

  lemma ReplyCells(s: Sys, a: Action, reply: Comment)
    requires Enabled(s, a) && a.EditCopy? && EditOf(s.flights[a.k], a.stamp).thread.comments == [reply]
    ensures var c := s.flights[a.k].copy;
      && (HasRoom(s.caps, c) ==> s.cells + Writes(s, a) == s.cells[Cell(c.arr, c.len) := reply])
      && (!HasRoom(s.caps, c) ==> SameBelow(s.cells, s.cells + Writes(s, a), |s.caps|))
  {
    hide EditOf;
  }

  lemma CommitEffect(s: Sys, k: nat)
    requires k in s.flights && s.flights[k].Edited?
    ensures var a := Commit(k); var f := s.flights[k].change;
      && Enabled(s, a) && Next(s, a).threads == s.threads[f.copy.head.id := f.copy] && Next(s, a).flights == s.flights - {k}
      && Next(s, a).cells == s.cells && Next(s, a).caps == s.caps && Next(s, a).lastId == s.lastId
  {
    assert s.cells + map[] == s.cells;
  }

  /** A thread is created and put. */
  lemma CreateRun(p: Principal, ev: Event, stamp: Stamp)
    requires ev.op == OpCreate && Decide(map[], p, ev, stamp).Accept? && 0 < stamp.threadId < stamp.commentId
    ensures var acts := [BeginCreate(0, p, ev, stamp), Commit(0)];
      && CanRun(acts) && Idle(After(acts), stamp.threadId, TenantKey(p), 0, 1)
      && After(acts).lastId == stamp.commentId && After(acts).caps == [1]
  {
    hide CanRun, After;
    var create := BeginCreate(0, p, ev, stamp);
    EmptyRun();
    Extend([], create);
    assert [] + [create] == [create];
    var s := After([create]);
    assert s.flights.Keys == {0} && s.caps == [1];
    CommitEffect(s, 0);
    Extend([create], Commit(0));
    assert [create] + [Commit(0)] == [create, Commit(0)];
  }

  function ReplySteps(k: nat, p: Principal, e: Event, stamp: Stamp, cap: nat): seq<Action> {
    [Load(k, p, e), EditCopy(k, stamp, cap), Commit(k)]
  }

  /** One reply on its own, to a slice that fills its array. */
  lemma ReplyRun(acts: seq<Action>, id: Id, arr: nat, len: nat, p: Principal, e: Event, stamp: Stamp, cap: nat)
    requires CanRun(acts) && Idle(After(acts), id, TenantKey(p), arr, len) && id != NO_ID && p.sub != "" && IsReply(e, id)
    requires After(acts).caps[arr] == len < cap && FreshStamp(After(acts), stamp)
    ensures var more := acts + ReplySteps(1, p, e, stamp, cap);
      && CanRun(more) && Idle(After(more), id, TenantKey(p), |After(acts).caps|, len + 1)
      && After(more).caps == After(acts).caps + [cap] && After(more).lastId == stamp.commentId
  {
    hide CanRun, After, Enabled, Next;
    var s := After(acts);
    LoadEffect(s, 1, p, e, id, TenantKey(p));
    Extend(acts, Load(1, p, e));
    var a1 := acts + [Load(1, p, e)];
    ReplyEffect(After(a1), 1, stamp, cap, id);
    Extend(a1, EditCopy(1, stamp, cap));
    var a2 := a1 + [EditCopy(1, stamp, cap)];
    CommitEffect(After(a2), 1);
    Extend(a2, Commit(1));
    assert a2 + [Commit(1)] == acts + ReplySteps(1, p, e, stamp, cap);
  }

  lemma BothLoaded(acts: seq<Action>, id: Id, arr: nat, len: nat, p: Principal, e1: Event, q: Principal, e2: Event)
    requires CanRun(acts) && Idle(After(acts), id, TenantKey(p), arr, len) && id != NO_ID
    requires p.sub != "" && q.sub != "" && TenantKey(p) == TenantKey(q) && IsReply(e1, id) && IsReply(e2, id)
    ensures var more := acts + [Load(1, p, e1), Load(2, q, e2)];
      CanRun(more) &&
      var s, t := After(acts), After(more);
      && t.cells == s.cells && t.caps == s.caps && t.threads == s.threads && t.lastId == s.lastId && t.flights.Keys == {1, 2}
      && t.flights[1] == Loaded(p, e1, s.threads[id], |s.puts|) && t.flights[2] == Loaded(q, e2, s.threads[id], |s.puts| + 1)
  {
    hide CanRun, After, Enabled, Next;
    LoadEffect(After(acts), 1, p, e1, id, TenantKey(p));
    Extend(acts, Load(1, p, e1));
    var a1 := acts + [Load(1, p, e1)];
    LoadEffect(After(a1), 2, q, e2, id, TenantKey(p));
    Extend(a1, Load(2, q, e2));
    assert a1 + [Load(2, q, e2)] == acts + [Load(1, p, e1), Load(2, q, e2)];
  }

  function BothLoadFirst(p: Principal, e1: Event, st1: Stamp, q: Principal, e2: Event, st2: Stamp, cap: nat): seq<Action> {
    [Load(1, p, e1), Load(2, q, e2), EditCopy(1, st1, cap), EditCopy(2, st2, cap)]
  }

  ghost predicate TwoReplies(s: Sys, id: Id, p: Principal, e1: Event, st1: Stamp, q: Principal, e2: Event, st2: Stamp) {
    && id != NO_ID && p.sub != "" && q.sub != "" && TenantKey(p) == TenantKey(q) && IsReply(e1, id) && IsReply(e2, id)
    && s.lastId < st1.threadId < st1.commentId < st2.threadId < st2.commentId
  }

  /** Two members load, then both append: into the same cell if the array has room. */
  lemma BothAppend(acts: seq<Action>, id: Id, arr: nat, len: nat, p: Principal, e1: Event, st1: Stamp, q: Principal, e2: Event, st2: Stamp, cap: nat)
    requires CanRun(acts) && Idle(After(acts), id, TenantKey(p), arr, len) && len < cap
    requires TwoReplies(After(acts), id, p, e1, st1, q, e2, st2) && HasRoom(After(acts).caps, After(acts).threads[id])
    ensures var more := acts + BothLoadFirst(p, e1, st1, q, e2, st2, cap);
      CanRun(more) &&
      var s, t := After(acts), After(more);
      && t.threads == s.threads && t.flights.Keys == {1, 2} && t.flights[1].Edited? && t.flights[2].Edited?
      && t.flights[1].change.minted == [ReplyOf(p, e1, st1, id)]
      && t.flights[1].change.copy == t.flights[2].change.copy == Copy(s.threads[id].head, arr, len + 1)
      && t.cells == s.cells[Cell(arr, len) := ReplyOf(q, e2, st2, id)]
  {
    hide CanRun, After, Enabled, Next, ReplyOf, SameBelow;
    BothLoaded(acts, id, arr, len, p, e1, q, e2);
    var a2 := acts + [Load(1, p, e1), Load(2, q, e2)];
    ReplyEffect(After(a2), 1, st1, cap, id);
    Extend(a2, EditCopy(1, st1, cap));
    var a3 := a2 + [EditCopy(1, st1, cap)];
    ReplyEffect(After(a3), 2, st2, cap, id);
    Extend(a3, EditCopy(2, st2, cap));
    assert a3 + [EditCopy(2, st2, cap)] == acts + BothLoadFirst(p, e1, st1, q, e2, st2, cap);
  }

  lemma ShowsOnlyTheOther(s: Sys, t: Sys, id: Id, r1: Comment, r2: Comment, arr: nat, len: nat)
    requires Sound(s) && id in s.threads && s.threads[id].arr == arr && s.threads[id].len == len
    requires id in t.threads && t.threads[id].arr == arr && t.threads[id].len == len + 1
    requires t.cells == s.cells[Cell(arr, len) := r2] && s.lastId < r1.id < r2.id
    ensures Whole(t.cells, t.threads[id])
    ensures r1 !in Comments(t.cells, t.threads[id]) && r2 in Comments(t.cells, t.threads[id])
  {
    assert CopyOk(s, s.threads[id]);
    assert Comments(t.cells, t.threads[id])[len] == r2;
    forall j | 0 <= j < len ensures Cell(arr, j) in s.cells && s.cells[Cell(arr, j)].id <= s.lastId {
    }
  }

  /** The last step of a run that commits a flight is the last put of its thread. */
  lemma CommitIsLastPut(acts: seq<Action>, k: nat)
    requires CanRun(acts) && k in After(acts).flights && After(acts).flights[k].Edited?
    ensures var more := acts + [Commit(k)]; var f := After(acts).flights[k].change;
      && CanRun(more) && LastPut(After(more).puts, |acts|, f.copy.head.id) && After(more).puts[|acts|][f.copy.head.id] == f
      && After(more).threads == After(acts).threads[f.copy.head.id := f.copy] && After(more).cells == After(acts).cells
      && After(more).flights == After(acts).flights - {k} && After(more).lastId == After(acts).lastId && After(more).caps == After(acts).caps
  {
    hide CanRun, After, Logged;
    RunKeepsLogged(acts);
    Extend(acts, Commit(k));
    CommitEffect(After(acts), k);
    LogEffect(After(acts), Commit(k));
    hide Next, Writes, PutBy;
  }

  /** Two members of the tenant reply at the same time to a thread whose array has room:
      the reply put last is gone, and the other one stands in its place. */
  lemma LastPutLosesItsReply(acts: seq<Action>, id: Id, arr: nat, len: nat, p: Principal, e1: Event, st1: Stamp, q: Principal, e2: Event, st2: Stamp, cap: nat)
    requires CanRun(acts) && Idle(After(acts), id, TenantKey(p), arr, len) && len < cap
    requires TwoReplies(After(acts), id, p, e1, st1, q, e2, st2) && HasRoom(After(acts).caps, After(acts).threads[id])
    ensures var more := acts + BothLoadFirst(p, e1, st1, q, e2, st2, cap) + [Commit(2), Commit(1)];
      CanRun(more) &&
      var t := After(more);
      var n: nat := |acts| + 5;
      && LastPut(t.puts, n, id) && t.puts[n][id].minted == [ReplyOf(p, e1, st1, id)]
      && id in t.threads && Whole(t.cells, t.threads[id])
      && ReplyOf(p, e1, st1, id) !in Comments(t.cells, t.threads[id])
      && ReplyOf(q, e2, st2, id) in Comments(t.cells, t.threads[id])
  {
    hide CanRun, After, LastPut, Sound;
    RunKeepsSound(acts);
    BothAppend(acts, id, arr, len, p, e1, st1, q, e2, st2, cap);
    var a4 := acts + BothLoadFirst(p, e1, st1, q, e2, st2, cap);
    CommitIsLastPut(a4, 2);
    CommitIsLastPut(a4 + [Commit(2)], 1);
    assert a4 + [Commit(2)] + [Commit(1)] == a4 + [Commit(2), Commit(1)];
    ShowsOnlyTheOther(After(acts), After(a4 + [Commit(2), Commit(1)]), id, ReplyOf(p, e1, st1, id), ReplyOf(q, e2, st2, id), arr, len);
  }

  function ThreeComments(p0: Principal, ev0: Event, st0: Stamp, p: Principal, e1: Event, st1: Stamp, q: Principal, e2: Event, st2: Stamp): seq<Action> {
    [BeginCreate(0, p0, ev0, st0), Commit(0)] + ReplySteps(1, p, e1, st1, 2) + ReplySteps(1, q, e2, st2, 4)
  }

  /** Such a thread is what a create and two replies, one after the other, leave when the
      array doubles each time it is full: three comments and room for one more. */
  lemma RoomAfterTwoReplies(p0: Principal, ev0: Event, st0: Stamp, p: Principal, e1: Event, st1: Stamp, q: Principal, e2: Event, st2: Stamp)
    requires ev0.op == OpCreate && Decide(map[], p0, ev0, st0).Accept? && 0 < st0.threadId < st0.commentId
    requires p.sub != "" && q.sub != "" && TenantKey(p) == TenantKey(p0) == TenantKey(q)
    requires IsReply(e1, st0.threadId) && IsReply(e2, st0.threadId)
    requires st0.commentId < st1.threadId < st1.commentId < st2.threadId < st2.commentId
    ensures var acts := ThreeComments(p0, ev0, st0, p, e1, st1, q, e2, st2);
      && CanRun(acts) && Idle(After(acts), st0.threadId, TenantKey(p0), 2, 3) && After(acts).lastId == st2.commentId
      && HasRoom(After(acts).caps, After(acts).threads[st0.threadId])
  {
    hide CanRun, After, Decide;
    CreateRun(p0, ev0, st0);
    var a2 := [BeginCreate(0, p0, ev0, st0), Commit(0)];
    ReplyRun(a2, st0.threadId, 0, 1, p, e1, st1, 2);
    var a5 := a2 + ReplySteps(1, p, e1, st1, 2);
    ReplyRun(a5, st0.threadId, 1, 2, q, e2, st2, 4);
  }

  /** From the empty store, for any members of one tenant: a create, two replies one after
      the other, and then two at the same time. */
  lemma LastPutLosesItsReplyFromTheStart(
      p0: Principal, ev0: Event, st0: Stamp, p: Principal, e1: Event, st1: Stamp, q: Principal, e2: Event, st2: Stamp,
      e3: Event, st3: Stamp, e4: Event, st4: Stamp)
    requires ev0.op == OpCreate && Decide(map[], p0, ev0, st0).Accept?
    requires p.sub != "" && q.sub != "" && TenantKey(p) == TenantKey(p0) == TenantKey(q)
    requires IsReply(e1, st0.threadId) && IsReply(e2, st0.threadId) && IsReply(e3, st0.threadId) && IsReply(e4, st0.threadId)
    requires 0 < st0.threadId < st0.commentId < st1.threadId < st1.commentId < st2.threadId < st2.commentId
    requires st2.commentId < st3.threadId < st3.commentId < st4.threadId < st4.commentId
    ensures var id := st0.threadId;
      var acts := ThreeComments(p0, ev0, st0, p, e1, st1, q, e2, st2) + BothLoadFirst(p, e3, st3, q, e4, st4, 4) + [Commit(2), Commit(1)];
      CanRun(acts) &&
      var t := After(acts);
      && LastPut(t.puts, 13, id) && t.puts[13][id].minted == [ReplyOf(p, e3, st3, id)]
      && id in t.threads && Whole(t.cells, t.threads[id])
      && ReplyOf(p, e3, st3, id) !in Comments(t.cells, t.threads[id]) && ReplyOf(q, e4, st4, id) in Comments(t.cells, t.threads[id])
  {
    hide CanRun, After, Decide, LastPut;
    RoomAfterTwoReplies(p0, ev0, st0, p, e1, st1, q, e2, st2);
    LastPutLosesItsReply(ThreeComments(p0, ev0, st0, p, e1, st1, q, e2, st2), st0.threadId, 2, 3, p, e3, st3, q, e4, st4, 4);
  }

  lemma SameBelowShows(a: Cells, b: Cells, n: nat, c: Copy)
    requires SameBelow(a, b, n) && c.arr < n && Whole(a, c)
    ensures Whole(b, c) && Comments(b, c) == Comments(a, c)
  {
  }

  /** In t the copy d shows what c shows in s, and one comment more. */
  ghost predicate Grown(s: Cells, t: Cells, c: Copy, d: Copy, more: Comment) {
    Whole(s, c) && Whole(t, d) && Comments(t, d) == Comments(s, c) + [more]
  }

  /** From s to t flight k appends reply to an array of its own. */
  ghost predicate GrewOwn(s: Sys, t: Sys, k: nat, cap: nat, reply: Comment) {
    && k in s.flights && s.flights[k].Loaded? && t.flights.Keys == s.flights.Keys && t.flights[k].Edited?
    && (forall d :: d in s.flights && d != k ==> t.flights[d] == s.flights[d])
    && t.caps == s.caps + [cap] && SameBelow(s.cells, t.cells, |s.caps|)
    && t.flights[k].change.copy == Copy(s.flights[k].copy.head, |s.caps|, s.flights[k].copy.len + 1)
    && Grown(s.cells, t.cells, s.flights[k].copy, t.flights[k].change.copy, reply)
  }

  lemma GrowsItsOwn(acts: seq<Action>, k: nat, stamp: Stamp, cap: nat, id: Id)
    requires CanRun(acts) && FreshStamp(After(acts), stamp) && id != NO_ID
    requires k in After(acts).flights && After(acts).flights[k].Loaded? && IsReply(After(acts).flights[k].ev, id)
    requires var c := After(acts).flights[k].copy; c.head.id == id && c.len < cap && !HasRoom(After(acts).caps, c)
    ensures var a, f := EditCopy(k, stamp, cap), After(acts).flights[k];
      && CanRun(acts + [a]) && After(acts + [a]).lastId == stamp.commentId
      && GrewOwn(After(acts), After(acts + [a]), k, cap, ReplyOf(f.p, f.ev, stamp, id))
  {
    hide CanRun, After, ReplyOf;
    RunKeepsSound(acts);
    var s, a := After(acts), EditCopy(k, stamp, cap);
    assert CopyOk(s, s.flights[k].copy);
    ReplyEffect(s, k, stamp, cap, id);
    Extend(acts, a);
    EditedShows(s, a);
    hide Writes, Capacities, Sound, SameBelow, Edit;
    assert Next(s, a).flights[k] == Flown(s, a);
  }

  /** When one flight has grown an array of its own and then another has, both show what
      they loaded and their own reply. */
  lemma TwoGrown(s: Sys, t: Sys, u: Sys, c: Copy, cap: nat, r1: Comment, r2: Comment)
    requires GrewOwn(s, t, 1, cap, r1) && GrewOwn(t, u, 2, cap, r2) && 2 in s.flights && c.arr < |s.caps|
    requires s.flights[1].copy == c && s.flights[2] == t.flights[2] && t.flights[2].copy == c
    ensures Grown(s.cells, u.cells, c, u.flights[1].change.copy, r1) && Grown(s.cells, u.cells, c, u.flights[2].change.copy, r2)
  {
    hide SameBelow, Comments, Whole;
    SameBelowShows(s.cells, t.cells, |s.caps|, c);
    SameBelowShows(t.cells, u.cells, |t.caps|, t.flights[1].change.copy);
  }

  /** With no room each of the two replies grows an array of its own. */
  lemma BothGrow(acts: seq<Action>, id: Id, arr: nat, len: nat, p: Principal, e1: Event, st1: Stamp, q: Principal, e2: Event, st2: Stamp, cap: nat)
    requires CanRun(acts) && Idle(After(acts), id, TenantKey(p), arr, len) && len < cap
    requires TwoReplies(After(acts), id, p, e1, st1, q, e2, st2) && !HasRoom(After(acts).caps, After(acts).threads[id])
    ensures var more := acts + BothLoadFirst(p, e1, st1, q, e2, st2, cap);
      CanRun(more) &&
      var s, t := After(acts), After(more);
      && t.flights.Keys == {1, 2} && t.flights[1].Edited? && t.flights[2].Edited?
      && t.flights[1].change.copy.head.id == id == t.flights[2].change.copy.head.id
      && Grown(s.cells, t.cells, s.threads[id], t.flights[1].change.copy, ReplyOf(p, e1, st1, id))
      && Grown(s.cells, t.cells, s.threads[id], t.flights[2].change.copy, ReplyOf(q, e2, st2, id))
  {
    hide CanRun, After, ReplyOf, SameBelow, Grown;
    BothLoaded(acts, id, arr, len, p, e1, q, e2);
    var a2 := acts + [Load(1, p, e1), Load(2, q, e2)];
    GrowsItsOwn(a2, 1, st1, cap, id);
    var a3 := a2 + [EditCopy(1, st1, cap)];
    GrowsItsOwn(a3, 2, st2, cap, id);
    assert a3 + [EditCopy(2, st2, cap)] == acts + BothLoadFirst(p, e1, st1, q, e2, st2, cap);
    TwoGrown(After(a2), After(a3), After(a3 + [EditCopy(2, st2, cap)]), After(acts).threads[id], cap, ReplyOf(p, e1, st1, id), ReplyOf(q, e2, st2, id));
  }

  /** Two members of the tenant reply at the same time to a thread whose array is full:
      the reply put first is there until the other is put, and then gone. */
  lemma ConcurrentReplyIsLost(p0: Principal, ev0: Event, st0: Stamp, p: Principal, e1: Event, st1: Stamp, q: Principal, e2: Event, st2: Stamp)
    requires ev0.op == OpCreate && Decide(map[], p0, ev0, st0).Accept?
    requires p.sub != "" && q.sub != "" && TenantKey(p) == TenantKey(p0) == TenantKey(q)
    requires IsReply(e1, st0.threadId) && IsReply(e2, st0.threadId)
    requires 0 < st0.threadId < st0.commentId < st1.threadId < st1.commentId < st2.threadId < st2.commentId
    ensures var id := st0.threadId;
      var acts := [BeginCreate(0, p0, ev0, st0), Commit(0)] + BothLoadFirst(p, e1, st1, q, e2, st2, 2) + [Commit(1)];
      && CanRun(acts) && CanRun(acts + [Commit(2)])
      && HeldAt(acts, 7, id) && ReplyOf(p, e1, st1, id) in CommentsAt(acts, 7, id)
      && HeldAt(acts + [Commit(2)], 8, id) && ReplyOf(p, e1, st1, id) !in CommentsAt(acts + [Commit(2)], 8, id)
  {
    hide CanRun, After, Decide, LastPut;
    CreateRun(p0, ev0, st0);
    var a2 := [BeginCreate(0, p0, ev0, st0), Commit(0)];
    LostOnceReplaced(a2, st0.threadId, 0, 1, p, e1, st1, q, e2, st2, 2);
  }

  lemma LostOnceReplaced(acts: seq<Action>, id: Id, arr: nat, len: nat, p: Principal, e1: Event, st1: Stamp, q: Principal, e2: Event, st2: Stamp, cap: nat)
    requires CanRun(acts) && Idle(After(acts), id, TenantKey(p), arr, len) && len < cap
    requires TwoReplies(After(acts), id, p, e1, st1, q, e2, st2) && !HasRoom(After(acts).caps, After(acts).threads[id])
    ensures var a5 := acts + BothLoadFirst(p, e1, st1, q, e2, st2, cap) + [Commit(1)];
      && CanRun(a5) && CanRun(a5 + [Commit(2)])
      && HeldAt(a5, |a5|, id) && ReplyOf(p, e1, st1, id) in CommentsAt(a5, |a5|, id)
      && HeldAt(a5 + [Commit(2)], |a5| + 1, id) && ReplyOf(p, e1, st1, id) !in CommentsAt(a5 + [Commit(2)], |a5| + 1, id)
  {
    hide CanRun, After, HasRoom, Whole, Grown, Comments, HeldAt, CommentsAt;
    BothGrow(acts, id, arr, len, p, e1, st1, q, e2, st2, cap);
    LoadedIsOlder(acts, id);
    var a4 := acts + BothLoadFirst(p, e1, st1, q, e2, st2, cap);
    CommittedShows(a4, 1, After(acts).cells, After(acts).threads[id], ReplyOf(p, e1, st1, id));
    CommittedShows(a4 + [Commit(1)], 2, After(acts).cells, After(acts).threads[id], ReplyOf(q, e2, st2, id));
  }

  /** Once it is committed, the thread shows what the flight's copy does. */
  lemma CommittedShows(acts: seq<Action>, k: nat, cells: Cells, c: Copy, reply: Comment)
    requires CanRun(acts) && k in After(acts).flights && After(acts).flights[k].Edited?
    requires Grown(cells, After(acts).cells, c, After(acts).flights[k].change.copy, reply)
    ensures var more := acts + [Commit(k)]; var id := After(acts).flights[k].change.copy.head.id;
      && CanRun(more) && HeldAt(more, |acts| + 1, id) && Whole(cells, c) && CommentsAt(more, |acts| + 1, id) == Comments(cells, c) + [reply]
      && After(more).flights == After(acts).flights - {k} && After(more).cells == After(acts).cells
  {
    hide CanRun, After, LastPut, Whole;
    CommitIsLastPut(acts, k);
    var more := acts + [Commit(k)];
    assert more[..|acts| + 1] == more;
    RunKeepsSound(more);
  }

  lemma LoadedIsOlder(acts: seq<Action>, id: Id)
    requires CanRun(acts) && id in After(acts).threads
    ensures var s := After(acts); Whole(s.cells, s.threads[id]) && forall c :: c in Comments(s.cells, s.threads[id]) ==> c.id <= s.lastId
  {
    RunKeepsSound(acts);
    hide CanRun, After;
    assert CopyOk(After(acts), After(acts).threads[id]);
  }
}
