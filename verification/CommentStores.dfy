/** The two thread stores: the in-memory one, which replaces a thread by id
    (internal/coordinator/commentstore.go), and the Postgres one, which upserts
    the thread row and each comment row and never prunes
    (internal/coordinator/pgstore.go). */
module CommentStores {
  import opened Common
  import opened SpecComments
  import opened CommentOps

  // ----- the listing both stores promise: by tenant and repo, in id order -----

  ghost function IdsForRepo(threads: Threads, org: string, repo: string): set<Id> {
    set id | id in threads && threads[id].orgId == org && threads[id].workspaceId == repo
  }

  ghost function Pick(threads: Threads, ids: seq<Id>): (r: seq<Thread>)
    requires forall k :: 0 <= k < |ids| ==> ids[k] in threads
    ensures |r| == |ids| && forall k :: 0 <= k < |ids| ==> r[k] == threads[ids[k]]
  {
    seq(|ids|, k requires 0 <= k < |ids| => threads[ids[k]])
  }

  ghost function ThreadsForRepo(threads: Threads, org: string, repo: string): seq<Thread> {
    AscendingContents(IdsForRepo(threads, org, repo));
    Pick(threads, Ascending(IdsForRepo(threads, org, repo)))
  }

  // ----- sorting a listing by id -----

  predicate SortedById(ts: seq<Thread>) {
    forall i, j :: 0 <= i < j < |ts| ==> ts[i].id < ts[j].id
  }

  function InsertById(t: Thread, ts: seq<Thread>): (r: seq<Thread>)
    requires SortedById(ts)
    requires forall k :: 0 <= k < |ts| ==> ts[k].id != t.id
    ensures SortedById(r)
    ensures forall x :: x in r <==> x == t || x in ts
  {
    if ts == [] || t.id < ts[0].id then [t] + ts
    else
      var rest := InsertById(t, ts[1..]);
      assert forall x :: x in ts <==> x == ts[0] || x in ts[1..];
      assert forall x :: x in rest ==> ts[0].id < x.id;
      [ts[0]] + rest
  }

  predicate DistinctIds(ts: seq<Thread>) {
    forall i, j :: 0 <= i < j < |ts| ==> ts[i].id != ts[j].id
  }

  function SortById(ts: seq<Thread>): (r: seq<Thread>)
    requires DistinctIds(ts)
    ensures SortedById(r)
    ensures forall x :: x in r <==> x in ts
  {
    if ts == [] then [] else
      var rest := SortById(ts[1..]);
      assert forall x :: x in ts <==> x == ts[0] || x in ts[1..];
      assert forall k :: 0 <= k < |rest| ==> rest[k] in ts[1..];
      InsertById(ts[0], rest)
  }

  /** A sorted listing of exactly the matching threads is the promised one. */
  lemma ListingIsUnique(threads: Threads, org: string, repo: string, r: seq<Thread>)
    requires forall id :: id in threads ==> threads[id].id == id
    requires SortedById(r)
    requires forall t :: t in r <==>
      t.id in IdsForRepo(threads, org, repo) && threads[t.id] == t
    ensures r == ThreadsForRepo(threads, org, repo)
  {
    var wanted := IdsForRepo(threads, org, repo);
    var ids: seq<nat> := seq(|r|, k requires 0 <= k < |r| => r[k].id);
    forall x ensures x in ids <==> x in wanted {
      if x in ids {
        var k :| 0 <= k < |ids| && ids[k] == x;
        assert r[k] in r;
      }
      if x in wanted {
        var t := threads[x];
        assert t in r;
        var k :| 0 <= k < |r| && r[k] == t;
        assert ids[k] == x;
      }
    }
    AscendingIsUnique(ids, wanted);
    forall k | 0 <= k < |r| ensures r[k] == threads[ids[k]] {
      assert r[k] in r;
    }
  }

  /** The in-memory store. */
  class MemStore {
    var threads: Threads

    ghost predicate Valid()
      reads this
    {
      forall id :: id in threads ==> threads[id].id == id
    }

    constructor ()
      ensures Valid() && threads == map[]
    {
      threads := map[];
    }

    method PutThread(t: Thread)
      requires Valid()
      modifies this
      ensures Valid() && threads == old(threads)[t.id := t]
    {
      threads := threads[t.id := t];
    }

    method GetThread(org: string, id: Id) returns (t: Option<Thread>)
      ensures t == CommentOps.GetThread(threads, org, id)
    {
      t := None;
      if id in threads {
        if threads[id].orgId == org {
          t := Some(threads[id]);
        }
      }
    }

    /** Visits the map in any order, keeps the matches, sorts by id. */
    method ListForRepo(org: string, repo: string) returns (r: seq<Thread>)
      requires Valid()
      ensures r == ThreadsForRepo(threads, org, repo)
    {
      var out: seq<Thread> := [];
      var todo := threads.Keys;
      while todo != {}
        invariant todo <= threads.Keys
        invariant DistinctIds(out)
        invariant forall t :: t in out ==> t.id !in todo
        invariant forall t :: t in out <==>
          t.id in threads && t.id !in todo && threads[t.id] == t && t.orgId == org && t.workspaceId == repo
        decreases todo
      {
        var id :| id in todo;
        todo := todo - {id};
        var t := threads[id];
        if t.orgId == org && t.workspaceId == repo {
          assert forall k :: 0 <= k < |out| ==> out[k] in out;
          out := out + [t];
        }
      }
      r := SortById(out);
      ListingIsUnique(threads, org, repo, r);
    }
  }

  // ----- the Postgres tables -----

  datatype ThreadRow = ThreadRow(
    orgId: string, workspaceId: string, specPath: string, anchor: Anchor, authorSub: string,
    createdAt: Time, resolved: bool, resolvedBy: string, resolvedAt: Option<Time>, status: Status)

  datatype CommentRow = CommentRow(
    threadId: Id, parentId: Id, authorSub: string, body: string, createdAt: Time, editedAt: Option<Time>)

  datatype Tables = Tables(threadRows: map<Id, ThreadRow>, commentRows: map<Id, CommentRow>)

  function NullableTime(t: Time): Option<Time> {
    if t == ZERO_TIME then None else Some(t)
  }

  function TimeOrZero(t: Option<Time>): Time {
    if t.None? then ZERO_TIME else t.value
  }

  function RowOfThread(t: Thread): ThreadRow {
    ThreadRow(t.orgId, t.workspaceId, t.specPath, t.anchor, t.authorSub, t.createdAt,
              t.resolved, t.resolvedBy, NullableTime(t.resolvedAt), t.status)
  }

  function RowOfComment(threadId: Id, c: Comment): CommentRow {
    CommentRow(threadId, c.parentId, c.authorSub, c.body, c.createdAt, NullableTime(c.editedAt))
  }

  /** On conflict only the mutable columns change. */
  function UpsertThread(rows: map<Id, ThreadRow>, t: Thread): map<Id, ThreadRow> {
    var row := RowOfThread(t);
    if t.id in rows then
      rows[t.id := rows[t.id].(anchor := row.anchor, resolved := row.resolved,
                               resolvedBy := row.resolvedBy, resolvedAt := row.resolvedAt,
                               status := row.status)]
    else rows[t.id := row]
  }

  function UpsertComment(rows: map<Id, CommentRow>, threadId: Id, c: Comment): map<Id, CommentRow> {
    var row := RowOfComment(threadId, c);
    if c.id in rows then rows[c.id := rows[c.id].(body := row.body, editedAt := row.editedAt)]
    else rows[c.id := row]
  }

  function UpsertComments(rows: map<Id, CommentRow>, threadId: Id, cs: seq<Comment>): map<Id, CommentRow>
    decreases |cs|
  {
    if cs == [] then rows
    else UpsertComment(UpsertComments(rows, threadId, cs[..|cs| - 1]), threadId, cs[|cs| - 1])
  }

  function PutThread(db: Tables, t: Thread): Tables {
    Tables(UpsertThread(db.threadRows, t), UpsertComments(db.commentRows, t.id, t.comments))
  }

  function CommentOfRow(id: Id, row: CommentRow): Comment {
    Comment(id, row.threadId, row.parentId, row.authorSub, row.body, row.createdAt, TimeOrZero(row.editedAt))
  }

  ghost function CommentIds(rows: map<Id, CommentRow>, threadId: Id): set<Id> {
    set id | id in rows && rows[id].threadId == threadId
  }

  ghost function LoadIds(rows: map<Id, CommentRow>, ids: set<Id>): seq<Comment>
    requires ids <= rows.Keys
  {
    if ids == {} then [] else
      var m := Maximum(ids);
      LoadIds(rows, ids - {m}) + [CommentOfRow(m, rows[m])]
  }

  /** The comments of a thread, ordered by id. */
  ghost function LoadComments(rows: map<Id, CommentRow>, threadId: Id): seq<Comment> {
    LoadIds(rows, CommentIds(rows, threadId))
  }

  lemma {:induction false} LoadIdsContents(rows: map<Id, CommentRow>, ids: set<Id>)
    requires ids <= rows.Keys
    ensures forall k :: 0 <= k < |LoadIds(rows, ids)| ==>
      LoadIds(rows, ids)[k].id in ids &&
      LoadIds(rows, ids)[k] == CommentOfRow(LoadIds(rows, ids)[k].id, rows[LoadIds(rows, ids)[k].id])
    ensures forall id :: id in ids ==> CommentOfRow(id, rows[id]) in LoadIds(rows, ids)
  {
    if ids != {} {
      LoadIdsContents(rows, ids - {Maximum(ids)});
    }
  }

  /** Only the listed rows matter. */
  lemma {:induction false} LoadIdsFrame(a: map<Id, CommentRow>, b: map<Id, CommentRow>, ids: set<Id>)
    requires ids <= a.Keys && ids <= b.Keys
    requires forall id :: id in ids ==> a[id] == b[id]
    ensures LoadIds(a, ids) == LoadIds(b, ids)
  {
    if ids != {} {
      LoadIdsFrame(a, b, ids - {Maximum(ids)});
    }
  }

  /** Loading returns rows of this thread only. */
  lemma LoadedFromRows(rows: map<Id, CommentRow>, threadId: Id, k: nat)
    requires k < |LoadComments(rows, threadId)|
    ensures
      var c := LoadComments(rows, threadId)[k];
      c.id in rows && c == CommentOfRow(c.id, rows[c.id]) && c.threadId == threadId
  {
    LoadIdsContents(rows, CommentIds(rows, threadId));
  }

  /** Loading misses no row of this thread. */
  lemma RowIsLoaded(rows: map<Id, CommentRow>, threadId: Id, id: Id)
    requires id in rows && rows[id].threadId == threadId
    ensures CommentOfRow(id, rows[id]) in LoadComments(rows, threadId)
  {
    LoadIdsContents(rows, CommentIds(rows, threadId));
  }

  function ThreadOfRow(id: Id, row: ThreadRow, comments: seq<Comment>): Thread {
    Thread(id, row.orgId, row.workspaceId, row.specPath, row.anchor, row.authorSub, row.createdAt,
           row.resolved, row.resolvedBy, TimeOrZero(row.resolvedAt), row.status, comments)
  }

  ghost function ViewAt(db: Tables, id: Id): Thread
    requires id in db.threadRows
  {
    ThreadOfRow(id, db.threadRows[id], LoadComments(db.commentRows, id))
  }

  /** The threads a reader sees. */
  ghost function View(db: Tables): Threads {
    map id | id in db.threadRows :: ViewAt(db, id)
  }

  /** The Postgres store. One transaction per put, one query per table on read. */
  class PgStore {
    var db: Tables

    constructor ()
      ensures db == Tables(map[], map[])
    {
      db := Tables(map[], map[]);
    }

    method Put(t: Thread)
      modifies this
      ensures db == PutThread(old(db), t)
    {
      var comments := db.commentRows;
      var i := 0;
      while i < |t.comments|
        invariant 0 <= i <= |t.comments|
        invariant comments == UpsertComments(db.commentRows, t.id, t.comments[..i])
      {
        comments := UpsertComment(comments, t.id, t.comments[i]);
        i := i + 1;
        assert t.comments[..i][..i - 1] == t.comments[..i - 1];
      }
      assert t.comments[..|t.comments|] == t.comments;
      db := Tables(UpsertThread(db.threadRows, t), comments);
    }
  }
}
