/** The replace rule of the in-memory store and the merge rule of the Postgres
    store compared: on every serialized run readers see the same threads. */
module StoreRefinement {
  import opened Common
  import opened SpecComments
  import opened CommentOps
  import opened CommentStores

  // ----- the tables mirror the thread map -----

  ghost predicate TidyRow(db: Tables, lastId: Id, cid: Id)
    requires cid in db.commentRows
  {
    var row := db.commentRows[cid];
    0 < cid <= lastId && row.threadId in db.threadRows && row.editedAt != Some(ZERO_TIME)
  }

  ghost predicate Tidy(db: Tables, lastId: Id) {
    forall cid :: cid in db.commentRows ==> TidyRow(db, lastId, cid)
  }

  ghost predicate Shows(db: Tables, threads: Threads) {
    && db.threadRows.Keys == threads.Keys
    && forall id :: id in threads ==> ViewAt(db, id) == threads[id]
  }

  lemma ShowsIsView(db: Tables, threads: Threads)
    ensures Shows(db, threads) <==> View(db) == threads
  {
    assert View(db).Keys == db.threadRows.Keys;
    if Shows(db, threads) {
      assert forall id :: id in threads ==> View(db)[id] == threads[id];
    }
  }

  ghost predicate Mirrors(db: Tables, s: Store) {
    Tidy(db, s.lastId) && Shows(db, s.threads)
  }

  /** Every comment of cs is already stored under threadId exactly as given. */
  ghost predicate Stored(rows: map<Id, CommentRow>, threadId: Id, cs: seq<Comment>) {
    forall k :: 0 <= k < |cs| ==> cs[k].id in rows && rows[cs[k].id] == RowOfComment(threadId, cs[k])
  }

  lemma {:induction false} UpsertStored(rows: map<Id, CommentRow>, threadId: Id, cs: seq<Comment>)
    requires Stored(rows, threadId, cs)
    ensures UpsertComments(rows, threadId, cs) == rows
    decreases |cs|
  {
    if cs != [] {
      var last := |cs| - 1;
      UpsertStored(rows, threadId, cs[..last]);
      assert cs[last].id in rows;
    }
  }

  lemma UpsertOneNew(rows: map<Id, CommentRow>, threadId: Id, cs: seq<Comment>, c: Comment)
    requires Stored(rows, threadId, cs) && c.id !in rows
    ensures UpsertComments(rows, threadId, cs + [c]) == rows[c.id := RowOfComment(threadId, c)]
  {
    UpsertStored(rows, threadId, cs);
    assert (cs + [c])[..|cs|] == cs;
  }

  lemma LoadedIsStored(db: Tables, lastId: Id, threadId: Id)
    requires Tidy(db, lastId)
    ensures Stored(db.commentRows, threadId, LoadComments(db.commentRows, threadId))
  {
    var cs := LoadComments(db.commentRows, threadId);
    forall k | 0 <= k < |cs|
      ensures cs[k].id in db.commentRows && db.commentRows[cs[k].id] == RowOfComment(threadId, cs[k])
    {
      LoadedFromRows(db.commentRows, threadId, k);
      assert TidyRow(db, lastId, cs[k].id);
    }
  }

  lemma LoadAfterNew(rows: map<Id, CommentRow>, threadId: Id, c: Comment)
    requires c.threadId == threadId && c.id !in rows
    requires forall id :: id in rows ==> id < c.id
    ensures LoadComments(rows[c.id := RowOfComment(threadId, c)], threadId)
         == LoadComments(rows, threadId) + [CommentOfRow(c.id, RowOfComment(threadId, c))]
  {
    var more := rows[c.id := RowOfComment(threadId, c)];
    var ids := CommentIds(rows, threadId);
    assert CommentIds(more, threadId) == ids + {c.id};
    assert Maximum(ids + {c.id}) == c.id;
    assert ids + {c.id} - {c.id} == ids;
    LoadIdsFrame(rows, more, ids);
  }

  lemma LoadElsewhere(rows: map<Id, CommentRow>, threadId: Id, other: Id, c: Comment)
    requires other != threadId && c.id !in rows
    ensures LoadComments(rows[c.id := RowOfComment(threadId, c)], other) == LoadComments(rows, other)
  {
    var more := rows[c.id := RowOfComment(threadId, c)];
    assert CommentIds(more, other) == CommentIds(rows, other);
    LoadIdsFrame(rows, more, CommentIds(rows, other));
  }

  /** The shape of every accepted put: the comments already loaded, then at most
      one new comment. */
  ghost predicate Adds(before: seq<Comment>, t: Thread, extra: seq<Comment>, lastId: Id) {
    && t.comments == before + extra && |extra| <= 1
    && (extra != [] ==> extra[0].threadId == t.id && extra[0].id > lastId && extra[0].editedAt == ZERO_TIME)
  }

  ghost function WithExtra(rows: map<Id, CommentRow>, threadId: Id, extra: seq<Comment>): map<Id, CommentRow> {
    if extra == [] then rows else rows[extra[0].id := RowOfComment(threadId, extra[0])]
  }

  lemma PutAddsRow(db: Tables, lastId: Id, t: Thread, extra: seq<Comment>)
    requires Tidy(db, lastId) && Adds(LoadComments(db.commentRows, t.id), t, extra, lastId)
    ensures PutThread(db, t).commentRows == WithExtra(db.commentRows, t.id, extra)
    ensures extra != [] ==> extra[0].id !in db.commentRows
  {
    var before := LoadComments(db.commentRows, t.id);
    LoadedIsStored(db, lastId, t.id);
    if extra == [] {
      assert t.comments == before;
      UpsertStored(db.commentRows, t.id, before);
    } else {
      assert extra[0].id in db.commentRows ==> TidyRow(db, lastId, extra[0].id);
      assert extra == [extra[0]];
      UpsertOneNew(db.commentRows, t.id, before, extra[0]);
    }
  }

  lemma LoadedAfterPut(db: Tables, lastId: Id, t: Thread, extra: seq<Comment>)
    requires Tidy(db, lastId) && Adds(LoadComments(db.commentRows, t.id), t, extra, lastId)
    ensures LoadComments(PutThread(db, t).commentRows, t.id) == t.comments
  {
    PutAddsRow(db, lastId, t, extra);
    if extra != [] {
      forall id | id in db.commentRows ensures id < extra[0].id {
        assert TidyRow(db, lastId, id);
      }
      LoadAfterNew(db.commentRows, t.id, extra[0]);
      assert extra == [extra[0]];
    }
  }

  lemma LoadedElsewhereAfterPut(db: Tables, lastId: Id, t: Thread, extra: seq<Comment>, other: Id)
    requires Tidy(db, lastId) && Adds(LoadComments(db.commentRows, t.id), t, extra, lastId) && other != t.id
    ensures LoadComments(PutThread(db, t).commentRows, other) == LoadComments(db.commentRows, other)
  {
    PutAddsRow(db, lastId, t, extra);
    if extra != [] {
      LoadElsewhere(db.commentRows, t.id, other, extra[0]);
    }
  }

  lemma TidyAfterPut(db: Tables, before: Id, t: Thread, extra: seq<Comment>, lastId: Id)
    requires Tidy(db, before) && Adds(LoadComments(db.commentRows, t.id), t, extra, before)
    requires before <= lastId && (extra != [] ==> extra[0].id <= lastId)
    ensures Tidy(PutThread(db, t), lastId)
  {
    PutAddsRow(db, before, t, extra);
    var after := PutThread(db, t);
    forall cid | cid in after.commentRows ensures TidyRow(after, lastId, cid) {
      assert cid in db.commentRows ==> TidyRow(db, before, cid);
    }
  }

  /** On conflict the columns that are not written already agree. */
  lemma UpsertedRow(rows: map<Id, ThreadRow>, t: Thread)
    requires t.id in rows ==>
      rows[t.id].orgId == t.orgId && rows[t.id].workspaceId == t.workspaceId && rows[t.id].specPath == t.specPath
      && rows[t.id].authorSub == t.authorSub && rows[t.id].createdAt == t.createdAt
    ensures UpsertThread(rows, t) == rows[t.id := RowOfThread(t)]
  {
  }

  lemma ThreadRoundTrip(t: Thread)
    ensures ThreadOfRow(t.id, RowOfThread(t), t.comments) == t
  {
  }

  lemma PutViewAt(db: Tables, s: Store, t: Thread, extra: seq<Comment>, id: Id)
    requires Mirrors(db, s) && (id in db.threadRows || id == t.id)
    requires Adds(LoadComments(db.commentRows, t.id), t, extra, s.lastId)
    requires UpsertThread(db.threadRows, t) == db.threadRows[t.id := RowOfThread(t)]
    ensures ViewAt(PutThread(db, t), id) == s.threads[t.id := t][id]
  {
    if id == t.id {
      LoadedAfterPut(db, s.lastId, t, extra);
      ThreadRoundTrip(t);
    } else {
      LoadedElsewhereAfterPut(db, s.lastId, t, extra, id);
      assert ViewAt(db, id) == s.threads[id];
    }
  }

  /** A put through the merge rule is a replace in the view. */
  lemma PutIsReplace(db: Tables, s: Store, t: Thread, extra: seq<Comment>)
    requires Mirrors(db, s)
    requires t.id in db.threadRows ==> SameIdentity(s.threads[t.id], t)
    requires Adds(LoadComments(db.commentRows, t.id), t, extra, s.lastId)
    ensures Shows(PutThread(db, t), s.threads[t.id := t])
  {
    assert t.id in db.threadRows ==> ViewAt(db, t.id) == s.threads[t.id];
    UpsertedRow(db.threadRows, t);
    forall id | id in s.threads[t.id := t]
      ensures ViewAt(PutThread(db, t), id) == s.threads[t.id := t][id]
    {
      PutViewAt(db, s, t, extra, id);
    }
  }

  /** A thread id never used so far has no comment rows. */
  lemma NothingLoadedForNewThread(db: Tables, lastId: Id, threadId: Id)
    requires Tidy(db, lastId) && threadId !in db.threadRows
    ensures LoadComments(db.commentRows, threadId) == []
  {
    forall cid | cid in db.commentRows ensures db.commentRows[cid].threadId != threadId {
      assert TidyRow(db, lastId, cid);
    }
    assert CommentIds(db.commentRows, threadId) == {};
  }

  function StepTables(db: Tables, v: Verdict): Tables {
    if v.Accept? then PutThread(db, v.thread) else db
  }

  /** The comment an accepted request adds. */
  ghost function ExtraComment(s: Store, r: Request): seq<Comment>
    requires Decide(s.threads, r.p, r.ev, r.stamp).Accept?
  {
    var t := Decide(s.threads, r.p, r.ev, r.stamp).thread;
    if r.ev.op == OpCreate then t.comments
    else if r.ev.op == OpReply then t.comments[|t.comments| - 1..]
    else []
  }

  lemma AcceptedAdds(db: Tables, s: Store, r: Request)
    requires Valid(s) && Mirrors(db, s) && Fresh(s, r.stamp)
    requires Decide(s.threads, r.p, r.ev, r.stamp).Accept?
    ensures
      var t := Decide(s.threads, r.p, r.ev, r.stamp).thread;
      && Adds(LoadComments(db.commentRows, t.id), t, ExtraComment(s, r), s.lastId)
      && (ExtraComment(s, r) != [] ==> ExtraComment(s, r)[0].id <= r.stamp.commentId)
  {
    hide LoadComments, Tidy;
    var t := Decide(s.threads, r.p, r.ev, r.stamp).thread;
    if r.ev.op == OpCreate {
      NothingLoadedForNewThread(db, s.lastId, t.id);
    } else {
      assert ViewAt(db, t.id).comments == LoadComments(db.commentRows, t.id);
    }
  }

  lemma StepRefines(db: Tables, s: Store, r: Request)
    requires Valid(s) && Mirrors(db, s) && Fresh(s, r.stamp)
    ensures Mirrors(StepTables(db, Decide(View(db), r.p, r.ev, r.stamp)), Step(s, r))
  {
    ShowsIsView(db, s.threads);
    var v := Decide(s.threads, r.p, r.ev, r.stamp);
    if v.Accept? {
      AcceptedThread(s.threads, r.p, r.ev, r.stamp);
      AcceptedAdds(db, s, r);
      PutIsReplace(db, s, v.thread, ExtraComment(s, r));
      TidyAfterPut(db, s.lastId, v.thread, ExtraComment(s, r), r.stamp.commentId);
    } else {
      forall cid | cid in db.commentRows ensures TidyRow(db, r.stamp.commentId, cid) {
        assert TidyRow(db, s.lastId, cid);
      }
    }
  }

  /** The tables after a serialized run against the Postgres store. */
  ghost function TablesAfter(db: Tables, rs: seq<Request>): Tables
    decreases |rs|
  {
    if rs == [] then db
    else TablesAfter(StepTables(db, Decide(View(db), rs[0].p, rs[0].ev, rs[0].stamp)), rs[1..])
  }

  /** Store refinement, serialized part: a run against the merge store and the
      same run against the replace store end with the same threads. */
  lemma {:induction false} SerializedRunsAgree(db: Tables, s: Store, rs: seq<Request>)
    requires Valid(s) && Mirrors(db, s) && Runs(s, rs)
    ensures View(TablesAfter(db, rs)) == After(s, rs).threads
    decreases |rs|
  {
    if rs == [] {
      ShowsIsView(db, s.threads);
    } else {
      StepRefines(db, s, rs[0]);
      StepKeepsValid(s, rs[0]);
      SerializedRunsAgree(StepTables(db, Decide(View(db), rs[0].p, rs[0].ev, rs[0].stamp)), Step(s, rs[0]), rs[1..]);
    }
  }

  lemma EmptyStoresAgree(rs: seq<Request>)
    requires Runs(EMPTY, rs)
    ensures View(TablesAfter(Tables(map[], map[]), rs)) == After(EMPTY, rs).threads
  {
    SerializedRunsAgree(Tables(map[], map[]), EMPTY, rs);
  }
}
