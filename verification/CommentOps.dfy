/** What the coordinator decides about one relayed operation
    (internal/coordinator/comments.go), over the thread map of the store, and
    what that means for the history of every thread. */
module CommentOps {
  import opened Common
  import opened SpecComments

  type Threads = map<Id, Thread>

  datatype Rejection = InvalidOp | UnknownThread | NotPermitted

  /** Either the thread to persist and the op to announce, or a rejection. */
  datatype Verdict = Accept(thread: Thread, op: Op) | Reject(why: Rejection)

  /** The nondeterministic inputs of one operation: the clock and the ids the
      minter hands out, in minting order. */
  datatype Stamp = Stamp(now: Time, threadId: Id, commentId: Id)

  /** A lookup scoped to one tenant. */
  function GetThread(threads: Threads, org: string, id: Id): Option<Thread> {
    if id in threads && threads[id].orgId == org then Some(threads[id]) else None
  }

  predicate CanResolve(p: Principal, t: Thread) {
    TenantKey(p) == t.orgId
  }

  function Create(p: Principal, ev: Event, stamp: Stamp): Verdict {
    if ev.thread.None? || ev.thread.value.specPath == "" then Reject(InvalidOp) else
    var root := Root(ev.thread.value.comments);
    if root.None? || root.value.body == "" then Reject(InvalidOp) else
    var first := Comment(stamp.commentId, stamp.threadId, NO_ID, p.sub, root.value.body, stamp.now, ZERO_TIME);
    Accept(
      Thread(stamp.threadId, TenantKey(p), ev.repo, ev.thread.value.specPath, ev.thread.value.anchor,
             p.sub, stamp.now, false, "", ZERO_TIME, StatusActive, [first]),
      OpCreate)
  }

  function WithReply(t: Thread, p: Principal, c: Comment, stamp: Stamp): Thread {
    t.(comments := t.comments +
       [Comment(stamp.commentId, t.id, c.parentId, p.sub, c.body, stamp.now, ZERO_TIME)])
  }

  function WithResolved(t: Thread, p: Principal, resolved: bool, now: Time): Thread {
    if resolved then
      t.(resolved := true, resolvedBy := p.sub, resolvedAt := now, status := StatusResolved)
    else
      t.(resolved := false, resolvedBy := "", resolvedAt := ZERO_TIME, status := StatusActive)
  }

  /** The thread an operation other than create addresses, or why it is malformed. */
  function Target(ev: Event): Option<Id> {
    match ev.op
    case OpReply =>
      if ev.comment.None? || ev.comment.value.threadId == NO_ID || ev.comment.value.body == "" then None
      else Some(ev.comment.value.threadId)
    case OpResolve | OpReopen | OpOutdated =>
      if ev.thread.None? || ev.thread.value.id == NO_ID then None else Some(ev.thread.value.id)
    case _ => None
  }

  /** The edit an operation other than create makes to the thread it loaded. */
  function Edit(t: Thread, p: Principal, ev: Event, stamp: Stamp): Verdict
    requires Target(ev).Some?
  {
    match ev.op
    case OpReply => Accept(WithReply(t, p, ev.comment.value, stamp), OpReply)
    case OpResolve =>
      if CanResolve(p, t) then Accept(WithResolved(t, p, true, stamp.now), OpResolve) else Reject(NotPermitted)
    case OpReopen =>
      if CanResolve(p, t) then Accept(WithResolved(t, p, false, stamp.now), OpReopen) else Reject(NotPermitted)
    case OpOutdated =>
      if CanResolve(p, t) then Accept(t.(status := StatusOutdated), OpOutdated) else Reject(NotPermitted)
  }

  /** The whole decision: validate, load, edit. */
  function Decide(threads: Threads, p: Principal, ev: Event, stamp: Stamp): Verdict {
    if ev.repo == "" || p.sub == "" then Reject(InvalidOp)
    else if ev.op == OpCreate then Create(p, ev, stamp)
    else
      var target := Target(ev);
      if target.None? then Reject(InvalidOp) else
      var loaded := GetThread(threads, TenantKey(p), target.value);
      if loaded.None? then Reject(UnknownThread) else Edit(loaded.value, p, ev, stamp)
  }

  /** A well-formed reply to thread id. */
  ghost predicate IsReply(ev: Event, id: Id) {
    ev.op == OpReply && ev.repo != "" && ev.comment.Some? && ev.comment.value.threadId == id && ev.comment.value.body != ""
  }

  /** The comment it mints. */
  function ReplyOf(p: Principal, ev: Event, stamp: Stamp, id: Id): Comment
    requires ev.comment.Some?
  {
    Comment(stamp.commentId, id, ev.comment.value.parentId, p.sub, ev.comment.value.body, stamp.now, ZERO_TIME)
  }

  /** One persisted operation of the in-memory (replace) store. */
  function Persist(threads: Threads, v: Verdict): Threads {
    if v.Accept? then threads[v.thread.id := v.thread] else threads
  }

  // ----- what one operation does -----

  /** An accepted operation either starts a thread under its fresh id or edits a
      thread of the caller's own tenant, and then the thread keeps its identity
      and its comments stay as a prefix. */
  lemma AcceptedThread(threads: Threads, p: Principal, ev: Event, stamp: Stamp)
    requires Decide(threads, p, ev, stamp).Accept?
    requires forall id :: id in threads ==> threads[id].id == id
    requires stamp.threadId !in threads
    ensures
      var t := Decide(threads, p, ev, stamp).thread;
      && t.orgId == TenantKey(p) && p.sub != ""
      && (t.id !in threads ==> t.id == stamp.threadId && t.workspaceId == ev.repo && t.workspaceId != "")
      && (t.id in threads ==>
           && SameIdentity(threads[t.id], t)
           && threads[t.id].comments <= t.comments
           && |t.comments| <= |threads[t.id].comments| + 1)
  {
  }

  // ----- invariants of every stored thread -----

  ghost predicate WellFormed(t: Thread) {
    && t.workspaceId != ""
    && t.comments != []
    && (forall k :: 0 <= k < |t.comments| ==> t.comments[k].threadId == t.id && t.comments[k].authorSub != "")
    && (t.resolved <==> t.resolvedBy != "")
    && (t.status == StatusActive ==> !t.resolved)
    && (t.status == StatusResolved ==> t.resolved)
  }

  /** One serialized operation: who sent what, with which stamp. */
  datatype Request = Request(p: Principal, ev: Event, stamp: Stamp)

  /** The store after a serialized run, with the last id minted. */
  datatype Store = Store(threads: Threads, lastId: Id)

  const EMPTY := Store(map[], 0)

  /** Minted ids are fresh and increasing. */
  predicate Fresh(s: Store, stamp: Stamp) {
    s.lastId < stamp.threadId < stamp.commentId
  }

  function Step(s: Store, r: Request): Store
    requires Fresh(s, r.stamp)
  {
    Store(Persist(s.threads, Decide(s.threads, r.p, r.ev, r.stamp)), r.stamp.commentId)
  }

  ghost predicate Runs(s: Store, rs: seq<Request>)
    decreases |rs|
  {
    rs == [] || (Fresh(s, rs[0].stamp) && Runs(Step(s, rs[0]), rs[1..]))
  }

  ghost function After(s: Store, rs: seq<Request>): Store
    requires Runs(s, rs)
    decreases |rs|
  {
    if rs == [] then s else After(Step(s, rs[0]), rs[1..])
  }

  ghost predicate Keyed(s: Store) {
    forall id :: id in s.threads ==>
      s.threads[id].id == id && 0 < id <= s.lastId &&
      forall k :: 0 <= k < |s.threads[id].comments| ==> s.threads[id].comments[k].id <= s.lastId
  }

  ghost predicate Valid(s: Store) {
    Keyed(s) && forall id :: id in s.threads ==> WellFormed(s.threads[id])
  }

  /** b is a later version of the threads in a: none is lost, identities are
      fixed and comments only grow by appending. */
  ghost predicate Evolves(a: Threads, b: Threads) {
    forall id :: id in a ==>
      id in b && SameIdentity(a[id], b[id]) && a[id].comments <= b[id].comments
  }

  lemma AcceptedIsWellFormed(s: Store, r: Request)
    requires Valid(s) && Fresh(s, r.stamp)
    requires Decide(s.threads, r.p, r.ev, r.stamp).Accept?
    ensures WellFormed(Decide(s.threads, r.p, r.ev, r.stamp).thread)
  {
    var t := Decide(s.threads, r.p, r.ev, r.stamp).thread;
    if r.ev.op != OpCreate {
      assert WellFormed(s.threads[t.id]);
    }
  }

  lemma AcceptedIsKeyed(s: Store, r: Request)
    requires Valid(s) && Fresh(s, r.stamp)
    requires Decide(s.threads, r.p, r.ev, r.stamp).Accept?
    ensures Keyed(Step(s, r))
  {
    var t := Decide(s.threads, r.p, r.ev, r.stamp).thread;
    if r.ev.op != OpCreate {
      assert t.id in s.threads;
    }
    assert forall k :: 0 <= k < |t.comments| ==> t.comments[k].id <= r.stamp.commentId;
  }

  lemma StepKeepsValid(s: Store, r: Request)
    requires Valid(s) && Fresh(s, r.stamp)
    ensures Valid(Step(s, r)) && Evolves(s.threads, Step(s, r).threads)
  {
    if Decide(s.threads, r.p, r.ev, r.stamp).Accept? {
      AcceptedThread(s.threads, r.p, r.ev, r.stamp);
      AcceptedIsWellFormed(s, r);
      AcceptedIsKeyed(s, r);
    }
  }

  /** Thread history, invariant part: after every serialized run each stored
      thread is well formed, and every earlier thread is still there, with the
      same identity and its comments as a prefix of the later ones. */
  lemma {:induction false} ThreadHistory(s: Store, rs: seq<Request>)
    requires Valid(s) && Runs(s, rs)
    ensures Valid(After(s, rs)) && Evolves(s.threads, After(s, rs).threads)
    decreases |rs|
  {
    if rs != [] {
      StepKeepsValid(s, rs[0]);
      var mid := Step(s, rs[0]);
      ThreadHistory(mid, rs[1..]);
      var end := After(mid, rs[1..]);
      forall id | id in s.threads
        ensures id in end.threads && SameIdentity(s.threads[id], end.threads[id])
        ensures s.threads[id].comments <= end.threads[id].comments
      {
        PrefixTransitive(s.threads[id].comments, mid.threads[id].comments, end.threads[id].comments);
      }
    }
  }

  lemma PrefixTransitive(a: seq<Comment>, b: seq<Comment>, c: seq<Comment>)
    requires a <= b && b <= c
    ensures a <= c
  {
  }

  // ----- attribution -----

  /** Request r of the run is the one that wrote comment c of thread t. */
  ghost predicate Wrote(r: Request, t: Thread, c: Comment) {
    c.authorSub == r.p.sub && c.id == r.stamp.commentId && c.createdAt == r.stamp.now
    && t.orgId == TenantKey(r.p)
  }

  ghost predicate WrittenBy(rs: seq<Request>, t: Thread, c: Comment) {
    exists i :: 0 <= i < |rs| && Wrote(rs[i], t, c)
  }

  ghost predicate Attributed(threads: Threads, rs: seq<Request>) {
    forall id, k :: id in threads && 0 <= k < |threads[id].comments| ==> WrittenBy(rs, threads[id], threads[id].comments[k])
  }

  /** Any part of a run that ends at a state: the run's prefix relation used to
      step from the front while speaking about all requests so far. */
  lemma {:induction false} AttributionFrom(s: Store, done: seq<Request>, rest: seq<Request>)
    requires Valid(s) && Runs(s, rest) && Attributed(s.threads, done)
    ensures Attributed(After(s, rest).threads, done + rest)
    decreases |rest|
  {
    if rest == [] {
      assert done + rest == done;
    } else {
      var r := rest[0];
      StepKeepsValid(s, r);
      StepAttributes(s, done, r);
      AttributionFrom(Step(s, r), done + [r], rest[1..]);
      assert done + [r] + rest[1..] == done + rest;
    }
  }

  /** A comment that was not there before is the request's own. */
  lemma NewCommentIsOwn(threads: Threads, r: Request, k: nat)
    requires Decide(threads, r.p, r.ev, r.stamp).Accept? && k < |Decide(threads, r.p, r.ev, r.stamp).thread.comments|
    requires (forall id :: id in threads ==> threads[id].id == id) && r.stamp.threadId !in threads
    requires var t := Decide(threads, r.p, r.ev, r.stamp).thread; t.id in threads ==> k >= |threads[t.id].comments|
    ensures var t := Decide(threads, r.p, r.ev, r.stamp).thread; Wrote(r, t, t.comments[k])
  {
    hide Root;
  }

  lemma OldCommentStays(a: Threads, b: Threads, done: seq<Request>, all: seq<Request>, id: Id, k: nat)
    requires Attributed(a, done) && Evolves(a, b) && done <= all
    requires id in a && k < |a[id].comments|
    ensures k < |b[id].comments| && WrittenBy(all, b[id], b[id].comments[k])
  {
    assert WrittenBy(done, a[id], a[id].comments[k]);
    var i :| 0 <= i < |done| && Wrote(done[i], a[id], a[id].comments[k]);
    assert b[id].comments[k] == a[id].comments[k];
    assert Wrote(all[i], b[id], b[id].comments[k]);
  }

  /** The thread a step leaves under an id is the one it found, or the accepted one. */
  lemma StepAt(s: Store, r: Request, id: Id)
    requires Valid(s) && Fresh(s, r.stamp) && id in Step(s, r).threads
    ensures var v := Decide(s.threads, r.p, r.ev, r.stamp); var t := Step(s, r).threads[id];
      (id in s.threads && t == s.threads[id]) || (v.Accept? && id == v.thread.id && t == v.thread)
  {
    hide Decide, WellFormed;
  }

  lemma StepWrote(s: Store, done: seq<Request>, r: Request, id: Id, k: nat)
    requires Valid(s) && Fresh(s, r.stamp) && Attributed(s.threads, done)
    requires id in Step(s, r).threads && k < |Step(s, r).threads[id].comments|
    ensures WrittenBy(done + [r], Step(s, r).threads[id], Step(s, r).threads[id].comments[k])
  {
    hide Decide, Wrote, WellFormed, Attributed, WrittenBy;
    var after, all := Step(s, r).threads, done + [r];
    if id in s.threads && k < |s.threads[id].comments| {
      StepKeepsValid(s, r);
      OldCommentStays(s.threads, after, done, all, id, k);
    } else {
      StepAt(s, r, id);
      NewCommentIsOwn(s.threads, r, k);
      OwnIsWritten(done, r, after[id], after[id].comments[k]);
    }
  }

  lemma OwnIsWritten(done: seq<Request>, r: Request, t: Thread, c: Comment)
    requires Wrote(r, t, c)
    ensures WrittenBy(done + [r], t, c)
  {
    hide Wrote;
    assert (done + [r])[|done|] == r;
  }

  lemma StepAttributes(s: Store, done: seq<Request>, r: Request)
    requires Valid(s) && Fresh(s, r.stamp) && Attributed(s.threads, done)
    ensures Attributed(Step(s, r).threads, done + [r])
  {
    hide Step, Valid, WrittenBy;
    var after := Step(s, r).threads;
    forall id, k | id in after && 0 <= k < |after[id].comments| ensures WrittenBy(done + [r], after[id], after[id].comments[k]) {
      StepWrote(s, done, r, id, k);
    }
  }

  /** Attribution: in the store reached by any serialized run every comment was
      written by a request of that run, under its sender's own identity, id and
      time, and inside the sender's own tenant. */
  lemma EveryCommentIsAttributed(rs: seq<Request>)
    requires Runs(EMPTY, rs)
    ensures Attributed(After(EMPTY, rs).threads, rs)
  {
    AttributionFrom(EMPTY, [], rs);
    assert [] + rs == rs;
  }

  /** Tenant isolation of writes: an operation leaves every thread of every
      other tenant exactly as it was. */
  lemma OtherTenantsUntouched(s: Store, r: Request, id: Id)
    requires Valid(s) && Fresh(s, r.stamp)
    requires id in s.threads && s.threads[id].orgId != TenantKey(r.p)
    ensures id in Step(s, r).threads && Step(s, r).threads[id] == s.threads[id]
  {
    if Decide(s.threads, r.p, r.ev, r.stamp).Accept? {
      AcceptedThread(s.threads, r.p, r.ev, r.stamp);
    }
  }

  /** Whom and what an operation needs: a signed-in sender, a repo, and either the
      makings of a thread or a thread of the sender's own tenant. */
  ghost predicate Admissible(threads: Threads, p: Principal, ev: Event) {
    && ev.repo != "" && p.sub != ""
    && match ev.op
       case OpCreate => ev.thread.Some? && ev.thread.value.specPath != "" && HasRootText(ev.thread.value.comments)
       case OpReply => ev.comment.Some? && ev.comment.value.body != "" && OwnThread(threads, p, ev.comment.value.threadId)
       case OpResolve | OpReopen | OpOutdated => ev.thread.Some? && OwnThread(threads, p, ev.thread.value.id)
       case _ => false
  }

  ghost predicate HasRootText(comments: seq<Comment>) {
    Root(comments).Some? && Root(comments).value.body != ""
  }

  ghost predicate OwnThread(threads: Threads, p: Principal, id: Id) {
    id != NO_ID && id in threads && threads[id].orgId == TenantKey(p)
  }

  /** Exactly the admissible operations are accepted. The permission check on
      resolving never decides anything: the lookup is already the tenant's own. */
  lemma AcceptedIffAdmissible(threads: Threads, p: Principal, ev: Event, stamp: Stamp)
    ensures Decide(threads, p, ev, stamp).Accept? <==> Admissible(threads, p, ev)
    ensures Decide(threads, p, ev, stamp) != Reject(NotPermitted)
  {
    hide Root;
    if ev.op != OpCreate && Target(ev).Some? {
      assert GetThread(threads, TenantKey(p), Target(ev).value).Some? <==> OwnThread(threads, p, Target(ev).value);
    }
  }

  /** Two versions of a thread that differ in resolution and status only. */
  ghost predicate OnlyStatusDiffers(a: Thread, b: Thread) {
    SameIdentity(a, b) && a.comments == b.comments && a.anchor == b.anchor
  }

  /** What each accepted operation leaves behind. */
  lemma AcceptedEffect(threads: Threads, p: Principal, ev: Event, stamp: Stamp)
    requires Decide(threads, p, ev, stamp).Accept?
    requires forall id :: id in threads ==> threads[id].id == id
    ensures
      var t := Decide(threads, p, ev, stamp).thread;
      && (ev.op == OpCreate ==>
        && t.status == StatusActive && !t.resolved && t.authorSub == p.sub && t.createdAt == stamp.now
        && t.specPath == ev.thread.value.specPath && t.anchor == ev.thread.value.anchor && |t.comments| == 1
        && t.comments[0].body == Root(ev.thread.value.comments).value.body && t.comments[0].parentId == NO_ID)
      && (ev.op == OpReply ==>
        && t.id in threads && t == threads[t.id].(comments := t.comments)
        && |t.comments| == |threads[t.id].comments| + 1 && t.comments[..|t.comments| - 1] == threads[t.id].comments
        && t.comments[|t.comments| - 1].body == ev.comment.value.body
        && t.comments[|t.comments| - 1].parentId == ev.comment.value.parentId)
      && (ev.op == OpResolve ==>
        && t.id in threads && OnlyStatusDiffers(threads[t.id], t)
        && t.resolved && t.resolvedBy == p.sub && t.resolvedAt == stamp.now && t.status == StatusResolved)
      && (ev.op == OpReopen ==>
        && t.id in threads && OnlyStatusDiffers(threads[t.id], t)
        && !t.resolved && t.resolvedBy == "" && t.resolvedAt == ZERO_TIME && t.status == StatusActive)
      && (ev.op == OpOutdated ==> t.id in threads && t == threads[t.id].(status := StatusOutdated))
    ensures Decide(threads, p, ev, stamp).op == ev.op
  {
    hide Root;
  }

  /** Reopening undoes resolving. */
  lemma ReopenUndoesResolve(t: Thread, p: Principal, q: Principal, now: Time, later: Time)
    requires WellFormed(t) && t.status == StatusActive && t.resolvedAt == ZERO_TIME
    ensures WithResolved(WithResolved(t, p, true, now), q, false, later) == t
  {
  }

  // ----- when an outdated thread stays outdated -----

  /** A request of the thread's own tenant that addresses it by id. */
  predicate Addresses(r: Request, org: string, id: Id) {
    && r.ev.repo != "" && r.p.sub != "" && TenantKey(r.p) == org
    && r.ev.thread.Some? && r.ev.thread.value.id == id
  }

  /** It resolves or reopens the thread. */
  predicate Revives(r: Request, org: string, id: Id) {
    (r.ev.op == OpResolve || r.ev.op == OpReopen) && Addresses(r, org, id)
  }

  /** It files the thread away as outdated. */
  predicate Retires(r: Request, org: string, id: Id) {
    r.ev.op == OpOutdated && Addresses(r, org, id)
  }

  /** Which operations touch the status of a stored thread, and how. */
  lemma StatusStep(s: Store, r: Request, id: Id)
    requires Valid(s) && Fresh(s, r.stamp) && id in s.threads
    ensures id in Step(s, r).threads && Step(s, r).threads[id].orgId == s.threads[id].orgId
    ensures
      var t := s.threads[id];
      var status := Step(s, r).threads[id].status;
      && (Revives(r, t.orgId, id) ==> status == if r.ev.op == OpReopen then StatusActive else StatusResolved)
      && (Retires(r, t.orgId, id) ==> status == StatusOutdated)
      && (!Revives(r, t.orgId, id) && !Retires(r, t.orgId, id) ==> status == t.status)
  {
    StepKeepsValid(s, r);
    AcceptedIffAdmissible(s.threads, r.p, r.ev, r.stamp);
    var v := Decide(s.threads, r.p, r.ev, r.stamp);
    if v.Accept? {
      AcceptedThread(s.threads, r.p, r.ev, r.stamp);
      AcceptedEffect(s.threads, r.p, r.ev, r.stamp);
      AcceptedTarget(s.threads, r.p, r.ev, r.stamp);
    }
    hide Decide, Root;
  }

  lemma AcceptedTarget(threads: Threads, p: Principal, ev: Event, stamp: Stamp)
    requires Decide(threads, p, ev, stamp).Accept? && forall id :: id in threads ==> threads[id].id == id
    ensures ev.op == OpResolve || ev.op == OpReopen || ev.op == OpOutdated ==>
      ev.thread.Some? && Decide(threads, p, ev, stamp).thread.id == ev.thread.value.id
  {
  }

  /** An outdated thread is still outdated after a request exactly when the request
      is not an admissible resolve or reopen of it. */
  lemma OutdatedStaysIff(s: Store, r: Request, id: Id)
    requires Valid(s) && Fresh(s, r.stamp) && id in s.threads && s.threads[id].status == StatusOutdated
    ensures id in Step(s, r).threads
    ensures Step(s, r).threads[id].status == StatusOutdated <==>
      !((r.ev.op == OpResolve || r.ev.op == OpReopen) && Admissible(s.threads, r.p, r.ev) && r.ev.thread.value.id == id)
  {
    StatusStep(s, r, id);
    hide Step, Root;
  }

  /** Somewhere in the run the thread is retired and no later request revives it. */
  ghost predicate RetiredForGood(rs: seq<Request>, org: string, id: Id) {
    exists j :: 0 <= j < |rs| && Retires(rs[j], org, id) && NotRevivedAfter(rs, j, org, id)
  }

  ghost predicate NotRevivedAfter(rs: seq<Request>, j: int, org: string, id: Id) {
    forall m :: j < m < |rs| && 0 <= m ==> !Revives(rs[m], org, id)
  }

  ghost predicate OutdatedAtEnd(rs: seq<Request>, org: string, id: Id, before: bool) {
    RetiredForGood(rs, org, id) || (before && NotRevivedAfter(rs, -1, org, id))
  }

  lemma OutdatedAtEndStep(rs: seq<Request>, org: string, id: Id, before: bool)
    requires rs != []
    ensures OutdatedAtEnd(rs, org, id, before) <==>
      OutdatedAtEnd(rs[1..], org, id, Retires(rs[0], org, id) || (before && !Revives(rs[0], org, id)))
  {
    hide Revives, Retires;
    var rest := rs[1..];
    assert forall m :: 0 <= m < |rest| ==> rest[m] == rs[m + 1];
    assert forall m :: 1 <= m < |rs| ==> rs[m] == rest[m - 1];
    RetireShift(rs, org, id);
  }

  lemma RetireShift(rs: seq<Request>, org: string, id: Id)
    requires rs != []
    ensures RetiredForGood(rs, org, id) <==>
      RetiredForGood(rs[1..], org, id) || (Retires(rs[0], org, id) && NotRevivedAfter(rs[1..], -1, org, id))
  {
    hide Revives, Retires;
    var rest := rs[1..];
    forall j | 0 <= j < |rs| ensures NotRevivedAfter(rs, j, org, id) <==> NotRevivedAfter(rest, j - 1, org, id) {
      assert forall m :: 0 <= m < |rest| ==> rest[m] == rs[m + 1];
      assert forall m :: 1 <= m < |rs| ==> rs[m] == rest[m - 1];
    }
    if RetiredForGood(rs, org, id) {
      var j :| 0 <= j < |rs| && Retires(rs[j], org, id) && NotRevivedAfter(rs, j, org, id);
      assert j > 0 ==> rest[j - 1] == rs[j];
    }
    if RetiredForGood(rest, org, id) {
      var j :| 0 <= j < |rest| && Retires(rest[j], org, id) && NotRevivedAfter(rest, j, org, id);
      assert rs[j + 1] == rest[j] && NotRevivedAfter(rs, j + 1, org, id);
    }
  }

  /** Over every run: a thread is outdated at the end exactly when some request of
      its tenant retired it and none revived it afterwards, or it was outdated
      before and none revived it. */
  lemma {:induction false} OutdatedOverRuns(s: Store, rs: seq<Request>, id: Id)
    requires Valid(s) && Runs(s, rs) && id in s.threads
    ensures id in After(s, rs).threads
    ensures After(s, rs).threads[id].status == StatusOutdated <==>
      OutdatedAtEnd(rs, s.threads[id].orgId, id, s.threads[id].status == StatusOutdated)
    decreases |rs|
  {
    if rs != [] {
      StepKeepsValid(s, rs[0]);
      StatusStep(s, rs[0], id);
      OutdatedAtEndStep(rs, s.threads[id].orgId, id, s.threads[id].status == StatusOutdated);
      hide Step, Valid, OutdatedAtEnd, Retires, Revives;
      OutdatedOverRuns(Step(s, rs[0]), rs[1..], id);
    }
  }
}
