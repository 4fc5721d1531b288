/** The shared spec-comment vocabulary (internal/speccomment/types.go and the
    connection identity of internal/coordinator/wire.go).

    Thread and comment ids are ULIDs: fixed-width strings whose lexicographic
    order is their numeric order. They are modelled by that number, with 0 for
    the empty string. The zero time is 0. */
module SpecComments {
  import opened Common

  type Id = nat
  const NO_ID: Id := 0

  type Time = nat
  const ZERO_TIME: Time := 0

  datatype Status = StatusActive | StatusResolved | StatusOrphaned | StatusOutdated

  datatype Op =
    | OpCreate | OpReply | OpResolve | OpReopen | OpEdit | OpReplace | OpOutdated | OpSync
    | OpUnknown(name: string)

  datatype Anchor = Anchor(
    sectionPath: seq<string>, lineHash: string, prefix: string, suffix: string,
    exactText: string, lineHint: int, commitSha: string, blobSha: string)

  datatype Comment = Comment(
    id: Id, threadId: Id, parentId: Id, authorSub: string, body: string,
    createdAt: Time, editedAt: Time)

  datatype Thread = Thread(
    id: Id, orgId: string, workspaceId: string, specPath: string, anchor: Anchor,
    authorSub: string, createdAt: Time, resolved: bool, resolvedBy: string,
    resolvedAt: Time, status: Status, comments: seq<Comment>)

  datatype Event = Event(
    op: Op, repo: string, thread: Option<Thread>, comment: Option<Comment>,
    threads: seq<Thread>)

  /** The validated identity of a connection. */
  datatype Principal = Principal(sub: string, orgId: string)

  /** The isolation key: the org when there is one, else the user. */
  function TenantKey(p: Principal): string {
    if p.orgId != "" then p.orgId else "u:" + p.sub
  }

  /** The first comment without a parent. */
  function Root(comments: seq<Comment>): (r: Option<Comment>)
    ensures r.Some? ==> r.value in comments && r.value.parentId == NO_ID
    ensures r.None? <==> forall c :: c in comments ==> c.parentId != NO_ID
  {
    if comments == [] then None
    else if comments[0].parentId == NO_ID then Some(comments[0])
    else Root(comments[1..])
  }

  /** The part of a thread that no operation may change. */
  ghost predicate SameIdentity(t: Thread, u: Thread) {
    && t.id == u.id && t.orgId == u.orgId && t.workspaceId == u.workspaceId
    && t.specPath == u.specPath && t.authorSub == u.authorSub && t.createdAt == u.createdAt
  }
}
