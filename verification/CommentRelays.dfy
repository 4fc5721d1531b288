/** The instance side of the relay: a cache of the threads the coordinator
    pushes (internal/handler/commentrelay.go). */
module CommentRelays {
  import opened Common
  import opened SpecComments
  import opened CommentOps
  import opened CommentStores

  /** repo -> thread id -> thread */
  type Cache = map<string, Threads>

  function Lookup(cache: Cache, repo: string): Threads {
    if repo in cache then cache[repo] else map[]
  }

  /** The threads of a sync frame indexed by id; a later duplicate wins. */
  function ById(ts: seq<Thread>): Threads
    decreases |ts|
  {
    if ts == [] then map[] else ById(ts[..|ts| - 1])[ts[|ts| - 1].id := ts[|ts| - 1]]
  }

  function RepoOf(ev: Event): string
    requires ev.thread.Some?
  {
    if ev.thread.value.workspaceId == "" then ev.repo else ev.thread.value.workspaceId
  }

  /** A sync replaces the whole set of a repo; anything else upserts one thread. */
  function Fold(cache: Cache, ev: Event): Cache {
    if ev.op == OpSync then cache[ev.repo := ById(ev.threads)]
    else if ev.thread.None? then cache
    else cache[RepoOf(ev) := Lookup(cache, RepoOf(ev))[ev.thread.value.id := ev.thread.value]]
  }

  /** The cache after every queued frame has been handled in order. */
  function Drain(cache: Cache, queue: seq<Event>): Cache
    decreases |queue|
  {
    if queue == [] then cache else Fold(Drain(cache, queue[..|queue| - 1]), queue[|queue| - 1])
  }

  lemma DrainAppend(cache: Cache, queue: seq<Event>, ev: Event)
    ensures Drain(cache, queue + [ev]) == Fold(Drain(cache, queue), ev)
  {
    assert (queue + [ev])[..|queue|] == queue;
  }

  /** Handling the oldest frame first changes nothing about the drained result. */
  lemma {:induction false} DrainHead(cache: Cache, queue: seq<Event>)
    requires queue != []
    ensures Drain(Fold(cache, queue[0]), queue[1..]) == Drain(cache, queue)
    decreases |queue|
  {
    var last := |queue| - 1;
    if last == 0 {
      assert queue[..0] == [] && queue[1..] == [];
    } else {
      DrainHead(cache, queue[..last]);
      assert queue[..last][1..] == queue[1..][..last - 1];
      assert queue[..last][0] == queue[0];
      assert queue[1..][last - 1] == queue[last];
    }
  }

  ghost predicate KeyedThreads(ts: Threads) {
    forall id :: id in ts ==> ts[id].id == id
  }

  ghost predicate KeyedCache(cache: Cache) {
    forall repo :: repo in cache ==> KeyedThreads(cache[repo])
  }

  lemma {:induction false} ByIdIsKeyed(ts: seq<Thread>)
    ensures KeyedThreads(ById(ts))
    ensures forall id :: id in ById(ts) ==> ById(ts)[id] in ts
    ensures forall k :: 0 <= k < |ts| ==> ts[k].id in ById(ts)
    decreases |ts|
  {
    if ts != [] {
      ByIdIsKeyed(ts[..|ts| - 1]);
    }
  }

  class CommentRelay {
    var threads: Cache

    constructor ()
      ensures threads == map[]
    {
      threads := map[];
    }

    method Apply(ev: Event)
      modifies this
      ensures threads == Fold(old(threads), ev)
    {
      if ev.op == OpSync {
        var m: Threads := map[];
        var i := 0;
        while i < |ev.threads|
          invariant 0 <= i <= |ev.threads|
          invariant m == ById(ev.threads[..i])
        {
          m := m[ev.threads[i].id := ev.threads[i]];
          i := i + 1;
          assert ev.threads[..i][..i - 1] == ev.threads[..i - 1];
        }
        assert ev.threads[..i] == ev.threads;
        threads := threads[ev.repo := m];
      } else {
        if ev.thread.None? {
          return;
        }
        var repo := ev.thread.value.workspaceId;
        if repo == "" {
          repo := ev.repo;
        }
        if repo !in threads {
          threads := threads[repo := map[]];
        }
        var m: Threads := threads[repo];
        m := m[ev.thread.value.id := ev.thread.value];
        threads := threads[repo := m];
      }
    }

    /** The cached threads of a repo, sorted by id. */
    method ThreadsForRepo(repo: string) returns (out: seq<Thread>)
      requires KeyedCache(threads)
      ensures SortedById(out)
      ensures forall t :: t in out <==> t.id in Lookup(threads, repo) && Lookup(threads, repo)[t.id] == t
    {
      var m := Lookup(threads, repo);
      var listed: seq<Thread> := [];
      var todo := m.Keys;
      while todo != {}
        invariant todo <= m.Keys
        invariant DistinctIds(listed)
        invariant forall t :: t in listed <==> t.id in m && t.id !in todo && m[t.id] == t
        decreases todo
      {
        var id :| id in todo;
        todo := todo - {id};
        assert m[id].id == id;
        assert forall k :: 0 <= k < |listed| ==> listed[k] in listed;
        listed := listed + [m[id]];
      }
      out := SortById(listed);
    }
  }

  // ----- what a sync frame carries -----

  /** The threads of one tenant and repo, by id: what a cache should hold. */
  ghost function RepoThreads(threads: Threads, org: string, repo: string): Threads {
    map id | id in threads && threads[id].orgId == org && threads[id].workspaceId == repo :: threads[id]
  }

  function SyncFrame(repo: string, ts: seq<Thread>): Event {
    Event(OpSync, repo, None, None, ts)
  }

  function ThreadFrame(op: Op, repo: string, t: Thread): Event {
    Event(op, repo, Some(t), None, [])
  }

  lemma ListedThread(threads: Threads, org: string, repo: string, k: nat)
    requires k < |CommentStores.ThreadsForRepo(threads, org, repo)|
    ensures
      var ids := Ascending(IdsForRepo(threads, org, repo));
      k < |ids| && ids[k] in IdsForRepo(threads, org, repo) &&
      CommentStores.ThreadsForRepo(threads, org, repo)[k] == threads[ids[k]]
  {
    AscendingContents(IdsForRepo(threads, org, repo));
  }

  lemma ThreadIsListed(threads: Threads, org: string, repo: string, id: Id)
    requires id in IdsForRepo(threads, org, repo)
    ensures threads[id] in CommentStores.ThreadsForRepo(threads, org, repo)
  {
    AscendingContents(IdsForRepo(threads, org, repo));
    var ids := Ascending(IdsForRepo(threads, org, repo));
    assert id in ids;
    var k :| 0 <= k < |ids| && ids[k] == id;
    assert CommentStores.ThreadsForRepo(threads, org, repo)[k] == threads[id];
  }

  /** A listing of exactly the values of a keyed map, indexed by id, is that map. */
  lemma IndexRecoversMap(ts: seq<Thread>, m: Threads)
    requires KeyedThreads(m)
    requires forall k :: 0 <= k < |ts| ==> ts[k].id in m && m[ts[k].id] == ts[k]
    requires forall id :: id in m ==> m[id] in ts
    ensures ById(ts) == m
  {
    ByIdIsKeyed(ts);
    forall id ensures id in ById(ts) <==> id in m {
      if id in ById(ts) {
        var k :| 0 <= k < |ts| && ts[k] == ById(ts)[id];
      }
      if id in m {
        var k :| 0 <= k < |ts| && ts[k] == m[id];
        assert ts[k].id in ById(ts);
      }
    }
    forall id | id in ById(ts) ensures ById(ts)[id] == m[id] {
      var k :| 0 <= k < |ts| && ts[k] == ById(ts)[id];
    }
  }

  /** The store's listing for a repo, indexed by id, is that repo's threads. */
  lemma ListingIndexed(threads: Threads, org: string, repo: string)
    requires KeyedThreads(threads)
    ensures ById(CommentStores.ThreadsForRepo(threads, org, repo)) == RepoThreads(threads, org, repo)
  {
    var ts := CommentStores.ThreadsForRepo(threads, org, repo);
    var m := RepoThreads(threads, org, repo);
    forall k | 0 <= k < |ts| ensures ts[k].id in m && m[ts[k].id] == ts[k] {
      ListedThread(threads, org, repo, k);
    }
    forall id | id in m ensures m[id] in ts {
      ThreadIsListed(threads, org, repo, id);
    }
    IndexRecoversMap(ts, m);
  }
}
