/** The agent-session manager: the ordered manifest of threads, the active thread,
    and the archive cascades driven by task lifecycles (internal/agentsession/sessions.go). */
module SessionManager {
  import opened Common

  /** Thread and task ids; 0 stands for the empty string. */
  type Id = nat

  datatype Thread = Thread(id: Id, name: string, created: int, updated: int, archived: bool, auto: bool)

  datatype Error = Success | NotFound | NotArchived | CannotActivate

  datatype State = State(threads: seq<Thread>, active: Id)

  // ----- the manifest -----

  ghost predicate Sorted(ts: seq<Thread>) {
    forall i, j :: 0 <= i < j < |ts| ==> ts[i].created <= ts[j].created
  }

  ghost predicate UniqueIds(ts: seq<Thread>) {
    && (forall i :: 0 <= i < |ts| ==> ts[i].id != 0)
    && (forall i, j :: 0 <= i < j < |ts| ==> ts[i].id != ts[j].id)
  }

  ghost predicate Visible(ts: seq<Thread>, id: Id) {
    exists i :: 0 <= i < |ts| && ts[i].id == id && !ts[i].archived
  }

  /** The active thread is none or a visible one of the manifest. */
  ghost predicate Valid(s: State) {
    UniqueIds(s.threads) && Sorted(s.threads) && (s.active == 0 || Visible(s.threads, s.active))
  }

  function Find(ts: seq<Thread>, id: Id): (r: Option<nat>)
    ensures r.Some? ==> r.value < |ts| && ts[r.value].id == id
    ensures r.None? ==> forall i :: 0 <= i < |ts| ==> ts[i].id != id
  {
    if ts == [] then None
    else if ts[0].id == id then Some(0)
    else
      var r := Find(ts[1..], id);
      if r.None? then None else Some(r.value + 1)
  }

  function FirstVisible(ts: seq<Thread>): Id {
    if ts == [] then 0 else if !ts[0].archived then ts[0].id else FirstVisible(ts[1..])
  }

  /** FirstVisible is 0 exactly when nothing is visible, and otherwise names the
      visible thread before which all are archived. */
  lemma {:induction false} FirstVisibleIs(ts: seq<Thread>)
    requires UniqueIds(ts)
    ensures var v := FirstVisible(ts);
      && (v == 0 <==> forall i :: 0 <= i < |ts| ==> ts[i].archived)
      && (v != 0 ==> exists i :: 0 <= i < |ts| && ts[i].id == v && !ts[i].archived && forall j :: 0 <= j < i ==> ts[j].archived)
  {
    if ts != [] {
      if !ts[0].archived {
        assert ts[0].id == FirstVisible(ts);
      } else {
        var rest := ts[1..];
        assert forall i :: 0 <= i < |rest| ==> rest[i] == ts[i + 1];
        FirstVisibleIs(rest);
        if FirstVisible(rest) != 0 {
          var i :| 0 <= i < |rest| && rest[i].id == FirstVisible(rest) && !rest[i].archived && forall j :: 0 <= j < i ==> rest[j].archived;
          assert ts[i + 1] == rest[i];
          assert forall j :: 0 < j < i + 1 ==> ts[j] == rest[j - 1];
        } else {
          assert forall i :: 0 < i < |ts| ==> ts[i] == rest[i - 1];
        }
      }
    }
  }

  /** Archiving a thread that is not the first visible one leaves that one first. */
  lemma {:induction false} FirstVisibleStays(ts: seq<Thread>, k: nat, t: Thread)
    requires UniqueIds(ts) && k < |ts| && t.id == ts[k].id && t.archived && FirstVisible(ts) != t.id
    ensures FirstVisible(ts[k := t]) == FirstVisible(ts)
    decreases |ts|
  {
    var us := ts[k := t];
    if k == 0 {
      assert us[1..] == ts[1..];
    } else {
      assert us[1..] == ts[1..][k - 1 := t];
      if ts[0].archived {
        FirstVisibleStays(ts[1..], k - 1, t);
      }
    }
  }

  // ----- stable sort by creation time -----

  function Slot(ts: seq<Thread>, t: Thread): (p: nat)
    ensures p <= |ts|
    ensures forall i :: p <= i < |ts| ==> ts[i].created > t.created
    ensures p > 0 ==> ts[p - 1].created <= t.created
  {
    if ts == [] || ts[|ts| - 1].created <= t.created then |ts| else Slot(ts[..|ts| - 1], t)
  }

  function Insert(ts: seq<Thread>, t: Thread): seq<Thread> {
    ts[..Slot(ts, t)] + [t] + ts[Slot(ts, t)..]
  }

  function StableSort(ts: seq<Thread>): seq<Thread>
    decreases |ts|
  {
    if ts == [] then [] else Insert(StableSort(ts[..|ts| - 1]), ts[|ts| - 1])
  }

  lemma InsertLast(ts: seq<Thread>, t: Thread)
    requires ts == [] || ts[|ts| - 1].created <= t.created
    ensures Insert(ts, t) == ts + [t]
  {
    assert Slot(ts, t) == |ts|;
  }

  lemma {:induction false} SortedIsFixed(ts: seq<Thread>)
    requires Sorted(ts)
    ensures StableSort(ts) == ts
    decreases |ts|
  {
    hide Insert;
    if ts != [] {
      var front, last := ts[..|ts| - 1], ts[|ts| - 1];
      SortedIsFixed(front);
      InsertLast(front, last);
    }
  }

  lemma InsertElements(ts: seq<Thread>, t: Thread)
    ensures var p := Slot(ts, t); var us := Insert(ts, t);
      && |us| == |ts| + 1 && us[p] == t
      && (forall i :: 0 <= i < p ==> us[i] == ts[i])
      && (forall i :: p < i < |us| ==> us[i] == ts[i - 1])
  {
    hide Slot;
  }

  lemma InsertIsSort(ts: seq<Thread>, t: Thread)
    requires Sorted(ts)
    ensures StableSort(ts + [t]) == Insert(ts, t)
  {
    hide Insert;
    assert (ts + [t])[..|ts|] == ts;
    SortedIsFixed(ts);
  }

  lemma InsertSorts(ts: seq<Thread>, t: Thread)
    requires Sorted(ts)
    ensures Sorted(Insert(ts, t))
  {
    hide Slot, Insert;
    InsertElements(ts, t);
    var p := Slot(ts, t);
    var us := Insert(ts, t);
    forall i, j | 0 <= i < j < |us| ensures us[i].created <= us[j].created {
      if i < p == j && p > 0 {
        assert i == p - 1 || ts[i].created <= ts[p - 1].created;
      }
    }
  }

  lemma InsertUnique(ts: seq<Thread>, t: Thread)
    requires UniqueIds(ts) && t.id != 0 && forall i :: 0 <= i < |ts| ==> ts[i].id != t.id
    ensures UniqueIds(Insert(ts, t))
  {
    hide Slot, Insert;
    InsertElements(ts, t);
  }

  lemma InsertShows(ts: seq<Thread>, t: Thread, id: Id)
    requires Visible(ts, id)
    ensures Visible(Insert(ts, t), id)
  {
    hide Slot, Insert;
    InsertElements(ts, t);
    var i :| 0 <= i < |ts| && ts[i].id == id && !ts[i].archived;
    assert Insert(ts, t)[if i < Slot(ts, t) then i else i + 1] == ts[i];
  }

  /** Adding a thread keeps the state valid. */
  lemma AddedKeeps(s: State, t: Thread)
    requires Valid(s) && t.id != 0 && forall i :: 0 <= i < |s.threads| ==> s.threads[i].id != t.id
    ensures Valid(Added(s, t)) && StableSort(s.threads + [t]) == Added(s, t).threads
  {
    hide Insert, Sorted, UniqueIds, Visible, StableSort;
    InsertIsSort(s.threads, t);
    InsertSorts(s.threads, t);
    InsertUnique(s.threads, t);
    if s.active != 0 {
      InsertShows(s.threads, t, s.active);
    }
  }

  // ----- default names -----

  function Decimal(n: nat): (r: string)
    ensures r != []
  {
    if n < 10 then [DIGITS[n]] else Decimal(n / 10) + [DIGITS[n % 10]]
  }

  const DIGITS := "0123456789"

  /** The number a string of digits denotes. */
  function ParseDigits(s: string): Option<nat>
    decreases |s|
  {
    if s == [] then Some(0)
    else
      var c := s[|s| - 1];
      var r := ParseDigits(s[..|s| - 1]);
      if r.None? || !('0' <= c <= '9') then None else Some(r.value * 10 + (c as int - '0' as int))
  }

  const PREFIX := "Chat "

  function ParseChat(name: string): Option<nat> {
    if !(PREFIX <= name) || |name| == |PREFIX| then None else ParseDigits(name[|PREFIX|..])
  }

  lemma DigitsAre(d: nat)
    requires d < 10
    ensures '0' <= DIGITS[d] <= '9' && DIGITS[d] as int - '0' as int == d
  {
  }

  lemma {:induction false} ParseDecimal(n: nat)
    ensures ParseDigits(Decimal(n)) == Some(n)
  {
    DigitsAre(n % 10);
    var s := Decimal(n);
    var front := s[..|s| - 1];
    if n < 10 {
      assert front == [];
    } else {
      assert front == Decimal(n / 10);
      ParseDecimal(n / 10);
    }
  }

  lemma ParseDefaultName(n: nat)
    ensures ParseChat(PREFIX + Decimal(n)) == Some(n)
  {
    hide Decimal, ParseDigits;
    var name := PREFIX + Decimal(n);
    assert name[|PREFIX|..] == Decimal(n);
    assert name[..|PREFIX|] == PREFIX;
    ParseDecimal(n);
  }

  /** The digit loop of parseChatN. */
  method ParseChatName(name: string) returns (n: nat, ok: bool)
    ensures ok == ParseChat(name).Some?
    ensures ok ==> ParseChat(name) == Some(n)
  {
    if !(PREFIX <= name) {
      return 0, false;
    }
    n := 0;
    var rest := name[|PREFIX|..];
    if rest == "" {
      return 0, false;
    }
    var i := 0;
    while i < |rest|
      invariant 0 <= i <= |rest| && ParseDigits(rest[..i]) == Some(n)
    {
      assert rest[..i + 1][..i] == rest[..i];
      if rest[i] < '0' || rest[i] > '9' {
        DigitsStop(rest, i);
        return 0, false;
      }
      n := n * 10 + (rest[i] as int - '0' as int);
      i := i + 1;
    }
    assert rest[..i] == rest;
    return n, true;
  }

  lemma {:induction false} DigitsStop(s: string, i: nat)
    requires i < |s| && !('0' <= s[i] <= '9')
    ensures ParseDigits(s).None?
    decreases |s|
  {
    if i < |s| - 1 {
      DigitsStop(s[..|s| - 1], i);
    }
  }

  method NextDefaultName(ts: seq<Thread>) returns (name: string)
    ensures forall i :: 0 <= i < |ts| ==> ts[i].name != name
    ensures exists n: nat :: n > 0 && ParseChat(name) == Some(n) && forall i :: 0 <= i < |ts| && ParseChat(ts[i].name).Some? ==> ParseChat(ts[i].name).value < n
  {
    hide ParseChat, Decimal;
    var highest := 0;
    var i := 0;
    while i < |ts|
      invariant 0 <= i <= |ts|
      invariant forall j :: 0 <= j < i && ParseChat(ts[j].name).Some? ==> ParseChat(ts[j].name).value <= highest
    {
      var n, ok := ParseChatName(ts[i].name);
      if ok && n > highest {
        highest := n;
      }
      i := i + 1;
    }
    name := PREFIX + Decimal(highest + 1);
    ParseDefaultName(highest + 1);
  }

  // ----- operations as functions of the state -----

  function ArchiveOne(s: State, id: Id, now: int): State {
    var i := Find(s.threads, id);
    if i.None? then s else
      var ts := s.threads[i.value := s.threads[i.value].(archived := true, updated := now)];
      State(ts, if s.active == id then FirstVisible(ts) else s.active)
  }

  function UnarchiveOne(s: State, id: Id, now: int): State {
    var i := Find(s.threads, id);
    if i.None? then s else s.(threads := s.threads[i.value := s.threads[i.value].(archived := false, updated := now)])
  }

  function DeleteOne(s: State, id: Id): State {
    var i := Find(s.threads, id);
    if i.None? || !s.threads[i.value].archived then s
    else s.(threads := s.threads[..i.value] + s.threads[i.value + 1..])
  }

  function Activate(s: State, id: Id): State {
    var i := Find(s.threads, id);
    if i.None? || s.threads[i.value].archived then s else s.(active := id)
  }

  function Added(s: State, t: Thread): State {
    s.(threads := Insert(s.threads, t))
  }

  /** The task each readable session is pinned to (0: to none). */
  type Pins = map<Id, Id>

  predicate Pinned(pins: Pins, id: Id, task: Id) {
    id in pins && pins[id] == task
  }

  predicate ArchiveHit(t: Thread, pins: Pins, task: Id) {
    !t.archived && !t.auto && Pinned(pins, t.id, task)
  }

  predicate UnarchiveHit(t: Thread, pins: Pins, task: Id) {
    t.archived && t.auto && Pinned(pins, t.id, task)
  }

  function CascadeArchived(t: Thread, pins: Pins, task: Id, now: int): Thread {
    if ArchiveHit(t, pins, task) then t.(archived := true, auto := true, updated := now) else t
  }

  function CascadeUnarchived(t: Thread, pins: Pins, task: Id, now: int): Thread {
    if UnarchiveHit(t, pins, task) then t.(archived := false, auto := false, updated := now) else t
  }

  ghost predicate IsCascadeArchive(s: State, s': State, pins: Pins, task: Id, now: int) {
    && |s'.threads| == |s.threads|
    && (forall i :: 0 <= i < |s.threads| ==> s'.threads[i] == CascadeArchived(s.threads[i], pins, task, now))
    && s'.active == (if exists i :: 0 <= i < |s.threads| && s.threads[i].id == s.active && ArchiveHit(s.threads[i], pins, task)
                     then FirstVisible(s'.threads) else s.active)
  }

  ghost predicate IsCascadeUnarchive(s: State, s': State, pins: Pins, task: Id, now: int) {
    && |s'.threads| == |s.threads|
    && (forall i :: 0 <= i < |s.threads| ==> s'.threads[i] == CascadeUnarchived(s.threads[i], pins, task, now))
    && s'.active == s.active
  }

  // ----- validity -----

  lemma SameIds(ts: seq<Thread>, us: seq<Thread>)
    requires UniqueIds(ts) && Sorted(ts) && |us| == |ts|
    requires forall i :: 0 <= i < |ts| ==> us[i].id == ts[i].id && us[i].created == ts[i].created
    ensures UniqueIds(us) && Sorted(us)
  {
  }

  lemma ArchiveKeeps(s: State, id: Id, now: int)
    requires Valid(s)
    ensures Valid(ArchiveOne(s, id, now))
    ensures Find(s.threads, id).Some? ==> !Visible(ArchiveOne(s, id, now).threads, id)
  {
    hide Find, FirstVisible;
    var i := Find(s.threads, id);
    if i.Some? {
      var s' := ArchiveOne(s, id, now);
      SameIds(s.threads, s'.threads);
      FirstVisibleIs(s'.threads);
      if s.active != id && s.active != 0 {
        var k :| 0 <= k < |s.threads| && s.threads[k].id == s.active && !s.threads[k].archived;
        assert s'.threads[k] == s.threads[k];
      }
    }
  }

  lemma UnarchiveKeeps(s: State, id: Id, now: int)
    requires Valid(s)
    ensures Valid(UnarchiveOne(s, id, now))
  {
    hide Find;
    var i := Find(s.threads, id);
    if i.Some? {
      var s' := UnarchiveOne(s, id, now);
      SameIds(s.threads, s'.threads);
      if s.active != 0 {
        var k :| 0 <= k < |s.threads| && s.threads[k].id == s.active && !s.threads[k].archived;
        assert s'.threads[k].id == s.active && !s'.threads[k].archived;
      }
    }
  }

  lemma DeleteKeeps(s: State, id: Id)
    requires Valid(s)
    ensures Valid(DeleteOne(s, id))
  {
    hide Find;
    var i := Find(s.threads, id);
    if i.Some? && s.threads[i.value].archived {
      var s' := DeleteOne(s, id);
      assert forall k :: 0 <= k < i.value ==> s'.threads[k] == s.threads[k];
      assert forall k :: i.value <= k < |s'.threads| ==> s'.threads[k] == s.threads[k + 1];
      if s.active != 0 {
        var k :| 0 <= k < |s.threads| && s.threads[k].id == s.active && !s.threads[k].archived;
        if k < i.value {
          assert s'.threads[k] == s.threads[k];
        } else {
          assert s'.threads[k - 1] == s.threads[k];
        }
      }
    }
  }

  lemma ActivateKeeps(s: State, id: Id)
    requires Valid(s)
    ensures Valid(Activate(s, id))
  {
    hide Find;
  }

  lemma CascadeArchiveKeeps(s: State, s': State, pins: Pins, task: Id, now: int)
    requires Valid(s) && IsCascadeArchive(s, s', pins, task, now)
    ensures Valid(s')
  {
    hide FirstVisible;
    SameIds(s.threads, s'.threads);
    FirstVisibleIs(s'.threads);
    if s'.active != 0 && s'.active == s.active {
      var k :| 0 <= k < |s.threads| && s.threads[k].id == s.active && !s.threads[k].archived;
      assert s'.threads[k].id == s.active;
    }
  }

  lemma CascadeUnarchiveKeeps(s: State, s': State, pins: Pins, task: Id, now: int)
    requires Valid(s) && IsCascadeUnarchive(s, s', pins, task, now)
    ensures Valid(s')
  {
    SameIds(s.threads, s'.threads);
    if s.active != 0 {
      var k :| 0 <= k < |s.threads| && s.threads[k].id == s.active && !s.threads[k].archived;
      assert s'.threads[k] == s.threads[k];
    }
  }

  datatype Op =
    | Create(t: Thread) | Archive(id: Id, now: int) | Unarchive(id: Id, now: int) | Delete(id: Id)
    | SetActive(id: Id) | CascadeArchive(pins: Pins, task: Id, now: int) | CascadeUnarchive(pins: Pins, task: Id, now: int)

  ghost predicate Step(s: State, op: Op, s': State) {
    match op
    case Create(t) => t.id != 0 && (forall i :: 0 <= i < |s.threads| ==> s.threads[i].id != t.id) && s' == Added(s, t)
    case Archive(id, now) => s' == ArchiveOne(s, id, now)
    case Unarchive(id, now) => s' == UnarchiveOne(s, id, now)
    case Delete(id) => s' == DeleteOne(s, id)
    case SetActive(id) => s' == Activate(s, id)
    case CascadeArchive(pins, task, now) => IsCascadeArchive(s, s', pins, task, now)
    case CascadeUnarchive(pins, task, now) => IsCascadeUnarchive(s, s', pins, task, now)
  }

  lemma StepKeeps(s: State, op: Op, s': State)
    requires Valid(s) && Step(s, op, s')
    ensures Valid(s')
  {
    hide Valid, Added, ArchiveOne, UnarchiveOne, DeleteOne, Activate, IsCascadeArchive, IsCascadeUnarchive;
    match op
    case Create(t) => AddedKeeps(s, t);
    case Archive(id, now) => ArchiveKeeps(s, id, now);
    case Unarchive(id, now) => UnarchiveKeeps(s, id, now);
    case Delete(id) => DeleteKeeps(s, id);
    case SetActive(id) => ActivateKeeps(s, id);
    case CascadeArchive(pins, task, now) => CascadeArchiveKeeps(s, s', pins, task, now);
    case CascadeUnarchive(pins, task, now) => CascadeUnarchiveKeeps(s, s', pins, task, now);
  }

  ghost predicate StepAt(states: seq<State>, ops: seq<Op>, k: nat)
    requires |states| == |ops| + 1
  {
    k < |ops| ==> Step(states[k], ops[k], states[k + 1])
  }

  /** Every run of operations keeps the active thread empty or visible. */
  lemma {:induction false} RunKeepsValid(states: seq<State>, ops: seq<Op>, k: nat)
    requires |states| == |ops| + 1 && k <= |ops| && Valid(states[0])
    requires forall j: nat :: j < |ops| ==> StepAt(states, ops, j)
    ensures Valid(states[k])
    decreases k
  {
    hide Valid, Step;
    if k > 0 {
      RunKeepsValid(states, ops, k - 1);
      assert StepAt(states, ops, k - 1);
      StepKeeps(states[k - 1], ops[k - 1], states[k]);
    }
  }

  // ----- laws of the cascades -----

  ghost predicate SameFlags(s: State, s': State) {
    && |s.threads| == |s'.threads|
    && forall i :: 0 <= i < |s.threads| ==>
      s'.threads[i].id == s.threads[i].id && s'.threads[i].archived == s.threads[i].archived && s'.threads[i].auto == s.threads[i].auto
  }

  /** Archiving a task's threads and unarchiving them again restores every flag
      exactly when none of them had been archived by a cascade before. */
  lemma CascadeRoundTrip(s: State, s1: State, s2: State, pins: Pins, task: Id, now: int, later: int)
    requires IsCascadeArchive(s, s1, pins, task, now) && IsCascadeUnarchive(s1, s2, pins, task, later)
    ensures SameFlags(s, s2) <==> forall i :: 0 <= i < |s.threads| ==> !UnarchiveHit(s.threads[i], pins, task)
  {
    hide FirstVisible;
    if i :| 0 <= i < |s.threads| && UnarchiveHit(s.threads[i], pins, task) {
      assert s2.threads[i] == CascadeUnarchived(s1.threads[i], pins, task, later);
    }
  }

  datatype Cascade = ArchiveFor(pins: Pins, task: Id, now: int) | UnarchiveFor(pins: Pins, task: Id, now: int)

  ghost predicate IsCascade(s: State, c: Cascade, s': State) {
    match c
    case ArchiveFor(pins, task, now) => IsCascadeArchive(s, s', pins, task, now)
    case UnarchiveFor(pins, task, now) => IsCascadeUnarchive(s, s', pins, task, now)
  }

  ghost predicate CascadeAt(states: seq<State>, cs: seq<Cascade>, k: nat)
    requires |states| == |cs| + 1
  {
    k < |cs| ==> IsCascade(states[k], cs[k], states[k + 1])
  }

  /** A thread the user made visible again, still carrying the flag, is untouched by
      every sequence of cascades, whatever its pins become. */
  lemma {:induction false} UserChoiceStays(states: seq<State>, cs: seq<Cascade>, k: nat, i: nat)
    requires |states| == |cs| + 1 && k <= |cs| && i < |states[0].threads|
    requires forall j: nat :: j < |cs| ==> CascadeAt(states, cs, j)
    requires !states[0].threads[i].archived && states[0].threads[i].auto
    ensures i < |states[k].threads| && states[k].threads[i] == states[0].threads[i]
    decreases k
  {
    if k > 0 {
      UserChoiceStays(states, cs, k - 1, i);
      assert CascadeAt(states, cs, k - 1);
    }
  }

  /** Unarchiving a cascade-archived thread by hand makes it such a thread. */
  lemma ManualUnarchiveOverrides(s: State, id: Id, now: int, i: nat)
    requires Find(s.threads, id) == Some(i) && s.threads[i].auto
    ensures var t := UnarchiveOne(s, id, now).threads[i]; !t.archived && t.auto
  {
  }

  /** A manual archive lasts through a cascade-unarchive of a task exactly when the
      thread does not carry the flag or is not pinned to that task. */
  lemma ManualArchiveLastsIff(s: State, id: Id, now: int, s': State, pins: Pins, task: Id, later: int, i: nat)
    requires Find(s.threads, id) == Some(i)
    requires IsCascadeUnarchive(ArchiveOne(s, id, now), s', pins, task, later)
    ensures ArchiveOne(s, id, now).threads[i].archived
    ensures !s'.threads[i].archived <==> s.threads[i].auto && Pinned(pins, id, task)
  {
    var mid := ArchiveOne(s, id, now);
    assert s'.threads[i] == CascadeUnarchived(mid.threads[i], pins, task, later);
  }

  /** Cascade c is about a task the thread is pinned to. */
  predicate Concerns(c: Cascade, id: Id) {
    Pinned(c.pins, id, c.task)
  }

  /** What a sequence of cascades makes of one archived thread: nothing if it does
      not carry the flag; otherwise the last cascade that concerns it decides. */
  ghost predicate ShownAgain(cs: seq<Cascade>, k: nat, id: Id) {
    exists j: nat :: j < k && j < |cs| && cs[j].UnarchiveFor? && Concerns(cs[j], id) && QuietSince(cs, j, k, id)
  }

  ghost predicate QuietSince(cs: seq<Cascade>, j: nat, k: nat, id: Id) {
    forall m :: j < m < k && m < |cs| && cs[m].ArchiveFor? ==> !Concerns(cs[m], id)
  }

  lemma CascadeOne(s: State, c: Cascade, s': State, i: nat)
    requires IsCascade(s, c, s') && i < |s.threads|
    ensures i < |s'.threads| && s'.threads[i] ==
      if c.ArchiveFor? then CascadeArchived(s.threads[i], c.pins, c.task, c.now)
      else CascadeUnarchived(s.threads[i], c.pins, c.task, c.now)
  {
    hide FirstVisible;
  }

  lemma ShownNext(cs: seq<Cascade>, k: nat, id: Id)
    requires k < |cs|
    ensures ShownAgain(cs, k + 1, id) <==>
      if !Concerns(cs[k], id) then ShownAgain(cs, k, id) else cs[k].UnarchiveFor?
  {
    if Concerns(cs[k], id) {
      if cs[k].UnarchiveFor? {
        assert QuietSince(cs, k, k + 1, id);
      }
    } else {
      if ShownAgain(cs, k, id) {
        var j: nat :| j < k && j < |cs| && cs[j].UnarchiveFor? && Concerns(cs[j], id) && QuietSince(cs, j, k, id);
        assert QuietSince(cs, j, k + 1, id);
      }
      if ShownAgain(cs, k + 1, id) {
        var j: nat :| j < k + 1 && j < |cs| && cs[j].UnarchiveFor? && Concerns(cs[j], id) && QuietSince(cs, j, k + 1, id);
        assert QuietSince(cs, j, k, id);
      }
    }
  }

  /** Over any sequence of cascades: an archived thread is visible afterwards exactly
      when it carried the flag and some cascade-unarchive concerned it that no
      concerned cascade-archive followed. */
  lemma {:induction false} ArchivedThroughCascades(states: seq<State>, cs: seq<Cascade>, k: nat, i: nat)
    requires |states| == |cs| + 1 && k <= |cs| && i < |states[0].threads|
    requires forall j: nat :: j < |cs| ==> CascadeAt(states, cs, j)
    requires states[0].threads[i].archived
    ensures i < |states[k].threads| && states[k].threads[i].id == states[0].threads[i].id
    ensures var t0 := states[0].threads[i]; var t := states[k].threads[i];
      && (!t.archived <==> t0.auto && ShownAgain(cs, k, t0.id))
      && (t.auto <==> t.archived && t0.auto)
    decreases k
  {
    hide CascadeAt, ShownAgain, Concerns;
    if k > 0 {
      ArchivedThroughCascades(states, cs, k - 1, i);
      CascadeStep(states, cs, k - 1, i);
      ShownNext(cs, k - 1, states[0].threads[i].id);
    } else {
      NothingShown(cs, states[0].threads[i].id);
    }
  }

  lemma NothingShown(cs: seq<Cascade>, id: Id)
    ensures !ShownAgain(cs, 0, id)
  {
  }

  lemma CascadeStep(states: seq<State>, cs: seq<Cascade>, k: nat, i: nat)
    requires |states| == |cs| + 1 && k < |cs| && CascadeAt(states, cs, k) && i < |states[k].threads|
    ensures i < |states[k + 1].threads|
    ensures var t := states[k].threads[i]; var t' := states[k + 1].threads[i];
      && t'.id == t.id
      && (!Concerns(cs[k], t.id) ==> t' == t)
      && (Concerns(cs[k], t.id) && cs[k].ArchiveFor? ==>
            if !t.archived && !t.auto then t'.archived && t'.auto else t' == t)
      && (Concerns(cs[k], t.id) && cs[k].UnarchiveFor? ==>
            if t.archived && t.auto then !t'.archived && !t'.auto else t' == t)
  {
    CascadeOne(states[k], cs[k], states[k + 1], i);
  }

  // ----- the manager -----

  class Manager {
    var threads: seq<Thread>
    var active: Id

    ghost function Now(): State reads this {
      State(threads, active)
    }

    constructor (s: State)
      ensures Now() == s
    {
      threads, active := s.threads, s.active;
    }

    /** Persist the manifest, sorted by creation time. */
    method WriteManifest()
      modifies `threads
      ensures threads == StableSort(old(threads))
    {
      threads := StableSort(threads);
    }

    method PickVisible()
      modifies `active
      ensures active == FirstVisible(threads)
    {
      active := 0;
      var i := 0;
      while i < |threads|
        invariant 0 <= i <= |threads| && active == 0
        invariant FirstVisible(threads) == FirstVisible(threads[i..])
      {
        assert threads[i..][1..] == threads[i + 1..];
        if !threads[i].archived {
          active := threads[i].id;
          return;
        }
        i := i + 1;
      }
    }

    method IndexOf(id: Id) returns (r: Option<nat>)
      ensures r == Find(threads, id)
    {
      var i := 0;
      while i < |threads|
        invariant 0 <= i <= |threads|
        invariant Find(threads, id) == (var r := Find(threads[i..], id); if r.None? then None else Some(r.value + i))
      {
        assert threads[i..][1..] == threads[i + 1..];
        if threads[i].id == id {
          return Some(i);
        }
        i := i + 1;
      }
      return None;
    }

    /** Repair the stored preference on load. */
    method EnsureValidActive()
      requires UniqueIds(threads) && Sorted(threads)
      modifies `active
      ensures Valid(Now())
      ensures active == if old(active) != 0 && Visible(threads, old(active)) then old(active) else FirstVisible(threads)
    {
      if active != 0 {
        var i := 0;
        while i < |threads|
          invariant 0 <= i <= |threads|
          invariant forall j :: 0 <= j < i ==> !(threads[j].id == active && !threads[j].archived)
        {
          if threads[i].id == active && !threads[i].archived {
            return;
          }
          i := i + 1;
        }
      }
      FirstVisibleIs(threads);
      PickVisible();
    }

    method Create(name: string, id: Id, now: int) returns (t: Thread)
      requires Valid(Now()) && id != 0 && forall i :: 0 <= i < |threads| ==> threads[i].id != id
      modifies this
      ensures Valid(Now()) && Now() == Added(old(Now()), t)
      ensures t == Thread(id, t.name, now, now, false, false)
      ensures if name != "" then t.name == name else forall i :: 0 <= i < |old(threads)| ==> old(threads)[i].name != t.name
    {
      var n := name;
      if n == "" {
        n := NextDefaultName(threads);
      }
      t := Thread(id, n, now, now, false, false);
      AddedKeeps(Now(), t);
      threads := threads + [t];
      WriteManifest();
    }

    method Archive(id: Id, now: int) returns (e: Error)
      requires Valid(Now())
      modifies this
      ensures Valid(Now()) && Now() == ArchiveOne(old(Now()), id, now)
      ensures e == if Find(old(threads), id).None? then NotFound else Success
    {
      ArchiveKeeps(Now(), id, now);
      hide Find, FirstVisible, StableSort;
      var i := IndexOf(id);
      if i.None? {
        return NotFound;
      }
      threads := threads[i.value := threads[i.value].(archived := true, updated := now)];
      SortedIsFixed(threads);
      WriteManifest();
      if active == id {
        PickVisible();
      }
      return Success;
    }

    method Unarchive(id: Id, now: int) returns (e: Error)
      requires Valid(Now())
      modifies this
      ensures Valid(Now()) && Now() == UnarchiveOne(old(Now()), id, now)
      ensures e == if Find(old(threads), id).None? then NotFound else Success
    {
      UnarchiveKeeps(Now(), id, now);
      hide Find, FirstVisible, StableSort;
      var i := IndexOf(id);
      if i.None? {
        return NotFound;
      }
      threads := threads[i.value := threads[i.value].(archived := false, updated := now)];
      SortedIsFixed(threads);
      WriteManifest();
      return Success;
    }

    method Delete(id: Id) returns (e: Error)
      requires Valid(Now())
      modifies this
      ensures Valid(Now()) && Now() == DeleteOne(old(Now()), id)
      ensures e == (var i := Find(old(threads), id); if i.None? then NotFound else if !old(threads)[i.value].archived then NotArchived else Success)
    {
      DeleteKeeps(Now(), id);
      hide Find, StableSort;
      var i := IndexOf(id);
      if i.None? {
        return NotFound;
      }
      if !threads[i.value].archived {
        return NotArchived;
      }
      threads := threads[..i.value] + threads[i.value + 1..];
      SortedIsFixed(threads);
      WriteManifest();
      return Success;
    }

    method SetActiveId(id: Id) returns (e: Error)
      requires Valid(Now())
      modifies this
      ensures Valid(Now()) && Now() == Activate(old(Now()), id)
      ensures e == (var i := Find(threads, id); if i.None? then NotFound else if threads[i.value].archived then CannotActivate else Success)
    {
      ActivateKeeps(Now(), id);
      hide Find;
      var i := IndexOf(id);
      if i.None? {
        return NotFound;
      }
      if threads[i.value].archived {
        return CannotActivate;
      }
      active := id;
      return Success;
    }

    /** Archive one candidate of a cascade, moving the active thread off it. */
    method MarkArchived(k: nat, now: int)
      requires UniqueIds(threads) && Sorted(threads) && k < |threads| && !threads[k].archived
      modifies this
      ensures threads == old(threads)[k := old(threads)[k].(archived := true, auto := true, updated := now)]
      ensures active == if old(active) == old(threads)[k].id then FirstVisible(threads) else old(active)
    {
      hide FirstVisible, StableSort;
      var id := threads[k].id;
      threads := threads[k := threads[k].(archived := true, auto := true, updated := now)];
      if active == id {
        PickVisible();
      }
      SortedIsFixed(threads);
      WriteManifest();
    }

    method ArchiveCandidates() returns (ids: seq<Id>)
      requires UniqueIds(threads)
      ensures forall i :: 0 <= i < |threads| ==> (threads[i].id in ids <==> !threads[i].archived && !threads[i].auto)
    {
      ids := [];
      var i := 0;
      while i < |threads|
        invariant 0 <= i <= |threads|
        invariant forall j :: 0 <= j < i ==> (threads[j].id in ids <==> !threads[j].archived && !threads[j].auto)
        invariant forall j :: i <= j < |threads| ==> threads[j].id !in ids
      {
        if !threads[i].archived && !threads[i].auto {
          ids := ids + [threads[i].id];
        }
        i := i + 1;
      }
    }

    method UnarchiveCandidates() returns (ids: seq<Id>)
      requires UniqueIds(threads)
      ensures forall i :: 0 <= i < |threads| ==> (threads[i].id in ids <==> threads[i].archived && threads[i].auto)
    {
      ids := [];
      var i := 0;
      while i < |threads|
        invariant 0 <= i <= |threads|
        invariant forall j :: 0 <= j < i ==> (threads[j].id in ids <==> threads[j].archived && threads[j].auto)
        invariant forall j :: i <= j < |threads| ==> threads[j].id !in ids
      {
        if threads[i].archived && threads[i].auto {
          ids := ids + [threads[i].id];
        }
        i := i + 1;
      }
    }

    /** Archive every visible, unflagged thread pinned to a given task. */
    method CascadeArchiveForTask(pins: Pins, task: Id, now: int)
      requires Valid(Now())
      modifies this
      ensures Valid(Now()) && IsCascadeArchive(old(Now()), Now(), pins, task, now)
    {
      hide Find, FirstVisible;
      ghost var s := Now();
      var ids := ArchiveCandidates();
      var n := 0;
      while n < |ids|
        invariant 0 <= n <= |ids| && Archiving(s, Now(), ids, n, pins, task, now)
      {
        var id := ids[n];
        if id in pins && pins[id] == task {
          var k := IndexOf(id);
          ArchivingIds(s, Now(), ids, n, pins, task, now);
          ghost var before := Now();
          if k.Some? && !threads[k.value].archived {
            MarkArchived(k.value, now);
          }
          ArchivingStep(s, before, Now(), ids, n, pins, task, now);
        } else {
          ArchivingSkip(s, Now(), ids, n, pins, task, now);
        }
        n := n + 1;
      }
      ArchivingEnds(s, Now(), ids, pins, task, now);
      CascadeArchiveKeeps(s, Now(), pins, task, now);
    }

    /** Unarchive every cascade-archived thread pinned to a given task. */
    method CascadeUnarchiveForTask(pins: Pins, task: Id, now: int)
      requires Valid(Now())
      modifies this
      ensures Valid(Now()) && IsCascadeUnarchive(old(Now()), Now(), pins, task, now)
    {
      hide Find, FirstVisible, StableSort;
      ghost var s := Now();
      var ids := UnarchiveCandidates();
      var n := 0;
      while n < |ids|
        invariant 0 <= n <= |ids| && active == s.active && Unarchiving(s.threads, threads, ids, n, pins, task, now)
      {
        var id := ids[n];
        if id in pins && pins[id] == task {
          var k := IndexOf(id);
          SameIds(s.threads, threads);
          ghost var before := threads;
          if k.Some? && threads[k.value].auto {
            threads := threads[k.value := threads[k.value].(archived := false, auto := false, updated := now)];
            SameIds(s.threads, threads);
            SortedIsFixed(threads);
            WriteManifest();
          }
          UnarchivingStep(s.threads, before, threads, ids, n, pins, task, now);
        } else {
          UnarchivingSkip(s.threads, threads, ids, n, pins, task, now);
        }
        n := n + 1;
      }
      assert ids[..n] == ids;
      CascadeUnarchiveKeeps(s, Now(), pins, task, now);
    }
  }

  // ----- the loops of the cascades -----

  /** The first n candidates have been dealt with. */
  ghost predicate Unarchiving(ts: seq<Thread>, us: seq<Thread>, ids: seq<Id>, n: nat, pins: Pins, task: Id, now: int) {
    && n <= |ids| && |us| == |ts|
    && (forall i :: 0 <= i < |ts| ==> (ts[i].id in ids <==> ts[i].archived && ts[i].auto))
    && (forall i :: 0 <= i < |ts| ==> us[i] == if ts[i].id in ids[..n] then CascadeUnarchived(ts[i], pins, task, now) else ts[i])
  }

  lemma TakeOne(ids: seq<Id>, n: nat)
    requires n < |ids|
    ensures forall x :: x in ids[..n + 1] <==> x in ids[..n] || x == ids[n]
    ensures ids[n] in ids
  {
    assert ids[..n + 1] == ids[..n] + [ids[n]];
  }

  lemma UnarchivingStep(ts: seq<Thread>, us: seq<Thread>, vs: seq<Thread>, ids: seq<Id>, n: nat, pins: Pins, task: Id, now: int)
    requires n < |ids| && UniqueIds(ts) && Unarchiving(ts, us, ids, n, pins, task, now) && Pinned(pins, ids[n], task)
    requires var k := Find(us, ids[n]);
      vs == if k.Some? && us[k.value].auto then us[k.value := us[k.value].(archived := false, auto := false, updated := now)] else us
    ensures Unarchiving(ts, vs, ids, n + 1, pins, task, now)
  {
    hide Find;
    TakeOne(ids, n);
  }

  lemma UnarchivingSkip(ts: seq<Thread>, us: seq<Thread>, ids: seq<Id>, n: nat, pins: Pins, task: Id, now: int)
    requires n < |ids| && Unarchiving(ts, us, ids, n, pins, task, now) && !Pinned(pins, ids[n], task)
    ensures Unarchiving(ts, us, ids, n + 1, pins, task, now)
  {
    TakeOne(ids, n);
  }

  ghost predicate ActiveHit(s: State, ids: seq<Id>, pins: Pins, task: Id) {
    s.active in ids && exists i :: 0 <= i < |s.threads| && s.threads[i].id == s.active && ArchiveHit(s.threads[i], pins, task)
  }

  ghost predicate Archiving(s: State, s': State, ids: seq<Id>, n: nat, pins: Pins, task: Id, now: int) {
    && n <= |ids| && |s'.threads| == |s.threads|
    && (forall i :: 0 <= i < |s.threads| ==> (s.threads[i].id in ids <==> !s.threads[i].archived && !s.threads[i].auto))
    && (forall i :: 0 <= i < |s.threads| ==>
      s'.threads[i] == if s.threads[i].id in ids[..n] then CascadeArchived(s.threads[i], pins, task, now) else s.threads[i])
    && s'.active == if ActiveHit(s, ids[..n], pins, task) then FirstVisible(s'.threads) else s.active
  }

  lemma ArchivingIds(s: State, s': State, ids: seq<Id>, n: nat, pins: Pins, task: Id, now: int)
    requires UniqueIds(s.threads) && Sorted(s.threads) && Archiving(s, s', ids, n, pins, task, now)
    ensures UniqueIds(s'.threads) && Sorted(s'.threads)
  {
    hide FirstVisible;
    SameIds(s.threads, s'.threads);
  }

  lemma ArchivingStep(s: State, t: State, u: State, ids: seq<Id>, n: nat, pins: Pins, task: Id, now: int)
    requires n < |ids| && Valid(s) && UniqueIds(t.threads) && Archiving(s, t, ids, n, pins, task, now) && Pinned(pins, ids[n], task)
    requires var k := Find(t.threads, ids[n]);
      if k.Some? && !t.threads[k.value].archived then
        && u.threads == t.threads[k.value := t.threads[k.value].(archived := true, auto := true, updated := now)]
        && u.active == (if t.active == ids[n] then FirstVisible(u.threads) else t.active)
      else u == t
    ensures Archiving(s, u, ids, n + 1, pins, task, now)
  {
    hide Find, FirstVisible;
    TakeOne(ids, n);
    var k := Find(t.threads, ids[n]);
    if k.Some? && !t.threads[k.value].archived {
      if t.active != ids[n] && ActiveHit(s, ids[..n], pins, task) {
        FirstVisibleStays(t.threads, k.value, u.threads[k.value]);
      }
    }
  }

  lemma ArchivingSkip(s: State, s': State, ids: seq<Id>, n: nat, pins: Pins, task: Id, now: int)
    requires n < |ids| && Archiving(s, s', ids, n, pins, task, now) && !Pinned(pins, ids[n], task)
    ensures Archiving(s, s', ids, n + 1, pins, task, now)
  {
    hide FirstVisible;
    TakeOne(ids, n);
  }

  lemma ArchivingEnds(s: State, s': State, ids: seq<Id>, pins: Pins, task: Id, now: int)
    requires Archiving(s, s', ids, |ids|, pins, task, now)
    ensures IsCascadeArchive(s, s', pins, task, now)
  {
    hide FirstVisible;
    assert ids[..|ids|] == ids;
  }
}
