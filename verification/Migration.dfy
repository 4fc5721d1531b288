/** Opening a session directory: loading the manifest, or moving a legacy
    single-thread layout into a first thread, with a crash possible between any two
    disk operations (internal/agentsession/sessions.go). */
module Migration {
  import opened Common

  type Id = nat
  type File = Option<string>

  datatype Entry = Entry(id: Id, name: string)

  /** The messages and session files of one directory. */
  datatype Dir = Dir(messages: File, session: File)

  /** The session directory: the root's own two files, the thread directories, and
      the manifest and active files, which are replaced atomically. */
  datatype Disk = Disk(root: Dir, threads: map<Id, Dir>, manifest: Option<seq<Entry>>, active: Option<Id>)

  const FIRST_NAME := "Chat 1"

  /** What the opening process is about to do. */
  datatype Pc =
    | Start
    | MakeDir(id: Id, legacy: bool)
    | CopyMessages(id: Id) | WriteMessages(id: Id)
    | CopySession(id: Id) | WriteSession(id: Id)
    | Commit(id: Id, legacy: bool) | WriteActive(id: Id, legacy: bool)
    | DropMessages(id: Id) | DropSession(id: Id)
    | CleanMessages | CleanSession
    | LoadActive | Repair(active: Id)
    | Done(active: Id)

  datatype State = State(disk: Disk, pc: Pc)

  ghost predicate IsPrefix(f: File, whole: File) {
    f.Some? && whole.Some? && f.value <= whole.value
  }

  function Present(d: Dir): bool {
    d.messages.Some? || d.session.Some?
  }

  function DirOf(d: Disk, id: Id): Dir {
    if id in d.threads then d.threads[id] else Dir(None, None)
  }

  function SetDir(d: Disk, id: Id, dir: Dir): Disk {
    d.(threads := d.threads[id := dir])
  }

  predicate Named(m: seq<Entry>, id: Id) {
    exists i :: 0 <= i < |m| && m[i].id == id
  }

  /** One disk operation, one decision, or a crash. Copying truncates the target and
      then writes it piece by piece: at any time it holds some prefix. */
  ghost predicate Next(s: State, s': State) {
    Crash(s, s') || Proceed(s, s')
  }

  /** The process dies and a new one opens the directory again. */
  ghost predicate Crash(s: State, s': State) {
    s' == State(s.disk, Start)
  }

  ghost predicate Proceed(s: State, s': State) {
    var d, d' := s.disk, s'.disk;
    match s.pc
    case Start =>
      d' == d && if d.manifest.Some? then s'.pc == CleanMessages
        else s'.pc.MakeDir? && s'.pc.id != 0 && s'.pc.id !in d.threads && s'.pc.legacy == Present(d.root)
    case MakeDir(id, legacy) =>
      d' == SetDir(d, id, Dir(None, None)) && s'.pc == if legacy then CopyMessages(id) else Commit(id, false)
    case CopyMessages(id) =>
      if d.root.messages.None? then d' == d && s'.pc == CopySession(id)
      else d' == SetDir(d, id, DirOf(d, id).(messages := Some(""))) && s'.pc == WriteMessages(id)
    case WriteMessages(id) =>
      exists f: File :: IsPrefix(f, d.root.messages) && d' == SetDir(d, id, DirOf(d, id).(messages := f))
        && (s'.pc == s.pc || (f == d.root.messages && s'.pc == CopySession(id)))
    case CopySession(id) =>
      if d.root.session.None? then d' == d && s'.pc == Commit(id, true)
      else d' == SetDir(d, id, DirOf(d, id).(session := Some(""))) && s'.pc == WriteSession(id)
    case WriteSession(id) =>
      exists f: File :: IsPrefix(f, d.root.session) && d' == SetDir(d, id, DirOf(d, id).(session := f))
        && (s'.pc == s.pc || (f == d.root.session && s'.pc == Commit(id, true)))
    case Commit(id, legacy) =>
      d' == d.(manifest := Some([Entry(id, FIRST_NAME)])) && s'.pc == WriteActive(id, legacy)
    case WriteActive(id, legacy) =>
      d' == d.(active := Some(id)) && s'.pc == if legacy then DropMessages(id) else LoadActive
    case DropMessages(id) => d' == d.(root := d.root.(messages := None)) && s'.pc == DropSession(id)
    case DropSession(id) => d' == d.(root := d.root.(session := None)) && s'.pc == LoadActive
    case CleanMessages => d' == d.(root := d.root.(messages := None)) && s'.pc == CleanSession
    case CleanSession => d' == d.(root := d.root.(session := None)) && s'.pc == LoadActive
    case LoadActive => d' == d && s'.pc == Repair(if d.active.Some? then d.active.value else 0)
    case Repair(a) =>
      if d.manifest.None? || d.manifest.value == [] then d' == d && s'.pc == Done(0)
      else if a != 0 && Named(d.manifest.value, a) then d' == d && s'.pc == Done(a)
      else d' == d.(active := Some(d.manifest.value[0].id)) && s'.pc == Done(d.manifest.value[0].id)
    case Done(_) => false
  }

  // ----- what no crash can break -----

  /** The commit has happened: the manifest names one thread and it has it all. */
  ghost predicate Committed(d: Disk, legacy: Dir, id: Id) {
    && id != 0 && d.manifest == Some([Entry(id, FIRST_NAME)])
    && id in d.threads && d.threads[id] == legacy
    && (d.root.messages == legacy.messages || d.root.messages == None)
    && (d.root.session == legacy.session || d.root.session == None)
  }

  /** Before the commit the originals are untouched. */
  ghost predicate Uncommitted(d: Disk, legacy: Dir) {
    d.manifest == None && d.root == legacy
  }

  ghost predicate Intact(d: Disk, legacy: Dir) {
    Uncommitted(d, legacy) || exists id :: Committed(d, legacy, id)
  }

  /** The root directory holds neither of the legacy files. */
  ghost predicate RootClean(d: Disk) {
    d.root == Dir(None, None)
  }

  ghost predicate ThreadIs(d: Disk, id: Id, messages: File, session: File) {
    id in d.threads && d.threads[id] == Dir(messages, session)
  }

  ghost predicate Inv(s: State, legacy: Dir) {
    var d := s.disk;
    match s.pc
    case Start => Intact(d, legacy)
    case MakeDir(id, l) => id != 0 && Uncommitted(d, legacy) && l == Present(legacy)
    case CopyMessages(id) => id != 0 && Uncommitted(d, legacy) && ThreadIs(d, id, None, None)
    case WriteMessages(id) => id != 0 && Uncommitted(d, legacy) && legacy.messages.Some? && id in d.threads && d.threads[id].session == None
    case CopySession(id) => id != 0 && Uncommitted(d, legacy) && ThreadIs(d, id, legacy.messages, None)
    case WriteSession(id) => id != 0 && Uncommitted(d, legacy) && legacy.session.Some? && id in d.threads && d.threads[id].messages == legacy.messages
    case Commit(id, l) => id != 0 && Uncommitted(d, legacy) && ThreadIs(d, id, legacy.messages, legacy.session) && (l || !Present(legacy))
    case WriteActive(id, l) => Committed(d, legacy, id) && (l || RootClean(d))
    case DropMessages(id) => Committed(d, legacy, id)
    case DropSession(id) => Committed(d, legacy, id) && d.root.messages == None
    case CleanMessages => exists id :: Committed(d, legacy, id)
    case CleanSession => d.root.messages == None && exists id :: Committed(d, legacy, id)
    case LoadActive => RootClean(d) && exists id :: Committed(d, legacy, id)
    case Repair(a) => RootClean(d) && (d.active == Some(a) || a == 0) && exists id :: Committed(d, legacy, id)
    case Done(a) => RootClean(d) && Committed(d, legacy, a) && d.active == Some(a)
  }

  lemma InvIsIntact(s: State, legacy: Dir)
    requires Inv(s, legacy)
    ensures Intact(s.disk, legacy)
  {
  }

  lemma EarlyStep(s: State, s': State, legacy: Dir)
    requires Inv(s, legacy) && Proceed(s, s')
    requires s.pc.Start? || s.pc.MakeDir? || s.pc.CopyMessages? || s.pc.WriteMessages? || s.pc.CopySession? || s.pc.WriteSession?
    ensures Inv(s', legacy)
  {
  }

  lemma LateStep(s: State, s': State, legacy: Dir)
    requires Inv(s, legacy) && Proceed(s, s')
    requires s.pc.Commit? || s.pc.WriteActive? || s.pc.DropMessages? || s.pc.DropSession?
    ensures Inv(s', legacy)
  {
    var d := s'.disk;
    assert Committed(d, legacy, s.pc.id);
  }

  lemma LoadStep(s: State, s': State, legacy: Dir)
    requires Inv(s, legacy) && Proceed(s, s')
    requires s.pc.CleanMessages? || s.pc.CleanSession? || s.pc.LoadActive? || s.pc.Repair?
    ensures Inv(s', legacy)
  {
    var id :| Committed(s.disk, legacy, id);
    assert Committed(s'.disk, legacy, id);
  }

  lemma StepKeepsInv(s: State, s': State, legacy: Dir)
    requires Inv(s, legacy) && Next(s, s')
    ensures Inv(s', legacy)
  {
    if Crash(s, s') {
      InvIsIntact(s, legacy);
    } else if s.pc.Start? || s.pc.MakeDir? || s.pc.CopyMessages? || s.pc.WriteMessages? || s.pc.CopySession? || s.pc.WriteSession? {
      EarlyStep(s, s', legacy);
    } else if s.pc.Commit? || s.pc.WriteActive? || s.pc.DropMessages? || s.pc.DropSession? {
      LateStep(s, s', legacy);
    } else {
      LoadStep(s, s', legacy);
    }
  }

  ghost predicate StepAt(run: seq<State>, k: nat) {
    k + 1 < |run| ==> Next(run[k], run[k + 1])
  }

  ghost predicate IsRun(run: seq<State>) {
    run != [] && forall k: nat :: k < |run| ==> StepAt(run, k)
  }

  lemma {:induction false} RunKeepsInv(run: seq<State>, legacy: Dir, k: nat)
    requires IsRun(run) && run[0].pc == Start && Intact(run[0].disk, legacy) && k < |run|
    ensures Inv(run[k], legacy)
    decreases k
  {
    if k > 0 {
      RunKeepsInv(run, legacy, k - 1);
      assert StepAt(run, k - 1);
      StepKeepsInv(run[k - 1], run[k], legacy);
    }
  }

  /** However often and wherever opening crashes, the legacy content is whole at the
      root or in the thread the manifest names. */
  lemma NothingIsLost(run: seq<State>, legacy: Dir, k: nat)
    requires IsRun(run) && run[0].pc == Start && Intact(run[0].disk, legacy) && k < |run|
    ensures Intact(run[k].disk, legacy)
  {
    RunKeepsInv(run, legacy, k);
    InvIsIntact(run[k], legacy);
  }

  /** What a completed opening leaves behind: exactly one thread, "Chat 1", holding
      exactly the legacy content; it is the active one; no legacy file is left. */
  ghost predicate Migrated(d: Disk, legacy: Dir, a: Id) {
    && d.manifest == Some([Entry(a, FIRST_NAME)])
    && a in d.threads && d.threads[a] == legacy
    && d.root == Dir(None, None) && d.active == Some(a)
  }

  lemma OpenedIsMigrated(run: seq<State>, legacy: Dir, k: nat)
    requires IsRun(run) && run[0].pc == Start && Intact(run[0].disk, legacy) && k < |run|
    requires run[k].pc.Done?
    ensures Migrated(run[k].disk, legacy, run[k].pc.active)
  {
    RunKeepsInv(run, legacy, k);
  }

  // ----- the opening procedure -----

  lemma RunExtends(run: seq<State>, s: State)
    requires IsRun(run) && Next(run[|run| - 1], s)
    ensures IsRun(run + [s])
  {
    var longer := run + [s];
    forall k: nat | k < |longer| ensures StepAt(longer, k) {
      assert k < |run| ==> StepAt(run, k);
    }
  }

  /** A session directory being opened; run records every disk state on the way, so
      each of them is one a crash could leave. */
  class SessionDirectory {
    var disk: Disk
    ghost var run: seq<State>

    ghost predicate Valid() reads this {
      IsRun(run) && run[|run| - 1].disk == disk
    }

    ghost predicate At(pc: Pc) reads this {
      Valid() && run[|run| - 1].pc == pc
    }

    constructor (d: Disk)
      ensures disk == d && run == [State(d, Start)] && Valid()
    {
      disk, run := d, [State(d, Start)];
      new;
      assert forall k: nat :: k < 1 ==> StepAt(run, k);
    }

    /** Record a step of the machine that leads to the current disk. */
    ghost method Reached(pc: Pc)
      requires IsRun(run) && Next(run[|run| - 1], State(disk, pc))
      modifies `run
      ensures At(pc) && run[0] == old(run)[0]
    {
      RunExtends(run, State(disk, pc));
      run := run + [State(disk, pc)];
    }

    method CopyMessagesFile(id: Id)
      requires At(CopyMessages(id)) && id in disk.threads
      modifies this
      ensures At(CopySession(id)) && id in disk.threads && run[0] == old(run)[0]
    {
      if disk.root.messages.None? {
        Reached(CopySession(id));
        return;
      }
      var src := disk.root.messages.value;
      disk := SetDir(disk, id, DirOf(disk, id).(messages := Some("")));
      Reached(WriteMessages(id));
      var n := 0;
      while n < |src|
        invariant 0 <= n <= |src| && At(WriteMessages(id)) && run[0] == old(run)[0]
        invariant disk.root.messages == Some(src) && id in disk.threads && disk.threads[id].messages == Some(src[..n])
      {
        n := Chunk(n, |src|);
        ghost var f: File := Some(src[..n]);
        assert IsPrefix(f, disk.root.messages);
        disk := SetDir(disk, id, DirOf(disk, id).(messages := Some(src[..n])));
        Reached(WriteMessages(id));
      }
      assert src[..n] == src;
      ghost var f: File := Some(src);
      assert IsPrefix(f, disk.root.messages) && disk == SetDir(disk, id, DirOf(disk, id).(messages := f));
      Reached(CopySession(id));
    }

    method CopySessionFile(id: Id)
      requires At(CopySession(id)) && id in disk.threads
      modifies this
      ensures At(Commit(id, true)) && run[0] == old(run)[0]
    {
      if disk.root.session.None? {
        Reached(Commit(id, true));
        return;
      }
      var src := disk.root.session.value;
      disk := SetDir(disk, id, DirOf(disk, id).(session := Some("")));
      Reached(WriteSession(id));
      var n := 0;
      while n < |src|
        invariant 0 <= n <= |src| && At(WriteSession(id)) && run[0] == old(run)[0]
        invariant disk.root.session == Some(src) && id in disk.threads && disk.threads[id].session == Some(src[..n])
      {
        n := Chunk(n, |src|);
        ghost var f: File := Some(src[..n]);
        assert IsPrefix(f, disk.root.session);
        disk := SetDir(disk, id, DirOf(disk, id).(session := Some(src[..n])));
        Reached(WriteSession(id));
      }
      assert src[..n] == src;
      ghost var f: File := Some(src);
      assert IsPrefix(f, disk.root.session) && disk == SetDir(disk, id, DirOf(disk, id).(session := f));
      Reached(Commit(id, true));
    }

    /** The manifest is the commit point; only then do the originals go. */
    method CommitFirst(id: Id, legacy: bool)
      requires At(Commit(id, legacy))
      modifies this
      ensures At(LoadActive) && run[0] == old(run)[0]
    {
      disk := disk.(manifest := Some([Entry(id, FIRST_NAME)]));
      Reached(WriteActive(id, legacy));
      disk := disk.(active := Some(id));
      if legacy {
        Reached(DropMessages(id));
        DropLegacy(id);
      } else {
        Reached(LoadActive);
      }
    }

    method DropLegacy(id: Id)
      requires At(DropMessages(id))
      modifies this
      ensures At(LoadActive) && run[0] == old(run)[0]
    {
      disk := disk.(root := disk.root.(messages := None));
      Reached(DropSession(id));
      disk := disk.(root := disk.root.(session := None));
      Reached(LoadActive);
    }

    /** First opening: adopt the legacy files, or start an empty thread. */
    method MigrateOrInit(id: Id)
      requires At(Start) && disk.manifest.None? && id != 0 && id !in disk.threads
      modifies this
      ensures At(LoadActive) && run[0] == old(run)[0]
    {
      var legacy := disk.root.messages.Some? || disk.root.session.Some?;
      Reached(MakeDir(id, legacy));
      disk := SetDir(disk, id, Dir(None, None));
      if legacy {
        Reached(CopyMessages(id));
        CopyMessagesFile(id);
        CopySessionFile(id);
      } else {
        Reached(Commit(id, false));
      }
      CommitFirst(id, legacy);
    }

    /** Opens the directory with a fresh id at hand. Every disk state on the way is
        a state of the machine, and the last one is a completed opening. */
    method LoadOrMigrate(id: Id) returns (active: Id)
      requires At(Start) && id != 0 && id !in disk.threads
      modifies this
      ensures At(Done(active)) && run[0] == old(run)[0]
      ensures forall legacy :: old(run)[0].pc == Start && Intact(old(run)[0].disk, legacy) ==>
        Migrated(disk, legacy, active) && forall k :: 0 <= k < |run| ==> Intact(run[k].disk, legacy)
    {
      if disk.manifest.Some? {
        Reached(CleanMessages);
        RemoveLegacyFiles();
      } else {
        MigrateOrInit(id);
      }
      active := if disk.active.Some? then disk.active.value else 0;
      Reached(Repair(active));
      active := EnsureValidActive(active);
      hide Proceed, Next, Intact, Migrated, IsRun;
      forall legacy | old(run)[0].pc == Start && Intact(old(run)[0].disk, legacy)
        ensures Migrated(disk, legacy, active) && forall k :: 0 <= k < |run| ==> Intact(run[k].disk, legacy)
      {
        OpenedIsMigrated(run, legacy, |run| - 1);
        forall k | 0 <= k < |run| ensures Intact(run[k].disk, legacy) {
          NothingIsLost(run, legacy, k);
        }
      }
    }

    /** The manifest is there, so the copies count and the originals can go. */
    method RemoveLegacyFiles()
      requires At(CleanMessages)
      modifies this
      ensures At(LoadActive) && run[0] == old(run)[0]
    {
      disk := disk.(root := disk.root.(messages := None));
      Reached(CleanSession);
      disk := disk.(root := disk.root.(session := None));
      Reached(LoadActive);
    }

    method EnsureValidActive(preferred: Id) returns (active: Id)
      requires At(Repair(preferred))
      modifies this
      ensures At(Done(active)) && run[0] == old(run)[0]
    {
      if disk.manifest.None? || disk.manifest.value == [] {
        active := 0;
      } else if preferred != 0 && Named(disk.manifest.value, preferred) {
        active := preferred;
      } else {
        active := disk.manifest.value[0].id;
        disk := disk.(active := Some(active));
      }
      Reached(Done(active));
    }
  }

  /** The next write reaches some position further on, at the latest the end. */
  method Chunk(n: nat, size: nat) returns (m: nat)
    requires n < size
    ensures n < m <= size
  {
    m := *;
    if !(n < m <= size) {
      m := size;
    }
  }
}
