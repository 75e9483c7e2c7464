/**
 Protected pastes are two files: the content and a password sidecar beside it. Uploads create the
 sidecar first, removals remove it last, and creation is exclusive, so that the sidecar acts as a
 lock on the content. Every single file operation is a step; any number of processes interleave.
 */
module SidecarLock {
  import opened Base
  import opened Text
  import Expiry
  import Pastes
  import Siblings
  import Uploads

  predicate IsSidecarPath(path: string) {
    |path| >= |PASSWORD_SUFFIX| && path[|path| - |PASSWORD_SUFFIX|..] == PASSWORD_SUFFIX
  }

  lemma SidecarPaths(name: string, other: string)
    ensures IsSidecarPath(SidecarName(name))
    ensures SidecarName(name) == SidecarName(other) ==> name == other
    ensures !IsSidecarPath(other) ==> SidecarName(name) != other
  {
    assert SidecarName(name)[..|name|] == name && SidecarName(other)[..|other|] == other;
    assert SidecarName(name)[|name|..] == PASSWORD_SUFFIX;
  }

  /** Where a process stands; each constructor names its next file operation. */
  datatype Process =
    | CreateSidecar(name: string)
    | CreateContent(name: string)
    | RemoveOwnSidecar(name: string)
    | RemoveContent(name: string)
    | RollBackContent(name: string)
    | CheckSidecar(name: string)
    | RemoveSidecar(name: string)
    | Stored(name: string)
    | Removed(name: string)
    | Refused(name: string)

  /** The protected directory, each file tagged with the process that wrote it, and the processes. */
  datatype State = State(files: map<string, int>, processes: map<int, Process>)

  datatype Event =
    | BeginUpload(pid: int, name: string)
    | BeginRemoval(pid: int, name: string)
    | BeginRollback(pid: int)
    | Advance(pid: int)

  /** One file operation. */
  function Operate(files: map<string, int>, pid: int, p: Process): (map<string, int>, Process) {
    match p
    case CreateSidecar(name) =>
      if SidecarName(name) in files then (files, Refused(name))
        else (files[SidecarName(name) := pid], CreateContent(name))
    case CreateContent(name) =>
      if name in files then (files, RemoveOwnSidecar(name)) else (files[name := pid], Stored(name))
    case RemoveOwnSidecar(name) => (files - {SidecarName(name)}, Refused(name))
    case RemoveContent(name) => if name in files then (files - {name}, CheckSidecar(name)) else (files, Refused(name))
    case RollBackContent(name) => (files - {name}, CheckSidecar(name))
    case CheckSidecar(name) =>
      if SidecarName(name) in files then (files, RemoveSidecar(name)) else (files, Removed(name))
    case RemoveSidecar(name) => (files - {SidecarName(name)}, Removed(name))
    case _ => (files, p)
  }

  predicate Enabled(s: State, e: Event) {
    match e
    case BeginUpload(pid, name) => pid !in s.processes && !IsSidecarPath(name)
    case BeginRemoval(pid, name) => pid !in s.processes && !IsSidecarPath(name)
    case BeginRollback(pid) => pid in s.processes && s.processes[pid].Stored?
    case Advance(pid) => pid in s.processes
  }

  /** Events that cannot happen change nothing. */
  function Step(s: State, e: Event): State {
    if !Enabled(s, e) then s
    else match e
      case BeginUpload(pid, name) => s.(processes := s.processes[pid := CreateSidecar(name)])
      case BeginRemoval(pid, name) => s.(processes := s.processes[pid := RemoveContent(name)])
      case BeginRollback(pid) => s.(processes := s.processes[pid := RollBackContent(s.processes[pid].name)])
      case Advance(pid) =>
        var (files, next) := Operate(s.files, pid, s.processes[pid]);
        State(files, s.processes[pid := next])
  }

  function Run(s: State, es: seq<Event>): State {
    if es == [] then s else Step(Run(s, es[..|es|-1]), es[|es|-1])
  }

  // ----- the lock -----

  /** Processes between their two files. */
  predicate Holds(p: Process, name: string) {
    p.name == name && (p.CreateContent? || p.CheckSidecar? || p.RemoveSidecar?)
  }

  predicate HeldBy(s: State, pid: int, name: string) {
    pid in s.processes && Holds(s.processes[pid], name)
  }

  /** A held name has its sidecar and no content; an upload holds it by its own sidecar. */
  predicate HolderOk(s: State, pid: int)
    requires pid in s.processes
  {
    var p := s.processes[pid];
    Holds(p, p.name) ==>
      p.name !in s.files && SidecarName(p.name) in s.files && (p.CreateContent? ==> s.files[SidecarName(p.name)] == pid)
  }

  /** Content has a sidecar of the same upload. */
  predicate ContentOk(s: State, path: string) {
    path in s.files && !IsSidecarPath(path) ==>
      SidecarName(path) in s.files && s.files[SidecarName(path)] == s.files[path]
  }

  function NameOf(path: string): string
    requires IsSidecarPath(path)
  {
    path[..|path| - |PASSWORD_SUFFIX|]
  }

  /** A sidecar guards its content, or is held by a process on its way. */
  ghost predicate Guarding(s: State, path: string)
    requires IsSidecarPath(path)
  {
    !IsSidecarPath(NameOf(path)) && (NameOf(path) in s.files || exists pid :: HeldBy(s, pid, NameOf(path)))
  }

  ghost predicate Locked(s: State) {
    && (forall path :: path in s.files && IsSidecarPath(path) ==> Guarding(s, path))
    && (forall path :: path in s.files ==> ContentOk(s, path))
    && (forall pid :: pid in s.processes ==>
          !IsSidecarPath(s.processes[pid].name) && !s.processes[pid].RemoveOwnSidecar?)
    && (forall pid :: pid in s.processes ==> HolderOk(s, pid))
    && (forall a, b, name :: HeldBy(s, a, name) && HeldBy(s, b, name) ==> a == b)
  }

  /** A rollback is safe when some content of its name is there when it begins to remove. */
  predicate SafeStep(s: State, e: Event) {
    e.Advance? && e.pid in s.processes && s.processes[e.pid].RollBackContent? ==> s.processes[e.pid].name in s.files
  }

  lemma AdvanceKeepsContent(s: State, pid: int, path: string)
    requires Locked(s) && pid in s.processes && SafeStep(s, Advance(pid))
    requires path in Step(s, Advance(pid)).files
    ensures ContentOk(Step(s, Advance(pid)), path)
  {
    var name := s.processes[pid].name;
    assert HolderOk(s, pid);
    SidecarPaths(name, path);
    SidecarPaths(path, name);
    if path in s.files {
      assert ContentOk(s, path);
    }
  }

  lemma AdvanceKeepsHolder(s: State, pid: int, other: int)
    requires Locked(s) && pid in s.processes && SafeStep(s, Advance(pid)) && other in s.processes
    ensures HolderOk(Step(s, Advance(pid)), other)
  {
    var p, o := s.processes[pid], s.processes[other];
    assert HolderOk(s, pid) && HolderOk(s, other);
    SidecarPaths(p.name, o.name);
    SidecarPaths(o.name, p.name);
    if p.name in s.files {
      assert ContentOk(s, p.name);
    }
    if Holds(o, o.name) && Holds(p, p.name) && o.name == p.name {
      assert HeldBy(s, pid, p.name) && HeldBy(s, other, p.name);
    }
  }

  /** Who holds a name after a step held it before, or has just found it free. */
  lemma AdvanceKeepsOneHolder(s: State, pid: int, other: int, name: string)
    requires Locked(s) && pid in s.processes && SafeStep(s, Advance(pid)) && other != pid
    requires HeldBy(Step(s, Advance(pid)), pid, name)
    ensures !HeldBy(s, other, name)
  {
    assert HolderOk(s, pid);
    if HeldBy(s, other, name) {
      assert HolderOk(s, other);
      if Holds(s.processes[pid], name) {
        assert HeldBy(s, pid, name);
      }
    }
  }

  lemma AdvanceKeepsGuards(s: State, pid: int, path: string)
    requires Locked(s) && pid in s.processes && SafeStep(s, Advance(pid))
    requires path in Step(s, Advance(pid)).files && IsSidecarPath(path)
    ensures Guarding(Step(s, Advance(pid)), path)
  {
    var t, p := Step(s, Advance(pid)), s.processes[pid];
    var name := NameOf(path);
    assert path == SidecarName(name);
    SidecarPaths(p.name, name);
    SidecarPaths(name, p.name);
    assert HolderOk(s, pid);
    assert path in s.files ==> Guarding(s, path);
    assert path !in s.files ==> p.CreateSidecar? && p.name == name;
    if !HeldBy(t, pid, name) && name !in t.files {
      assert path in s.files && name !in s.files;
      assert Guarding(s, path);
      var holder :| HeldBy(s, holder, name);
      assert !Holds(p, name);
      assert HeldBy(t, holder, name);
    }
  }

  lemma AdvanceKeepsLock(s: State, pid: int)
    requires Locked(s) && pid in s.processes && SafeStep(s, Advance(pid))
    ensures Locked(Step(s, Advance(pid)))
  {
    var t := Step(s, Advance(pid));
    assert HolderOk(s, pid);
    forall path | path in t.files ensures ContentOk(t, path) {
      AdvanceKeepsContent(s, pid, path);
    }
    forall path | path in t.files && IsSidecarPath(path) ensures Guarding(t, path) {
      AdvanceKeepsGuards(s, pid, path);
    }
    forall other | other in t.processes ensures HolderOk(t, other) {
      AdvanceKeepsHolder(s, pid, other);
    }
    forall a, b, n | HeldBy(t, a, n) && HeldBy(t, b, n) ensures a == b {
      if a != pid && b != pid {
        assert HeldBy(s, a, n) && HeldBy(s, b, n);
      } else if a != b {
        var other := if a == pid then b else a;
        AdvanceKeepsOneHolder(s, pid, other, n);
      }
    }
  }

  lemma StepKeepsLock(s: State, e: Event)
    requires Locked(s) && SafeStep(s, e)
    ensures Locked(Step(s, e))
  {
    if Enabled(s, e) {
      if e.Advance? {
        AdvanceKeepsLock(s, e.pid);
      } else {
        var t := Step(s, e);
        forall pid | pid in t.processes ensures HolderOk(t, pid) {
          assert pid in s.processes ==> HolderOk(s, pid);
        }
        forall path | path in t.files ensures ContentOk(t, path) {
          assert ContentOk(s, path);
        }
        forall path | path in t.files && IsSidecarPath(path) ensures Guarding(t, path) {
          assert Guarding(s, path);
          if NameOf(path) !in s.files {
            var pid :| HeldBy(s, pid, NameOf(path));
            assert HeldBy(t, pid, NameOf(path));
          }
        }
        forall a, b, n | HeldBy(t, a, n) && HeldBy(t, b, n) ensures a == b {
          assert HeldBy(s, a, n) && HeldBy(s, b, n);
        }
      }
    }
  }

  ghost predicate SafeSchedule(s: State, es: seq<Event>) {
    forall k :: 0 <= k < |es| ==> SafeStep(Run(s, es[..k]), es[k])
  }

  lemma SafePrefix(s: State, es: seq<Event>)
    requires es != [] && SafeSchedule(s, es)
    ensures SafeSchedule(s, es[..|es|-1]) && SafeStep(Run(s, es[..|es|-1]), es[|es|-1])
  {
    var n := |es| - 1;
    forall k | 0 <= k < n ensures SafeStep(Run(s, es[..n][..k]), es[..n][k]) {
      assert es[..n][..k] == es[..k] && es[..n][k] == es[k];
    }
  }

  /**
   In every interleaving whose rollbacks find content of their name, stored content is guarded by the sidecar of
   the very upload that wrote it, and at most one process at a time stands between the two files of a name.
   */
  lemma {:induction false} EveryInterleavingKeepsLock(s: State, es: seq<Event>)
    requires Locked(s) && SafeSchedule(s, es)
    ensures Locked(Run(s, es))
  {
    if es != [] {
      var n := |es| - 1;
      SafePrefix(s, es);
      EveryInterleavingKeepsLock(s, es[..n]);
      StepKeepsLock(Run(s, es[..n]), es[n]);
    }
  }

  /** Without rollbacks every schedule is safe. */
  lemma {:induction false} NoRollbackIsSafe(s: State, es: seq<Event>)
    requires forall pid :: pid in s.processes ==> !s.processes[pid].RollBackContent?
    requires forall k :: 0 <= k < |es| ==> !es[k].BeginRollback?
    ensures SafeSchedule(s, es)
    ensures forall pid :: pid in Run(s, es).processes ==> !Run(s, es).processes[pid].RollBackContent?
  {
    if es != [] {
      var n := |es| - 1;
      NoRollbackIsSafe(s, es[..n]);
      forall k | 0 <= k < |es| ensures SafeStep(Run(s, es[..k]), es[k]) {
        if k < n {
          assert es[..n][..k] == es[..k] && es[..n][k] == es[k];
          assert SafeStep(Run(s, es[..n][..k]), es[..n][k]);
        }
      }
    }
  }

  /** Uploads and removals alone, from an empty directory: the guarantee holds in every interleaving. */
  lemma UploadsAndRemovalsKeepLock(es: seq<Event>)
    requires forall k :: 0 <= k < |es| ==> !es[k].BeginRollback?
    ensures
      var s := Run(State(map[], map[]), es);
      && (forall path :: path in s.files && !IsSidecarPath(path) ==> SidecarName(path) in s.files)
      && (forall a, b, name :: HeldBy(s, a, name) && HeldBy(s, b, name) ==> a == b)
      && Locked(s)
  {
    var empty := State(map[], map[]);
    NoRollbackIsSafe(empty, es);
    EveryInterleavingKeepsLock(empty, es);
    var s := Run(empty, es);
    assert forall path :: path in s.files ==> ContentOk(s, path);
  }

  /** An upload that got its sidecar never finds content in the way: the branch that takes the sidecar back is dead. */
  lemma LockedUploadSucceeds(s: State, pid: int)
    requires Locked(s) && pid in s.processes && s.processes[pid].CreateContent?
    ensures Step(s, Advance(pid)).processes[pid] == Stored(s.processes[pid].name)
  {
    assert HolderOk(s, pid);
  }

  // ----- when the guarantee itself is lost -----

  /** Stored content has its password file. */
  predicate Guarded(files: map<string, int>) {
    forall path :: path in files && !IsSidecarPath(path) ==> SidecarName(path) in files
  }

  lemma LockedIsGuarded(s: State)
    requires Locked(s)
    ensures Guarded(s.files)
  {
    assert forall path :: path in s.files ==> ContentOk(s, path);
  }

  /** However the processes go on, as long as further rollbacks find content of their name. */
  ghost predicate StaysGuarded(s: State) {
    forall es :: SafeSchedule(s, es) ==> Guarded(Run(s, es).files)
  }

  lemma RunOneMore(s: State, es: seq<Event>, e: Event)
    requires SafeSchedule(s, es) && SafeStep(Run(s, es), e)
    ensures SafeSchedule(s, es + [e]) && Run(s, es + [e]) == Step(Run(s, es), e)
  {
    var more := es + [e];
    assert more[..|es|] == es;
    forall k | 0 <= k < |more| ensures SafeStep(Run(s, more[..k]), more[k]) {
      assert more[..k] == if k < |es| then es[..k] else es;
      assert k < |es| ==> SafeStep(Run(s, es[..k]), es[k]);
    }
  }

  lemma {:induction false} FreshPid(pids: set<int>) returns (pid: int)
    ensures pid !in pids && forall other :: other in pids ==> other < pid
    decreases pids
  {
    pid := 0;
    if pids != {} {
      var one: int := AnyOf(pids);
      var above := FreshPid(pids - {one});
      pid := if above > one then above else one + 1;
      assert forall other :: other in pids ==> other == one || other in pids - {one};
    }
  }

  /** A remover that is about to remove the sidecar of stored content makes the directory unguarded. */
  lemma LateRemovalUnguards(s: State, es: seq<Event>, pid: int)
    requires SafeSchedule(s, es)
    requires
      var t := Run(s, es);
      pid in t.processes && t.processes[pid].RemoveSidecar? && t.processes[pid].name in t.files
      && !IsSidecarPath(t.processes[pid].name)
    ensures !StaysGuarded(s)
  {
    var name := Run(s, es).processes[pid].name;
    RunOneMore(s, es, Advance(pid));
    SidecarPaths(name, name);
    assert name in Run(s, es + [Advance(pid)]).files;
    assert !Guarded(Run(s, es + [Advance(pid)]).files);
  }

  /** Between its check and its removal: a process that has seen the sidecar of a name without content. */
  predicate Checking(t: State, pid: int, name: string) {
    pid in t.processes && t.processes[pid] == CheckSidecar(name) && !IsSidecarPath(name) && name !in t.files
  }

  /** An upload under way overtakes the removal: its content comes after the check and before the removal. */
  lemma OvertakenByUpload(s: State, es: seq<Event>, pid: int, uploader: int, name: string)
    requires SafeSchedule(s, es) && Checking(Run(s, es), pid, name) && SidecarName(name) in Run(s, es).files
    requires uploader in Run(s, es).processes && Run(s, es).processes[uploader] == CreateContent(name)
    ensures !StaysGuarded(s)
  {
    RunOneMore(s, es, Advance(pid));
    var checked := es + [Advance(pid)];
    RunOneMore(s, checked, Advance(uploader));
    LateRemovalUnguards(s, checked + [Advance(uploader)], pid);
  }

  /** With the sidecar gone, a new upload gets in between. */
  lemma OvertakenByNewUpload(s: State, es: seq<Event>, pid: int, name: string)
    requires SafeSchedule(s, es) && Checking(Run(s, es), pid, name) && SidecarName(name) !in Run(s, es).files
    ensures !StaysGuarded(s)
  {
    SidecarPaths(name, name);
    var uploader := FreshPid(Run(s, es).processes.Keys);
    RunOneMore(s, es, BeginUpload(uploader, name));
    var begun := es + [BeginUpload(uploader, name)];
    RunOneMore(s, begun, Advance(uploader));
    OvertakenByUpload(s, begun + [Advance(uploader)], pid, uploader, name);
  }

  /** A holder that is itself removing finishes first. */
  lemma OtherRemoverFinishes(s: State, es: seq<Event>, pid: int, holder: int, name: string) returns (more: seq<Event>)
    requires SafeSchedule(s, es) && Checking(Run(s, es), pid, name) && SidecarName(name) in Run(s, es).files
    requires holder in Run(s, es).processes && holder != pid
    requires Run(s, es).processes[holder] == CheckSidecar(name) || Run(s, es).processes[holder] == RemoveSidecar(name)
    ensures SafeSchedule(s, more) && Checking(Run(s, more), pid, name) && SidecarName(name) !in Run(s, more).files
  {
    more := es;
    if Run(s, es).processes[holder].CheckSidecar? {
      RunOneMore(s, es, Advance(holder));
      more := es + [Advance(holder)];
    }
    assert Checking(Run(s, more), pid, name) && Run(s, more).processes[holder] == RemoveSidecar(name);
    RunOneMore(s, more, Advance(holder));
    more := more + [Advance(holder)];
  }

  /**
   The exact condition: a rollback leaves the guarantee standing in every continuation if and only if some
   content of its name, its own or another upload's, is in place when it begins to remove. If there is none,
   some continuation of ordinary uploads and removals leaves content without a password file.
   */
  lemma RollbackKeepsGuaranteeIff(s: State, pid: int)
    requires Locked(s) && pid in s.processes && s.processes[pid].RollBackContent?
    ensures StaysGuarded(Step(s, Advance(pid))) <==> s.processes[pid].name in s.files
  {
    var name, t := s.processes[pid].name, Step(s, Advance(pid));
    if name in s.files {
      AdvanceKeepsLock(s, pid);
      forall es | SafeSchedule(t, es) ensures Guarded(Run(t, es).files) {
        EveryInterleavingKeepsLock(t, es);
        LockedIsGuarded(Run(t, es));
      }
    } else {
      LateRollbackUnguards(s, pid);
    }
  }

  lemma LateRollbackUnguards(s: State, pid: int)
    requires Locked(s) && pid in s.processes && s.processes[pid].RollBackContent? && s.processes[pid].name !in s.files
    ensures !StaysGuarded(Step(s, Advance(pid)))
  {
    var name, t := s.processes[pid].name, Step(s, Advance(pid));
    SidecarPaths(name, name);
    assert SafeSchedule(t, []) && Checking(Run(t, []), pid, name);
    if SidecarName(name) in s.files {
      assert NameOf(SidecarName(name)) == name && Guarding(s, SidecarName(name));
      var holder :| HeldBy(s, holder, name);
      if s.processes[holder].CreateContent? {
        OvertakenByUpload(t, [], pid, holder, name);
      } else {
        var es := OtherRemoverFinishes(t, [], pid, holder, name);
        OvertakenByNewUpload(t, es, pid, name);
      }
    } else {
      OvertakenByNewUpload(t, [], pid, name);
    }
  }

  const EMPTY: State := State(map[], map[])

  /**
   1 uploads; 2 removes both files; 1, rolling back, finds no content; 3 creates its sidecar; 1 checks; 3
   creates its content.
   */
  const SCRIPT: seq<Event> :=
    [BeginUpload(1, "a"), Advance(1), Advance(1), BeginRemoval(2, "a"), Advance(2), Advance(2), Advance(2),
     BeginRollback(1), Advance(1), BeginUpload(3, "a"), Advance(3), Advance(1), Advance(3), Advance(1)]

  lemma RunPrefix(s: State, es: seq<Event>, k: nat)
    requires k < |es|
    ensures Run(s, es[..k+1]) == Step(Run(s, es[..k]), es[k])
  {
    assert es[..k+1][..k] == es[..k];
  }

  lemma ScriptUploads()
    ensures
      var s := Run(EMPTY, SCRIPT[..3]);
      s.files.Keys == {SidecarName("a"), "a"} && s.processes.Keys == {1} && s.processes[1] == Stored("a")
  {
    SidecarPaths("a", "a");
    assert Run(EMPTY, SCRIPT[..0]) == EMPTY;
    RunPrefix(EMPTY, SCRIPT, 0);
    RunPrefix(EMPTY, SCRIPT, 1);
    RunPrefix(EMPTY, SCRIPT, 2);
  }

  lemma ScriptBeginsRemoval()
    ensures
      var s := Run(EMPTY, SCRIPT[..4]);
      s.files.Keys == {"a", SidecarName("a")} && s.processes.Keys == {1, 2} && s.processes[1] == Stored("a")
      && s.processes[2] == RemoveContent("a")
  {
    ScriptUploads();
    RunPrefix(EMPTY, SCRIPT, 3);
  }

  lemma ScriptRemovesContent()
    ensures
      var s := Run(EMPTY, SCRIPT[..5]);
      s.files.Keys == {SidecarName("a")} && s.processes.Keys == {1, 2} && s.processes[1] == Stored("a")
      && s.processes[2] == CheckSidecar("a")
  {
    SidecarPaths("a", "a");
    ScriptBeginsRemoval();
    RunPrefix(EMPTY, SCRIPT, 4);
  }

  lemma ScriptRemoves()
    ensures
      var s := Run(EMPTY, SCRIPT[..7]);
      s.files.Keys == {} && s.processes.Keys == {1, 2} && s.processes[1] == Stored("a")
  {
    ScriptRemovesContent();
    RunPrefix(EMPTY, SCRIPT, 5);
    RunPrefix(EMPTY, SCRIPT, 6);
  }

  lemma ScriptRollsBack()
    ensures
      var s := Run(EMPTY, SCRIPT[..9]);
      s.files.Keys == {} && s.processes.Keys == {1, 2} && s.processes[1] == CheckSidecar("a")
  {
    SidecarPaths("a", "a");
    ScriptRemoves();
    RunPrefix(EMPTY, SCRIPT, 7);
    RunPrefix(EMPTY, SCRIPT, 8);
  }

  lemma ScriptOvertakes()
    ensures
      var s := Run(EMPTY, SCRIPT[..12]);
      s.files.Keys == {SidecarName("a")} && 1 in s.processes && s.processes[1] == RemoveSidecar("a")
      && 3 in s.processes && s.processes[3] == CreateContent("a")
  {
    SidecarPaths("a", "a");
    ScriptRollsBack();
    RunPrefix(EMPTY, SCRIPT, 9);
    RunPrefix(EMPTY, SCRIPT, 10);
    RunPrefix(EMPTY, SCRIPT, 11);
  }

  /** It happens: 1 goes on to remove the sidecar of 3, and the content of 3 stays without it. */
  lemma RollbackUnguardsContent()
    ensures !Guarded(Run(EMPTY, SCRIPT).files)
  {
    SidecarPaths("a", "a");
    ScriptOvertakes();
    RunPrefix(EMPTY, SCRIPT, 12);
    RunPrefix(EMPTY, SCRIPT, 13);
    assert SCRIPT[..14] == SCRIPT && !IsSidecarPath("a");
    assert "a" in Run(EMPTY, SCRIPT).files;
  }

  // ----- whose paste a rollback takes -----

  /** The content of the name is this upload's. */
  predicate Keeps(s: State, upload: int, name: string) {
    name in s.files && s.files[name] == upload
  }

  /** An upload rolling back destroys another upload's paste exactly when the content in place is not its own. */
  lemma RollbackTakesAnotherIff(s: State, pid: int)
    requires pid in s.processes && s.processes[pid].RollBackContent?
    ensures
      var name := s.processes[pid].name;
      (exists other :: other != pid && Keeps(s, other, name) && !Keeps(Step(s, Advance(pid)), other, name)) <==>
      name in s.files && !Keeps(s, pid, name)
  {
    var name := s.processes[pid].name;
    if name in s.files && !Keeps(s, pid, name) {
      assert Keeps(s, s.files[name], name) && !Keeps(Step(s, Advance(pid)), s.files[name], name);
    }
  }

  /** 1 uploads; 2 removes both files; 3 uploads under the same name; 1 rolls back. */
  const SECOND_SCRIPT: seq<Event> :=
    SCRIPT[..7] + [BeginUpload(3, "a"), Advance(3), Advance(3), BeginRollback(1), Advance(1)]

  lemma SecondScriptUploads()
    ensures
      var s := Run(EMPTY, SECOND_SCRIPT[..10]);
      && Keeps(s, 3, "a") && s.processes.Keys == {1, 2, 3}
      && s.processes[1] == Stored("a") && s.processes[3] == Stored("a")
  {
    SidecarPaths("a", "a");
    ScriptRemoves();
    assert SECOND_SCRIPT[..7] == SCRIPT[..7];
    RunPrefix(EMPTY, SECOND_SCRIPT, 7);
    RunPrefix(EMPTY, SECOND_SCRIPT, 8);
    RunPrefix(EMPTY, SECOND_SCRIPT, 9);
  }

  /** It happens: 3 was told that its paste is stored, and the rollback of 1 removes it. */
  lemma RollbackDestroysAnotherPaste()
    ensures
      var s := Run(EMPTY, SECOND_SCRIPT);
      3 in s.processes && s.processes[3] == Stored("a") && "a" !in s.files
  {
    SecondScriptUploads();
    RunPrefix(EMPTY, SECOND_SCRIPT, 10);
    RunPrefix(EMPTY, SECOND_SCRIPT, 11);
    assert SECOND_SCRIPT[..12] == SECOND_SCRIPT;
  }

  // ----- protected pastes that expire -----

  lemma SidecarPathHasNoMillis(path: string)
    ensures IsSidecarPath(path) ==> Expiry.SuffixMillis(path).None?
  {
    if IsSidecarPath(path) {
      assert path == SidecarName(NameOf(path));
      Expiry.SidecarHasNoMillis(NameOf(path));
    }
  }

  /**
   As long as every paste has its password file, no expiring one is found by looking its name up in the
   directory, at any time: the password file matches too, and sorts after it.
   */
  lemma ExpiringPastesAreNotFound(es: seq<Event>, name: string, nanos: nat)
    requires forall k :: 0 <= k < |es| ==> !es[k].BeginRollback?
    ensures Siblings.GlobMatch(Run(EMPTY, es).files.Keys, name, nanos) == Siblings.StripTimestamp(name)
  {
    UploadsAndRemovalsKeepLock(es);
    var names, base := Run(EMPTY, es).files.Keys, Siblings.StripTimestamp(name);
    forall live | Siblings.LiveMatch(names, base, live, nanos) ensures SidecarName(live) in names {
      SidecarPathHasNoMillis(live);
    }
    Siblings.SidecarsHideLiveSiblings(names, name, nanos);
  }

  // ----- alone, the file operations are the upload's and the removal's -----

  /** A process that nobody interrupts. */
  function Alone(files: map<string, int>, pid: int, p: Process, operations: nat): (map<string, int>, Process)
    decreases operations
  {
    if operations == 0 then (files, p)
    else
      var (after, next) := Operate(files, pid, p);
      Alone(after, pid, next, operations - 1)
  }

  /** The protected directory has these names. */
  predicate SameNames(files: map<string, int>, all: Uploads.Files) {
    files.Keys == Uploads.DirectoryNames(all, Pastes.ProtectedDir)
  }

  lemma SameNamesAt(files: map<string, int>, all: Uploads.Files, name: string)
    requires SameNames(files, all)
    ensures name in files <==> Pastes.Path(Pastes.ProtectedDir, name) in all
  {
    assert name in files.Keys <==> name in Uploads.DirectoryNames(all, Pastes.ProtectedDir);
  }

  lemma NamesMatch(files: map<string, int>, all: Uploads.Files)
    requires forall name :: name in files <==> Pastes.Path(Pastes.ProtectedDir, name) in all
    ensures SameNames(files, all)
  {
    var names := Uploads.DirectoryNames(all, Pastes.ProtectedDir);
    forall name ensures name in files.Keys <==> name in names {
    }
    assert files.Keys == names;
  }

  /** A protected upload that no live sibling turns away stores its files as the upload step does. */
  lemma UploadAlone(files: map<string, int>, all: Uploads.Files, u: Uploads.Upload, nanos: nat, pid: int)
    requires u.kind.ProtectedFile? && SameNames(files, all) && Uploads.TriesNames(all, u, nanos)
    ensures
      var (after, last) := Alone(files, pid, CreateSidecar(Uploads.TargetPath(u).name), 3);
      var (stored, ok) := Uploads.StoreEntry(all, u, nanos);
      SameNames(after, stored) && last == if ok then Stored(Uploads.TargetPath(u).name)
        else Refused(Uploads.TargetPath(u).name)
  {
    var name := Uploads.TargetPath(u).name;
    SameNamesAt(files, all, name);
    SameNamesAt(files, all, SidecarName(name));
    assert SidecarName(name) != name by {
      assert |SidecarName(name)| == |name| + 9;
    }
    var after, stored := Alone(files, pid, CreateSidecar(name), 3).0, Uploads.StoreEntry(all, u, nanos).0;
    forall other ensures other in after <==> Pastes.Path(Pastes.ProtectedDir, other) in stored {
      SameNamesAt(files, all, other);
    }
    NamesMatch(after, stored);
  }

  /** A removal and a rollback remove the files that their steps remove. */
  lemma RemovalAlone(files: map<string, int>, all: Uploads.Files, path: Pastes.Path, pid: int)
    requires path.directory == Pastes.ProtectedDir && SameNames(files, all)
    ensures SameNames(Alone(files, pid, RemoveContent(path.name), 3).0,
                      if path in all then Uploads.WithoutPair(all, path) else all)
    ensures SameNames(Alone(files, pid, RollBackContent(path.name), 3).0, Uploads.WithoutPair(all, path))
  {
    SameNamesAt(files, all, path.name);
    SameNamesAt(files, all, SidecarName(path.name));
    var removed := Alone(files, pid, RemoveContent(path.name), 3).0;
    var back := Alone(files, pid, RollBackContent(path.name), 3).0;
    var less, kept := Uploads.WithoutPair(all, path), if path in all then Uploads.WithoutPair(all, path) else all;
    assert |SidecarName(path.name)| == |path.name| + 9;
    forall other
      ensures other in removed <==> Pastes.Path(Pastes.ProtectedDir, other) in kept
      ensures other in back <==> Pastes.Path(Pastes.ProtectedDir, other) in less
    {
      SameNamesAt(files, all, other);
    }
    NamesMatch(removed, kept);
    NamesMatch(back, less);
  }
}
