/**
 * The crash behaviour of writing a snapshot file (atomicWriteFile in internal/state/snapshot.go): a
 * temporary file is created, written, synced, closed and renamed over the target.
 *
 * File contents reach the disk when they are synced; until then a crash may leave anything. Directory
 * changes reach the disk in order, at the latest when the directory is synced; a crash may undo the
 * newer ones. Renaming is atomic.
 */
module AtomicWrite {
  import opened Basics

  type Path = string

  datatype File = File(data: Bytes, durable: bool)

  /** How far a write has come; after Failing and Finished only the deferred cleanup is left. */
  datatype Stage = Created | Ready | Written | Synced | Closed | Renamed | Finished | Failing

  datatype Writer = Writer(tmp: Path, inode: nat, data: Bytes, stage: Stage)

  /**
   * `history` holds the directory states a crash may bring back, oldest first; the last is the current
   * one. `settled` is what the target held when the oldest of them was current, and `since` the data of
   * every write renamed over the target after that.
   */
  datatype Disk = Disk(names: map<Path, nat>, files: seq<File>, history: seq<map<Path, nat>>,
                       writer: Option<Writer>, settled: Option<Bytes>, since: seq<Bytes>)

  datatype Step =
    | Begin(data: Bytes, tmp: Path)
    | Chmod(ok: bool)
    | Write(n: nat)
    | Sync(ok: bool)
    | CloseFile(ok: bool)
    | Rename(ok: bool)
    | SyncDir(ok: bool)
    | Cleanup
    | Crash(k: nat, contents: seq<Bytes>)

  /** The content of a path in a directory state. */
  function Content(files: seq<File>, dir: map<Path, nat>, p: Path): Option<Bytes> {
    if p in dir && dir[p] < |files| then Some(files[dir[p]].data) else None
  }

  predicate AtStage(d: Disk, stage: Stage) {
    d.writer.Some? && d.writer.value.stage == stage
  }

  /** What a crash may leave: an older directory, and anything in files that were not synced. */
  ghost predicate MayCrashTo(d: Disk, k: nat, contents: seq<Bytes>) {
    && k < |d.history| && |contents| == |d.files|
    && forall i :: 0 <= i < |d.files| && d.files[i].durable ==> contents[i] == d.files[i].data
  }

  ghost predicate Enabled(d: Disk, a: Step) {
    match a
    case Begin(_, tmp) => d.writer.None? && tmp !in d.names
    case Chmod(_) => AtStage(d, Created)
    case Write(n) => AtStage(d, Ready) && n <= |d.writer.value.data| && d.writer.value.inode < |d.files|
    case Sync(_) => AtStage(d, Written) && d.writer.value.inode < |d.files|
    case CloseFile(_) => AtStage(d, Synced)
    case Rename(ok) => AtStage(d, Closed) && (ok ==> d.writer.value.tmp in d.names)
    case SyncDir(_) => AtStage(d, Renamed)
    case Cleanup => AtStage(d, Failing) || AtStage(d, Finished)
    case Crash(k, contents) => MayCrashTo(d, k, contents)
  }

  function Advance(d: Disk, ok: bool, next: Stage): Disk
    requires d.writer.Some?
  {
    d.(writer := Some(d.writer.value.(stage := if ok then next else Failing)))
  }

  function Relink(d: Disk, names: map<Path, nat>): Disk {
    d.(names := names, history := d.history + [names])
  }

  function OnDisk(contents: seq<Bytes>): (files: seq<File>)
    ensures |files| == |contents| && forall i :: 0 <= i < |contents| ==> files[i] == File(contents[i], true)
  {
    seq(|contents|, i requires 0 <= i < |contents| => File(contents[i], true))
  }

  ghost function Do(d: Disk, target: Path, a: Step): Disk
    requires Enabled(d, a)
  {
    match a
    case Begin(data, tmp) =>
      var made := d.(files := d.files + [File([], false)],
                     writer := Some(Writer(tmp, |d.files|, data, Created)));
      Relink(made, d.names[tmp := |d.files|])
    case Chmod(ok) => Advance(d, ok, Ready)
    case Write(n) =>
      var w := d.writer.value;
      Advance(d.(files := d.files[w.inode := File(w.data[..n], false)]), n == |w.data|, Written)
    case Sync(ok) =>
      var i := d.writer.value.inode;
      Advance(if ok then d.(files := d.files[i := d.files[i].(durable := true)]) else d, ok, Synced)
    case CloseFile(ok) => Advance(d, ok, Closed)
    case Rename(ok) =>
      var w := d.writer.value;
      Advance(if ok then Relink(d, (d.names - {w.tmp})[target := d.names[w.tmp]]).(since := d.since + [w.data]) else d,
              ok, Renamed)
    case SyncDir(ok) =>
      Advance(if ok then d.(history := [d.names], settled := Content(d.files, d.names, target), since := []) else d,
              true, Finished)
    case Cleanup =>
      var tmp := d.writer.value.tmp;
      (if tmp in d.names then Relink(d, d.names - {tmp}) else d).(writer := None)
    case Crash(k, contents) =>
      var files := OnDisk(contents);
      Disk(d.history[k], files, [d.history[k]], None, Content(files, d.history[k], target), [])
  }

  /** A disk at rest: everything is on it. */
  ghost predicate AtRest(d: Disk, target: Path) {
    && d.writer.None? && d.history == [d.names] && d.since == []
    && (forall i :: 0 <= i < |d.files| ==> d.files[i].durable)
    && (forall p :: p in d.names ==> d.names[p] < |d.files|)
    && d.settled == Content(d.files, d.names, target)
  }

  ghost function After(start: Disk, target: Path, steps: seq<Step>): Option<Disk>
    decreases |steps|
  {
    if steps == [] then Some(start)
    else
      var p := After(start, target, steps[..|steps| - 1]);
      if p.Some? && Enabled(p.value, steps[|steps| - 1]) then Some(Do(p.value, target, steps[|steps| - 1])) else None
  }

  /** No write picked the target's own name for its temporary file. */
  predicate TempsApart(target: Path, steps: seq<Step>) {
    forall i :: 0 <= i < |steps| && steps[i].Begin? ==> steps[i].tmp != target
  }

  // ----- the invariant -----

  /** One of the complete contents the target may hold. */
  ghost predicate Complete(d: Disk, content: Option<Bytes>) {
    content == d.settled || (content.Some? && content.value in d.since)
  }

  ghost predicate DirValid(d: Disk, target: Path, dir: map<Path, nat>) {
    && (forall p :: p in dir ==> dir[p] < |d.files|)
    && (target in dir ==> d.files[dir[target]].durable)
    && Complete(d, Content(d.files, dir, target))
  }

  /** The temporary file is not the target in any directory state, until it is renamed. */
  ghost predicate WriterValid(d: Disk, target: Path, w: Writer) {
    && w.tmp != target && w.inode < |d.files|
    && (w.stage.Created? || w.stage.Ready? || w.stage.Written? || w.stage.Synced? || w.stage.Closed? ==>
          && w.tmp in d.names && d.names[w.tmp] == w.inode
          && forall j :: 0 <= j < |d.history| && target in d.history[j] ==> d.history[j][target] != w.inode)
    && (w.stage.Written? ==> d.files[w.inode].data == w.data)
    && (w.stage.Synced? || w.stage.Closed? ==> d.files[w.inode] == File(w.data, true))
  }

  ghost predicate Invariant(d: Disk, target: Path) {
    && |d.history| > 0 && d.history[|d.history| - 1] == d.names
    && (forall j :: 0 <= j < |d.history| ==> DirValid(d, target, d.history[j]))
    && (d.writer.Some? ==> WriterValid(d, target, d.writer.value))
  }

  lemma RelinkKeeps(d: Disk, target: Path, names: map<Path, nat>)
    requires forall j :: 0 <= j < |d.history| ==> DirValid(d, target, d.history[j])
    requires DirValid(d, target, names)
    ensures forall j :: 0 <= j < |d.history| + 1 ==> DirValid(Relink(d, names), target, Relink(d, names).history[j])
  {
    forall j | 0 <= j < |d.history| + 1
      ensures DirValid(Relink(d, names), target, Relink(d, names).history[j])
    {
      assert j < |d.history| ==> DirValid(d, target, d.history[j]);
    }
  }

  lemma BeginKeeps(d: Disk, target: Path, data: Bytes, tmp: Path)
    requires Invariant(d, target) && Enabled(d, Begin(data, tmp)) && tmp != target
    ensures Invariant(Do(d, target, Begin(data, tmp)), target)
  {
    var made := d.(files := d.files + [File([], false)],
                   writer := Some(Writer(tmp, |d.files|, data, Created)));
    forall j | 0 <= j < |d.history|
      ensures DirValid(made, target, d.history[j])
    {
      assert DirValid(d, target, d.history[j]);
    }
    assert DirValid(d, target, d.history[|d.history| - 1]);
    RelinkKeeps(made, target, d.names[tmp := |d.files|]);
  }

  /** Changing only the temporary file's content leaves every directory state as good as it was. */
  lemma TempFileKeeps(d: Disk, target: Path, f: File)
    requires Invariant(d, target) && d.writer.Some? && d.writer.value.inode < |d.files|
    requires AtStage(d, Ready) || AtStage(d, Written)
    ensures var d' := d.(files := d.files[d.writer.value.inode := f]);
            forall j :: 0 <= j < |d.history| ==> DirValid(d', target, d.history[j])
  {
    forall j | 0 <= j < |d.history|
      ensures DirValid(d.(files := d.files[d.writer.value.inode := f]), target, d.history[j])
    {
      assert DirValid(d, target, d.history[j]);
    }
  }

  lemma RenameKeeps(d: Disk, target: Path)
    requires Invariant(d, target) && Enabled(d, Rename(true))
    ensures Invariant(Do(d, target, Rename(true)), target)
  {
    var w := d.writer.value;
    var names := (d.names - {w.tmp})[target := d.names[w.tmp]];
    var more := d.(since := d.since + [w.data]);
    assert DirValid(d, target, d.history[|d.history| - 1]);
    assert more.since[|d.since|] == w.data;
    assert Content(d.files, names, target) == Some(w.data);
    forall j | 0 <= j < |d.history|
      ensures DirValid(more, target, d.history[j])
    {
      assert DirValid(d, target, d.history[j]);
    }
    RelinkKeeps(more, target, names);
  }

  lemma CleanupKeeps(d: Disk, target: Path)
    requires Invariant(d, target) && Enabled(d, Cleanup)
    ensures Invariant(Do(d, target, Cleanup), target)
    ensures Content(d.files, d.names, target) == Content(d.files, Do(d, target, Cleanup).names, target)
  {
    var tmp := d.writer.value.tmp;
    assert DirValid(d, target, d.history[|d.history| - 1]);
    if tmp in d.names {
      assert Content(d.files, d.names - {tmp}, target) == Content(d.files, d.names, target);
      RelinkKeeps(d, target, d.names - {tmp});
    }
  }

  lemma CrashKeeps(d: Disk, target: Path, k: nat, contents: seq<Bytes>)
    requires Invariant(d, target) && MayCrashTo(d, k, contents)
    ensures Invariant(Do(d, target, Crash(k, contents)), target)
    ensures Content(OnDisk(contents), d.history[k], target) == Content(d.files, d.history[k], target)
  {
    assert DirValid(d, target, d.history[k]);
  }

  lemma InvariantStep(d: Disk, target: Path, a: Step)
    requires Invariant(d, target) && Enabled(d, a) && (a.Begin? ==> a.tmp != target)
    ensures Invariant(Do(d, target, a), target)
  {
    match a {
      case Begin(data, tmp) => BeginKeeps(d, target, data, tmp);
      case Write(n) => TempFileKeeps(d, target, File(d.writer.value.data[..n], false));
      case Sync(ok) => TempFileKeeps(d, target, d.files[d.writer.value.inode].(durable := true));
      case Rename(ok) =>
        if ok {
          RenameKeeps(d, target);
        }
      case SyncDir(ok) =>
        assert DirValid(d, target, d.history[|d.history| - 1]);
      case Cleanup => CleanupKeeps(d, target);
      case Crash(k, contents) => CrashKeeps(d, target, k, contents);
      case _ =>
    }
  }

  lemma {:induction false} EveryRun(start: Disk, target: Path, steps: seq<Step>)
    requires AtRest(start, target) && After(start, target, steps).Some? && TempsApart(target, steps)
    ensures Invariant(After(start, target, steps).value, target)
    decreases |steps|
  {
    if steps != [] {
      EveryRun(start, target, steps[..|steps| - 1]);
      InvariantStep(After(start, target, steps[..|steps| - 1]).value, target, steps[|steps| - 1]);
    }
  }

  // ----- the promises -----

  /**
   * Whenever a crash strikes, the target holds the bytes it held when the directory was last known to
   * be on disk, or all the bytes of a write renamed over it since; never part of one, never those of a
   * write that failed before its rename, and never nothing if it held something.
   */
  lemma CrashAtomic(start: Disk, target: Path, steps: seq<Step>, d: Disk, k: nat, contents: seq<Bytes>)
    requires AtRest(start, target) && TempsApart(target, steps)
    requires After(start, target, steps) == Some(d) && MayCrashTo(d, k, contents)
    ensures Complete(d, Content(OnDisk(contents), d.history[k], target))
    ensures Complete(d, Content(d.files, d.names, target))
  {
    EveryRun(start, target, steps);
    CrashKeeps(d, target, k, contents);
    assert DirValid(d, target, d.history[k]) && DirValid(d, target, d.history[|d.history| - 1]);
  }

  /** Every write begun in these steps is of these bytes. */
  predicate Saves(steps: seq<Step>, data: Bytes) {
    forall i :: 0 <= i < |steps| && steps[i].Begin? ==> steps[i].data == data
  }

  /** What the target may hold after a crash: its content in one of the directory states a crash may bring back. */
  ghost predicate Findable(d: Disk, target: Path, content: Option<Bytes>) {
    exists j :: 0 <= j < |d.history| && Content(d.files, d.history[j], target) == content
  }

  lemma FoundIsFindable(d: Disk, target: Path, k: nat, contents: seq<Bytes>)
    requires Invariant(d, target) && MayCrashTo(d, k, contents)
    ensures Findable(d, target, Content(OnDisk(contents), d.history[k], target))
  {
    CrashKeeps(d, target, k, contents);
  }

  /** A step adds to what a crash may find at most the bytes of the write under way. */
  lemma StepAddsOnly(d: Disk, target: Path, a: Step, content: Option<Bytes>)
    requires Invariant(d, target) && Enabled(d, a) && (a.Begin? ==> a.tmp != target)
    requires Findable(Do(d, target, a), target, content)
    ensures Findable(d, target, content) || (d.writer.Some? && content == Some(d.writer.value.data))
  {
    var d' := Do(d, target, a);
    var j :| 0 <= j < |d'.history| && Content(d'.files, d'.history[j], target) == content;
    assert Content(d.files, d.history[|d.history| - 1], target) == Content(d.files, d.names, target);
    if a.Crash? {
      CrashKeeps(d, target, a.k, a.contents);
      assert Content(d.files, d.history[a.k], target) == content;
    } else if j < |d.history| && !a.SyncDir? {
      assert DirValid(d, target, d.history[j]);
      assert d'.history[j] == d.history[j];
      assert Content(d.files, d.history[j], target) == content;
    } else {
      assert DirValid(d, target, d.history[|d.history| - 1]);
    }
  }

  /**
   * Whatever went before, failed writes and crashes included: saving these bytes, as often as it takes,
   * adds only these bytes to what a crash may find in the target.
   */
  lemma {:induction false} SaveAddsOnly(start: Disk, target: Path, pre: seq<Step>, save: seq<Step>, data: Bytes,
                                        d0: Disk, d: Disk)
    requires AtRest(start, target) && TempsApart(target, pre + save) && Saves(save, data)
    requires After(start, target, pre) == Some(d0) && d0.writer.None?
    requires After(start, target, pre + save) == Some(d)
    ensures d.writer.Some? ==> d.writer.value.data == data
    ensures forall content :: Findable(d, target, content) ==> Findable(d0, target, content) || content == Some(data)
    decreases |save|
  {
    if save == [] {
      assert pre + save == pre;
    } else {
      var front, a := save[..|save| - 1], save[|save| - 1];
      Split(pre, save);
      SaveAddsOnly(start, target, pre, front, data, d0, After(start, target, pre + front).value);
      EveryRun(start, target, pre + front);
      SaveStep(After(start, target, pre + front).value, target, a, data, d0, d);
    }
  }

  lemma Split(pre: seq<Step>, save: seq<Step>)
    requires save != []
    ensures (pre + save)[..|pre + save| - 1] == pre + save[..|save| - 1]
    ensures (pre + save)[|pre + save| - 1] == save[|save| - 1]
    ensures forall i :: 0 <= i < |pre + save| - 1 ==> (pre + save[..|save| - 1])[i] == (pre + save)[i]
  {
  }

  lemma SaveStep(d: Disk, target: Path, a: Step, data: Bytes, d0: Disk, d': Disk)
    requires Invariant(d, target) && Enabled(d, a) && d' == Do(d, target, a)
    requires a.Begin? ==> a.tmp != target && a.data == data
    requires d.writer.Some? ==> d.writer.value.data == data
    requires forall content :: Findable(d, target, content) ==> Findable(d0, target, content) || content == Some(data)
    ensures d'.writer.Some? ==> d'.writer.value.data == data
    ensures forall content :: Findable(d', target, content) ==> Findable(d0, target, content) || content == Some(data)
  {
    forall content | Findable(d', target, content)
      ensures Findable(d0, target, content) || content == Some(data)
    {
      StepAddsOnly(d, target, a, content);
    }
  }

  /** Every directory state a crash may bring back shows the target as it is. */
  ghost predicate AllShow(d: Disk, target: Path) {
    forall j :: 0 <= j < |d.history| ==> Content(d.files, d.history[j], target) == Content(d.files, d.names, target)
  }

  /** A crash at some moment of the next save, or of any number of attempts at it. */
  ghost predicate CrashInSave(start: Disk, target: Path, pre: seq<Step>, save: seq<Step>, data: Bytes, d: Disk,
                              k: nat, contents: seq<Bytes>) {
    && save != [] && save[0].Begin? && Saves(save, data) && TempsApart(target, pre + save)
    && After(start, target, pre + save) == Some(d) && MayCrashTo(d, k, contents)
  }

  /** The crash leaves what readers found before the save, or exactly the bytes saved. */
  ghost predicate OldOrNew(d0: Disk, target: Path, data: Bytes, d: Disk, k: nat, contents: seq<Bytes>)
    requires k < |d.history|
  {
    var found := Content(OnDisk(contents), d.history[k], target);
    found == Content(d0.files, d0.names, target) || found == Some(data)
  }

  lemma OldOrNewIf(start: Disk, target: Path, pre: seq<Step>, save: seq<Step>, data: Bytes, d0: Disk, d: Disk,
                   k: nat, contents: seq<Bytes>)
    requires AtRest(start, target) && After(start, target, pre) == Some(d0) && d0.writer.None? && AllShow(d0, target)
    requires CrashInSave(start, target, pre, save, data, d, k, contents)
    ensures OldOrNew(d0, target, data, d, k, contents)
  {
    EveryRun(start, target, pre + save);
    SaveAddsOnly(start, target, pre, save, data, d0, d);
    FoundIsFindable(d, target, k, contents);
  }

  /** A directory state that shows something else comes back in a crash just after the next save began. */
  lemma OldOrNewOnlyIf(start: Disk, target: Path, pre: seq<Step>, d0: Disk, tmp: Path, j: nat)
    returns (save: seq<Step>, data: Bytes, d: Disk, contents: seq<Bytes>)
    requires AtRest(start, target) && TempsApart(target, pre)
    requires After(start, target, pre) == Some(d0) && d0.writer.None?
    requires tmp != target && tmp !in d0.names && j < |d0.history|
    requires Content(d0.files, d0.history[j], target) != Content(d0.files, d0.names, target)
    ensures CrashInSave(start, target, pre, save, data, d, j, contents)
    ensures !OldOrNew(d0, target, data, d, j, contents)
  {
    EveryRun(start, target, pre);
    data := if Content(d0.files, d0.history[j], target) == Some([]) then [0] else [];
    save := [Begin(data, tmp)];
    d := Do(d0, target, Begin(data, tmp));
    contents := seq(|d.files|, i requires 0 <= i < |d.files| => d.files[i].data);
    assert (pre + save)[..|pre|] == pre;
    assert DirValid(d0, target, d0.history[j]);
    assert d.history[j] == d0.history[j];
  }

  /**
   * Old-or-new holds of every crash in the next save if and only if every directory state a crash may bring
   * back before it shows the target as it is: nothing was renamed over it, or the directory was synced since.
   */
  lemma OldOrNewExactly(start: Disk, target: Path, pre: seq<Step>, d0: Disk, tmp: Path)
    requires AtRest(start, target) && TempsApart(target, pre)
    requires After(start, target, pre) == Some(d0) && d0.writer.None?
    requires tmp != target && tmp !in d0.names
    ensures AllShow(d0, target) <==>
              forall save, data, d, k: nat, contents ::
                CrashInSave(start, target, pre, save, data, d, k, contents) ==>
                  OldOrNew(d0, target, data, d, k, contents)
  {
    if AllShow(d0, target) {
      forall save, data, d, k: nat, contents | CrashInSave(start, target, pre, save, data, d, k, contents)
        ensures OldOrNew(d0, target, data, d, k, contents)
      {
        OldOrNewIf(start, target, pre, save, data, d0, d, k, contents);
      }
    } else {
      var j: nat :| j < |d0.history| &&
                    Content(d0.files, d0.history[j], target) != Content(d0.files, d0.names, target);
      var save, data, d, contents := OldOrNewOnlyIf(start, target, pre, d0, tmp, j);
    }
  }

  /** It does when nothing was renamed over the target since the directory was known to be on disk. */
  lemma SettledShows(start: Disk, target: Path, pre: seq<Step>, d0: Disk)
    requires AtRest(start, target) && TempsApart(target, pre) && After(start, target, pre) == Some(d0) && d0.since == []
    ensures AllShow(d0, target)
  {
    EveryRun(start, target, pre);
    assert DirValid(d0, target, d0.history[|d0.history| - 1]);
    forall j | 0 <= j < |d0.history|
      ensures Content(d0.files, d0.history[j], target) == Content(d0.files, d0.names, target)
    {
      assert DirValid(d0, target, d0.history[j]);
    }
  }

  // ----- a rename whose directory sync failed -----

  /** A save of these bytes that installs them, but whose sync of the directory fails, which the code ignores. */
  function Unsynced(data: Bytes, tmp: Path): seq<Step> {
    [Begin(data, tmp), Chmod(true), Write(|data|), Sync(true), CloseFile(true)] +
    [Rename(true), SyncDir(false), Cleanup]
  }

  lemma Next(start: Disk, target: Path, steps: seq<Step>, d: Disk, a: Step)
    requires After(start, target, steps) == Some(d) && Enabled(d, a)
    ensures After(start, target, steps + [a]) == Some(Do(d, target, a))
  {
    assert (steps + [a])[..|steps|] == steps;
  }

  /** After it a crash in the next save may bring back content older than what readers had found. */
  lemma UnsyncedRename(start: Disk, target: Path, data: Bytes, tmp: Path)
    requires AtRest(start, target) && tmp != target && tmp !in start.names
    requires Content(start.files, start.names, target) != Some(data)
    ensures After(start, target, Unsynced(data, tmp)).Some?
    ensures var d := After(start, target, Unsynced(data, tmp)).value;
            && d.writer.None? && Content(d.files, d.names, target) == Some(data)
            && Findable(d, target, Content(start.files, start.names, target)) && !AllShow(d, target)
  {
    WrittenOut(start, target, data, tmp);
    var n := |start.files|;
    var names := start.names[tmp := n];
    var w := Writer(tmp, n, data, Closed);
    var d5 := Disk(names, start.files + [File(data, true)], [start.names, names], Some(w), start.settled, []);
    var s5 := [Begin(data, tmp), Chmod(true), Write(|data|), Sync(true), CloseFile(true)];
    var d6 := Do(d5, target, Rename(true));
    Next(start, target, s5, d5, Rename(true));
    Next(start, target, s5 + [Rename(true)], d6, SyncDir(false));
    var d7 := Do(d6, target, SyncDir(false));
    Next(start, target, s5 + [Rename(true)] + [SyncDir(false)], d7, Cleanup);
    assert s5 + [Rename(true)] + [SyncDir(false)] + [Cleanup] == Unsynced(data, tmp);
    var d8 := Do(d7, target, Cleanup);
    assert d8.history[0] == start.names && d8.names[target] == n;
    assert Content(d8.files, d8.history[0], target) == Content(start.files, start.names, target);
  }

  /** The first five steps leave the bytes in the temporary file, on disk. */
  lemma WrittenOut(start: Disk, target: Path, data: Bytes, tmp: Path)
    requires AtRest(start, target) && tmp != target && tmp !in start.names
    ensures var n := |start.files|;
            var names := start.names[tmp := n];
            After(start, target, [Begin(data, tmp), Chmod(true), Write(|data|), Sync(true), CloseFile(true)]) ==
              Some(Disk(names, start.files + [File(data, true)], [start.names, names],
                        Some(Writer(tmp, n, data, Closed)), start.settled, []))
  {
    var n := |start.files|;
    var names := start.names[tmp := n];
    var d1 := Disk(names, start.files + [File([], false)], [start.names, names],
                   Some(Writer(tmp, n, data, Created)), start.settled, []);
    Next(start, target, [], start, Begin(data, tmp));
    assert [start.names] + [names] == [start.names, names];
    assert Do(start, target, Begin(data, tmp)) == d1;
    assert [] + [Begin(data, tmp)] == [Begin(data, tmp)];
    Written5(start, target, data, tmp, d1);
  }

  lemma Written5(start: Disk, target: Path, data: Bytes, tmp: Path, d1: Disk)
    requires After(start, target, [Begin(data, tmp)]) == Some(d1)
    requires d1.writer == Some(Writer(tmp, |d1.files| - 1, data, Created)) && |d1.files| == |start.files| + 1
    requires d1.files == start.files + [File([], false)]
    ensures After(start, target, [Begin(data, tmp), Chmod(true), Write(|data|), Sync(true), CloseFile(true)]) ==
              Some(d1.(files := start.files + [File(data, true)],
                       writer := Some(Writer(tmp, |start.files|, data, Closed))))
  {
    var n := |start.files|;
    var s1 := [Begin(data, tmp)];
    Next(start, target, s1, d1, Chmod(true));
    var d2 := d1.(writer := Some(Writer(tmp, n, data, Ready)));
    Next(start, target, s1 + [Chmod(true)], d2, Write(|data|));
    var d3 := d1.(files := start.files + [File(data, false)], writer := Some(Writer(tmp, n, data, Written)));
    assert data[..|data|] == data;
    assert d2.files[n := File(data, false)] == d3.files;
    Next(start, target, s1 + [Chmod(true)] + [Write(|data|)], d3, Sync(true));
    var d4 := d1.(files := start.files + [File(data, true)], writer := Some(Writer(tmp, n, data, Synced)));
    assert d3.files[n := File(data, true)] == d4.files;
    Next(start, target, s1 + [Chmod(true)] + [Write(|data|)] + [Sync(true)], d4, CloseFile(true));
    assert s1 + [Chmod(true)] + [Write(|data|)] + [Sync(true)] + [CloseFile(true)] ==
           [Begin(data, tmp), Chmod(true), Write(|data|), Sync(true), CloseFile(true)];
  }

  // ----- more promises -----

  /** A rename that succeeds installs all the new bytes. */
  lemma RenameInstalls(start: Disk, target: Path, steps: seq<Step>, d: Disk)
    requires AtRest(start, target) && TempsApart(target, steps)
    requires After(start, target, steps) == Some(d) && Enabled(d, Rename(true))
    ensures var d' := Do(d, target, Rename(true));
            Content(d'.files, d'.names, target) == Some(d.writer.value.data)
  {
    EveryRun(start, target, steps);
    assert DirValid(d, target, d.history[|d.history| - 1]);
  }

  /** Once the rename is on disk a crash can only find the new bytes. */
  lemma SettledIsNew(start: Disk, target: Path, steps: seq<Step>, d: Disk, k: nat, contents: seq<Bytes>)
    requires AtRest(start, target) && TempsApart(target, steps)
    requires After(start, target, steps) == Some(d) && Enabled(d, SyncDir(true))
    requires MayCrashTo(Do(d, target, SyncDir(true)), k, contents)
    ensures Content(OnDisk(contents), Do(d, target, SyncDir(true)).history[k], target) ==
              Content(d.files, d.names, target)
  {
    EveryRun(start, target, steps);
    var d' := Do(d, target, SyncDir(true));
    InvariantStep(d, target, SyncDir(true));
    CrashKeeps(d', target, k, contents);
  }

  /** The deferred cleanup, after success or failure, leaves what the target holds. */
  lemma CleanupSparesTarget(start: Disk, target: Path, steps: seq<Step>, d: Disk)
    requires AtRest(start, target) && TempsApart(target, steps)
    requires After(start, target, steps) == Some(d) && Enabled(d, Cleanup)
    ensures var d' := Do(d, target, Cleanup);
            Content(d'.files, d'.names, target) == Content(d.files, d.names, target)
  {
    EveryRun(start, target, steps);
    CleanupKeeps(d, target);
  }

  /** The steps of a write that can fail so that it is given up; the sync of the directory is not one. */
  ghost predicate Fails(d: Disk, a: Step) {
    match a
    case Chmod(ok) => !ok
    case Write(n) => d.writer.Some? && n < |d.writer.value.data|
    case Sync(ok) => !ok
    case CloseFile(ok) => !ok
    case Rename(ok) => !ok
    case _ => false
  }

  /** After a failing step only the cleanup is left, and what readers of the target find has not changed. */
  lemma FailureEndsWrite(start: Disk, target: Path, steps: seq<Step>, d: Disk, a: Step)
    requires AtRest(start, target) && TempsApart(target, steps)
    requires After(start, target, steps) == Some(d) && Enabled(d, a) && Fails(d, a)
    ensures var d' := Do(d, target, a);
            && d'.names == d.names && Content(d'.files, d'.names, target) == Content(d.files, d.names, target)
            && forall b :: Enabled(d', b) ==> b.Cleanup? || b.Crash?
  {
    EveryRun(start, target, steps);
    assert DirValid(d, target, d.history[|d.history| - 1]);
  }

  /** A write in progress has touched nothing but the target and its own temporary file. */
  ghost predicate Tidy(d0: Disk, target: Path, d: Disk) {
    && d0.files <= d.files
    && (d.writer.Some? ==> d.writer.value.tmp !in d0.names && |d0.files| <= d.writer.value.inode < |d.files|)
    && (forall p :: p != target && (d.writer.None? || p != d.writer.value.tmp) ==> SameAt(d0.names, d.names, p))
  }

  ghost predicate SameAt(was: map<Path, nat>, names: map<Path, nat>, p: Path) {
    if p in was then p in names && names[p] == was[p] else p !in names
  }

  lemma TidyStep(d0: Disk, target: Path, d: Disk, a: Step)
    requires Tidy(d0, target, d) && Enabled(d, a) && !a.Crash? && (a.Begin? ==> a.tmp != target)
    ensures Tidy(d0, target, Do(d, target, a))
  {
    var d' := Do(d, target, a);
    if a.Begin? {
      assert SameAt(d0.names, d.names, a.tmp);
    }
    forall p | p != target && (d'.writer.None? || p != d'.writer.value.tmp)
      ensures SameAt(d0.names, d'.names, p)
    {
      assert d.writer.None? || p != d.writer.value.tmp ==> SameAt(d0.names, d.names, p);
    }
  }

  lemma {:induction false} TidyRun(d0: Disk, target: Path, steps: seq<Step>, d: Disk)
    requires d0.writer.None? && TempsApart(target, steps) && After(d0, target, steps) == Some(d)
    requires forall i :: 0 <= i < |steps| ==> !steps[i].Crash?
    ensures Tidy(d0, target, d)
    decreases |steps|
  {
    if steps != [] {
      var v := After(d0, target, steps[..|steps| - 1]).value;
      TidyRun(d0, target, steps[..|steps| - 1], v);
      TidyStep(d0, target, v, steps[|steps| - 1]);
    }
  }

  /**
   * Writes that ran to their deferred cleanup, whatever failed in them, leave no temporary file: every name but
   * the target's is there exactly if it was before, for the same file, and no file that was there has changed.
   */
  lemma NothingLeftBehind(d0: Disk, target: Path, steps: seq<Step>, d: Disk)
    requires d0.writer.None? && TempsApart(target, steps) && After(d0, target, steps) == Some(d) && d.writer.None?
    requires forall i :: 0 <= i < |steps| ==> !steps[i].Crash?
    ensures d.names - {target} == d0.names - {target} && d0.files <= d.files
  {
    TidyRun(d0, target, steps, d);
    SameElsewhere(d0.names, d.names, target);
  }

  lemma SameElsewhere(was: map<Path, nat>, names: map<Path, nat>, target: Path)
    requires forall p :: p != target ==> SameAt(was, names, p)
    ensures names - {target} == was - {target}
  {
    assert forall p :: p in (names - {target}) ==> SameAt(was, names, p);
    assert forall p :: p in (was - {target}) ==> SameAt(was, names, p);
  }

  /** The proviso is needed: the temporary file is what readers of the target see exactly if it has its name. */
  lemma BeginExposesIff(d: Disk, target: Path, data: Bytes, tmp: Path)
    requires Enabled(d, Begin(data, tmp)) && forall p :: p in d.names ==> d.names[p] < |d.files|
    ensures var d' := Do(d, target, Begin(data, tmp));
            Content(d'.files, d'.names, target) != Content(d.files, d.names, target) <==> tmp == target
  {
  }

  /** And the deferred cleanup removes the target exactly if the temporary file has its name. */
  lemma CleanupRemovesIff(d: Disk, target: Path)
    requires Enabled(d, Cleanup) && target in d.names
    ensures target !in Do(d, target, Cleanup).names <==> d.writer.value.tmp == target
  {
  }
}
