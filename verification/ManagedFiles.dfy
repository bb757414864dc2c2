/** Managed files: `writeManagedFile`, `snapshotManagedFiles`, `rollbackManagedFiles`, and `Apply` with its rollback.
    Which system calls fail is an input. */
module ManagedFiles {
  import opened Common
  import opened Text
  import opened Paths
  import opened FileTree

  // ---------------------------------------------------------------- failing calls

  /** A write is one of the list's or one of the rollback's. */
  datatype Turn = Applying(i: nat) | Restoring(i: nat)

  /** The calls of one `Apply` that can fail; `Replace` stands for the temporary file and its renaming. */
  datatype Call =
    | Preflight
    | Read(path: string)
    | MakeDirectory(turn: Turn, dir: string)
    | Replace(turn: Turn)
    | Remove(i: nat)
    | Reload
    | Validate
    | Network
    | Start
    | Disable

  type Faults = set<Call>

  /** No call of the rollback fails. */
  predicate RestoresWork(faults: Faults) {
    forall c :: c in faults ==> !c.Remove? && !((c.MakeDirectory? || c.Replace?) && c.turn.Restoring?)
  }

  /** No call of the writes fails. */
  predicate WritesWork(faults: Faults) {
    forall c :: c in faults ==> !((c.MakeDirectory? || c.Replace?) && c.turn.Applying?)
  }

  // ---------------------------------------------------------------- when each step succeeds

  /** A write succeeds: the path and mode are valid, neither a symlink nor a directory is in the way, and no call
      fails. */
  ghost predicate Writable(fs: FileSystem, file: Spec, turn: Turn, faults: Faults) {
    && Resolve(file.path).Some? && ParseMode(file.mode).Ok?
    && var path := Resolve(file.path).value;
       && Clear(fs, path) && !(path in fs && fs[path].Directory?) && Replace(turn) !in faults
       && forall a :: Above(a, path) && a !in fs ==> MakeDirectory(turn, a) !in faults
  }

  /** A backup of the path can be taken. */
  ghost predicate Readable(fs: FileSystem, path: string, faults: Faults) {
    Clear(fs, path) && (path in fs ==> !fs[path].Directory? && Read(path) !in faults)
  }

  ghost predicate Snapshotable(fs: FileSystem, files: seq<Spec>, faults: Faults) {
    forall f :: f in files ==> Resolve(f.path).Some? && Readable(fs, Resolve(f.path).value, faults)
  }

  /** The file that a backup holds. */
  function OldFile(b: Backup): Spec {
    Spec(b.path, b.content, FormatMode(b.perm % 512))
  }

  lemma WritesBack(b: Backup, before: FileSystem, fs: FileSystem, i: nat, faults: Faults)
    requires Describes(b, before) && b.existed
    ensures Writable(fs, OldFile(b), Restoring(i), faults) <==> Restorable(fs, b, i, faults)
  {
    OldFileIs(b, before);
  }

  lemma OldMode(perm: nat)
    requires perm < 512
    ensures perm % 512 == perm && ParseMode(FormatMode(perm % 512)) == Ok(perm)
  {
    ModeRoundTrip(perm);
  }

  lemma OldFileIs(b: Backup, fs: FileSystem)
    requires Describes(b, fs)
    ensures OldFile(b) == Spec(CleanAbs(b.path), b.content, FormatMode(b.perm))
    ensures Resolve(OldFile(b).path) == Some(b.path) && ParseMode(OldFile(b).mode) == Ok(b.perm)
            && b.perm % 512 == b.perm
  {
    OldMode(b.perm);
  }

  /** Turn `i` of the rollback succeeds: the old file can be written, or what is at the new path can be removed, which
      for a directory means that it is empty. */
  ghost predicate Restorable(fs: FileSystem, b: Backup, i: nat, faults: Faults) {
    && Clear(fs, b.path)
    && if b.existed then
         && !(b.path in fs && fs[b.path].Directory?) && Replace(Restoring(i)) !in faults
         && forall a :: Above(a, b.path) && a !in fs ==> MakeDirectory(Restoring(i), a) !in faults
       else b.path in fs ==> Remove(i) !in faults && !exists q :: q in fs && Above(b.path, q)
  }

  function RestoredTo(fs: FileSystem, b: Backup): FileSystem {
    if b.existed then fs[b.path := File(b.content, b.perm)] else fs - {b.path}
  }

  /** The file system after the turns from the last backup down to `i`. */
  ghost function RollbackFrom(fs: FileSystem, backups: seq<Backup>, i: nat, faults: Faults): FileSystem
    requires i <= |backups|
    decreases |backups| - i
  {
    if i == |backups| then fs
    else
      var next := RollbackFrom(fs, backups, i + 1, faults);
      if Restorable(next, backups[i], i, faults) then RestoredTo(next, backups[i]) else next
  }

  ghost predicate RestorableAt(fs: FileSystem, backups: seq<Backup>, i: nat, faults: Faults)
    requires i < |backups|
  {
    Restorable(RollbackFrom(fs, backups, i + 1, faults), backups[i], i, faults)
  }

  /** Every turn of the rollback succeeds. */
  ghost predicate AllRestorable(fs: FileSystem, backups: seq<Backup>, faults: Faults) {
    forall i :: 0 <= i < |backups| ==> RestorableAt(fs, backups, i, faults)
  }

  /** The managed paths in order of their first occurrence. */
  function FirstPaths(files: seq<Spec>): seq<string> {
    if files == [] then []
    else
      var front, p := FirstPaths(files[..|files| - 1]), Resolve(files[|files| - 1].path);
      if p.Some? && p.value !in front then front + [p.value] else front
  }

  predicate BackupsOf(backups: seq<Backup>, paths: seq<string>) {
    |backups| == |paths| && forall i :: 0 <= i < |paths| ==> backups[i].path == paths[i]
  }

  /** No path of the one list lies above a path of the other. */
  ghost predicate Unnested(some: seq<Spec>, all: seq<Spec>) {
    forall p, q :: p in Managed(some) && q in Managed(all) ==> !Above(p, q) && !Above(q, p)
  }

  /** Some stage after the writes fails. */
  predicate StageFails(hasUnit: bool, enabled: bool, faults: Faults) {
    Reload in faults || Validate in faults || Network in faults || (hasUnit && enabled && Start in faults)
  }

  /** The write at `i` succeeds after the ones before it. */
  ghost predicate WritableAt(fs: FileSystem, files: seq<Spec>, i: nat, faults: Faults)
    requires i < |files|
  {
    Writable(Written(fs, files[..i]), files[i], Applying(i), faults)
  }

  /** Exactly the first `n` writes complete. */
  ghost predicate Completes(fs: FileSystem, files: seq<Spec>, n: nat, faults: Faults) {
    && n <= |files| && (forall i :: 0 <= i < n ==> WritableAt(fs, files, i, faults))
    && (n < |files| ==> !WritableAt(fs, files, n, faults))
  }

  /** How `Apply` ended. */
  datatype Exit =
    | Refused                       // before any write
    | RolledBack(ok: bool)          // with a rollback and its result
    | FailedDisabled                // the two failing exits of a disabled instance, without rollback
    | Applied

  class Host {
    var fs: FileSystem

    constructor (fs: FileSystem)
      ensures this.fs == fs
    {
      this.fs := fs;
    }

    /** `rejectSymlinkPath`: the walk down to the path stops at the first directory that does not exist. */
    method IsClear(path: string) returns (ok: bool)
      requires Tree(fs)
      ensures ok <==> Clear(fs, path)
    {
      if path == "/" {
        return false;
      }
      for i := 0 to |path|
        invariant forall k :: 1 <= k < i && path[k] == '/' ==> path[..k] in fs && fs[path[..k]].Directory?
      {
        if i > 0 && path[i] == '/' {
          var current := path[..i];
          assert Above(current, path);
          if current !in fs {
            BelowMissing(fs, current, path);
            return true;
          }
          if !fs[current].Directory? {
            return false;
          }
        }
      }
      AboveIsPrefix(path);
      return !(path in fs && fs[path].Symlink?);
    }

    /** `os.MkdirAll` on the directory of `path`, from the top down; a failure leaves what was made so far. */
    method MakeDirectories(path: string, turn: Turn, faults: Faults) returns (ok: bool)
      requires Tree(fs) && Clear(fs, path)
      modifies this
      ensures Tree(fs) && Clear(fs, path)
      ensures ok <==> forall a :: Above(a, path) && a !in old(fs) ==> MakeDirectory(turn, a) !in faults
      ensures ok ==> fs == WithDirectories(old(fs), path)
      ensures forall p :: SameAt(fs, old(fs), p) || (p !in old(fs) && p in fs && fs[p] == Directory && Above(p, path))
    {
      for i := 0 to |path|
        invariant Tree(fs) && Clear(fs, path)
        invariant forall p :: SameAt(fs, old(fs), p)
                              || (p !in old(fs) && p in fs && fs[p] == Directory && Above(p, path))
        invariant forall k :: 1 <= k < i && path[k] == '/' ==> path[..k] in fs
        invariant forall k :: 1 <= k < i && path[k] == '/' && path[..k] !in old(fs) ==>
                                MakeDirectory(turn, path[..k]) !in faults
        invariant forall k :: i <= k < |path| && path[..k] in fs ==> path[..k] in old(fs)
      {
        if i > 0 && path[i] == '/' && path[..i] !in fs {
          assert Above(path[..i], path);
          if MakeDirectory(turn, path[..i]) in faults {
            assert path[..i] !in old(fs) by {
              assert SameAt(fs, old(fs), path[..i]);
            }
            return false;
          }
          TreeWithDirectory(fs, path, i);
          LongerPrefixes(path, i);
          fs := fs[path[..i] := Directory];
        }
      }
      AboveIsPrefix(path);
      return true;
    }

    /** `writeManagedFile`: the directories above the path are made first and stay if the write then fails; the
        content goes to a temporary file that is renamed into place, so the path itself is written as a whole or not
        at all. */
    method Write(file: Spec, turn: Turn, faults: Faults) returns (ok: bool)
      requires Tree(fs)
      modifies this
      ensures Tree(fs)
      ensures ok <==> Writable(old(fs), file, turn, faults)
      ensures ok ==> fs == WithDirectories(old(fs), Resolve(file.path).value)
                             [Resolve(file.path).value := File(file.content, ParseMode(file.mode).value % 512)]
      ensures !ok ==>
                forall p :: SameAt(fs, old(fs), p)
                            || (p !in old(fs) && p in fs && fs[p] == Directory && Resolve(file.path).Some?
                               && Above(p, Resolve(file.path).value))
      ensures Resolve(file.path).None? || ParseMode(file.mode).Err? || !Clear(old(fs), Resolve(file.path).value) ==>
                fs == old(fs)
    {
      var path := CleanAbs(file.path);
      if path == "" || !SafeChars(path) {
        return false;
      }
      var mode := ParseMode(file.mode);
      if mode.Err? {
        return false;
      }
      var clear := IsClear(path);
      if !clear {
        return false;
      }
      var made := MakeDirectories(path, turn, faults);
      if !made {
        return false;
      }
      if Replace(turn) in faults || (path in fs && fs[path].Directory?) {
        return false;
      }
      TreeWithFile(fs, path, File(file.content, mode.value % 512));
      fs := fs[path := File(file.content, mode.value % 512)];
      return true;
    }

    /** The backup of one path. */
    method Inspect(path: string, faults: Faults) returns (r: Result<Backup>)
      requires Tree(fs) && PermissionBits(fs) && Resolve(path) == Some(path)
      ensures r.Ok? <==> Readable(fs, path, faults)
      ensures r.Ok? ==> r.value.path == path && Describes(r.value, fs)
    {
      var clear := IsClear(path);
      if !clear {
        return Err("managed file path or parent must not be a symlink");
      }
      if path !in fs {
        return Ok(Backup(path, false, "", 0));
      }
      if fs[path].Directory? {
        return Err("managed file path is a directory");
      }
      if Read(path) in faults {
        return Err("read failed");
      }
      return Ok(Backup(path, true, fs[path].content, fs[path].perm));
    }

    /** `snapshotManagedFiles` */
    method Snapshot(files: seq<Spec>, faults: Faults) returns (r: Result<seq<Backup>>)
      requires Tree(fs) && PermissionBits(fs)
      ensures r.Ok? <==> Snapshotable(fs, files, faults)
      ensures r.Ok? ==> BackedUp(fs, files, r.value)
    {
      var backups: seq<Backup> := [];
      var seen: set<string> := {};
      NothingBackedUp(fs, files, faults);
      for i := 0 to |files|
        invariant BackedUp(fs, files[..i], backups) && seen == Managed(files[..i])
        invariant Snapshotable(fs, files[..i], faults)
      {
        SnapshotStep(fs, files, i, faults);
        var path := CleanAbs(files[i].path);
        if path == "" {
          return Err("managed file path is empty");
        }
        if path in seen {
          SeenAgain(fs, files, i, backups, faults);
          continue;
        }
        if !SafeChars(path) {
          return Err("managed file path contains unsafe characters");
        }
        ResolveIsStable(files[i].path);
        var b := Inspect(path, faults);
        if b.Err? {
          return Err(b.error);
        }
        OneMoreBackup(fs, files, i, backups, b.value);
        seen := seen + {path};
        backups := backups + [b.value];
      }
      assert files[..|files|] == files;
      return Ok(backups);
    }

    /** `rollbackManagedFiles`: from the last backup to the first; `ok` when nothing failed.  Paths without a backup
        stay as they are, directories that the writes made included. */
    method Rollback(backups: seq<Backup>, faults: Faults, ghost before: FileSystem) returns (ok: bool)
      requires Tree(before) && Faithful(backups, before)
      requires Tree(fs) && Kept(before, fs)
      modifies this
      ensures fs == RollbackFrom(old(fs), backups, 0, faults)
      ensures ok <==> AllRestorable(old(fs), backups, faults)
      ensures ok ==> RestoredFrom(fs, before, backups, 0)
      ensures SameOff(fs, old(fs), PathsOf(backups))
    {
      ok := true;
      var i := |backups|;
      ghost var start := fs;
      assert RollbackAt(start, before, fs, backups, i, ok, faults);
      while i > 0
        invariant 0 <= i <= |backups|
        invariant Tree(fs) && Kept(before, fs) && RollbackAt(start, before, fs, backups, i, ok, faults)
      {
        i := i - 1;
        ghost var previous := fs;
        var restored := Restore(backups[i], i, faults, before);
        RollbackStep(start, before, previous, fs, backups, i, ok, restored, faults);
        ok := ok && restored;
      }
    }

    /** One turn of the rollback loop. */
    method Restore(backup: Backup, i: nat, faults: Faults, ghost before: FileSystem) returns (ok: bool)
      requires Tree(before) && Describes(backup, before)
      requires Tree(fs) && Kept(before, fs)
      modifies this
      ensures Tree(fs) && Kept(before, fs)
      ensures ok <==> Restorable(old(fs), backup, i, faults)
      ensures fs == if ok then RestoredTo(old(fs), backup) else old(fs)
      ensures ok ==> SameAt(fs, before, backup.path)
      ensures SameOff(fs, old(fs), {backup.path})
    {
      var path := CleanAbs(backup.path);
      if path == "" {
        return false;
      }
      ghost var previous := fs;
      if backup.existed {
        ok := WriteBack(backup, i, faults, before);
      } else {
        ok := RemoveNew(path, i, faults);
      }
      if ok {
        TurnKeepsTree(before, previous, backup, i, faults);
      }
    }

    /** The old content and mode are written again; no directory is missing then. */
    method WriteBack(backup: Backup, i: nat, faults: Faults, ghost before: FileSystem) returns (ok: bool)
      requires Tree(before) && Describes(backup, before) && backup.existed
      requires Tree(fs) && Kept(before, fs)
      modifies this
      ensures ok <==> Restorable(old(fs), backup, i, faults)
      ensures fs == if ok then RestoredTo(old(fs), backup) else old(fs)
    {
      OldFileIs(backup, before);
      WritesBack(backup, before, fs, i, faults);
      NoneMissing(before, fs, backup.path);
      ok := Write(Spec(CleanAbs(backup.path), backup.content, FormatMode(backup.perm)), Restoring(i), faults);
      if !ok {
        SameEverywhere(fs, old(fs));
      }
    }

    /** `os.Remove` also removes a directory if it is empty; a path that is gone already is no failure. */
    method RemoveNew(path: string, i: nat, faults: Faults) returns (ok: bool)
      requires Tree(fs)
      modifies this
      ensures ok <==> Restorable(old(fs), Backup(path, false, "", 0), i, faults)
      ensures fs == if ok then old(fs) - {path} else old(fs)
    {
      var clear := IsClear(path);
      if !clear {
        return false;
      }
      if path !in fs {
        assert fs - {path} == fs;
        return true;
      }
      if Remove(i) in faults || exists q :: q in fs && Above(path, q) {
        return false;
      }
      fs := fs - {path};
      return true;
    }

    /** The loop of writes. */
    method WriteAll(files: seq<Spec>, faults: Faults) returns (ok: bool, ghost written: nat, ghost made: set<string>)
      requires Tree(fs)
      modifies this
      ensures Completes(old(fs), files, written, faults) && (ok <==> written == |files|)
      ensures Progress(old(fs), fs, files, written, made)
      ensures ok ==> fs == Written(old(fs), files)
      ensures ok || WritesWork(faults) ==> made == Missing(old(fs), files[..written])
    {
      written, made := 0, {};
      ghost var start := fs;
      WroteNothing(start, files, faults);
      for i := 0 to |files|
        invariant written == i && WroteAt(start, fs, files, i, made, faults)
      {
        ghost var previous := fs;
        ok := Write(files[i], Applying(i), faults);
        if !ok {
          FailedWrite(start, previous, fs, files, i, made);
          if WritesWork(faults) {
            NothingMade(previous, fs, files, i, faults);
          }
          made := made + NewAbove(previous, fs, files[i]);
          return;
        }
        WroteNext(start, previous, fs, files, i, made, faults);
        made := made + NewAbove(previous, fs, files[i]);
        written := i + 1;
      }
      assert files[..|files|] == files;
      ok := true;
    }

    /** `Apply`: the checks before it, the snapshot, the writes, and the stages after them.  `written` counts the
        completed writes and `made` holds the directories that writes made. */
    method Apply(files: seq<Spec>, hasUnit: bool, enabled: bool, faults: Faults)
      returns (exit: Exit, ghost written: nat, ghost made: set<string>)
      requires Tree(fs) && PermissionBits(fs)
      modifies this
      // which exit
      ensures exit == Refused <==> Preflight in faults || !Snapshotable(old(fs), files, faults)
      ensures exit != Refused ==> Completes(old(fs), files, written, faults)
      ensures exit != Refused && WritesWork(faults) ==>
                (written == |files| <==> (forall f :: f in files ==> ParseMode(f.mode).Ok?) && Unnested(files, files))
      ensures exit.RolledBack? <==> exit != Refused && (written < |files| || StageFails(hasUnit, enabled, faults))
      ensures exit == FailedDisabled <==>
                && exit != Refused && written == |files| && !StageFails(hasUnit, enabled, faults)
                && hasUnit && !enabled && Disable in faults
      ensures exit.RolledBack? && RestoresWork(faults) && made == Missing(old(fs), files[..written]) ==>
                (exit.ok <==> Unnested(files[..written], files))
      // which state
      ensures exit == Refused ==> fs == old(fs)
      ensures exit == RolledBack(true) ==> fs == AfterRollback(old(fs), files, made)
      ensures exit == Applied || exit == FailedDisabled ==> fs == Written(old(fs), files)
      ensures forall p :: p !in Managed(files) && p !in made ==> SameAt(fs, old(fs), p)
      ensures written <= |files| && Missing(old(fs), files[..written]) <= made <= Missing(old(fs), files)
      ensures written == |files| || WritesWork(faults) ==> made == Missing(old(fs), files[..written])
      ensures FilesApart(files[..written], made)
    {
      written, made := 0, {};
      ghost var start := fs;
      assert files[..0] == [] && Missing(fs, files[..0]) == {};
      if Preflight in faults {
        return Refused, written, made;
      }
      var taken := Snapshot(files, faults);
      if taken.Err? {
        return Refused, written, made;
      }
      var completed;
      completed, written, made := WriteAll(files, faults);
      OnlyWritten(start, fs, files, written, made);
      if WritesWork(faults) {
        WritesCompleteIff(start, files, faults);
      }
      if !completed || StageFails(hasUnit, enabled, faults) {
        exit := RollbackAfter(taken.value, files, faults, start, written, made);
        return;
      }
      if hasUnit && !enabled && Disable in faults {
        return FailedDisabled, written, made;
      }
      return Applied, written, made;
    }

    /** The rollback closure of `Apply`. */
    method RollbackAfter(backups: seq<Backup>, ghost files: seq<Spec>, faults: Faults, ghost before: FileSystem,
            ghost n: nat, ghost made: set<string>)
      returns (exit: Exit)
      requires Tree(before) && BackedUp(before, files, backups) && Snapshotable(before, files, faults)
      requires n <= |files| && Progress(before, fs, files, n, made)
      modifies this
      ensures exit.RolledBack? && (exit.ok <==> AllRestorable(old(fs), backups, faults))
      ensures exit.ok ==> fs == AfterRollback(before, files, made)
      ensures RestoresWork(faults) && made == Missing(before, files[..n]) ==> (exit.ok <==> Unnested(files[..n], files))
      ensures forall p :: p !in Managed(files) && p !in made ==> SameAt(fs, before, p)
    {
      ghost var mid := fs;
      OnlyWritten(before, mid, files, n, made);
      var ok := Rollback(backups, faults, before);
      if RestoresWork(faults) && made == Missing(before, files[..n]) {
        RestorableIff(before, mid, files, n, backups, faults);
      }
      if ok {
        RolledBackTo(before, mid, fs, files, n, made, backups);
      }
      SameOffChain2(fs, mid, before, PathsOf(backups), made);
      return RolledBack(ok);
    }
  }

  // ---------------------------------------------------------------- the snapshot loop

  /** The backups of a list: faithful, and one for each managed path in order of first occurrence. */
  ghost predicate BackedUp(fs: FileSystem, files: seq<Spec>, backups: seq<Backup>) {
    Faithful(backups, fs) && PathsOf(backups) == Managed(files) && BackupsOf(backups, FirstPaths(files))
  }

  lemma NothingBackedUp(fs: FileSystem, files: seq<Spec>, faults: Faults)
    ensures BackedUp(fs, files[..0], []) && Managed(files[..0]) == {} && Snapshotable(fs, files[..0], faults)
  {
    assert files[..0] == [];
  }

  /** What one more file asks of the snapshot. */
  lemma SnapshotStep(fs: FileSystem, files: seq<Spec>, i: nat, faults: Faults)
    requires i < |files|
    ensures Snapshotable(fs, files[..i + 1], faults) <==>
              && Snapshotable(fs, files[..i], faults)
              && Resolve(files[i].path).Some? && Readable(fs, Resolve(files[i].path).value, faults)
    ensures !Snapshotable(fs, files[..i + 1], faults) ==> !Snapshotable(fs, files, faults)
  {
    assert files[..i + 1] == files[..i] + [files[i]];
    assert forall f :: f in files[..i + 1] <==> f in files[..i] || f == files[i];
    assert forall f :: f in files[..i + 1] ==> f in files;
  }

  lemma FirstPathsStep(files: seq<Spec>, i: nat)
    requires i < |files|
    ensures FirstPaths(files[..i + 1])
            == var front, p := FirstPaths(files[..i]), Resolve(files[i].path);
               if p.Some? && p.value !in front then front + [p.value] else front
  {
    assert files[..i + 1][..i] == files[..i] && files[..i + 1][i] == files[i];
  }

  /** A path seen before gets no second backup. */
  lemma {:induction false} SeenAgain(fs: FileSystem, files: seq<Spec>, i: nat, backups: seq<Backup>, faults: Faults)
    requires i < |files| && BackedUp(fs, files[..i], backups) && Snapshotable(fs, files[..i], faults)
    requires CleanAbs(files[i].path) in Managed(files[..i])
    ensures BackedUp(fs, files[..i + 1], backups) && Managed(files[..i + 1]) == Managed(files[..i])
    ensures Snapshotable(fs, files[..i + 1], faults)
  {
    ManagedStep(files, i);
    FirstPathsStep(files, i);
    FirstPathsAre(files[..i], CleanAbs(files[i].path));
    ReadableAgain(fs, files[..i], CleanAbs(files[i].path), faults);
    SnapshotStep(fs, files, i, faults);
  }

  lemma {:induction false} OneMoreBackup(fs: FileSystem, files: seq<Spec>, i: nat, backups: seq<Backup>, b: Backup)
    requires i < |files| && BackedUp(fs, files[..i], backups) && Resolve(files[i].path) == Some(b.path)
    requires b.path !in Managed(files[..i]) && Describes(b, fs)
    ensures BackedUp(fs, files[..i + 1], backups + [b]) && Managed(files[..i + 1]) == Managed(files[..i]) + {b.path}
  {
    ManagedStep(files, i);
    FirstPathsStep(files, i);
    FirstPathsAre(files[..i], b.path);
    FaithfulStep(backups, fs, b);
  }

  lemma LongerPrefixes(path: string, i: nat)
    requires i < |path|
    ensures forall k :: i < k <= |path| ==> path[..k] != path[..i]
  {
  }

  // ---------------------------------------------------------------- the loops of writes and of the rollback

  /** The turns from the last down to `i` succeed. */
  ghost predicate RestorableFrom(fs: FileSystem, backups: seq<Backup>, i: nat, faults: Faults) {
    forall j :: i <= j < |backups| ==> RestorableAt(fs, backups, j, faults)
  }

  lemma NextTurn(fs: FileSystem, backups: seq<Backup>, i: nat, faults: Faults)
    requires i < |backups|
    ensures RestorableFrom(fs, backups, i, faults) <==>
              RestorableAt(fs, backups, i, faults) && RestorableFrom(fs, backups, i + 1, faults)
    ensures RollbackFrom(fs, backups, i, faults)
            == var next := RollbackFrom(fs, backups, i + 1, faults);
               if RestorableAt(fs, backups, i, faults) then RestoredTo(next, backups[i]) else next
  {
  }

  /** The rollback loop after the turns from the last down to `i`. */
  ghost predicate RollbackAt(start: FileSystem, before: FileSystem, fs: FileSystem, backups: seq<Backup>, i: nat,
          ok: bool, faults: Faults)
    requires i <= |backups|
  {
    && fs == RollbackFrom(start, backups, i, faults)
    && (ok <==> RestorableFrom(start, backups, i, faults))
    && (ok ==> RestoredFrom(fs, before, backups, i))
    && SameOff(fs, start, PathsOf(backups))
  }

  lemma {:induction false} RollbackStep(start: FileSystem, before: FileSystem, previous: FileSystem, fs: FileSystem,
          backups: seq<Backup>, i: nat, ok: bool, restored: bool, faults: Faults)
    requires i < |backups| && Faithful(backups, before)
    requires RollbackAt(start, before, previous, backups, i + 1, ok, faults)
    requires restored <==> Restorable(previous, backups[i], i, faults)
    requires fs == if restored then RestoredTo(previous, backups[i]) else previous
    requires restored ==> SameAt(fs, before, backups[i].path)
    requires SameOff(fs, previous, {backups[i].path})
    ensures RollbackAt(start, before, fs, backups, i, ok && restored, faults)
  {
    if ok && restored {
      RestoredOne(previous, fs, before, backups, i);
    }
    assert backups[i] in backups;
    SameOffChain(fs, previous, start, backups[i].path, PathsOf(backups));
    NextTurn(start, backups, i, faults);
  }

  /** The loop of writes after `i` completed ones. */
  ghost predicate WroteAt(start: FileSystem, fs: FileSystem, files: seq<Spec>, i: nat, made: set<string>,
      faults: Faults)
    requires i <= |files|
  {
    && fs == Written(start, files[..i]) && Progress(start, fs, files, i, made) && made == Missing(start, files[..i])
    && forall k :: 0 <= k < i ==> WritableAt(start, files, k, faults)
  }

  lemma {:induction false} WroteNothing(start: FileSystem, files: seq<Spec>, faults: Faults)
    requires Tree(start)
    ensures WroteAt(start, start, files, 0, {}, faults)
  {
    assert files[..0] == [] && Missing(start, files[..0]) == {};
  }

  lemma {:induction false} WroteNext(start: FileSystem, previous: FileSystem, fs: FileSystem, files: seq<Spec>, i: nat,
          made: set<string>, faults: Faults)
    requires i < |files| && WroteAt(start, previous, files, i, made, faults) && Tree(fs)
    requires Writable(previous, files[i], Applying(i), faults)
    requires var path := Resolve(files[i].path).value;
             fs == WithDirectories(previous, path)[path := File(files[i].content, ParseMode(files[i].mode).value % 512)]
    ensures WroteAt(start, fs, files, i + 1, made + NewAbove(previous, fs, files[i]), faults)
  {
    assert files[..i + 1][..i] == files[..i] && files[..i + 1][i] == files[i];
    CompletedWrite(start, previous, fs, files, i, made);
    MadeExactly(start, previous, fs, files, i);
    assert WritableAt(start, files, i, faults);
  }

  /** Away from managed paths and directories made, the writes changed nothing. */
  lemma {:induction false} OnlyWritten(before: FileSystem, fs: FileSystem, files: seq<Spec>, n: nat, made: set<string>)
    requires n <= |files| && Progress(before, fs, files, n, made)
    ensures SameOff(fs, before, Managed(files) + made)
    ensures FilesApart(files[..n], made)
  {
    forall p | p !in Managed(files) + made
      ensures SameAt(fs, before, p)
    {
      if p in Managed(files[..n]) {
        PrefixManaged(files, n, p);
      }
    }
  }

  lemma SameOffChain2(a: FileSystem, b: FileSystem, c: FileSystem, paths: set<string>, more: set<string>)
    requires SameOff(a, b, paths) && SameOff(b, c, paths + more)
    ensures SameOff(a, c, paths + more)
  {
    forall p | p !in paths + more
      ensures SameAt(a, c, p)
    {
      assert SameAt(a, b, p) && SameAt(b, c, p);
    }
  }

  lemma {:induction false} RolledBackTo(before: FileSystem, mid: FileSystem, fs: FileSystem, files: seq<Spec>, n: nat,
          made: set<string>, backups: seq<Backup>)
    requires n <= |files| && Progress(before, mid, files, n, made) && PathsOf(backups) == Managed(files)
    requires RestoredFrom(fs, before, backups, 0) && SameOff(fs, mid, PathsOf(backups))
    ensures fs == AfterRollback(before, files, made)
  {
    var end := AfterRollback(before, files, made);
    OnlyWritten(before, mid, files, n, made);
    forall p
      ensures SameAt(fs, end, p)
    {
      if p in PathsOf(backups) {
        var b :| b in backups && b.path == p;
        var i :| 0 <= i < |backups| && backups[i] == b;
        assert SameAt(fs, before, backups[i].path);
      } else {
        assert SameAt(fs, mid, p);
        assert p !in made ==> SameAt(mid, before, p);
      }
    }
    SameEverywhere(fs, end);
  }

  lemma ReadableAgain(fs: FileSystem, files: seq<Spec>, path: string, faults: Faults)
    requires Snapshotable(fs, files, faults) && path in Managed(files)
    ensures Readable(fs, path, faults)
  {
  }

  // ---------------------------------------------------------------- the directories a write made

  lemma {:induction false} MadeExactly(before: FileSystem, previous: FileSystem, fs: FileSystem, files: seq<Spec>,
      i: nat)
    requires i < |files| && Resolve(files[i].path).Some? && before.Keys <= previous.Keys
    ensures Missing(before, files[..i]) + NewAbove(previous, fs, files[i]) <= Missing(before, files[..i + 1])
  {
    MissingStep(before, files, i);
  }

  /** When no call of the writes fails, a failed write made no directory: either it was refused before that, or a
      directory stands at its path, and then all above it exist. */
  lemma {:induction false} NothingMade(previous: FileSystem, fs: FileSystem, files: seq<Spec>, i: nat, faults: Faults)
    requires i < |files| && Tree(previous) && WritesWork(faults)
    requires !Writable(previous, files[i], Applying(i), faults)
    requires Resolve(files[i].path).None? || ParseMode(files[i].mode).Err?
             || !Clear(previous, Resolve(files[i].path).value) ==>
               fs == previous
    ensures NewAbove(previous, fs, files[i]) == {}
  {
    if Resolve(files[i].path).Some? && ParseMode(files[i].mode).Ok? && Clear(previous, Resolve(files[i].path).value) {
      var path := Resolve(files[i].path).value;
      assert path in previous && previous[path].Directory?;
      assert Ancestors(path) <= previous.Keys;
    }
  }

  // ---------------------------------------------------------------- when a rollback succeeds

  /** What the backup says of its path. */
  predicate AsIn(b: Backup, fs: FileSystem) {
    if b.existed then b.path in fs && fs[b.path] == File(b.content, b.perm) else b.path !in fs
  }

  predicate AllAsIn(backups: seq<Backup>, fs: FileSystem) {
    && (forall i :: 0 <= i < |backups| ==> AsIn(backups[i], fs))
    && (forall i, j :: 0 <= i < j < |backups| ==> backups[i].path != backups[j].path)
  }

  lemma FaithfulAsIn(backups: seq<Backup>, fs: FileSystem)
    requires Faithful(backups, fs)
    ensures AllAsIn(backups, fs)
  {
    forall i | 0 <= i < |backups|
      ensures AsIn(backups[i], fs)
    {
      assert Describes(backups[i], fs);
    }
  }

  /** Not one of the backups from `i` on. */
  predicate NotFrom(backups: seq<Backup>, i: nat, p: string) {
    forall j :: i <= j < |backups| ==> backups[j].path != p
  }

  /** Between two turns the file system is a tree with its old directories, and paths whose turn is still to come are
      as the writes left them. */
  lemma {:induction false} TurnState(before: FileSystem, mid: FileSystem, backups: seq<Backup>, i: nat, faults: Faults)
    requires Tree(before) && AllAsIn(backups, before) && Tree(mid) && Kept(before, mid) && i <= |backups|
    ensures var st := RollbackFrom(mid, backups, i, faults);
            && Tree(st) && Kept(before, st)
            && forall p :: NotFrom(backups, i, p) ==> SameAt(st, mid, p)
    decreases |backups| - i
  {
    if i < |backups| {
      TurnState(before, mid, backups, i + 1, faults);
      var next, b := RollbackFrom(mid, backups, i + 1, faults), backups[i];
      if Restorable(next, b, i, faults) {
        TurnKeepsTree(before, next, b, i, faults);
      }
      forall p | NotFrom(backups, i, p)
        ensures SameAt(RollbackFrom(mid, backups, i, faults), mid, p)
      {
        assert NotFrom(backups, i + 1, p) && backups[i].path != p;
        assert SameAt(next, mid, p);
      }
    }
  }

  lemma {:induction false} TurnKeepsTree(before: FileSystem, fs: FileSystem, b: Backup, i: nat, faults: Faults)
    requires Tree(before) && AsIn(b, before) && Tree(fs) && Kept(before, fs) && Restorable(fs, b, i, faults)
    ensures Tree(RestoredTo(fs, b)) && Kept(before, RestoredTo(fs, b))
  {
    if b.existed {
      NoneMissing(before, fs, b.path);
      TreeWithFile(fs, b.path, File(b.content, b.perm));
    } else {
      TreeWithout(fs, b.path);
    }
  }

  /** What the writes left at a managed path: nothing, the old file or a new file; a directory only if it was made for
      another managed path. */
  lemma {:induction false} ManagedAfterWrites(before: FileSystem, mid: FileSystem, files: seq<Spec>, n: nat,
      p: string, faults: Faults)
    requires Snapshotable(before, files, faults) && n <= |files| && p in Managed(files)
    requires Progress(before, mid, files, n, Missing(before, files[..n])) && Unnested(files[..n], files)
    ensures p in before ==> before[p].File?
    ensures p in mid ==> mid[p].File? && (p in before || p in Managed(files[..n]))
  {
    ReadableAgain(before, files, p, faults);
  }

  /** Above a managed path there are directories only. */
  lemma {:induction false} AboveAfterWrites(before: FileSystem, mid: FileSystem, files: seq<Spec>, n: nat, p: string,
      a: string, faults: Faults)
    requires Snapshotable(before, files, faults) && n <= |files| && p in Managed(files) && Above(a, p)
    requires Progress(before, mid, files, n, Missing(before, files[..n])) && Unnested(files[..n], files)
    ensures a in before ==> before[a].Directory?
    ensures a !in before && a in Managed(files) ==> a !in mid
    ensures a in mid ==> mid[a].Directory?
  {
    ReadableAgain(before, files, p, faults);
  }

  lemma {:induction false} TurnWorks(before: FileSystem, mid: FileSystem, files: seq<Spec>, n: nat,
      backups: seq<Backup>, i: nat,
          faults: Faults)
    requires Tree(before) && AllAsIn(backups, before) && PathsOf(backups) == Managed(files) && i < |backups|
    requires Snapshotable(before, files, faults) && RestoresWork(faults)
    requires n <= |files| && Progress(before, mid, files, n, Missing(before, files[..n])) && Unnested(files[..n], files)
    ensures RestorableAt(mid, backups, i, faults)
  {
    var b, st := backups[i], RollbackFrom(mid, backups, i + 1, faults);
    assert b in backups && b.path in PathsOf(backups);
    ClearAtTurn(before, mid, files, n, backups, i, faults);
    FreeAtTurn(before, mid, files, n, backups, i, faults);
    WorksAtTurn(before, st, b, i, faults);
  }

  lemma {:induction false} WorksAtTurn(before: FileSystem, st: FileSystem, b: Backup, i: nat, faults: Faults)
    requires Tree(before) && AsIn(b, before) && RestoresWork(faults) && Tree(st) && Kept(before, st)
    requires Clear(st, b.path) && (b.path in st ==> st[b.path].File?)
    ensures Restorable(st, b, i, faults)
  {
    if b.existed {
      NoneMissing(before, st, b.path);
    }
  }

  lemma {:induction false} FreeAtTurn(before: FileSystem, mid: FileSystem, files: seq<Spec>, n: nat,
          backups: seq<Backup>, i: nat, faults: Faults)
    requires Tree(before) && AllAsIn(backups, before) && i < |backups|
    requires Snapshotable(before, files, faults) && backups[i].path in Managed(files)
    requires n <= |files| && Progress(before, mid, files, n, Missing(before, files[..n])) && Unnested(files[..n], files)
    ensures var st := RollbackFrom(mid, backups, i + 1, faults);
            && Tree(st) && Kept(before, st) && AsIn(backups[i], before)
            && (backups[i].path in st ==> st[backups[i].path].File?)
  {
    TurnState(before, mid, backups, i + 1, faults);
    assert NotFrom(backups, i + 1, backups[i].path);
    assert SameAt(RollbackFrom(mid, backups, i + 1, faults), mid, backups[i].path);
    ManagedAfterWrites(before, mid, files, n, backups[i].path, faults);
  }

  lemma {:induction false} ClearAtTurn(before: FileSystem, mid: FileSystem, files: seq<Spec>, n: nat,
          backups: seq<Backup>, i: nat, faults: Faults)
    requires Tree(before) && AllAsIn(backups, before) && PathsOf(backups) == Managed(files) && i < |backups|
    requires Snapshotable(before, files, faults) && backups[i].path in Managed(files)
    requires n <= |files| && Progress(before, mid, files, n, Missing(before, files[..n])) && Unnested(files[..n], files)
    ensures Clear(RollbackFrom(mid, backups, i + 1, faults), backups[i].path)
  {
    var p, st := backups[i].path, RollbackFrom(mid, backups, i + 1, faults);
    TurnState(before, mid, backups, i + 1, faults);
    assert NotFrom(backups, i + 1, p);
    ManagedAfterWrites(before, mid, files, n, p, faults);
    ReadableAgain(before, files, p, faults);
    forall a | Above(a, p) && a in st
      ensures st[a].Directory?
    {
      AboveAfterWrites(before, mid, files, n, p, a, faults);
      if a !in before && a in Managed(files) {
        NeverBack(before, mid, backups, i + 1, a, faults);
      } else if a !in before {
        NotABackup(backups, i + 1, a);
      }
    }
  }

  lemma NotABackup(backups: seq<Backup>, i: nat, p: string)
    requires p !in PathsOf(backups)
    ensures NotFrom(backups, i, p)
  {
    forall j | i <= j < |backups|
      ensures backups[j].path != p
    {
      assert backups[j] in backups;
    }
  }

  /** A path that did not exist and is not there does not come back. */
  lemma {:induction false} NeverBack(before: FileSystem, mid: FileSystem, backups: seq<Backup>, i: nat, a: string,
          faults: Faults)
    requires AllAsIn(backups, before) && i <= |backups| && a !in before && a !in mid
    ensures a !in RollbackFrom(mid, backups, i, faults)
    decreases |backups| - i
  {
    if i < |backups| {
      NeverBack(before, mid, backups, i + 1, a, faults);
      assert AsIn(backups[i], before);
    }
  }

  /** The order of first occurrences: the paths of a prefix of the list come first. */
  lemma {:induction false} FirstPathsPrefix(files: seq<Spec>, n: nat)
    requires n <= |files|
    ensures |FirstPaths(files[..n])| <= |FirstPaths(files)|
    ensures forall k :: 0 <= k < |FirstPaths(files[..n])| ==> FirstPaths(files)[k] == FirstPaths(files[..n])[k]
    decreases |files|
  {
    if n == |files| {
      assert files[..n] == files;
    } else {
      var front := files[..|files| - 1];
      assert front[..n] == files[..n];
      FirstPathsPrefix(front, n);
    }
  }

  lemma {:induction false} FirstPathsAre(files: seq<Spec>, p: string)
    ensures p in FirstPaths(files) <==> p in Managed(files)
  {
    if files != [] {
      var n := |files| - 1;
      FirstPathsAre(files[..n], p);
      ManagedStep(files, n);
      assert files[..n + 1] == files;
    }
  }

  lemma {:induction false} FirstPathsDistinct(files: seq<Spec>)
    ensures forall i, j :: 0 <= i < j < |FirstPaths(files)| ==> FirstPaths(files)[i] != FirstPaths(files)[j]
  {
    if files != [] {
      FirstPathsDistinct(files[..|files| - 1]);
    }
  }

  /** Of a path written and one not written, the written one's turn comes later. */
  lemma {:induction false} WrittenComesLater(files: seq<Spec>, n: nat, backups: seq<Backup>, u: string, v: string)
      returns (i: nat)
    requires n <= |files| && BackupsOf(backups, FirstPaths(files))
    requires u in Managed(files[..n]) && v in Managed(files) && v !in Managed(files[..n])
    ensures i < |backups| && backups[i].path == v && NotFrom(backups, i + 1, u)
  {
    var all, some := FirstPaths(files), FirstPaths(files[..n]);
    FirstPathsPrefix(files, n);
    FirstPathsAre(files, v);
    FirstPathsAre(files[..n], u);
    FirstPathsAre(files[..n], v);
    FirstPathsDistinct(files);
    i :| 0 <= i < |all| && all[i] == v;
    var k :| 0 <= k < |some| && some[k] == u;
    assert all[k] == u;
  }

  lemma {:induction false} NestedLater(before: FileSystem, mid: FileSystem, files: seq<Spec>, n: nat,
      backups: seq<Backup>,
          u: string, v: string, faults: Faults)
    requires Tree(before) && AllAsIn(backups, before) && BackupsOf(backups, FirstPaths(files))
    requires Snapshotable(before, files, faults)
    requires n <= |files| && Progress(before, mid, files, n, Missing(before, files[..n]))
    requires u in Managed(files[..n]) && v in Managed(files) && v !in Managed(files[..n])
             && (Above(u, v) || Above(v, u))
    ensures !AllRestorable(mid, backups, faults)
  {
    WrittenIsFile(mid, files[..n], u);
    PrefixManaged(files, n, u);
    NestedAreNew(before, files, u, v, faults);
    var i := WrittenComesLater(files, n, backups, u, v);
    LaterFails(before, mid, backups, i, u, faults);
  }

  lemma {:induction false} LaterFails(before: FileSystem, mid: FileSystem, backups: seq<Backup>, i: nat, u: string,
          faults: Faults)
    requires Tree(before) && AllAsIn(backups, before) && Tree(mid) && Kept(before, mid) && i < |backups|
    requires u in mid && mid[u].File? && NotFrom(backups, i + 1, u) && backups[i].path !in before
    requires Above(u, backups[i].path) || Above(backups[i].path, u)
    ensures !AllRestorable(mid, backups, faults)
  {
    TurnState(before, mid, backups, i + 1, faults);
    assert SameAt(RollbackFrom(mid, backups, i + 1, faults), mid, u);
    assert AsIn(backups[i], before);
    FailsAtTurn(before, RollbackFrom(mid, backups, i + 1, faults), backups[i], i, u, faults);
    assert !RestorableAt(mid, backups, i, faults);
  }

  lemma {:induction false} WrittenAreApart(fs: FileSystem, files: seq<Spec>, u: string, v: string)
    requires Tree(fs) && FilesAt(fs, files) && u in Managed(files) && v in Managed(files)
    ensures !Above(u, v) && !Above(v, u)
  {
    WrittenIsFile(fs, files, u);
    WrittenIsFile(fs, files, v);
  }

  /** A written path and a managed path one above the other: one of the turns fails. */
  lemma {:induction false} NestedFails(before: FileSystem, mid: FileSystem, files: seq<Spec>, n: nat,
      backups: seq<Backup>, u: string, v: string, faults: Faults)
    requires Tree(before) && AllAsIn(backups, before) && BackupsOf(backups, FirstPaths(files))
    requires Snapshotable(before, files, faults)
    requires n <= |files| && Progress(before, mid, files, n, Missing(before, files[..n]))
    requires u in Managed(files[..n]) && v in Managed(files) && (Above(u, v) || Above(v, u))
    ensures !AllRestorable(mid, backups, faults)
  {
    if v in Managed(files[..n]) {
      WrittenAreApart(mid, files[..n], u, v);
      assert false;
    } else {
      NestedLater(before, mid, files, n, backups, u, v, faults);
    }
  }

  lemma {:induction false} NestedAreNew(before: FileSystem, files: seq<Spec>, u: string, v: string, faults: Faults)
    requires Tree(before) && Snapshotable(before, files, faults) && u in Managed(files) && v in Managed(files)
    requires Above(u, v) || Above(v, u)
    ensures u !in before && v !in before
  {
    ReadableAgain(before, files, u, faults);
    ReadableAgain(before, files, v, faults);
  }

  lemma {:induction false} FailsAtTurn(before: FileSystem, st: FileSystem, b: Backup, i: nat, u: string, faults: Faults)
    requires AsIn(b, before) && b.path !in before && Tree(st) && u in st && st[u].File?
    requires Above(u, b.path) || Above(b.path, u)
    ensures !Restorable(st, b, i, faults)
  {
  }

  lemma WrittenIsFile(fs: FileSystem, files: seq<Spec>, p: string)
    requires FilesAt(fs, files) && p in Managed(files)
    ensures p in fs && fs[p].File?
  {
  }

  lemma PrefixManaged(files: seq<Spec>, n: nat, p: string)
    requires n <= |files| && p in Managed(files[..n])
    ensures p in Managed(files)
  {
    var f :| f in files[..n] && Resolve(f.path) == Some(p);
    assert f in files;
  }

  /** With working calls, a rollback after `n` completed writes succeeds if and only if none of the written paths lies
      above or below another managed path. */
  lemma {:induction false} RestorableIff(before: FileSystem, mid: FileSystem, files: seq<Spec>, n: nat,
      backups: seq<Backup>,
          faults: Faults)
    requires Tree(before) && Faithful(backups, before) && PathsOf(backups) == Managed(files)
    requires BackupsOf(backups, FirstPaths(files)) && Snapshotable(before, files, faults) && RestoresWork(faults)
    requires n <= |files| && Progress(before, mid, files, n, Missing(before, files[..n]))
    ensures AllRestorable(mid, backups, faults) <==> Unnested(files[..n], files)
  {
    FaithfulAsIn(backups, before);
    if Unnested(files[..n], files) {
      forall i | 0 <= i < |backups|
        ensures RestorableAt(mid, backups, i, faults)
      {
        TurnWorks(before, mid, files, n, backups, i, faults);
      }
    } else {
      var u, v :| u in Managed(files[..n]) && v in Managed(files) && (Above(u, v) || Above(v, u));
      NestedFails(before, mid, files, n, backups, u, v, faults);
    }
  }

  // ---------------------------------------------------------------- when all writes complete

  /** The state after `n` completed writes. */
  lemma {:induction false} ProgressOfWrites(fs: FileSystem, files: seq<Spec>, n: nat, faults: Faults)
    requires Tree(fs) && n <= |files| && forall i :: 0 <= i < n ==> WritableAt(fs, files, i, faults)
    ensures Progress(fs, Written(fs, files[..n]), files, n, Missing(fs, files[..n]))
    decreases n
  {
    if n == 0 {
      assert files[..0] == [] && Missing(fs, []) == {};
    } else {
      var i := n - 1;
      ProgressOfWrites(fs, files, i, faults);
      assert files[..n][..i] == files[..i] && WritableAt(fs, files, i, faults);
      var previous, end, path := Written(fs, files[..i]), Written(fs, files[..n]), Resolve(files[i].path).value;
      TreeWithDirectories(previous, path);
      TreeWithFile(WithDirectories(previous, path), path, end[path]);
      CompletedWrite(fs, previous, end, files, i, Missing(fs, files[..i]));
      MadeExactly(fs, previous, end, files, i);
    }
  }

  /** With working calls all writes complete if and only if every mode is valid and no managed path lies above
      another. */
  lemma {:induction false} WritesCompleteIff(fs: FileSystem, files: seq<Spec>, faults: Faults)
    requires Tree(fs) && Snapshotable(fs, files, faults) && WritesWork(faults)
    ensures (forall i :: 0 <= i < |files| ==> WritableAt(fs, files, i, faults)) <==>
              (forall f :: f in files ==> ParseMode(f.mode).Ok?) && Unnested(files, files)
  {
    if forall i :: 0 <= i < |files| ==> WritableAt(fs, files, i, faults) {
      forall f | f in files
        ensures ParseMode(f.mode).Ok?
      {
        var i :| 0 <= i < |files| && files[i] == f;
        assert WritableAt(fs, files, i, faults);
      }
      ProgressOfWrites(fs, files, |files|, faults);
      assert files[..|files|] == files;
      forall p, q | p in Managed(files) && q in Managed(files)
        ensures !Above(p, q)
      {
        WrittenIsFile(Written(fs, files), files, p);
        WrittenIsFile(Written(fs, files), files, q);
      }
    }
    if (forall f :: f in files ==> ParseMode(f.mode).Ok?) && Unnested(files, files) {
      forall i | 0 <= i < |files|
        ensures WritableAt(fs, files, i, faults)
      {
        NextWrites(fs, files, i, faults);
      }
    }
  }

  lemma {:induction false} NextWrites(fs: FileSystem, files: seq<Spec>, n: nat, faults: Faults)
    requires Tree(fs) && Snapshotable(fs, files, faults) && WritesWork(faults) && n < |files|
    requires (forall f :: f in files ==> ParseMode(f.mode).Ok?) && Unnested(files, files)
    ensures WritableAt(fs, files, n, faults)
    decreases n
  {
    forall i | 0 <= i < n
      ensures WritableAt(fs, files, i, faults)
    {
      NextWrites(fs, files, i, faults);
    }
    ProgressOfWrites(fs, files, n, faults);
    var mid, p := Written(fs, files[..n]), Resolve(files[n].path).value;
    assert files[n] in files;
    ManagedHas(files, files[n]);
    PrefixUnnested(files, n);
    ManagedAfterWrites(fs, mid, files, n, p, faults);
    ReadableAgain(fs, files, p, faults);
    forall a | Above(a, p) && a in mid
      ensures mid[a].Directory?
    {
      AboveAfterWrites(fs, mid, files, n, p, a, faults);
    }
  }

  lemma PrefixUnnested(files: seq<Spec>, n: nat)
    requires n <= |files| && Unnested(files, files)
    ensures Unnested(files[..n], files)
  {
    forall p | p in Managed(files[..n])
      ensures p in Managed(files)
    {
      PrefixManaged(files, n, p);
    }
  }
}
