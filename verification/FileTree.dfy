/** The file system as a tree of nodes: file modes, directories above a path, and what a sequence of writes makes of
    it. */
module FileTree {
  import opened Common
  import opened Text
  import opened Paths

  // ---------------------------------------------------------------- file modes

  const MODES := 0x1_0000_0000

  function OctalDigit(d: nat): char
    requires d < 8
  {
    ('0' as int + d) as char
  }

  /** `fmt.Sprintf("%04o", perm)` for permission bits. */
  function FormatMode(perm: nat): string
    requires perm < 512
  {
    ['0', OctalDigit(perm / 64), OctalDigit(perm / 8 % 8), OctalDigit(perm % 8)]
  }

  function OctalValue(s: string): Option<nat> {
    if s == "" then Some(0)
    else
      var c, front := s[|s| - 1], OctalValue(s[..|s| - 1]);
      if front.None? || !('0' <= c <= '7') then None else Some(8 * front.value + (c as int - '0' as int))
  }

  /** `parseFileMode` */
  function ParseMode(raw: string): Result<nat> {
    var s := TrimSpace(raw);
    if s == "" then Ok(416)
    else
      var v := OctalValue(s);
      if v.None? || v.value >= MODES then Err("invalid file mode") else Ok(v.value)
  }

  /** Printing permission bits and parsing them again is the identity. */
  lemma ModeRoundTrip(perm: nat)
    requires perm < 512
    ensures ParseMode(FormatMode(perm)) == Ok(perm)
  {
    var s := FormatMode(perm);
    TrimIdentity(s, IsSpace);
    var a, b, c := perm / 64, perm / 8 % 8, perm % 8;
    assert s[..3] == ['0', OctalDigit(a), OctalDigit(b)];
    assert s[..3][..2] == ['0', OctalDigit(a)] && s[..3][..2][..1] == ['0'] && s[..3][..2][..1][..0] == "";
    assert OctalValue(['0']) == Some(0);
    assert OctalValue(['0', OctalDigit(a)]) == Some(a);
    assert OctalValue(s[..3]) == Some(8 * a + b);
    assert perm / 8 == 8 * a + b;
  }

  // ---------------------------------------------------------------- the file system

  datatype Node = File(content: string, perm: nat) | Directory | Symlink

  type FileSystem = map<string, Node>

  datatype Spec = Spec(path: string, content: string, mode: string)

  /** `managedFileBackup` */
  datatype Backup = Backup(path: string, existed: bool, content: string, perm: nat)

  /** The paths a file list manages. */
  function Managed(files: seq<Spec>): set<string> {
    set f | f in files && Resolve(f.path).Some? :: Resolve(f.path).value
  }

  /** The backup says what `fs` holds at its path. */
  predicate Describes(b: Backup, fs: FileSystem) {
    && Resolve(b.path) == Some(b.path)
    && b.perm < 512
    && if b.existed then b.path in fs && fs[b.path] == File(b.content, b.perm) else b.path !in fs
  }

  predicate Faithful(backups: seq<Backup>, fs: FileSystem) {
    && (forall i :: 0 <= i < |backups| ==> Describes(backups[i], fs))
    && (forall i, j :: 0 <= i < j < |backups| ==> backups[i].path != backups[j].path)
  }

  function PathsOf(backups: seq<Backup>): set<string> {
    set b | b in backups :: b.path
  }

  /** The two file systems agree at one path. */
  predicate SameAt(a: FileSystem, b: FileSystem, p: string) {
    (p in a <==> p in b) && (p in a && p in b ==> a[p] == b[p])
  }

  /** They agree away from the paths. */
  ghost predicate SameOff(a: FileSystem, b: FileSystem, paths: set<string>) {
    forall p :: p !in paths ==> SameAt(a, b, p)
  }

  /** Every path from backup `i` on is as it was. */
  predicate RestoredFrom(fs: FileSystem, before: FileSystem, backups: seq<Backup>, i: nat) {
    forall j :: i <= j < |backups| ==> SameAt(fs, before, backups[j].path)
  }

  predicate PermissionBits(fs: FileSystem) {
    forall p :: p in fs && fs[p].File? ==> fs[p].perm < 512
  }

  // ---------------------------------------------------------------- directories

  /** `a` is a directory above `p`, other than the root. */
  predicate Above(a: string, p: string) {
    0 < |a| < |p| && p[..|a|] == a && p[|a|] == '/'
  }

  function Ancestors(p: string): (s: set<string>)
    ensures forall a :: a in s <==> Above(a, p)
  {
    var s := set i | 0 < i < |p| && p[i] == '/' :: p[..i];
    assert forall a :: Above(a, p) ==> a == p[..|a|];
    s
  }

  /** What exists lies in directories that exist. */
  ghost predicate Tree(fs: FileSystem) {
    forall p, a :: p in fs && Above(a, p) ==> a in fs && fs[a].Directory?
  }

  /** `rejectSymlinkPath` lets the path through: it is not the root or a symlink, and what exists above it are
      directories. */
  ghost predicate Clear(fs: FileSystem, path: string) {
    && path != "/" && !(path in fs && fs[path].Symlink?)
    && forall a :: Above(a, path) && a in fs ==> fs[a].Directory?
  }

  /** `os.MkdirAll` on the directory of `path`. */
  function WithDirectories(fs: FileSystem, path: string): FileSystem {
    map p | p in fs.Keys + Ancestors(path) :: if p in fs then fs[p] else Directory
  }

  /** The directories above the managed paths that do not exist. */
  function Missing(fs: FileSystem, files: seq<Spec>): set<string> {
    (set p, a | p in Managed(files) && a in Ancestors(p) :: a) - fs.Keys
  }

  /** What a completed run of writes leaves: missing directories, and at each path the last file written there. */
  function Written(fs: FileSystem, files: seq<Spec>): FileSystem {
    if files == [] then fs
    else
      var f, before := files[|files| - 1], Written(fs, files[..|files| - 1]);
      if Resolve(f.path).Some? && ParseMode(f.mode).Ok?
      then
        var path := Resolve(f.path).value;
        WithDirectories(before, path)[path := File(f.content, ParseMode(f.mode).value % 512)]
      else before
  }

  /** What a successful rollback leaves when the writes made the directories `made`: it removes files, not directories,
      except where a managed path is one. */
  function AfterRollback(fs: FileSystem, files: seq<Spec>, made: set<string>): FileSystem {
    map p | p in fs.Keys + (made - Managed(files)) :: if p in fs then fs[p] else Directory
  }

  /** The state after `n` completed writes, perhaps with some directories of the next one. */
  ghost predicate Progress(before: FileSystem, fs: FileSystem, files: seq<Spec>, n: nat, made: set<string>)
    requires n <= |files|
  {
    && Tree(fs)
    && Missing(before, files[..n]) <= made <= Missing(before, files)
    && FilesAt(fs, files[..n])
    && Explained(before, fs, Managed(files[..n]), made)
  }

  /** Every path of the list is a file. */
  ghost predicate FilesAt(fs: FileSystem, files: seq<Spec>) {
    forall f :: f in files && Resolve(f.path).Some? ==> Resolve(f.path).value in fs && fs[Resolve(f.path).value].File?
  }

  /** Beside the directories made, only managed paths changed, and those became files. */
  ghost predicate Explained(before: FileSystem, fs: FileSystem, managed: set<string>, made: set<string>) {
    && Kept(before, fs) && before.Keys <= fs.Keys
    && (forall a :: a in made ==> a in fs && fs[a] == Directory)
    && (forall p :: p !in made ==> SameAt(fs, before, p) || (p in managed && p in fs && fs[p].File?))
  }

  /** The directories of `before` are still there. */
  ghost predicate Kept(before: FileSystem, fs: FileSystem) {
    forall a :: a in before && before[a].Directory? ==> a in fs && fs[a].Directory?
  }

  /** The directories that a write of the file made. */
  function NewAbove(previous: FileSystem, fs: FileSystem, f: Spec): set<string> {
    if Resolve(f.path).Some? then (fs.Keys - previous.Keys) * Ancestors(Resolve(f.path).value) else {}
  }

  // ---------------------------------------------------------------- what a rollback restores

  /** A successful rollback restores every managed path, and the only other difference is new directories above managed
      paths. */
  lemma RollbackDifference(fs: FileSystem, files: seq<Spec>, made: set<string>, p: string)
    requires made <= Missing(fs, files)
    ensures var end := AfterRollback(fs, files, made);
            && (p in Managed(files) ==> SameAt(end, fs, p))
            && (SameAt(end, fs, p) || (p !in fs && p in end && end[p] == Directory && BelowIsManaged(p, files)))
  {
    if p in made {
      assert p in Missing(fs, files);
      var q :| q in Managed(files) && p in Ancestors(q);
    }
  }

  predicate BelowIsManaged(p: string, files: seq<Spec>) {
    exists q :: q in Managed(files) && Above(p, q)
  }

  /** The whole file system is as before if and only if the writes made no directory beyond managed paths; when all
      writes completed, that is, if and only if every directory above a managed path existed. */
  lemma RollbackExact(fs: FileSystem, files: seq<Spec>, written: nat, made: set<string>)
    requires written <= |files| && Missing(fs, files[..written]) <= made <= Missing(fs, files)
    requires FilesApart(files[..written], made)
    ensures var end := AfterRollback(fs, files, made);
            && (end == fs <==> made <= Managed(files))
            && (Missing(fs, files) == {} ==> end == fs)
            && (written == |files| ==> (end == fs <==> Missing(fs, files) == {}))
  {
    RestoredIff(fs, Managed(files), files, made);
    if written == |files| {
      assert files[..written] == files;
      ApartIsDisjoint(files, made);
    }
  }

  lemma RestoredIff(fs: FileSystem, managed: set<string>, files: seq<Spec>, made: set<string>)
    requires managed == Managed(files) && made !! fs.Keys
    ensures AfterRollback(fs, files, made) == fs <==> made <= managed
  {
    if made <= managed {
      assert made - managed == {};
    } else {
      var p :| p in made && p !in managed;
      assert p in AfterRollback(fs, files, made) && p !in fs;
    }
  }

  lemma ApartIsDisjoint(files: seq<Spec>, made: set<string>)
    requires FilesApart(files, made)
    ensures made !! Managed(files)
  {
  }

  /** No file of the list has one of these paths. */
  predicate FilesApart(files: seq<Spec>, made: set<string>) {
    forall f :: f in files && Resolve(f.path).Some? ==> Resolve(f.path).value !in made
  }

  lemma ManagedOne(file: Spec)
    requires Resolve(file.path) == Some(file.path)
    ensures Managed([file]) == {file.path}
  {
    assert [file][0] in [file];
  }

  /** One file in one missing directory: the write makes it, and a rollback that reports success leaves it. */
  lemma OneParentStays(fs: FileSystem, file: Spec, dir: string)
    requires Resolve(file.path) == Some(file.path) && Ancestors(file.path) - fs.Keys == {dir}
    ensures Missing(fs, [file]) == {dir}
    ensures WithDirectories(fs, file.path) == fs[dir := Directory]
    ensures AfterRollback(fs, [file], {dir}) == fs[dir := Directory]
  {
    ManagedOne(file);
    assert Above(dir, file.path) by {
      assert dir in Ancestors(file.path) - fs.Keys;
    }
    assert {dir} - {file.path} == {dir};
    assert fs.Keys + Ancestors(file.path) == fs.Keys + {dir};
  }

  /** A managed file in a directory that does not exist: after the write and any failing stage the rollback reports
      success and the directory stays. */
  lemma ParentStays(content: string)
    ensures var files := [Spec("/d/f", content, "0600")];
            && Tree(map[]) && PermissionBits(map[]) && Missing(map[], files) == {"/d"}
            && AfterRollback(map[], files, Missing(map[], files)) == map["/d" := Directory]
  {
    ExampleResolves();
    ExampleAncestors();
    OneParentStays(map[], Spec("/d/f", content, "0600"), "/d");
  }

  lemma ExampleResolves()
    ensures Resolve("/d/f") == Some("/d/f")
  {
    var parts := ["d", "f"];
    assert parts[1..] == ["f"] && Join(["f"]) == "f";
    assert Join(parts) == "d/f";
    assert "/" + Join(parts) == "/d/f";
    JoinResolves(parts);
  }

  lemma ExampleAncestors()
    ensures Ancestors("/d/f") == {"/d"}
  {
    var path := "/d/f";
    assert Above("/d", path);
    forall a | Above(a, path)
      ensures a == "/d"
    {
      assert |a| == 2 && path[..2] == "/d";
    }
  }

  // ---------------------------------------------------------------- lemmas about directories

  lemma AboveIsPrefix(path: string)
    ensures forall a :: Above(a, path) ==> 1 <= |a| < |path| && path[|a|] == '/' && path[..|a|] == a
  {
  }

  lemma AboveTransitive(a: string, b: string, c: string)
    requires Above(a, b) && Above(b, c)
    ensures Above(a, c)
  {
    assert c[..|b|][..|a|] == c[..|a|];
  }

  lemma TwoAbove(a: string, b: string, p: string)
    requires Above(a, p) && Above(b, p) && |a| < |b|
    ensures Above(a, b)
  {
    assert p[..|b|][..|a|] == p[..|a|];
  }

  /** Where a directory is missing, everything below it is. */
  lemma BelowMissing(fs: FileSystem, missing: string, path: string)
    requires Tree(fs) && Above(missing, path) && missing !in fs && path != "/"
    requires forall k :: 1 <= k < |missing| && path[k] == '/' ==> path[..k] in fs && fs[path[..k]].Directory?
    ensures Clear(fs, path)
  {
    forall a | Above(a, path) && a in fs
      ensures fs[a].Directory?
    {
      if |a| > |missing| {
        TwoAbove(missing, a, path);
      } else if |a| < |missing| {
        assert path[..|a|] == a;
      }
    }
  }

  lemma TreeWithDirectory(fs: FileSystem, path: string, i: nat)
    requires Tree(fs) && Clear(fs, path) && 0 < i < |path| && path[i] == '/' && path[..i] !in fs
    requires forall k :: 1 <= k < i && path[k] == '/' ==> path[..k] in fs
    ensures Tree(fs[path[..i] := Directory]) && Clear(fs[path[..i] := Directory], path)
  {
    var next, d := fs[path[..i] := Directory], path[..i];
    assert Above(d, path);
    forall p, a | p in next && Above(a, p)
      ensures a in next && next[a].Directory?
    {
      if p == d {
        AboveTransitive(a, d, path);
        assert path[..|a|] == a && path[|a|] == '/';
      }
    }
  }

  lemma TreeWithFile(fs: FileSystem, path: string, f: Node)
    requires Tree(fs) && !(path in fs && fs[path].Directory?)
    requires forall a :: Above(a, path) ==> a in fs && fs[a].Directory?
    ensures Tree(fs[path := f])
  {
  }

  // ---------------------------------------------------------------- progress of the writes

  lemma ManagedHas(files: seq<Spec>, f: Spec)
    requires f in files && Resolve(f.path).Some?
    ensures Resolve(f.path).value in Managed(files)
  {
  }

  lemma MissingOf(fs: FileSystem, files: seq<Spec>, f: Spec, a: string)
    requires f in files && Resolve(f.path).Some? && Above(a, Resolve(f.path).value) && a !in fs
    ensures a in Missing(fs, files)
  {
    ManagedHas(files, f);
    assert a in Ancestors(Resolve(f.path).value);
  }

  /** The directories missing for one more file. */
  lemma MissingStep(fs: FileSystem, files: seq<Spec>, i: nat)
    requires i < |files| && Resolve(files[i].path).Some?
    ensures Missing(fs, files[..i + 1]) == Missing(fs, files[..i]) + (Ancestors(Resolve(files[i].path).value) - fs.Keys)
  {
    ManagedStep(files, i);
  }

  /** A failed write may have made some directories. */
  lemma FailedWrite(before: FileSystem, previous: FileSystem, fs: FileSystem, files: seq<Spec>, i: nat,
          made: set<string>)
    requires i < |files| && Progress(before, previous, files, i, made) && Tree(fs)
    requires forall p :: SameAt(fs, previous, p)
                         || (p !in previous && p in fs && fs[p] == Directory && p in NewAbove(previous, fs, files[i]))
    ensures Progress(before, fs, files, i, made + NewAbove(previous, fs, files[i]))
  {
    NewAreMissing(before, previous, fs, files, i, made);
    forall p | p in previous
      ensures p in fs && fs[p] == previous[p]
    {
      assert SameAt(fs, previous, p);
    }
    forall a | a in NewAbove(previous, fs, files[i])
      ensures a in fs && fs[a] == Directory
    {
      assert !SameAt(fs, previous, a);
    }
    forall p | p !in made + NewAbove(previous, fs, files[i])
      ensures SameAt(fs, before, p) || (p in Managed(files[..i]) && p in fs && fs[p].File?)
    {
      assert SameAt(fs, previous, p);
    }
  }

  lemma NewAreMissing(before: FileSystem, previous: FileSystem, fs: FileSystem, files: seq<Spec>, i: nat,
          made: set<string>)
    requires i < |files| && Progress(before, previous, files, i, made)
    ensures NewAbove(previous, fs, files[i]) <= Missing(before, files)
  {
    forall a | a in NewAbove(previous, fs, files[i])
      ensures a in Missing(before, files)
    {
      MissingOf(before, files, files[i], a);
    }
  }

  lemma TreeWithDirectories(fs: FileSystem, path: string)
    requires Tree(fs) && Clear(fs, path)
    ensures Tree(WithDirectories(fs, path))
  {
    var next := WithDirectories(fs, path);
    forall p, a | p in next && Above(a, p)
      ensures a in next && next[a].Directory?
    {
      if p !in fs {
        AboveTransitive(a, p, path);
      }
    }
  }

  /** A completed write made all directories that its path lacked. */
  lemma CompletedWrite(before: FileSystem, previous: FileSystem, fs: FileSystem, files: seq<Spec>, i: nat,
          made: set<string>)
    requires i < |files| && Resolve(files[i].path).Some? && Progress(before, previous, files, i, made) && Tree(fs)
    requires var path := Resolve(files[i].path).value;
             && Clear(previous, path) && !(path in previous && previous[path].Directory?)
             && path in fs && fs[path].File? && fs == WithDirectories(previous, path)[path := fs[path]]
    ensures Progress(before, fs, files, i + 1, made + NewAbove(previous, fs, files[i]))
  {
    var path := Resolve(files[i].path).value;
    var mid := WithDirectories(previous, path);
    TreeWithDirectories(previous, path);
    assert NewAbove(previous, mid, files[i]) == NewAbove(previous, fs, files[i]);
    FailedWrite(before, previous, mid, files, i, made);
    FilePlaced(before, mid, files, i, made + NewAbove(previous, fs, files[i]), fs[path]);
  }

  lemma FilePlaced(before: FileSystem, mid: FileSystem, files: seq<Spec>, i: nat, made: set<string>, f: Node)
    requires i < |files| && Resolve(files[i].path).Some? && Progress(before, mid, files, i, made) && f.File?
    requires var path := Resolve(files[i].path).value;
             && !(path in mid && mid[path].Directory?)
             && forall a :: Above(a, path) ==> a in mid && mid[a].Directory?
    ensures Progress(before, mid[Resolve(files[i].path).value := f], files, i + 1, made)
  {
    var path := Resolve(files[i].path).value;
    TreeWithFile(mid, path, f);
    AllMade(before, mid, files, i, made);
    assert files[..i + 1] == files[..i] + [files[i]];
    ManagedStep(files, i);
    ExplainedPlaced(before, mid, Managed(files[..i]), Managed(files[..i + 1]), made, path, f);
    FilesPlaced(mid, files[..i], files[i], f);
  }

  lemma ExplainedPlaced(before: FileSystem, mid: FileSystem, managed: set<string>, more: set<string>,
          made: set<string>, path: string, f: Node)
    requires Explained(before, mid, managed, made) && more == managed + {path} && f.File?
             && !(path in mid && mid[path].Directory?)
    ensures Explained(before, mid[path := f], more, made)
  {
    forall p | p !in made && p != path
      ensures SameAt(mid[path := f], before, p) || (p in more && p in mid && mid[p].File?)
    {
      assert SameAt(mid, before, p) || (p in managed && p in mid && mid[p].File?);
    }
  }

  lemma FilesPlaced(mid: FileSystem, front: seq<Spec>, g: Spec, f: Node)
    requires FilesAt(mid, front) && Resolve(g.path).Some? && f.File?
    ensures FilesAt(mid[Resolve(g.path).value := f], front + [g])
  {
    assert forall h :: h in front + [g] <==> h in front || h == g;
  }

  lemma AllMade(before: FileSystem, mid: FileSystem, files: seq<Spec>, i: nat, made: set<string>)
    requires i < |files| && Resolve(files[i].path).Some? && Progress(before, mid, files, i, made)
    requires forall a :: Above(a, Resolve(files[i].path).value) ==> a in mid && mid[a].Directory?
    ensures Missing(before, files[..i + 1]) <= made
  {
    MissingStep(before, files, i);
    forall a | Above(a, Resolve(files[i].path).value) && a !in before
      ensures a in made
    {
      assert a in mid && mid[a].Directory?;
    }
  }

  /** Above a path that existed nothing is missing. */
  lemma NoneMissing(before: FileSystem, fs: FileSystem, path: string)
    requires Tree(before) && Kept(before, fs) && path in before
    ensures forall a :: Above(a, path) ==> a in fs
    ensures WithDirectories(fs, path) == fs
  {
  }

  /** Restoring one path leaves the other restored ones as they are. */
  lemma RestoredOne(previous: FileSystem, fs: FileSystem, before: FileSystem, backups: seq<Backup>, i: nat)
    requires i < |backups| && Faithful(backups, before) && RestoredFrom(previous, before, backups, i + 1)
    requires SameOff(fs, previous, {backups[i].path}) && SameAt(fs, before, backups[i].path)
    ensures RestoredFrom(fs, before, backups, i)
  {
    forall j | i < j < |backups|
      ensures SameAt(fs, before, backups[j].path)
    {
      assert SameAt(fs, previous, backups[j].path) && SameAt(previous, before, backups[j].path);
    }
  }

  lemma SameOffChain(a: FileSystem, b: FileSystem, c: FileSystem, path: string, paths: set<string>)
    requires SameOff(a, b, {path}) && SameOff(b, c, paths) && path in paths
    ensures SameOff(a, c, paths)
  {
    forall p | p !in paths
      ensures SameAt(a, c, p)
    {
      assert SameAt(a, b, p) && SameAt(b, c, p);
    }
  }

  lemma TreeWithout(fs: FileSystem, path: string)
    requires Tree(fs) && !exists q :: q in fs && Above(path, q)
    ensures Tree(fs - {path})
  {
  }

  lemma SameEverywhere(a: FileSystem, b: FileSystem)
    requires forall p :: SameAt(a, b, p)
    ensures a == b
  {
    forall p
      ensures p in a <==> p in b
      ensures p in a && p in b ==> a[p] == b[p]
    {
      assert SameAt(a, b, p);
    }
  }

  lemma ManagedStep(files: seq<Spec>, i: nat)
    requires i < |files|
    ensures var path := CleanAbs(files[i].path);
            Managed(files[..i + 1]) == Managed(files[..i]) + (if path != "" && SafeChars(path) then {path} else {})
    ensures forall p :: p in Managed(files[..i]) ==> p != "" && SafeChars(p)
  {
    var front, f := files[..i], files[i];
    assert files[..i + 1] == front + [f];
    assert forall g :: g in front + [f] <==> g in front || g == f;
    assert f in front + [f];
  }

  lemma FaithfulStep(backups: seq<Backup>, fs: FileSystem, b: Backup)
    requires Faithful(backups, fs) && Describes(b, fs) && b.path !in PathsOf(backups)
    ensures Faithful(backups + [b], fs)
    ensures PathsOf(backups + [b]) == PathsOf(backups) + {b.path}
  {
    forall i | 0 <= i < |backups|
      ensures backups[i].path in PathsOf(backups)
    {
      assert backups[i] in backups;
    }
    assert forall c :: c in backups + [b] <==> c in backups || c == b;
    assert b in backups + [b];
  }
}
