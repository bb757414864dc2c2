/** `cleanAbsPath` and `hasUnsafePathToken`: which file a configured path names. */
module Paths {
  import opened Common
  import opened Text

  function Join(cs: seq<string>): string {
    if cs == [] then "" else if |cs| == 1 then cs[0] else cs[0] + "/" + Join(cs[1..])
  }

  /** The component stack of `filepath.Clean` for a rooted path. */
  function Normalize(parts: seq<string>, stack: seq<string>): seq<string>
    decreases |parts|
  {
    if parts == [] then stack
    else if parts[0] == "" || parts[0] == "." then Normalize(parts[1..], stack)
    else if parts[0] == ".." then Normalize(parts[1..], if stack == [] then [] else stack[..|stack| - 1])
    else Normalize(parts[1..], stack + [parts[0]])
  }

  /** The names of the components that cleaning leaves. */
  function Names(p: string): seq<string> {
    Normalize(Split(p, '/'), [])
  }

  function Clean(p: string): string {
    "/" + Join(Names(p))
  }

  /** `cleanAbsPath`; the empty string stands for a refused path. */
  function CleanAbs(path: string): string {
    var p := TrimSpace(path);
    if p == "" || '\0' in p || p[0] != '/' then "" else Clean(p)
  }

  predicate SafeChars(p: string) {
    forall i :: 0 <= i < |p| ==> !IsControl(p[i]) && !IsSpace(p[i])
  }

  /** The file a configured path names, if the path is accepted. */
  function Resolve(path: string): Option<string> {
    var p := CleanAbs(path);
    if p == "" || !SafeChars(p) then None else Some(p)
  }

  /** A component that survives cleaning. */
  predicate Component(c: string) {
    c != "" && c != "." && c != ".." && '/' !in c
  }

  predicate Components(cs: seq<string>) {
    forall i :: 0 <= i < |cs| ==> Component(cs[i])
  }

  lemma {:induction false} SplitHasNoSeparator(s: string)
    ensures forall i :: 0 <= i < |Split(s, '/')| ==> '/' !in Split(s, '/')[i]
  {
    if s != "" {
      SplitHasNoSeparator(s[1..]);
      var rest := Split(s[1..], '/');
      if s[0] != '/' {
        assert '/' !in [s[0]] + rest[0] by {
          assert forall c :: c in [s[0]] + rest[0] ==> c == s[0] || c in rest[0];
        }
      }
    }
  }

  lemma {:induction false} NormalizeGivesComponents(parts: seq<string>, stack: seq<string>)
    requires (forall i :: 0 <= i < |parts| ==> '/' !in parts[i]) && Components(stack)
    ensures Components(Normalize(parts, stack))
    decreases |parts|
  {
    if parts != [] {
      var next :=
        if parts[0] == "" || parts[0] == "." then stack
        else if parts[0] == ".." then (if stack == [] then [] else stack[..|stack| - 1])
        else stack + [parts[0]];
      NormalizeGivesComponents(parts[1..], next);
    }
  }

  lemma {:induction false} NormalizeKeepsComponents(cs: seq<string>, stack: seq<string>)
    requires Components(cs)
    ensures Normalize(cs, stack) == stack + cs
    decreases |cs|
  {
    if cs == [] {
      assert stack + cs == stack;
    } else {
      NormalizeKeepsComponents(cs[1..], stack + [cs[0]]);
      assert stack + [cs[0]] + cs[1..] == stack + cs;
    }
  }

  lemma {:induction false} SplitOfJoin(cs: seq<string>)
    requires Components(cs) && cs != []
    ensures Split(Join(cs), '/') == cs
    decreases |cs|
  {
    SplitWhole(cs[0], '/');
    if |cs| > 1 {
      SplitOfJoin(cs[1..]);
      SplitAppend(cs[0], Join(cs[1..]), '/');
      assert cs == [cs[0]] + cs[1..];
    }
  }

  /** A path of plain components is clean. */
  lemma JoinIsClean(cs: seq<string>)
    requires Components(cs)
    ensures Clean("/" + Join(cs)) == "/" + Join(cs)
  {
    var c := "/" + Join(cs);
    assert c[1..] == Join(cs);
    if cs == [] {
      assert Split(c, '/') == ["", ""];
      assert ["", ""][1..] == [""] && [""][1..] == [];
      assert Normalize([""], []) == [];
    } else {
      SplitOfJoin(cs);
      assert Split(c, '/') == [""] + cs;
      assert ([""] + cs)[1..] == cs;
      NormalizeKeepsComponents(cs, []);
      assert [] + cs == cs;
    }
  }

  lemma {:induction false} NormalizeSnoc(parts: seq<string>, c: string, stack: seq<string>)
    ensures var names := Normalize(parts, stack);
            Normalize(parts + [c], stack) ==
            if c == "" || c == "." then names
            else if c == ".." then (if names == [] then [] else names[..|names| - 1])
            else names + [c]
    decreases |parts|
  {
    if parts == [] {
      assert [] + [c] == [c] && [c][1..] == [];
    } else {
      assert (parts + [c])[1..] == parts[1..] + [c];
      var next :=
        if parts[0] == "" || parts[0] == "." then stack
        else if parts[0] == ".." then (if stack == [] then [] else stack[..|stack| - 1])
        else stack + [parts[0]];
      NormalizeSnoc(parts[1..], c, next);
    }
  }

  /** Cleaning walks the path from the root: an empty name and `.` stay, `..` goes to the parent and stays at the root,
      and any other name goes below. */
  lemma CleanWalks(p: string, c: string)
    requires '/' !in c
    ensures Clean("") == "/"
    ensures var names, end := Names(p), Names(p + "/" + c);
            if c == "" || c == "." then Clean(p + "/" + c) == Clean(p)
            else if c == ".." then end == if names == [] then [] else names[..|names| - 1]
            else end == names + [c]
  {
    assert [""][1..] == [];
    SplitWhole(c, '/');
    SplitAppend(p, c, '/');
    NormalizeSnoc(Split(p, '/'), c, []);
    assert p + "/" + c == p + ['/'] + c;
  }

  lemma {:induction false} JoinMembers(cs: seq<string>)
    ensures SafeChars(Join(cs)) <==> forall i :: 0 <= i < |cs| ==> SafeChars(cs[i])
  {
    if |cs| > 1 {
      JoinMembers(cs[1..]);
      var head, tail := cs[0] + "/", Join(cs[1..]);
      assert Join(cs) == head + tail;
      assert SafeChars(head + tail) <==> SafeChars(head) && SafeChars(tail) by {
        SafeAppend(head, tail);
      }
      SafeAppend(cs[0], "/");
      assert forall i :: 0 <= i < |cs[1..]| ==> cs[1..][i] == cs[i + 1];
      assert (forall i :: 0 <= i < |cs| ==> SafeChars(cs[i])) <==>
             SafeChars(cs[0]) && forall i :: 0 <= i < |cs[1..]| ==> SafeChars(cs[1..][i]) by {
        assert forall i :: 1 <= i < |cs| ==> cs[i] == cs[1..][i - 1];
      }
    }
  }

  lemma SafeAppend(a: string, b: string)
    ensures SafeChars(a + b) <==> SafeChars(a) && SafeChars(b)
  {
    assert forall i :: 0 <= i < |b| ==> (a + b)[|a| + i] == b[i];
    assert forall i :: 0 <= i < |a| ==> (a + b)[i] == a[i];
  }

  /** A path is accepted if and only if, trimmed, it starts at the root, has no NUL, and no component that cleaning
      leaves has white space or control characters; it then names the path of those components. */
  lemma ResolvesIff(path: string)
    ensures var p := TrimSpace(path);
            Resolve(path) == if && p != "" && p[0] == '/' && '\0' !in p
                                && (forall i :: 0 <= i < |Names(p)| ==> SafeChars(Names(p)[i]))
                             then Some("/" + Join(Names(p))) else None
  {
    var names := Names(TrimSpace(path));
    SafeAppend("/", Join(names));
    JoinMembers(names);
  }

  lemma CleanIsStable(p: string)
    ensures Clean(Clean(p)) == Clean(p)
  {
    SplitHasNoSeparator(p);
    NormalizeGivesComponents(Split(p, '/'), []);
    JoinIsClean(Names(p));
  }

  /** A path of plain components without white space and control characters names itself. */
  lemma JoinResolves(cs: seq<string>)
    requires Components(cs) && SafeChars("/" + Join(cs))
    ensures Resolve("/" + Join(cs)) == Some("/" + Join(cs))
  {
    var p := "/" + Join(cs);
    JoinIsClean(cs);
    TrimIdentity(p, IsSpace);
    assert IsControl('\0');
  }

  /** An accepted path names itself, so a backup's path leads back to the same file. */
  lemma ResolveIsStable(path: string)
    requires Resolve(path).Some?
    ensures CleanAbs(Resolve(path).value) == Resolve(path).value
    ensures Resolve(Resolve(path).value) == Resolve(path)
  {
    var p := Resolve(path).value;
    CleanIsStable(TrimSpace(path));
    TrimIdentity(p, IsSpace);
    assert IsControl('\0');
  }
}
