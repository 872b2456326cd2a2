/** `resolve_dotgit` and `resolve_commondir` of probes/z7/rawadmin.py: from a
    worktree to its own administrative directory, and on to the shared one. */
module GitDirs {
  import opened Common
  import opened Text
  import opened RawLayout
  import opened NormPaths

  const GITFILE := "gitdir: "

  datatype GitFileError = NoDotGit | NoPrefix | EmptyValue

  /** The target of a one-line indirection file: `rstrip`, join, `normpath`. */
  function Pointed(from: Path, line: string): Path {
    NormPath(JoinPath(from, line))
  }

  function FirstLineOf(raw: string): string {
    StripRight(Split(NEWLINE, raw)[0], ByteSpace())
  }

  /** `resolve_dotgit`: a directory is taken as it is, a file is followed. */
  function ResolveDotGit(fs: FileSystem, worktree: Path): Result<Path, GitFileError> {
    var dot := JoinPath(worktree, ".git");
    if dot in fs.dirs then Ok(dot)
    else
      match Read(fs, worktree, ".git")
      case None => Err(NoDotGit)
      case Some(raw) =>
        if !StartsWith(raw, GITFILE) then Err(NoPrefix)
        else
          var line := FirstLineOf(raw[|GITFILE|..]);
          if line == [] then Err(EmptyValue) else Ok(Pointed(worktree, line))
  }

  /** `resolve_commondir` */
  function ResolveCommonDir(fs: FileSystem, gitdir: Path): Path {
    match Read(fs, gitdir, "commondir")
    case None => gitdir
    case Some(raw) => Pointed(gitdir, FirstLineOf(raw))
  }

  // -------------------------------------------------------------- refusals

  lemma {:induction false} StripsToNothing(s: string)
    ensures StripRight(s, ByteSpace()) == "" <==> AllSpace(s, ByteSpace())
  {
    if s != "" {
      var n := |s| - 1;
      if ByteSpace()(s[n]) {
        StripsToNothing(s[..n]);
        assert AllSpace(s, ByteSpace()) <==> AllSpace(s[..n], ByteSpace()) by {
          assert forall i :: 0 <= i < n ==> s[..n][i] == s[i];
        }
      }
    }
  }

  /** A worktree is refused exactly for one of three reasons: nothing is there; the file
      does not start with the prefix; or nothing but white space follows on its line. */
  lemma RefusedIff(fs: FileSystem, worktree: Path)
    ensures
      var isDir := JoinPath(worktree, ".git") in fs.dirs;
      var raw := Read(fs, worktree, ".git");
      && (ResolveDotGit(fs, worktree) == Err(NoDotGit) <==> !isDir && raw == None)
      && (ResolveDotGit(fs, worktree) == Err(NoPrefix) <==> !isDir && raw.Some? && !StartsWith(raw.value, "gitdir: "))
      && (ResolveDotGit(fs, worktree) == Err(EmptyValue) <==>
            && !isDir && raw.Some? && StartsWith(raw.value, "gitdir: ")
            && AllSpace(Split(NEWLINE, raw.value[8..])[0], ByteSpace()))
  {
    hide JoinPath, Read, StartsWith, Split, NormPath, AllSpace;
    match Read(fs, worktree, ".git")
    case None =>
    case Some(raw) =>
      PrefixFits(raw);
      if StartsWith(raw, GITFILE) {
        StripsToNothing(Split(NEWLINE, raw[|GITFILE|..])[0]);
      }
  }

  lemma PrefixFits(raw: string)
    ensures StartsWith(raw, GITFILE) ==> |GITFILE| <= |raw|
  {
  }

  // ---------------------------------------------- what git writes, read back

  predicate Components(cs: seq<string>) {
    forall i :: 0 <= i < |cs| ==> Component(cs[i])
  }

  function Absolute(cs: seq<string>): Path {
    "/" + Join('/', cs)
  }

  function Climb(up: nat): seq<string> {
    if up == 0 then [] else [".."] + Climb(up - 1)
  }

  /** A relative path: some climbs, then components. */
  function Relative(up: nat, cs: seq<string>): Path {
    Join('/', Climb(up) + cs)
  }

  lemma {:induction false} NormKeeps(cs: seq<string>, rest: seq<string>, acc: seq<string>)
    requires Components(cs)
    ensures NormComponents(cs + rest, acc, true) == NormComponents(rest, acc + cs, true)
    decreases |cs|
  {
    if cs == [] {
      assert cs + rest == rest && acc + cs == acc;
    } else {
      assert (cs + rest)[1..] == cs[1..] + rest;
      assert acc + [cs[0]] + cs[1..] == acc + cs;
      NormKeeps(cs[1..], rest, acc + [cs[0]]);
    }
  }

  lemma NormClimb(rest: seq<string>, acc: seq<string>)
    requires Components(acc) && acc != []
    ensures NormComponents([".."] + rest, acc, true) == NormComponents(rest, acc[..|acc| - 1], true)
  {
    assert ([".."] + rest)[1..] == rest;
    assert Component(acc[|acc| - 1]);
  }

  /** Each ".." drops the last component that is left. */
  lemma {:induction false} NormClimbs(up: nat, rest: seq<string>, acc: seq<string>)
    requires Components(acc) && up <= |acc|
    ensures NormComponents(Climb(up) + rest, acc, true) == NormComponents(rest, acc[..|acc| - up], true)
  {
    hide NormComponents, Component;
    if up == 0 {
      assert Climb(0) + rest == rest && acc[..|acc|] == acc;
    } else {
      var shorter := acc[..|acc| - 1];
      ClimbCons(up, rest);
      hide Climb;
      NormClimb(Climb(up - 1) + rest, acc);
      NormClimbs(up - 1, rest, shorter);
      assert shorter[..|acc| - up] == acc[..|acc| - up];
    }
  }

  lemma ClimbCons(up: nat, rest: seq<string>)
    requires up > 0
    ensures Climb(up) + rest == [".."] + (Climb(up - 1) + rest)
  {
  }

  lemma {:induction false} JoinAppend(a: seq<string>, b: seq<string>)
    requires a != [] && b != []
    ensures Join('/', a + b) == Join('/', a) + "/" + Join('/', b)
    decreases |a|
  {
    if |a| == 1 {
      assert (a + b)[1..] == b;
    } else {
      assert (a + b)[1..] == a[1..] + b;
      JoinAppend(a[1..], b);
    }
  }

  lemma {:induction false} ClimbLacksSlash(up: nat)
    ensures |Climb(up)| == up && forall i :: 0 <= i < up ==> Climb(up)[i] == ".."
  {
    if up > 0 {
      ClimbLacksSlash(up - 1);
    }
  }

  lemma NormRooted(p: Path)
    requires |p| >= 2 && p[0] == '/' && p[1] != '/'
    ensures NormPath(p) == "/" + Join('/', NormComponents(Split('/', p), [], true))
  {
    hide Split, NormComponents, Join;
  }

  lemma NormParts(cs: seq<string>, up: nat, ds: seq<string>)
    requires Components(cs) && Components(ds) && up <= |cs|
    ensures NormComponents([""] + (cs + (Climb(up) + ds)), [], true) == cs[..|cs| - up] + ds
  {
    hide Component, Climb;
    var rest := cs + (Climb(up) + ds);
    EmptyPartSkipped(rest, true);
    NormKeeps(cs, Climb(up) + ds, []);
    assert [] + cs == cs;
    NormClimbs(up, ds, cs);
    NormKeeps(ds, [], cs[..|cs| - up]);
    assert ds + [] == ds;
  }

  lemma RootedJoin(rest: seq<string>)
    requires rest != []
    ensures Join('/', [""] + rest) == "/" + Join('/', rest)
  {
    assert ([""] + rest)[1..] == rest;
  }

  /** No part of a rooted path of components, climbs and components holds a slash. */
  lemma PartsLackSlash(cs: seq<string>, up: nat, ds: seq<string>)
    requires Components(cs) && Components(ds)
    ensures AllLackSlash([""] + (cs + (Climb(up) + ds)))
  {
    hide Climb;
    ClimbLacksSlash(up);
    var parts := [""] + (cs + (Climb(up) + ds));
    forall i | 0 <= i < |parts|
      ensures Lacks('/', parts[i])
    {
      if 1 <= i <= |cs| {
        assert Component(cs[i - 1]);
      } else if i > |cs| + up {
        assert parts[i] == ds[i - 1 - |cs| - up];
      }
    }
  }

  lemma FirstComponent(cs: seq<string>, rest: seq<string>)
    requires Components(cs) && cs != []
    ensures Join('/', cs + rest) != [] && Join('/', cs + rest)[0] != '/'
  {
    assert (cs + rest)[0] == cs[0];
    assert Component(cs[0]);
  }

  lemma NormBelow(cs: seq<string>, up: nat, ds: seq<string>)
    requires Components(cs) && Components(ds) && cs != [] && up <= |cs|
    ensures NormPath("/" + Join('/', cs + (Climb(up) + ds))) == Absolute(cs[..|cs| - up] + ds)
  {
    hide Components, Climb, NormPath, NormComponents, Split;
    var rest := cs + (Climb(up) + ds);
    RootedJoin(rest);
    FirstComponent(cs, Climb(up) + ds);
    NormRooted("/" + Join('/', rest));
    PartsLackSlash(cs, up, ds);
    SplitJoin('/', [""] + rest);
    NormParts(cs, up, ds);
  }

  lemma RootIsRoot()
    ensures NormPath("/") == "/"
  {
    SplitAfterSlash("");
    assert "/" + "" == "/" && Split('/', "") == [""];
    EmptyPartSkipped([""], true);
    assert [""][1..] == [];
    assert NormComponents([""], [], true) == [];
  }

  /** A rooted path of components, climbs and components again. */
  lemma NormAbsolute(cs: seq<string>, up: nat, ds: seq<string>)
    requires Components(cs) && Components(ds) && up <= |cs|
    ensures NormPath("/" + Join('/', cs + (Climb(up) + ds))) == Absolute(cs[..|cs| - up] + ds)
  {
    hide Component, NormPath;
    if cs != [] {
      NormBelow(cs, up, ds);
    } else if ds != [] {
      NormBelow(ds, 0, []);
      assert ds + (Climb(0) + []) == ds && [] + (Climb(0) + ds) == ds;
      assert ds[..|ds|] + [] == ds && [][..0] + ds == ds;
    } else {
      RootIsRoot();
      EmptyJoin();
      assert cs + (Climb(up) + ds) == [] && cs[..|cs| - up] + ds == [];
      assert "/" + "" == "/";
    }
  }

  lemma {:induction false} LastOfJoin(cs: seq<string>)
    requires Components(cs) && cs != []
    ensures Join('/', cs) != [] && Join('/', cs)[|Join('/', cs)| - 1] != '/'
  {
    assert Component(cs[0]);
    if |cs| > 1 {
      LastOfJoin(cs[1..]);
    }
  }

  /** An absolute value is taken as it stands, wherever it is read. */
  lemma AbsolutePointed(from: Path, ds: seq<string>)
    requires Components(ds)
    ensures Pointed(from, Absolute(ds)) == Absolute(ds)
  {
    hide NormPath, Component;
    NormAbsolute(ds, 0, []);
    assert ds + (Climb(0) + []) == ds;
    assert ds[..|ds|] + [] == ds;
  }

  /** A relative value climbs from where it is read, then goes down. */
  lemma RelativePointed(cs: seq<string>, up: nat, ds: seq<string>)
    requires Components(cs) && Components(ds) && up <= |cs| && up + |ds| > 0
    ensures Pointed(Absolute(cs), Relative(up, ds)) == Absolute(cs[..|cs| - up] + ds)
  {
    hide NormPath, Component, Climb, Join;
    ClimbLacksSlash(up);
    NormAbsolute(cs, up, ds);
    RelativeStart(up, ds);
    var v := Relative(up, ds);
    if cs == [] {
      EmptyJoin();
      assert Absolute(cs) == "/" && JoinPath("/", v) == "/" + v;
      assert cs + (Climb(up) + ds) == Climb(up) + ds;
    } else {
      JoinAppend(cs, Climb(up) + ds);
      LastOfJoin(cs);
      var j := Join('/', cs);
      assert "/" + (j + "/" + v) == Absolute(cs) + "/" + v;
      assert JoinPath(Absolute(cs), v) == Absolute(cs) + "/" + v;
    }
  }

  lemma EmptyJoin()
    ensures Join('/', []) == ""
  {
  }

  lemma RelativeStart(up: nat, ds: seq<string>)
    requires Components(ds) && up + |ds| > 0
    ensures Relative(up, ds) != [] && Relative(up, ds)[0] != '/'
  {
    hide Climb;
    ClimbLacksSlash(up);
    var parts := Climb(up) + ds;
    assert up == 0 ==> parts[0] == ds[0] && Component(ds[0]);
    assert up > 0 ==> parts[0] == "..";
    assert parts[0] != [] && parts[0][0] != '/';
  }

  /** The path as one line can hold it. */
  predicate OneLine(p: Path) {
    Lacks(NEWLINE, p) && p != [] && !ByteSpace()(p[|p| - 1])
  }

  /** A file whose first line is the path and white space, with or without more lines. */
  predicate FirstLineHolds(raw: string, p: Path, white: string) {
    OneLine(p) && AllSpace(white, ByteSpace()) && Lacks(NEWLINE, white)
    && (raw == p + white || StartsWith(raw, p + white + [NEWLINE]))
  }

  lemma FirstLineIs(raw: string, p: Path, white: string)
    requires FirstLineHolds(raw, p, white)
    ensures FirstLineOf(raw) == p && Split(NEWLINE, raw)[0] == p + white
  {
    hide StripRight;
    var line := p + white;
    assert Lacks(NEWLINE, line);
    if StartsWith(raw, line + [NEWLINE]) {
      var rest := raw[|line| + 1..];
      assert raw == line + [NEWLINE] + rest;
      FindAt(NEWLINE, line, rest);
      assert raw[..|line|] == line;
    } else {
      assert Find(NEWLINE, raw) == |raw|;
    }
    StripTail(p, white, ByteSpace());
  }

  lemma DotGit(worktree: seq<string>)
    requires Components(worktree)
    ensures JoinPath(Absolute(worktree), ".git") == Absolute(worktree + [".git"])
  {
    assert ".git"[..1][0] != '/';
    if worktree == [] {
      assert [] + [".git"] == [".git"];
    } else {
      LastOfJoin(worktree);
      JoinAppend(worktree, [".git"]);
      var j := Join('/', worktree);
      assert "/" + (j + "/" + ".git") == ("/" + j) + "/" + ".git";
    }
  }

  /** A worktree with a directory of its own is resolved to that. */
  lemma DirectoryIsOwn(fs: FileSystem, worktree: seq<string>)
    requires Components(worktree) && Absolute(worktree + [".git"]) in fs.dirs
    ensures ResolveDotGit(fs, Absolute(worktree)) == Ok(Absolute(worktree + [".git"]))
  {
    hide JoinPath, NormPath, Component;
    DotGit(worktree);
  }

  /** A gitfile leads where its line points, relative to the worktree: to an absolute
      path as it stands, to a relative one from the worktree. */
  lemma GitFileRoundTrip(fs: FileSystem, worktree: seq<string>, raw: string, value: Path, white: string)
    requires Components(worktree) && FirstLineHolds(raw, value, white)
    requires Absolute(worktree + [".git"]) !in fs.dirs
    requires Read(fs, Absolute(worktree), ".git") == Some("gitdir: " + raw)
    ensures ResolveDotGit(fs, Absolute(worktree)) == Ok(Pointed(Absolute(worktree), value))
    ensures forall cs :: Components(cs) && value == Absolute(cs) ==>
      ResolveDotGit(fs, Absolute(worktree)) == Ok(Absolute(cs))
    ensures forall up: nat, cs ::
      Components(cs) && up <= |worktree| && up + |cs| > 0 && value == Relative(up, cs) ==>
      ResolveDotGit(fs, Absolute(worktree)) == Ok(Absolute(worktree[..|worktree| - up] + cs))
  {
    DotGit(worktree);
    hide NormPath, Component, Read, Split, Pointed, Absolute, Relative;
    assert (GITFILE + raw)[|GITFILE|..] == raw && (GITFILE + raw)[..|GITFILE|] == GITFILE;
    FirstLineIs(raw, value, white);
    forall cs | Components(cs) && value == Absolute(cs)
      ensures Pointed(Absolute(worktree), value) == Absolute(cs)
    {
      AbsolutePointed(Absolute(worktree), cs);
    }
    forall up: nat, cs | Components(cs) && up <= |worktree| && up + |cs| > 0 && value == Relative(up, cs)
      ensures Pointed(Absolute(worktree), value) == Absolute(worktree[..|worktree| - up] + cs)
    {
      RelativePointed(worktree, up, cs);
    }
  }

  /** A commondir file leads where its line points, relative to the administrative
      directory; without one that directory is its own shared one. */
  lemma CommonDirRoundTrip(fs: FileSystem, gitdir: seq<string>, raw: string, value: Path, white: string)
    requires Components(gitdir) && FirstLineHolds(raw, value, white)
    ensures Read(fs, Absolute(gitdir), "commondir") == None ==>
      ResolveCommonDir(fs, Absolute(gitdir)) == Absolute(gitdir)
    ensures forall cs ::
      Read(fs, Absolute(gitdir), "commondir") == Some(raw) && Components(cs) && value == Absolute(cs) ==>
      ResolveCommonDir(fs, Absolute(gitdir)) == Absolute(cs)
    ensures forall up: nat, cs ::
      Read(fs, Absolute(gitdir), "commondir") == Some(raw)
      && Components(cs) && up <= |gitdir| && up + |cs| > 0 && value == Relative(up, cs) ==>
      ResolveCommonDir(fs, Absolute(gitdir)) == Absolute(gitdir[..|gitdir| - up] + cs)
  {
    hide NormPath, Component, Read, Split, Pointed, Absolute, Relative;
    FirstLineIs(raw, value, white);
    forall cs | Components(cs) && value == Absolute(cs)
      ensures Pointed(Absolute(gitdir), value) == Absolute(cs)
    {
      AbsolutePointed(Absolute(gitdir), cs);
    }
    forall up: nat, cs | Components(cs) && up <= |gitdir| && up + |cs| > 0 && value == Relative(up, cs)
      ensures Pointed(Absolute(gitdir), value) == Absolute(gitdir[..|gitdir| - up] + cs)
    {
      RelativePointed(gitdir, up, cs);
    }
  }

  /** The administrative directory of a linked worktree, with the value git writes,
      leads to the directory two levels up: the shared one. */
  lemma LinkedCommonDir(fs: FileSystem, common: seq<string>, area: string, id: string)
    requires Components(common) && Component(area) && Component(id)
    requires Read(fs, Absolute(common + [area, id]), "commondir") == Some("../.." + [NEWLINE])
    ensures ResolveCommonDir(fs, Absolute(common + [area, id])) == Absolute(common)
  {
    hide NormPath, Component, Read, Split;
    var cs := common + [area, id];
    assert Components(cs);
    TwoUp();
    CommonDirRoundTrip(fs, cs, "../.." + [NEWLINE], Relative(2, []), "");
    assert cs[..|cs| - 2] + [] == common;
  }

  lemma TwoUp()
    ensures Relative(2, []) == "../.." && FirstLineHolds("../.." + [NEWLINE], "../..", "")
  {
    assert Climb(2) == [".."] + Climb(1) && Climb(1) == [".."] + Climb(0);
    assert Climb(2) + [] == ["..", ".."] && ["..", ".."][1..] == [".."];
    assert "../.." + "" + [NEWLINE] == "../.." + [NEWLINE];
  }
}
