/** `os.path.normpath` as probes/z7/rawadmin.py uses it: its results are canonical,
    so that a path is the same key however often it is normalised. */
module NormPaths {
  import opened Text
  import opened RawLayout

  /** A path component that `normpath` keeps. */
  predicate Component(c: string) {
    c != "" && c != "." && c != ".." && Lacks('/', c)
  }

  /** Climbs first (none below a root), then components. */
  predicate Climbing(cs: seq<string>, rooted: bool, up: nat) {
    && up <= |cs| && (rooted ==> up == 0)
    && (forall i :: 0 <= i < up ==> cs[i] == "..")
    && (forall i :: up <= i < |cs| ==> Component(cs[i]))
  }

  ghost predicate Canonical(cs: seq<string>, rooted: bool) {
    exists up: nat :: Climbing(cs, rooted, up)
  }

  predicate AllLackSlash(parts: seq<string>) {
    forall i :: 0 <= i < |parts| ==> Lacks('/', parts[i])
  }

  lemma PushCanonical(acc: seq<string>, c: string, rooted: bool)
    requires Canonical(acc, rooted) && Lacks('/', c)
    ensures Canonical(PushComponent(acc, c, rooted), rooted)
  {
    var up: nat :| Climbing(acc, rooted, up);
    var r := PushComponent(acc, c, rooted);
    if c == "" || c == "." {
      assert r == acc;
    } else if c != ".." {
      assert r == acc + [c];
      assert Climbing(r, rooted, up);
    } else if up < |acc| {
      assert Component(acc[|acc| - 1]);
      assert r == acc[..|acc| - 1];
      assert Climbing(r, rooted, up);
    } else if rooted {
      assert r == acc;
    } else {
      assert r == acc + [c];
      assert Climbing(r, rooted, up + 1);
    }
  }

  lemma {:induction false} NormCanonical(parts: seq<string>, acc: seq<string>, rooted: bool)
    requires Canonical(acc, rooted) && AllLackSlash(parts)
    ensures Canonical(NormComponents(parts, acc, rooted), rooted)
    decreases |parts|
  {
    hide Canonical, PushComponent, Lacks;
    if parts != [] {
      PushCanonical(acc, parts[0], rooted);
      NormCanonical(parts[1..], PushComponent(acc, parts[0], rooted), rooted);
    }
  }

  /** A canonical list is left as it is. */
  lemma {:induction false} NormKeepsCanonical(cs: seq<string>, acc: seq<string>, rooted: bool, up: nat)
    requires Climbing(acc + cs, rooted, up)
    ensures NormComponents(cs, acc, rooted) == acc + cs
    decreases |cs|
  {
    if cs == [] {
      assert acc + cs == acc;
    } else {
      var c := cs[0];
      assert (acc + cs)[|acc|] == c;
      assert acc != [] && c == ".." ==> (acc + cs)[|acc| - 1] == "..";
      assert acc + [c] + cs[1..] == acc + cs;
      NormKeepsCanonical(cs[1..], acc + [c], rooted, up);
    }
  }

  lemma SplitAfterSlash(s: string)
    ensures Split('/', "/" + s) == [""] + Split('/', s)
  {
    assert ("/" + s)[1..] == s && ("/" + s)[..0] == "";
    assert Find('/', "/" + s) == 0;
  }

  function ComponentsOf(p: Path): seq<string> {
    NormComponents(Split('/', p), [], Root(p) != "")
  }

  lemma NormIs(p: Path)
    ensures
      var r := Root(p) + Join('/', ComponentsOf(p));
      NormPath(p) == if r == "" then "." else r
    ensures Canonical(ComponentsOf(p), Root(p) != "")
  {
    assert Climbing([], Root(p) != "", 0);
    SplitLacks('/', p);
    NormCanonical(Split('/', p), [], Root(p) != "");
  }

  lemma CanonicalLacksSlash(cs: seq<string>, rooted: bool)
    requires Canonical(cs, rooted)
    ensures AllLackSlash(cs) && forall i :: 0 <= i < |cs| ==> cs[i] != "" && cs[i] != "."
  {
    assert Lacks('/', "..");
  }

  /** Joined canonical components start with no slash and split into themselves. */
  lemma JoinedCanonical(cs: seq<string>, rooted: bool)
    requires Canonical(cs, rooted)
    ensures cs == [] ==> Join('/', cs) == ""
    ensures cs != [] ==> Join('/', cs) != "" && Join('/', cs)[0] != '/' && Split('/', Join('/', cs)) == cs
    ensures NormComponents(Split('/', Join('/', cs)), [], rooted) == cs
  {
    CanonicalLacksSlash(cs, rooted);
    if cs != [] {
      SplitJoin('/', cs);
      var up: nat :| Climbing(cs, rooted, up);
      assert [] + cs == cs;
      NormKeepsCanonical(cs, [], rooted, up);
    } else {
      assert Split('/', "") == [""] && [""][1..] == [];
    }
  }

  lemma EmptyPartSkipped(parts: seq<string>, rooted: bool)
    ensures NormComponents([""] + parts, [], rooted) == NormComponents(parts, [], rooted)
  {
    assert ([""] + parts)[1..] == parts;
  }

  /** Behind a root the joined components are found again. */
  lemma Reread(root: Path, cs: seq<string>)
    requires root == "" || root == "/" || root == "//"
    requires Canonical(cs, root != "") && (root == "" ==> cs != [])
    ensures Root(root + Join('/', cs)) == root && ComponentsOf(root + Join('/', cs)) == cs
  {
    hide NormComponents, Canonical, Join, Split;
    var j := Join('/', cs);
    var rooted := root != "";
    JoinedCanonical(cs, rooted);
    RootOf(root, j);
    if root == "/" {
      SplitAfterSlash(j);
      EmptyPartSkipped(Split('/', j), rooted);
    } else if root == "//" {
      assert "//" + j == "/" + ("/" + j);
      SplitAfterSlash("/" + j);
      SplitAfterSlash(j);
      EmptyPartSkipped([""] + Split('/', j), rooted);
      EmptyPartSkipped(Split('/', j), rooted);
    } else {
      assert "" + j == j;
    }
  }

  lemma RootOf(root: Path, j: string)
    requires root == "" || root == "/" || root == "//"
    requires j != "" ==> j[0] != '/'
    requires root == "" ==> j != ""
    ensures Root(root + j) == root
  {
    var p := root + j;
    assert |p| > |root| ==> p[|root|] != '/';
    assert |p| >= 3 ==> p[..3][2] == p[2];
    assert |p| >= 2 ==> p[..2][1] == p[1];
    assert |p| >= 1 ==> p[..1][0] == p[0];
  }

  /** Normalising twice is normalising once, for every path. */
  lemma NormIdempotent(p: Path)
    ensures NormPath(NormPath(p)) == NormPath(p)
  {
    hide NormPath, NormComponents, Canonical;
    NormIs(p);
    var root, cs := Root(p), ComponentsOf(p);
    if root == "" && cs == [] {
      DotIsDot();
      JoinedCanonical(cs, false);
    } else {
      Reread(root, cs);
      JoinedCanonical(cs, root != "");
      NormIs(root + Join('/', cs));
    }
  }

  lemma DotIsDot()
    ensures NormPath(".") == "."
  {
    assert Lacks('/', ".");
    assert Split('/', ".") == ["."] by { SplitJoin('/', ["."]); }
    assert ["."][1..] == [];
    assert !StartsWith(".", "/") by { assert "."[..1][0] == '.'; }
  }

  function Slashes(n: nat): string {
    if n == 0 then "" else "/" + Slashes(n - 1)
  }

  lemma {:induction false} SplitSlashes(n: nat, j: string)
    ensures NormComponents(Split('/', Slashes(n) + j), [], n > 0) == NormComponents(Split('/', j), [], n > 0)
    ensures NormComponents(Split('/', Slashes(n) + j), [], true) == NormComponents(Split('/', j), [], true)
  {
    hide NormComponents, Split;
    if n == 0 {
      assert "" + j == j;
    } else {
      assert Slashes(n) + j == "/" + (Slashes(n - 1) + j);
      SplitAfterSlash(Slashes(n - 1) + j);
      EmptyPartSkipped(Split('/', Slashes(n - 1) + j), true);
      SplitSlashes(n - 1, j);
    }
  }

  lemma ThreeSlashes(rest: string)
    ensures Root("///" + rest) == "/"
  {
    var p := "///" + rest;
    assert p[..3] == "///" && p[..2] == "//" && p[..1] == "/";
  }

  lemma FewSlashes()
    ensures Slashes(0) == "" && Slashes(1) == "/" && Slashes(2) == "//"
  {
  }

  lemma ManySlashes(n: nat)
    requires n >= 3
    ensures Slashes(n) == "///" + Slashes(n - 3)
  {
    assert Slashes(n - 1) == "/" + Slashes(n - 2) && Slashes(n - 2) == "/" + Slashes(n - 3);
  }

  lemma RootSlashes(n: nat, j: string)
    requires j != "" && j[0] != '/'
    ensures Root(Slashes(n) + j) == if n == 0 then "" else if n == 2 then "//" else "/"
  {
    hide Root, Slashes;
    if n <= 2 {
      FewSlashes();
      RootOf(Slashes(n), j);
    } else {
      ManySlashes(n);
      ThreeSlashes(Slashes(n - 3) + j);
      assert "///" + Slashes(n - 3) + j == "///" + (Slashes(n - 3) + j);
    }
  }

  /** Slashes at the start: two are kept, more are one. */
  lemma LeadingSlashes(n: nat, cs: seq<string>)
    requires cs != [] && forall i :: 0 <= i < |cs| ==> Component(cs[i])
    ensures
      NormPath(Slashes(n) + Join('/', cs))
      == (if n == 0 then "" else if n == 2 then "//" else "/") + Join('/', cs)
  {
    hide NormComponents, Split, Join, Root, NormPath;
    assert Climbing(cs, n > 0, 0);
    JoinedCanonical(cs, n > 0);
    NormIs(Slashes(n) + Join('/', cs));
    SplitSlashes(n, Join('/', cs));
    RootSlashes(n, Join('/', cs));
  }
}
