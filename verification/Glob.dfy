/** Scope globs: `_translate_glob` and `_matches_any` of
    src/sol_claude_dispatcher/git.py, and what a pattern means. */
module Glob {
  import opened Common
  import opened Text

  /** The pieces of the generated regex: `.*`, `[^/]*`, `[^/]` and an escaped character. */
  datatype Atom = AnyRun | SegmentRun | SegmentOne | Literal(c: char)

  // ---------------------------------------------------------- translation

  function Translate(p: string): seq<Atom> {
    if p == "" then []
    else if p[0] == '*' then
      if |p| > 1 && p[1] == '*' then [AnyRun] + Translate(p[2..]) else [SegmentRun] + Translate(p[1..])
    else if p[0] == '?' then [SegmentOne] + Translate(p[1..])
    else [Literal(p[0])] + Translate(p[1..])
  }

  lemma TranslateStep(p: string, atom: Atom, width: nat)
    requires p != ""
    requires (atom, width) == (
      if p[0] == '*' then if |p| > 1 && p[1] == '*' then (AnyRun, 2) else (SegmentRun, 1)
      else if p[0] == '?' then (SegmentOne, 1) else (Literal(p[0]), 1))
    ensures Translate(p) == [atom] + Translate(p[width..])
  {
  }

  lemma Snoc(a: seq<Atom>, x: Atom, b: seq<Atom>)
    ensures a + ([x] + b) == a + [x] + b
  {
  }

  /** The index loop of `_translate_glob`. */
  method TranslateGlob(p: string) returns (out: seq<Atom>)
    ensures out == Translate(p)
  {
    out := [];
    var i, n := 0, |p|;
    while i < n
      invariant 0 <= i <= n
      invariant out + Translate(p[i..]) == Translate(p)
    {
      var c := p[i];
      var atom, width := Literal(c), 1;
      if c == '*' {
        if i + 1 < n && p[i + 1] == '*' {
          atom, width := AnyRun, 2;
        } else {
          atom := SegmentRun;
        }
      } else if c == '?' {
        atom := SegmentOne;
      }
      TranslateStep(p[i..], atom, width);
      assert p[i..][width..] == p[i + width..];
      Snoc(out, atom, Translate(p[i + width..]));
      out := out + [atom];
      i := i + width;
    }
  }

  // -------------------------------------------------------------- matching

  /** A backtracking matcher for the whole of `s`. The dot does not match a newline. */
  predicate FullMatch(atoms: seq<Atom>, s: string)
    decreases |atoms| + |s|
  {
    if atoms == [] then s == []
    else
      match atoms[0]
      case AnyRun => FullMatch(atoms[1..], s) || (s != [] && s[0] != NEWLINE && FullMatch(atoms, s[1..]))
      case SegmentRun => FullMatch(atoms[1..], s) || (s != [] && s[0] != '/' && FullMatch(atoms, s[1..]))
      case SegmentOne => s != [] && s[0] != '/' && FullMatch(atoms[1..], s[1..])
      case Literal(c) => s != [] && s[0] == c && FullMatch(atoms[1..], s[1..])
  }

  /** `re.compile("^...$").match(s)`: the dollar also matches before a final newline. */
  predicate PyMatch(atoms: seq<Atom>, s: string) {
    FullMatch(atoms, s) || (s != [] && s[|s| - 1] == NEWLINE && FullMatch(atoms, s[..|s| - 1]))
  }

  predicate MatchesAny(path: string, patterns: seq<string>) {
    exists i :: 0 <= i < |patterns| && PyMatch(Translate(patterns[i]), path)
  }

  // --------------------------------------------------------------- meaning

  /** The strings one glob element stands for. */
  predicate Stands(a: Atom, piece: string) {
    match a
    case AnyRun => true
    case SegmentRun => Lacks('/', piece)
    case SegmentOne => |piece| == 1 && piece[0] != '/'
    case Literal(c) => piece == [c]
  }

  function StarRun(p: string): (r: nat)
    ensures r <= |p|
  {
    if p != "" && p[0] == '*' then 1 + StarRun(p[1..]) else 0
  }

  /** A pattern read by maximal star runs: one star stays within a path segment,
      two or more cross segments. */
  function Elements(p: string): seq<Atom>
    decreases |p|
  {
    if p == "" then []
    else if p[0] == '*' then [if StarRun(p) == 1 then SegmentRun else AnyRun] + Elements(p[StarRun(p)..])
    else if p[0] == '?' then [SegmentOne] + Elements(p[1..])
    else [Literal(p[0])] + Elements(p[1..])
  }

  /** `s` can be cut into one piece per element. */
  ghost predicate Denotes(elements: seq<Atom>, s: string) {
    exists pieces: seq<string> :: StandFor(elements, pieces) && Concat(pieces) == s
  }

  predicate StandFor(elements: seq<Atom>, pieces: seq<string>) {
    |pieces| == |elements| && forall i :: 0 <= i < |pieces| ==> Stands(elements[i], pieces[i])
  }

  /** The same, cutting off one piece at a time. */
  ghost predicate Cuts(elements: seq<Atom>, s: string) {
    if elements == [] then s == []
    else exists k :: 0 <= k <= |s| && Stands(elements[0], s[..k]) && Cuts(elements[1..], s[k..])
  }

  lemma {:induction false} DenotesCuts(elements: seq<Atom>, s: string)
    ensures Denotes(elements, s) <==> Cuts(elements, s)
    decreases |elements|, 1
  {
    if elements == [] {
      assert Denotes(elements, s) ==> s == [] by {
        if Denotes(elements, s) {
          var pieces: seq<string> :| StandFor(elements, pieces) && Concat(pieces) == s;
        }
      }
      if s == [] {
        var none: seq<string> := [];
        assert StandFor(elements, none) && Concat(none) == s;
      }
    } else {
      if Denotes(elements, s) {
        DenotesThenCuts(elements, s);
      }
      if Cuts(elements, s) {
        CutsThenDenotes(elements, s);
      }
    }
  }

  lemma {:induction false} CutsThenDenotes(elements: seq<Atom>, s: string)
    requires elements != [] && Cuts(elements, s)
    ensures Denotes(elements, s)
    decreases |elements|, 0
  {
    hide Stands;
    var k := CutFirst(elements, s);
    DenotesCuts(elements[1..], s[k..]);
    var pieces: seq<string> :| StandFor(elements[1..], pieces) && Concat(pieces) == s[k..];
    PieceInFront(elements, s[..k], pieces);
    assert s[..k] + s[k..] == s;
    assert Concat([s[..k]] + pieces) == s;
  }

  lemma PieceInFront(elements: seq<Atom>, piece: string, pieces: seq<string>)
    requires elements != [] && Stands(elements[0], piece) && StandFor(elements[1..], pieces)
    ensures StandFor(elements, [piece] + pieces) && Concat([piece] + pieces) == piece + Concat(pieces)
  {
    hide Stands;
    var whole := [piece] + pieces;
    assert whole[1..] == pieces;
    forall i | 0 <= i < |whole| ensures Stands(elements[i], whole[i]) {
      assert i > 0 ==> whole[i] == pieces[i - 1] && elements[i] == elements[1..][i - 1];
    }
  }

  lemma {:induction false} DenotesThenCuts(elements: seq<Atom>, s: string)
    requires elements != [] && Denotes(elements, s)
    ensures Cuts(elements, s)
    decreases |elements|, 0
  {
    hide Stands;
    var pieces: seq<string> :| StandFor(elements, pieces) && Concat(pieces) == s;
    var k := |pieces[0]|;
    assert s[..k] == pieces[0] && s[k..] == Concat(pieces[1..]);
    assert StandFor(elements[1..], pieces[1..]);
    assert Denotes(elements[1..], s[k..]);
    DenotesCuts(elements[1..], s[k..]);
  }

  // ------------------------------------------- the matcher and the meaning

  lemma CutRest(elements: seq<Atom>, s: string, k: nat)
    requires elements != [] && k <= |s| && Stands(elements[0], s[..k]) && Cuts(elements[1..], s[k..])
    ensures Cuts(elements, s)
  {
  }

  lemma CutFirst(elements: seq<Atom>, s: string) returns (k: nat)
    requires elements != [] && Cuts(elements, s)
    ensures k <= |s| && Stands(elements[0], s[..k]) && Cuts(elements[1..], s[k..])
  {
    k :| 0 <= k <= |s| && Stands(elements[0], s[..k]) && Cuts(elements[1..], s[k..]);
  }

  predicate RunTakes(a: Atom, c: char) {
    a == AnyRun || (a == SegmentRun && c != '/')
  }

  lemma ShiftCut(a: Atom, s: string, k: nat)
    requires 1 <= k <= |s| && RunTakes(a, s[0])
    ensures s[1..][k - 1..] == s[k..]
    ensures Stands(a, s[..k]) <==> Stands(a, s[1..][..k - 1])
  {
    var long, short := s[..k], s[1..][..k - 1];
    assert long == [s[0]] + short;
    if a == SegmentRun {
      assert forall i :: 0 <= i < |short| ==> short[i] == long[i + 1];
    }
  }

  /** A run matches one more character in front. */
  lemma RunGrows(elements: seq<Atom>, s: string)
    requires elements != [] && s != [] && RunTakes(elements[0], s[0])
    requires Cuts(elements, s[1..])
    ensures Cuts(elements, s)
  {
    hide Cuts;
    var k := CutFirst(elements, s[1..]);
    ShiftCut(elements[0], s, k + 1);
    CutRest(elements, s, k + 1);
  }

  lemma RunShrinks(elements: seq<Atom>, s: string)
    requires elements != [] && s != [] && RunTakes(elements[0], s[0])
    requires Cuts(elements, s)
    ensures Cuts(elements[1..], s) || Cuts(elements, s[1..])
  {
    hide Cuts;
    var k := CutFirst(elements, s);
    if k == 0 {
      assert s[0..] == s;
    } else {
      ShiftCut(elements[0], s, k);
      CutRest(elements, s[1..], k - 1);
    }
  }

  lemma EmptyRun(elements: seq<Atom>, s: string)
    requires elements != [] && (elements[0] == AnyRun || elements[0] == SegmentRun)
    requires Cuts(elements[1..], s)
    ensures Cuts(elements, s)
  {
    assert s[0..] == s && s[..0] == [];
    CutRest(elements, s, 0);
  }

  lemma HeadOfTake(s: string, k: nat)
    requires 0 < k <= |s|
    ensures s[..k][0] == s[0]
  {
  }

  lemma StuckRun(elements: seq<Atom>, s: string)
    requires elements != [] && (s == [] || (elements[0] == SegmentRun && s[0] == '/'))
    requires elements[0] == AnyRun || elements[0] == SegmentRun
    requires Cuts(elements, s)
    ensures Cuts(elements[1..], s)
  {
    hide Cuts;
    var k := CutFirst(elements, s);
    if k > 0 { HeadOfTake(s, k); }
    assert s[0..] == s;
  }

  lemma OneStep(elements: seq<Atom>, s: string)
    requires elements != [] && (elements[0] == SegmentOne || elements[0].Literal?)
    ensures Cuts(elements, s) <==> s != [] && Stands(elements[0], s[..1]) && Cuts(elements[1..], s[1..])
  {
    hide Cuts;
    if Cuts(elements, s) {
      var k := CutFirst(elements, s);
      assert k == 1;
    }
    if s != [] && Stands(elements[0], s[..1]) && Cuts(elements[1..], s[1..]) {
      CutRest(elements, s, 1);
    }
  }

  /** On a string without newlines the matcher accepts exactly what the atoms stand for. */
  lemma {:induction false} MatcherCuts(atoms: seq<Atom>, s: string)
    requires Lacks(NEWLINE, s)
    ensures FullMatch(atoms, s) <==> Cuts(atoms, s)
    decreases |atoms| + |s|
  {
    if atoms != [] {
      if atoms[0] == AnyRun || atoms[0] == SegmentRun {
        MatcherCuts(atoms[1..], s);
        if Cuts(atoms[1..], s) {
          EmptyRun(atoms, s);
        } else if s == [] || (atoms[0] == SegmentRun && s[0] == '/') {
          if Cuts(atoms, s) { StuckRun(atoms, s); }
        } else {
          MatcherCuts(atoms, s[1..]);
          if Cuts(atoms, s[1..]) {
            RunGrows(atoms, s);
          } else if Cuts(atoms, s) {
            RunShrinks(atoms, s);
          }
        }
      } else {
        OneStep(atoms, s);
        if s != [] {
          MatcherCuts(atoms[1..], s[1..]);
          assert s[..1] == [s[0]];
        }
      }
    }
  }

  // --------------------------------------------------------------- star runs

  /** After a crossing run a further run adds nothing. */
  lemma CrossingAbsorbs(run: Atom, rest: seq<Atom>, s: string)
    requires run == AnyRun || run == SegmentRun
    ensures Cuts([AnyRun, run] + rest, s) <==> Cuts([AnyRun] + rest, s)
  {
    hide Cuts;
    var two, one := [AnyRun, run] + rest, [AnyRun] + rest;
    var mid := [run] + rest;
    assert two[1..] == mid && mid[1..] == rest && one[1..] == rest;
    if Cuts(two, s) {
      var k := CutFirst(two, s);
      var j := CutFirst(mid, s[k..]);
      assert s[k..][j..] == s[k + j..];
      CutRest(one, s, k + j);
    }
    if Cuts(one, s) {
      var k := CutFirst(one, s);
      EmptyRun(mid, s[k..]);
      CutRest(two, s, k);
    }
  }

  lemma HeadCongruence(a: Atom, r1: seq<Atom>, r2: seq<Atom>, s: string)
    requires forall t :: Cuts(r1, t) <==> Cuts(r2, t)
    ensures Cuts([a] + r1, s) <==> Cuts([a] + r2, s)
  {
    hide Cuts;
    assert ([a] + r1)[1..] == r1 && ([a] + r2)[1..] == r2;
    if Cuts([a] + r1, s) {
      var k := CutFirst([a] + r1, s);
      CutRest([a] + r2, s, k);
    }
    if Cuts([a] + r2, s) {
      var k := CutFirst([a] + r2, s);
      CutRest([a] + r1, s, k);
    }
  }

  lemma {:induction false} StarRunSplit(p: string)
    requires StarRun(p) >= 2
    ensures StarRun(p[2..]) == StarRun(p) - 2 && p[1] == '*'
    ensures p[2..][StarRun(p) - 2..] == p[StarRun(p)..]
  {
    assert p[1..][1..] == p[2..];
  }

  /** Translation pairs stars up from the left; the meaning is that of maximal runs. */
  lemma {:induction false} TranslateMeans(p: string, s: string)
    ensures Cuts(Translate(p), s) <==> Cuts(Elements(p), s)
    decreases |p|
  {
    if p == "" {
    } else if p[0] == '*' && StarRun(p) >= 2 {
      var r := StarRun(p);
      var tail := Elements(p[r..]);
      StarRunSplit(p);
      forall t { TranslateMeans(p[2..], t); }
      HeadCongruence(AnyRun, Translate(p[2..]), Elements(p[2..]), s);
      if r == 2 {
        assert p[2..] == p[r..];
      } else {
        assert p[2..][0] == '*';
        var run := if r == 3 then SegmentRun else AnyRun;
        assert Elements(p[2..]) == [run] + tail;
        assert [AnyRun] + ([run] + tail) == [AnyRun, run] + tail;
        CrossingAbsorbs(run, tail, s);
      }
    } else {
      assert p[0] == '*' ==> StarRun(p) == 1 && (|p| == 1 || p[1] != '*');
      var a := if p[0] == '*' then SegmentRun else if p[0] == '?' then SegmentOne else Literal(p[0]);
      forall t { TranslateMeans(p[1..], t); }
      HeadCongruence(a, Translate(p[1..]), Elements(p[1..]), s);
    }
  }

  /** For a path without newlines, matching the generated regex is having the
      meaning of the pattern. */
  lemma MatchIsMeaning(p: string, path: string)
    requires Lacks(NEWLINE, path)
    ensures PyMatch(Translate(p), path) <==> Denotes(Elements(p), path)
  {
    MatcherCuts(Translate(p), path);
    TranslateMeans(p, path);
    DenotesCuts(Elements(p), path);
  }

  /** The restriction is needed: Python's dollar accepts a final newline. */
  lemma NewlineSlipsThrough()
    ensures PyMatch(Translate("a"), "a\n") && !Denotes(Elements("a"), "a\n")
  {
    assert Translate("a") == [Literal('a')] + Translate("");
    assert "a\n"[..1] == "a";
    assert FullMatch([Literal('a')], "a");
    DenotesCuts(Elements("a"), "a\n");
    assert Elements("a") == [Literal('a')] + Elements("");
    OneStep(Elements("a"), "a\n");
  }

  /** A pattern of single characters that matches the path itself. */
  function Shape(x: string): string {
    if x == "" then "" else [if x[0] == '*' then '?' else x[0]] + Shape(x[1..])
  }

  lemma {:induction false} ShapeMatches(x: string)
    ensures FullMatch(Translate(Shape(x)), x)
  {
    if x != "" {
      ShapeMatches(x[1..]);
      var p := Shape(x);
      assert p[1..] == Shape(x[1..]);
      var a := if p[0] == '?' then SegmentOne else Literal(p[0]);
      TranslateStep(p, a, 1);
      assert ([a] + Translate(p[1..]))[1..] == Translate(p[1..]);
    }
  }

  lemma {:induction false} ShapeHasLength(x: string, s: string)
    ensures Cuts(Elements(Shape(x)), s) ==> |s| == |x|
  {
    if x != "" {
      var p := Shape(x);
      assert p[1..] == Shape(x[1..]);
      var a := if p[0] == '?' then SegmentOne else Literal(p[0]);
      assert Elements(p) == [a] + Elements(p[1..]);
      assert Elements(p)[1..] == Elements(p[1..]);
      OneStep(Elements(p), s);
      if s != "" {
        ShapeHasLength(x[1..], s[1..]);
      }
    }
  }

  lemma {:induction false} DotStops(s: string)
    ensures FullMatch([AnyRun], s) <==> Lacks(NEWLINE, s)
  {
    assert [AnyRun][1..] == [];
    if s != "" {
      DotStops(s[1..]);
      assert Lacks(NEWLINE, s) <==> s[0] != NEWLINE && Lacks(NEWLINE, s[1..]) by {
        assert Lacks(NEWLINE, s) ==> forall i :: 0 <= i < |s| - 1 ==> s[1..][i] == s[i + 1];
        assert forall i :: 0 < i < |s| ==> s[i] == s[1..][i - 1];
      }
    }
  }

  lemma TwoStars(s: string)
    ensures Translate("**") == [AnyRun] && Denotes(Elements("**"), s)
  {
    var p := Stars(2);
    assert p == "*" + ("*" + Stars(0)) == "**";
    TranslateStep(p, AnyRun, 2);
    assert p[2..] == "";
    CrossingRun(2, "");
    assert p + "" == p;
    assert Elements(p) == [AnyRun];
    var pieces := [s];
    assert pieces[1..] == [] && Concat(pieces) == s + Concat<char>([]);
    assert StandFor([AnyRun], pieces);
  }

  /** The generated regex matches the path exactly when the pattern means it. */
  ghost predicate AgreesOn(p: string, path: string) {
    PyMatch(Translate(p), path) <==> Denotes(Elements(p), path)
  }

  /** Exactly on the paths without newlines do all patterns mean what they say. */
  lemma MatcherAgreesIff(path: string)
    ensures (forall p :: AgreesOn(p, path)) <==> Lacks(NEWLINE, path)
  {
    hide FullMatch, Translate, Elements, Denotes;
    if Lacks(NEWLINE, path) {
      forall p
        ensures AgreesOn(p, path)
      {
        MatchIsMeaning(p, path);
      }
    } else {
      var n := |path| - 1;
      var init := path[..n];
      if path[n] == NEWLINE && Lacks(NEWLINE, init) {
        ShapeMatches(init);
        ShapeHasLength(init, path);
        DenotesCuts(Elements(Shape(init)), path);
        assert !AgreesOn(Shape(init), path);
      } else {
        DotStops(path);
        DotStops(init);
        TwoStars(path);
        assert !AgreesOn("**", path);
      }
    }
  }

  function Stars(r: nat): string {
    if r == 0 then "" else "*" + Stars(r - 1)
  }

  lemma {:induction false} StarRunOf(r: nat, b: string)
    ensures StarRun(Stars(r) + b) == r + StarRun(b)
    ensures |Stars(r)| == r
  {
    if r == 0 {
      assert Stars(0) + b == b;
    } else {
      StarRunOf(r - 1, b);
      assert (Stars(r) + b)[1..] == Stars(r - 1) + b;
    }
  }

  lemma {:induction false} CrossingRun(r: nat, b: string)
    requires r >= 2
    ensures Elements(Stars(r) + b) == [AnyRun] + Elements(b[StarRun(b)..])
  {
    StarRunOf(r, b);
    assert (Stars(r) + b)[r + StarRun(b)..] == b[StarRun(b)..];
  }

  /** Any run of two or more stars, wherever it stands, means the same as `**`. */
  lemma {:induction false} LongRunsAlike(a: string, r: nat, b: string)
    requires r >= 2
    ensures Elements(a + Stars(r) + b) == Elements(a + Stars(2) + b)
    decreases |a|
  {
    if StarRun(a) == |a| {
      AllStars(a, r, b);
      AllStars(a, 2, b);
    } else {
      var k := if StarRun(a) == 0 then 1 else StarRun(a);
      LongRunsAlike(a[k..], r, b);
      HeadElement(a, k, Stars(r), b);
      HeadElement(a, k, Stars(2), b);
    }
  }

  lemma AllStars(a: string, r: nat, b: string)
    requires StarRun(a) == |a| && r >= 2
    ensures Elements(a + Stars(r) + b) == [AnyRun] + Elements(b[StarRun(b)..])
  {
    hide *;
    StarRunIsStars(a);
    StarsAppend(|a|, r);
    CrossingRun(|a| + r, b);
  }

  lemma LongRunsMatchAlike(a: string, r: nat, b: string, path: string)
    requires r >= 2 && Lacks(NEWLINE, path)
    ensures PyMatch(Translate(a + Stars(r) + b), path) <==> PyMatch(Translate(a + Stars(2) + b), path)
  {
    LongRunsAlike(a, r, b);
    MatchIsMeaning(a + Stars(r) + b, path);
    MatchIsMeaning(a + Stars(2) + b, path);
  }

  lemma {:induction false} StarRunIsStars(a: string)
    requires StarRun(a) == |a|
    ensures a == Stars(|a|)
  {
    if a != "" {
      StarRunIsStars(a[1..]);
      assert a == "*" + a[1..];
    }
  }

  lemma {:induction false} StarsAre(n: nat)
    ensures |Stars(n)| == n && forall i :: 0 <= i < n ==> Stars(n)[i] == '*'
  {
    if n > 0 {
      StarsAre(n - 1);
    }
  }

  lemma StarsAppend(m: nat, n: nat)
    ensures Stars(m) + Stars(n) == Stars(m + n)
  {
    hide Stars;
    StarsAre(m);
    StarsAre(n);
    StarsAre(m + n);
  }

  lemma {:induction false} StarRunPrefix(a: string, t: string)
    requires StarRun(a) < |a|
    ensures StarRun(a + t) == StarRun(a)
  {
    if a[0] == '*' {
      StarRunPrefix(a[1..], t);
      assert (a + t)[1..] == a[1..] + t;
    }
  }

  /** The first element of a string that is not all stars does not look past it. */
  lemma HeadElement(a: string, k: nat, t: string, u: string)
    requires StarRun(a) < |a| && k == (if StarRun(a) == 0 then 1 else StarRun(a))
    ensures Elements(a + t + u) == [Elements(a)[0]] + Elements(a[k..] + t + u)
  {
    assert a + (t + u) == a + t + u;
    StarRunPrefix(a, t + u);
    assert (a + t + u)[k..] == a[k..] + t + u;
  }

  // ------------------------------------------------------------ distribution

  /** Whether the star run at the end of `p` is odd. */
  predicate OddTail(p: string) {
    p != "" && p[|p| - 1] == '*' && !OddTail(p[..|p| - 1])
  }

  lemma {:induction false} OddTailPast(a: string, t: string)
    requires a == "**" || (|a| == 1 && a[0] != '*') || (|a| == 1 && t != "" && t[0] != '*')
    ensures OddTail(a + t) == OddTail(t)
    decreases |t|
  {
    var s := a + t;
    if t == "" {
      assert s == a && a[..|a| - 1] == (if a == "**" then "*" else "");
      assert "*"[..0] == "";
    } else {
      assert s[..|s| - 1] == a + t[..|t| - 1];
      if |t| > 1 || a == "**" || a[0] != '*' {
        OddTailPast(a, t[..|t| - 1]);
      } else {
        assert s[..|s| - 1] == a;
      }
    }
  }

  /** Translation distributes over concatenation exactly when no odd star run is
      cut off from a following star. */
  lemma {:induction false} TranslateAppendIff(p: string, q: string)
    ensures Translate(p + q) == Translate(p) + Translate(q) <==> !(OddTail(p) && q != "" && q[0] == '*')
    decreases |p|
  {
    if p == "" {
      assert p + q == q;
      assert [] + Translate(q) == Translate(q);
    } else if p == "*" {
      assert (p + q)[1..] == q && p[1..] == "" && p[..0] == "";
      assert Translate(p) == [SegmentRun] + [];
      assert Translate(p) + Translate(q) == [SegmentRun] + Translate(q);
      if q != "" && q[0] == '*' {
        assert (p + q)[1] == '*' && Translate(p + q)[0] == AnyRun;
      } else {
        assert Translate(p + q) == [SegmentRun] + Translate((p + q)[1..]);
      }
    } else {
      var w := if p[0] == '*' && p[1] == '*' then 2 else 1;
      var a, t := p[..w], p[w..];
      assert p == a + t && (p + q)[w..] == t + q;
      TranslateAppendIff(t, q);
      OddTailPast(a, t);
      HeadDistributes(p, q, w);
    }
  }

  lemma HeadDistributes(p: string, q: string, w: nat)
    requires |p| > 0 && p != "*" && w == (if p[0] == '*' && p[1] == '*' then 2 else 1)
    ensures Translate(p + q) == Translate(p) + Translate(q)
            <==> Translate(p[w..] + q) == Translate(p[w..]) + Translate(q)
  {
    var t := p[w..];
    assert (p + q)[w..] == t + q;
    var h := Translate(p)[..1];
    assert Translate(p) == h + Translate(t);
    assert Translate(p + q) == h + Translate(t + q);
    assert h + Translate(t) + Translate(q) == h + (Translate(t) + Translate(q));
    assert (h + Translate(t + q))[1..] == Translate(t + q);
    assert (h + (Translate(t) + Translate(q)))[1..] == Translate(t) + Translate(q);
  }
}
