/** Changed paths and the scope verdict of src/sol_claude_dispatcher/git.py:
    the path lists of `collect_diff_evidence` and `check_scope`. */
module Scope {
  import opened Common
  import opened Text
  import opened Glob

  // ------------------------------------------------------------ path lists

  /** `[line for line in text.splitlines() if line]` */
  function PathLines(text: string): seq<string> {
    Filter(Split(NEWLINE, text), (l: string) => l != "")
  }

  lemma PathLinesLackNewlines(text: string)
    ensures forall p :: p in PathLines(text) ==> Lacks(NEWLINE, p) && p != ""
  {
    FilterMembers(Split(NEWLINE, text), (l: string) => l != "");
    SplitLacks(NEWLINE, text);
  }

  /** A listing as git prints it, every path on a line of its own, reads back as its paths. */
  lemma ListingRoundTrip(paths: seq<string>)
    requires forall p :: p in paths ==> p != "" && Lacks('\n', p)
    ensures PathLines(Join('\n', paths + [""])) == paths
  {
    hide Filter;
    var keep := (l: string) => l != "";
    SplitJoin('\n', paths + [""]);
    FilterSnoc(paths, "", keep);
    FilterKeeps(paths, keep);
    assert paths + [] == paths;
  }

  /** The merge loop of `collect_diff_evidence`. */
  method MergePaths(tracked: seq<string>, untracked: seq<string>) returns (changed: seq<string>)
    ensures changed == FirstSeen(tracked + untracked)
  {
    var paths := tracked + untracked;
    changed := [];
    for i := 0 to |paths|
      invariant changed == FirstSeen(paths[..i])
    {
      assert paths[..i + 1][..i] == paths[..i];
      if paths[i] !in changed {
        changed := changed + [paths[i]];
      }
    }
    assert paths[..|paths|] == paths;
  }

  // --------------------------------------------------------------- verdict

  datatype ScopeSpec = ScopeSpec(allowed: seq<string>, forbidden: seq<string>)

  datatype ScopeCheck = ScopeCheck(valid: bool, outOfScope: seq<string>, forbidden: seq<string>)

  predicate IsForbidden(path: string, scope: ScopeSpec) {
    MatchesAny(path, scope.forbidden)
  }

  /** Not matched by the allowed patterns, where no pattern at all allows everything. */
  predicate IsOutside(path: string, scope: ScopeSpec) {
    scope.allowed != [] && !MatchesAny(path, scope.allowed)
  }

  predicate Accepted(path: string, scope: ScopeSpec) {
    !IsForbidden(path, scope) && !IsOutside(path, scope)
  }

  function Verdict(paths: seq<string>, scope: ScopeSpec): ScopeCheck {
    var outside := Filter(paths, (p: string) => !IsForbidden(p, scope) && IsOutside(p, scope));
    var forbidden := Filter(paths, (p: string) => IsForbidden(p, scope));
    ScopeCheck(outside == [] && forbidden == [], outside, forbidden)
  }

  method AnyMatch(path: string, patterns: seq<string>) returns (r: bool)
    ensures r == MatchesAny(path, patterns)
    ensures patterns == [] ==> !r
  {
    for i := 0 to |patterns|
      invariant forall k :: 0 <= k < i ==> !PyMatch(Translate(patterns[k]), path)
    {
      var atoms := TranslateGlob(patterns[i]);
      if PyMatch(atoms, path) {
        return true;
      }
    }
    return false;
  }

  /** `check_scope` */
  method CheckScope(paths: seq<string>, scope: ScopeSpec) returns (r: ScopeCheck)
    ensures r == Verdict(paths, scope)
  {
    hide MatchesAny, Filter;
    var outOfScope: seq<string>, forbidden: seq<string> := [], [];
    ghost var isOut, isForb :=
      (p: string) => !IsForbidden(p, scope) && IsOutside(p, scope), (p: string) => IsForbidden(p, scope);
    FilterEmpty(isOut);
    FilterEmpty(isForb);
    for i := 0 to |paths|
      invariant outOfScope == Filter(paths[..i], isOut) && forbidden == Filter(paths[..i], isForb)
    {
      var path := paths[i];
      assert paths[..i + 1] == paths[..i] + [path];
      FilterSnoc(paths[..i], path, isOut);
      FilterSnoc(paths[..i], path, isForb);
      var hit := AnyMatch(path, scope.forbidden);
      if scope.forbidden != [] && hit {
        forbidden := forbidden + [path];
        continue;
      }
      var inside := AnyMatch(path, scope.allowed);
      if scope.allowed != [] && !inside {
        outOfScope := outOfScope + [path];
      }
    }
    assert paths[..|paths|] == paths;
    r := ScopeCheck(outOfScope == [] && forbidden == [], outOfScope, forbidden);
  }

  /** The verdict splits the paths three ways; forbidden wins; and it is valid
      exactly when every path is accepted. */
  lemma {:induction false} VerdictSplits(paths: seq<string>, scope: ScopeSpec)
    ensures
      var v := Verdict(paths, scope);
      && (forall p :: p in v.forbidden <==> p in paths && IsForbidden(p, scope))
      && (forall p :: p in v.outOfScope <==> p in paths && !IsForbidden(p, scope) && IsOutside(p, scope))
      && (v.valid <==> forall p :: p in paths ==> Accepted(p, scope))
      && multiset(paths) == multiset(v.forbidden) + multiset(v.outOfScope)
                            + multiset(Filter(paths, (p: string) => Accepted(p, scope)))
  {
    var isOut, isForb, isOk :=
      (p: string) => !IsForbidden(p, scope) && IsOutside(p, scope), (p: string) => IsForbidden(p, scope),
      (p: string) => Accepted(p, scope);
    FilterMembers(paths, isOut);
    FilterMembers(paths, isForb);
    ThreeWay(paths, isForb, isOut, isOk);
    var v := Verdict(paths, scope);
    assert v.outOfScope != [] ==> v.outOfScope[0] in paths;
    assert v.forbidden != [] ==> v.forbidden[0] in paths;
  }

  lemma {:induction false} ThreeWay(xs: seq<string>, f: string -> bool, g: string -> bool, h: string -> bool)
    requires forall x :: (f(x) || g(x) || h(x)) && !(f(x) && g(x)) && !(f(x) && h(x)) && !(g(x) && h(x))
    ensures multiset(xs) == multiset(Filter(xs, f)) + multiset(Filter(xs, g)) + multiset(Filter(xs, h))
  {
    hide Filter;
    if xs == [] {
      FilterEmpty(f);
      FilterEmpty(g);
      FilterEmpty(h);
    } else {
      ThreeWay(xs[1..], f, g, h);
      assert xs == [xs[0]] + xs[1..];
      FilterCons(xs[0], xs[1..], f);
      FilterCons(xs[0], xs[1..], g);
      FilterCons(xs[0], xs[1..], h);
    }
  }

  /** From git's two printed listings to the verdict: valid exactly when every tracked
      and every untracked path is accepted. */
  lemma VerdictOfListings(tracked: seq<string>, untracked: seq<string>, scope: ScopeSpec)
    requires forall p :: p in tracked || p in untracked ==> p != "" && Lacks('\n', p)
    ensures
      var listed, others := PathLines(Join('\n', tracked + [""])), PathLines(Join('\n', untracked + [""]));
      var v := Verdict(FirstSeen(listed + others), scope);
      && (v.valid <==> forall p :: p in tracked || p in untracked ==> Accepted(p, scope))
      && (forall p :: p in v.forbidden <==> (p in tracked || p in untracked) && IsForbidden(p, scope))
  {
    hide Filter, PathLines, Lacks, IsForbidden, IsOutside, Verdict, Join;
    ListingRoundTrip(tracked);
    ListingRoundTrip(untracked);
    FirstSeenSpec(tracked + untracked);
    VerdictSplits(FirstSeen(tracked + untracked), scope);
    assert forall p :: p in tracked + untracked <==> p in tracked || p in untracked;
  }

  /** Order and repetition of the paths do not matter. */
  lemma VerdictIgnoresOrder(xs: seq<string>, ys: seq<string>, scope: ScopeSpec)
    requires forall p :: p in xs <==> p in ys
    ensures Verdict(xs, scope).valid == Verdict(ys, scope).valid
  {
    VerdictSplits(xs, scope);
    VerdictSplits(ys, scope);
  }

  lemma MorePatternsMatchMore(path: string, ps: seq<string>, qs: seq<string>)
    requires forall p :: p in ps ==> p in qs
    ensures MatchesAny(path, ps) ==> MatchesAny(path, qs)
  {
    if MatchesAny(path, ps) {
      var i :| 0 <= i < |ps| && PyMatch(Translate(ps[i]), path);
      assert ps[i] in qs;
      var j :| 0 <= j < |qs| && qs[j] == ps[i];
    }
  }

  /** More forbidden patterns never make an invalid verdict valid. */
  lemma ForbiddingIsMonotone(paths: seq<string>, scope: ScopeSpec, more: ScopeSpec)
    requires more.allowed == scope.allowed
    requires forall p :: p in scope.forbidden ==> p in more.forbidden
    ensures Verdict(paths, more).valid ==> Verdict(paths, scope).valid
  {
    VerdictSplits(paths, scope);
    VerdictSplits(paths, more);
    forall path {
      MorePatternsMatchMore(path, scope.forbidden, more.forbidden);
    }
  }

  /** More allowed patterns never make a valid verdict invalid, provided there
      was one before: the first pattern ends the unrestricted scope. */
  lemma AllowingIsMonotone(paths: seq<string>, scope: ScopeSpec, more: ScopeSpec)
    requires more.forbidden == scope.forbidden && scope.allowed != []
    requires forall p :: p in scope.allowed ==> p in more.allowed
    ensures Verdict(paths, scope).valid ==> Verdict(paths, more).valid
  {
    VerdictSplits(paths, scope);
    VerdictSplits(paths, more);
    forall path {
      MorePatternsMatchMore(path, scope.allowed, more.allowed);
    }
  }

  /** What acceptance means for a path git prints on a line of its own. */
  lemma AcceptedMeans(path: string, scope: ScopeSpec)
    requires Lacks(NEWLINE, path)
    ensures Accepted(path, scope) <==>
      (forall i :: 0 <= i < |scope.forbidden| ==> !Denotes(Elements(scope.forbidden[i]), path))
      && (scope.allowed == [] || exists i :: 0 <= i < |scope.allowed| && Denotes(Elements(scope.allowed[i]), path))
  {
    forall p {
      MatchIsMeaning(p, path);
    }
  }
}
