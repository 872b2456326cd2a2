/** Lifecycle profiles of src/sol_claude_dispatcher/lifecycle.py: the manifest,
    the selection of artifacts for a phase and the check of the lattice. */
module Lifecycle {
  import opened Common
  import opened Subsequences

  datatype Phase = DispatchImplementation | CorrectionResume | ValidationOnlyResume | FableReview

  datatype TaskKind =
    | Implementation | Bugfix | Refactor | Tests | Docs
    | SecuritySensitive | Concurrency | Migration | DeepDebugging | LargeRefactor

  datatype Complexity = LowComplexity | MediumComplexity | HighComplexity

  datatype Risk = LowRisk | MediumRisk | HighRisk | CriticalRisk

  /** What selects artifacts, besides the phase. */
  datatype Task = Task(kind: TaskKind, complexity: Complexity, risk: Risk)

  const PHASES := [DispatchImplementation, CorrectionResume, ValidationOnlyResume, FableReview]
  const KINDS := [Implementation, Bugfix, Refactor, Tests, Docs, SecuritySensitive, Concurrency, Migration,
                  DeepDebugging, LargeRefactor]
  const COMPLEXITIES := [LowComplexity, MediumComplexity, HighComplexity]
  const RISKS := [LowRisk, MediumRisk, HighRisk, CriticalRisk]

  /** SHA-256 of a file's bytes, taken as injective. */
  datatype Digest = Sha256(of: string)

  datatype Source = Source(sourceId: string, path: string, digest: Digest)

  datatype Artifact = Artifact(
    id: string, path: string, digest: Digest, bytes: nat, denies: seq<string>, derivedFrom: seq<Source>)

  datatype Profile = Profile(
    id: string, version: string, fixed: seq<string>,
    byKind: map<TaskKind, seq<string>>, byComplexity: map<Complexity, seq<string>>, byRisk: map<Risk, seq<string>>)

  /** A manifest has one profile for every phase. */
  datatype Manifest = Manifest(
    version: string, artifacts: seq<Artifact>,
    dispatch: Profile, correction: Profile, validation: Profile, review: Profile)

  function ProfileOf(m: Manifest, p: Phase): Profile {
    match p
    case DispatchImplementation => m.dispatch
    case CorrectionResume => m.correction
    case ValidationOnlyResume => m.validation
    case FableReview => m.review
  }

  // ------------------------------------------------------------- selection

  function Ids(artifacts: seq<Artifact>): (ids: seq<string>)
    ensures |ids| == |artifacts| && forall i :: 0 <= i < |ids| ==> ids[i] == artifacts[i].id
  {
    if artifacts == [] then [] else [artifacts[0].id] + Ids(artifacts[1..])
  }

  function Get<K>(selector: map<K, seq<string>>, key: K): seq<string> {
    if key in selector then selector[key] else []
  }

  /** A profile names an artifact for a task. */
  predicate Wants(p: Profile, t: Task, id: string) {
    || id in p.fixed || id in Get(p.byKind, t.kind)
    || id in Get(p.byComplexity, t.complexity) || id in Get(p.byRisk, t.risk)
  }

  /** `_selected_artifact_ids`: in manifest order. */
  function Selected(m: Manifest, p: Phase, t: Task): seq<string> {
    Filter(Ids(m.artifacts), (id: string) => Wants(ProfileOf(m, p), t, id))
  }

  // ----------------------------------------------------------- the lattice

  datatype Refusal =
    | DuplicateArtifact
    | DuplicateProfile
    | UnknownArtifact(phase: Phase)
    | LatticeViolated(task: Task)
    | MethodologyInReview(task: Task)

  /** A profile names an artifact for some task. */
  ghost predicate References(p: Profile, id: string) {
    exists t :: Wants(p, t, id)
  }

  ghost predicate KnownOnly(m: Manifest, p: Phase) {
    forall id :: References(ProfileOf(m, p), id) ==> id in Ids(m.artifacts)
  }

  predicate DistinctProfiles(m: Manifest) {
    NoDuplicates([m.dispatch.id, m.correction.id, m.validation.id, m.review.id])
  }

  /** For one task: validation-only never carries more than correction. */
  predicate Monotone(m: Manifest, t: Task) {
    forall id :: id in Selected(m, ValidationOnlyResume, t) ==> id in Selected(m, CorrectionResume, t)
  }

  predicate ReviewEmpty(m: Manifest, t: Task) {
    Selected(m, FableReview, t) == []
  }

  predicate TaskOk(m: Manifest, t: Task) {
    Monotone(m, t) && ReviewEmpty(m, t)
  }

  ghost predicate Accepted(m: Manifest) {
    && NoDuplicates(Ids(m.artifacts))
    && DistinctProfiles(m)
    && (forall p :: KnownOnly(m, p))
    && (forall t :: TaskOk(m, t))
  }

  /** The refusal names something that is wrong. */
  ghost predicate Justified(m: Manifest, r: Refusal) {
    match r
    case DuplicateArtifact => !NoDuplicates(Ids(m.artifacts))
    case DuplicateProfile => !DistinctProfiles(m)
    case UnknownArtifact(p) => !KnownOnly(m, p)
    case LatticeViolated(t) => !Monotone(m, t)
    case MethodologyInReview(t) => Monotone(m, t) && !ReviewEmpty(m, t)
  }

  lemma EveryMember(p: Phase, t: Task)
    ensures p in PHASES && t.kind in KINDS && t.complexity in COMPLEXITIES && t.risk in RISKS
  {
    EveryPhase(p);
    EveryKind(t.kind);
    EveryComplexity(t.complexity);
    EveryRisk(t.risk);
  }

  lemma EveryPhase(p: Phase)
    ensures p in PHASES
  {
    var i :=
      match p
      case DispatchImplementation => 0 case CorrectionResume => 1
      case ValidationOnlyResume => 2 case FableReview => 3;
    assert PHASES[i] == p;
  }

  lemma EveryKind(k: TaskKind)
    ensures k in KINDS
  {
    var i :=
      match k
      case Implementation => 0 case Bugfix => 1 case Refactor => 2 case Tests => 3 case Docs => 4
      case SecuritySensitive => 5 case Concurrency => 6 case Migration => 7 case DeepDebugging => 8
      case LargeRefactor => 9;
    assert KINDS[i] == k;
  }

  lemma EveryComplexity(c: Complexity)
    ensures c in COMPLEXITIES
  {
    var i := match c case LowComplexity => 0 case MediumComplexity => 1 case HighComplexity => 2;
    assert COMPLEXITIES[i] == c;
  }

  lemma EveryRisk(r: Risk)
    ensures r in RISKS
  {
    var i := match r case LowRisk => 0 case MediumRisk => 1 case HighRisk => 2 case CriticalRisk => 3;
    assert RISKS[i] == r;
  }

  function Members(xs: seq<string>): (s: set<string>)
    ensures forall x :: x in s <==> x in xs
  {
    set x | x in xs
  }

  function SelectorIds<K>(selector: map<K, seq<string>>): (s: set<string>)
    ensures forall x :: x in s <==> exists k :: k in selector && x in selector[k]
  {
    set k, x | k in selector && x in selector[k] :: x
  }

  /** All the ids a profile mentions anywhere. */
  function Mentioned(p: Profile): set<string> {
    Members(p.fixed) + SelectorIds(p.byKind) + SelectorIds(p.byComplexity) + SelectorIds(p.byRisk)
  }

  lemma MentionedMeans(m: Manifest, p: Phase)
    ensures KnownOnly(m, p) <==> Mentioned(ProfileOf(m, p)) <= Members(Ids(m.artifacts))
  {
    var q := ProfileOf(m, p);
    forall id
      ensures id in Mentioned(q) <==> References(q, id)
    {
      if id in q.fixed {
        assert Wants(q, Task(Bugfix, LowComplexity, LowRisk), id);
      } else if k :| k in q.byKind && id in q.byKind[k] {
        assert Wants(q, Task(k, LowComplexity, LowRisk), id);
      } else if k :| k in q.byComplexity && id in q.byComplexity[k] {
        assert Wants(q, Task(Bugfix, k, LowRisk), id);
      } else if k :| k in q.byRisk && id in q.byRisk[k] {
        assert Wants(q, Task(Bugfix, LowComplexity, k), id);
      }
    }
  }

  /** The duplicate check on loading and `_validate_manifest_references_and_lattice`. */
  method Validate(m: Manifest) returns (r: Option<Refusal>)
    ensures r.None? <==> Accepted(m)
    ensures r.Some? ==> Justified(m, r.value)
  {
    hide NoDuplicates, KnownOnly, Monotone, ReviewEmpty, Ids;
    if !NoDuplicates(Ids(m.artifacts)) {
      return Some(DuplicateArtifact);
    }
    if !DistinctProfiles(m) {
      return Some(DuplicateProfile);
    }
    r := ValidateReferences(m);
    if r.None? {
      r := ValidateLattice(m);
    }
  }

  method ValidateReferences(m: Manifest) returns (r: Option<Refusal>)
    ensures r.None? <==> forall p :: KnownOnly(m, p)
    ensures r.Some? ==> r.value.UnknownArtifact? && Justified(m, r.value)
  {
    hide KnownOnly, Mentioned, Ids;
    for i := 0 to |PHASES|
      invariant forall p :: p in PHASES[..i] ==> KnownOnly(m, p)
    {
      MentionedMeans(m, PHASES[i]);
      if !(Mentioned(ProfileOf(m, PHASES[i])) <= Members(Ids(m.artifacts))) {
        return Some(UnknownArtifact(PHASES[i]));
      }
      assert PHASES[..i + 1] == PHASES[..i] + [PHASES[i]];
    }
    forall p
      ensures KnownOnly(m, p)
    {
      EveryMember(p, Task(Bugfix, LowComplexity, LowRisk));
      assert PHASES[..|PHASES|] == PHASES;
    }
    return None;
  }

  method ValidateLattice(m: Manifest) returns (r: Option<Refusal>)
    ensures r.None? <==> forall t :: TaskOk(m, t)
    ensures r.Some? ==> (r.value.LatticeViolated? || r.value.MethodologyInReview?) && Justified(m, r.value)
  {
    hide Monotone, ReviewEmpty;
    for i := 0 to |KINDS|
      invariant forall a, c, k :: 0 <= a < i && c in COMPLEXITIES && k in RISKS ==> TaskOk(m, Task(KINDS[a], c, k))
    {
      for j := 0 to |COMPLEXITIES|
        invariant forall b, k :: 0 <= b < j && k in RISKS ==> TaskOk(m, Task(KINDS[i], COMPLEXITIES[b], k))
      {
        for n := 0 to |RISKS|
          invariant forall c :: 0 <= c < n ==> TaskOk(m, Task(KINDS[i], COMPLEXITIES[j], RISKS[c]))
        {
          var t := Task(KINDS[i], COMPLEXITIES[j], RISKS[n]);
          if !Monotone(m, t) {
            assert !TaskOk(m, t);
            return Some(LatticeViolated(t));
          }
          if !ReviewEmpty(m, t) {
            assert !TaskOk(m, t);
            return Some(MethodologyInReview(t));
          }
        }
      }
    }
    forall t: Task
      ensures TaskOk(m, t)
    {
      EveryMember(FableReview, t);
    }
    return None;
  }

  // ----------------------------------------------------- what acceptance buys

  lemma SelectedMeans(m: Manifest, p: Phase, t: Task, id: string)
    ensures id in Selected(m, p, t) <==> id in Ids(m.artifacts) && Wants(ProfileOf(m, p), t, id)
  {
    FilterMembers(Ids(m.artifacts), (x: string) => Wants(ProfileOf(m, p), t, x));
  }

  /** The selection follows the manifest: its order, and no id more often than there. */
  lemma SelectedInOrder(m: Manifest, p: Phase, t: Task)
    ensures Subsequence(Selected(m, p, t), Ids(m.artifacts))
  {
    var all := (id: string) => true;
    FilterSubsequence(Ids(m.artifacts), (id: string) => Wants(ProfileOf(m, p), t, id), all);
    FilterKeeps(Ids(m.artifacts), all);
  }

  lemma {:induction false} FilterDistinct(xs: seq<string>, keep: string -> bool)
    requires NoDuplicates(xs)
    ensures NoDuplicates(Filter(xs, keep))
  {
    if xs != [] {
      FilterDistinct(xs[1..], keep);
      FilterMembers(xs[1..], keep);
      assert xs[0] !in xs[1..];
    }
  }

  /** With an accepted manifest no artifact is selected twice, every selected id has exactly
      one artifact, and the id of a profile tells its phase. */
  lemma AcceptedIsUnique(m: Manifest, p: Phase, q: Phase, t: Task)
    requires Accepted(m)
    ensures forall i, j :: 0 <= i < j < |Selected(m, p, t)| ==> Selected(m, p, t)[i] != Selected(m, p, t)[j]
    ensures forall a, b :: a in m.artifacts && b in m.artifacts && a.id == b.id ==> a == b
    ensures ProfileOf(m, p).id == ProfileOf(m, q).id ==> p == q
  {
    FilterDistinct(Ids(m.artifacts), (id: string) => Wants(ProfileOf(m, p), t, id));
    ArtifactsUnique(m.artifacts);
    if ProfileOf(m, p).id == ProfileOf(m, q).id {
      ProfilesUnique(m, p, q);
    }
  }

  lemma ArtifactsUnique(artifacts: seq<Artifact>)
    requires NoDuplicates(Ids(artifacts))
    ensures forall a, b :: a in artifacts && b in artifacts && a.id == b.id ==> a == b
  {
    hide Ids;
    forall a, b | a in artifacts && b in artifacts && a.id == b.id
      ensures a == b
    {
      var i :| 0 <= i < |artifacts| && artifacts[i] == a;
      var j :| 0 <= j < |artifacts| && artifacts[j] == b;
      assert Ids(artifacts)[i] == Ids(artifacts)[j];
    }
  }

  lemma ProfilesUnique(m: Manifest, p: Phase, q: Phase)
    requires DistinctProfiles(m) && ProfileOf(m, p).id == ProfileOf(m, q).id
    ensures p == q
  {
    var ids := [m.dispatch.id, m.correction.id, m.validation.id, m.review.id];
    assert forall i, j :: 0 <= i < j < |ids| ==> ids[i] != ids[j];
    assert ids[0] == m.dispatch.id && ids[1] == m.correction.id && ids[2] == m.validation.id && ids[3] == m.review.id;
  }

  /** The review profile of an accepted manifest names nothing at all, in any selector. */
  lemma ReviewNamesNothing(m: Manifest, id: string)
    requires Accepted(m)
    ensures !References(m.review, id)
  {
    forall t
      ensures !Wants(m.review, t, id)
    {
      assert KnownOnly(m, FableReview) && TaskOk(m, t);
      assert Wants(m.review, t, id) ==> References(m.review, id);
      SelectedMeans(m, FableReview, t, id);
    }
  }

  /** What validation-only carries is what correction carries with some left out, in the same order. */
  lemma ValidationIsSubsequence(m: Manifest, t: Task)
    requires Accepted(m)
    ensures Subsequence(Selected(m, ValidationOnlyResume, t), Selected(m, CorrectionResume, t))
  {
    assert TaskOk(m, t);
    forall id | id in Ids(m.artifacts) && Wants(m.validation, t, id)
      ensures Wants(m.correction, t, id)
    {
      SelectedMeans(m, ValidationOnlyResume, t, id);
      SelectedMeans(m, CorrectionResume, t, id);
    }
    FilterSubsequence(Ids(m.artifacts),
                      (id: string) => Wants(ProfileOf(m, ValidationOnlyResume), t, id),
                      (id: string) => Wants(ProfileOf(m, CorrectionResume), t, id));
  }
}
