/** `LifecycleProfileEngine.project` and `compose_append_system_prompt` of
    src/sol_claude_dispatcher/lifecycle.py. Texts are kept as their UTF-8 bytes, so
    that a length is the byte length the transport sees. */
module LifecycleProjection {
  import opened Common
  import opened Lifecycle
  import opened Subsequences

  /** `files` maps a path to the bytes of a regular file that resolves to itself;
      `extract` yields the inert text of a projection, unless it is refused. */
  datatype Engine = Engine(
    manifest: Manifest, files: map<string, string>, denies: seq<string>, extract: string -> Option<string>)

  datatype ProjectError =
    | UnknownId(id: string)
    | Unreadable(path: string)
    | SourceChanged(sourceId: string)
    | ProjectionChanged(id: string)
    | DenyMissing(id: string)
    | NotInert(id: string)

  datatype Projected = Projected(
    phase: Phase, profileId: string, profileVersion: string, ids: seq<string>, sourceIds: seq<string>, text: string)

  const GAP := "\n\n"

  /** `"\n\n".join(texts)` */
  function JoinTexts(texts: seq<string>): string {
    if texts == [] then "" else if |texts| == 1 then texts[0] else texts[0] + GAP + JoinTexts(texts[1..])
  }

  /** `artifact_by_id[id]` */
  function Lookup(artifacts: seq<Artifact>, id: string): Option<Artifact> {
    if artifacts == [] then None
    else
      var last := |artifacts| - 1;
      if artifacts[last].id == id then Some(artifacts[last]) else Lookup(artifacts[..last], id)
  }

  // -------------------------------------------------------- one after one

  function CheckSource(en: Engine, s: Source): Option<ProjectError> {
    if s.path !in en.files then Some(Unreadable(s.path))
    else if Sha256(en.files[s.path]) != s.digest then Some(SourceChanged(s.sourceId))
    else None
  }

  function CheckSources(en: Engine, ss: seq<Source>): Option<ProjectError> {
    if ss == [] then None
    else if CheckSource(en, ss[0]).Some? then CheckSource(en, ss[0])
    else CheckSources(en, ss[1..])
  }

  predicate DeniesMissing(en: Engine, a: Artifact) {
    exists d :: d in a.denies && d !in en.denies
  }

  function ReadProjection(en: Engine, a: Artifact): Result<string, ProjectError> {
    if a.path !in en.files then Err(Unreadable(a.path))
    else
      var raw := en.files[a.path];
      if Sha256(raw) != a.digest || |raw| != a.bytes then Err(ProjectionChanged(a.id))
      else if DeniesMissing(en, a) then Err(DenyMissing(a.id))
      else
        match en.extract(raw)
        case None => Err(NotInert(a.id))
        case Some(text) => Ok(text)
  }

  /** The text of one artifact, every one of its sources checked afresh. */
  function ArtifactText(en: Engine, id: string): Result<string, ProjectError> {
    match Lookup(en.manifest.artifacts, id)
    case None => Err(UnknownId(id))
    case Some(a) =>
      match CheckSources(en, a.derivedFrom)
      case Some(e) => Err(e)
      case None => ReadProjection(en, a)
  }

  function ArtifactTexts(en: Engine, ids: seq<string>): Result<seq<string>, ProjectError> {
    if ids == [] then Ok([])
    else
      match ArtifactText(en, ids[0])
      case Err(e) => Err(e)
      case Ok(text) =>
        match ArtifactTexts(en, ids[1..])
        case Err(e) => Err(e)
        case Ok(texts) => Ok([text] + texts)
  }

  function SourceIdsOf(ss: seq<Source>): seq<string> {
    if ss == [] then [] else [ss[0].sourceId] + SourceIdsOf(ss[1..])
  }

  function SourceIdsAt(en: Engine, id: string): seq<string> {
    match Lookup(en.manifest.artifacts, id)
    case None => []
    case Some(a) => SourceIdsOf(a.derivedFrom)
  }

  /** All source ids of a list of artifacts, with repetitions. */
  function SourceIds(en: Engine, ids: seq<string>): seq<string> {
    if ids == [] then [] else SourceIdsAt(en, ids[0]) + SourceIds(en, ids[1..])
  }

  /** What a projection is: nothing remembered from one source to the next. */
  function Projection(en: Engine, p: Phase, t: Task): Result<Projected, ProjectError> {
    var ids := Selected(en.manifest, p, t);
    match ArtifactTexts(en, ids)
    case Err(e) => Err(e)
    case Ok(texts) =>
      var profile := ProfileOf(en.manifest, p);
      Ok(Projected(p, profile.id, profile.version, ids, FirstSeen(SourceIds(en, ids)), JoinTexts(texts)))
  }

  // ------------------------------------------------- with verified sources

  /** What the loop may remember: these paths have these digests. */
  ghost predicate Verified(en: Engine, done: set<(string, Digest)>) {
    forall s: Source :: (s.path, s.digest) in done ==> CheckSource(en, s) == None
  }

  lemma {:induction false} FirstSeenSnoc(xs: seq<string>, x: string)
    ensures FirstSeen(xs + [x]) == if x in FirstSeen(xs) then FirstSeen(xs) else FirstSeen(xs) + [x]
  {
    assert (xs + [x])[..|xs|] == xs;
  }

  /** The inner loop of `project`: each distinct source is read once, each id kept once. */
  method VerifySources(
      en: Engine, ss: seq<Source>, done: set<(string, Digest)>, sourceIds: seq<string>, ghost before: seq<string>)
    returns (error: Option<ProjectError>, done': set<(string, Digest)>, sourceIds': seq<string>)
    requires Verified(en, done) && sourceIds == FirstSeen(before)
    ensures error == CheckSources(en, ss)
    ensures error.None? ==> Verified(en, done') && sourceIds' == FirstSeen(before + SourceIdsOf(ss))
  {
    done', sourceIds' := done, sourceIds;
    ghost var seen := before;
    for i := 0 to |ss|
      invariant Verified(en, done')
      invariant CheckSources(en, ss) == CheckSources(en, ss[i..])
      invariant sourceIds' == FirstSeen(seen) && seen + SourceIdsOf(ss[i..]) == before + SourceIdsOf(ss)
    {
      var s := ss[i];
      assert ss[i..][1..] == ss[i + 1..];
      if (s.path, s.digest) !in done' {
        if s.path !in en.files {
          return Some(Unreadable(s.path)), done', sourceIds';
        }
        if Sha256(en.files[s.path]) != s.digest {
          return Some(SourceChanged(s.sourceId)), done', sourceIds';
        }
        done' := done' + {(s.path, s.digest)};
      }
      FirstSeenSnoc(seen, s.sourceId);
      if s.sourceId !in sourceIds' {
        sourceIds' := sourceIds' + [s.sourceId];
      }
      assert seen + SourceIdsOf(ss[i..]) == (seen + [s.sourceId]) + SourceIdsOf(ss[i + 1..]);
      seen := seen + [s.sourceId];
    }
    assert seen + [] == seen;
    error := None;
  }

  /** The body of the outer loop of `project`, for one artifact. */
  method ProjectArtifact(
      en: Engine, id: string, done: set<(string, Digest)>, sourceIds: seq<string>, ghost before: seq<string>)
    returns (r: Result<string, ProjectError>, done': set<(string, Digest)>, sourceIds': seq<string>)
    requires Verified(en, done) && sourceIds == FirstSeen(before)
    ensures r == ArtifactText(en, id)
    ensures r.Ok? ==> Verified(en, done') && sourceIds' == FirstSeen(before + SourceIdsAt(en, id))
  {
    hide CheckSources, FirstSeen, Verified, ReadProjection, Lookup;
    done', sourceIds' := done, sourceIds;
    var found := Lookup(en.manifest.artifacts, id);
    if found.None? {
      return Err(UnknownId(id)), done', sourceIds';
    }
    var error: Option<ProjectError>;
    error, done', sourceIds' := VerifySources(en, found.value.derivedFrom, done, sourceIds, before);
    if error.Some? {
      return Err(error.value), done', sourceIds';
    }
    r := ReadProjection(en, found.value);
  }

  /** `project`: remembering verified sources changes nothing. */
  method Project(en: Engine, p: Phase, t: Task) returns (r: Result<Projected, ProjectError>)
    ensures r == Projection(en, p, t)
  {
    hide Selected, FirstSeen, Verified, ArtifactText, ArtifactTexts, SourceIds, SourceIdsAt;
    var ids := Selected(en.manifest, p, t);
    var texts: seq<string>, sourceIds: seq<string> := [], [];
    var done: set<(string, Digest)> := {};
    ghost var before: seq<string> := [];
    NothingYet(en);
    assert ids[0..] == ids;
    Prepended(ArtifactTexts(en, ids));
    for i := 0 to |ids|
      invariant Verified(en, done) && sourceIds == FirstSeen(before)
      invariant before + SourceIds(en, ids[i..]) == SourceIds(en, ids)
      invariant ArtifactTexts(en, ids) == Prepend(texts, ArtifactTexts(en, ids[i..]))
    {
      assert ids[i..][0] == ids[i] && ids[i..][1..] == ids[i + 1..];
      FirstText(en, ids[i..]);
      var text: Result<string, ProjectError>;
      text, done, sourceIds := ProjectArtifact(en, ids[i], done, sourceIds, before);
      if text.Err? {
        assert ArtifactTexts(en, ids) == Err(text.error);
        return Err(text.error);
      }
      assert before + SourceIds(en, ids[i..]) == (before + SourceIdsAt(en, ids[i])) + SourceIds(en, ids[i + 1..]);
      before := before + SourceIdsAt(en, ids[i]);
      PrependStep(texts, text.value, ArtifactTexts(en, ids[i + 1..]));
      texts := texts + [text.value];
    }
    assert ids[|ids|..] == [];
    assert before + [] == before && texts + [] == texts;
    assert ArtifactTexts(en, ids) == Ok(texts) && SourceIds(en, ids) == before;
    var profile := ProfileOf(en.manifest, p);
    r := Ok(Projected(p, profile.id, profile.version, ids, sourceIds, JoinTexts(texts)));
  }

  lemma FirstText(en: Engine, ids: seq<string>)
    requires ids != []
    ensures SourceIds(en, ids) == SourceIdsAt(en, ids[0]) + SourceIds(en, ids[1..])
    ensures ArtifactTexts(en, ids)
         == match ArtifactText(en, ids[0]) {
              case Err(e) => Err(e)
              case Ok(text) => Prepend([text], ArtifactTexts(en, ids[1..]))
            }
  {
    hide ArtifactText, SourceIdsAt;
  }

  function Prepend(texts: seq<string>, rest: Result<seq<string>, ProjectError>): Result<seq<string>, ProjectError> {
    match rest
    case Err(e) => Err(e)
    case Ok(more) => Ok(texts + more)
  }

  lemma Prepended(rest: Result<seq<string>, ProjectError>)
    ensures Prepend([], rest) == rest
  {
    if rest.Ok? {
      assert [] + rest.value == rest.value;
    }
  }

  lemma PrependStep(texts: seq<string>, text: string, rest: Result<seq<string>, ProjectError>)
    ensures Prepend(texts, Prepend([text], rest)) == Prepend(texts + [text], rest)
  {
    if rest.Ok? {
      assert texts + ([text] + rest.value) == texts + [text] + rest.value;
    }
  }

  lemma NothingYet(en: Engine)
    ensures Verified(en, {}) && FirstSeen<string>([]) == []
    ensures ArtifactTexts(en, []) == Ok([]) && SourceIds(en, []) == []
  {
  }

  // -------------------------------------------------------------- monotony

  /** Leaving artifacts out cannot make projecting fail or the text longer. */
  lemma {:induction false} FewerIsShorter(en: Engine, a: seq<string>, b: seq<string>)
    requires Subsequence(a, b) && ArtifactTexts(en, b).Ok?
    ensures ArtifactTexts(en, a).Ok?
    ensures |ArtifactTexts(en, a).value| == |a| && |ArtifactTexts(en, b).value| == |b|
    ensures |JoinTexts(ArtifactTexts(en, a).value)| <= |JoinTexts(ArtifactTexts(en, b).value)|
    decreases |b|
  {
    hide ArtifactText;
    if b != [] {
      var tb := ArtifactTexts(en, b[1..]).value;
      assert ([ArtifactText(en, b[0]).value] + tb)[1..] == tb;
      if a == [] {
        FewerIsShorter(en, [], b[1..]);
      } else if a[0] == b[0] && Subsequence(a[1..], b[1..]) {
        FewerIsShorter(en, a[1..], b[1..]);
        var ta := ArtifactTexts(en, a[1..]).value;
        assert ([ArtifactText(en, a[0]).value] + ta)[1..] == ta;
      } else {
        FewerIsShorter(en, a, b[1..]);
      }
    }
  }

  /** With an accepted manifest, where a correction projects so does a
      validation-only resume of the same task, to a text no longer. */
  lemma ValidationProjects(en: Engine, t: Task)
    requires Accepted(en.manifest) && Projection(en, CorrectionResume, t).Ok?
    ensures Projection(en, ValidationOnlyResume, t).Ok?
    ensures |Projection(en, ValidationOnlyResume, t).value.text| <= |Projection(en, CorrectionResume, t).value.text|
  {
    hide Accepted, Selected, ArtifactTexts;
    ValidationIsSubsequence(en.manifest, t);
    FewerIsShorter(en, Selected(en.manifest, ValidationOnlyResume, t), Selected(en.manifest, CorrectionResume, t));
  }

  /** A review carries no methodology: its projection always succeeds and is empty. */
  lemma ReviewProjectsNothing(en: Engine, t: Task)
    requires Accepted(en.manifest)
    ensures Projection(en, FableReview, t).Ok?
    ensures Projection(en, FableReview, t).value.text == "" && Projection(en, FableReview, t).value.ids == []
  {
    assert TaskOk(en.manifest, t);
  }

  // --------------------------------------------------------------- pinning

  lemma {:induction false} TextsPinned(a: Engine, b: Engine, ids: seq<string>)
    requires a.manifest == b.manifest && a.extract == b.extract
    requires ArtifactTexts(a, ids).Ok? && ArtifactTexts(b, ids).Ok?
    ensures ArtifactTexts(a, ids) == ArtifactTexts(b, ids)
  {
    if ids != [] {
      TextsPinned(a, b, ids[1..]);
    }
  }

  lemma {:induction false} SourceIdsPinned(a: Engine, b: Engine, ids: seq<string>)
    requires a.manifest == b.manifest
    ensures SourceIds(a, ids) == SourceIds(b, ids)
  {
    if ids != [] {
      SourceIdsPinned(a, b, ids[1..]);
    }
  }

  /** The manifest pins the text: whatever else two source trees hold, if both
      project, they project the same. */
  lemma ManifestPinsProjection(a: Engine, b: Engine, p: Phase, t: Task)
    requires a.manifest == b.manifest && a.extract == b.extract
    requires Projection(a, p, t).Ok? && Projection(b, p, t).Ok?
    ensures Projection(a, p, t) == Projection(b, p, t)
  {
    hide Selected, ArtifactTexts, SourceIds, FirstSeen;
    TextsPinned(a, b, Selected(a.manifest, p, t));
    SourceIdsPinned(a, b, Selected(a.manifest, p, t));
  }

  lemma {:induction false} TextsVerified(en: Engine, ids: seq<string>, k: nat)
    requires ArtifactTexts(en, ids).Ok? && k < |ids|
    ensures |ArtifactTexts(en, ids).value| == |ids|
    ensures ArtifactText(en, ids[k]) == Ok(ArtifactTexts(en, ids).value[k])
  {
    hide ArtifactText;
    if k > 0 {
      TextsVerified(en, ids[1..], k - 1);
    } else if |ids| > 1 {
      TextsVerified(en, ids[1..], 0);
    }
  }

  lemma {:induction false} SourcesVerified(en: Engine, ss: seq<Source>)
    requires CheckSources(en, ss) == None
    ensures forall s :: s in ss ==> CheckSource(en, s) == None
  {
    if ss != [] {
      SourcesVerified(en, ss[1..]);
      assert ss == [ss[0]] + ss[1..];
    }
  }

  /** Nothing is projected from an artifact whose own bytes, whose length, one of
      whose sources or one of whose deny patterns is not as reviewed. */
  lemma ProjectedIsReviewed(en: Engine, p: Phase, t: Task, id: string)
    requires Projection(en, p, t).Ok? && id in Selected(en.manifest, p, t)
    ensures
      var found := Lookup(en.manifest.artifacts, id);
      && found.Some? && found.value.path in en.files
      && var raw := en.files[found.value.path];
         && Sha256(raw) == found.value.digest && |raw| == found.value.bytes && en.extract(raw).Some?
         && (forall d :: d in found.value.denies ==> d in en.denies)
         && (forall s :: s in found.value.derivedFrom ==> s.path in en.files && Sha256(en.files[s.path]) == s.digest)
  {
    hide Selected, ArtifactTexts, CheckSources, Lookup;
    var ids := Selected(en.manifest, p, t);
    var k :| 0 <= k < |ids| && ids[k] == id;
    TextsVerified(en, ids, k);
    SourcesVerified(en, Lookup(en.manifest.artifacts, id).value.derivedFrom);
  }

  // ---------------------------------------------------- what a projection is

  /** The artifact a manifest has for an id: the last one with it. */
  ghost predicate Stands(artifacts: seq<Artifact>, id: string, a: Artifact) {
    exists i :: 0 <= i < |artifacts| && artifacts[i] == a && a.id == id
      && forall j :: i < j < |artifacts| ==> artifacts[j].id != id
  }

  predicate SourceReviewed(en: Engine, s: Source) {
    s.path in en.files && Sha256(en.files[s.path]) == s.digest
  }

  predicate SourcesReviewed(en: Engine, a: Artifact) {
    forall s :: s in a.derivedFrom ==> SourceReviewed(en, s)
  }

  /** The artifact is as reviewed, and this is its inert text. */
  predicate Carries(en: Engine, a: Artifact, text: string) {
    && SourcesReviewed(en, a) && a.path in en.files
    && var raw := en.files[a.path];
       && Sha256(raw) == a.digest && |raw| == a.bytes
       && (forall d :: d in a.denies ==> d in en.denies)
       && en.extract(raw) == Some(text)
  }

  /** The text lies in the whole from this place on. */
  predicate LiesAt(whole: string, text: string, i: nat) {
    i + |text| <= |whole| && whole[i..i + |text|] == text
  }

  /** Text k begins two newlines behind the one before it. */
  predicate Follows(whole: string, texts: seq<string>, places: seq<nat>, k: nat)
    requires |places| == |texts| && 0 < k < |texts|
  {
    places[k] == places[k - 1] + |texts[k - 1]| + 2 && LiesAt(whole, "\n\n", places[k] - 2)
  }

  /** The texts lie in the whole from these places on, with two newlines between them. */
  predicate LaidOut(whole: string, texts: seq<string>, places: seq<nat>) {
    && |places| == |texts|
    && (if texts == [] then whole == ""
        else places[0] == 0 && |whole| == places[|texts| - 1] + |texts[|texts| - 1]|)
    && (forall k :: 0 <= k < |texts| ==> LiesAt(whole, texts[k], places[k]))
    && (forall k :: 0 < k < |texts| ==> Follows(whole, texts, places, k))
  }

  lemma IdsBut(artifacts: seq<Artifact>, id: string)
    requires artifacts != [] && artifacts[|artifacts| - 1].id != id
    ensures id in Ids(artifacts) <==> id in Ids(artifacts[..|artifacts| - 1])
  {
    hide Ids;
    var n := |artifacts| - 1;
    var ids, init := Ids(artifacts), Ids(artifacts[..n]);
    assert forall i :: 0 <= i < n ==> init[i] == ids[i];
    if id in ids {
      var i :| 0 <= i < |ids| && ids[i] == id;
      assert init[i] == id;
    }
    if id in init {
      var i :| 0 <= i < n && init[i] == id;
      assert ids[i] == id;
    }
  }

  lemma StandsLater(artifacts: seq<Artifact>, id: string, a: Artifact)
    requires artifacts != [] && artifacts[|artifacts| - 1].id != id
    requires Stands(artifacts[..|artifacts| - 1], id, a)
    ensures Stands(artifacts, id, a)
  {
    var init := artifacts[..|artifacts| - 1];
    var i :| 0 <= i < |init| && init[i] == a && a.id == id && forall j :: i < j < |init| ==> init[j].id != id;
    assert artifacts[i] == a;
    forall j | i < j < |artifacts|
      ensures artifacts[j].id != id
    {
      assert j < |init| ==> init[j] == artifacts[j];
    }
  }

  lemma {:induction false} LookupStands(artifacts: seq<Artifact>, id: string)
    ensures Lookup(artifacts, id).Some? ==> Stands(artifacts, id, Lookup(artifacts, id).value)
    ensures Lookup(artifacts, id).Some? <==> id in Ids(artifacts)
  {
    if artifacts != [] {
      var n := |artifacts| - 1;
      if artifacts[n].id == id {
        assert Ids(artifacts)[n] == id;
      } else {
        hide Stands, Ids;
        LookupStands(artifacts[..n], id);
        IdsBut(artifacts, id);
        if Lookup(artifacts, id).Some? {
          StandsLater(artifacts, id, Lookup(artifacts, id).value);
        }
      }
    }
  }

  lemma StandsOnce(artifacts: seq<Artifact>, id: string, a: Artifact, b: Artifact)
    requires Stands(artifacts, id, a) && Stands(artifacts, id, b)
    ensures a == b
  {
    var i :| 0 <= i < |artifacts| && artifacts[i] == a && a.id == id
             && forall j :: i < j < |artifacts| ==> artifacts[j].id != id;
    var k :| 0 <= k < |artifacts| && artifacts[k] == b && b.id == id
             && forall j :: k < j < |artifacts| ==> artifacts[j].id != id;
    assert !(i < k) && !(k < i);
  }

  lemma {:induction false} CheckedSources(en: Engine, ss: seq<Source>)
    ensures CheckSources(en, ss) == None <==> forall s :: s in ss ==> SourceReviewed(en, s)
  {
    if ss != [] {
      CheckedSources(en, ss[1..]);
      assert ss == [ss[0]] + ss[1..] && ss[0] in ss;
    }
  }

  /** An artifact projects exactly when it is as reviewed, to its inert text. */
  lemma TextIff(en: Engine, id: string, text: string)
    requires id in Ids(en.manifest.artifacts)
    ensures Lookup(en.manifest.artifacts, id).Some?
    ensures
      var a := Lookup(en.manifest.artifacts, id).value;
      Stands(en.manifest.artifacts, id, a) && (ArtifactText(en, id) == Ok(text) <==> Carries(en, a, text))
  {
    hide Lookup, CheckSources, Ids;
    LookupStands(en.manifest.artifacts, id);
    CheckedSources(en, Lookup(en.manifest.artifacts, id).value.derivedFrom);
  }

  lemma Shifted(head: string, tail: string, text: string, i: nat)
    requires LiesAt(tail, text, i)
    ensures LiesAt(head + tail, text, |head| + i)
  {
  }

  lemma Fronted(text: string, whole: string)
    ensures LiesAt(text + "\n\n" + whole, text, 0) && LiesAt(text + "\n\n" + whole, "\n\n", |text|)
  {
  }

  function Moved(places: seq<nat>, step: nat): (moved: seq<nat>)
    ensures |moved| == |places| + 1 && moved[0] == 0
    ensures forall k :: 0 < k < |moved| ==> moved[k] == step + places[k - 1]
  {
    [0] + seq(|places|, k requires 0 <= k < |places| => step + places[k])
  }

  /** Text k of more texts, behind a new first one. */
  lemma TextMoved(text: string, whole: string, texts: seq<string>, places: seq<nat>, k: nat)
    requires LaidOut(whole, texts, places) && k <= |texts|
    ensures LiesAt(text + "\n\n" + whole, ([text] + texts)[k], Moved(places, |text| + 2)[k])
  {
    hide LiesAt, Moved;
    Fronted(text, whole);
    if k > 0 {
      Shifted(text + "\n\n", whole, texts[k - 1], places[k - 1]);
    }
  }

  lemma GapMoved(text: string, whole: string, texts: seq<string>, places: seq<nat>, k: nat)
    requires LaidOut(whole, texts, places) && 0 < k <= |texts|
    ensures Follows(text + "\n\n" + whole, [text] + texts, Moved(places, |text| + 2), k)
  {
    hide LiesAt, Moved;
    Fronted(text, whole);
    if k > 1 {
      assert Follows(whole, texts, places, k - 1);
      Shifted(text + "\n\n", whole, "\n\n", places[k - 1] - 2);
    }
  }

  /** One text more in front moves the places of the others. */
  lemma LaidBehind(text: string, whole: string, texts: seq<string>, places: seq<nat>)
    requires texts != [] && LaidOut(whole, texts, places)
    ensures LaidOut(text + "\n\n" + whole, [text] + texts, Moved(places, |text| + 2))
  {
    hide LiesAt, Moved, Follows;
    var more, moved := [text] + texts, Moved(places, |text| + 2);
    assert more[|more| - 1] == texts[|texts| - 1];
    forall k | 0 <= k < |more|
      ensures LiesAt(text + "\n\n" + whole, more[k], moved[k])
    {
      TextMoved(text, whole, texts, places, k);
    }
    forall k | 0 < k < |more|
      ensures Follows(text + "\n\n" + whole, more, moved, k)
    {
      GapMoved(text, whole, texts, places, k);
    }
  }

  lemma {:induction false} TextsLaidOut(texts: seq<string>) returns (places: seq<nat>)
    ensures LaidOut(JoinTexts(texts), texts, places)
  {
    if |texts| <= 1 {
      places := if texts == [] then [] else [0];
    } else {
      hide LaidOut;
      var rest := TextsLaidOut(texts[1..]);
      places := Moved(rest, |texts[0]| + 2);
      LaidBehind(texts[0], JoinTexts(texts[1..]), texts[1..], rest);
      assert [texts[0]] + texts[1..] == texts;
    }
  }

  /** The sources of the artifacts, in order. */
  function SourcesOf(chosen: seq<Artifact>): seq<Source> {
    Concat(seq(|chosen|, k requires 0 <= k < |chosen| => chosen[k].derivedFrom))
  }

  function Named(ss: seq<Source>): seq<string> {
    seq(|ss|, k requires 0 <= k < |ss| => ss[k].sourceId)
  }

  lemma {:induction false} SourceIdsNamed(ss: seq<Source>)
    ensures SourceIdsOf(ss) == Named(ss)
  {
    if ss != [] {
      SourceIdsNamed(ss[1..]);
    }
  }

  lemma {:induction false} SourceIdsAre(en: Engine, ids: seq<string>, chosen: seq<Artifact>)
    requires |chosen| == |ids|
    requires forall k :: 0 <= k < |ids| ==> Lookup(en.manifest.artifacts, ids[k]) == Some(chosen[k])
    ensures SourceIds(en, ids) == Named(SourcesOf(chosen))
  {
    hide Lookup;
    var parts := seq(|chosen|, k requires 0 <= k < |chosen| => chosen[k].derivedFrom);
    if ids != [] {
      SourceIdsAre(en, ids[1..], chosen[1..]);
      SourceIdsNamed(chosen[0].derivedFrom);
      assert parts[1..] == seq(|chosen[1..]|, k requires 0 <= k < |chosen[1..]| => chosen[1..][k].derivedFrom);
      assert SourcesOf(chosen) == chosen[0].derivedFrom + SourcesOf(chosen[1..]);
    }
  }

  lemma {:induction false} TextsIff(en: Engine, ids: seq<string>)
    ensures ArtifactTexts(en, ids).Ok? <==> forall k :: 0 <= k < |ids| ==> ArtifactText(en, ids[k]).Ok?
    ensures ArtifactTexts(en, ids).Ok? ==>
      && |ArtifactTexts(en, ids).value| == |ids|
      && forall k :: 0 <= k < |ids| ==> ArtifactText(en, ids[k]) == Ok(ArtifactTexts(en, ids).value[k])
  {
    hide ArtifactText;
    if ids != [] {
      TextsIff(en, ids[1..]);
      assert forall k :: 0 < k < |ids| ==> ids[k] == ids[1..][k - 1];
      if forall k :: 0 <= k < |ids| ==> ArtifactText(en, ids[k]).Ok? {
        assert ArtifactText(en, ids[0]).Ok?;
        assert forall k :: 0 <= k < |ids[1..]| ==> ids[1..][k] == ids[k + 1];
      }
    }
  }

  /** A projection carries, for each selected artifact in turn, the inert text of its
      reviewed file, two newlines apart, and names the distinct sources in the order in
      which they are first seen. */
  lemma ProjectionCarries(en: Engine, p: Phase, t: Task)
    returns (chosen: seq<Artifact>, texts: seq<string>, places: seq<nat>)
    requires Projection(en, p, t).Ok?
    ensures
      var r := Projection(en, p, t).value;
      && r.phase == p && r.profileId == ProfileOf(en.manifest, p).id
      && r.profileVersion == ProfileOf(en.manifest, p).version
      && r.ids == Selected(en.manifest, p, t) && |chosen| == |texts| == |r.ids|
      && (forall k :: 0 <= k < |r.ids| ==>
            Stands(en.manifest.artifacts, r.ids[k], chosen[k]) && Carries(en, chosen[k], texts[k]))
      && LaidOut(r.text, texts, places)
      && r.sourceIds == FirstSeen(Named(SourcesOf(chosen)))
  {
    hide Lookup, ArtifactText, Ids, FirstSeen, Stands, Carries, LaidOut, Selected, SourcesOf;
    var ids := Selected(en.manifest, p, t);
    TextsIff(en, ids);
    texts := ArtifactTexts(en, ids).value;
    forall k | 0 <= k < |ids|
      ensures Lookup(en.manifest.artifacts, ids[k]).Some?
      ensures
        var a := Lookup(en.manifest.artifacts, ids[k]).value;
        Stands(en.manifest.artifacts, ids[k], a) && Carries(en, a, texts[k])
    {
      SelectedMeans(en.manifest, p, t, ids[k]);
      TextIff(en, ids[k], texts[k]);
    }
    chosen := seq(|ids|, k requires 0 <= k < |ids| => Lookup(en.manifest.artifacts, ids[k]).value);
    SourceIdsAre(en, ids, chosen);
    places := TextsLaidOut(texts);
  }

  /** Projecting succeeds exactly when every selected artifact is as reviewed. */
  lemma ProjectsIff(en: Engine, p: Phase, t: Task)
    ensures Projection(en, p, t).Ok? <==>
      forall id :: id in Selected(en.manifest, p, t) ==>
        exists a, text :: Stands(en.manifest.artifacts, id, a) && Carries(en, a, text)
  {
    hide Lookup, ArtifactText, Ids, Carries, Selected;
    var ids := Selected(en.manifest, p, t);
    TextsIff(en, ids);
    forall id | id in ids
      ensures ArtifactText(en, id).Ok? <==>
        exists a, text :: Stands(en.manifest.artifacts, id, a) && Carries(en, a, text)
    {
      SelectedMeans(en.manifest, p, t, id);
      TextIff(en, id, "");
      var found := Lookup(en.manifest.artifacts, id).value;
      if ArtifactText(en, id).Ok? {
        TextIff(en, id, ArtifactText(en, id).value);
      } else if a, text :| Stands(en.manifest.artifacts, id, a) && Carries(en, a, text) {
        StandsOnce(en.manifest.artifacts, id, a, found);
        TextIff(en, id, text);
      }
    }
  }

  /** What a refusal says of a source. */
  predicate SourceFault(en: Engine, s: Source, e: ProjectError) {
    match e
    case Unreadable(path) => path == s.path && path !in en.files
    case SourceChanged(id) => id == s.sourceId && s.path in en.files && Sha256(en.files[s.path]) != s.digest
    case _ => false
  }

  /** What a refusal says of an artifact whose sources are as reviewed: the first of its
      four checks that fails. */
  predicate ArtifactFault(en: Engine, a: Artifact, e: ProjectError) {
    if a.path !in en.files then e == Unreadable(a.path)
    else
      var raw := en.files[a.path];
      if Sha256(raw) != a.digest || |raw| != a.bytes then e == ProjectionChanged(a.id)
      else if exists d :: d in a.denies && d !in en.denies then e == DenyMissing(a.id)
      else en.extract(raw) == None && e == NotInert(a.id)
  }

  /** The artifact is refused for its first source that is not as reviewed, or for itself. */
  ghost predicate Refused(en: Engine, a: Artifact, e: ProjectError) {
    || (exists i :: 0 <= i < |a.derivedFrom| && SourceFault(en, a.derivedFrom[i], e)
                    && forall j :: 0 <= j < i ==> SourceReviewed(en, a.derivedFrom[j]))
    || (SourcesReviewed(en, a) && ArtifactFault(en, a, e))
  }

  lemma {:induction false} FirstSource(en: Engine, ss: seq<Source>) returns (i: nat)
    requires CheckSources(en, ss).Some?
    ensures i < |ss| && SourceFault(en, ss[i], CheckSources(en, ss).value)
    ensures forall j :: 0 <= j < i ==> SourceReviewed(en, ss[j])
  {
    if CheckSource(en, ss[0]).Some? {
      i := 0;
    } else {
      var k := FirstSource(en, ss[1..]);
      i := k + 1;
      assert forall j :: 0 < j < i ==> ss[j] == ss[1..][j - 1];
    }
  }

  lemma {:induction false} FirstRefused(en: Engine, ids: seq<string>) returns (k: nat)
    requires ArtifactTexts(en, ids).Err?
    ensures k < |ids| && ArtifactText(en, ids[k]) == Err(ArtifactTexts(en, ids).error)
    ensures forall j :: 0 <= j < k ==> ArtifactText(en, ids[j]).Ok?
  {
    hide ArtifactText;
    if ArtifactText(en, ids[0]).Err? {
      k := 0;
    } else {
      var n := FirstRefused(en, ids[1..]);
      k := n + 1;
      assert forall j :: 0 < j < k ==> ids[j] == ids[1..][j - 1];
    }
  }

  lemma TextRefused(en: Engine, id: string)
    requires id in Ids(en.manifest.artifacts) && ArtifactText(en, id).Err?
    ensures Lookup(en.manifest.artifacts, id).Some?
    ensures Refused(en, Lookup(en.manifest.artifacts, id).value, ArtifactText(en, id).error)
  {
    hide Lookup, Ids;
    LookupStands(en.manifest.artifacts, id);
    var a := Lookup(en.manifest.artifacts, id).value;
    CheckedSources(en, a.derivedFrom);
    if CheckSources(en, a.derivedFrom).Some? {
      var i := FirstSource(en, a.derivedFrom);
    }
  }

  /** A refusal is about the first selected artifact that is not as reviewed, and names
      what is wrong with it. */
  lemma RefusalNamesFirst(en: Engine, p: Phase, t: Task) returns (k: nat, a: Artifact)
    requires Projection(en, p, t).Err?
    ensures
      var ids := Selected(en.manifest, p, t);
      && k < |ids| && Stands(en.manifest.artifacts, ids[k], a) && Refused(en, a, Projection(en, p, t).error)
      && forall j :: 0 <= j < k ==>
           exists b, text :: Stands(en.manifest.artifacts, ids[j], b) && Carries(en, b, text)
  {
    hide Lookup, ArtifactText, Ids, Carries, Selected, Refused;
    var ids := Selected(en.manifest, p, t);
    k := FirstRefused(en, ids);
    forall j | 0 <= j <= k
      ensures ids[j] in Ids(en.manifest.artifacts)
    {
      SelectedMeans(en.manifest, p, t, ids[j]);
    }
    TextIff(en, ids[k], "");
    TextRefused(en, ids[k]);
    a := Lookup(en.manifest.artifacts, ids[k]).value;
    forall j | 0 <= j < k
      ensures exists b, text :: Stands(en.manifest.artifacts, ids[j], b) && Carries(en, b, text)
    {
      TextIff(en, ids[j], ArtifactText(en, ids[j]).value);
    }
  }

  // ------------------------------------------------------------ composition

  /** `compose_append_system_prompt` */
  function Compose(blocks: seq<string>): string {
    JoinTexts(Filter(blocks, (b: string) => b != ""))
  }

  lemma {:induction false} JoinTextsAppend(a: seq<string>, b: seq<string>)
    requires a != [] && b != []
    ensures JoinTexts(a + b) == JoinTexts(a) + GAP + JoinTexts(b)
  {
    if |a| == 1 {
      assert (a + b)[1..] == b;
    } else {
      assert (a + b)[1..] == a[1..] + b;
      JoinTextsAppend(a[1..], b);
    }
  }

  /** Composing in stages is composing at once, and an empty block leaves no trace. */
  lemma ComposeInStages(a: seq<string>, b: seq<string>)
    ensures Compose(a + b) == Compose([Compose(a), Compose(b)])
    ensures Compose(a + [""] + b) == Compose(a + b)
  {
    var keep := (t: string) => t != "";
    var fa, fb := Filter(a, keep), Filter(b, keep);
    FilterAppend(a, b, keep);
    FilterMembers(a, keep);
    FilterMembers(b, keep);
    NonEmptyJoin(fa);
    NonEmptyJoin(fb);
    ComposeTwo(JoinTexts(fa), JoinTexts(fb));
    if fa != [] && fb != [] {
      JoinTextsAppend(fa, fb);
    } else {
      assert fa + [] == fa && [] + fb == fb;
    }
    FilterAppend(a + [""], b, keep);
    FilterSnoc(a, "", keep);
    assert fa + [] == fa;
  }

  lemma ComposeTwo(x: string, y: string)
    ensures Compose([x, y]) == if x == "" then y else if y == "" then x else x + GAP + y
  {
    var keep := (t: string) => t != "";
    assert [x, y][1..] == [y] && [y][1..] == [];
    assert Filter([y], keep) == if y == "" then [] else [y];
    assert Filter([x, y], keep) == (if x == "" then [] else [x]) + Filter([y], keep);
    assert [x] + [y] == [x, y] && [] + [y] == [y] && [x] + [] == [x];
    assert x != "" && y != "" ==> [x, y][1..] == [y] && JoinTexts([x, y]) == x + GAP + y;
  }

  /** The length of a composition, block by block. */
  function ComposedLength(blocks: seq<string>): nat {
    if blocks == [] then 0
    else
      var rest := ComposedLength(blocks[1..]);
      |blocks[0]| + rest + if blocks[0] != "" && rest > 0 then |GAP| else 0
  }

  lemma {:induction false} ComposeLength(blocks: seq<string>)
    ensures |Compose(blocks)| == ComposedLength(blocks)
  {
    if blocks != [] {
      ComposeLength(blocks[1..]);
      var keep := (b: string) => b != "";
      var rest := Filter(blocks[1..], keep);
      FilterMembers(blocks[1..], keep);
      NonEmptyJoin(rest);
      if blocks[0] != "" {
        assert ([blocks[0]] + rest)[1..] == rest;
      } else {
        assert [] + rest == rest;
      }
    }
  }

  lemma NonEmptyJoin(texts: seq<string>)
    requires forall x :: x in texts ==> x != ""
    ensures |JoinTexts(texts)| == 0 <==> texts == []
  {
    if texts != [] {
      assert texts[0] in texts;
    }
  }

  /** Replacing a block by one no longer never lengthens the composition, even when
      the block disappears. */
  lemma {:induction false} ComposeMonotone(before: seq<string>, short: string, long: string, after: seq<string>)
    requires |short| <= |long|
    ensures |Compose(before + [short] + after)| <= |Compose(before + [long] + after)|
  {
    ComposeLength(before + [short] + after);
    ComposeLength(before + [long] + after);
    LengthMonotone(before, short, long, after);
  }

  lemma {:induction false} LengthMonotone(before: seq<string>, short: string, long: string, after: seq<string>)
    requires |short| <= |long|
    ensures ComposedLength(before + [short] + after) <= ComposedLength(before + [long] + after)
    decreases |before|
  {
    var a, b := before + [short] + after, before + [long] + after;
    if before == [] {
      assert a == [short] + after && b == [long] + after;
      assert a[1..] == after && b[1..] == after;
    } else {
      assert a[1..] == before[1..] + [short] + after && b[1..] == before[1..] + [long] + after;
      LengthMonotone(before[1..], short, long, after);
    }
  }
}
