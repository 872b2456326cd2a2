/** `evaluate_lifecycle` and `preflight_lifecycle` of
    src/sol_claude_dispatcher/lifecycle.py: every phase a task can reach is
    composed and measured before its first run. */
module Preflight {
  import opened Common
  import opened Text
  import opened Lifecycle
  import opened LifecycleProjection

  /** The blocks around the projection, as UTF-8 bytes. */
  datatype Composition = Composition(authored: string, guidance: string, guidanceCap: nat, reviewAvailable: bool)

  datatype RefusalCode = GuidanceTooLong | ReviewUnavailable | ContextTooLarge

  datatype Row = Row(
    phase: Phase, projected: Projected, projectedBytes: nat, guidanceCap: nat, authoredBytes: nat,
    composedBytes: nat, ceiling: int, reviewAvailable: bool, refusal: Option<RefusalCode>)
  {
    predicate Feasible() { refusal.None? }
  }

  datatype Report = Report(
    taskId: string, envelopeDigest: string, manifestVersion: string, computedAt: Time,
    rows: seq<Row>, unreachable: seq<Phase>, feasible: bool)

  datatype EvalError =
    | EmptyTaskId
    | BadDigest
    | NaiveTimestamp
    | BadCeiling
    | BadResumeCount
    | MissingPhases(phases: seq<Phase>)
    | CannotProject(phase: Phase, error: ProjectError)

  /** The parts of an invocation beside the engine. */
  datatype Inputs = Inputs(
    taskId: string, envelopeDigest: string, task: Task, maxResumes: int, compositions: map<Phase, Composition>,
    ceiling: int, computedAt: Time)

  /** A timestamp, with or without a time zone. */
  datatype Time = Time(instant: int, zoned: bool)

  /** A lowercase SHA-256 in hexadecimal. */
  predicate IsHash(s: string) {
    |s| == 64 && LowerHex(s)
  }

  lemma HashIs(s: string)
    ensures IsHash(s) <==> |s| == 64 && forall i :: 0 <= i < |s| ==> s[i] in "0123456789abcdef"
  {
    LowerHexIs(s);
  }

  /** The scalar inputs are well formed. */
  predicate WellFormed(i: Inputs) {
    i.taskId != "" && IsHash(i.envelopeDigest) && i.ceiling >= 1 && i.computedAt.zoned && i.maxResumes >= 0
  }

  // -------------------------------------------------------- reachable phases

  /** `reachable_lifecycle_phases`: reachable, unreachable. */
  function ReachablePhases(maxResumes: int): (seq<Phase>, seq<Phase>)
    requires maxResumes >= 0
  {
    if maxResumes > 0 then (PHASES, [])
    else ([DispatchImplementation, FableReview], [CorrectionResume, ValidationOnlyResume])
  }

  function Reachable(i: Inputs): seq<Phase>
    requires i.maxResumes >= 0
  {
    ReachablePhases(i.maxResumes).0
  }

  datatype RunKind = Dispatch | Resume | Review
  datatype Role = Implementer | Reviewer

  /** `select_runtime_phase`. Its final error cannot happen: there are three kinds. */
  function RuntimePhase(kind: RunKind, role: Role): Phase {
    if role.Reviewer? || kind.Review? then FableReview
    else if kind.Dispatch? then DispatchImplementation
    else CorrectionResume
  }

  // ---------------------------------------------------------- specification

  function FinalPrompt(c: Composition, text: string): string {
    Compose([c.authored, text, c.guidance])
  }

  /** The first reason against a phase, in the order of precedence. */
  function Against(p: Phase, c: Composition, composedBytes: nat, ceiling: int): Option<RefusalCode> {
    if |c.guidance| > c.guidanceCap then Some(GuidanceTooLong)
    else if p.FableReview? && !c.reviewAvailable then Some(ReviewUnavailable)
    else if composedBytes > ceiling then Some(ContextTooLarge)
    else None
  }

  /** The bytes of three texts that are sent as one: the empty ones left out, two newlines
      between the others. */
  function Together(a: string, b: string, c: string): nat {
    var kept := (if a == "" then 0 else 1) + (if b == "" then 0 else 1) + (if c == "" then 0 else 1);
    |a| + |b| + |c| + if kept == 0 then 0 else 2 * (kept - 1)
  }

  /** A phase can be run within the limits. */
  predicate Fits(en: Engine, i: Inputs, p: Phase) {
    && p in i.compositions
    && Projection(en, p, i.task).Ok?
    && var c := i.compositions[p];
       && |c.guidance| <= c.guidanceCap
       && (p.FableReview? ==> c.reviewAvailable)
       && Together(c.authored, Projection(en, p, i.task).value.text, c.guidance) <= i.ceiling
  }

  lemma GluedTwo(x: string, y: string, z: string)
    ensures Compose([x, y, z]) == Compose([Compose([x, y]), z])
  {
    ComposeInStages([x, y], [z]);
    assert [x, y] + [z] == [x, y, z];
    assert Filter([z], (t: string) => t != "") == (if z == "" then [] else [z]) by {
      assert [z][1..] == [];
    }
    assert Compose([z]) == z;
  }

  /** What is sent: the authored text, the projection and the guidance in this order, those
      that are empty left out, two newlines between the others; and its length. */
  lemma FinalPromptIs(c: Composition, text: string)
    ensures
      var first :=
        if c.authored == "" then text else if text == "" then c.authored else c.authored + "\n\n" + text;
      FinalPrompt(c, text)
      == if first == "" then c.guidance else if c.guidance == "" then first else first + "\n\n" + c.guidance
    ensures |FinalPrompt(c, text)| == Together(c.authored, text, c.guidance)
  {
    hide Compose;
    GluedTwo(c.authored, text, c.guidance);
    ComposeTwo(c.authored, text);
    ComposeTwo(Compose([c.authored, text]), c.guidance);
  }

  // ------------------------------------------------------------- evaluation

  method MissingFrom(phases: seq<Phase>, compositions: map<Phase, Composition>) returns (missing: seq<Phase>)
    ensures missing == [] <==> forall p :: p in phases ==> p in compositions
    ensures forall p :: p in missing ==> p in phases && p !in compositions
  {
    missing := [];
    for n := 0 to |phases|
      invariant missing == [] <==> forall k :: 0 <= k < n ==> phases[k] in compositions
      invariant forall p :: p in missing ==> p in phases && p !in compositions
    {
      if phases[n] !in compositions {
        missing := missing + [phases[n]];
      }
    }
  }

  /** What a row says of a phase and its projection. */
  ghost predicate RowSays(i: Inputs, p: Phase, projected: Projected, row: Row)
    requires p in i.compositions
  {
    var c := i.compositions[p];
    var n := Together(c.authored, projected.text, c.guidance);
    && row.phase == p && row.projected == projected && row.projectedBytes == |projected.text|
    && row.authoredBytes == |c.authored| && row.guidanceCap == c.guidanceCap && row.ceiling == i.ceiling
    && row.composedBytes == n && row.reviewAvailable == (p.FableReview? ==> c.reviewAvailable)
    && row.refusal == Against(p, c, n, i.ceiling)
  }

  /** Row k is the measurement of reachable phase k. */
  ghost predicate Measured(en: Engine, i: Inputs, rows: seq<Row>, phases: seq<Phase>) {
    && |rows| <= |phases|
    && (forall p :: p in phases ==> p in i.compositions)
    && forall k :: 0 <= k < |rows| ==>
         Projection(en, phases[k], i.task).Ok?
         && RowSays(i, phases[k], Projection(en, phases[k], i.task).value, rows[k])
  }

  /** The error is about these inputs. */
  predicate Stands(en: Engine, i: Inputs, e: EvalError) {
    match e
    case EmptyTaskId => i.taskId == ""
    case BadDigest => !IsHash(i.envelopeDigest)
    case BadCeiling => i.ceiling < 1
    case NaiveTimestamp => !i.computedAt.zoned
    case BadResumeCount => i.maxResumes < 0
    case MissingPhases(ps) =>
      i.maxResumes >= 0 && ps != [] && forall p :: p in ps ==> p in Reachable(i) && p !in i.compositions
    case CannotProject(p, e) => i.maxResumes >= 0 && p in Reachable(i) && Projection(en, p, i.task) == Err(e)
  }

  /** `evaluate_lifecycle` */
  method Evaluate(en: Engine, i: Inputs) returns (r: Result<Report, EvalError>)
    ensures r.Ok? ==>
      && WellFormed(i)
      && r.value.taskId == i.taskId && r.value.envelopeDigest == i.envelopeDigest
      && r.value.manifestVersion == en.manifest.version && r.value.computedAt == i.computedAt
      && r.value.rows != [] && |r.value.rows| == |Reachable(i)|
      && Measured(en, i, r.value.rows, Reachable(i))
      && r.value.unreachable == ReachablePhases(i.maxResumes).1
      && (r.value.feasible <==> forall k :: 0 <= k < |r.value.rows| ==> r.value.rows[k].Feasible())
    ensures r.Err? ==> Stands(en, i, r.error)
  {
    hide Projection, FinalPrompt, Together;
    if i.taskId == "" {
      return Err(EmptyTaskId);
    }
    if !IsHash(i.envelopeDigest) {
      return Err(BadDigest);
    }
    if i.ceiling < 1 {
      return Err(BadCeiling);
    }
    if !i.computedAt.zoned {
      return Err(NaiveTimestamp);
    }
    if i.maxResumes < 0 {
      return Err(BadResumeCount);
    }
    var (reachable, unreachable) := ReachablePhases(i.maxResumes);
    var missing := MissingFrom(reachable, i.compositions);
    if missing != [] {
      return Err(MissingPhases(missing));
    }
    var rows: seq<Row> := [];
    var feasible := true;
    for n := 0 to |reachable|
      invariant |rows| == n && Measured(en, i, rows, reachable)
      invariant feasible <==> forall k :: 0 <= k < n ==> rows[k].Feasible()
    {
      var phase := reachable[n];
      var projected := Project(en, phase, i.task);
      if projected.Err? {
        return Err(CannotProject(phase, projected.error));
      }
      var c := i.compositions[phase];
      var final := FinalPrompt(c, projected.value.text);
      FinalPromptIs(c, projected.value.text);
      var available := if phase.FableReview? then c.reviewAvailable else true;
      var refusal := None;
      if |c.guidance| > c.guidanceCap {
        refusal := Some(GuidanceTooLong);
      } else if !available {
        refusal := Some(ReviewUnavailable);
      } else if |final| > i.ceiling {
        refusal := Some(ContextTooLarge);
      }
      rows := rows + [Row(phase, projected.value, |projected.value.text|, c.guidanceCap, |c.authored|, |final|,
                          i.ceiling, available, refusal)];
      feasible := feasible && refusal.None?;
    }
    r := Ok(Report(i.taskId, i.envelopeDigest, en.manifest.version, i.computedAt, rows, unreachable, feasible));
  }

  /** How `preflight_lifecycle` refuses: an input error, `ContextTooLarge` or
      `ConfigurationError`, the last two with the failed row. */
  datatype PreflightError = Invalid(error: EvalError) | TooLarge(row: Row) | Unsafe(row: Row)

  function FailedRow(e: PreflightError): Row
    requires !e.Invalid?
  {
    match e
    case TooLarge(row) => row
    case Unsafe(row) => row
  }

  /** Row k is the first infeasible one. */
  ghost predicate FirstFailed(rows: seq<Row>, k: nat) {
    k < |rows| && !rows[k].Feasible() && forall j :: 0 <= j < k ==> rows[j].Feasible()
  }

  /** `preflight_lifecycle`. It returns exactly when every reachable phase fits;
      a refusal carries the first reachable phase that does not, with the reason
      of highest precedence. */
  method PreflightLifecycle(en: Engine, i: Inputs) returns (r: Result<Report, PreflightError>)
    ensures r.Ok? <==>
      && i.taskId != "" && IsHash(i.envelopeDigest) && i.ceiling >= 1 && i.computedAt.zoned && i.maxResumes >= 0
      && forall p :: p in Reachable(i) ==> Fits(en, i, p)
    ensures r.Ok? ==> Guaranteed(en, i, r.value)
    ensures r.Err? && !r.error.Invalid? ==> i.maxResumes >= 0 && RefusesFirst(en, i, r.error)
  {
    hide Projection, FinalPrompt, PHASES, Fits, Measured;
    var evaluated := Evaluate(en, i);
    if evaluated.Err? {
      InvalidDoesNotFit(en, i, evaluated.error);
      return Err(Invalid(evaluated.error));
    }
    var report := evaluated.value;
    RowsDecide(en, i, report.rows);
    if report.feasible {
      return Ok(report);
    }
    var k := NextInfeasible(report.rows);
    var row := report.rows[k];
    r := Err(if row.refusal == Some(ContextTooLarge) then TooLarge(row) else Unsafe(row));
    FailureIsFirst(en, i, report.rows, k, r.error);
  }

  /** `next(row for row in report.phases if not row.feasible)` */
  method NextInfeasible(rows: seq<Row>) returns (k: nat)
    requires exists j :: 0 <= j < |rows| && !rows[j].Feasible()
    ensures FirstFailed(rows, k)
  {
    k := 0;
    while rows[k].Feasible()
      invariant k < |rows| && forall j :: 0 <= j < k ==> rows[j].Feasible()
      decreases |rows| - k
    {
      k := k + 1;
    }
  }

  /** What a returned report says: one feasible row for every reachable phase, in order. */
  ghost predicate Guaranteed(en: Engine, i: Inputs, report: Report) {
    && i.maxResumes >= 0
    && |report.rows| == |Reachable(i)|
    && Measured(en, i, report.rows, Reachable(i))
    && (forall k :: 0 <= k < |report.rows| ==> report.rows[k].Feasible())
  }

  /** The refused row is that of the first reachable phase that does not fit. */
  ghost predicate RefusesFirst(en: Engine, i: Inputs, e: PreflightError)
    requires i.maxResumes >= 0 && !e.Invalid?
  {
    exists k :: 0 <= k < |Reachable(i)| && FirstMisfit(en, i, k) && Blames(en, i, Reachable(i)[k], e)
  }

  ghost predicate FirstMisfit(en: Engine, i: Inputs, k: int)
    requires i.maxResumes >= 0 && 0 <= k < |Reachable(i)|
  {
    !Fits(en, i, Reachable(i)[k]) && forall j :: 0 <= j < k ==> Fits(en, i, Reachable(i)[j])
  }

  /** The error is about this phase, and its kind follows the precedence: guidance
      over its cap, then review context, then the transport ceiling. */
  ghost predicate Blames(en: Engine, i: Inputs, p: Phase, e: PreflightError)
    requires !e.Invalid?
  {
    && p in i.compositions && Projection(en, p, i.task).Ok?
    && FailedRow(e).phase == p
    && var c := i.compositions[p];
       var n := Together(c.authored, Projection(en, p, i.task).value.text, c.guidance);
       var guidance, review := |c.guidance| > c.guidanceCap, p.FableReview? && !c.reviewAvailable;
       && (e.TooLarge? <==> !guidance && !review && n > i.ceiling)
       && (e.Unsafe? ==> FailedRow(e).refusal == Some(if guidance then GuidanceTooLong else ReviewUnavailable))
       && FailedRow(e).composedBytes == n
  }

  lemma InvalidDoesNotFit(en: Engine, i: Inputs, e: EvalError)
    requires Stands(en, i, e)
    ensures !(WellFormed(i) && forall p :: p in Reachable(i) ==> Fits(en, i, p))
  {
    match e
    case MissingPhases(ps) => assert ps[0] in ps && !Fits(en, i, ps[0]);
    case CannotProject(p, _) => assert !Fits(en, i, p);
    case _ =>
  }

  lemma RowsDecide(en: Engine, i: Inputs, rows: seq<Row>)
    requires i.maxResumes >= 0 && |rows| == |Reachable(i)| && Measured(en, i, rows, Reachable(i))
    ensures forall k :: 0 <= k < |rows| ==> (rows[k].Feasible() <==> Fits(en, i, Reachable(i)[k]))
    ensures (forall k :: 0 <= k < |rows| ==> rows[k].Feasible()) <==> forall p :: p in Reachable(i) ==> Fits(en, i, p)
  {
    hide Projection, FinalPrompt, Together;
    forall k | 0 <= k < |rows|
      ensures rows[k].Feasible() <==> Fits(en, i, Reachable(i)[k])
    {
      var p := Reachable(i)[k];
      assert p in i.compositions;
    }
  }

  lemma FailureIsFirst(en: Engine, i: Inputs, rows: seq<Row>, k: nat, e: PreflightError)
    requires i.maxResumes >= 0 && |rows| == |Reachable(i)| && Measured(en, i, rows, Reachable(i))
    requires FirstFailed(rows, k)
    requires e == if rows[k].refusal == Some(ContextTooLarge) then TooLarge(rows[k]) else Unsafe(rows[k])
    ensures RefusesFirst(en, i, e)
  {
    hide Projection, FinalPrompt, Together;
    RowsDecide(en, i, rows);
    var p := Reachable(i)[k];
    assert p in i.compositions;
    assert FirstMisfit(en, i, k) && Blames(en, i, Reachable(i)[k], e);
  }

  // ------------------------------------------------------------- guarantees

  /** `report.for_phase(phase)`: the first row of the phase. */
  function ForPhase(rows: seq<Row>, p: Phase): Option<Row> {
    if rows == [] then None else if rows[0].phase == p then Some(rows[0]) else ForPhase(rows[1..], p)
  }

  /** A run the resume cap leaves open. */
  predicate Allowed(i: Inputs, kind: RunKind, role: Role) {
    kind.Resume? && role.Implementer? ==> i.maxResumes > 0
  }

  lemma {:induction false} ForPhaseFinds(rows: seq<Row>, p: Phase, k: nat)
    requires k < |rows| && rows[k].phase == p && forall j :: 0 <= j < k ==> rows[j].phase != p
    ensures ForPhase(rows, p) == Some(rows[k])
  {
    if k > 0 {
      ForPhaseFinds(rows[1..], p, k - 1);
    }
  }

  /** After a returned preflight, every allowed run finds the row of the phase it
      selects; the row is feasible, and the prompt composed for that phase is
      what was measured and within the ceiling. A run the cap rules out finds none. */
  lemma AllowedRunsFit(en: Engine, i: Inputs, report: Report, kind: RunKind, role: Role)
    requires Guaranteed(en, i, report)
    ensures
      var p := RuntimePhase(kind, role);
      var found := ForPhase(report.rows, p);
      && (p.FableReview? <==> role.Reviewer? || kind.Review?)
      && (p.CorrectionResume? <==> role.Implementer? && kind.Resume?)
      && !p.ValidationOnlyResume?
      && (found.Some? <==> Allowed(i, kind, role))
      && (found.Some? ==>
            && found.value.Feasible() && p in i.compositions && Projection(en, p, i.task).Ok?
            && found.value.composedBytes == |FinalPrompt(i.compositions[p], Projection(en, p, i.task).value.text)|
            && found.value.composedBytes <= i.ceiling)
  {
    hide Projection, FinalPrompt, Together;
    var p := RuntimePhase(kind, role);
    var rows, phases := report.rows, Reachable(i);
    assert forall k :: 0 <= k < |rows| ==> rows[k].phase == phases[k];
    if Allowed(i, kind, role) {
      var k := PlaceOf(i, p);
      assert phases[k] in i.compositions;
      assert rows[k].Feasible();
      FinalPromptIs(i.compositions[p], Projection(en, p, i.task).value.text);
      ForPhaseFinds(rows, p, k);
    } else {
      ForPhaseMisses(rows, p);
    }
  }

  lemma {:induction false} ForPhaseMisses(rows: seq<Row>, p: Phase)
    requires forall j :: 0 <= j < |rows| ==> rows[j].phase != p
    ensures ForPhase(rows, p) == None
  {
    if rows != [] {
      ForPhaseMisses(rows[1..], p);
    }
  }

  function PlaceOf(i: Inputs, p: Phase): (k: nat)
    requires i.maxResumes >= 0
    requires p.CorrectionResume? || p.ValidationOnlyResume? ==> i.maxResumes > 0
    ensures k < |Reachable(i)| && Reachable(i)[k] == p && forall j :: 0 <= j < k ==> Reachable(i)[j] != p
  {
    match p
    case DispatchImplementation => 0
    case CorrectionResume => 1
    case ValidationOnlyResume => 2
    case FableReview => if i.maxResumes > 0 then 3 else 1
  }

  lemma TogetherGrows(a: string, short: string, long: string, c: string)
    requires |short| <= |long|
    ensures Together(a, short, c) <= Together(a, long, c)
  {
  }

  /** With equal blocks around them, a validation-only resume fits wherever a correction does. */
  lemma FeasibilityIsMonotone(en: Engine, i: Inputs)
    requires Accepted(en.manifest)
    requires ValidationOnlyResume in i.compositions && CorrectionResume in i.compositions
    requires i.compositions[ValidationOnlyResume] == i.compositions[CorrectionResume]
    ensures Fits(en, i, CorrectionResume) ==> Fits(en, i, ValidationOnlyResume)
  {
    if Fits(en, i, CorrectionResume) {
      hide Projection, Accepted, Together;
      ValidationProjects(en, i.task);
      var c := i.compositions[CorrectionResume];
      TogetherGrows(c.authored, Projection(en, ValidationOnlyResume, i.task).value.text,
                    Projection(en, CorrectionResume, i.task).value.text, c.guidance);
    }
  }

  /** So preflight never refuses on account of the validation-only phase. */
  lemma NeverBlamesValidation(en: Engine, i: Inputs, e: PreflightError)
    requires Accepted(en.manifest) && i.maxResumes > 0 && !e.Invalid?
    requires ValidationOnlyResume in i.compositions && CorrectionResume in i.compositions
    requires i.compositions[ValidationOnlyResume] == i.compositions[CorrectionResume]
    requires RefusesFirst(en, i, e)
    ensures FailedRow(e).phase != ValidationOnlyResume
  {
    hide Fits, Accepted;
    FeasibilityIsMonotone(en, i);
    var k :| 0 <= k < |Reachable(i)| && FirstMisfit(en, i, k) && Blames(en, i, Reachable(i)[k], e);
    assert Reachable(i)[1] == CorrectionResume && Reachable(i)[2] == ValidationOnlyResume;
    assert k > 1 ==> Fits(en, i, Reachable(i)[1]);
  }
}
