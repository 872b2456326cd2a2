/** Dispatch, resume and review calls on one task, interleaved across dispatcher processes, as
    src/sol_claude_dispatcher/server.py makes them. A resume reads the count and consults
    the cap before it takes the repository lock, records its request under it, and RUNNING
    only once the child exists. A failure is recorded only when a child exists: by a
    dispatch or a resume under the lock, by a review after it has given the lock back. */
module ResumeCalls {
  import opened Common
  import opened TaskStates

  /** What is stored of the task: its states so far, and the resume count. */
  datatype Record = Record(history: seq<TaskState>, count: nat)

  /** Where one call is. `next` is the resume count a plan carries, `stored` says whether
      RUNNING was stored for the child, `seen` is the record a late failure has read. */
  datatype Call =
    | Idle
    | Planned(next: nat)
    | Holding(next: nat)
    | Reserved(next: nat)
    | Spawned(stored: bool)
    | Reviewing
    | LateFailure
    | Recording(seen: Record)

  /** The stored record, the calls, and who has the repository lock. */
  datatype World = World(record: Record, calls: map<nat, Call>, holder: Option<nat>)

  const START := World(Record([CREATED], 0), map[], None)

  function CallOf(w: World, p: nat): Call {
    if p in w.calls then w.calls[p] else Idle
  }

  function Last(history: seq<TaskState>): TaskState
    requires history != []
  {
    history[|history| - 1]
  }

  function State(w: World): TaskState
    requires w.record.history != []
  {
    Last(w.record.history)
  }

  datatype Step =
    | Dispatch(p: nat, stored: bool)
    | Plan(p: nat)
    | Lock(p: nat)
    | Reserve(p: nat)
    | Spawn(p: nat)
    | SpawnUnstored(p: nat)
    | Fail(p: nat)
    | ReviewStart(p: nat)
    | ReviewBreaks(p: nat)
    | LateRead(p: nat)
    | LateWrite(p: nat, fails: bool)
    | End(p: nat)
    | Other(s: TaskState)

  /** The states from which `_record_failure` goes to FAILED; a late one looks again
      before it does, and saves what it saw last. */
  predicate Unsettled(s: TaskState) {
    s.CREATED? || s.ROUTED? || s.RUNNING? || s.RESUME_REQUESTED?
  }

  /** What can happen next. Every transition is checked against the table and nothing else;
      `Other` is any transition but a request, a run or a failure. */
  predicate Enabled(w: World, cap: nat, a: Step)
    requires w.record.history != []
  {
    match a
    case Dispatch(p, stored) =>
      CallOf(w, p).Idle? && w.holder == None && State(w).ROUTED?
    case Plan(p) => CallOf(w, p).Idle? && w.record.count < cap && Entries(w.record.history, RUNNING) > 0
    case Lock(p) => CallOf(w, p).Planned? && w.holder == None
    case Reserve(p) => CallOf(w, p).Holding? && IsTransitionAllowed(State(w), RESUME_REQUESTED)
    case Spawn(p) => CallOf(w, p).Reserved? && IsTransitionAllowed(State(w), RUNNING)
    case SpawnUnstored(p) => CallOf(w, p).Reserved?
    case Fail(p) => CallOf(w, p).Spawned? && Unsettled(State(w))
    case ReviewStart(p) =>
      CallOf(w, p).Idle? && w.holder == None && IsTransitionAllowed(State(w), FABLE_REVIEWED)
    case ReviewBreaks(p) => CallOf(w, p).Reviewing?
    case LateRead(p) => CallOf(w, p).LateFailure?
    case LateWrite(p, fails) =>
      && CallOf(w, p).Recording? && CallOf(w, p).seen.history != []
      && if fails then IsTransitionAllowed(Last(CallOf(w, p).seen.history), FAILED)
         else !Unsettled(Last(CallOf(w, p).seen.history))
    case End(p) => !CallOf(w, p).Idle?
    case Other(s) =>
      IsTransitionAllowed(State(w), s) && !s.RUNNING? && !s.RESUME_REQUESTED? && !s.FAILED?
  }

  function Extend(r: Record, s: TaskState): Record {
    r.(history := r.history + [s])
  }

  function Put(w: World, p: nat, c: Call): World {
    w.(calls := w.calls[p := c])
  }

  function Released(w: World, p: nat): World {
    w.(holder := if w.holder == Some(p) then None else w.holder)
  }

  /** What a step leaves stored. `Spawn` stores the count of the plan; a late failure
      stores the record it has read, with FAILED or with its error only. */
  function Stored(w: World, a: Step): Record
    requires w.record.history != []
  {
    match a
    case Dispatch(_, stored) => if stored then Extend(w.record, RUNNING) else w.record
    case Reserve(_) => Extend(w.record, RESUME_REQUESTED)
    case Spawn(p) =>
      Extend(w.record, RUNNING).(count := if CallOf(w, p).Reserved? then CallOf(w, p).next else 0)
    case Fail(_) => Extend(w.record, FAILED)
    case LateWrite(p, fails) =>
      var seen := if CallOf(w, p).Recording? then CallOf(w, p).seen else w.record;
      if fails then Extend(seen, FAILED) else seen
    case Other(s) => Extend(w.record, s)
    case _ => w.record
  }

  /** Where the calls and the lock are afterwards. `End` is a refusal, a failure before any
      child exists, a return or a crash. */
  function Moved(w: World, a: Step): World {
    match a
    case Dispatch(p, stored) => Put(w, p, Spawned(stored)).(holder := Some(p))
    case Plan(p) => Put(w, p, Planned(w.record.count + 1))
    case Lock(p) =>
      Put(w, p, Holding(if CallOf(w, p).Planned? then CallOf(w, p).next else 0)).(holder := Some(p))
    case Reserve(p) => Put(w, p, Reserved(if CallOf(w, p).Holding? then CallOf(w, p).next else 0))
    case Spawn(p) => Put(w, p, Spawned(true))
    case SpawnUnstored(p) => Put(w, p, Spawned(false))
    case Fail(_) => w
    case ReviewStart(p) => Put(w, p, Reviewing).(holder := Some(p))
    case ReviewBreaks(p) => Released(Put(w, p, LateFailure), p)
    case LateRead(p) => Put(w, p, Recording(w.record))
    case LateWrite(p, _) => Put(w, p, Idle)
    case End(p) => Released(Put(w, p, Idle), p)
    case Other(_) => w
  }

  function Do(w: World, cap: nat, a: Step): World
    requires w.record.history != [] && Enabled(w, cap, a)
  {
    Moved(w, a).(record := Stored(w, a))
  }

  // ------------------------------------------------ what holds on every run

  /** A call with the lock is its holder; what a late failure has read is a life of the task. */
  ghost predicate CallOk(w: World, p: nat) {
    var c := CallOf(w, p);
    && (c.Holding? || c.Reserved? || c.Spawned? || c.Reviewing? ==> w.holder == Some(p))
    && (c.Recording? ==> Trace(c.seen.history))
  }

  ghost predicate Inv(w: World) {
    Trace(w.record.history) && forall p: nat :: CallOk(w, p)
  }

  lemma ExtendKeepsTrace(r: Record, s: TaskState)
    requires Trace(r.history) && IsTransitionAllowed(Last(r.history), s)
    ensures Trace(Extend(r, s).history)
  {
    hide IsTransitionAllowed;
    forall i | 0 < i < |r.history| + 1
      ensures IsTransitionAllowed((r.history + [s])[i - 1], (r.history + [s])[i])
    {
    }
  }

  lemma StoredIsTrace(w: World, cap: nat, a: Step)
    requires Inv(w) && Enabled(w, cap, a)
    ensures Trace(Stored(w, a).history)
  {
    match a
    case Dispatch(_, stored) => if stored { ExtendKeepsTrace(w.record, RUNNING); }
    case Reserve(_) => ExtendKeepsTrace(w.record, RESUME_REQUESTED);
    case Spawn(_) => ExtendKeepsTrace(w.record, RUNNING);
    case Fail(_) => ExtendKeepsTrace(w.record, FAILED);
    case LateWrite(p, fails) =>
      assert CallOk(w, p);
      if fails { ExtendKeepsTrace(CallOf(w, p).seen, FAILED); }
    case Other(s) => ExtendKeepsTrace(w.record, s);
    case _ =>
  }

  lemma StepKeeps(w: World, cap: nat, a: Step)
    requires Inv(w) && Enabled(w, cap, a)
    ensures Inv(Do(w, cap, a))
  {
    StoredIsTrace(w, cap, a);
    hide Trace;
    forall p: nat
      ensures CallOk(Do(w, cap, a), p)
    {
      assert CallOk(w, p);
      if !a.Other? {
        assert CallOk(w, a.p);
      }
    }
  }

  ghost predicate Possible(w: World, cap: nat, steps: seq<Step>)
    decreases |steps|
  {
    w.record.history != []
    && (steps == [] || (Enabled(w, cap, steps[0]) && Possible(Do(w, cap, steps[0]), cap, steps[1..])))
  }

  ghost function After(w: World, cap: nat, steps: seq<Step>): World
    requires Possible(w, cap, steps)
    decreases |steps|
  {
    if steps == [] then w else After(Do(w, cap, steps[0]), cap, steps[1..])
  }

  /** However calls interleave, fail late and crash, the stored history follows the table. */
  lemma {:induction false} HistoryIsTrace(w: World, cap: nat, steps: seq<Step>)
    requires Inv(w) && Possible(w, cap, steps)
    ensures Inv(After(w, cap, steps))
    decreases |steps|
  {
    hide Inv, Do, Enabled;
    if steps != [] {
      StepKeeps(w, cap, steps[0]);
      HistoryIsTrace(Do(w, cap, steps[0]), cap, steps[1..]);
    }
  }

  lemma StartIsOk()
    ensures Inv(START)
  {
  }

  // ----------------------------------------------------------- lost requests

  /** A late failure stores what it has read before anything else was stored. */
  predicate Prompt(w: World, a: Step) {
    a.LateWrite? && CallOf(w, a.p).Recording? ==> CallOf(w, a.p).seen == w.record
  }

  /** The two ways to lose a request: the failure of a child whose RUNNING could not be
      stored, and the late failure of a review. */
  predicate Loses(w: World, a: Step)
    requires w.record.history != []
  {
    && State(w).RESUME_REQUESTED?
    && ((a.Fail? && CallOf(w, a.p) == Spawned(false)) || (a.LateWrite? && a.fails))
  }

  ghost predicate AllPrompt(w: World, cap: nat, steps: seq<Step>)
    requires Possible(w, cap, steps)
    decreases |steps|
  {
    steps == [] || (Prompt(w, steps[0]) && AllPrompt(Do(w, cap, steps[0]), cap, steps[1..]))
  }

  ghost function Losses(w: World, cap: nat, steps: seq<Step>): nat
    requires Possible(w, cap, steps)
    decreases |steps|
  {
    if steps == [] then 0
    else (if Loses(w, steps[0]) then 1 else 0) + Losses(Do(w, cap, steps[0]), cap, steps[1..])
  }

  /** A call whose child was stored as running does not stand at a request: nobody else
      can make one while it has the lock. */
  ghost predicate StoredRuns(w: World) {
    w.record.history != [] && forall p: nat :: CallOf(w, p) == Spawned(true) ==> !State(w).RESUME_REQUESTED?
  }

  lemma StepStoresRuns(w: World, cap: nat, a: Step)
    requires Inv(w) && StoredRuns(w) && Enabled(w, cap, a) && Prompt(w, a)
    ensures StoredRuns(Do(w, cap, a))
  {
    hide Trace, IsTransitionAllowed;
    StepKeeps(w, cap, a);
    var t := Do(w, cap, a);
    if !a.Other? {
      assert CallOk(w, a.p);
    }
    forall p: nat
      ensures CallOf(t, p) == Spawned(true) ==> !State(t).RESUME_REQUESTED?
    {
      assert CallOk(w, p) && (CallOf(w, p) == Spawned(true) ==> !State(w).RESUME_REQUESTED?);
    }
  }

  lemma StepLoses(w: World, cap: nat, a: Step)
    requires Inv(w) && StoredRuns(w) && Enabled(w, cap, a) && Prompt(w, a)
    ensures LostRequests(Do(w, cap, a).record.history)
         == LostRequests(w.record.history) + if Loses(w, a) then 1 else 0
  {
    hide Trace, IsTransitionAllowed, Entries, ResumeCount, LostRequests;
    if a.Fail? {
      assert CallOf(w, a.p) == Spawned(true) ==> !State(w).RESUME_REQUESTED?;
    }
    var before, after := w.record.history, Do(w, cap, a).record.history;
    if after != before {
      assert after == before + [Last(after)];
      CountsNext(before, Last(after));
    }
  }

  lemma {:induction false} LossesCounted(w: World, cap: nat, steps: seq<Step>)
    requires Inv(w) && StoredRuns(w) && Possible(w, cap, steps) && AllPrompt(w, cap, steps)
    ensures LostRequests(After(w, cap, steps).record.history)
         == LostRequests(w.record.history) + Losses(w, cap, steps)
    decreases |steps|
  {
    hide Inv, StoredRuns, Do, Enabled, LostRequests, Loses, Prompt;
    if steps != [] {
      StepKeeps(w, cap, steps[0]);
      StepStoresRuns(w, cap, steps[0]);
      StepLoses(w, cap, steps[0]);
      LossesCounted(Do(w, cap, steps[0]), cap, steps[1..]);
    }
  }

  /** Requests are lost in those two ways only: on runs without an overtaken late failure a
      requested resume is left for RUNNING alone exactly when neither has happened. */
  lemma RequestsLostOnlySo(cap: nat, steps: seq<Step>)
    requires Possible(START, cap, steps) && AllPrompt(START, cap, steps)
    ensures Trace(After(START, cap, steps).record.history)
    ensures LostRequests(After(START, cap, steps).record.history) == Losses(START, cap, steps)
    ensures Launched(After(START, cap, steps).record.history) <==> Losses(START, cap, steps) == 0
  {
    hide Possible, After, Losses, AllPrompt, CallOk, LostRequests;
    StartIsOk();
    StartStoresRuns();
    HistoryIsTrace(START, cap, steps);
    LossesCounted(START, cap, steps);
    LaunchedLosesNone(After(START, cap, steps).record.history);
  }

  lemma StartStoresRuns()
    ensures StoredRuns(START) && LostRequests(START.record.history) == 0
  {
  }

  // ------------------------------------------------------- requests that stay

  /** A call that may yet change what is stored: it has a child, is about to, or is to
      record a late failure. */
  predicate MayStore(c: Call) {
    c.Reserved? || c.Spawned? || c.Reviewing? || c.LateFailure? || c.Recording?
  }

  ghost predicate Abandoned(w: World) {
    w.record.history != [] && State(w).RESUME_REQUESTED? && forall p: nat :: !MayStore(CallOf(w, p))
  }

  lemma StillAbandoned(w: World, cap: nat, a: Step)
    requires Abandoned(w) && Enabled(w, cap, a)
    ensures Abandoned(Do(w, cap, a)) && Do(w, cap, a).record == w.record
  {
    if !a.Other? {
      assert !MayStore(CallOf(w, a.p));
    }
    var t := Do(w, cap, a);
    forall p: nat
      ensures !MayStore(CallOf(t, p))
    {
      assert !MayStore(CallOf(w, p));
    }
  }

  /** A request whose call has ended without a child, with no review and no late failure
      under way, is final: no call there can be makes the record change again, although
      the table knows ways on. */
  lemma {:induction false} AbandonedStays(w: World, cap: nat, steps: seq<Step>)
    requires Abandoned(w) && Possible(w, cap, steps)
    ensures After(w, cap, steps).record == w.record
    decreases |steps|
  {
    hide Abandoned, Do, Enabled;
    if steps != [] {
      StillAbandoned(w, cap, steps[0]);
      AbandonedStays(Do(w, cap, steps[0]), cap, steps[1..]);
    }
  }

  // ----------------------------------------------------------- the cap itself

  /** The count under the lock is the one the plan was made from. */
  predicate FreshPlan(w: World, a: Step) {
    a.Lock? && CallOf(w, a.p).Planned? ==> CallOf(w, a.p).next == w.record.count + 1
  }

  ghost predicate AllPlansFresh(w: World, cap: nat, steps: seq<Step>)
    requires Possible(w, cap, steps)
    decreases |steps|
  {
    steps == [] || (FreshPlan(w, steps[0]) && AllPlansFresh(Do(w, cap, steps[0]), cap, steps[1..]))
  }

  /** A plan keeps to the cap and to a task that has run; under the lock it carries the
      next count. */
  ghost predicate PlanOk(w: World, cap: nat, p: nat) {
    var c := CallOf(w, p);
    && (c.Planned? || c.Holding? || c.Reserved? ==> 1 <= c.next <= cap && Entries(w.record.history, RUNNING) > 0)
    && (c.Holding? || c.Reserved? ==> c.next == w.record.count + 1)
  }

  /** The stored count is the number of resumes run, and the cap was kept at every request. */
  ghost predicate Counted(w: World, cap: nat) {
    && Inv(w) && Guarded(w.record.history, cap) && ResumeCount(w.record.history) == w.record.count
    && forall p: nat :: PlanOk(w, cap, p)
  }

  /** A task that has run does not stand at ROUTED. */
  lemma RoutedHasNotRun(trace: seq<TaskState>)
    requires Trace(trace) && Last(trace).ROUTED?
    ensures Entries(trace, RUNNING) == 0
  {
    RoutedOnlyFirst(trace, |trace| - 1);
    assert trace[..1] == [CREATED] && [CREATED][..0] == [];
  }

  /** A step that is no overtaken late failure appends one state the table allows, or none. */
  lemma StoredNext(w: World, cap: nat, a: Step)
    requires Inv(w) && Enabled(w, cap, a) && Prompt(w, a)
    ensures Stored(w, a).history != []
    ensures Stored(w, a).history != w.record.history ==>
      && Stored(w, a).history == w.record.history + [Last(Stored(w, a).history)]
      && IsTransitionAllowed(State(w), Last(Stored(w, a).history))
  {
    assert w.record.history != [];
    hide Trace, CallOk;
  }

  /** Only a plan within the cap asks for a resume, and only a plan's child runs. */
  lemma PlansRun(w: World, cap: nat, a: Step)
    requires Counted(w, cap) && Enabled(w, cap, a) && Prompt(w, a)
    ensures Stored(w, a).count == w.record.count + if a.Spawn? then 1 else 0
    ensures Stored(w, a).history != w.record.history ==>
      var s := Last(Stored(w, a).history);
      && (s.RESUME_REQUESTED? ==> MayRequest(w.record.history, cap))
      && (a.Spawn? <==> s.RUNNING? && State(w).RESUME_REQUESTED?)
    ensures a.Spawn? ==> |Stored(w, a).history| == |w.record.history| + 1
  {
    if !a.Other? {
      assert PlanOk(w, cap, a.p);
    }
    if a.Spawn? && State(w).ROUTED? {
      RoutedHasNotRun(w.record.history);
    }
    hide Trace, Guarded, ResumeCount, Entries, CallOk;
  }

  lemma StepGuards(w: World, cap: nat, a: Step)
    requires Counted(w, cap) && Enabled(w, cap, a) && Prompt(w, a)
    ensures Guarded(Stored(w, a).history, cap) && ResumeCount(Stored(w, a).history) == Stored(w, a).count
    ensures Entries(Stored(w, a).history, RUNNING) >= Entries(w.record.history, RUNNING)
  {
    StoredNext(w, cap, a);
    PlansRun(w, cap, a);
    hide Guarded, ResumeCount, Entries, LostRequests, IsTransitionAllowed, Trace, MayRequest, PlanOk, CallOk;
    var before, after := w.record.history, Stored(w, a).history;
    if after != before {
      GuardedNext(before, Last(after), cap);
    }
  }

  lemma OwnPlan(w: World, cap: nat, a: Step)
    requires w.record.history != [] && Enabled(w, cap, a) && FreshPlan(w, a) && !a.Other?
    requires PlanOk(w, cap, a.p)
    requires Stored(w, a).count == w.record.count + if a.Spawn? then 1 else 0
    requires Entries(Stored(w, a).history, RUNNING) >= Entries(w.record.history, RUNNING)
    ensures PlanOk(Do(w, cap, a), cap, a.p)
  {
    hide Entries, IsTransitionAllowed, Stored;
  }

  lemma OtherPlan(w: World, cap: nat, a: Step, p: nat)
    requires w.record.history != [] && Enabled(w, cap, a) && (a.Other? || (a.p != p && CallOk(w, a.p)))
    requires CallOk(w, p) && PlanOk(w, cap, p)
    requires Stored(w, a).count == w.record.count + if a.Spawn? then 1 else 0
    requires Entries(Stored(w, a).history, RUNNING) >= Entries(w.record.history, RUNNING)
    ensures PlanOk(Do(w, cap, a), cap, p)
  {
    hide Entries, IsTransitionAllowed, Stored, Trace;
    assert CallOf(Do(w, cap, a), p) == CallOf(w, p);
  }

  lemma StepCounts(w: World, cap: nat, a: Step)
    requires Counted(w, cap) && Enabled(w, cap, a) && FreshPlan(w, a) && Prompt(w, a)
    ensures Counted(Do(w, cap, a), cap)
  {
    StepKeeps(w, cap, a);
    StepGuards(w, cap, a);
    PlansRun(w, cap, a);
    hide Guarded, ResumeCount, PlanOk, CallOk, Enabled, FreshPlan, Prompt, Stored, Moved, Entries, Trace;
    forall p: nat
      ensures PlanOk(Do(w, cap, a), cap, p)
    {
      if !a.Other? && a.p == p {
        OwnPlan(w, cap, a);
      } else {
        OtherPlan(w, cap, a, p);
      }
    }
  }

  lemma {:induction false} RunCounts(w: World, cap: nat, steps: seq<Step>)
    requires Counted(w, cap) && Possible(w, cap, steps)
    requires AllPlansFresh(w, cap, steps) && AllPrompt(w, cap, steps)
    ensures Counted(After(w, cap, steps), cap)
    decreases |steps|
  {
    hide Counted, Do, Enabled, FreshPlan, Prompt;
    if steps != [] {
      StepCounts(w, cap, steps[0]);
      RunCounts(Do(w, cap, steps[0]), cap, steps[1..]);
    }
  }

  /** When no count moves between a plan and its lock and no late failure is overtaken,
      interleaved calls keep to the cap: at most 1 + cap stored runs, and requests that
      exceed the cap by the lost ones at most. */
  lemma FreshCallsAreCapped(cap: nat, steps: seq<Step>)
    requires Possible(START, cap, steps)
    requires AllPlansFresh(START, cap, steps) && AllPrompt(START, cap, steps)
    ensures
      var r := After(START, cap, steps).record;
      && r.count == ResumeCount(r.history) <= cap
      && Entries(r.history, RUNNING) <= 1 + cap
      && Entries(r.history, RESUME_REQUESTED) <= cap + Losses(START, cap, steps)
  {
    hide Possible, After, AllPlansFresh, AllPrompt, Losses, Guarded, ResumeCount, LostRequests, Entries, Launched;
    StartCounts(cap);
    RunCounts(START, cap, steps);
    RequestsLostOnlySo(cap, steps);
    var h := After(START, cap, steps).record.history;
    RunsAreCapped(h, cap);
    RequestsAreCapped(h, cap);
  }

  lemma StartCounts(cap: nat)
    ensures Counted(START, cap)
  {
    StartIsOk();
  }

  // --------------------------------------------- what a late review failure does

  /** A run with fresh plans and no overtaken late failure leads to `t` and loses so many
      requests. */
  ghost predicate Leads(w: World, cap: nat, steps: seq<Step>, t: World, losses: nat) {
    && Possible(w, cap, steps) && After(w, cap, steps) == t
    && AllPlansFresh(w, cap, steps) && AllPrompt(w, cap, steps) && Losses(w, cap, steps) == losses
  }

  lemma OneStep(w: World, cap: nat, a: Step)
    requires w.record.history != [] && Enabled(w, cap, a) && FreshPlan(w, a) && Prompt(w, a)
    requires Do(w, cap, a).record.history != []
    ensures Leads(w, cap, [a], Do(w, cap, a), if Loses(w, a) then 1 else 0)
  {
    hide Enabled, Do, FreshPlan, Prompt, Loses;
    assert Leads(Do(w, cap, a), cap, [], Do(w, cap, a), 0);
    assert [a][1..] == [];
  }

  lemma {:induction false} RunsCompose(
      w: World, cap: nat, a: seq<Step>, u: World, lost: nat, b: seq<Step>, t: World, more: nat)
    requires Leads(w, cap, a, u, lost) && Leads(u, cap, b, t, more)
    ensures Leads(w, cap, a + b, t, lost + more)
    decreases |a|
  {
    hide Enabled, Do, FreshPlan, Prompt, Loses;
    if a == [] {
      assert a + b == b;
    } else {
      assert (a + b)[0] == a[0] && (a + b)[1..] == a[1..] + b;
      RunsCompose(Do(w, cap, a[0]), cap, a[1..], u, Losses(Do(w, cap, a[0]), cap, a[1..]), b, t, more);
    }
  }

  lemma TwoSteps(w: World, cap: nat, a: Step, b: Step)
    requires w.record.history != [] && Enabled(w, cap, a) && FreshPlan(w, a) && Prompt(w, a) && !Loses(w, a)
    requires Do(w, cap, a).record.history != []
    requires Enabled(Do(w, cap, a), cap, b) && FreshPlan(Do(w, cap, a), b) && Prompt(Do(w, cap, a), b)
    requires Do(Do(w, cap, a), cap, b).record.history != []
    ensures Leads(w, cap, [a, b], Do(Do(w, cap, a), cap, b), if Loses(Do(w, cap, a), b) then 1 else 0)
  {
    hide Enabled, Do, FreshPlan, Prompt, Loses, Leads;
    var u := Do(w, cap, a);
    OneStep(w, cap, a);
    OneStep(u, cap, b);
    RunsCompose(w, cap, [a], u, 0, [b], Do(u, cap, b), if Loses(u, b) then 1 else 0);
    assert [a] + [b] == [a, b];
  }

  /** A task that waits for a review or a resume, with a free lock and two idle calls. */
  predicate Waiting(w: World, cap: nat, p: nat, q: nat) {
    && w.record.history != [] && State(w).AWAITING_SOL_REVIEW? && w.holder == None
    && p != q && CallOf(w, p).Idle? && CallOf(w, q).Idle?
    && Entries(w.record.history, RUNNING) > 0 && w.record.count < cap
  }

  /** A review breaks and gives the lock back. */
  lemma ReviewFails(w: World, cap: nat, p: nat, q: nat) returns (u: World)
    requires Waiting(w, cap, p, q)
    ensures Leads(w, cap, [ReviewStart(p), ReviewBreaks(p)], u, 0)
    ensures u == World(w.record, w.calls[p := LateFailure], None)
  {
    hide Leads, Entries;
    u := Do(Do(w, cap, ReviewStart(p)), cap, ReviewBreaks(p));
    assert u.calls == w.calls[p := LateFailure];
    TwoSteps(w, cap, ReviewStart(p), ReviewBreaks(p));
  }

  /** A resume plans, and nobody comes between its plan and its lock. */
  lemma ResumePlans(w: World, cap: nat, q: nat) returns (u: World)
    requires w.record.history != [] && w.holder == None && CallOf(w, q).Idle?
    requires Entries(w.record.history, RUNNING) > 0 && w.record.count < cap
    ensures Leads(w, cap, [Plan(q), Lock(q)], u, 0)
    ensures u == World(w.record, w.calls[q := Holding(w.record.count + 1)], Some(q))
  {
    hide Leads, Entries;
    u := Do(Do(w, cap, Plan(q)), cap, Lock(q));
    assert u.calls == w.calls[q := Holding(w.record.count + 1)];
    TwoSteps(w, cap, Plan(q), Lock(q));
  }

  /** A resume under the lock makes its request and ends without a child. */
  lemma ResumeAbandons(w: World, cap: nat, q: nat) returns (u: World)
    requires w.record.history != [] && State(w).AWAITING_SOL_REVIEW?
    requires w.holder == Some(q) && CallOf(w, q).Holding?
    ensures Leads(w, cap, [Reserve(q), End(q)], u, 0)
    ensures u == World(Extend(w.record, RESUME_REQUESTED), w.calls[q := Idle], None)
  {
    hide Leads;
    u := Do(Do(w, cap, Reserve(q)), cap, End(q));
    assert u.calls == w.calls[q := Idle];
    TwoSteps(w, cap, Reserve(q), End(q));
  }

  lemma ResumeRuns(w: World, cap: nat, q: nat) returns (u: World)
    requires w.record.history != [] && State(w).AWAITING_SOL_REVIEW?
    requires w.holder == Some(q) && CallOf(w, q).Holding?
    ensures Leads(w, cap, [Reserve(q), Spawn(q)], u, 0)
    ensures u.record == Record(w.record.history + [RESUME_REQUESTED, RUNNING], CallOf(w, q).next)
    ensures u.calls == w.calls[q := Spawned(true)] && u.holder == Some(q)
  {
    hide Leads;
    u := Do(Do(w, cap, Reserve(q)), cap, Spawn(q));
    assert u.calls == w.calls[q := Spawned(true)];
    TwoSteps(w, cap, Reserve(q), Spawn(q));
  }

  /** A late failure finds a request. */
  lemma LateFails(w: World, cap: nat, p: nat) returns (u: World)
    requires w.record.history != [] && State(w).RESUME_REQUESTED? && CallOf(w, p).LateFailure?
    ensures Leads(w, cap, [LateRead(p), LateWrite(p, true)], u, 1)
    ensures u.record == Extend(w.record, FAILED)
  {
    hide Leads;
    u := Do(Do(w, cap, LateRead(p)), cap, LateWrite(p, true));
    TwoSteps(w, cap, LateRead(p), LateWrite(p, true));
  }

  /** The review breaks and gives the lock back, a resume makes its request and ends without
      a child, and only then is the review's failure recorded. */
  function Interleaved(p: nat, q: nat): seq<Step> {
    [ReviewStart(p), ReviewBreaks(p), Plan(q), Lock(q), Reserve(q), End(q), LateRead(p), LateWrite(p, true)]
  }

  /** Whatever its history, a waiting task can lose a resume's request to the failure of
      another call, although no child goes unstored and nothing is stale or overtaken. */
  lemma ReviewLosesRequest(w: World, cap: nat, p: nat, q: nat) returns (t: World)
    requires Waiting(w, cap, p, q)
    ensures Leads(w, cap, Interleaved(p, q), t, 1)
    ensures t.record == Record(w.record.history + [RESUME_REQUESTED, FAILED], w.record.count)
  {
    hide Leads, Possible, After, AllPlansFresh, AllPrompt, Losses;
    var u1 := ReviewFails(w, cap, p, q);
    var u2 := ResumePlans(u1, cap, q);
    var u3 := ResumeAbandons(u2, cap, q);
    t := LateFails(u3, cap, p);
    hide Entries;
    RunsCompose(u2, cap, [Reserve(q), End(q)], u3, 0, [LateRead(p), LateWrite(p, true)], t, 1);
    RunsCompose(u1, cap, [Plan(q), Lock(q)], u2, 0, [Reserve(q), End(q)] + [LateRead(p), LateWrite(p, true)], t, 1);
    RunsCompose(
      w, cap, [ReviewStart(p), ReviewBreaks(p)], u1, 0,
      [Plan(q), Lock(q)] + ([Reserve(q), End(q)] + [LateRead(p), LateWrite(p, true)]), t, 1);
    assert [ReviewStart(p), ReviewBreaks(p)]
        + ([Plan(q), Lock(q)] + ([Reserve(q), End(q)] + [LateRead(p), LateWrite(p, true)])) == Interleaved(p, q);
  }

  /** The broken review has read the record before a resume runs. */
  function Overtaken(p: nat, q: nat): seq<Step> {
    [ReviewStart(p), ReviewBreaks(p), LateRead(p), Plan(q), Lock(q), Reserve(q), Spawn(q)]
  }

  /** Saved without a transition, what the review has read takes the resume back: its RUNNING
      is no longer stored and its run no longer counted, while its child lives. */
  lemma LateSaveTakesBack(w: World, cap: nat, p: nat, q: nat) returns (t: World)
    requires Waiting(w, cap, p, q)
    ensures Leads(w, cap, Overtaken(p, q), t, 0)
    ensures t.record == Record(w.record.history + [RESUME_REQUESTED, RUNNING], w.record.count + 1)
    ensures Enabled(t, cap, LateWrite(p, false)) && !Prompt(t, LateWrite(p, false))
    ensures
      var after := Do(t, cap, LateWrite(p, false));
      && after.record == w.record && CallOf(after, q) == Spawned(true) && after.holder == Some(q)
      && CallOf(after, p) == Idle
  {
    hide Leads, Possible, After, AllPlansFresh, AllPrompt, Losses;
    var u1 := ReviewFails(w, cap, p, q);
    var u2 := Do(u1, cap, LateRead(p));
    OneStep(u1, cap, LateRead(p));
    var u3 := ResumePlans(u2, cap, q);
    t := ResumeRuns(u3, cap, q);
    hide Entries;
    RunsCompose(u2, cap, [Plan(q), Lock(q)], u3, 0, [Reserve(q), Spawn(q)], t, 0);
    RunsCompose(u1, cap, [LateRead(p)], u2, 0, [Plan(q), Lock(q)] + [Reserve(q), Spawn(q)], t, 0);
    RunsCompose(
      w, cap, [ReviewStart(p), ReviewBreaks(p)], u1, 0,
      [LateRead(p)] + ([Plan(q), Lock(q)] + [Reserve(q), Spawn(q)]), t, 0);
    assert [ReviewStart(p), ReviewBreaks(p)] + ([LateRead(p)] + ([Plan(q), Lock(q)] + [Reserve(q), Spawn(q)]))
        == Overtaken(p, q);
  }

  /** The other way to lose a request: the child could not be stored as running, and fails. */
  lemma UnstoredLosesRequest(w: World, cap: nat, p: nat, q: nat) returns (t: World)
    requires Waiting(w, cap, p, q)
    ensures Leads(w, cap, [Plan(q), Lock(q)] + [Reserve(q)] + [SpawnUnstored(q), Fail(q)], t, 1)
    ensures t.record == Record(w.record.history + [RESUME_REQUESTED, FAILED], w.record.count)
    ensures t.holder == Some(q) && CallOf(t, q) == Spawned(false)
  {
    hide Leads;
    var u := ResumePlans(w, cap, q);
    var v := Do(u, cap, Reserve(q));
    OneStep(u, cap, Reserve(q));
    t := Do(Do(v, cap, SpawnUnstored(q)), cap, Fail(q));
    TwoSteps(v, cap, SpawnUnstored(q), Fail(q));
    hide Entries, Do, Enabled;
    RunsCompose(w, cap, [Plan(q), Lock(q)], u, 0, [Reserve(q)], v, 0);
    RunsCompose(w, cap, [Plan(q), Lock(q)] + [Reserve(q)], v, 0, [SpawnUnstored(q), Fail(q)], t, 1);
  }

  // ----------------------------------------------------- the bounds are reached

  /** The child has run, the call ends, and the task waits for review. */
  lemma RunEnds(w: World, cap: nat, p: nat) returns (t: World)
    requires w.record.history != [] && State(w).RUNNING?
    requires w.holder == Some(p) && CallOf(w, p) == Spawned(true)
    ensures Leads(w, cap, [Other(IMPLEMENTED), Other(AWAITING_SOL_REVIEW)] + [End(p)], t, 0)
    ensures t.record == Record(w.record.history + [IMPLEMENTED, AWAITING_SOL_REVIEW], w.record.count)
    ensures t.calls == w.calls[p := Idle] && t.holder == None
  {
    hide Leads;
    var u := Do(Do(w, cap, Other(IMPLEMENTED)), cap, Other(AWAITING_SOL_REVIEW));
    TwoSteps(w, cap, Other(IMPLEMENTED), Other(AWAITING_SOL_REVIEW));
    t := Do(u, cap, End(p));
    OneStep(u, cap, End(p));
    hide Do, Enabled;
    RunsCompose(w, cap, [Other(IMPLEMENTED), Other(AWAITING_SOL_REVIEW)], u, 0, [End(p)], t, 0);
  }

  /** From its creation a task can be routed, dispatched and run to the end. */
  lemma DispatchRuns(cap: nat, p: nat) returns (steps: seq<Step>, t: World)
    ensures Leads(START, cap, steps, t, 0)
    ensures t.record == Record([CREATED, ROUTED, RUNNING, IMPLEMENTED, AWAITING_SOL_REVIEW], 0)
    ensures t.calls == map[p := Idle] && t.holder == None
  {
    hide Leads;
    var u := Do(Do(START, cap, Other(ROUTED)), cap, Dispatch(p, true));
    TwoSteps(START, cap, Other(ROUTED), Dispatch(p, true));
    t := RunEnds(u, cap, p);
    RunsCompose(START, cap, [Other(ROUTED), Dispatch(p, true)], u, 0,
                [Other(IMPLEMENTED), Other(AWAITING_SOL_REVIEW)] + [End(p)], t, 0);
    steps := [Other(ROUTED), Dispatch(p, true)] + ([Other(IMPLEMENTED), Other(AWAITING_SOL_REVIEW)] + [End(p)]);
  }

  /** Below the cap one more resume can be made, and counts one more run. */
  lemma OneMoreResume(w: World, cap: nat, q: nat) returns (steps: seq<Step>, t: World)
    requires w.record.history != [] && State(w).AWAITING_SOL_REVIEW? && w.holder == None && CallOf(w, q).Idle?
    requires Entries(w.record.history, RUNNING) > 0 && w.record.count < cap
    ensures Leads(w, cap, steps, t, 0)
    ensures t.record.history == w.record.history + [RESUME_REQUESTED, RUNNING, IMPLEMENTED, AWAITING_SOL_REVIEW]
    ensures t.record.count == w.record.count + 1 && t.calls == w.calls[q := Idle] && t.holder == None
    ensures Entries(t.record.history, RUNNING) == Entries(w.record.history, RUNNING) + 1
  {
    hide Leads;
    var u1 := ResumePlans(w, cap, q);
    var u2 := ResumeRuns(u1, cap, q);
    t := RunEnds(u2, cap, q);
    steps := [Plan(q), Lock(q)]
      + ([Reserve(q), Spawn(q)] + ([Other(IMPLEMENTED), Other(AWAITING_SOL_REVIEW)] + [End(q)]));
    var rest := [Other(IMPLEMENTED), Other(AWAITING_SOL_REVIEW)] + [End(q)];
    RunsCompose(u1, cap, [Reserve(q), Spawn(q)], u2, 0, rest, t, 0);
    RunsCompose(w, cap, [Plan(q), Lock(q)], u1, 0, [Reserve(q), Spawn(q)] + rest, t, 0);
    hide Entries;
    var h := w.record.history;
    CountsNext(h, RESUME_REQUESTED);
    CountsNext(h + [RESUME_REQUESTED], RUNNING);
    CountsNext(h + [RESUME_REQUESTED] + [RUNNING], IMPLEMENTED);
    CountsNext(h + [RESUME_REQUESTED] + [RUNNING] + [IMPLEMENTED], AWAITING_SOL_REVIEW);
    assert t.record.history == h + [RESUME_REQUESTED] + [RUNNING] + [IMPLEMENTED] + [AWAITING_SOL_REVIEW];
  }

  /** The bounds are reached: for every number up to the cap there is a run with fresh plans
      and nothing lost or overtaken that makes as many resumes, and one more run. */
  lemma {:induction false} CapIsReached(cap: nat, n: nat, p: nat) returns (steps: seq<Step>, t: World)
    requires n <= cap
    ensures Leads(START, cap, steps, t, 0)
    ensures t.record.count == n && Entries(t.record.history, RUNNING) == 1 + n
    ensures t.record.history != [] && State(t).AWAITING_SOL_REVIEW? && t.holder == None && CallOf(t, p).Idle?
  {
    hide Leads;
    if n == 0 {
      steps, t := DispatchRuns(cap, p);
      FirstEntries();
    } else {
      var before, w := CapIsReached(cap, n - 1, p);
      var more;
      more, t := OneMoreResume(w, cap, p);
      steps := before + more;
      RunsCompose(START, cap, before, w, 0, more, t, 0);
    }
  }

  lemma FirstEntries()
    ensures Entries([CREATED, ROUTED, RUNNING, IMPLEMENTED, AWAITING_SOL_REVIEW], RUNNING) == 1
  {
    assert Entries([], RUNNING) == 0;
    CountsNext([CREATED], ROUTED);
    CountsNext([CREATED, ROUTED], RUNNING);
    CountsNext([CREATED, ROUTED, RUNNING], IMPLEMENTED);
    CountsNext([CREATED, ROUTED, RUNNING, IMPLEMENTED], AWAITING_SOL_REVIEW);
    assert [CREATED] + [ROUTED] == [CREATED, ROUTED];
    assert [CREATED, ROUTED] + [RUNNING] == [CREATED, ROUTED, RUNNING];
    assert [CREATED, ROUTED, RUNNING] + [IMPLEMENTED] == [CREATED, ROUTED, RUNNING, IMPLEMENTED];
    assert [CREATED, ROUTED, RUNNING, IMPLEMENTED] + [AWAITING_SOL_REVIEW]
        == [CREATED, ROUTED, RUNNING, IMPLEMENTED, AWAITING_SOL_REVIEW];
    assert Entries([CREATED], RUNNING) == 0 by { assert [CREATED][..0] == []; }
  }
}
