/** The state machine of a task in src/sol_claude_dispatcher/models.py and the resume cap
    of src/sol_claude_dispatcher/sessions.py, over traces of any length. Which traces the
    calls of server.py produce is the subject of `ResumeCalls`. */
module TaskStates {

  datatype TaskState =
    | CREATED | ROUTED | RUNNING | IMPLEMENTED | AWAITING_SOL_REVIEW | FABLE_REVIEWED | RESUME_REQUESTED
    | REVIEW_COMPLETE | TIMED_OUT | BLOCKED | FAILED | POLICY_VIOLATION

  const TERMINAL_STATES: set<TaskState> := {REVIEW_COMPLETE}

  /** `ALLOWED_TRANSITIONS` */
  function Successors(s: TaskState): set<TaskState> {
    match s
    case CREATED => {ROUTED, FAILED}
    case ROUTED => {RUNNING, FAILED}
    case RUNNING => {IMPLEMENTED, TIMED_OUT, BLOCKED, FAILED, POLICY_VIOLATION}
    case IMPLEMENTED => {AWAITING_SOL_REVIEW}
    case AWAITING_SOL_REVIEW => {FABLE_REVIEWED, RESUME_REQUESTED, REVIEW_COMPLETE}
    case FABLE_REVIEWED => {RESUME_REQUESTED, REVIEW_COMPLETE, AWAITING_SOL_REVIEW}
    case RESUME_REQUESTED => {RUNNING, FAILED}
    case TIMED_OUT => {AWAITING_SOL_REVIEW, RESUME_REQUESTED, FAILED}
    case BLOCKED => {AWAITING_SOL_REVIEW, RESUME_REQUESTED, FAILED}
    case POLICY_VIOLATION => {AWAITING_SOL_REVIEW, RESUME_REQUESTED, FAILED}
    case FAILED => {AWAITING_SOL_REVIEW, RESUME_REQUESTED}
    case REVIEW_COMPLETE => {}
  }

  predicate IsTransitionAllowed(src: TaskState, dst: TaskState) {
    dst in Successors(src)
  }

  /** The table by the state that is entered: a run only out of the two states that consult
      the cap or the route, FAILED from every state a call can fail in, a resume request and
      the review of Sol from wherever work has stopped. */
  function EnteredFrom(s: TaskState): set<TaskState> {
    match s
    case CREATED => {}
    case ROUTED => {CREATED}
    case RUNNING => {ROUTED, RESUME_REQUESTED}
    case IMPLEMENTED => {RUNNING}
    case AWAITING_SOL_REVIEW => {IMPLEMENTED, FABLE_REVIEWED, TIMED_OUT, BLOCKED, FAILED, POLICY_VIOLATION}
    case FABLE_REVIEWED => {AWAITING_SOL_REVIEW}
    case RESUME_REQUESTED => {AWAITING_SOL_REVIEW, FABLE_REVIEWED, TIMED_OUT, BLOCKED, FAILED, POLICY_VIOLATION}
    case REVIEW_COMPLETE => {AWAITING_SOL_REVIEW, FABLE_REVIEWED}
    case TIMED_OUT => {RUNNING}
    case BLOCKED => {RUNNING}
    case FAILED => {CREATED, ROUTED, RUNNING, RESUME_REQUESTED, TIMED_OUT, BLOCKED, POLICY_VIOLATION}
    case POLICY_VIOLATION => {RUNNING}
  }

  lemma TableTransposed(src: TaskState, dst: TaskState)
    ensures IsTransitionAllowed(src, dst) <==> src in EnteredFrom(dst)
  {
  }

  // ---------------------------------------------------------------- traces

  predicate Path(trace: seq<TaskState>) {
    trace != [] && forall i :: 0 < i < |trace| ==> IsTransitionAllowed(trace[i - 1], trace[i])
  }

  /** The life of a task so far. */
  predicate Trace(trace: seq<TaskState>) {
    Path(trace) && trace[0] == CREATED
  }

  function Entries(trace: seq<TaskState>, s: TaskState): nat {
    if trace == [] then 0
    else Entries(trace[..|trace| - 1], s) + if trace[|trace| - 1] == s then 1 else 0
  }

  predicate AboutToRun(s: TaskState) {
    s.ROUTED? || s.RESUME_REQUESTED?
  }

  /** Runs never outnumber the routing and the requested resumes; a task is routed at most once. */
  lemma {:induction false} RunsAreRequested(trace: seq<TaskState>)
    requires Trace(trace)
    ensures Entries(trace, CREATED) == 1
    ensures Entries(trace, ROUTED) + (if trace[|trace| - 1].CREATED? then 1 else 0) <= 1
    ensures Entries(trace, RUNNING) + (if AboutToRun(trace[|trace| - 1]) then 1 else 0)
         <= Entries(trace, ROUTED) + Entries(trace, RESUME_REQUESTED)
  {
    var n := |trace| - 1;
    if n > 0 {
      RunsAreRequested(trace[..n]);
      assert IsTransitionAllowed(trace[n - 1], trace[n]);
    } else {
      assert Entries(trace[..0], CREATED) == 0;
    }
  }

  /** Between any two runs a resume was requested, so the cap was consulted. */
  lemma ResumeBetweenRuns(trace: seq<TaskState>, i: nat, j: nat)
    requires Trace(trace) && i < j < |trace| && trace[i].RUNNING? && trace[j].RUNNING?
    ensures i < j - 1 && trace[j - 1].RESUME_REQUESTED?
  {
    assert IsTransitionAllowed(trace[j - 1], trace[j]);
    if trace[j - 1].ROUTED? {
      RoutedOnlyFirst(trace, j - 1);
    }
  }

  lemma CreatedOnlyFirst(trace: seq<TaskState>, k: nat)
    requires Trace(trace) && k < |trace|
    ensures trace[k].CREATED? <==> k == 0
  {
    if k > 0 {
      assert IsTransitionAllowed(trace[k - 1], trace[k]);
    }
  }

  /** Routing happens right after creation or not at all. */
  lemma RoutedOnlyFirst(trace: seq<TaskState>, k: nat)
    requires Trace(trace) && k < |trace| && trace[k].ROUTED?
    ensures k == 1
  {
    assert IsTransitionAllowed(trace[k - 1], trace[k]);
    CreatedOnlyFirst(trace, k - 1);
  }

  // --------------------------------------------------------------- the end

  /** A way to REVIEW_COMPLETE. */
  function WayOut(s: TaskState): (path: seq<TaskState>)
    ensures Path(path) && path[0] == s && path[|path| - 1] == REVIEW_COMPLETE
  {
    match s
    case REVIEW_COMPLETE => [s]
    case AWAITING_SOL_REVIEW => [s, REVIEW_COMPLETE]
    case FABLE_REVIEWED => [s, REVIEW_COMPLETE]
    case CREATED => [s, FAILED, AWAITING_SOL_REVIEW, REVIEW_COMPLETE]
    case ROUTED => [s, FAILED, AWAITING_SOL_REVIEW, REVIEW_COMPLETE]
    case RUNNING => [s, FAILED, AWAITING_SOL_REVIEW, REVIEW_COMPLETE]
    case RESUME_REQUESTED => [s, FAILED, AWAITING_SOL_REVIEW, REVIEW_COMPLETE]
    case _ => [s, AWAITING_SOL_REVIEW, REVIEW_COMPLETE]
  }

  /** The terminal states are exactly those without a way on; every trace can be
      continued to one, and a trace that has reached one has ended. */
  lemma TerminalMeansDone(trace: seq<TaskState>, k: nat)
    requires Trace(trace) && k < |trace|
    ensures forall s :: s in TERMINAL_STATES <==> Successors(s) == {}
    ensures trace[k] in TERMINAL_STATES ==> k == |trace| - 1
    ensures exists rest :: Trace(trace + rest) && (trace + rest)[|trace + rest| - 1] == REVIEW_COMPLETE
  {
    forall s
      ensures s in TERMINAL_STATES <==> Successors(s) == {}
    {
      match s
      case REVIEW_COMPLETE =>
      case IMPLEMENTED => assert AWAITING_SOL_REVIEW in Successors(s);
      case _ => assert FAILED in Successors(s) || RESUME_REQUESTED in Successors(s);
    }
    if k < |trace| - 1 {
      assert IsTransitionAllowed(trace[k], trace[k + 1]);
    }
    var way := WayOut(trace[|trace| - 1]);
    Continue(trace, way);
    assert Trace(trace + way[1..]);
  }

  lemma Continue(trace: seq<TaskState>, way: seq<TaskState>)
    requires Trace(trace) && Path(way) && way[0] == trace[|trace| - 1]
    ensures Trace(trace + way[1..])
    ensures (trace + way[1..])[|trace + way[1..]| - 1] == way[|way| - 1]
  {
    var whole := trace + way[1..];
    forall i | 0 < i < |whole|
      ensures IsTransitionAllowed(whole[i - 1], whole[i])
    {
      if i >= |trace| {
        assert whole[i] == way[i - |trace| + 1] && whole[i - 1] == way[i - |trace|];
        assert IsTransitionAllowed(way[i - |trace|], way[i - |trace| + 1]);
      }
    }
  }

  // ------------------------------------------------------------ resume cap

  /** The record's `resume_count` along a trace: entering RUNNING from
      RESUME_REQUESTED adds one. */
  function ResumeCount(trace: seq<TaskState>): nat {
    if |trace| < 2 then 0
    else
      var n := |trace| - 1;
      ResumeCount(trace[..n]) + if trace[n].RUNNING? && trace[n - 1].RESUME_REQUESTED? then 1 else 0
  }

  /** What `resume_plan` demands of the life so far: the cap is not reached, and there
      is a session to resume, which the first entry into RUNNING stores. */
  predicate MayRequest(trace: seq<TaskState>, cap: nat) {
    ResumeCount(trace) < cap && Entries(trace, RUNNING) > 0
  }

  /** It held at every entry into RESUME_REQUESTED. */
  predicate Guarded(trace: seq<TaskState>, cap: nat) {
    Trace(trace) && forall i :: 0 < i < |trace| && trace[i].RESUME_REQUESTED? ==> MayRequest(trace[..i], cap)
  }

  /** The first run, if there was one. */
  function Dispatched(trace: seq<TaskState>): nat {
    if |trace| > 2 && trace[2].RUNNING? && trace[1].ROUTED? then 1 else 0
  }

  lemma GuardedPrefix(trace: seq<TaskState>, cap: nat, n: nat)
    requires Guarded(trace, cap) && 0 < n <= |trace|
    ensures Guarded(trace[..n], cap)
  {
    hide MayRequest, IsTransitionAllowed;
    forall i | 0 < i < n && trace[..n][i].RESUME_REQUESTED?
      ensures MayRequest(trace[..n][..i], cap)
    {
      assert trace[..n][..i] == trace[..i];
    }
  }

  /** Under the cap a task runs at most 1 + cap times: `resume_count` is the number
      of runs beyond the dispatch, and it never exceeds the cap. */
  lemma {:induction false} RunsAreCapped(trace: seq<TaskState>, cap: nat)
    requires Guarded(trace, cap)
    ensures Entries(trace, RUNNING) == Dispatched(trace) + ResumeCount(trace)
    ensures ResumeCount(trace) + (if trace[|trace| - 1].RESUME_REQUESTED? then 1 else 0) <= cap
    ensures Entries(trace, RUNNING) <= 1 + cap
  {
    var n := |trace| - 1;
    if n > 0 {
      GuardedPrefix(trace, cap, n);
      RunsAreCapped(trace[..n], cap);
      assert IsTransitionAllowed(trace[n - 1], trace[n]);
      assert trace[n].RESUME_REQUESTED? ==> MayRequest(trace[..n], cap);
      if trace[n - 1].ROUTED? {
        RoutedOnlyFirst(trace, n - 1);
      }
      CreatedOnlyFirst(trace, n);
    } else {
      assert Entries(trace[..0], RUNNING) == 0;
    }
  }

  // --------------------------------------------------- requests and the cap

  /** Requests that were given up: from RESUME_REQUESTED straight to FAILED. */
  function LostRequests(trace: seq<TaskState>): nat {
    if |trace| < 2 then 0
    else
      var n := |trace| - 1;
      LostRequests(trace[..n]) + if trace[n].FAILED? && trace[n - 1].RESUME_REQUESTED? then 1 else 0
  }

  /** Every requested resume is a run, a loss, or still pending. */
  lemma {:induction false} RequestsAccounted(trace: seq<TaskState>)
    requires Trace(trace)
    ensures Entries(trace, RESUME_REQUESTED)
         == ResumeCount(trace) + LostRequests(trace) + if trace[|trace| - 1].RESUME_REQUESTED? then 1 else 0
  {
    var n := |trace| - 1;
    if n > 0 {
      RequestsAccounted(trace[..n]);
      assert IsTransitionAllowed(trace[n - 1], trace[n]);
    } else {
      assert Entries(trace[..0], RESUME_REQUESTED) == 0;
    }
  }

  /** A requested resume is left for a run only. */
  predicate Launched(trace: seq<TaskState>) {
    forall i :: 0 < i < |trace| && trace[i - 1].RESUME_REQUESTED? ==> trace[i].RUNNING?
  }

  lemma {:induction false} LaunchedLosesNone(trace: seq<TaskState>)
    requires Trace(trace)
    ensures Launched(trace) <==> LostRequests(trace) == 0
  {
    var n := |trace| - 1;
    if n > 0 {
      var init := trace[..n];
      LaunchedLosesNone(init);
      assert IsTransitionAllowed(trace[n - 1], trace[n]);
      assert Launched(trace) <==>
        Launched(init) && (trace[n - 1].RESUME_REQUESTED? ==> trace[n].RUNNING?) by {
        assert forall i :: 0 <= i < n ==> init[i] == trace[i];
      }
    }
  }

  /** Under the cap the requests exceed it by the lost ones at most; so with none lost
      they are bounded by the cap, and are the resumes run and the one pending. */
  lemma RequestsAreCapped(trace: seq<TaskState>, cap: nat)
    requires Guarded(trace, cap)
    ensures Entries(trace, RESUME_REQUESTED) <= cap + LostRequests(trace)
    ensures Launched(trace) ==>
      && Entries(trace, RESUME_REQUESTED) <= cap
      && Entries(trace, RESUME_REQUESTED)
         == ResumeCount(trace) + if trace[|trace| - 1].RESUME_REQUESTED? then 1 else 0
  {
    RunsAreCapped(trace, cap);
    RequestsAccounted(trace);
    LaunchedLosesNone(trace);
  }

  /** With the session consulted, no resume stands before the dispatch has run: the first
      run of a task is the one it was routed to, and every request comes after it. */
  lemma FirstRunIsDispatched(trace: seq<TaskState>, cap: nat, k: nat)
    requires Guarded(trace, cap) && k < |trace| && (trace[k].RUNNING? || trace[k].RESUME_REQUESTED?)
    ensures |trace| > 2 && trace[1].ROUTED? && trace[2].RUNNING? && k >= 2
  {
    CreatedOnlyFirst(trace, k);
    var i := FirstEntry(trace, k);
    assert IsTransitionAllowed(trace[i - 1], trace[i]);
    if trace[i].RESUME_REQUESTED? {
      assert MayRequest(trace[..i], cap);
      NoneEntered(trace[..i], RUNNING);
    } else {
      RoutedOnlyFirst(trace, i - 1);
    }
  }

  /** The first run or request. */
  lemma {:induction false} FirstEntry(trace: seq<TaskState>, k: nat) returns (i: nat)
    requires k < |trace| && (trace[k].RUNNING? || trace[k].RESUME_REQUESTED?)
    requires trace[0].CREATED?
    ensures 0 < i <= k && (trace[i].RUNNING? || trace[i].RESUME_REQUESTED?)
    ensures forall j :: 0 <= j < i ==> !trace[j].RUNNING? && !trace[j].RESUME_REQUESTED?
  {
    if j :| 0 <= j < k && (trace[j].RUNNING? || trace[j].RESUME_REQUESTED?) {
      i := FirstEntry(trace, j);
    } else {
      i := k;
    }
  }

  lemma {:induction false} NoneEntered(trace: seq<TaskState>, s: TaskState)
    requires forall i :: 0 <= i < |trace| ==> trace[i] != s
    ensures Entries(trace, s) == 0
  {
    if trace != [] {
      NoneEntered(trace[..|trace| - 1], s);
    }
  }

  // ------------------------------------------------------- one state further

  lemma GuardedNext(trace: seq<TaskState>, s: TaskState, cap: nat)
    requires Guarded(trace, cap) && IsTransitionAllowed(trace[|trace| - 1], s)
    requires s.RESUME_REQUESTED? ==> MayRequest(trace, cap)
    ensures Guarded(trace + [s], cap)
    ensures ResumeCount(trace + [s])
         == ResumeCount(trace) + if s.RUNNING? && trace[|trace| - 1].RESUME_REQUESTED? then 1 else 0
    ensures forall t :: Entries(trace + [s], t) == Entries(trace, t) + if t == s then 1 else 0
    ensures LostRequests(trace + [s])
         == LostRequests(trace) + if s.FAILED? && trace[|trace| - 1].RESUME_REQUESTED? then 1 else 0
  {
    CountsNext(trace, s);
    StillGuarded(trace, s, cap);
  }

  lemma CountsNext(trace: seq<TaskState>, s: TaskState)
    requires trace != []
    ensures ResumeCount(trace + [s])
         == ResumeCount(trace) + if s.RUNNING? && trace[|trace| - 1].RESUME_REQUESTED? then 1 else 0
    ensures forall t :: Entries(trace + [s], t) == Entries(trace, t) + if t == s then 1 else 0
    ensures LostRequests(trace + [s])
         == LostRequests(trace) + if s.FAILED? && trace[|trace| - 1].RESUME_REQUESTED? then 1 else 0
  {
    assert (trace + [s])[..|trace|] == trace;
  }

  lemma StillGuarded(trace: seq<TaskState>, s: TaskState, cap: nat)
    requires Guarded(trace, cap) && IsTransitionAllowed(trace[|trace| - 1], s)
    requires s.RESUME_REQUESTED? ==> MayRequest(trace, cap)
    ensures Guarded(trace + [s], cap)
  {
    hide Successors, MayRequest;
    var more := trace + [s];
    forall i | 0 < i < |more| && more[i].RESUME_REQUESTED?
      ensures MayRequest(more[..i], cap)
    {
      assert more[..i] == trace[..i];
    }
    assert trace[..|trace|] == trace;
  }
}
