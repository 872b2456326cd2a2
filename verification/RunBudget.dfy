/** The load-time limits of src/sol_claude_dispatcher/config.py, the declared budget
    of src/sol_claude_dispatcher/validation.py, and what they mean for a whole run
    inside one tool call. */
module RunBudget {
  import opened Common

  const TRANSPORT_TOOL_TIMEOUT_SECONDS := 10_800
  const WORKER_TERMINATION_TAIL_SECONDS := 25
  const VALIDATION_COMMAND_TAIL_SECONDS := 10
  const MAX_VALIDATION_COMMANDS := 32
  const GIT_CALLS := 24
  const GIT_TIMEOUT_SECONDS := 60
  const EVIDENCE_GIT_BUDGET_SECONDS := GIT_CALLS * GIT_TIMEOUT_SECONDS
  const MCP_TRANSPORT_BUDGET_SECONDS := 60

  const UNDECLARED_RUN_OVERHEAD_SECONDS :=
    WORKER_TERMINATION_TAIL_SECONDS + MAX_VALIDATION_COMMANDS * VALIDATION_COMMAND_TAIL_SECONDS
    + EVIDENCE_GIT_BUDGET_SECONDS + MCP_TRANSPORT_BUDGET_SECONDS

  const MAX_TOTAL_RUN_BUDGET_CEILING := TRANSPORT_TOOL_TIMEOUT_SECONDS - UNDECLARED_RUN_OVERHEAD_SECONDS

  const MAX_APPEND_SYSTEM_PROMPT_BYTES := 122_880
  const DISPATCHER_AUTHORED_RESERVE_BYTES := 8_192
  const MAX_PROJECTED_CONTEXT_BYTES := MAX_APPEND_SYSTEM_PROMPT_BYTES - DISPATCHER_AUTHORED_RESERVE_BYTES

  /** The settings the two cross-section validators read; the fields are positive. */
  datatype Config = Config(skillsBytes: nat, guidanceBytes: nat, maxTimeout: nat, maxTotal: nat)

  datatype ConfigError = ContextExceedsTransport | BudgetExceedsTransport | WorkerExceedsBudget

  /** The two validators, in order. */
  function Validate(c: Config): Option<ConfigError> {
    if c.skillsBytes + c.guidanceBytes + DISPATCHER_AUTHORED_RESERVE_BYTES > MAX_APPEND_SYSTEM_PROMPT_BYTES
    then Some(ContextExceedsTransport)
    else if c.maxTotal > MAX_TOTAL_RUN_BUDGET_CEILING then Some(BudgetExceedsTransport)
    else if c.maxTimeout > c.maxTotal then Some(WorkerExceedsBudget)
    else None
  }

  /** `required_tool_timeout_seconds`: None where it raises. */
  function RequiredToolTimeout(c: Config): Option<nat> {
    var required := c.maxTotal + UNDECLARED_RUN_OVERHEAD_SECONDS;
    if required > TRANSPORT_TOOL_TIMEOUT_SECONDS then None else Some(required)
  }

  function Sum(xs: seq<nat>): nat {
    if xs == [] then 0 else xs[0] + Sum(xs[1..])
  }

  /** `clamp_timeout` */
  function ClampTimeout(c: Config, requested: nat): nat {
    if requested <= c.maxTimeout then requested else c.maxTimeout
  }

  /** `excess_seconds` of `validation_budget_facts`. A resume brings its own worker
      timeout; any other call takes the envelope's, clamped. */
  function ExcessSeconds(c: Config, envelopeTimeout: nat, resumeTimeout: Option<nat>, commands: seq<nat>): nat {
    var total := WorkerTimeout(c, envelopeTimeout, resumeTimeout) + Sum(commands);
    if total > c.maxTotal then total - c.maxTotal else 0
  }

  function WorkerTimeout(c: Config, envelopeTimeout: nat, resumeTimeout: Option<nat>): nat {
    match resumeTimeout
    case Some(t) => t
    case None => ClampTimeout(c, envelopeTimeout)
  }

  /** What the check measures: the worker time is the longest that the envelope and the
      configuration both allow, unless a resume brings its own; the excess is the least
      extension of the budget that carries it and the commands. */
  lemma ExcessMeans(
      c: Config, envelopeTimeout: nat, resumeTimeout: Option<nat>, commands: seq<nat>, worker: nat, more: nat)
    ensures worker <= WorkerTimeout(c, envelopeTimeout, None) <==> worker <= envelopeTimeout && worker <= c.maxTimeout
    ensures resumeTimeout.Some? ==> WorkerTimeout(c, envelopeTimeout, resumeTimeout) == resumeTimeout.value
    ensures ExcessSeconds(c, envelopeTimeout, resumeTimeout, commands) <= more <==>
      WorkerTimeout(c, envelopeTimeout, resumeTimeout) + Sum(commands) <= c.maxTotal + more
  {
  }

  // -------------------------------------------------------------- whole runs

  /** What one blocking call really took: the worker, the validation commands it
      came to, the git calls and the response. */
  datatype Run = Run(worker: nat, commands: seq<nat>, git: seq<nat>, transport: nat)

  function Duration(r: Run): nat {
    r.worker + Sum(r.commands) + Sum(r.git) + r.transport
  }

  /** Every part keeps to its own timeout and tail. */
  predicate RunOf(r: Run, worker: nat, commands: seq<nat>) {
    && r.worker <= worker + WORKER_TERMINATION_TAIL_SECONDS
    && |r.commands| <= |commands|
    && (forall i :: 0 <= i < |r.commands| ==> r.commands[i] <= commands[i] + VALIDATION_COMMAND_TAIL_SECONDS)
    && |r.git| <= GIT_CALLS
    && (forall i :: 0 <= i < |r.git| ==> r.git[i] <= GIT_TIMEOUT_SECONDS)
    && r.transport <= MCP_TRANSPORT_BUDGET_SECONDS
  }

  lemma {:induction false} SumBound(xs: seq<nat>, limits: seq<nat>, tail: nat)
    requires |xs| <= |limits| && forall i :: 0 <= i < |xs| ==> xs[i] <= limits[i] + tail
    ensures Sum(xs) <= Sum(limits) + |limits| * tail
    decreases |limits|
  {
    if limits != [] {
      assert |limits| * tail == tail + (|limits| - 1) * tail;
      if xs == [] {
        SumBound([], limits[1..], tail);
      } else {
        SumBound(xs[1..], limits[1..], tail);
      }
    }
  }

  lemma {:induction false} SumOfEqual(xs: seq<nat>, limit: nat)
    requires forall i :: 0 <= i < |xs| ==> xs[i] <= limit
    ensures Sum(xs) <= |xs| * limit
    ensures (forall i :: 0 <= i < |xs| ==> xs[i] == limit) ==> Sum(xs) == |xs| * limit
  {
    if xs != [] {
      assert |xs| * limit == limit + (|xs| - 1) * limit;
      SumOfEqual(xs[1..], limit);
    }
  }

  /** A run whose declared times fit the budget ends within the tool timeout the
      configuration asks for, whatever number of commands it has up to 32. */
  lemma RunFitsTimeout(r: Run, worker: nat, commands: seq<nat>, budget: nat)
    requires RunOf(r, worker, commands) && |commands| <= MAX_VALIDATION_COMMANDS
    requires worker + Sum(commands) <= budget
    ensures Duration(r) <= budget + UNDECLARED_RUN_OVERHEAD_SECONDS
    ensures Duration(r) <= budget + UNDECLARED_RUN_OVERHEAD_SECONDS
                           - (MAX_VALIDATION_COMMANDS - |commands|) * VALIDATION_COMMAND_TAIL_SECONDS
  {
    SumBound(r.commands, commands, VALIDATION_COMMAND_TAIL_SECONDS);
    SumOfEqual(r.git, GIT_TIMEOUT_SECONDS);
  }

  /** An accepted configuration never makes `required_tool_timeout_seconds` raise,
      and every run of every envelope the budget check lets through ends within it. */
  lemma AcceptedRunsFit(c: Config, envelopeTimeout: nat, resumeTimeout: Option<nat>, commands: seq<nat>, r: Run)
    requires Validate(c) == None
    requires |commands| <= MAX_VALIDATION_COMMANDS
    requires RunOf(r, WorkerTimeout(c, envelopeTimeout, resumeTimeout), commands)
    ensures RequiredToolTimeout(c).Some? && RequiredToolTimeout(c).value <= TRANSPORT_TOOL_TIMEOUT_SECONDS
    ensures ExcessSeconds(c, envelopeTimeout, resumeTimeout, commands) == 0 ==>
      Duration(r) <= RequiredToolTimeout(c).value
  {
    var worker := WorkerTimeout(c, envelopeTimeout, resumeTimeout);
    if worker + Sum(commands) <= c.maxTotal {
      RunFitsTimeout(r, worker, commands, c.maxTotal);
    }
  }

  /** All runs that a budget admits fit into the transport. */
  ghost predicate BudgetIsSafe(budget: nat) {
    forall worker: nat, commands: seq<nat>, r: Run ::
      |commands| <= MAX_VALIDATION_COMMANDS && (forall i :: 0 <= i < |commands| ==> commands[i] >= 1)
      && worker >= 1 && worker + Sum(commands) <= budget && RunOf(r, worker, commands)
      ==> Duration(r) <= TRANSPORT_TOOL_TIMEOUT_SECONDS
  }

  /** The ceiling is exact: a budget is safe if and only if it does not exceed it. */
  lemma CeilingIsExact(budget: nat)
    ensures BudgetIsSafe(budget) <==> budget <= 8_955
  {
    if budget <= MAX_TOTAL_RUN_BUDGET_CEILING {
      forall worker: nat, commands: seq<nat>, r: Run |
        |commands| <= MAX_VALIDATION_COMMANDS && worker + Sum(commands) <= budget && RunOf(r, worker, commands)
        ensures Duration(r) <= TRANSPORT_TOOL_TIMEOUT_SECONDS
      {
        RunFitsTimeout(r, worker, commands, budget);
      }
    } else {
      var r := WorstRun(MAX_TOTAL_RUN_BUDGET_CEILING + 1 - MAX_VALIDATION_COMMANDS);
    }
  }

  /** A call whose worker runs into its timeout, with no validation command, keeps to the budget. */
  ghost predicate WorkersFit(c: Config) {
    forall timeout: nat :: ExcessSeconds(c, timeout, None, []) == 0
  }

  /** Loading refuses for three reasons and no other: with the reserve the contexts exceed
      the argument; else some run within the budget exceeds the transport; else some
      worker alone exceeds the budget. */
  lemma ValidateIff(c: Config)
    ensures
      var contexts := c.skillsBytes + c.guidanceBytes <= 122_880 - 8_192;
      && (Validate(c) == None <==> contexts && BudgetIsSafe(c.maxTotal) && WorkersFit(c))
      && (Validate(c) == Some(ContextExceedsTransport) <==> !contexts)
      && (Validate(c) == Some(BudgetExceedsTransport) <==> contexts && !BudgetIsSafe(c.maxTotal))
  {
    CeilingIsExact(c.maxTotal);
    if c.maxTimeout > c.maxTotal {
      assert ExcessSeconds(c, c.maxTimeout, None, []) > 0;
    }
  }

  /** The tool timeout asked for is the budget and half an hour and 45 seconds; only a budget
      that is not safe has none. */
  lemma RequiredIff(c: Config)
    ensures RequiredToolTimeout(c) == (if BudgetIsSafe(c.maxTotal) then Some(c.maxTotal + 1_845) else None)
  {
    CeilingIsExact(c.maxTotal);
  }

  /** The longest run of 32 one-second commands: every limit used up. */
  lemma WorstRun(worker: nat) returns (r: Run)
    ensures |Ones(MAX_VALIDATION_COMMANDS)| == MAX_VALIDATION_COMMANDS
    ensures Sum(Ones(MAX_VALIDATION_COMMANDS)) == MAX_VALIDATION_COMMANDS
    ensures forall i :: 0 <= i < MAX_VALIDATION_COMMANDS ==> Ones(MAX_VALIDATION_COMMANDS)[i] == 1
    ensures RunOf(r, worker, Ones(MAX_VALIDATION_COMMANDS))
    ensures Duration(r) == worker + MAX_VALIDATION_COMMANDS + UNDECLARED_RUN_OVERHEAD_SECONDS
  {
    RepeatIs(1, MAX_VALIDATION_COMMANDS);
    RepeatIs(1 + VALIDATION_COMMAND_TAIL_SECONDS, MAX_VALIDATION_COMMANDS);
    RepeatIs(GIT_TIMEOUT_SECONDS, GIT_CALLS);
    r := Run(worker + WORKER_TERMINATION_TAIL_SECONDS,
             Repeat(1 + VALIDATION_COMMAND_TAIL_SECONDS, MAX_VALIDATION_COMMANDS),
             Repeat(GIT_TIMEOUT_SECONDS, GIT_CALLS),
             MCP_TRANSPORT_BUDGET_SECONDS);
  }

  function Repeat(x: nat, n: nat): seq<nat> {
    if n == 0 then [] else [x] + Repeat(x, n - 1)
  }

  function Ones(n: nat): seq<nat> {
    Repeat(1, n)
  }

  lemma {:induction false} RepeatIs(x: nat, n: nat)
    ensures |Repeat(x, n)| == n && Sum(Repeat(x, n)) == n * x && forall i :: 0 <= i < n ==> Repeat(x, n)[i] == x
  {
    if n > 0 {
      RepeatIs(x, n - 1);
      assert Repeat(x, n)[1..] == Repeat(x, n - 1);
      assert n * x == x + (n - 1) * x;
    }
  }
}
