/** One worker attempt: src/agentic_lab/runs/orchestrator.py and src/agentic_lab/runs/worker.py. */
module Orchestrator {
  import opened Wrappers
  import opened RunStatuses
  import opened RunStore

  /** `WorkerDependencies`: is there a model gateway with a model id, and a capability gateway? */
  datatype Dependencies = Dependencies(model: bool, gateway: bool)

  datatype Fetch = Fetched | Unavailable | FetchRaises

  /** The ways `run_scout`, `run_assessor` and `run_ci_diagnosis` end, by exception class. */
  datatype ModelOutcome = Produced | OutOfBudget | GatewayError | InvalidOutput | OtherError

  /** What the world outside does to an attempt; each `...Raises` is an exception the role code lets through. */
  datatype Env = Env(
    fetch: Fetch,
    budgetRaises: bool,
    model: ModelOutcome,
    errorRaises: bool,
    recordRaises: bool,
    storeRaises: bool,
    blocked: bool,
    requiresRefusal: bool,
    failureClass: string,
    refusalRaises: bool,
    patchProposed: bool)

  /** The reason codes in which the three role functions differ. */
  datatype Script = Script(snapshotting: string, started: string, invalid: string, validated: string, stored: string)

  function ScriptOf(role: AgentRole): Script {
    match role
    case Scout => Script("snapshot_policy_checked", "scout_started", "invalid_model_output", "scout_output_validated", "scout_artifact_stored")
    case Assessor => Script("diff_policy_checked", "assessor_started", "invalid_risk_output", "risk_output_validated", "risk_artifact_stored")
    case Ci => Script("check_evidence_policy_checked", "ci_diagnosis_started", "invalid_ci_output", "ci_diagnosis_validated", "ci_diagnosis_stored")
  }

  // ---- Moves -----------------------------------------------------------------------------------------------

  datatype Move = Move(target: RunStatus, reason: string, actor: string)

  function ByWorker(target: RunStatus, reason: string): Move {
    Move(target, reason, "worker")
  }

  function LastStatus(status: RunStatus, moves: seq<Move>): RunStatus {
    if moves == [] then status else moves[|moves| - 1].target
  }

  ghost predicate Legal(status: RunStatus, moves: seq<Move>) {
    forall k | 0 <= k < |moves| :: moves[k].target in AllowedTransitions(LastStatus(status, moves[..k]))
  }

  /** The transitions of a run, one after another; `None` if one of them raises. */
  function Moved(db: Db, id: nat, moves: seq<Move>, now: int): (r: Option<Db>)
    requires id < |db.runs|
    ensures r.Some? ==> |r.value.runs| == |db.runs|
  {
    if moves == [] then Some(db)
    else
      var before :- Moved(db, id, moves[..|moves| - 1], now);
      var m := moves[|moves| - 1];
      Transitioned(before, id, m.target, m.reason, m.actor, now)
  }

  lemma MovedMore(db: Db, id: nat, moves: seq<Move>, m: Move, now: int)
    requires id < |db.runs| && Moved(db, id, moves, now).Some?
    ensures Moved(db, id, moves + [m], now) == Transitioned(Moved(db, id, moves, now).value, id, m.target, m.reason, m.actor, now)
  {
    assert (moves + [m])[..|moves|] == moves;
  }

  /** Only the run's status, its end time and the log change: the moves are all on record, in order. */
  ghost predicate Effect(db: Db, id: nat, moves: seq<Move>, db': Db) {
    && id < |db.runs| == |db'.runs| && db' == db.(runs := db'.runs, transitions := db'.transitions)
    && (forall other | 0 <= other < |db.runs| && other != id :: db'.runs[other] == db.runs[other])
    && db'.runs[id] == db.runs[id].(status := LastStatus(db.runs[id].status, moves), terminalAt := db'.runs[id].terminalAt)
    && |db'.transitions| == |db.transitions| + |moves| && db.transitions <= db'.transitions
    && forall k | 0 <= k < |moves| :: db'.transitions[|db.transitions| + k] == Record(id, db.runs[id].status, moves, k)
  }

  function Record(id: nat, status: RunStatus, moves: seq<Move>, k: nat): Transition
    requires k < |moves|
  {
    Transition(id, Some(LastStatus(status, moves[..k])), moves[k].target, moves[k].reason, moves[k].actor)
  }

  /** Legal moves never raise, and have exactly their effect. */
  lemma {:induction false} LegalMovesSucceed(db: Db, id: nat, moves: seq<Move>, now: int)
    requires id < |db.runs| && Legal(db.runs[id].status, moves)
    ensures Moved(db, id, moves, now).Some? && Effect(db, id, moves, Moved(db, id, moves, now).value)
    ensures moves == [] ==> Moved(db, id, moves, now) == Some(db)
  {
    hide AllowedTransitions, Legal, Effect;
    if moves == [] {
      NoEffect(db, id);
    } else {
      LegalFront(db.runs[id].status, moves);
      LegalMovesSucceed(db, id, moves[..|moves| - 1], now);
      EffectMore(db, id, moves, Moved(db, id, moves[..|moves| - 1], now).value, now);
    }
  }

  lemma NoEffect(db: Db, id: nat)
    requires id < |db.runs|
    ensures Effect(db, id, [], db)
  {
  }

  lemma EffectMore(db: Db, id: nat, moves: seq<Move>, before: Db, now: int)
    requires moves != [] && Effect(db, id, moves[..|moves| - 1], before)
    requires moves[|moves| - 1].target in AllowedTransitions(before.runs[id].status)
    ensures var m := moves[|moves| - 1];
            var after := Transitioned(before, id, m.target, m.reason, m.actor, now);
            after.Some? && Effect(db, id, moves, after.value)
  {
    hide AllowedTransitions;
    var front, m := moves[..|moves| - 1], moves[|moves| - 1];
    var after := Transitioned(before, id, m.target, m.reason, m.actor, now).value;
    forall k | 0 <= k < |moves|
      ensures after.transitions[|db.transitions| + k] == Record(id, db.runs[id].status, moves, k)
    {
      assert front[..(if k < |front| then k else 0)] == moves[..(if k < |front| then k else 0)];
      if k < |front| {
        assert before.transitions[|db.transitions| + k] == Record(id, db.runs[id].status, front, k);
      }
    }
  }

  lemma LegalFront(status: RunStatus, moves: seq<Move>)
    requires Legal(status, moves) && moves != []
    ensures Legal(status, moves[..|moves| - 1])
    ensures moves[|moves| - 1].target in AllowedTransitions(LastStatus(status, moves[..|moves| - 1]))
  {
    hide AllowedTransitions;
    assert forall k | 0 <= k < |moves| - 1 :: moves[..|moves| - 1][..k] == moves[..k];
  }

  lemma {:induction false} MovesAudited(db: Db, id: nat, moves: seq<Move>, now: int)
    requires id < |db.runs| && AuditOk(db)
    ensures Moved(db, id, moves, now).Some? ==> AuditOk(Moved(db, id, moves, now).value)
  {
    hide AuditOk, Transitioned;
    if moves != [] {
      MovesAudited(db, id, moves[..|moves| - 1], now);
      var before := Moved(db, id, moves[..|moves| - 1], now);
      var m := moves[|moves| - 1];
      if before.Some? && Transitioned(before.value, id, m.target, m.reason, m.actor, now).Some? {
        TransitionAudited(before.value, id, m.target, m.reason, m.actor, now);
      }
    }
  }

  // ---- What each attempt does ----------------------------------------------------------------------------------

  /** The moves of a role function on a leased run, and whether it then raises. */
  function OrchestrationPlan(role: AgentRole, gateway: bool, env: Env): (seq<Move>, bool) {
    var moves := [ByWorker(Snapshotting, ScriptOf(role).snapshotting)];
    if gateway && env.fetch == FetchRaises then (moves, true)
    else if gateway && env.fetch == Unavailable then (moves + [ByWorker(Refused, "snapshot_unavailable")], false)
    else RunningPlan(role, env, moves + [ByWorker(Running, ScriptOf(role).started)])
  }

  function RunningPlan(role: AgentRole, env: Env, moves: seq<Move>): (seq<Move>, bool) {
    if env.budgetRaises then (moves, true)
    else if env.model != Produced then
      if env.errorRaises then (moves, true)
      else (moves + [TerminalError(role, env.model)], env.recordRaises)
    else if env.recordRaises then (moves, true)
    else EvaluatingPlan(role, env, moves + [ByWorker(Evaluating, ScriptOf(role).validated)])
  }

  function EvaluatingPlan(role: AgentRole, env: Env, moves: seq<Move>): (seq<Move>, bool) {
    if env.storeRaises then (moves, true)
    else if env.blocked then (moves + [ByWorker(Refused, "artifact_secret_detection")], false)
    else if role == Ci && env.requiresRefusal then
      if env.refusalRaises then (moves, true)
      else (moves + [ByWorker(Refused, "ci_" + env.failureClass + "_failure")], false)
    else if role == Ci && env.patchProposed then
      (moves + [ByWorker(Refused, "ci_patch_requires_deterministic_executor_evidence")], false)
    else (moves + [ByWorker(Succeeded, ScriptOf(role).stored)], false)
  }

  function TerminalError(role: AgentRole, outcome: ModelOutcome): Move
    requires outcome != Produced
  {
    match outcome
    case OutOfBudget => ByWorker(BudgetExhausted, "budget_exhausted")
    case InvalidOutput => ByWorker(Refused, ScriptOf(role).invalid)
    case _ => ByWorker(Failed, "model_gateway_failure")
  }

  predicate Configured(role: AgentRole, deps: Dependencies) {
    deps.model && (role == Scout ==> deps.gateway)
  }

  function DispatchPlan(run: Run, worker: string, deps: Dependencies, env: Env): (seq<Move>, bool) {
    if Configured(run.role, deps) then
      if run.status == Leased then OrchestrationPlan(run.role, deps.gateway, env) else ([], true)
    else if Failed in AllowedTransitions(run.status) then ([Move(Failed, "worker_role_not_configured", worker)], false)
    else ([], true)
  }

  /** Dispatch and the catch-all around it; the flag says that even the catch-all raised. */
  function AttemptPlan(run: Run, worker: string, deps: Dependencies, env: Env): (seq<Move>, bool) {
    var (moves, raised) := DispatchPlan(run, worker, deps, env);
    var status := LastStatus(run.status, moves);
    if !raised || status in TERMINAL_STATUSES then (moves, false)
    else if Failed in AllowedTransitions(status) then (moves + [Move(Failed, "unexpected_worker_error", worker)], false)
    else (moves, true)
  }

  /** `Returned` is the result of `process_claimed_run`; `Raised` an exception it lets through. */
  datatype AttemptResult = Returned(committed: bool) | Raised

  /** `process_claimed_run`; `lost` says that a heartbeat of this attempt failed. */
  function Attempted(db: Db, id: nat, worker: string, deps: Dependencies, env: Env, lost: bool, now: int): (Db, AttemptResult) {
    if id >= |db.runs| then (db, Returned(false))
    else
      var (moves, raised) := AttemptPlan(db.runs[id], worker, deps, env);
      var moved := Moved(db, id, moves, now);
      if raised || moved.None? then (db, Raised)
      else if lost then (db, Returned(false))
      else
        match Released(moved.value, id, worker)
        case None => (db, Returned(false))
        case Some(db') => (db', Returned(true))
  }

  // ---- Every attempt ends legally --------------------------------------------------------------------------------

  lemma LegalMore(status: RunStatus, moves: seq<Move>, m: Move)
    requires Legal(status, moves) && m.target in AllowedTransitions(LastStatus(status, moves))
    ensures Legal(status, moves + [m]) && LastStatus(status, moves + [m]) == m.target
  {
    var all := moves + [m];
    hide AllowedTransitions;
    assert moves == moves[..|moves|];
    forall k | 0 <= k < |all|
      ensures all[k].target in AllowedTransitions(LastStatus(status, all[..k]))
    {
      assert all[..k] == moves[..k];
    }
  }

  /** Legal from Leased; ended unless it raises, and then it can still fail. */
  ghost predicate EndsWell(plan: (seq<Move>, bool)) {
    var status := LastStatus(Leased, plan.0);
    && Legal(Leased, plan.0) && (!plan.1 ==> status in TERMINAL_STATUSES)
    && (status in TERMINAL_STATUSES || Failed in AllowedTransitions(status))
  }

  lemma EvaluatingIsLegal(role: AgentRole, env: Env, moves: seq<Move>)
    requires Legal(Leased, moves) && LastStatus(Leased, moves) == Evaluating
    ensures EndsWell(EvaluatingPlan(role, env, moves))
    ensures
      var refused := env.blocked || (role == Ci && (if env.requiresRefusal then !env.refusalRaises else env.patchProposed));
      var status := LastStatus(Leased, EvaluatingPlan(role, env, moves).0);
      && (status == Succeeded <==> !env.storeRaises && !env.blocked && !(role == Ci && (env.requiresRefusal || env.patchProposed)))
      && (status == Refused <==> !env.storeRaises && refused)
      && status in {Succeeded, Refused, Evaluating}
  {
    var (all, raised) := EvaluatingPlan(role, env, moves);
    if all != moves {
      LegalMore(Leased, moves, all[|moves|]);
      assert all == moves + [all[|moves|]];
    }
    hide Legal;
  }

  lemma RunningIsLegal(role: AgentRole, env: Env, moves: seq<Move>)
    requires Legal(Leased, moves) && LastStatus(Leased, moves) == Running
    ensures EndsWell(RunningPlan(role, env, moves))
    ensures
      var evaluated := !env.budgetRaises && env.model == Produced && !env.recordRaises;
      var status := LastStatus(Leased, RunningPlan(role, env, moves).0);
      if evaluated then RunningPlan(role, env, moves) == EvaluatingPlan(role, env, moves + [ByWorker(Evaluating, ScriptOf(role).validated)])
      else
        && (status == BudgetExhausted <==> !env.budgetRaises && env.model == OutOfBudget && !env.errorRaises)
        && (status == Refused <==> !env.budgetRaises && env.model == InvalidOutput && !env.errorRaises)
        && status in {BudgetExhausted, Refused, Failed, Running}
  {
    hide Legal, EvaluatingPlan, ScriptOf;
    var (all, raised) := RunningPlan(role, env, moves);
    if env.budgetRaises || (env.model != Produced && env.errorRaises) || (env.model == Produced && env.recordRaises) {
    } else if env.model != Produced {
      LegalMore(Leased, moves, TerminalError(role, env.model));
    } else {
      var m := ByWorker(Evaluating, ScriptOf(role).validated);
      LegalMore(Leased, moves, m);
      EvaluatingIsLegal(role, env, moves + [m]);
    }
  }

  lemma OrchestrationIsLegal(role: AgentRole, gateway: bool, env: Env)
    ensures EndsWell(OrchestrationPlan(role, gateway, env))
    ensures gateway && env.fetch != Fetched ==>
              LastStatus(Leased, OrchestrationPlan(role, gateway, env).0) == if env.fetch == Unavailable then Refused else Snapshotting
  {
    hide Legal, RunningPlan, ScriptOf;
    var first := ByWorker(Snapshotting, ScriptOf(role).snapshotting);
    assert Legal(Leased, []) by { OrchestrationStarts(); }
    LegalMore(Leased, [], first);
    assert [] + [first] == [first];
    if gateway && env.fetch == Unavailable {
      LegalMore(Leased, [first], ByWorker(Refused, "snapshot_unavailable"));
    } else if !gateway || env.fetch == Fetched {
      var second := ByWorker(Running, ScriptOf(role).started);
      LegalMore(Leased, [first], second);
      RunningIsLegal(role, env, [first] + [second]);
    }
  }

  lemma OrchestrationStarts()
    ensures Legal(Leased, [])
  {
  }

  lemma NothingIsLegal(status: RunStatus)
    ensures Legal(status, [])
  {
  }

  lemma DispatchIsLegal(run: Run, worker: string, deps: Dependencies, env: Env)
    ensures var (moves, raised) := DispatchPlan(run, worker, deps, env);
            var status := LastStatus(run.status, moves);
            && Legal(run.status, moves) && (!raised ==> status in TERMINAL_STATUSES)
            && (moves == [] || status in TERMINAL_STATUSES || Failed in AllowedTransitions(status))
            && (run.status in {RunStatus.Received, Queued, ReadyToPush} + TERMINAL_STATUSES ==> moves == [] && raised)
  {
    hide OrchestrationPlan, Legal;
    NothingIsLegal(run.status);
    if Configured(run.role, deps) {
      if run.status == Leased {
        OrchestrationIsLegal(run.role, deps.gateway, env);
      }
    } else if Failed in AllowedTransitions(run.status) {
      var m := Move(Failed, "worker_role_not_configured", worker);
      LegalMore(run.status, [], m);
      assert [] + [m] == [m];
    }
  }

  /** An attempt's moves are always legal, and leave the run in an ended status unless the attempt raises. */
  lemma AttemptIsLegal(run: Run, worker: string, deps: Dependencies, env: Env)
    ensures var (moves, raised) := AttemptPlan(run, worker, deps, env);
            && Legal(run.status, moves) && (!raised ==> LastStatus(run.status, moves) in TERMINAL_STATUSES)
            && (raised <==> run.status in {RunStatus.Received, Queued, ReadyToPush})
            && (run.status in TERMINAL_STATUSES ==> moves == [])
  {
    var (moves, raised) := DispatchPlan(run, worker, deps, env);
    DispatchIsLegal(run, worker, deps, env);
    hide DispatchPlan, Legal;
    var status := LastStatus(run.status, moves);
    if raised && status !in TERMINAL_STATUSES && Failed in AllowedTransitions(status) {
      LegalMore(run.status, moves, Move(Failed, "unexpected_worker_error", worker));
    }
  }

  /** The run has ended and lost its lease; a run that had ended before, and every other run, keeps its row. */
  ghost predicate RunEnded(db: Db, id: nat, db': Db) {
    && id < |db.runs| == |db'.runs| && db'.runs[id].status in TERMINAL_STATUSES
    && db' == db.(runs := db'.runs, transitions := db'.transitions, leases := db.leases - {id})
    && (forall other | 0 <= other < |db.runs| && other != id :: db'.runs[other] == db.runs[other])
    && db'.runs[id] == db.runs[id].(status := db'.runs[id].status, terminalAt := db'.runs[id].terminalAt)
    && (db.runs[id].status in TERMINAL_STATUSES ==> db' == db.(leases := db.leases - {id}))
  }

  /**
   * An attempt that returns true has taken only allowed transitions, left the run in an ended status and
   * removed its lease, and touched nothing else. Any other attempt has no effect. An exception escapes
   * exactly on runs that are neither leased nor ended and cannot fail, so never on a claimed run.
   */
  lemma AttemptEndsLegally(db: Db, id: nat, worker: string, deps: Dependencies, env: Env, lost: bool, now: int)
    ensures var (db', result) := Attempted(db, id, worker, deps, env, lost, now);
            && (result != Returned(true) ==> db' == db)
            && (result == Raised <==> id < |db.runs| && db.runs[id].status in {RunStatus.Received, Queued, ReadyToPush})
            && (result == Returned(true) <==>
                  id < |db.runs| && db.runs[id].status !in {RunStatus.Received, Queued, ReadyToPush} && !lost && HoldsLease(db, id, worker))
            && (result == Returned(true) ==> RunEnded(db, id, db') && (AuditOk(db) ==> AuditOk(db')))
  {
    if id < |db.runs| {
      var (moves, raised) := AttemptPlan(db.runs[id], worker, deps, env);
      AttemptIsLegal(db.runs[id], worker, deps, env);
      LegalMovesSucceed(db, id, moves, now);
      var moved := Moved(db, id, moves, now).value;
      hide AttemptPlan, Moved, AuditOk, Effect, RunEnded, Legal;
      if !raised {
        EndedBy(db, id, moves, moved);
      }
      if AuditOk(db) {
        MovesAudited(db, id, moves, now);
        SameAudit(moved, moved.(leases := moved.leases - {id}));
      }
    }
  }

  lemma EndedBy(db: Db, id: nat, moves: seq<Move>, db': Db)
    requires Effect(db, id, moves, db') && LastStatus(db.runs[id].status, moves) in TERMINAL_STATUSES
    requires db.runs[id].status in TERMINAL_STATUSES ==> db' == db
    ensures RunEnded(db, id, db'.(leases := db'.leases - {id})) && db'.leases == db.leases
  {
  }

  lemma OrchestrationEnds(role: AgentRole, deps: Dependencies, env: Env)
    requires Configured(role, deps)
    ensures var status := LastStatus(Leased, OrchestrationPlan(role, deps.gateway, env).0);
            StatusFits(role, deps, env, if status in TERMINAL_STATUSES then status else Failed)
  {
    hide ScriptOf, RunningPlan, EvaluatingPlan, Legal, AllowedTransitions;
    if deps.gateway && env.fetch != Fetched {
      OrchestrationIsLegal(role, deps.gateway, env);
    } else {
      var before := [ByWorker(Snapshotting, ScriptOf(role).snapshotting)] + [ByWorker(Running, ScriptOf(role).started)];
      LeasedToRunning(ScriptOf(role).snapshotting, ScriptOf(role).started);
      RunningIsLegal(role, env, before);
      assert OrchestrationPlan(role, deps.gateway, env) == RunningPlan(role, env, before);
      RunningEnds(role, deps, env, before);
    }
  }

  lemma RunningEnds(role: AgentRole, deps: Dependencies, env: Env, before: seq<Move>)
    requires Configured(role, deps) && (deps.gateway ==> env.fetch == Fetched)
    requires Legal(Leased, before) && LastStatus(Leased, before) == Running
    ensures var status := LastStatus(Leased, RunningPlan(role, env, before).0);
            StatusFits(role, deps, env, if status in TERMINAL_STATUSES then status else Failed)
  {
    hide ScriptOf, RunningPlan, EvaluatingPlan, Legal;
    RunningIsLegal(role, env, before);
    if !env.budgetRaises && env.model == Produced && !env.recordRaises {
      var m := ByWorker(Evaluating, ScriptOf(role).validated);
      LegalMore(Leased, before, m);
      EvaluatingIsLegal(role, env, before + [m]);
    }
  }

  lemma AttemptEnds(run: Run, worker: string, deps: Dependencies, env: Env)
    requires run.status == Leased
    ensures StatusFits(run.role, deps, env, LastStatus(Leased, AttemptPlan(run, worker, deps, env).0))
  {
    if Configured(run.role, deps) {
      OrchestrationIsLegal(run.role, deps.gateway, env);
      OrchestrationEnds(run.role, deps, env);
    }
    hide OrchestrationPlan, Legal;
  }

  lemma LeasedToRunning(snapshotting: string, started: string)
    ensures var moves := [ByWorker(Snapshotting, snapshotting)] + [ByWorker(Running, started)];
            Legal(Leased, moves) && LastStatus(Leased, moves) == Running
  {
    OrchestrationStarts();
    LegalMore(Leased, [], ByWorker(Snapshotting, snapshotting));
    assert [] + [ByWorker(Snapshotting, snapshotting)] == [ByWorker(Snapshotting, snapshotting)];
    LegalMore(Leased, [ByWorker(Snapshotting, snapshotting)], ByWorker(Running, started));
  }

  /** The status an attempt leaves a leased run in. */
  predicate StatusFits(role: AgentRole, deps: Dependencies, env: Env, status: RunStatus) {
    var configured := deps.model && (deps.gateway || role != Scout);
    var answered := configured && (!deps.gateway || env.fetch == Fetched) && !env.budgetRaises;
    var stored := answered && env.model == Produced && !env.recordRaises && !env.storeRaises;
    var refusedByCi := role == Ci && (if env.requiresRefusal then !env.refusalRaises else env.patchProposed);
    && (status == Succeeded <==> stored && !env.blocked && !(role == Ci && (env.requiresRefusal || env.patchProposed)))
    && (status == BudgetExhausted <==> answered && env.model == OutOfBudget && !env.errorRaises)
    && (status == Refused <==>
          || (configured && deps.gateway && env.fetch == Unavailable)
          || (answered && env.model == InvalidOutput && !env.errorRaises)
          || (stored && (env.blocked || refusedByCi)))
    && status in {Succeeded, BudgetExhausted, Refused, Failed}
  }

  /** What a holder's attempt on a leased run comes to: success, budget and refusal exactly as named, else failure. */
  lemma AttemptStatus(db: Db, id: nat, worker: string, deps: Dependencies, env: Env, now: int)
    requires id < |db.runs| && db.runs[id].status == Leased && HoldsLease(db, id, worker)
    ensures var (db', result) := Attempted(db, id, worker, deps, env, false, now);
            result == Returned(true) && |db'.runs| == |db.runs| && StatusFits(db.runs[id].role, deps, env, db'.runs[id].status)
  {
    var run := db.runs[id];
    var (moves, raised) := AttemptPlan(run, worker, deps, env);
    AttemptIsLegal(run, worker, deps, env);
    LegalMovesSucceed(db, id, moves, now);
    AttemptEnds(run, worker, deps, env);
    hide Moved, AttemptPlan, Legal;
  }

  /** The reason codes a role's successful attempt leaves in the log. */
  function SuccessReasons(role: AgentRole): seq<string> {
    match role
    case Scout => ["snapshot_policy_checked", "scout_started", "scout_output_validated", "scout_artifact_stored"]
    case Assessor => ["diff_policy_checked", "assessor_started", "risk_output_validated", "risk_artifact_stored"]
    case Ci => ["check_evidence_policy_checked", "ci_diagnosis_started", "ci_diagnosis_validated", "ci_diagnosis_stored"]
  }

  lemma SuccessMoves(run: Run, worker: string, deps: Dependencies, env: Env)
    requires run.status == Leased && LastStatus(Leased, AttemptPlan(run, worker, deps, env).0) == Succeeded
    ensures var reasons := SuccessReasons(run.role);
            AttemptPlan(run, worker, deps, env).0
            == [ByWorker(Snapshotting, reasons[0]), ByWorker(Running, reasons[1]), ByWorker(Evaluating, reasons[2]), ByWorker(Succeeded, reasons[3])]
  {
    AttemptEnds(run, worker, deps, env);
    var script := ScriptOf(run.role);
    var three := [ByWorker(Snapshotting, script.snapshotting)] + [ByWorker(Running, script.started)] + [ByWorker(Evaluating, script.validated)];
    assert EvaluatingPlan(run.role, env, three) == (three + [ByWorker(Succeeded, script.stored)], false);
    assert DispatchPlan(run, worker, deps, env) == (three + [ByWorker(Succeeded, script.stored)], false);
  }

  lemma FourRecords(db: Db, id: nat, moves: seq<Move>, db': Db)
    requires |moves| == 4 && Effect(db, id, moves, db')
    ensures db'.transitions
         == db.transitions + [Transition(id, Some(db.runs[id].status), moves[0].target, moves[0].reason, moves[0].actor),
                              Transition(id, Some(moves[0].target), moves[1].target, moves[1].reason, moves[1].actor),
                              Transition(id, Some(moves[1].target), moves[2].target, moves[2].reason, moves[2].actor),
                              Transition(id, Some(moves[2].target), moves[3].target, moves[3].reason, moves[3].actor)]
  {
    var n := |db.transitions|;
    assert db'.transitions[n + 0] == Record(id, db.runs[id].status, moves, 0) && db'.transitions[n + 1] == Record(id, db.runs[id].status, moves, 1);
    assert db'.transitions[n + 2] == Record(id, db.runs[id].status, moves, 2) && db'.transitions[n + 3] == Record(id, db.runs[id].status, moves, 3);
  }

  /** A successful attempt is logged as its four transitions, with the role's reason codes. */
  lemma SuccessIsLogged(db: Db, id: nat, worker: string, deps: Dependencies, env: Env, now: int)
    requires id < |db.runs| && db.runs[id].status == Leased && HoldsLease(db, id, worker)
    requires var db' := Attempted(db, id, worker, deps, env, false, now).0; id < |db'.runs| && db'.runs[id].status == Succeeded
    ensures var reasons := SuccessReasons(db.runs[id].role);
            Attempted(db, id, worker, deps, env, false, now).0.transitions
            == db.transitions + [Transition(id, Some(Leased), Snapshotting, reasons[0], "worker"), Transition(id, Some(Snapshotting), Running, reasons[1], "worker"),
                                 Transition(id, Some(Running), Evaluating, reasons[2], "worker"), Transition(id, Some(Evaluating), Succeeded, reasons[3], "worker")]
  {
    var (moves, raised) := AttemptPlan(db.runs[id], worker, deps, env);
    AttemptIsLegal(db.runs[id], worker, deps, env);
    LegalMovesSucceed(db, id, moves, now);
    hide AttemptPlan, Moved, Legal, SuccessReasons;
    var db' := Moved(db, id, moves, now).value;
    assert db'.runs[id].status == LastStatus(Leased, moves);
    hide Effect;
    SuccessMoves(db.runs[id], worker, deps, env);
    FourRecords(db, id, moves, db');
  }

  /** The last transition of an attempt on a leased run: success, or what the first thing that goes wrong leads to. */
  function LastMove(role: AgentRole, deps: Dependencies, env: Env, worker: string): Move {
    var unexpected := Move(Failed, "unexpected_worker_error", worker);
    if !deps.model || (role == Scout && !deps.gateway) then Move(Failed, "worker_role_not_configured", worker)
    else if deps.gateway && env.fetch == Unavailable then Move(Refused, "snapshot_unavailable", "worker")
    else if (deps.gateway && env.fetch == FetchRaises) || env.budgetRaises then unexpected
    else if env.model != Produced then
      if env.errorRaises then unexpected
      else if env.model == OutOfBudget then Move(BudgetExhausted, "budget_exhausted", "worker")
      else if env.model == InvalidOutput then
        Move(Refused, match role case Scout => "invalid_model_output" case Assessor => "invalid_risk_output" case Ci => "invalid_ci_output", "worker")
      else Move(Failed, "model_gateway_failure", "worker")
    else if env.recordRaises || env.storeRaises then unexpected
    else if env.blocked then Move(Refused, "artifact_secret_detection", "worker")
    else if role == Ci && env.requiresRefusal then
      if env.refusalRaises then unexpected else Move(Refused, "ci_" + env.failureClass + "_failure", "worker")
    else if role == Ci && env.patchProposed then Move(Refused, "ci_patch_requires_deterministic_executor_evidence", "worker")
    else Move(Succeeded, SuccessReasons(role)[3], "worker")
  }

  lemma PlanEnds(run: Run, worker: string, deps: Dependencies, env: Env)
    requires run.status == Leased
    ensures var moves := AttemptPlan(run, worker, deps, env).0; moves != [] && moves[|moves| - 1] == LastMove(run.role, deps, env, worker)
  {
    if Configured(run.role, deps) {
      OrchestrationIsLegal(run.role, deps.gateway, env);
    }
    hide Legal;
  }

  /** The log of a finished attempt on a leased run ends with that transition. */
  lemma EndIsLogged(db: Db, id: nat, worker: string, deps: Dependencies, env: Env, now: int)
    requires id < |db.runs| && db.runs[id].status == Leased && HoldsLease(db, id, worker)
    ensures var log, m := Attempted(db, id, worker, deps, env, false, now).0.transitions, LastMove(db.runs[id].role, deps, env, worker);
            && |log| > |db.transitions| && db.transitions <= log
            && var last := log[|log| - 1]; last == Transition(id, last.source, m.target, m.reason, m.actor)
  {
    var (moves, raised) := AttemptPlan(db.runs[id], worker, deps, env);
    PlanEnds(db.runs[id], worker, deps, env);
    AttemptIsLegal(db.runs[id], worker, deps, env);
    LegalMovesSucceed(db, id, moves, now);
    hide AttemptPlan, Moved, Legal, LastMove;
    var db' := Moved(db, id, moves, now).value;
    assert db'.transitions[|db.transitions| + (|moves| - 1)] == Record(id, Leased, moves, |moves| - 1);
  }

  // ---- The code -----------------------------------------------------------------------------------------------

  /** A transition of this attempt; `moves` are the ones it has made since `start`. */
  method Advance(s: Session, id: nat, target: RunStatus, reason: string, actor: string, now: int, ghost start: Db, ghost moves: seq<Move>)
    returns (ghost more: seq<Move>)
    requires id < |start.runs| && Moved(start, id, moves, now) == Some(s.State())
    requires target in AllowedTransitions(s.runs[id].status)
    modifies s
    ensures more == moves + [Move(target, reason, actor)]
    ensures Moved(start, id, more, now) == Some(s.State()) && s.runs[id].status == target
  {
    MovedMore(start, id, moves, Move(target, reason, actor), now);
    more := moves + [Move(target, reason, actor)];
    var ok := s.TransitionRun(id, target, reason, actor, now);
  }

  /** `orchestrate_scout`, `orchestrate_assessor` and `orchestrate_ci`, which differ in reason codes and CI's last steps. */
  method Orchestrate(s: Session, id: nat, role: AgentRole, gateway: bool, env: Env, now: int) returns (raised: bool)
    requires id < |s.runs|
    modifies s
    ensures var (moves, r) := if old(s.runs[id].role == role && s.runs[id].status == Leased) then OrchestrationPlan(role, gateway, env) else ([], true);
            Moved(old(s.State()), id, moves, now) == Some(s.State()) && raised == r
  {
    hide Moved, ScriptOf, RunningPlan, EvaluatingPlan;
    ghost var start := s.State();
    ghost var moves: seq<Move> := [];
    NoMoves(start, id, now);
    if s.runs[id].role != role || s.runs[id].status != Leased { return true; }
    moves := Advance(s, id, Snapshotting, ScriptOf(role).snapshotting, "worker", now, start, moves);
    assert moves == [ByWorker(Snapshotting, ScriptOf(role).snapshotting)];
    if gateway {
      if env.fetch == FetchRaises { return true; }
      if env.fetch == Unavailable {
        moves := Advance(s, id, Refused, "snapshot_unavailable", "worker", now, start, moves);
        return false;
      }
    }
    moves := Advance(s, id, Running, ScriptOf(role).started, "worker", now, start, moves);
    raised, moves := RunAndStore(s, id, role, env, now, start, moves);
  }

  /** The second half of a role function, from the budget to the last transition. */
  method RunAndStore(s: Session, id: nat, role: AgentRole, env: Env, now: int, ghost start: Db, ghost before: seq<Move>)
    returns (raised: bool, ghost moves: seq<Move>)
    requires id < |start.runs| && Moved(start, id, before, now) == Some(s.State()) && s.runs[id].status == Running
    modifies s
    ensures Moved(start, id, moves, now) == Some(s.State())
    ensures (moves, raised) == RunningPlan(role, env, before)
  {
    hide Moved, ScriptOf;
    moves := before;
    if env.budgetRaises { return true, moves; }
    if env.model != Produced {
      if env.errorRaises { return true, moves; }
      if env.model == OutOfBudget {
        moves := Advance(s, id, BudgetExhausted, "budget_exhausted", "worker", now, start, moves);
      } else if env.model == InvalidOutput {
        moves := Advance(s, id, Refused, ScriptOf(role).invalid, "worker", now, start, moves);
      } else {
        moves := Advance(s, id, Failed, "model_gateway_failure", "worker", now, start, moves);
      }
      return env.recordRaises, moves;
    }
    if env.recordRaises { return true, moves; }
    moves := Advance(s, id, Evaluating, ScriptOf(role).validated, "worker", now, start, moves);
    if env.storeRaises { return true, moves; }
    if env.blocked {
      moves := Advance(s, id, Refused, "artifact_secret_detection", "worker", now, start, moves);
      return false, moves;
    }
    if role == Ci {
      if env.requiresRefusal {
        if env.refusalRaises { return true, moves; }
        moves := Advance(s, id, Refused, "ci_" + env.failureClass + "_failure", "worker", now, start, moves);
        return false, moves;
      }
      if env.patchProposed {
        moves := Advance(s, id, Refused, "ci_patch_requires_deterministic_executor_evidence", "worker", now, start, moves);
        return false, moves;
      }
    }
    moves := Advance(s, id, Succeeded, ScriptOf(role).stored, "worker", now, start, moves);
    raised := false;
  }

  lemma NoMoves(db: Db, id: nat, now: int)
    requires id < |db.runs|
    ensures Moved(db, id, [], now) == Some(db)
  {
  }

  method DispatchRun(s: Session, id: nat, worker: string, deps: Dependencies, env: Env, now: int) returns (raised: bool)
    requires id < |s.runs|
    modifies s
    ensures var (moves, r) := DispatchPlan(old(s.runs[id]), worker, deps, env);
            Moved(old(s.State()), id, moves, now) == Some(s.State()) && raised == r
  {
    hide OrchestrationPlan;
    var role := s.runs[id].role;
    if role == Scout && deps.model && deps.gateway {
      raised := Orchestrate(s, id, Scout, deps.gateway, env, now);
    } else if role == Assessor && deps.model {
      raised := Orchestrate(s, id, Assessor, deps.gateway, env, now);
    } else if role == Ci && deps.model {
      raised := Orchestrate(s, id, Ci, deps.gateway, env, now);
    } else {
      NoMoves(s.State(), id, now);
      MovedMore(s.State(), id, [], Move(Failed, "worker_role_not_configured", worker), now);
      var ok := s.TransitionRun(id, Failed, "worker_role_not_configured", worker, now);
      raised := !ok;
    }
  }

  /** One transaction: dispatch, heartbeat exit, release, and a commit or a rollback of the whole attempt. */
  method ProcessClaimedRun(s: Session, id: nat, worker: string, deps: Dependencies, env: Env, lost: bool, now: int)
    returns (result: AttemptResult)
    modifies s
    ensures (s.State(), result) == Attempted(old(s.State()), id, worker, deps, env, lost, now)
  {
    hide DispatchPlan, Moved;
    if id >= |s.runs| { return Returned(false); }
    var begun := Db(s.runs, s.transitions, s.leases, s.links, s.events, s.eventRuns);
    AttemptIsLegal(s.runs[id], worker, deps, env);
    ghost var moves := DispatchPlan(s.runs[id], worker, deps, env).0;
    MovesEnd(begun, id, moves, now);
    var raised := DispatchRun(s, id, worker, deps, env, now);
    if raised && s.runs[id].status !in TERMINAL_STATUSES {
      MovedMore(begun, id, moves, Move(Failed, "unexpected_worker_error", worker), now);
      var ok := s.TransitionRun(id, Failed, "unexpected_worker_error", worker, now);
      if !ok {
        s.Rollback(begun);
        return Raised;
      }
    }
    if lost {
      s.Rollback(begun);
      return Returned(false);
    }
    var released := s.ReleaseLease(id, worker);
    if !released {
      s.Rollback(begun);
      return Returned(false);
    }
    result := Returned(true);
  }

  lemma {:induction false} MovesEnd(db: Db, id: nat, moves: seq<Move>, now: int)
    requires id < |db.runs|
    ensures var r := Moved(db, id, moves, now); r.Some? ==> r.value.runs[id].status == LastStatus(db.runs[id].status, moves)
  {
  }
}
