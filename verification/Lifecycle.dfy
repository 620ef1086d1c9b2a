/**
 * The service as a step relation: intake, claims, heartbeats, attempts, cancellation and time over the
 * committed database (src/agentic_lab/api/app.py, src/agentic_lab/runs/worker.py,
 * src/agentic_lab/runs/leases.py, src/agentic_lab/runs/heartbeat.py).
 */
module Lifecycle {
  import opened Wrappers
  import opened RunStatuses
  import opened RunStore
  import Orchestrator
  import Intake

  /** A worker's attempt; `token` is the lease's attempt count when the worker got it. */
  datatype Attempt = Attempt(runId: nat, token: nat, begun: bool, lost: bool)

  datatype Commit = Commit(runId: nat, worker: string, token: nat)

  /** The committed rows, the clock, the attempts by worker, and the attempts that have committed. */
  datatype State = State(db: Db, now: int, attempts: map<string, Attempt>, committed: seq<Commit>)

  const INITIAL := State(EMPTY, 0, map[], [])

  datatype Step =
    | Tick(to: int)
    | Create(role: AgentRole, repositoryId: int, pinnedSha: string)
    | Deliver(settings: Intake.Settings, delivery: Intake.Delivery)
    | Cancel(id: nat)
    | Claim(worker: string, id: nat, seconds: int)     // any queued run: locked rows are skipped
    | Reclaim(worker: string, id: nat, seconds: int)   // any expired lease of a leased run, likewise
    | Begin(worker: string)
    | Heartbeat(worker: string, seconds: int)
    | HeartbeatFails(worker: string)
    | Finish(worker: string, deps: Orchestrator.Dependencies, env: Orchestrator.Env)
    | Vanish(worker: string)

  /** The worker is inside its transaction and can still commit it. */
  ghost predicate InFlight(s: State, worker: string, id: nat) {
    && worker in s.attempts && s.attempts[worker].begun && !s.attempts[worker].lost && s.attempts[worker].runId == id
    && HoldsLease(s.db, id, worker)
  }

  /** Updates of a run row are serialized: none commits while an attempt that can commit has read the row. */
  ghost predicate Serialized(s: State, db': Db) {
    forall worker, id: nat | InFlight(s, worker, id) && id < |s.db.runs| && id < |db'.runs| :: db'.runs[id] == s.db.runs[id]
  }

  /** `None` for a step that cannot happen. */
  ghost function Next(s: State, step: Step): Option<State> {
    match step
    case Tick(to) => if s.now <= to then Some(s.(now := to)) else None
    case Create(role, repositoryId, pinnedSha) =>
      Some(s.(db := CreatedQueued(s.db, role, repositoryId, pinnedSha, "operator", s.now)))
    case Deliver(settings, delivery) =>
      var db' := Intake.Processed(s.db, settings, delivery, s.now);
      if Serialized(s, db') then Some(s.(db := db')) else None
    case Cancel(id) =>
      if id >= |s.db.runs| then None
      else
        var db' :- Transitioned(s.db, id, Cancelled, "operator_cancelled", "operator", s.now);
        if Serialized(s, db') then Some(s.(db := db')) else None
    case Claim(worker, id, seconds) =>
      if worker in s.attempts || id >= |s.db.runs| || s.db.runs[id].status != Queued then None
      else if id in s.db.leases then Some(s)  // the insert of the lease row fails and the claim is rolled back
      else Some(s.(db := Claimed(s.db, id, worker, s.now, seconds).value, attempts := s.attempts[worker := Attempt(id, 1, false, false)]))
    case Reclaim(worker, id, seconds) =>
      if worker in s.attempts || !Expired(s.db, id, s.now) || id >= |s.db.runs| || s.db.runs[id].status != Leased then None
      else Some(s.(db := Reclaimed(s.db, id, worker, s.now, seconds),
                   attempts := s.attempts[worker := Attempt(id, s.db.leases[id].attempt + 1, false, false)]))
    case Begin(worker) =>
      if worker !in s.attempts then None else Some(s.(attempts := s.attempts[worker := s.attempts[worker].(begun := true)]))
    case Heartbeat(worker, seconds) =>
      if worker !in s.attempts || !s.attempts[worker].begun then None
      else
        var renewed := Renewed(s.db, s.attempts[worker].runId, worker, s.now, seconds);
        if renewed.Some? then Some(s.(db := renewed.value))
        else Some(s.(attempts := s.attempts[worker := s.attempts[worker].(lost := true)]))
    case HeartbeatFails(worker) =>
      if worker !in s.attempts || !s.attempts[worker].begun then None
      else Some(s.(attempts := s.attempts[worker := s.attempts[worker].(lost := true)]))
    case Finish(worker, deps, env) =>
      if worker !in s.attempts || !s.attempts[worker].begun then None
      else
        var a := s.attempts[worker];
        var (db', result) := Orchestrator.Attempted(s.db, a.runId, worker, deps, env, a.lost, s.now);
        Some(s.(db := db', attempts := s.attempts - {worker},
                committed := if result == Orchestrator.Returned(true) then s.committed + [Commit(a.runId, worker, a.token)] else s.committed))
    case Vanish(worker) => Some(s.(attempts := s.attempts - {worker}))
  }

  /** The state after the steps; `None` if one of them cannot happen. */
  ghost function After(s: State, steps: seq<Step>): Option<State> {
    if steps == [] then Some(s)
    else
      var before :- After(s, steps[..|steps| - 1]);
      Next(before, steps[|steps| - 1])
  }

  // ---- The invariant ------------------------------------------------------------------------------------------

  ghost predicate LeasesFit(db: Db) {
    && (forall id | id in db.leases :: id < |db.runs|)
    && (forall id | 0 <= id < |db.runs| :: db.runs[id].status in {Queued, Leased} + TERMINAL_STATUSES)
    && (forall id | 0 <= id < |db.runs| && db.runs[id].status == Queued :: id !in db.leases)
    && (forall id | 0 <= id < |db.runs| && db.runs[id].status == Leased :: id in db.leases)
  }

  predicate Clash(a: RunStore.Run, b: RunStore.Run) {
    && a.role == Ci && b.role == Ci && a.repositoryId == b.repositoryId && a.pullNumber == b.pullNumber && a.pullNumber.Some?
    && a.pinnedSha == b.pinnedSha && a.status !in {Superseded, Cancelled} && b.status !in {Superseded, Cancelled}
  }

  ghost predicate CiUnique(db: Db) {
    forall i, j | 0 <= i < j < |db.runs| :: !Clash(db.runs[i], db.runs[j])
  }

  ghost predicate LinksForward(db: Db) {
    forall k | 0 <= k < |db.links| :: db.links[k].source < db.links[k].target < |db.runs|
  }

  ghost predicate DeliveriesUnique(db: Db) {
    && (forall i, j | 0 <= i < j < |db.events| :: db.events[i].deliveryId != db.events[j].deliveryId)
    && (forall i, j | 0 <= i < j < |db.eventRuns| :: db.eventRuns[i].0 != db.eventRuns[j].0)
    && (forall i | 0 <= i < |db.eventRuns| :: db.eventRuns[i].1 < |db.runs| && Intake.Seen(db, db.eventRuns[i].0))
  }

  ghost predicate DbOk(db: Db) {
    AuditOk(db) && LeasesFit(db) && CiUnique(db) && LinksForward(db) && DeliveriesUnique(db)
  }

  /** An attempt's token is at most its lease's, and equal exactly while the worker holds the lease. */
  ghost predicate AttemptOk(db: Db, worker: string, a: Attempt) {
    && a.runId < |db.runs| && db.runs[a.runId].status != Queued
    && (a.runId in db.leases ==>
          && a.token <= db.leases[a.runId].attempt
          && (a.token == db.leases[a.runId].attempt <==> db.leases[a.runId].workerId == worker))
  }

  ghost predicate AttemptsOk(s: State) {
    forall worker | worker in s.attempts :: AttemptOk(s.db, worker, s.attempts[worker])
  }

  /** A run has committed at most one attempt, and then is over and has no lease. */
  ghost predicate CommitsOk(s: State) {
    && (forall i, j | 0 <= i < j < |s.committed| :: s.committed[i].runId != s.committed[j].runId)
    && (forall i | 0 <= i < |s.committed| ::
          var id := s.committed[i].runId;
          id < |s.db.runs| && s.db.runs[id].status in TERMINAL_STATUSES && id !in s.db.leases)
  }

  ghost predicate Inv(s: State) {
    DbOk(s.db) && AttemptsOk(s) && CommitsOk(s)
  }

  /** What no step undoes: runs keep their identity, ended runs their row, and links and events their place. */
  predicate Later(a: RunStore.Run, b: RunStore.Run) {
    && b == a.(status := b.status, terminalAt := b.terminalAt)
    && (a.status in TERMINAL_STATUSES ==> b == a) && (b.status == Queued ==> a.status == Queued)
  }

  ghost predicate Evolves(db: Db, db': Db) {
    && |db.runs| <= |db'.runs| && (forall id | 0 <= id < |db.runs| :: Later(db.runs[id], db'.runs[id]))
    && db.links <= db'.links && db.events <= db'.events && db.eventRuns <= db'.eventRuns
  }

  // ---- The database keeps its invariant ------------------------------------------------------------------------

  lemma EvolvesOn(a: Db, b: Db, c: Db)
    requires Evolves(a, b) && Evolves(b, c)
    ensures Evolves(a, c)
  {
    forall id | 0 <= id < |a.runs|
      ensures Later(a.runs[id], c.runs[id])
    {
      assert Later(a.runs[id], b.runs[id]) && Later(b.runs[id], c.runs[id]);
    }
  }

  lemma CiStaysUnique(db: Db, db': Db)
    requires CiUnique(db) && Evolves(db, db')
    requires forall i, j | 0 <= i < j < |db'.runs| && |db.runs| <= j :: !Clash(db'.runs[i], db'.runs[j])
    ensures CiUnique(db')
  {
    forall i, j | 0 <= i < j < |db'.runs|
      ensures !Clash(db'.runs[i], db'.runs[j])
    {
      if j < |db.runs| {
        assert !Clash(db.runs[i], db.runs[j]);
        assert Later(db.runs[i], db'.runs[i]) && Later(db.runs[j], db'.runs[j]);
      }
    }
  }

  /** A transition to an ended status keeps the invariant. */
  lemma EndedOk(db: Db, id: nat, target: RunStatus, reason: string, actor: string, now: int)
    requires DbOk(db) && id < |db.runs| && target in TERMINAL_STATUSES
    requires Transitioned(db, id, target, reason, actor, now).Some?
    ensures var db' := Transitioned(db, id, target, reason, actor, now).value;
            DbOk(db') && Evolves(db, db') && db'.leases == db.leases
  {
    var db' := Transitioned(db, id, target, reason, actor, now).value;
    TransitionAudited(db, id, target, reason, actor, now);
    TransitionsDescend(db.runs[id].status, target);
    hide AuditOk, AllowedTransitions;
    assert Evolves(db, db');
    CiStaysUnique(db, db');
  }

  lemma {:induction false} SupersededOk(db: Db, n: nat, repositoryId: int, pullNumber: int, newerSha: string, actor: string, now: int)
    requires DbOk(db) && n <= |db.runs|
    ensures var db' := SupersededUpTo(db, n, repositoryId, pullNumber, newerSha, actor, now);
            DbOk(db') && Evolves(db, db') && db'.leases == db.leases
  {
    hide DbOk, AllowedTransitions;
    if n > 0 {
      SupersededOk(db, n - 1, repositoryId, pullNumber, newerSha, actor, now);
      var before := SupersededUpTo(db, n - 1, repositoryId, pullNumber, newerSha, actor, now);
      if Supersedable(db.runs[n - 1], repositoryId, pullNumber, newerSha) {
        EndedOk(before, n - 1, Superseded, "newer_human_head_sha", actor, now);
        EvolvesOn(db, before, Transitioned(before, n - 1, Superseded, "newer_human_head_sha", actor, now).value);
      }
    }
  }

  /** A new queued run, with its pull request if it has one. */
  function Spawned(db: Db, role: AgentRole, repositoryId: int, pinnedSha: string, pullNumber: Option<int>, checkRunId: Option<int>,
                   actor: string, now: int): Db {
    Intake.Located(CreatedQueued(db, role, repositoryId, pinnedSha, actor, now), |db.runs|, pullNumber, checkRunId)
  }

  lemma SpawnedOk(db: Db, role: AgentRole, repositoryId: int, pinnedSha: string, pullNumber: Option<int>, checkRunId: Option<int>,
                  actor: string, now: int)
    requires DbOk(db)
    requires role == Ci && pullNumber.Some? ==>
               forall i | 0 <= i < |db.runs| :: !Intake.IsLiveCi(db.runs[i], repositoryId, pullNumber.value, pinnedSha)
    ensures var db' := Spawned(db, role, repositoryId, pinnedSha, pullNumber, checkRunId, actor, now);
            DbOk(db') && Evolves(db, db') && |db'.runs| == |db.runs| + 1 && db'.leases == db.leases
  {
    var created := CreatedQueued(db, role, repositoryId, pinnedSha, actor, now);
    var db' := Spawned(db, role, repositoryId, pinnedSha, pullNumber, checkRunId, actor, now);
    CreationAudited(db, role, repositoryId, pinnedSha, actor, now);
    SameAudit(created, db');
    hide AuditOk;
    var run := db'.runs[|db.runs|];
    assert db' == db.(runs := db.runs + [run], transitions := db'.transitions);
    assert run.role == role && run.repositoryId == repositoryId && run.pullNumber == pullNumber && run.pinnedSha == pinnedSha && run.status == Queued;
    SpawnedRest(db, db', run);
  }

  lemma SpawnedRest(db: Db, db': Db, run: RunStore.Run)
    requires LeasesFit(db) && CiUnique(db) && LinksForward(db) && DeliveriesUnique(db) && run.status == Queued
    requires run.role == Ci && run.pullNumber.Some? ==>
               forall i | 0 <= i < |db.runs| :: !Intake.IsLiveCi(db.runs[i], run.repositoryId, run.pullNumber.value, run.pinnedSha)
    requires db' == db.(runs := db.runs + [run], transitions := db'.transitions)
    ensures LeasesFit(db') && CiUnique(db') && LinksForward(db') && DeliveriesUnique(db') && Evolves(db, db')
  {
    assert Evolves(db, db');
    forall i, j | 0 <= i < j < |db'.runs| && |db.runs| <= j
      ensures !Clash(db'.runs[i], db'.runs[j])
    {
      if run.role == Ci && run.pullNumber.Some? {
        assert !Intake.IsLiveCi(db.runs[i], run.repositoryId, run.pullNumber.value, run.pinnedSha);
      }
    }
    CiStaysUnique(db, db');
  }

  /** Links to the newest run from older ones. */
  lemma LinkedOk(db: Db, links: seq<Link>)
    requires DbOk(db) && forall k | 0 <= k < |links| :: links[k].source < links[k].target < |db.runs|
    ensures var db' := db.(links := db.links + links); DbOk(db') && Evolves(db, db')
  {
    var db' := db.(links := db.links + links);
    SameAudit(db, db');
    hide AuditOk;
    CiStaysUnique(db, db');
  }

  lemma AllLinkedOk(db: Db, ids: seq<nat>, target: nat)
    requires DbOk(db) && target < |db.runs| && forall k | 0 <= k < |ids| :: ids[k] < target
    ensures var db' := LinkedTo(db, ids, target);
            DbOk(db') && Evolves(db, db') && db'.leases == db.leases && db'.runs == db.runs
  {
    hide DbOk, LinkedTo;
    Intake.LinksAppended(db, ids, target);
    var db' := LinkedTo(db, ids, target);
    var links := db'.links[|db.links|..];
    assert forall k | 0 <= k < |ids| :: links[k] == db'.links[|db.links| + k] == Link(ids[k], target, "superseded_by");
    assert db'.links == db.links + links;
    LinkedOk(db, links);
  }

  lemma SupersedingOk(db: Db, repositoryId: int, sha: string, number: Option<int>, supersede: bool, now: int)
    requires DbOk(db) && (supersede ==> number.Some?)
    ensures
      var id := |db.runs|;
      var db1 := if supersede then SupersededUpTo(db, id, repositoryId, number.value, sha, "github_webhook", now) else db;
      var ids := if supersede then SupersededIds(db, id, repositoryId, number.value, sha) else [];
      |db1.runs| == id &&
      var db' := LinkedTo(Spawned(db1, Assessor, repositoryId, sha, number, None, "github_webhook", now), ids, id);
      && DbOk(db') && Evolves(db, db') && db'.leases == db.leases && |db'.runs| == |db.runs| + 1
  {
    hide DbOk, SupersededUpTo, SupersededIds, CreatedQueued;
    var id := |db.runs|;
    var db1 := if supersede then SupersededUpTo(db, id, repositoryId, number.value, sha, "github_webhook", now) else db;
    var ids := if supersede then SupersededIds(db, id, repositoryId, number.value, sha) else [];
    var db2 := Spawned(db1, Assessor, repositoryId, sha, number, None, "github_webhook", now);
    if supersede {
      SupersededOk(db, id, repositoryId, number.value, sha, "github_webhook", now);
    }
    SpawnedOk(db1, Assessor, repositoryId, sha, number, None, "github_webhook", now);
    hide Spawned, Supersedable, Evolves;
    EvolvesOn(db, db1, db2);
    AllLinkedOk(db2, ids, id);
    EvolvesOn(db, db2, LinkedTo(db2, ids, id));
  }

  lemma PullRequestOk(db: Db, repositoryId: int, p: Intake.Payload, now: int)
    requires DbOk(db) && p.PullRequest?
    ensures var (db', r) := Intake.QueuePullRequest(db, repositoryId, p, now);
            && DbOk(db') && Evolves(db, db') && db'.leases == db.leases && (r.Ok? ==> r.value < |db'.runs|)
  {
    hide DbOk, Evolves, Intake.ValidSha, SupersededUpTo, SupersededIds, CreatedQueued, LinkedTo;
    if Intake.QueuePullRequest(db, repositoryId, p, now).1.Ok? {
      var number := if p.number.Some? && p.number.value >= 1 then p.number else None;
      SupersedingOk(db, repositoryId, p.headSha.value, number, number.Some? && !p.senderIsBot, now);
    } else {
      EvolvesNot(db);
    }
  }

  lemma EvolvesNot(db: Db)
    ensures Evolves(db, db)
  {
  }

  lemma CheckRunOk(db: Db, repositoryId: int, p: Intake.Payload, now: int)
    requires DbOk(db) && p.CheckRun?
    ensures var (db', r) := Intake.QueueCheckRun(db, repositoryId, p, now);
            && DbOk(db') && Evolves(db, db') && db'.leases == db.leases && (r.Ok? ==> r.value < |db'.runs|)
  {
    var (db', r) := Intake.QueueCheckRun(db, repositoryId, p, now);
    EvolvesNot(db);
    hide DbOk, Evolves, CreatedQueued, Intake.ValidSha, Intake.IsLiveCi, Intake.LatestAssessment, Intake.IsAssessment;
    if r.Ok? {
      var db1 := Spawned(db, Ci, repositoryId, p.headSha.value, p.number, p.checkRunId, "github_webhook", now);
      SpawnedOk(db, Ci, repositoryId, p.headSha.value, p.number, p.checkRunId, "github_webhook", now);
      if db' != db1 {
        var assessor := Intake.LatestAssessment(db.runs, |db.runs|, repositoryId, p.number.value, p.headSha.value);
        LinkedOk(db1, [Link(assessor.value, |db.runs|, "failed_check_after_assessment")]);
        EvolvesOn(db, db1, db');
      }
    }
  }

  lemma RecordedOk(db: Db, deliveryId: string, valid: bool, reason: Option<string>, queued: Option<nat>)
    requires DbOk(db) && !Intake.Seen(db, deliveryId) && (queued.Some? ==> queued.value < |db.runs|)
    ensures var recorded := Intake.Recorded(db, deliveryId, valid, reason);
            var db' := recorded.(eventRuns := db.eventRuns + if queued.Some? then [(deliveryId, queued.value)] else []);
            DbOk(db') && Evolves(db, db') && (queued.None? ==> recorded == db')
  {
    var recorded := Intake.Recorded(db, deliveryId, valid, reason);
    var db' := recorded.(eventRuns := db.eventRuns + if queued.Some? then [(deliveryId, queued.value)] else []);
    assert db.eventRuns + [] == db.eventRuns;
    SameAudit(db, db');
    hide AuditOk;
    CiStaysUnique(db, db');
    assert db'.events[|db.events|].deliveryId == deliveryId;
    forall i | 0 <= i < |db'.eventRuns|
      ensures db'.eventRuns[i].1 < |db'.runs| && Intake.Seen(db', db'.eventRuns[i].0)
    {
      if i < |db.eventRuns| {
        var k :| 0 <= k < |db.events| && db.events[k].deliveryId == db.eventRuns[i].0;
        assert db'.events[k].deliveryId == db'.eventRuns[i].0;
      }
    }
  }

  lemma ProcessedOk(db: Db, settings: Intake.Settings, d: Intake.Delivery, now: int)
    requires DbOk(db)
    ensures var db' := Intake.Processed(db, settings, d, now); DbOk(db') && Evolves(db, db') && db'.leases == db.leases
  {
    EvolvesNot(db);
    hide DbOk, Evolves, Intake.QueuePullRequest, Intake.QueueCheckRun;
    if !Intake.Seen(db, d.id) {
      if !d.signatureOk {
        RecordedOk(db, d.id, false, Some("invalid_signature"), None);
      } else if d.body.None? {
        RecordedOk(db, d.id, true, Some("invalid_json"), None);
      } else if settings.requireTargetManifest && (d.body.value.repositoryId.None? || d.body.value.repositoryId.value !in settings.manifests) {
        RecordedOk(db, d.id, true, Some("missing_target_manifest"), None);
      } else {
        var (db', r) := Intake.QueueWebhookRun(db, settings, d.body.value, now);
        var payload := d.body.value.payload;
        if payload.Some? && d.body.value.repositoryId.Some? {
          if payload.value.CheckRun? {
            CheckRunOk(db, d.body.value.repositoryId.value, payload.value, now);
          } else if payload.value.PullRequest? {
            PullRequestOk(db, d.body.value.repositoryId.value, payload.value, now);
          }
        }
        Intake.EventsUntouched(db, settings, d.body.value, now);
        RecordedOk(db', d.id, true, if r.Err? then Some(r.error) else None, if r.Ok? then Some(r.value) else None);
        EvolvesOn(db, db', Intake.Processed(db, settings, d, now));
      }
    }
  }

  // ---- Every step keeps the invariant ----------------------------------------------------------------------------

  /** A step that leaves the leases and the attempts alone. */
  lemma RowsOnly(s: State, s': State)
    requires Inv(s) && DbOk(s'.db) && Evolves(s.db, s'.db) && s'.db.leases == s.db.leases
    requires s'.attempts == s.attempts && s'.committed == s.committed
    ensures Inv(s')
  {
    hide DbOk;
    forall worker | worker in s'.attempts
      ensures AttemptOk(s'.db, worker, s'.attempts[worker])
    {
      var a := s.attempts[worker];
      assert AttemptOk(s.db, worker, a) && Later(s.db.runs[a.runId], s'.db.runs[a.runId]);
    }
    forall i | 0 <= i < |s.committed|
      ensures s'.db.runs[s.committed[i].runId] == s.db.runs[s.committed[i].runId]
    {
      assert Later(s.db.runs[s.committed[i].runId], s'.db.runs[s.committed[i].runId]);
    }
  }

  /** A claim of a queued run, which never finds a lease in its way. */
  lemma ClaimOk(s: State, worker: string, id: nat, seconds: int, s': State)
    requires Inv(s) && Next(s, Claim(worker, id, seconds)) == Some(s')
    ensures Inv(s') && Evolves(s.db, s'.db) && s'.db == Claimed(s.db, id, worker, s.now, seconds).value
  {
    TransitionAudited(s.db, id, Leased, "worker_claimed", worker, s.now);
    SameAudit(Transitioned(s.db, id, Leased, "worker_claimed", worker, s.now).value, s'.db);
    hide AuditOk;
    assert Evolves(s.db, s'.db);
    CiStaysUnique(s.db, s'.db);
    assert DeliveriesUnique(s'.db);
    ClaimRows(s, worker, id, seconds, s');
  }

  lemma ClaimRows(s: State, worker: string, id: nat, seconds: int, s': State)
    requires LeasesFit(s.db) && AttemptsOk(s) && CommitsOk(s) && Next(s, Claim(worker, id, seconds)) == Some(s')
    ensures AttemptsOk(s') && CommitsOk(s')
  {
    forall w | w in s'.attempts
      ensures AttemptOk(s'.db, w, s'.attempts[w])
    {
      if w in s.attempts {
        assert AttemptOk(s.db, w, s.attempts[w]);
      }
    }
  }

  lemma ReclaimOk(s: State, worker: string, id: nat, seconds: int, s': State)
    requires Inv(s) && Next(s, Reclaim(worker, id, seconds)) == Some(s')
    ensures Inv(s') && Evolves(s.db, s'.db)
  {
    LeasesOnly(s.db, s'.db);
    hide DbOk, Evolves;
    ReclaimRows(s, worker, id, seconds, s');
  }

  lemma ReclaimRows(s: State, worker: string, id: nat, seconds: int, s': State)
    requires AttemptsOk(s) && CommitsOk(s) && Next(s, Reclaim(worker, id, seconds)) == Some(s')
    ensures AttemptsOk(s') && CommitsOk(s')
  {
    forall w | w in s'.attempts
      ensures AttemptOk(s'.db, w, s'.attempts[w])
    {
      if w in s.attempts {
        assert AttemptOk(s.db, w, s.attempts[w]);
      }
    }
  }

  /** Rewriting rows of existing leases. */
  lemma LeasesOnly(db: Db, db': Db)
    requires DbOk(db) && db' == db.(leases := db'.leases)
    requires forall id :: id in db'.leases <==> id in db.leases
    ensures DbOk(db') && Evolves(db, db')
  {
    SameAudit(db, db');
  }

  lemma HeartbeatOk(s: State, worker: string, seconds: int, s': State)
    requires Inv(s) && Next(s, Heartbeat(worker, seconds)) == Some(s')
    ensures Inv(s') && Evolves(s.db, s'.db)
  {
    EvolvesNot(s.db);
    if s'.db == s.db {
      AttemptsChange(s, s');
    } else {
      LeasesOnly(s.db, s'.db);
      hide DbOk, Evolves;
      RenewedRows(s, s', s.attempts[worker].runId);
    }
  }

  lemma RenewedRows(s: State, s': State, id: nat)
    requires AttemptsOk(s) && CommitsOk(s) && s'.attempts == s.attempts && s'.committed == s.committed && s'.db.runs == s.db.runs
    requires id in s.db.leases && id in s'.db.leases && s'.db.leases == s.db.leases[id := s'.db.leases[id]]
    requires s'.db.leases[id].workerId == s.db.leases[id].workerId && s'.db.leases[id].attempt == s.db.leases[id].attempt
    ensures AttemptsOk(s') && CommitsOk(s')
  {
    forall w | w in s'.attempts
      ensures AttemptOk(s'.db, w, s'.attempts[w])
    {
      assert AttemptOk(s.db, w, s.attempts[w]);
    }
  }

  /** The database after a committed attempt. */
  lemma EndedAttemptOk(db: Db, db': Db, id: nat)
    requires DbOk(db) && id < |db.runs| && db.runs[id].status != Queued && AuditOk(db') && Orchestrator.RunEnded(db, id, db')
    ensures DbOk(db') && Evolves(db, db')
  {
    hide AuditOk;
    assert Evolves(db, db');
    CiStaysUnique(db, db');
  }

  lemma FinishOk(s: State, worker: string, deps: Orchestrator.Dependencies, env: Orchestrator.Env, s': State)
    requires Inv(s) && Next(s, Finish(worker, deps, env)) == Some(s')
    ensures Inv(s') && Evolves(s.db, s'.db)
  {
    hide Orchestrator.Attempted, DbOk, Evolves, AttemptsOk, CommitsOk;
    var a := s.attempts[worker];
    var (db', result) := Orchestrator.Attempted(s.db, a.runId, worker, deps, env, a.lost, s.now);
    assert s'.db == db' && s'.attempts == s.attempts - {worker};
    assert s'.committed == if result == Orchestrator.Returned(true) then s.committed + [Commit(a.runId, worker, a.token)] else s.committed;
    hide Next;
    EvolvesNot(s.db);
    FinishDbOk(s, worker, deps, env);
    if result == Orchestrator.Returned(true) {
      CommitRows(s, worker, s');
    } else {
      AttemptsChange(s, s');
    }
  }

  lemma FinishDbOk(s: State, worker: string, deps: Orchestrator.Dependencies, env: Orchestrator.Env)
    requires DbOk(s.db) && AttemptsOk(s) && worker in s.attempts
    ensures var a := s.attempts[worker];
            var (db', result) := Orchestrator.Attempted(s.db, a.runId, worker, deps, env, a.lost, s.now);
            if result == Orchestrator.Returned(true)
            then DbOk(db') && Evolves(s.db, db') && Orchestrator.RunEnded(s.db, a.runId, db') && a.runId in s.db.leases
            else db' == s.db
  {
    var a := s.attempts[worker];
    assert AttemptOk(s.db, worker, a) && AuditOk(s.db);
    Orchestrator.AttemptEndsLegally(s.db, a.runId, worker, deps, env, a.lost, s.now);
    hide Orchestrator.Attempted, Orchestrator.RunEnded, DbOk, Evolves, AuditOk;
    var (db', result) := Orchestrator.Attempted(s.db, a.runId, worker, deps, env, a.lost, s.now);
    if result == Orchestrator.Returned(true) {
      EndedAttemptOk(s.db, db', a.runId);
    }
  }

  lemma CommitRows(s: State, worker: string, s': State)
    requires AttemptsOk(s) && CommitsOk(s) && worker in s.attempts
    requires var id := s.attempts[worker].runId;
             && id in s.db.leases && Orchestrator.RunEnded(s.db, id, s'.db)
             && s'.attempts == s.attempts - {worker} && s'.committed == s.committed + [Commit(id, worker, s.attempts[worker].token)]
    ensures AttemptsOk(s') && CommitsOk(s')
  {
    forall w | w in s'.attempts
      ensures AttemptOk(s'.db, w, s'.attempts[w])
    {
      assert AttemptOk(s.db, w, s.attempts[w]);
    }
  }

  lemma StepOk(s: State, step: Step, s': State)
    requires Inv(s) && Next(s, step) == Some(s')
    ensures Inv(s') && Evolves(s.db, s'.db)
  {
    EvolvesNot(s.db);
    match step
    case Tick(to) => RowsOnly(s, s');
    case Create(role, repositoryId, pinnedSha) =>
      CreatedOk(s.db, role, repositoryId, pinnedSha, s.now);
      hide CreatedQueued;
      RowsOnly(s, s');
    case Deliver(settings, delivery) =>
      ProcessedOk(s.db, settings, delivery, s.now);
      hide Intake.Processed;
      RowsOnly(s, s');
    case Cancel(id) =>
      EndedOk(s.db, id, Cancelled, "operator_cancelled", "operator", s.now);
      hide Transitioned;
      RowsOnly(s, s');
    case Claim(worker, id, seconds) => ClaimOk(s, worker, id, seconds, s');
    case Reclaim(worker, id, seconds) => ReclaimOk(s, worker, id, seconds, s');
    case Heartbeat(worker, seconds) => HeartbeatOk(s, worker, seconds, s');
    case Finish(worker, deps, env) => FinishOk(s, worker, deps, env, s');
    case _ => AttemptsChange(s, s');
  }

  lemma CreatedOk(db: Db, role: AgentRole, repositoryId: int, pinnedSha: string, now: int)
    requires DbOk(db)
    ensures var db' := CreatedQueued(db, role, repositoryId, pinnedSha, "operator", now);
            DbOk(db') && Evolves(db, db') && db'.leases == db.leases
  {
    SpawnedOk(db, role, repositoryId, pinnedSha, None, None, "operator", now);
    hide DbOk;
    assert Spawned(db, role, repositoryId, pinnedSha, None, None, "operator", now)
        == CreatedQueued(db, role, repositoryId, pinnedSha, "operator", now);
  }

  /** Steps inside a worker: an attempt begins, loses its heartbeat or disappears. */
  lemma AttemptsChange(s: State, s': State)
    requires Inv(s) && s' == s.(attempts := s'.attempts)
    requires forall w | w in s'.attempts :: w in s.attempts && s'.attempts[w].runId == s.attempts[w].runId && s'.attempts[w].token == s.attempts[w].token
    ensures Inv(s')
  {
    hide DbOk;
    forall w | w in s'.attempts
      ensures AttemptOk(s'.db, w, s'.attempts[w])
    {
      assert AttemptOk(s.db, w, s.attempts[w]);
    }
  }

  lemma {:induction false} RunOk(s: State, steps: seq<Step>, s': State)
    requires Inv(s) && After(s, steps) == Some(s')
    ensures Inv(s') && Evolves(s.db, s'.db)
  {
    EvolvesNot(s.db);
    hide Inv, Evolves, Next;
    if steps != [] {
      var before := After(s, steps[..|steps| - 1]).value;
      RunOk(s, steps[..|steps| - 1], before);
      StepOk(before, steps[|steps| - 1], s');
      EvolvesOn(s.db, before.db, s'.db);
    }
  }

  lemma InitialOk()
    ensures Inv(INITIAL)
  {
  }

  // ---- Lease fencing -----------------------------------------------------------------------------------------------

  /** The lease generation `token` of this run is over: a later one exists, or the run has ended. */
  ghost predicate Fenced(s: State, id: nat, token: nat) {
    id < |s.db.runs| && if id in s.db.leases then token < s.db.leases[id].attempt else s.db.runs[id].status in TERMINAL_STATUSES
  }

  /** A worker that does not hold its run's lease has an attempt of an earlier generation, and conversely. */
  lemma NotHoldingIsFenced(s: State, worker: string)
    requires Inv(s) && worker in s.attempts
    ensures var a := s.attempts[worker]; !HoldsLease(s.db, a.runId, worker) <==> Fenced(s, a.runId, a.token)
  {
    assert AttemptOk(s.db, worker, s.attempts[worker]);
    hide AuditOk, CiUnique, LinksForward, DeliveriesUnique;
  }

  /** An attempt commits if and only if it never missed a renewal and still holds the lease; otherwise nothing changes. */
  lemma FinishCommitsIff(s: State, worker: string, deps: Orchestrator.Dependencies, env: Orchestrator.Env, s': State)
    requires Inv(s) && Next(s, Finish(worker, deps, env)) == Some(s')
    ensures var a := s.attempts[worker];
            if !a.lost && HoldsLease(s.db, a.runId, worker)
            then Orchestrator.RunEnded(s.db, a.runId, s'.db) && s'.committed == s.committed + [Commit(a.runId, worker, a.token)]
            else s'.db == s.db && s'.committed == s.committed
  {
    hide Orchestrator.Attempted, Orchestrator.RunEnded, DbOk, Evolves, AttemptsOk, CommitsOk;
    var a := s.attempts[worker];
    var (db', result) := Orchestrator.Attempted(s.db, a.runId, worker, deps, env, a.lost, s.now);
    assert s'.db == db';
    assert s'.committed == if result == Orchestrator.Returned(true) then s.committed + [Commit(a.runId, worker, a.token)] else s.committed;
    hide Next;
    AttemptedRunIsClaimed(s, worker);
    Orchestrator.AttemptEndsLegally(s.db, a.runId, worker, deps, env, a.lost, s.now);
    hide AuditOk, Inv;
  }

  lemma AttemptedRunIsClaimed(s: State, worker: string)
    requires Inv(s) && worker in s.attempts
    ensures var id := s.attempts[worker].runId; id < |s.db.runs| && s.db.runs[id].status in {Leased} + TERMINAL_STATUSES
  {
    assert AttemptOk(s.db, worker, s.attempts[worker]);
    hide AuditOk, CiUnique, LinksForward, DeliveriesUnique, CommitsOk;
  }

  ghost predicate StepOf(worker: string, step: Step) {
    match step
    case Begin(w) => w == worker
    case Heartbeat(w, _) => w == worker
    case HeartbeatFails(w) => w == worker
    case Finish(w, _, _) => w == worker
    case Vanish(w) => w == worker
    case _ => false
  }

  /** Whatever a fenced attempt does, the database does not notice. */
  lemma FencedHasNoEffect(s: State, worker: string, step: Step, s': State)
    requires Inv(s) && worker in s.attempts && Fenced(s, s.attempts[worker].runId, s.attempts[worker].token)
    requires StepOf(worker, step) && Next(s, step) == Some(s')
    ensures s'.db == s.db && s'.committed == s.committed
  {
    NotHoldingIsFenced(s, worker);
    if step.Finish? {
      FinishCommitsIff(s, worker, step.deps, step.env, s');
    }
    hide Inv;
  }

  /** Only claims, renewals and attempts write leases, and only attempts commit. */
  lemma LeasesStay(s: State, step: Step, s': State)
    requires Inv(s) && Next(s, step) == Some(s')
    ensures !step.Claim? && !step.Reclaim? && !step.Heartbeat? && !step.Finish? ==> s'.db.leases == s.db.leases
    ensures !step.Finish? ==> s'.committed == s.committed
  {
    hide Orchestrator.Attempted, Intake.Processed;
    if step.Deliver? {
      ProcessedOk(s.db, step.settings, step.delivery, s.now);
    }
    hide Inv, Serialized, Reclaimed, Renewed, Claimed;
  }

  lemma LeasesAge(s: State, step: Step, s': State, id: nat)
    requires id in s.db.leases && Next(s, step) == Some(s') && (step.Claim? || step.Reclaim? || step.Heartbeat?)
    ensures id in s'.db.leases && s.db.leases[id].attempt <= s'.db.leases[id].attempt
  {
  }

  lemma FencedStays(s: State, step: Step, s': State, id: nat, token: nat)
    requires Inv(s) && Fenced(s, id, token) && Next(s, step) == Some(s')
    ensures Fenced(s', id, token) && s.committed <= s'.committed
    ensures forall k | |s.committed| <= k < |s'.committed| :: !(s'.committed[k].runId == id && s'.committed[k].token == token)
  {
    if step.Finish? {
      FencedAtFinish(s, step.worker, step.deps, step.env, s', id, token);
    } else {
      StepOk(s, step, s');
      LeasesStay(s, step, s');
      hide Inv;
      assert Later(s.db.runs[id], s'.db.runs[id]) by { hide Next; }
      hide Evolves;
      if id !in s.db.leases {
        NoLeaseStays(s, step, s', id);
      } else if step.Claim? || step.Reclaim? || step.Heartbeat? {
        LeasesAge(s, step, s', id);
      }
      hide Next;
    }
  }

  lemma FencedAtFinish(s: State, worker: string, deps: Orchestrator.Dependencies, env: Orchestrator.Env, s': State, id: nat, token: nat)
    requires Inv(s) && Fenced(s, id, token) && Next(s, Finish(worker, deps, env)) == Some(s')
    ensures Fenced(s', id, token) && s.committed <= s'.committed
    ensures forall k | |s.committed| <= k < |s'.committed| :: !(s'.committed[k].runId == id && s'.committed[k].token == token)
  {
    assert worker in s.attempts;
    hide Inv, Next;
    FinishCommitsIff(s, worker, deps, env, s');
    if s'.committed != s.committed {
      TokenIsLease(s, worker);
    }
  }

  lemma TokenIsLease(s: State, worker: string)
    requires Inv(s) && worker in s.attempts && HoldsLease(s.db, s.attempts[worker].runId, worker)
    ensures s.attempts[worker].token == s.db.leases[s.attempts[worker].runId].attempt
  {
    assert AttemptOk(s.db, worker, s.attempts[worker]);
  }

  lemma TokenIsAtMostLease(s: State, worker: string)
    requires Inv(s) && worker in s.attempts && s.attempts[worker].runId in s.db.leases
    ensures s.attempts[worker].runId < |s.db.runs| && s.attempts[worker].token <= s.db.leases[s.attempts[worker].runId].attempt
  {
    assert AttemptOk(s.db, worker, s.attempts[worker]);
  }

  lemma NoLeaseStays(s: State, step: Step, s': State, id: nat)
    requires id < |s.db.runs| && id !in s.db.leases && s.db.runs[id].status in TERMINAL_STATUSES && Next(s, step) == Some(s')
    requires !step.Finish? && (!step.Claim? && !step.Reclaim? && !step.Heartbeat? ==> s'.db.leases == s.db.leases)
    ensures id !in s'.db.leases
  {
    hide Intake.Processed;
  }

  /** Once an attempt's generation is over, that attempt never commits, whatever happens. */
  lemma {:induction false} FencedNeverCommits(s: State, steps: seq<Step>, s': State, id: nat, token: nat)
    requires Inv(s) && Fenced(s, id, token) && After(s, steps) == Some(s')
    ensures Fenced(s', id, token) && s.committed <= s'.committed
    ensures forall k | |s.committed| <= k < |s'.committed| :: !(s'.committed[k].runId == id && s'.committed[k].token == token)
  {
    hide Inv, Fenced, Next;
    if steps != [] {
      var before := After(s, steps[..|steps| - 1]).value;
      FencedNeverCommits(s, steps[..|steps| - 1], before, id, token);
      RunOk(s, steps[..|steps| - 1], before);
      FencedStays(before, steps[|steps| - 1], s', id, token);
    }
  }

  /** A reclaim fences the attempt it takes over from, for good. */
  lemma ReclaimFences(s: State, worker: string, id: nat, seconds: int, s1: State, steps: seq<Step>, s2: State, other: string)
    requires Inv(s) && Next(s, Reclaim(worker, id, seconds)) == Some(s1) && After(s1, steps) == Some(s2)
    requires other in s.attempts && s.attempts[other].runId == id
    ensures Fenced(s2, id, s.attempts[other].token)
    ensures forall k | |s.committed| <= k < |s2.committed| ::
              !(s2.committed[k].runId == id && s2.committed[k].token == s.attempts[other].token)
  {
    ReclaimOk(s, worker, id, seconds, s1);
    TokenIsAtMostLease(s, other);
    hide Inv, Evolves, After;
    assert Fenced(s1, id, s.attempts[other].token) && s1.committed == s.committed;
    FencedNeverCommits(s1, steps, s2, id, s.attempts[other].token);
  }

  // ---- What an attempt reads is what it overwrites --------------------------------------------------------------------

  /**
   * No step of another worker, and no claim, renewal or time step, changes the row of a run while an attempt
   * on it can still commit. For deliveries and cancellations this is the serialization the model assumes.
   */
  lemma InFlightRowIsStable(s: State, step: Step, s': State, worker: string, id: nat)
    requires Inv(s) && Next(s, step) == Some(s') && worker in s.attempts && s.attempts[worker].begun && s.attempts[worker].runId == id
    requires !(step.Finish? && step.worker == worker) && !(step.Vanish? && step.worker == worker)
    requires InFlight(s', worker, id)
    ensures InFlight(s, worker, id) && id < |s.db.runs| <= |s'.db.runs| && s'.db.runs[id] == s.db.runs[id]
    ensures s'.attempts[worker].runId == id
  {
    StepOk(s, step, s');
    LeasesStay(s, step, s');
    assert AttemptOk(s.db, worker, s.attempts[worker]) by { hide Next; }
    assert |s.db.runs| <= |s'.db.runs| by { hide Inv, Next; }
    if step.Finish? {
      FinishCommitsIff(s, step.worker, step.deps, step.env, s');
    }
    hide Inv, Evolves;
    FlightWasBefore(s, step, s', worker, id);
    FlyingRowStays(s, step, s', worker, id);
  }

  lemma FlightWasBefore(s: State, step: Step, s': State, worker: string, id: nat)
    requires Next(s, step) == Some(s') && worker in s.attempts && s.attempts[worker].begun && s.attempts[worker].runId == id
    requires !(step.Finish? && step.worker == worker) && !(step.Vanish? && step.worker == worker)
    requires step.Finish? ==> s'.db.leases == s.db.leases || s'.db.leases == s.db.leases - {s.attempts[step.worker].runId}
    requires !step.Claim? && !step.Reclaim? && !step.Heartbeat? && !step.Finish? ==> s'.db.leases == s.db.leases
    requires InFlight(s', worker, id)
    ensures InFlight(s, worker, id) && s'.attempts[worker].runId == id
  {
    hide Intake.Processed, Orchestrator.Attempted, Serialized;
  }

  lemma FlyingRowStays(s: State, step: Step, s': State, worker: string, id: nat)
    requires Next(s, step) == Some(s') && InFlight(s, worker, id) && id < |s.db.runs| <= |s'.db.runs| && s.db.runs[id].status != Queued
    requires step.Finish? ==>
               step.worker != worker
               && (s'.db == s.db
                   || (Orchestrator.RunEnded(s.db, s.attempts[step.worker].runId, s'.db)
                       && HoldsLease(s.db, s.attempts[step.worker].runId, step.worker)))
    ensures s'.db.runs[id] == s.db.runs[id]
  {
    hide Intake.Processed, Orchestrator.Attempted;
  }

  /** The row an attempt that can still commit read when it began is the row its commit replaces. */
  lemma {:induction false} RowReadIsRowWritten(s: State, steps: seq<Step>, s': State, worker: string, id: nat)
    requires Inv(s) && After(s, steps) == Some(s') && worker in s.attempts && s.attempts[worker].begun && s.attempts[worker].runId == id
    requires forall k | 0 <= k < |steps| :: !(steps[k].Finish? && steps[k].worker == worker) && !(steps[k].Vanish? && steps[k].worker == worker)
    requires InFlight(s', worker, id)
    ensures InFlight(s, worker, id) && id < |s.db.runs| <= |s'.db.runs| && s'.db.runs[id] == s.db.runs[id]
    decreases |steps|
  {
    if steps == [] {
      assert AttemptOk(s.db, worker, s.attempts[worker]);
    } else {
      var front := steps[..|steps| - 1];
      var before := After(s, front).value;
      RunOk(s, front, before);
      AttemptStays(s, front, before, worker);
      hide Inv, Next, InFlight;
      InFlightRowIsStable(before, steps[|steps| - 1], s', worker, id);
      RowReadIsRowWritten(s, front, before, worker, id);
    }
  }

  lemma {:induction false} AttemptStays(s: State, steps: seq<Step>, s': State, worker: string)
    requires After(s, steps) == Some(s') && worker in s.attempts && s.attempts[worker].begun
    requires forall k | 0 <= k < |steps| :: !(steps[k].Finish? && steps[k].worker == worker) && !(steps[k].Vanish? && steps[k].worker == worker)
    ensures worker in s'.attempts && s'.attempts[worker].begun && s'.attempts[worker].runId == s.attempts[worker].runId
  {
    if steps != [] {
      AttemptStays(s, steps[..|steps| - 1], After(s, steps[..|steps| - 1]).value, worker);
      hide Intake.Processed, Orchestrator.Attempted;
    }
  }

  // ---- Reachable states ------------------------------------------------------------------------------------------------

  /**
   * In every reachable state: every run is queued, leased or ended, a queued run has no lease and a leased
   * one has its own; no run has committed two attempts; and the log of each run is a path of at most nine
   * records to its status.
   */
  lemma CommittedState(steps: seq<Step>, s: State)
    requires After(INITIAL, steps) == Some(s)
    ensures forall id | 0 <= id < |s.db.runs| ::
              && s.db.runs[id].status in {Queued, Leased} + TERMINAL_STATUSES
              && (s.db.runs[id].status == Queued ==> id !in s.db.leases) && (s.db.runs[id].status == Leased ==> id in s.db.leases)
              && Audited(s.db, id) && |History(s.db.transitions, id)| <= 9
    ensures forall i, j | 0 <= i < j < |s.committed| :: s.committed[i].runId != s.committed[j].runId
    ensures forall i | 0 <= i < |s.committed| :: s.committed[i].runId < |s.db.runs| && s.db.runs[s.committed[i].runId].status in TERMINAL_STATUSES
  {
    InitialOk();
    RunOk(INITIAL, steps, s);
    forall id | 0 <= id < |s.db.runs|
      ensures Audited(s.db, id) && |History(s.db.transitions, id)| <= 9
    {
      AtMostNineRecords(s.db, id);
    }
    hide Audited, AttemptsOk, CiUnique, LinksForward, DeliveriesUnique;
  }

  /** From then on, an ended run never changes: no reclaim, delivery or attempt revives it. */
  lemma EndedRunsStay(s: State, steps: seq<Step>, s': State, id: nat)
    requires Inv(s) && After(s, steps) == Some(s') && id < |s.db.runs| && s.db.runs[id].status in TERMINAL_STATUSES
    ensures id < |s'.db.runs| && s'.db.runs[id] == s.db.runs[id]
  {
    RunOk(s, steps, s');
    assert Later(s.db.runs[id], s'.db.runs[id]);
  }

  /** In every reachable state a pull request's head has at most one CI run that is not superseded or cancelled. */
  lemma CiRunsAreUnique(steps: seq<Step>, s: State, i: nat, j: nat, repositoryId: int, number: int, sha: string)
    requires After(INITIAL, steps) == Some(s) && i < |s.db.runs| && j < |s.db.runs|
    requires Intake.IsLiveCi(s.db.runs[i], repositoryId, number, sha) && Intake.IsLiveCi(s.db.runs[j], repositoryId, number, sha)
    ensures i == j
  {
    InitialOk();
    RunOk(INITIAL, steps, s);
    hide AuditOk, LeasesFit, LinksForward, DeliveriesUnique, AttemptsOk, CommitsOk;
    assert i < j ==> !Clash(s.db.runs[i], s.db.runs[j]);
    assert j < i ==> !Clash(s.db.runs[j], s.db.runs[i]);
  }

  /** A delivery id has at most one event and at most one run. */
  lemma DeliveriesAreUnique(steps: seq<Step>, s: State)
    requires After(INITIAL, steps) == Some(s)
    ensures forall i, j | 0 <= i < j < |s.db.events| :: s.db.events[i].deliveryId != s.db.events[j].deliveryId
    ensures forall i, j | 0 <= i < j < |s.db.eventRuns| :: s.db.eventRuns[i].0 != s.db.eventRuns[j].0
  {
    InitialOk();
    RunOk(INITIAL, steps, s);
    hide AuditOk, LeasesFit, LinksForward, CiUnique, AttemptsOk, CommitsOk;
  }

  /** A delivery that was processed once changes nothing when it comes again, however much later. */
  lemma RedeliveryHasNoEffect(s: State, settings: Intake.Settings, d: Intake.Delivery, s1: State, steps: seq<Step>, s2: State,
                              settings': Intake.Settings, again: Intake.Delivery)
    requires Inv(s) && Next(s, Deliver(settings, d)) == Some(s1) && After(s1, steps) == Some(s2) && again.id == d.id
    ensures Next(s2, Deliver(settings', again)) == Some(s2)
  {
    Intake.IntakeIsIdempotent(s.db, settings, d, again, settings', s.now, s.now);
    StepOk(s, Deliver(settings, d), s1);
    RunOk(s1, steps, s2);
    hide Inv, Later;
    var k :| 0 <= k < |s1.db.events| && s1.db.events[k].deliveryId == d.id;
    assert s2.db.events[k].deliveryId == again.id;
    assert Intake.Seen(s2.db, again.id);
    assert Intake.Processed(s2.db, settings', again, s2.now) == s2.db;
  }

  ghost predicate Linked(db: Db, a: nat, b: nat) {
    exists k | 0 <= k < |db.links| :: db.links[k].source == a && db.links[k].target == b
  }

  lemma {:induction false} PathsGoForward(db: Db, path: seq<nat>)
    requires LinksForward(db) && |path| >= 2 && forall k | 0 < k < |path| :: Linked(db, path[k - 1], path[k])
    ensures path[0] < path[|path| - 1]
  {
    assert Linked(db, path[|path| - 2], path[|path| - 1]);
    if |path| > 2 {
      PathsGoForward(db, path[..|path| - 1]);
    }
  }

  /** The causal links form no cycle, because they only go from earlier runs to later ones. */
  lemma LinksAreAcyclic(steps: seq<Step>, s: State, path: seq<nat>)
    requires After(INITIAL, steps) == Some(s) && |path| >= 2 && forall k | 0 < k < |path| :: Linked(s.db, path[k - 1], path[k])
    ensures path[0] < path[|path| - 1]
  {
    InitialOk();
    RunOk(INITIAL, steps, s);
    PathsGoForward(s.db, path);
  }
}
