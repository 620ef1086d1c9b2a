/**
 * Runs, their audit log and their leases: src/agentic_lab/runs/service.py, src/agentic_lab/runs/leases.py
 * and the tables of src/agentic_lab/db/models.py they write.
 *
 * Runs are numbered in creation order. `Session` has one field per table; `Db` is its value.
 */
module RunStore {
  import opened Wrappers
  import opened RunStatuses

  datatype AgentRole = Scout | Assessor | Ci

  datatype Run = Run(
    role: AgentRole,
    repositoryId: int,
    pullNumber: Option<int>,
    checkRunId: Option<int>,
    pinnedSha: string,
    status: RunStatus,
    terminalAt: Option<int>)

  datatype Transition = Transition(runId: nat, source: Option<RunStatus>, target: RunStatus, reasonCode: string, actor: string)

  datatype Lease = Lease(workerId: string, acquiredAt: int, heartbeatAt: int, expiresAt: int, attempt: nat)

  datatype Link = Link(source: nat, target: nat, relation: string)

  datatype WebhookEvent = WebhookEvent(deliveryId: string, signatureValid: bool, rejectionReason: Option<string>)

  datatype Db = Db(
    runs: seq<Run>,
    transitions: seq<Transition>,
    leases: map<nat, Lease>,
    links: seq<Link>,
    events: seq<WebhookEvent>,
    eventRuns: seq<(string, nat)>)

  const EMPTY := Db([], [], map[], [], [], [])

  // ---- Transitions ----------------------------------------------------------------------------------

  /** `transition_run`; `None` is `InvalidTransitionError`. */
  function Transitioned(db: Db, id: nat, target: RunStatus, reasonCode: string, actor: string, now: int): (r: Option<Db>)
    requires id < |db.runs|
    ensures r.Some? ==> |r.value.runs| == |db.runs|
  {
    var run := db.runs[id];
    if target !in AllowedTransitions(run.status) then None
    else
      var run' := run.(status := target, terminalAt := if target in TERMINAL_STATUSES then Some(now) else run.terminalAt);
      Some(db.(runs := db.runs[id := run'],
               transitions := db.transitions + [Transition(id, Some(run.status), target, reasonCode, actor)]))
  }

  /** The new row of `create_queued_run` with its first record, before it is queued. */
  function Received(db: Db, role: AgentRole, repositoryId: int, pinnedSha: string, actor: string): Db {
    db.(runs := db.runs + [Run(role, repositoryId, None, None, pinnedSha, RunStatus.Received, None)],
        transitions := db.transitions + [Transition(|db.runs|, None, RunStatus.Received, "intake_received", actor)])
  }

  /** `create_queued_run`; the new run is the last one. */
  function CreatedQueued(db: Db, role: AgentRole, repositoryId: int, pinnedSha: string, actor: string, now: int): (db': Db)
    ensures |db'.runs| == |db.runs| + 1
  {
    Transitioned(Received(db, role, repositoryId, pinnedSha, actor), |db.runs|, Queued, "intake_accepted", actor, now).value
  }

  // ---- Supersession -----------------------------------------------------------------------------------

  /** A run `supersede_active_runs` selects and the table lets it supersede. */
  predicate Supersedable(run: Run, repositoryId: int, pullNumber: int, newerSha: string) {
    && run.repositoryId == repositoryId && run.pullNumber == Some(pullNumber) && run.pinnedSha != newerSha
    && Superseded in AllowedTransitions(run.status)
  }

  /** A run of the pull request for another SHA that has neither ended nor begun to push. */
  predicate IsOutdated(run: Run, repositoryId: int, pullNumber: int, newerSha: string) {
    && run.repositoryId == repositoryId && run.pullNumber == Some(pullNumber) && run.pinnedSha != newerSha
    && run.status in {Queued, Leased, Snapshotting, Running, Evaluating, ReadyToPush}
  }

  lemma SupersedableMeaning(run: Run, repositoryId: int, pullNumber: int, newerSha: string)
    ensures Supersedable(run, repositoryId, pullNumber, newerSha) <==> IsOutdated(run, repositoryId, pullNumber, newerSha)
  {
    EdgesByTarget(run.status, Superseded);
  }

  /** The superseded runs among the first `n`, in order. */
  function SupersededIds(db: Db, n: nat, repositoryId: int, pullNumber: int, newerSha: string): (ids: seq<nat>)
    requires n <= |db.runs|
    ensures forall i | 0 <= i < |ids| :: ids[i] < n && Supersedable(db.runs[ids[i]], repositoryId, pullNumber, newerSha)
  {
    if n == 0 then []
    else
      var ids := SupersededIds(db, n - 1, repositoryId, pullNumber, newerSha);
      if Supersedable(db.runs[n - 1], repositoryId, pullNumber, newerSha) then ids + [n - 1] else ids
  }

  /** The database after the first `n` runs have been considered. */
  function SupersededUpTo(db: Db, n: nat, repositoryId: int, pullNumber: int, newerSha: string, actor: string, now: int): (db': Db)
    requires n <= |db.runs|
    ensures |db'.runs| == |db.runs|
    ensures forall i | n <= i < |db.runs| :: db'.runs[i] == db.runs[i]
  {
    if n == 0 then db
    else
      var db' := SupersededUpTo(db, n - 1, repositoryId, pullNumber, newerSha, actor, now);
      if Supersedable(db.runs[n - 1], repositoryId, pullNumber, newerSha)
      then Transitioned(db', n - 1, Superseded, "newer_human_head_sha", actor, now).value
      else db'
  }

  lemma SupersededStep(db: Db, n: nat, repositoryId: int, pullNumber: int, newerSha: string, actor: string, now: int)
    requires 0 < n <= |db.runs|
    ensures var before := SupersededUpTo(db, n - 1, repositoryId, pullNumber, newerSha, actor, now);
            var ids, run := SupersededIds(db, n - 1, repositoryId, pullNumber, newerSha), db.runs[n - 1];
            if IsOutdated(run, repositoryId, pullNumber, newerSha) then
              && SupersededUpTo(db, n, repositoryId, pullNumber, newerSha, actor, now)
                 == before.(runs := before.runs[n - 1 := run.(status := Superseded, terminalAt := Some(now))],
                            transitions := before.transitions + [Transition(n - 1, Some(run.status), Superseded, "newer_human_head_sha", actor)])
              && SupersededIds(db, n, repositoryId, pullNumber, newerSha) == ids + [n - 1]
            else
              && SupersededUpTo(db, n, repositoryId, pullNumber, newerSha, actor, now) == before
              && SupersededIds(db, n, repositoryId, pullNumber, newerSha) == ids
  {
    hide AllowedTransitions, IsOutdated;
    SupersedableMeaning(db.runs[n - 1], repositoryId, pullNumber, newerSha);
  }

  /** Superseding ends exactly the outdated runs, and returns them. */
  lemma {:induction false} SupersededExactly(db: Db, n: nat, repositoryId: int, pullNumber: int, newerSha: string, actor: string, now: int, i: nat)
    requires i < n <= |db.runs|
    ensures var run' := SupersededUpTo(db, n, repositoryId, pullNumber, newerSha, actor, now).runs[i];
            if IsOutdated(db.runs[i], repositoryId, pullNumber, newerSha)
            then i in SupersededIds(db, n, repositoryId, pullNumber, newerSha) && run' == db.runs[i].(status := Superseded, terminalAt := Some(now))
            else i !in SupersededIds(db, n, repositoryId, pullNumber, newerSha) && run' == db.runs[i]
  {
    SupersededStep(db, n, repositoryId, pullNumber, newerSha, actor, now);
    if i < n - 1 {
      SupersededExactly(db, n - 1, repositoryId, pullNumber, newerSha, actor, now, i);
    }
    hide IsOutdated, SupersededUpTo, SupersededIds;
  }

  lemma {:induction false} SupersededInOrder(db: Db, n: nat, repositoryId: int, pullNumber: int, newerSha: string, i: nat, j: nat)
    requires n <= |db.runs| && i < j < |SupersededIds(db, n, repositoryId, pullNumber, newerSha)|
    ensures SupersededIds(db, n, repositoryId, pullNumber, newerSha)[i] < SupersededIds(db, n, repositoryId, pullNumber, newerSha)[j]
  {
    var before := SupersededIds(db, n - 1, repositoryId, pullNumber, newerSha);
    if j < |before| {
      SupersededInOrder(db, n - 1, repositoryId, pullNumber, newerSha, i, j);
    } else {
      assert before[i] < n - 1;
    }
  }

  /** Each superseded run gets one record, in order. */
  lemma {:induction false} SupersessionLogged(db: Db, n: nat, repositoryId: int, pullNumber: int, newerSha: string, actor: string, now: int)
    requires n <= |db.runs|
    ensures var db' := SupersededUpTo(db, n, repositoryId, pullNumber, newerSha, actor, now);
            var ids := SupersededIds(db, n, repositoryId, pullNumber, newerSha);
            db'.transitions == db.transitions + seq(|ids|, k requires 0 <= k < |ids| =>
              Transition(ids[k], Some(db.runs[ids[k]].status), Superseded, "newer_human_head_sha", actor))
  {
    if n > 0 {
      SupersededStep(db, n, repositoryId, pullNumber, newerSha, actor, now);
      SupersessionLogged(db, n - 1, repositoryId, pullNumber, newerSha, actor, now);
      hide IsOutdated, SupersededUpTo, SupersededIds;
    }
  }

  /** Links from each of `ids` to the newer run. */
  function LinkedTo(db: Db, ids: seq<nat>, target: nat): Db {
    if ids == [] then db
    else
      var db' := LinkedTo(db, ids[..|ids| - 1], target);
      db'.(links := db'.links + [Link(ids[|ids| - 1], target, "superseded_by")])
  }

  // ---- Leases -----------------------------------------------------------------------------------------

  /** A queued run is leased to a worker for the first time. */
  function Claimed(db: Db, id: nat, worker: string, now: int, seconds: int): Option<Db>
    requires id < |db.runs|
  {
    var db' :- Transitioned(db, id, Leased, "worker_claimed", worker, now);
    Some(db'.(leases := db'.leases[id := Lease(worker, now, now, now + seconds, 1)]))
  }

  /** An expired lease is taken over. */
  function Reclaimed(db: Db, id: nat, worker: string, now: int, seconds: int): Db
    requires id in db.leases
  {
    db.(leases := db.leases[id := Lease(worker, now, now, now + seconds, db.leases[id].attempt + 1)])
  }

  predicate Expired(db: Db, id: nat, now: int) {
    id in db.leases && db.leases[id].expiresAt < now
  }

  predicate HoldsLease(db: Db, id: nat, worker: string) {
    id in db.leases && db.leases[id].workerId == worker
  }

  /** `heartbeat_lease`: renewed unless the lease is gone, someone else's, or expired. */
  function Renewed(db: Db, id: nat, worker: string, now: int, seconds: int): Option<Db> {
    if !HoldsLease(db, id, worker) || db.leases[id].expiresAt < now then None
    else Some(db.(leases := db.leases[id := db.leases[id].(heartbeatAt := now, expiresAt := now + seconds)]))
  }

  /** `release_lease` */
  function Released(db: Db, id: nat, worker: string): Option<Db> {
    if !HoldsLease(db, id, worker) then None else Some(db.(leases := db.leases - {id}))
  }

  /** At any time a lease can either be renewed by its holder or be taken over, and never both. */
  lemma RenewOrTakeOver(db: Db, id: nat, worker: string, now: int, seconds: int)
    requires id in db.leases && db.leases[id].workerId == worker
    ensures Expired(db, id, now) <==> db.leases[id].expiresAt < now
    ensures Renewed(db, id, worker, now, seconds).Some? <==> !Expired(db, id, now)
    ensures Renewed(db, id, worker, now, seconds).Some? && 0 <= seconds ==> !Expired(Renewed(db, id, worker, now, seconds).value, id, now + seconds)
    ensures 0 <= seconds ==> !Expired(Reclaimed(db, id, worker, now, seconds), id, now + seconds)
    ensures forall other | other != worker :: Renewed(db, id, other, now, seconds) == None && Released(db, id, other) == None
  {
  }

  // ---- The session ------------------------------------------------------------------------------------

  class Session {
    var runs: seq<Run>
    var transitions: seq<Transition>
    var leases: map<nat, Lease>
    var links: seq<Link>
    var events: seq<WebhookEvent>
    var eventRuns: seq<(string, nat)>

    function State(): Db
      reads this
    {
      Db(runs, transitions, leases, links, events, eventRuns)
    }

    constructor (db: Db)
      ensures State() == db
    {
      runs, transitions, leases := db.runs, db.transitions, db.leases;
      links, events, eventRuns := db.links, db.events, db.eventRuns;
    }

    /** `session.rollback()` */
    method Rollback(db: Db)
      modifies this
      ensures State() == db
    {
      runs, transitions, leases := db.runs, db.transitions, db.leases;
      links, events, eventRuns := db.links, db.events, db.eventRuns;
    }

    /** `ok` is false where the source raises `InvalidTransitionError`. */
    method TransitionRun(id: nat, target: RunStatus, reasonCode: string, actor: string, now: int) returns (ok: bool)
      requires id < |runs|
      modifies this
      ensures Transitioned(old(State()), id, target, reasonCode, actor, now) == if ok then Some(State()) else None
      ensures ok <==> target in AllowedTransitions(old(runs[id].status))
      ensures ok ==> runs == old(runs)[id := old(runs[id]).(status := target, terminalAt := if target in TERMINAL_STATUSES then Some(now) else old(runs[id].terminalAt))]
      ensures ok ==> transitions == old(transitions) + [Transition(id, Some(old(runs[id].status)), target, reasonCode, actor)]
      ensures leases == old(leases) && links == old(links) && events == old(events) && eventRuns == old(eventRuns)
      ensures !ok ==> State() == old(State())
    {
      var run := runs[id];
      if target !in AllowedTransitions(run.status) { return false; }
      var previous := run.status;
      run := run.(status := target);
      if target in TERMINAL_STATUSES {
        run := run.(terminalAt := Some(now));
      }
      runs := runs[id := run];
      transitions := transitions + [Transition(id, Some(previous), target, reasonCode, actor)];
      ok := true;
    }

    method CreateQueuedRun(role: AgentRole, repositoryId: int, pinnedSha: string, actor: string, now: int) returns (id: nat)
      modifies this
      ensures State() == CreatedQueued(old(State()), role, repositoryId, pinnedSha, actor, now)
      ensures id == old(|runs|) && runs == old(runs) + [Run(role, repositoryId, None, None, pinnedSha, Queued, None)]
      ensures transitions == old(transitions) + [Transition(id, None, RunStatus.Received, "intake_received", actor),
                                                 Transition(id, Some(RunStatus.Received), Queued, "intake_accepted", actor)]
      ensures leases == old(leases) && links == old(links) && events == old(events) && eventRuns == old(eventRuns)
    {
      id := |runs|;
      runs := runs + [Run(role, repositoryId, None, None, pinnedSha, RunStatus.Received, None)];
      transitions := transitions + [Transition(id, None, RunStatus.Received, "intake_received", actor)];
      var ok := TransitionRun(id, Queued, "intake_accepted", actor, now);
    }

    /** `link_runs`; a run cannot be linked to itself. */
    method LinkRuns(source: nat, target: nat, relation: string) returns (ok: bool)
      modifies this
      ensures ok <==> source != target
      ensures State() == if ok then old(State()).(links := old(links) + [Link(source, target, relation)]) else old(State())
    {
      if source == target { return false; }
      links := links + [Link(source, target, relation)];
      ok := true;
    }

    method SupersedeActiveRuns(repositoryId: int, pullNumber: int, newerSha: string, actor: string, now: int)
      returns (superseded: seq<nat>)
      modifies this
      ensures State() == SupersededUpTo(old(State()), old(|runs|), repositoryId, pullNumber, newerSha, actor, now)
      ensures superseded == SupersededIds(old(State()), old(|runs|), repositoryId, pullNumber, newerSha)
    {
      superseded := [];
      for n := 0 to |runs|
        invariant |runs| == old(|runs|)
        invariant State() == SupersededUpTo(old(State()), n, repositoryId, pullNumber, newerSha, actor, now)
        invariant superseded == SupersededIds(old(State()), n, repositoryId, pullNumber, newerSha)
      {
        var run := runs[n];
        if run.repositoryId == repositoryId && run.pullNumber == Some(pullNumber) && run.pinnedSha != newerSha
           && run.status !in TERMINAL_STATUSES {
          if Superseded in AllowedTransitions(run.status) {
            var ok := TransitionRun(n, Superseded, "newer_human_head_sha", actor, now);
            superseded := superseded + [n];
          }
        }
      }
    }

    /**
     * The oldest queued run is leased; failing that, the lease that expired first is taken over if its
     * run is still leased. `expired` is the first row of that second query, if there is one.
     */
    method ClaimNextRun(worker: string, seconds: int, now: int, expired: Option<nat>) returns (claimed: Option<nat>)
      requires expired.Some? ==> expired.value in leases && leases[expired.value].expiresAt < now
                                 && forall id | id in leases && leases[id].expiresAt < now :: leases[expired.value].expiresAt <= leases[id].expiresAt
      requires expired.None? ==> forall id | id in leases :: leases[id].expiresAt >= now
      modifies this
      ensures (exists id :: 0 <= id < old(|runs|) && old(runs)[id].status == Queued) ==>
                claimed.Some? && claimed.value < old(|runs|) && old(runs)[claimed.value].status == Queued
                && (forall id | 0 <= id < claimed.value :: old(runs)[id].status != Queued)
                && Claimed(old(State()), claimed.value, worker, now, seconds) == Some(State())
      ensures (forall id | 0 <= id < old(|runs|) :: old(runs)[id].status != Queued) ==>
                if expired.Some? && expired.value < old(|runs|) && old(runs)[expired.value].status == Leased
                then claimed == expired && State() == Reclaimed(old(State()), expired.value, worker, now, seconds)
                else claimed == None && State() == old(State())
      ensures claimed.Some? ==>
                && claimed.value < |runs| == old(|runs|) && runs == old(runs)[claimed.value := old(runs)[claimed.value].(status := Leased)]
                && (old(runs)[claimed.value].status == Leased ==> claimed.value in old(leases))
                && leases == old(leases)[claimed.value := Lease(worker, now, now, now + seconds,
                                                                if old(runs)[claimed.value].status == Leased then old(leases)[claimed.value].attempt + 1 else 1)]
      ensures links == old(links) && events == old(events) && eventRuns == old(eventRuns)
    {
      for n := 0 to |runs|
        invariant State() == old(State())
        invariant forall id | 0 <= id < n :: runs[id].status != Queued
      {
        if runs[n].status == Queued {
          var ok := TransitionRun(n, Leased, "worker_claimed", worker, now);
          leases := leases[n := Lease(worker, now, now, now + seconds, 1)];
          return Some(n);
        }
      }
      if expired.None? { return None; }
      var id := expired.value;
      if id >= |runs| || runs[id].status != Leased { return None; }
      leases := leases[id := Lease(worker, now, now, now + seconds, leases[id].attempt + 1)];
      claimed := Some(id);
    }

    method HeartbeatLease(id: nat, worker: string, seconds: int, now: int) returns (renewed: bool)
      modifies this
      ensures Renewed(old(State()), id, worker, now, seconds) == if renewed then Some(State()) else None
      ensures renewed <==> id in old(leases) && old(leases)[id].workerId == worker && now <= old(leases)[id].expiresAt
      ensures renewed ==> State() == old(State()).(leases := old(leases)[id := Lease(worker, old(leases)[id].acquiredAt, now, now + seconds, old(leases)[id].attempt)])
      ensures !renewed ==> State() == old(State())
    {
      if id !in leases || leases[id].workerId != worker { return false; }
      if leases[id].expiresAt < now { return false; }
      leases := leases[id := leases[id].(heartbeatAt := now, expiresAt := now + seconds)];
      renewed := true;
    }

    method ReleaseLease(id: nat, worker: string) returns (released: bool)
      modifies this
      ensures Released(old(State()), id, worker) == if released then Some(State()) else None
      ensures released <==> id in old(leases) && old(leases)[id].workerId == worker
      ensures released ==> State() == old(State()).(leases := old(leases) - {id})
      ensures !released ==> State() == old(State())
    {
      if id !in leases || leases[id].workerId != worker { return false; }
      leases := leases - {id};
      released := true;
    }
  }

  // ---- The audit log is the run's path -------------------------------------------------------------------

  /** A run's records in insertion order. */
  function History(transitions: seq<Transition>, id: nat): seq<Transition> {
    if transitions == [] then []
    else
      var last := transitions[|transitions| - 1];
      History(transitions[..|transitions| - 1], id) + if last.runId == id then [last] else []
  }

  ghost predicate IsPath(history: seq<Transition>) {
    && history != [] && history[0].source == None && history[0].target == RunStatus.Received
    && forall k | 0 < k < |history| ::
         history[k].source == Some(history[k - 1].target) && history[k].target in AllowedTransitions(history[k - 1].target)
  }

  /** The records of a run form a path to its status, and its end time is set exactly if it has ended. */
  ghost predicate Audited(db: Db, id: nat)
    requires id < |db.runs|
  {
    var history := History(db.transitions, id);
    && IsPath(history) && history[|history| - 1].target == db.runs[id].status
    && (db.runs[id].terminalAt.Some? <==> db.runs[id].status in TERMINAL_STATUSES)
  }

  ghost predicate AuditOk(db: Db) {
    && (forall id | 0 <= id < |db.runs| :: Audited(db, id))
    && (forall k | 0 <= k < |db.transitions| :: db.transitions[k].runId < |db.runs|)
  }

  lemma HistoryMore(transitions: seq<Transition>, t: Transition, id: nat)
    ensures History(transitions + [t], id) == History(transitions, id) + if t.runId == id then [t] else []
  {
    assert (transitions + [t])[..|transitions|] == transitions;
  }

  lemma {:induction false} NoHistory(transitions: seq<Transition>, id: nat)
    requires forall k | 0 <= k < |transitions| :: transitions[k].runId < id
    ensures History(transitions, id) == []
  {
    if transitions != [] {
      NoHistory(transitions[..|transitions| - 1], id);
    }
  }

  lemma PathMore(history: seq<Transition>, t: Transition)
    requires IsPath(history) && t.source == Some(history[|history| - 1].target)
    requires t.target in AllowedTransitions(history[|history| - 1].target)
    ensures IsPath(history + [t])
  {
  }

  /** Every transition keeps the audit log in step, and leaves the other runs' records alone. */
  lemma TransitionAudited(db: Db, id: nat, target: RunStatus, reasonCode: string, actor: string, now: int)
    requires AuditOk(db) && id < |db.runs|
    requires Transitioned(db, id, target, reasonCode, actor, now).Some?
    ensures AuditOk(Transitioned(db, id, target, reasonCode, actor, now).value)
  {
    var db' := Transitioned(db, id, target, reasonCode, actor, now).value;
    var t := db'.transitions[|db.transitions|];
    TransitionsDescend(db.runs[id].status, target);
    hide AllowedTransitions;
    forall other | 0 <= other < |db'.runs|
      ensures Audited(db', other)
    {
      assert Audited(db, other);
      HistoryMore(db.transitions, t, other);
      if other == id {
        PathMore(History(db.transitions, id), t);
      }
    }
  }

  lemma ReceivedAudited(db: Db, role: AgentRole, repositoryId: int, pinnedSha: string, actor: string)
    requires AuditOk(db)
    ensures AuditOk(Received(db, role, repositoryId, pinnedSha, actor))
  {
    var db' := Received(db, role, repositoryId, pinnedSha, actor);
    var t := db'.transitions[|db.transitions|];
    NoHistory(db.transitions, |db.runs|);
    forall other | 0 <= other < |db'.runs|
      ensures Audited(db', other)
    {
      HistoryMore(db.transitions, t, other);
      if other < |db.runs| {
        assert Audited(db, other);
      }
    }
  }

  lemma CreationAudited(db: Db, role: AgentRole, repositoryId: int, pinnedSha: string, actor: string, now: int)
    requires AuditOk(db)
    ensures AuditOk(CreatedQueued(db, role, repositoryId, pinnedSha, actor, now))
  {
    ReceivedAudited(db, role, repositoryId, pinnedSha, actor);
    TransitionAudited(Received(db, role, repositoryId, pinnedSha, actor), |db.runs|, Queued, "intake_accepted", actor, now);
  }

  /** Only the runs' statuses, end times and the log matter for the audit. */
  lemma SameAudit(db: Db, db': Db)
    requires AuditOk(db) && db'.transitions == db.transitions && |db'.runs| == |db.runs|
    requires forall id | 0 <= id < |db.runs| :: db'.runs[id].status == db.runs[id].status && db'.runs[id].terminalAt == db.runs[id].terminalAt
    ensures AuditOk(db')
  {
    forall id | 0 <= id < |db.runs|
      ensures Audited(db', id)
    {
      assert Audited(db, id);
    }
  }

  lemma {:induction false} SupersessionAudited(db: Db, n: nat, repositoryId: int, pullNumber: int, newerSha: string, actor: string, now: int)
    requires AuditOk(db) && n <= |db.runs|
    ensures AuditOk(SupersededUpTo(db, n, repositoryId, pullNumber, newerSha, actor, now))
  {
    if n > 0 {
      SupersessionAudited(db, n - 1, repositoryId, pullNumber, newerSha, actor, now);
      if Supersedable(db.runs[n - 1], repositoryId, pullNumber, newerSha) {
        var before := SupersededUpTo(db, n - 1, repositoryId, pullNumber, newerSha, actor, now);
        TransitionAudited(before, n - 1, Superseded, "newer_human_head_sha", actor, now);
      }
    }
  }

  /** A run has at most nine records, because every transition lowers the status's rank. */
  lemma AtMostNineRecords(db: Db, id: nat)
    requires AuditOk(db) && id < |db.runs|
    ensures 1 <= |History(db.transitions, id)| <= 9 - Rank(db.runs[id].status)
  {
    assert Audited(db, id);
    hide AllowedTransitions;
    var history := History(db.transitions, id);
    var path := seq(|history|, k requires 0 <= k < |history| => history[k].target);
    PathsAreShort(path);
  }
}
