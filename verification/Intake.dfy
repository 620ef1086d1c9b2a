/** Webhook intake: `_process_github_delivery` and its helpers in src/agentic_lab/api/app.py. */
module Intake {
  import opened Wrappers
  import opened RunStatuses
  import opened RunStore

  /** The parts of a payload that intake looks at; `None` is missing or of the wrong type. */
  datatype Payload =
    | PullRequest(action: string, isObject: bool, headSha: Option<string>, number: Option<int>, senderIsBot: bool)
    | CheckRun(checkAction: Option<string>, failed: bool, checkRunId: Option<int>, singlePullRequest: bool,
               headSha: Option<string>, number: Option<int>, headRepositoryId: Option<int>)
    | OtherEvent

  /** `body` is `None` for text that is not JSON; `payload` is `None` for JSON that is not an object. */
  datatype Body = Body(repositoryId: Option<int>, payload: Option<Payload>)

  datatype Delivery = Delivery(id: string, signatureOk: bool, body: Option<Body>)

  /** `manifests` are the repositories with an active manifest. */
  datatype Settings = Settings(allowedRepositoryIds: set<int>, requireTargetManifest: bool, manifests: set<int>)

  predicate ValidSha(sha: string) {
    (|sha| == 40 || |sha| == 64) && forall i | 0 <= i < |sha| :: '0' <= sha[i] <= '9' || 'a' <= sha[i] <= 'f'
  }

  // ---- What a delivery does to the database -----------------------------------------------------------

  /** The database and, if a run was queued, its id; otherwise the rejection reason. */
  type Outcome = (Db, Result<nat, string>)

  function Located(db: Db, id: nat, pullNumber: Option<int>, checkRunId: Option<int>): Db
    requires id < |db.runs|
  {
    db.(runs := db.runs[id := db.runs[id].(pullNumber := pullNumber, checkRunId := checkRunId)])
  }

  function QueuePullRequest(db: Db, repositoryId: int, p: Payload, now: int): Outcome
    requires p.PullRequest?
  {
    if p.action !in {"opened", "synchronize", "reopened"} || !p.isObject then (db, Err("unsupported_event_action"))
    else if p.headSha.None? then (db, Err("missing_head_sha"))
    else if repositoryId <= 0 || !ValidSha(p.headSha.value) then (db, Err("invalid_head_sha"))
    else
      var sha, id := p.headSha.value, |db.runs|;
      var number := if p.number.Some? && p.number.value >= 1 then p.number else None;
      var supersede := number.Some? && !p.senderIsBot;
      var db1 := if supersede then SupersededUpTo(db, id, repositoryId, number.value, sha, "github_webhook", now) else db;
      var ids := if supersede then SupersededIds(db, id, repositoryId, number.value, sha) else [];
      var db2 := Located(CreatedQueued(db1, Assessor, repositoryId, sha, "github_webhook", now), id, number, None);
      (LinkedTo(db2, ids, id), Ok(id))
  }

  predicate IsLiveCi(run: Run, repositoryId: int, number: int, sha: string) {
    && run.role == Ci && run.repositoryId == repositoryId && run.pullNumber == Some(number) && run.pinnedSha == sha
    && run.status !in {Superseded, Cancelled}
  }

  predicate IsAssessment(run: Run, repositoryId: int, number: int, sha: string) {
    run.role == Assessor && run.repositoryId == repositoryId && run.pullNumber == Some(number) && run.pinnedSha == sha
  }

  /** The latest of the first `n` runs that assessed this head. */
  function LatestAssessment(runs: seq<Run>, n: nat, repositoryId: int, number: int, sha: string): (r: Option<nat>)
    requires n <= |runs|
    ensures r.Some? ==> r.value < n && IsAssessment(runs[r.value], repositoryId, number, sha)
  {
    if n == 0 then None
    else if IsAssessment(runs[n - 1], repositoryId, number, sha) then Some(n - 1)
    else LatestAssessment(runs, n - 1, repositoryId, number, sha)
  }

  function QueueCheckRun(db: Db, repositoryId: int, p: Payload, now: int): Outcome
    requires p.CheckRun?
  {
    if p.checkAction.Some? && p.checkAction.value != "completed" then (db, Err("check_run_not_completed"))
    else if !p.failed then (db, Err("check_not_failed"))
    else if p.checkRunId.None? || p.checkRunId.value < 1 then (db, Err("missing_check_run_id"))
    else if !p.singlePullRequest then (db, Err("check_run_without_single_pr"))
    else if p.headSha.None? then (db, Err("missing_head_sha"))
    else if p.number.None? || p.number.value < 1 then (db, Err("missing_pull_number"))
    else if p.headRepositoryId.Some? && p.headRepositoryId.value != repositoryId then (db, Err("fork_branch_refused"))
    else
      var sha, number, id := p.headSha.value, p.number.value, |db.runs|;
      if exists i | 0 <= i < |db.runs| :: IsLiveCi(db.runs[i], repositoryId, number, sha) then (db, Err("duplicate_ci_head_sha"))
      else if repositoryId <= 0 || !ValidSha(sha) then (db, Err("invalid_head_sha"))
      else
        var db1 := Located(CreatedQueued(db, Ci, repositoryId, sha, "github_webhook", now), id, Some(number), p.checkRunId);
        var assessor := LatestAssessment(db.runs, id, repositoryId, number, sha);
        (if assessor.Some? then db1.(links := db1.links + [Link(assessor.value, id, "failed_check_after_assessment")]) else db1,
         Ok(id))
  }

  function QueueWebhookRun(db: Db, settings: Settings, body: Body, now: int): Outcome {
    if body.repositoryId.None? then (db, Err("missing_repository_id"))
    else if body.repositoryId.value !in settings.allowedRepositoryIds then (db, Err("repository_not_allowlisted"))
    else if body.payload.None? || body.payload.value.OtherEvent? then (db, Err("unsupported_event"))
    else if body.payload.value.CheckRun? then QueueCheckRun(db, body.repositoryId.value, body.payload.value, now)
    else QueuePullRequest(db, body.repositoryId.value, body.payload.value, now)
  }

  predicate Seen(db: Db, deliveryId: string) {
    exists i | 0 <= i < |db.events| :: db.events[i].deliveryId == deliveryId
  }

  function Recorded(db: Db, deliveryId: string, signatureValid: bool, reason: Option<string>): Db {
    db.(events := db.events + [WebhookEvent(deliveryId, signatureValid, reason)])
  }

  /** `_process_github_delivery`: one event per delivery id, whatever comes of it. */
  function Processed(db: Db, settings: Settings, d: Delivery, now: int): Db {
    if Seen(db, d.id) then db
    else if !d.signatureOk then Recorded(db, d.id, false, Some("invalid_signature"))
    else if d.body.None? then Recorded(db, d.id, true, Some("invalid_json"))
    else
      var repository := d.body.value.repositoryId;
      if settings.requireTargetManifest && (repository.None? || repository.value !in settings.manifests)
      then Recorded(db, d.id, true, Some("missing_target_manifest"))
      else
        var (db', outcome) := QueueWebhookRun(db, settings, d.body.value, now);
        match outcome
        case Err(reason) => Recorded(db', d.id, true, Some(reason))
        case Ok(id) => Recorded(db', d.id, true, None).(eventRuns := db'.eventRuns + [(d.id, id)])
  }

  // ---- The code that does it -----------------------------------------------------------------------------

  method QueuePullRequestRun(s: Session, repositoryId: int, p: Payload, now: int) returns (r: Result<nat, string>)
    requires p.PullRequest?
    modifies s
    ensures (s.State(), r) == QueuePullRequest(old(s.State()), repositoryId, p, now)
  {
    hide SupersededUpTo, SupersededIds, Supersedable, ValidSha;
    if p.action !in {"opened", "synchronize", "reopened"} || !p.isObject { return Err("unsupported_event_action"); }
    if p.headSha.None? { return Err("missing_head_sha"); }
    var number := p.number;
    if number.Some? && number.value < 1 {
      number := None;
    }
    if repositoryId <= 0 || !ValidSha(p.headSha.value) { return Err("invalid_head_sha"); }
    var superseded: seq<nat> := [];
    if number.Some? && !p.senderIsBot {
      superseded := s.SupersedeActiveRuns(repositoryId, number.value, p.headSha.value, "github_webhook", now);
    }
    var id := s.CreateQueuedRun(Assessor, repositoryId, p.headSha.value, "github_webhook", now);
    s.runs := s.runs[id := s.runs[id].(pullNumber := number)];
    ghost var before := s.State();
    for k := 0 to |superseded|
      invariant s.State() == LinkedTo(before, superseded[..k], id)
    {
      assert superseded[..k + 1][..k] == superseded[..k];
      var ok := s.LinkRuns(superseded[k], id, "superseded_by");
    }
    assert superseded[..|superseded|] == superseded;
    r := Ok(id);
  }

  method QueueCheckRunRun(s: Session, repositoryId: int, p: Payload, now: int) returns (r: Result<nat, string>)
    requires p.CheckRun?
    modifies s
    ensures (s.State(), r) == QueueCheckRun(old(s.State()), repositoryId, p, now)
  {
    if p.checkAction.Some? && p.checkAction.value != "completed" { return Err("check_run_not_completed"); }
    if !p.failed { return Err("check_not_failed"); }
    if p.checkRunId.None? || p.checkRunId.value < 1 { return Err("missing_check_run_id"); }
    if !p.singlePullRequest { return Err("check_run_without_single_pr"); }
    if p.headSha.None? { return Err("missing_head_sha"); }
    if p.number.None? || p.number.value < 1 { return Err("missing_pull_number"); }
    if p.headRepositoryId.Some? && p.headRepositoryId.value != repositoryId { return Err("fork_branch_refused"); }
    var number, sha := p.number.value, p.headSha.value;
    if exists i | 0 <= i < |s.runs| :: IsLiveCi(s.runs[i], repositoryId, number, sha) { return Err("duplicate_ci_head_sha"); }
    if repositoryId <= 0 || !ValidSha(sha) { return Err("invalid_head_sha"); }
    var assessor := LatestAssessment(s.runs, |s.runs|, repositoryId, number, sha);
    var id := s.CreateQueuedRun(Ci, repositoryId, sha, "github_webhook", now);
    s.runs := s.runs[id := s.runs[id].(pullNumber := Some(number), checkRunId := p.checkRunId)];
    if assessor.Some? {
      var ok := s.LinkRuns(assessor.value, id, "failed_check_after_assessment");
    }
    r := Ok(id);
  }

  method ProcessGithubDelivery(s: Session, settings: Settings, d: Delivery, now: int)
    modifies s
    ensures s.State() == Processed(old(s.State()), settings, d, now)
  {
    hide QueuePullRequest, QueueCheckRun;
    if exists i | 0 <= i < |s.events| :: s.events[i].deliveryId == d.id { return; }
    if !d.signatureOk {
      s.events := s.events + [WebhookEvent(d.id, false, Some("invalid_signature"))];
      return;
    }
    if d.body.None? {
      s.events := s.events + [WebhookEvent(d.id, true, Some("invalid_json"))];
      return;
    }
    var repository, payload := d.body.value.repositoryId, d.body.value.payload;
    var r: Result<nat, string>;
    if settings.requireTargetManifest && (repository.None? || repository.value !in settings.manifests) {
      r := Err("missing_target_manifest");
    } else if repository.None? {
      r := Err("missing_repository_id");
    } else if repository.value !in settings.allowedRepositoryIds {
      r := Err("repository_not_allowlisted");
    } else if payload.None? || payload.value.OtherEvent? {
      r := Err("unsupported_event");
    } else if payload.value.CheckRun? {
      r := QueueCheckRunRun(s, repository.value, payload.value, now);
    } else {
      r := QueuePullRequestRun(s, repository.value, payload.value, now);
    }
    EventsUntouched(old(s.State()), settings, d.body.value, now);
    s.events := s.events + [WebhookEvent(d.id, true, if r.Err? then Some(r.error) else None)];
    if r.Ok? {
      s.eventRuns := s.eventRuns + [(d.id, r.value)];
    }
  }

  // ---- Properties of one delivery -----------------------------------------------------------------------------

  lemma {:induction false} SupersessionFrame(db: Db, n: nat, repositoryId: int, pullNumber: int, newerSha: string, actor: string, now: int)
    requires n <= |db.runs|
    ensures var db' := SupersededUpTo(db, n, repositoryId, pullNumber, newerSha, actor, now);
            && db' == db.(runs := db'.runs, transitions := db'.transitions)
            && forall i | 0 <= i < |db.runs| ::
                 db'.runs[i] == if i < n && Supersedable(db.runs[i], repositoryId, pullNumber, newerSha)
                                then db.runs[i].(status := Superseded, terminalAt := Some(now)) else db.runs[i]
  {
    if n > 0 {
      SupersessionFrame(db, n - 1, repositoryId, pullNumber, newerSha, actor, now);
    }
  }

  lemma {:induction false} LinksAppended(db: Db, ids: seq<nat>, target: nat)
    ensures var db' := LinkedTo(db, ids, target);
            && db' == db.(links := db'.links) && |db'.links| == |db.links| + |ids| && db.links <= db'.links
            && forall k | 0 <= k < |ids| :: db'.links[|db.links| + k] == Link(ids[k], target, "superseded_by")
  {
    if ids != [] {
      LinksAppended(db, ids[..|ids| - 1], target);
    }
  }

  lemma EventsUntouched(db: Db, settings: Settings, body: Body, now: int)
    ensures var db' := QueueWebhookRun(db, settings, body, now).0;
            db'.events == db.events && db'.eventRuns == db.eventRuns && db'.leases == db.leases
  {
    hide SupersededUpTo, SupersededIds, ValidSha, LatestAssessment, IsLiveCi;
    if body.repositoryId.Some? && body.payload.Some? && body.payload.value.PullRequest? {
      var p := body.payload.value;
      if p.headSha.Some? && p.number.Some? {
        var db1 := SupersededUpTo(db, |db.runs|, body.repositoryId.value, p.number.value, p.headSha.value, "github_webhook", now);
        SupersessionFrame(db, |db.runs|, body.repositoryId.value, p.number.value, p.headSha.value, "github_webhook", now);
        LinksAppended(Located(CreatedQueued(db1, Assessor, body.repositoryId.value, p.headSha.value, "github_webhook", now), |db.runs|, p.number, None),
                      SupersededIds(db, |db.runs|, body.repositoryId.value, p.number.value, p.headSha.value), |db.runs|);
      }
    }
  }

  /** A delivery that was processed is seen, and processing any delivery with its id again changes nothing. */
  lemma IntakeIsIdempotent(db: Db, settings: Settings, d: Delivery, again: Delivery, settings': Settings, now: int, later: int)
    requires again.id == d.id
    ensures Seen(Processed(db, settings, d, now), d.id)
    ensures Processed(Processed(db, settings, d, now), settings', again, later) == Processed(db, settings, d, now)
  {
    hide QueueWebhookRun;
    var db' := Processed(db, settings, d, now);
    if !Seen(db, d.id) {
      assert db'.events[|db'.events| - 1].deliveryId == d.id;
    }
  }

  lemma {:induction false} SupersededIdsAre(db: Db, n: nat, repositoryId: int, pullNumber: int, newerSha: string, i: nat)
    requires i < n <= |db.runs| && Supersedable(db.runs[i], repositoryId, pullNumber, newerSha)
    ensures i in SupersededIds(db, n, repositoryId, pullNumber, newerSha)
  {
    if i < n - 1 {
      SupersededIdsAre(db, n - 1, repositoryId, pullNumber, newerSha, i);
    }
  }

  /**
   * A pull-request event that is not from a bot leaves no run of that pull request with another SHA in a
   * supersedable status, links every superseded run to the new one, and changes no other run.
   */
  lemma SupersessionIsComplete(db: Db, repositoryId: int, p: Payload, now: int)
    requires p.PullRequest? && !p.senderIsBot && p.number.Some? && p.number.value >= 1
    requires QueuePullRequest(db, repositoryId, p, now).1.Ok?
    ensures var (db', r) := QueuePullRequest(db, repositoryId, p, now);
            && r == Ok(|db.runs|) && |db'.runs| == |db.runs| + 1
            && (forall i | 0 <= i < |db'.runs| :: !IsOutdated(db'.runs[i], repositoryId, p.number.value, p.headSha.value))
            && (forall i | 0 <= i < |db.runs| ::
                  if IsOutdated(db.runs[i], repositoryId, p.number.value, p.headSha.value)
                  then db'.runs[i].status == Superseded && Link(i, |db.runs|, "superseded_by") in db'.links
                  else db'.runs[i] == db.runs[i])
  {
    var sha, number, id := p.headSha.value, p.number.value, |db.runs|;
    var db1 := SupersededUpTo(db, id, repositoryId, number, sha, "github_webhook", now);
    var ids := SupersededIds(db, id, repositoryId, number, sha);
    var db2 := Located(CreatedQueued(db1, Assessor, repositoryId, sha, "github_webhook", now), id, p.number, None);
    hide ValidSha;
    SupersessionFrame(db, id, repositoryId, number, sha, "github_webhook", now);
    LinksAppended(db2, ids, id);
    var db' := LinkedTo(db2, ids, id);
    assert QueuePullRequest(db, repositoryId, p, now) == (db', Ok(id));
    forall run
      ensures Supersedable(run, repositoryId, number, sha) <==> IsOutdated(run, repositoryId, number, sha)
    {
      SupersedableMeaning(run, repositoryId, number, sha);
    }
    hide SupersededUpTo, SupersededIds, LinkedTo;
    forall i | 0 <= i < id && Supersedable(db.runs[i], repositoryId, number, sha)
      ensures Link(i, id, "superseded_by") in db'.links
    {
      SupersededIdsAre(db, id, repositoryId, number, sha, i);
      var k :| 0 <= k < |ids| && ids[k] == i;
      assert db'.links[|db2.links| + k] == Link(i, id, "superseded_by");
    }
  }

  // ---- Which deliveries queue a run -------------------------------------------------------------------------------

  /** A check that refuses a delivery if it is true, and the reason then given. */
  type Check = (bool, string)

  function FirstFailed(checks: seq<Check>): Option<string> {
    if checks == [] then None else if checks[0].0 then Some(checks[0].1) else FirstFailed(checks[1..])
  }

  predicate IsImmutableSha(sha: string) {
    |sha| in {40, 64} && forall c | c in sha :: c in "0123456789abcdef"
  }

  /** The checks on a delivery in their order; later ones are only made if the earlier ones pass. */
  function Checks(db: Db, settings: Settings, d: Delivery): seq<Check> {
    [(!d.signatureOk, "invalid_signature"), (d.body.None?, "invalid_json")]
    + if d.body.None? then [] else RepositoryChecks(settings, d.body.value) + PayloadChecks(db, d.body.value)
  }

  function RepositoryChecks(settings: Settings, body: Body): seq<Check> {
    [(settings.requireTargetManifest && (body.repositoryId.None? || body.repositoryId.value !in settings.manifests), "missing_target_manifest"),
     (body.repositoryId.None?, "missing_repository_id"),
     (body.repositoryId.Some? && body.repositoryId.value !in settings.allowedRepositoryIds, "repository_not_allowlisted"),
     (body.payload.None? || body.payload.value.OtherEvent?, "unsupported_event")]
  }

  function PayloadChecks(db: Db, body: Body): seq<Check> {
    if body.repositoryId.None? || body.payload.None? then []
    else
      match body.payload.value
      case OtherEvent => []
      case PullRequest(action, isObject, headSha, _, _) =>
        [(action !in {"opened", "synchronize", "reopened"} || !isObject, "unsupported_event_action"),
         (headSha.None?, "missing_head_sha"),
         (body.repositoryId.value <= 0 || (headSha.Some? && !IsImmutableSha(headSha.value)), "invalid_head_sha")]
      case CheckRun(action, failed, checkRunId, single, headSha, number, headRepositoryId) =>
        [(action.Some? && action != Some("completed"), "check_run_not_completed"),
         (!failed, "check_not_failed"),
         (checkRunId.None? || checkRunId.value < 1, "missing_check_run_id"),
         (!single, "check_run_without_single_pr"),
         (headSha.None?, "missing_head_sha"),
         (number.None? || number.value < 1, "missing_pull_number"),
         (headRepositoryId.Some? && headRepositoryId != body.repositoryId, "fork_branch_refused"),
         (HasLiveCi(db, body.repositoryId, number, headSha), "duplicate_ci_head_sha"),
         (body.repositoryId.value <= 0 || (headSha.Some? && !IsImmutableSha(headSha.value)), "invalid_head_sha")]
  }

  /** A CI run of the pull request's head that is neither superseded nor cancelled. */
  predicate HasLiveCi(db: Db, repositoryId: Option<int>, number: Option<int>, headSha: Option<string>) {
    exists run | run in db.runs ::
      run.role == Ci && Some(run.repositoryId) == repositoryId && run.pullNumber.Some? && run.pullNumber == number
      && Some(run.pinnedSha) == headSha && run.status != Superseded && run.status != Cancelled
  }

  /** The run a delivery queues. */
  ghost predicate IsQueuedFor(d: Delivery, run: Run) {
    d.body.Some? && d.body.value.payload.Some? && run.status == Queued && run.terminalAt == None
    && Some(run.repositoryId) == d.body.value.repositoryId &&
    match d.body.value.payload.value
    case OtherEvent => false
    case PullRequest(_, _, headSha, number, _) =>
      && run.role == Assessor && Some(run.pinnedSha) == headSha && run.checkRunId == None
      && run.pullNumber == if number.Some? && number.value >= 1 then number else None
    case CheckRun(_, _, checkRunId, _, headSha, number, _) =>
      run.role == Ci && Some(run.pinnedSha) == headSha && run.pullNumber == number && run.checkRunId == checkRunId
  }

  lemma ShaMeaning(sha: string)
    ensures ValidSha(sha) <==> IsImmutableSha(sha)
  {
    var digits := "0123456789abcdef";
    forall c: char
      ensures ('0' <= c <= '9' || 'a' <= c <= 'f') <==> c in digits
    {
      if '0' <= c <= '9' {
        assert digits[c as int - '0' as int] == c;
      } else if 'a' <= c <= 'f' {
        assert digits[10 + (c as int - 'a' as int)] == c;
      }
    }
    assert forall i | 0 <= i < |sha| :: sha[i] in sha;
  }

  lemma LiveMeaning(db: Db, repositoryId: int, number: int, sha: string)
    ensures (exists i | 0 <= i < |db.runs| :: IsLiveCi(db.runs[i], repositoryId, number, sha))
       <==> HasLiveCi(db, Some(repositoryId), Some(number), Some(sha))
  {
    if HasLiveCi(db, Some(repositoryId), Some(number), Some(sha)) {
      var run :| run in db.runs && IsLiveCi(run, repositoryId, number, sha);
      var i :| 0 <= i < |db.runs| && db.runs[i] == run;
    }
  }

  lemma PullRequestMeaning(db: Db, body: Body, now: int)
    requires body.repositoryId.Some? && body.payload.Some? && body.payload.value.PullRequest?
    ensures var (db', r) := QueuePullRequest(db, body.repositoryId.value, body.payload.value, now);
            match FirstFailed(PayloadChecks(db, body))
            case Some(reason) => (db', r) == (db, Err(reason))
            case None => r == Ok(|db.runs|) && |db'.runs| == |db.runs| + 1 && IsQueuedFor(Delivery("", true, Some(body)), db'.runs[|db.runs|])
  {
    var p, id := body.payload.value, |db.runs|;
    hide ValidSha, IsImmutableSha, SupersededUpTo, SupersededIds, LinkedTo;
    if p.headSha.Some? {
      ShaMeaning(p.headSha.value);
      var number := if p.number.Some? && p.number.value >= 1 then p.number else None;
      var supersede := number.Some? && !p.senderIsBot;
      var db1 := if supersede then SupersededUpTo(db, id, body.repositoryId.value, number.value, p.headSha.value, "github_webhook", now) else db;
      var ids := if supersede then SupersededIds(db, id, body.repositoryId.value, number.value, p.headSha.value) else [];
      var db2 := Located(CreatedQueued(db1, Assessor, body.repositoryId.value, p.headSha.value, "github_webhook", now), id, number, None);
      LinksAppended(db2, ids, id);
    }
    Unroll(PayloadChecks(db, body));
  }

  /** The first checks of a list. */
  lemma Unroll(checks: seq<Check>)
    requires |checks| >= 3
    ensures FirstFailed(checks)
         == if checks[0].0 then Some(checks[0].1) else if checks[1].0 then Some(checks[1].1) else if checks[2].0 then Some(checks[2].1)
            else FirstFailed(checks[3..])
  {
    assert checks[1..][1..] == checks[2..] && checks[2..][1..] == checks[3..];
    assert FirstFailed(checks[2..]) == if checks[2].0 then Some(checks[2].1) else FirstFailed(checks[3..]);
    assert FirstFailed(checks[1..]) == if checks[1].0 then Some(checks[1].1) else FirstFailed(checks[2..]);
  }

  lemma CheckRunMeaning(db: Db, body: Body, now: int)
    requires body.repositoryId.Some? && body.payload.Some? && body.payload.value.CheckRun?
    ensures var (db', r) := QueueCheckRun(db, body.repositoryId.value, body.payload.value, now);
            match FirstFailed(PayloadChecks(db, body))
            case Some(reason) => (db', r) == (db, Err(reason))
            case None => r == Ok(|db.runs|) && |db'.runs| == |db.runs| + 1 && IsQueuedFor(Delivery("", true, Some(body)), db'.runs[|db.runs|])
  {
    var p := body.payload.value;
    if p.headSha.Some? {
      ShaMeaning(p.headSha.value);
      if p.number.Some? {
        LiveMeaning(db, body.repositoryId.value, p.number.value, p.headSha.value);
      }
    }
    hide ValidSha, IsImmutableSha, HasLiveCi, IsLiveCi, LatestAssessment, IsAssessment;
    var checks := PayloadChecks(db, body);
    Unroll(checks);
    Unroll(checks[3..]);
    Unroll(checks[3..][3..]);
  }

  /**
   * A delivery with a new id is recorded with the reason of the first check it fails, and then changes nothing
   * else; if it fails none, exactly one run is queued for it, with what the payload says.
   */
  lemma ProcessedMeaning(db: Db, settings: Settings, d: Delivery, now: int)
    ensures (exists event | event in db.events :: event.deliveryId == d.id) ==> Processed(db, settings, d, now) == db
    ensures (forall event | event in db.events :: event.deliveryId != d.id) ==>
              var db', reason := Processed(db, settings, d, now), FirstFailed(Checks(db, settings, d));
              && db'.events == db.events + [WebhookEvent(d.id, d.signatureOk, reason)] && db'.leases == db.leases
              && (reason.Some? ==> db' == db.(events := db'.events))
              && (reason.None? ==>
                    && |db'.runs| == |db.runs| + 1 && IsQueuedFor(d, db'.runs[|db.runs|])
                    && db'.eventRuns == db.eventRuns + [(d.id, |db.runs|)])
  {
    if exists event | event in db.events :: event.deliveryId == d.id {
      var event :| event in db.events && event.deliveryId == d.id;
      var i :| 0 <= i < |db.events| && db.events[i] == event;
      assert Seen(db, d.id);
    } else {
      assert !Seen(db, d.id);
      NewDelivery(db, settings, d, now);
    }
  }

  lemma {:induction false} BothLists(a: seq<Check>, b: seq<Check>)
    ensures FirstFailed(a + b) == if FirstFailed(a).Some? then FirstFailed(a) else FirstFailed(b)
  {
    if a == [] {
      assert a + b == b;
    } else {
      assert (a + b)[1..] == a[1..] + b;
      BothLists(a[1..], b);
    }
  }

  lemma NewDelivery(db: Db, settings: Settings, d: Delivery, now: int)
    requires !Seen(db, d.id)
    ensures var db', reason := Processed(db, settings, d, now), FirstFailed(Checks(db, settings, d));
            && db'.events == db.events + [WebhookEvent(d.id, d.signatureOk, reason)] && db'.leases == db.leases
            && (reason.Some? ==> db' == db.(events := db'.events))
            && (reason.None? ==>
                  && |db'.runs| == |db.runs| + 1 && IsQueuedFor(d, db'.runs[|db.runs|])
                  && db'.eventRuns == db.eventRuns + [(d.id, |db.runs|)])
  {
    var first := [(!d.signatureOk, "invalid_signature"), (d.body.None?, "invalid_json")];
    assert first[1..] == [first[1]] && [first[1]][1..] == [];
    if d.body.Some? {
      var body := d.body.value;
      BothLists(first, RepositoryChecks(settings, body) + PayloadChecks(db, body));
      BothLists(RepositoryChecks(settings, body), PayloadChecks(db, body));
      RepositoryFirst(settings, body);
      EventsUntouched(db, settings, body, now);
      if body.repositoryId.Some? && body.payload.Some? && body.payload.value.PullRequest? {
        PullRequestMeaning(db, body, now);
      }
      if body.repositoryId.Some? && body.payload.Some? && body.payload.value.CheckRun? {
        CheckRunMeaning(db, body, now);
      }
    } else {
      assert first + [] == first;
    }
    hide QueuePullRequest, QueueCheckRun, PayloadChecks, RepositoryChecks;
  }

  lemma RepositoryFirst(settings: Settings, body: Body)
    ensures FirstFailed(RepositoryChecks(settings, body))
         == if settings.requireTargetManifest && (body.repositoryId.None? || body.repositoryId.value !in settings.manifests)
            then Some("missing_target_manifest")
            else if body.repositoryId.None? then Some("missing_repository_id")
            else if body.repositoryId.value !in settings.allowedRepositoryIds then Some("repository_not_allowlisted")
            else if body.payload.None? || body.payload.value.OtherEvent? then Some("unsupported_event")
            else None
  {
    var checks := RepositoryChecks(settings, body);
    Unroll(checks);
    assert checks[3..][0] == checks[3] && checks[3..][1..] == [];
  }

  /** A run that assessed the pull request's head. */
  predicate Assessed(run: Run, repositoryId: int, number: int, sha: string) {
    run.role == Assessor && run.repositoryId == repositoryId && run.pullNumber == Some(number) && run.pinnedSha == sha
  }

  /** The run is the latest of the first `n` that assessed this head. */
  ghost predicate IsLatest(runs: seq<Run>, n: nat, repositoryId: int, number: int, sha: string, k: nat) {
    k < n <= |runs| && Assessed(runs[k], repositoryId, number, sha) && forall i | k < i < n :: !Assessed(runs[i], repositoryId, number, sha)
  }

  lemma {:induction false} LatestMeaning(runs: seq<Run>, n: nat, repositoryId: int, number: int, sha: string)
    requires n <= |runs|
    ensures match LatestAssessment(runs, n, repositoryId, number, sha)
            case Some(k) => IsLatest(runs, n, repositoryId, number, sha, k)
            case None => forall i | 0 <= i < n :: !Assessed(runs[i], repositoryId, number, sha)
  {
    if n > 0 {
      LatestMeaning(runs, n - 1, repositoryId, number, sha);
    }
  }

  /** A queued CI run is linked from the latest assessment of its head, and from nothing else. */
  lemma CheckRunLinks(db: Db, repositoryId: int, p: Payload, now: int)
    requires p.CheckRun? && QueueCheckRun(db, repositoryId, p, now).1.Ok?
    ensures p.number.Some? && p.headSha.Some?
    ensures var links := QueueCheckRun(db, repositoryId, p, now).0.links;
            || ((forall i | 0 <= i < |db.runs| :: !Assessed(db.runs[i], repositoryId, p.number.value, p.headSha.value)) && links == db.links)
            || exists k :: IsLatest(db.runs, |db.runs|, repositoryId, p.number.value, p.headSha.value, k)
                           && links == db.links + [Link(k, |db.runs|, "failed_check_after_assessment")]
  {
    LatestMeaning(db.runs, |db.runs|, repositoryId, p.number.value, p.headSha.value);
    hide ValidSha, IsLiveCi, LatestAssessment, Assessed, IsLatest;
  }
}
