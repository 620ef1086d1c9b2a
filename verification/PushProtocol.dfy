/**
 * The only write flow of a CI run: `push_validated_patch` of src/agentic_lab/runs/ci_push.py,
 * `apply_validated_patch` and the branch writer of src/agentic_lab/gateway/github.py, and
 * `evaluate_push_gate` of src/agentic_lab/policy/push_gate.py.
 *
 * Several attempts of one run can be under way at once (a worker whose lease was reclaimed does not
 * stop at once), each with its own patch and evidence; they share the run's pinned SHA. Other pushers
 * move the branch between any two requests, and any request can fail or lose its response. The branch
 * accepts fast-forward updates only.
 */
module PushProtocol {
  import opened Wrappers
  import opened RunStatuses
  import Delivery
  import HeaderCoverage
  import PatchPolicy
  import UnifiedDiff
  import Workspaces

  // ---- The gate -------------------------------------------------------------------------------------

  datatype PushContext = PushContext(
    pinnedSha: nat,
    observedHeadSha: nat,
    patchBaseSha: nat,
    optInExpiresAt: Option<int>,
    sameRepositoryBranch: bool,
    reproductionPassed: bool,
    validationPassed: bool,
    failureClass: string,
    attemptCount: nat,
    diff: string)

  datatype GateReason =
    | MissingOrExpiredOptIn | ForkBranchRefused | StaleHeadSha | UnreproducedOrExternalFailure
    | ValidationNotPassed | OneAttemptPolicy | SecretDetection | PatchRefused

  /** What the gate consults besides its context; `secretDetected` stands for the redaction patterns. */
  datatype GatePolicy = GatePolicy(library: PatchPolicy.Library, patchPolicy: PatchPolicy.Policy, secretDetected: string -> bool)

  /** `evaluate_push_gate`; `None` is ALLOW. */
  function EvaluatePushGate(context: PushContext, policy: GatePolicy, now: int): Option<GateReason> {
    if context.optInExpiresAt.None? || context.optInExpiresAt.value <= now then Some(MissingOrExpiredOptIn)
    else if !context.sameRepositoryBranch then Some(ForkBranchRefused)
    else if context.observedHeadSha != context.pinnedSha || context.patchBaseSha != context.pinnedSha then Some(StaleHeadSha)
    else if context.failureClass != "repository" || !context.reproductionPassed then Some(UnreproducedOrExternalFailure)
    else if !context.validationPassed then Some(ValidationNotPassed)
    else if context.attemptCount != 0 then Some(OneAttemptPolicy)
    else if policy.secretDetected(context.diff) then Some(SecretDetection)
    else if !PatchPolicy.Allows(policy.library, policy.patchPolicy, context.diff) then Some(PatchRefused)
    else None
  }

  // ---- The repository ---------------------------------------------------------------------------------

  datatype Commit = Commit(parents: set<nat>, tree: Workspaces.Tree)

  /** Commits in creation order; a commit is known by its index. */
  type Graph = seq<Commit>

  ghost predicate ValidGraph(graph: Graph) {
    forall c, p | 0 <= c < |graph| && p in graph[c].parents :: p < c
  }

  ghost predicate Ancestor(graph: Graph, a: nat, c: nat)
    requires ValidGraph(graph) && c < |graph|
    decreases c
  {
    a == c || exists p | p in graph[c].parents :: Ancestor(graph, a, p)
  }

  lemma {:induction false} AncestorIsOlder(graph: Graph, a: nat, c: nat)
    requires ValidGraph(graph) && c < |graph| && Ancestor(graph, a, c)
    ensures a <= c
    decreases c
  {
    if a != c {
      var p :| p in graph[c].parents && Ancestor(graph, a, p);
      AncestorIsOlder(graph, a, p);
    }
  }

  lemma {:induction false} AncestorTransitive(graph: Graph, a: nat, b: nat, c: nat)
    requires ValidGraph(graph) && b < |graph| && c < |graph|
    requires Ancestor(graph, a, b) && Ancestor(graph, b, c)
    ensures Ancestor(graph, a, c)
    decreases c
  {
    if b != c {
      var p :| p in graph[c].parents && Ancestor(graph, b, p);
      AncestorTransitive(graph, a, b, p);
    }
  }

  lemma {:induction false} AncestorInLarger(graph: Graph, commit: Commit, a: nat, c: nat)
    requires ValidGraph(graph) && ValidGraph(graph + [commit]) && c < |graph|
    ensures Ancestor(graph, a, c) <==> Ancestor(graph + [commit], a, c)
    decreases c
  {
    forall p | p in graph[c].parents
      ensures Ancestor(graph, a, p) <==> Ancestor(graph + [commit], a, p)
    {
      AncestorInLarger(graph, commit, a, p);
    }
    assert (graph + [commit])[c] == graph[c];
  }

  // ---- States and steps -----------------------------------------------------------------------------------

  /** What one call of `push_validated_patch` works with: its gate context and the run row and artifact beside it. */
  datatype Evidence = Evidence(context: PushContext, policy: GatePolicy, hasPullRequestBranch: bool, artifactPathsMatch: bool)

  datatype Pc =
    | Precheck                       // evidence exists, nothing decided yet
    | Recheck                        // PUSHING; the gate is about to be evaluated again
    | CheckHead                      // about to compare the branch head with the pinned SHA
    | WriterCheckHead                // the writer compares it once more
    | Build                          // about to create the commit
    | UpdateRef(commit: nat)         // about to request the fast-forward
    | Returned(result: Option<nat>)
    | Raised

  datatype Attempt = Attempt(evidence: Evidence, pc: Pc, path: seq<RunStatus>, allowedAt: seq<int>) {
    function Status(): RunStatus
      requires path != []
    {
      path[|path| - 1]
    }

    function Go(next: Pc): Attempt {
      this.(pc := next)
    }

    function End(status: RunStatus, result: Option<nat>): Attempt {
      this.(pc := Returned(result), path := path + [status])
    }
  }

  /** `built` are the commits made for this run, `written` pairs an attempt with the commit it put on the branch. */
  datatype World = World(graph: Graph, heads: seq<nat>, attempts: seq<Attempt>, built: set<nat>, written: set<(nat, nat)>) {
    function Head(): nat
      requires heads != []
    {
      heads[|heads| - 1]
    }
  }

  datatype Event =
    | Begin(evidence: Evidence)                    // an attempt reaches the push flow
    | Decide(attempt: nat, now: int)               // Precheck or Recheck
    | Look(attempt: nat)                           // either head comparison
    | MakeCommit(attempt: nat, commit: nat)        // a new commit, or one already made with equal content
    | FastForward(attempt: nat, arrives: bool, answered: bool)
    | Unauthorized(attempt: nat)                   // the writer refuses the repository
    | Raise(attempt: nat)                          // any other request or patch application fails
    | OtherCommit(other: Commit)
    | OtherUpdate(commit: nat)

  function Begun(evidence: Evidence): Attempt {
    Attempt(evidence, Precheck, [Evaluating], [])
  }

  /** `allowedAt` records when a gate evaluation came out as ALLOW. */
  function Decided(a: Attempt, now: int): Attempt {
    var reason := EvaluatePushGate(a.evidence.context, a.evidence.policy, now);
    if a.pc == Precheck && !a.evidence.hasPullRequestBranch then a.End(Refused, None)
    else if a.pc == Precheck && reason == Some(StaleHeadSha) then a.End(Superseded, None)
    else if reason.Some? || (a.pc == Precheck && !a.evidence.artifactPathsMatch) then a.End(Refused, None)
    else if a.pc == Precheck then a.(pc := Recheck, path := a.path + [ReadyToPush, Pushing], allowedAt := a.allowedAt + [now])
    else a.(pc := CheckHead, allowedAt := a.allowedAt + [now])
  }

  function Looked(pinned: nat, a: Attempt, head: nat): Attempt {
    if head != pinned then a.End(Refused, None)
    else a.Go(if a.pc == CheckHead then WriterCheckHead else Build)
  }

  /** The commit the writer asks for: the entries of the attempt's diff over the pinned tree; `None` if the diff does not apply. */
  function CommitFor(graph: Graph, pinned: nat, evidence: Evidence): Option<Commit>
    requires pinned < |graph|
  {
    match Delivery.RequestedEntries(graph[pinned].tree, evidence.context.diff)
    case Err(_) => None
    case Ok(entries) => Some(Commit({pinned}, Delivery.FoldEntries(graph[pinned].tree, entries)))
  }

  ghost predicate Next(pinned: nat, w: World, e: Event, w': World)
    requires HeadsValid(pinned, w)
  {
    match e
    case Begin(evidence) =>
      && evidence.context.pinnedSha == pinned
      && w' == w.(attempts := w.attempts + [Begun(evidence)])
    case Decide(i, now) =>
      && i < |w.attempts| && w.attempts[i].pc in {Precheck, Recheck}
      && w' == w.(attempts := w.attempts[i := Decided(w.attempts[i], now)])
    case Look(i) =>
      && i < |w.attempts| && w.attempts[i].pc in {CheckHead, WriterCheckHead}
      && w' == w.(attempts := w.attempts[i := Looked(pinned, w.attempts[i], w.Head())])
    case MakeCommit(i, c) =>
      && i < |w.attempts| && w.attempts[i].pc == Build
      && var commit := CommitFor(w.graph, pinned, w.attempts[i].evidence);
         && commit.Some? && (c == |w.graph| || (c in w.built && c < |w.graph| && w.graph[c] == commit.value))
         && w' == w.(graph := if c == |w.graph| then w.graph + [commit.value] else w.graph,
                     built := w.built + {c},
                     attempts := w.attempts[i := w.attempts[i].Go(UpdateRef(c))])
    case FastForward(i, arrives, answered) =>
      && i < |w.attempts| && w.attempts[i].pc.UpdateRef?
      && var c := w.attempts[i].pc.commit;
         c < |w.graph| &&
         if arrives && Ancestor(w.graph, w.Head(), c) then
           w' == w.(heads := w.heads + [c], written := w.written + {(i, c)},
                    attempts := w.attempts[i := if answered then w.attempts[i].End(Succeeded, Some(c))
                                                else w.attempts[i].Go(Raised)])
         else
           w' == w.(attempts := w.attempts[i := w.attempts[i].Go(Raised)])
    case Unauthorized(i) =>
      && i < |w.attempts| && w.attempts[i].pc in {CheckHead, WriterCheckHead}
      && w' == w.(attempts := w.attempts[i := w.attempts[i].End(Refused, None)])
    case Raise(i) =>
      && i < |w.attempts| && !w.attempts[i].pc.Returned?
      && w' == w.(attempts := w.attempts[i := w.attempts[i].Go(Raised)])
    case OtherCommit(other) =>
      && (forall p | p in other.parents :: p < |w.graph|)
      && w' == w.(graph := w.graph + [other])
    case OtherUpdate(c) =>
      && c < |w.graph| && Ancestor(w.graph, w.Head(), c)
      && w' == w.(heads := w.heads + [c])
  }

  // ---- The invariant ------------------------------------------------------------------------------------------

  ghost predicate HeadsValid(pinned: nat, w: World) {
    && ValidGraph(w.graph) && pinned < |w.graph|
    && w.heads != [] && (forall i | 0 <= i < |w.heads| :: w.heads[i] < |w.graph|)
  }

  /** No commit that ever was the head has been dropped from the branch. */
  ghost predicate NothingDropped(pinned: nat, w: World)
    requires HeadsValid(pinned, w)
  {
    forall i | 0 <= i < |w.heads| :: Ancestor(w.graph, w.heads[i], w.Head())
  }

  ghost predicate BuiltOnPinned(pinned: nat, w: World) {
    forall c | c in w.built :: c < |w.graph| && w.graph[c].parents == {pinned}
  }

  /** At most one commit of this run is on the branch, and it was put directly on the pinned SHA. */
  ghost predicate PlacedOnce(pinned: nat, w: World) {
    && (forall i, c | (i, c) in w.written :: c in w.built && c in w.heads)
    && (forall c, d | c in w.built && d in w.built && c in w.heads && d in w.heads :: c == d)
    && (forall c | c in w.built && c in w.heads ::
          exists k | 0 < k < |w.heads| :: w.heads[k] == c && w.heads[k - 1] == pinned)
    && (w.built != {} ==> pinned in w.heads)
  }

  /** The gate, on the attempt's own evidence, came out as ALLOW exactly `n` times, after the checks beside it. */
  ghost predicate Allowed(a: Attempt, n: nat) {
    && |a.allowedAt| == n && (n > 0 ==> a.evidence.hasPullRequestBranch && a.evidence.artifactPathsMatch)
    && forall k | 0 <= k < n :: EvaluatePushGate(a.evidence.context, a.evidence.policy, a.allowedAt[k]).None?
  }

  ghost predicate PastRecheck(pc: Pc) {
    pc in {CheckHead, WriterCheckHead, Build} || pc.UpdateRef? || (pc.Returned? && pc.result.Some?)
  }

  ghost predicate AttemptOk(pinned: nat, w: World, i: nat, a: Attempt)
    requires pinned < |w.graph|
  {
    && a.evidence.context.pinnedSha == pinned
    && a.path != [] && a.path[0] == Evaluating && FollowsTable(a.path)
    && (a.pc == Precheck ==> a.path == [Evaluating] && a.allowedAt == [])
    && (a.pc == Recheck ==> Allowed(a, 1))
    && (PastRecheck(a.pc) ==> Allowed(a, 2))
    && (a.pc == Recheck || (PastRecheck(a.pc) && !a.pc.Returned?) ==> a.Status() == Pushing)
    && (a.pc in {WriterCheckHead, Build} || a.pc.UpdateRef? ==> pinned in w.heads)
    && (a.pc.UpdateRef? ==> a.pc.commit in w.built && BuiltBy(pinned, w, a, a.pc.commit))
    && (a.pc.Returned? ==> match a.pc.result
                           case Some(c) => a.Status() == Succeeded && (i, c) in w.written
                           case None => a.Status() in {Refused, Superseded})
    && (a.Status() == Succeeded ==> a.pc.Returned? && a.pc.result.Some?)
    && (a.Status() == Superseded ==> IsStale(a.evidence.context))
  }

  /** The patch was made, or the head last seen, for another commit than the run's. */
  predicate IsStale(context: PushContext) {
    context.observedHeadSha != context.pinnedSha || context.patchBaseSha != context.pinnedSha
  }

  /** The commit has the content the attempt's own diff asks for. */
  ghost predicate BuiltBy(pinned: nat, w: World, a: Attempt, c: nat)
    requires pinned < |w.graph|
  {
    c < |w.graph| && CommitFor(w.graph, pinned, a.evidence) == Some(w.graph[c])
  }

  /** Whoever wrote a commit built it, and was allowed twice on its own evidence. */
  ghost predicate WritesWereAllowed(pinned: nat, w: World)
    requires pinned < |w.graph|
  {
    forall i, c | (i, c) in w.written :: i < |w.attempts| && Allowed(w.attempts[i], 2) && BuiltBy(pinned, w, w.attempts[i], c)
  }

  ghost predicate Inv(pinned: nat, w: World) {
    && HeadsValid(pinned, w) && NothingDropped(pinned, w)
    && BuiltOnPinned(pinned, w) && PlacedOnce(pinned, w) && WritesWereAllowed(pinned, w)
    && forall i | 0 <= i < |w.attempts| :: AttemptOk(pinned, w, i, w.attempts[i])
  }

  ghost predicate Init(pinned: nat, w: World) {
    && HeadsValid(pinned, w) && |w.heads| == 1
    && w.attempts == [] && w.built == {} && w.written == {}
  }

  // ---- Preservation ---------------------------------------------------------------------------------------

  /** A fast-forward to a commit of this run starts from the pinned SHA or is already in place. */
  lemma FastForwardFrom(pinned: nat, w: World, c: nat)
    requires Inv(pinned, w) && c in w.built && Ancestor(w.graph, w.Head(), c)
    ensures w.Head() == c || w.Head() == pinned
    ensures w.Head() == pinned ==> forall d | d in w.built :: d !in w.heads
  {
    hide AttemptOk, WritesWereAllowed;
    var k :| 0 <= k < |w.heads| && w.heads[k] == pinned;
    AncestorIsOlder(w.graph, pinned, w.Head());
    if w.Head() != c {
      assert Ancestor(w.graph, w.Head(), pinned);
      AncestorIsOlder(w.graph, w.Head(), pinned);
    }
    if w.Head() == pinned {
      forall d | d in w.built
        ensures d !in w.heads
      {
        assert pinned in w.graph[d].parents;
        if d in w.heads {
          var j :| 0 <= j < |w.heads| && w.heads[j] == d;
          AncestorIsOlder(w.graph, d, pinned);
          assert false;
        }
      }
    }
  }

  /** The branch part of the invariant when the head moves to a descendant. */
  lemma HeadMoves(pinned: nat, w: World, c: nat, written: set<(nat, nat)>)
    requires Inv(pinned, w) && c < |w.graph| && Ancestor(w.graph, w.Head(), c)
    requires w.written <= written && forall i, d | (i, d) in written :: (i, d) in w.written || (d == c && c in w.built)
    ensures var w' := w.(heads := w.heads + [c], written := written);
            HeadsValid(pinned, w') && NothingDropped(pinned, w') && BuiltOnPinned(pinned, w') && PlacedOnce(pinned, w')
  {
    hide AttemptOk, WritesWereAllowed;
    var w' := w.(heads := w.heads + [c], written := written);
    forall i | 0 <= i < |w'.heads|
      ensures Ancestor(w'.graph, w'.heads[i], c)
    {
      if i < |w.heads| {
        AncestorTransitive(w.graph, w.heads[i], w.Head(), c);
      }
    }
    if c in w.built {
      FastForwardFrom(pinned, w, c);
    }
    hide Ancestor, NothingDropped;
    HeadPlaced(pinned, w, w', c);
  }

  lemma HeadPlaced(pinned: nat, w: World, w': World, c: nat)
    requires HeadsValid(pinned, w) && PlacedOnce(pinned, w) && w'.heads == w.heads + [c] && w'.built == w.built
    requires forall i, d | (i, d) in w'.written :: (i, d) in w.written || (d == c && c in w.built)
    requires c in w.built ==> w.Head() == c || (w.Head() == pinned && forall d | d in w.built :: d !in w.heads)
    ensures PlacedOnce(pinned, w')
  {
    assert w'.heads[|w.heads|] == c && w'.heads[|w.heads| - 1] == w.Head();
    assert forall d :: d in w'.heads <==> d in w.heads || d == c;
    forall d | d in w.built && d in w'.heads
      ensures exists k | 0 < k < |w'.heads| :: w'.heads[k] == d && w'.heads[k - 1] == pinned
    {
      if d in w.heads {
        var k :| 0 < k < |w.heads| && w.heads[k] == d && w.heads[k - 1] == pinned;
        assert w'.heads[k] == d && w'.heads[k - 1] == pinned;
      }
    }
  }

  lemma GraphGrows(pinned: nat, w: World, commit: Commit)
    requires Inv(pinned, w) && forall p | p in commit.parents :: p < |w.graph|
    ensures var w' := w.(graph := w.graph + [commit]);
            HeadsValid(pinned, w') && NothingDropped(pinned, w') && BuiltOnPinned(pinned, w')
  {
    hide AttemptOk, WritesWereAllowed, PlacedOnce;
    var w' := w.(graph := w.graph + [commit]);
    assert ValidGraph(w'.graph) by {
      forall c, p | 0 <= c < |w'.graph| && p in w'.graph[c].parents
        ensures p < c
      {
        if c < |w.graph| {
          assert p in w.graph[c].parents;
        }
      }
    }
    forall i | 0 <= i < |w.heads|
      ensures Ancestor(w'.graph, w.heads[i], w.Head())
    {
      AncestorInLarger(w.graph, commit, w.heads[i], w.Head());
    }
  }

  /** Attempts other than the one that moves keep their part of the invariant. */
  lemma OthersKeep(pinned: nat, w: World, w': World, i: nat, a: Attempt)
    requires pinned < |w.graph| && AttemptOk(pinned, w, i, a)
    requires w.graph <= w'.graph && w.heads <= w'.heads && w.built <= w'.built && w.written <= w'.written
    ensures AttemptOk(pinned, w', i, a)
  {
    hide Allowed, FollowsTable, CommitFor;
    if a.pc.UpdateRef? {
      StillBuiltBy(pinned, w, w', a, a.pc.commit);
    }
    hide BuiltBy;
    assert pinned in w.heads ==> pinned in w'.heads by {
      if pinned in w.heads {
        var k :| 0 <= k < |w.heads| && w.heads[k] == pinned;
        assert w'.heads[k] == w.heads[k];
      }
    }
  }

  lemma StillBuiltBy(pinned: nat, w: World, w': World, a: Attempt, c: nat)
    requires pinned < |w.graph| && w.graph <= w'.graph && BuiltBy(pinned, w, a, c)
    ensures BuiltBy(pinned, w', a, c)
  {
  }

  lemma PathExtends(path: seq<RunStatus>, target: RunStatus)
    requires path != [] && FollowsTable(path) && target in AllowedTransitions(path[|path| - 1])
    ensures FollowsTable(path + [target]) && (path + [target])[0] == path[0]
  {
    hide AllowedTransitions;
  }

  lemma DecidedOk(pinned: nat, w: World, i: nat, a: Attempt, now: int)
    requires pinned < |w.graph| && AttemptOk(pinned, w, i, a) && a.pc in {Precheck, Recheck}
    ensures AttemptOk(pinned, w, i, Decided(a, now))
  {
    hide EvaluatePushGate, FollowsTable, BuiltBy, Permitted;
    GateMeaning(a.evidence, now);
    if a.pc == Precheck {
      PathExtends([Evaluating], ReadyToPush);
      assert [Evaluating] + [ReadyToPush] == [Evaluating, ReadyToPush];
      PathExtends([Evaluating, ReadyToPush], Pushing);
      assert [Evaluating] + [ReadyToPush, Pushing] == [Evaluating, ReadyToPush] + [Pushing];
      PathExtends([Evaluating], Refused);
      PathExtends([Evaluating], Superseded);
    } else {
      PathExtends(a.path, Refused);
    }
  }

  lemma LookedOk(pinned: nat, w: World, i: nat, a: Attempt)
    requires pinned < |w.graph| && AttemptOk(pinned, w, i, a) && a.pc in {CheckHead, WriterCheckHead} && w.heads != []
    ensures AttemptOk(pinned, w, i, Looked(pinned, a, w.Head()))
    ensures AttemptOk(pinned, w, i, a.End(Refused, None))
  {
    hide EvaluatePushGate, FollowsTable, BuiltBy;
    PathExtends(a.path, Refused);
    assert w.heads[|w.heads| - 1] in w.heads;
  }

  lemma WrittenOk(pinned: nat, w: World, i: nat, a: Attempt)
    requires pinned < |w.graph| && AttemptOk(pinned, w, i, a) && a.pc.UpdateRef? && (i, a.pc.commit) in w.written
    ensures AttemptOk(pinned, w, i, a.End(Succeeded, Some(a.pc.commit)))
  {
    hide EvaluatePushGate, FollowsTable, BuiltBy;
    PathExtends(a.path, Succeeded);
  }

  lemma RaisedOk(pinned: nat, w: World, i: nat, a: Attempt)
    requires pinned < |w.graph| && AttemptOk(pinned, w, i, a) && !a.pc.Returned?
    ensures AttemptOk(pinned, w, i, a.Go(Raised))
  {
    hide EvaluatePushGate, FollowsTable, BuiltBy;
  }

  /** One attempt moved from `a` to `a'`; everything else about the attempts follows. */
  lemma AttemptMoves(pinned: nat, w: World, w': World, i: nat, a': Attempt)
    requires Inv(pinned, w) && i < |w.attempts|
    requires HeadsValid(pinned, w') && NothingDropped(pinned, w') && BuiltOnPinned(pinned, w') && PlacedOnce(pinned, w')
    requires w.graph <= w'.graph && w.heads <= w'.heads && w.built <= w'.built && w.written <= w'.written
    requires w'.attempts == w.attempts[i := a'] && AttemptOk(pinned, w', i, a')
    requires a'.evidence == w.attempts[i].evidence && (Allowed(w.attempts[i], 2) ==> a'.allowedAt == w.attempts[i].allowedAt)
    requires forall j, c | (j, c) in w'.written && (j, c) !in w.written :: j == i && Allowed(a', 2) && BuiltBy(pinned, w', a', c)
    ensures Inv(pinned, w')
  {
    assert pinned < |w.graph| <= |w'.graph|;
    hide Ancestor, EvaluatePushGate, NothingDropped, BuiltOnPinned, PlacedOnce, HeadsValid, AttemptOk, BuiltBy;
    forall j | 0 <= j < |w'.attempts|
      ensures AttemptOk(pinned, w', j, w'.attempts[j])
    {
      if j != i {
        OthersKeep(pinned, w, w', j, w.attempts[j]);
      }
    }
    forall j, c | (j, c) in w'.written
      ensures j < |w'.attempts| && Allowed(w'.attempts[j], 2) && BuiltBy(pinned, w', w'.attempts[j], c)
    {
      if (j, c) in w.written {
        StillBuiltBy(pinned, w, w', w.attempts[j], c);
        SameBuilder(pinned, w', w.attempts[j], w'.attempts[j], c);
      }
    }
  }

  lemma SameBuilder(pinned: nat, w: World, a: Attempt, b: Attempt, c: nat)
    requires pinned < |w.graph| && BuiltBy(pinned, w, a, c) && a.evidence == b.evidence
    ensures BuiltBy(pinned, w, b, c)
  {
  }

  lemma AttemptsStay(pinned: nat, w: World, w': World)
    requires Inv(pinned, w) && w.attempts <= w'.attempts && w'.written == w.written
    requires w.graph <= w'.graph && w.built <= w'.built && w.heads <= w'.heads
    requires HeadsValid(pinned, w') && NothingDropped(pinned, w') && BuiltOnPinned(pinned, w') && PlacedOnce(pinned, w')
    requires forall j | |w.attempts| <= j < |w'.attempts| :: AttemptOk(pinned, w', j, w'.attempts[j])
    ensures Inv(pinned, w')
  {
    assert pinned < |w.graph| <= |w'.graph|;
    hide Ancestor, EvaluatePushGate, NothingDropped, BuiltOnPinned, PlacedOnce, HeadsValid, Allowed, AttemptOk, BuiltBy;
    forall j | 0 <= j < |w'.attempts|
      ensures AttemptOk(pinned, w', j, w'.attempts[j])
    {
      if j < |w.attempts| {
        OthersKeep(pinned, w, w', j, w.attempts[j]);
      }
    }
    forall j, c | (j, c) in w'.written
      ensures j < |w'.attempts| && Allowed(w'.attempts[j], 2) && BuiltBy(pinned, w', w'.attempts[j], c)
    {
      StillBuiltBy(pinned, w, w', w.attempts[j], c);
    }
  }

  lemma CommitPlaced(pinned: nat, w: World, w': World, c: nat, commit: Commit)
    requires Inv(pinned, w) && pinned in w.heads && commit.parents == {pinned}
    requires c == |w.graph| || c in w.built
    requires w' == w.(graph := if c == |w.graph| then w.graph + [commit] else w.graph,
                      built := w.built + {c}, attempts := w'.attempts)
    ensures HeadsValid(pinned, w') && NothingDropped(pinned, w') && BuiltOnPinned(pinned, w') && PlacedOnce(pinned, w')
  {
    hide Ancestor, AttemptOk, WritesWereAllowed;
    if c == |w.graph| {
      GraphGrows(pinned, w, commit);
      assert c !in w.heads;
    }
  }

  lemma CommitMade(pinned: nat, w: World, w': World, i: nat, c: nat)
    requires Inv(pinned, w) && Next(pinned, w, MakeCommit(i, c), w')
    ensures Inv(pinned, w')
  {
    var a := w.attempts[i];
    var commit := CommitFor(w.graph, pinned, a.evidence).value;
    assert commit.parents == {pinned};
    hide CommitFor, Ancestor, EvaluatePushGate;
    assert AttemptOk(pinned, w, i, a);
    assert w.graph <= w'.graph && w'.graph[c] == commit;
    CommitPlaced(pinned, w, w', c, commit);
    SameCommit(w.graph, w'.graph, pinned, a.evidence);
    BuiltOk(pinned, w, w', i, a, c);
    hide AttemptOk, NothingDropped, BuiltOnPinned, PlacedOnce, WritesWereAllowed, Allowed;
    AttemptMoves(pinned, w, w', i, a.Go(UpdateRef(c)));
  }

  lemma SameCommit(graph: Graph, graph': Graph, pinned: nat, evidence: Evidence)
    requires pinned < |graph| && graph <= graph'
    ensures CommitFor(graph', pinned, evidence) == CommitFor(graph, pinned, evidence)
  {
  }

  lemma BuiltOk(pinned: nat, w: World, w': World, i: nat, a: Attempt, c: nat)
    requires pinned < |w.graph| && w.graph <= w'.graph && AttemptOk(pinned, w, i, a) && a.pc == Build
    requires w'.heads == w.heads && w'.built == w.built + {c} && w'.written == w.written && BuiltBy(pinned, w', a, c)
    ensures AttemptOk(pinned, w', i, a.Go(UpdateRef(c)))
  {
    SameBuilder(pinned, w', a, a.Go(UpdateRef(c)), c);
    hide EvaluatePushGate, FollowsTable, BuiltBy;
  }

  lemma RefUpdated(pinned: nat, w: World, w': World, i: nat, arrives: bool, answered: bool)
    requires Inv(pinned, w) && Next(pinned, w, FastForward(i, arrives, answered), w')
    ensures Inv(pinned, w')
  {
    hide CommitFor, EvaluatePushGate, FollowsTable;
    var a := w.attempts[i];
    var c := a.pc.commit;
    assert AttemptOk(pinned, w, i, a);
    if arrives && Ancestor(w.graph, w.Head(), c) {
      HeadMoves(pinned, w, c, w.written + {(i, c)});
      hide Ancestor, NothingDropped, BuiltOnPinned, PlacedOnce, WritesWereAllowed;
      OthersKeep(pinned, w, w', i, a);
      StillBuiltBy(pinned, w, w', a, c);
      SameBuilder(pinned, w', a, w'.attempts[i], c);
      assert Allowed(w'.attempts[i], 2);
      if answered {
        WrittenOk(pinned, w', i, a);
      } else {
        RaisedOk(pinned, w', i, a);
      }
      hide AttemptOk, Allowed, BuiltBy;
      AttemptMoves(pinned, w, w', i, w'.attempts[i]);
    } else {
      hide Ancestor, AttemptOk, BuiltBy, Allowed;
      MovedAlone(pinned, w, w', i, a.Go(Raised));
    }
  }

  /** A step that only moves one attempt, by a rule that keeps `AttemptOk`. */
  lemma MovedAlone(pinned: nat, w: World, w': World, i: nat, a': Attempt)
    requires Inv(pinned, w) && i < |w.attempts| && w' == w.(attempts := w.attempts[i := a'])
    requires a'.evidence == w.attempts[i].evidence && (Allowed(w.attempts[i], 2) ==> a'.allowedAt == w.attempts[i].allowedAt)
    requires AttemptOk(pinned, w, i, a') || (a' == w.attempts[i].Go(Raised) && !w.attempts[i].pc.Returned?)
    ensures Inv(pinned, w')
  {
    hide Ancestor, EvaluatePushGate, AttemptOk, Allowed, BuiltBy;
    if a' == w.attempts[i].Go(Raised) && !w.attempts[i].pc.Returned? {
      RaisedOk(pinned, w, i, w.attempts[i]);
    }
    OthersKeep(pinned, w, w', i, a');
    AttemptMoves(pinned, w, w', i, a');
  }

  lemma StepKeeps(pinned: nat, w: World, e: Event, w': World)
    requires Inv(pinned, w) && Next(pinned, w, e, w')
    ensures Inv(pinned, w') && w.graph <= w'.graph
  {
    hide Ancestor, EvaluatePushGate, AttemptOk, Allowed, BuiltBy, CommitFor, NothingDropped, PlacedOnce, BuiltOnPinned, WritesWereAllowed;
    match e
    case Begin(evidence) =>
      BegunOk(pinned, w', |w.attempts|, evidence);
      PartsStay(pinned, w, w');
      AttemptsStay(pinned, w, w');
    case Decide(i, now) =>
      DecidedOk(pinned, w, i, w.attempts[i], now);
      DecidedTimes(pinned, w, i, w.attempts[i], now);
      MovedAlone(pinned, w, w', i, Decided(w.attempts[i], now));
    case Look(i) =>
      LookedOk(pinned, w, i, w.attempts[i]);
      MovedAlone(pinned, w, w', i, Looked(pinned, w.attempts[i], w.Head()));
    case MakeCommit(i, c) => CommitMade(pinned, w, w', i, c);
    case FastForward(i, arrives, answered) => RefUpdated(pinned, w, w', i, arrives, answered);
    case Unauthorized(i) =>
      LookedOk(pinned, w, i, w.attempts[i]);
      MovedAlone(pinned, w, w', i, w.attempts[i].End(Refused, None));
    case Raise(i) => MovedAlone(pinned, w, w', i, w.attempts[i].Go(Raised));
    case OtherCommit(other) =>
      GraphGrows(pinned, w, other);
      SamePlaces(pinned, w, w');
      AttemptsStay(pinned, w, w');
    case OtherUpdate(c) =>
      HeadMoves(pinned, w, c, w.written);
      AttemptsStay(pinned, w, w');
  }

  lemma SamePlaces(pinned: nat, w: World, w': World)
    requires PlacedOnce(pinned, w) && w'.heads == w.heads && w'.built == w.built && w'.written == w.written
    ensures PlacedOnce(pinned, w')
  {
  }

  lemma PartsStay(pinned: nat, w: World, w': World)
    requires Inv(pinned, w) && w' == w.(attempts := w'.attempts)
    ensures HeadsValid(pinned, w') && NothingDropped(pinned, w') && BuiltOnPinned(pinned, w') && PlacedOnce(pinned, w')
  {
    hide AttemptOk, WritesWereAllowed, Ancestor;
    SamePlaces(pinned, w, w');
  }

  lemma BegunOk(pinned: nat, w: World, i: nat, evidence: Evidence)
    requires pinned < |w.graph| && evidence.context.pinnedSha == pinned
    ensures AttemptOk(pinned, w, i, Begun(evidence))
  {
  }

  lemma DecidedTimes(pinned: nat, w: World, i: nat, a: Attempt, now: int)
    requires pinned < |w.graph| && AttemptOk(pinned, w, i, a) && a.pc in {Precheck, Recheck}
    ensures Decided(a, now).evidence == a.evidence && !Allowed(a, 2)
  {
    hide EvaluatePushGate;
  }

  // ---- Main result -------------------------------------------------------------------------------------------

  ghost predicate Behaviour(pinned: nat, trace: seq<World>, events: seq<Event>) {
    && |trace| == |events| + 1 && Init(pinned, trace[0])
    && forall k | 0 <= k < |events| :: HeadsValid(pinned, trace[k]) && Next(pinned, trace[k], events[k], trace[k + 1])
  }

  lemma {:induction false} ReachableInv(pinned: nat, trace: seq<World>, events: seq<Event>)
    requires Behaviour(pinned, trace, events)
    ensures Inv(pinned, trace[|events|])
    decreases |events|
  {
    var last := |events| - 1;
    if events != [] {
      ReachableInv(pinned, trace[..|events|], events[..last]);
      StepKeeps(pinned, trace[last], events[last], trace[last + 1]);
    }
  }

  /** Everything the gate demands, at the time of the evaluation. */
  ghost predicate Permitted(evidence: Evidence, now: int) {
    var context, policy := evidence.context, evidence.policy;
    && context.optInExpiresAt.Some? && now < context.optInExpiresAt.value
    && context.sameRepositoryBranch && context.observedHeadSha == context.patchBaseSha == context.pinnedSha
    && context.failureClass == "repository" && context.reproductionPassed && context.validationPassed
    && context.attemptCount == 0 && !policy.secretDetected(context.diff)
    && PatchPolicy.Allows(policy.library, policy.patchPolicy, context.diff)
  }

  /** The gate allows exactly what meets all of its demands, and calls stale what only fails the third of them, or later ones too. */
  lemma GateMeaning(evidence: Evidence, now: int)
    ensures var context, reason := evidence.context, EvaluatePushGate(evidence.context, evidence.policy, now);
            && (reason == None <==> Permitted(evidence, now))
            && (reason == Some(StaleHeadSha) <==>
                  context.optInExpiresAt.Some? && now < context.optInExpiresAt.value && context.sameRepositoryBranch && IsStale(context))
  {
    hide PatchPolicy.Allows;
  }

  lemma AllowedIsPermitted(a: Attempt, k: nat)
    requires Allowed(a, 2) && k < 2
    ensures Permitted(a.evidence, a.allowedAt[k]) && a.evidence.hasPullRequestBranch && a.evidence.artifactPathsMatch
  {
    hide EvaluatePushGate, Permitted;
    GateMeaning(a.evidence, a.allowedAt[k]);
  }

  /**
   * Over every interleaving: at most one commit of the run is ever written; it has the pinned SHA as its
   * sole parent and landed directly on it; no commit that was ever the head is dropped. Whoever wrote it
   * had both gate evaluations come out as ALLOW on its own evidence, and the commit's tree is what the
   * diff it was allowed to push makes of the pinned tree.
   */
  lemma PushSafety(pinned: nat, trace: seq<World>, events: seq<Event>)
    requires Behaviour(pinned, trace, events)
    ensures var w := trace[|events|];
            && HeadsValid(pinned, w)
            && (forall i | 0 <= i < |w.heads| :: Ancestor(w.graph, w.heads[i], w.Head()))
            && (forall i, j, c, d | (i, c) in w.written && (j, d) in w.written :: c == d)
            && (forall i, c | (i, c) in w.written ::
                  && i < |w.attempts| && c < |w.graph| && w.graph[c].parents == {pinned}
                  && (exists k | 0 < k < |w.heads| :: w.heads[k] == c && w.heads[k - 1] == pinned)
                  && w.attempts[i].evidence.hasPullRequestBranch && w.attempts[i].evidence.artifactPathsMatch
                  && |w.attempts[i].allowedAt| == 2
                  && Permitted(w.attempts[i].evidence, w.attempts[i].allowedAt[0])
                  && Permitted(w.attempts[i].evidence, w.attempts[i].allowedAt[1])
                  && CommitFor(w.graph, pinned, w.attempts[i].evidence) == Some(w.graph[c]))
  {
    hide Permitted, Ancestor, CommitFor, EvaluatePushGate;
    ReachableInv(pinned, trace, events);
    var w := trace[|events|];
    forall i, c | (i, c) in w.written
      ensures i < |w.attempts| && |w.attempts[i].allowedAt| == 2
              && Permitted(w.attempts[i].evidence, w.attempts[i].allowedAt[0])
              && Permitted(w.attempts[i].evidence, w.attempts[i].allowedAt[1])
              && w.attempts[i].evidence.hasPullRequestBranch && w.attempts[i].evidence.artifactPathsMatch
    {
      AllowedIsPermitted(w.attempts[i], 0);
      AllowedIsPermitted(w.attempts[i], 1);
    }
    hide AttemptOk;
  }

  /**
   * Every attempt took only allowed transitions; one that returned a commit is SUCCEEDED, was allowed twice
   * on its own evidence and wrote that commit, the only one of the run; one that returned nothing is
   * REFUSED or SUPERSEDED; and no other is SUCCEEDED.
   */
  lemma ReturnMatchesStatus(pinned: nat, trace: seq<World>, events: seq<Event>, i: nat)
    requires Behaviour(pinned, trace, events) && i < |trace[|events|].attempts|
    ensures var w := trace[|events|];
            var a := w.attempts[i];
            && a.path != [] && a.path[0] == Evaluating && FollowsTable(a.path)
            && (a.Status() == Succeeded <==> a.pc.Returned? && a.pc.result.Some?)
            && (a.pc.Returned? && a.pc.result.Some? ==>
                  && (i, a.pc.result.value) in w.written && Allowed(a, 2)
                  && forall j, c | (j, c) in w.written :: c == a.pc.result.value)
            && (a.pc.Returned? && a.pc.result.None? ==> a.Status() in {Refused, Superseded})
            && (a.Status() == Superseded ==> IsStale(a.evidence.context))
  {
    hide Ancestor, Allowed, FollowsTable, BuiltBy;
    ReachableInv(pinned, trace, events);
    var w := trace[|events|];
    assert AttemptOk(pinned, w, i, w.attempts[i]);
  }

  /**
   * What was validated is what is pushed, and what was allowed bounds it: a written commit has the tree that
   * the executor workspace made of the pinned tree with the same diff, if that succeeded and the paths are
   * canonical; and on a diff whose headers the policy sees, it changes allowed source files only.
   */
  lemma PushedTree(pinned: nat, trace: seq<World>, events: seq<Event>, i: nat, c: nat)
    requires Behaviour(pinned, trace, events) && (i, c) in trace[|events|].written
    ensures var w := trace[|events|];
            && i < |w.attempts| && c < |w.graph| && pinned < |w.graph|
            && var evidence, base, tree := w.attempts[i].evidence, w.graph[pinned].tree, w.graph[c].tree;
               var diff, policy := evidence.context.diff, evidence.policy;
               && (Workspaces.WorkspaceRun(Workspaces.Checkout(base), diff).1.None? && UnifiedDiff.Parse(diff).Ok? && Delivery.CanonicalPaths(UnifiedDiff.Parse(diff).value)
                   ==> tree == Workspaces.WorkspaceRun(Workspaces.Checkout(base), diff).0.files)
               && (HeaderCoverage.Covered(diff) ==> forall path | !Workspaces.SameAt(base, tree, path) ::
                     PatchPolicy.IsAllowedSource(policy.library, policy.patchPolicy, path))
  {
    assert |trace| == |events| + 1;
    hide *;
    PushSafety(pinned, trace, events);
    var w := trace[|events|];
    WrittenFacts(pinned, w, i, c);
  }

  lemma WrittenFacts(pinned: nat, w: World, i: nat, c: nat)
    requires HeadsValid(pinned, w) && i < |w.attempts| && c < |w.graph| && |w.attempts[i].allowedAt| == 2
    requires Permitted(w.attempts[i].evidence, w.attempts[i].allowedAt[0]) && CommitFor(w.graph, pinned, w.attempts[i].evidence) == Some(w.graph[c])
    ensures pinned < |w.graph|
    ensures var evidence, base, tree := w.attempts[i].evidence, w.graph[pinned].tree, w.graph[c].tree;
            var diff, policy := evidence.context.diff, evidence.policy;
            && (Workspaces.WorkspaceRun(Workspaces.Checkout(base), diff).1.None? && UnifiedDiff.Parse(diff).Ok? && Delivery.CanonicalPaths(UnifiedDiff.Parse(diff).value)
                ==> tree == Workspaces.WorkspaceRun(Workspaces.Checkout(base), diff).0.files)
            && (HeaderCoverage.Covered(diff) ==> forall path | !Workspaces.SameAt(base, tree, path) ::
                  PatchPolicy.IsAllowedSource(policy.library, policy.patchPolicy, path))
  {
    var evidence, base := w.attempts[i].evidence, w.graph[pinned].tree;
    var diff, policy := evidence.context.diff, evidence.policy;
    hide Delivery.RequestedEntries, Delivery.FoldEntries, Workspaces.WorkspaceRun, Delivery.CanonicalPaths, UnifiedDiff.Parse;
    hide HeaderCoverage.Covered, PatchPolicy.Allows, PatchPolicy.IsAllowedSource, Workspaces.SameAt;
    if Workspaces.WorkspaceRun(Workspaces.Checkout(base), diff).1.None? && UnifiedDiff.Parse(diff).Ok? && Delivery.CanonicalPaths(UnifiedDiff.Parse(diff).value) {
      Delivery.SameDelivery(Workspaces.Checkout(base), diff);
    }
    if HeaderCoverage.Covered(diff) {
      forall path | !Workspaces.SameAt(base, w.graph[c].tree, path)
        ensures PatchPolicy.IsAllowedSource(policy.library, policy.patchPolicy, path)
      {
        Delivery.ChangedFilesAreAllowed(policy.library, policy.patchPolicy, base, diff, path);
      }
    }
  }
}
