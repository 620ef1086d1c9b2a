/** The run state machine of src/agentic_lab/domain/enums.py. */
module RunStatuses {

  datatype RunStatus =
    | Received | Queued | Leased | Snapshotting | Running | Evaluating | ReadyToPush | Pushing
    | Succeeded | Refused | Rejected | BudgetExhausted | Superseded | Cancelled | Failed

  const TERMINAL_STATUSES: set<RunStatus> :=
    {Succeeded, Refused, Rejected, BudgetExhausted, Superseded, Cancelled, Failed}

  /** `ALLOWED_TRANSITIONS.get(status, frozenset())` */
  function AllowedTransitions(status: RunStatus): set<RunStatus> {
    match status
    case Received => {Rejected, Queued}
    case Queued => {Leased, Cancelled, Superseded}
    case Leased => {Snapshotting, Running, Cancelled, Superseded, Failed}
    case Snapshotting => {Running, Refused, Superseded, Failed}
    case Running => {Evaluating, Refused, BudgetExhausted, Failed, Superseded}
    case Evaluating => {ReadyToPush, Succeeded, Refused, Failed, Superseded}
    case ReadyToPush => {Pushing, Refused, Superseded}
    case Pushing => {Succeeded, Refused, Failed}
    case _ => {}
  }

  /** How many transitions a run can still take at most. */
  function Rank(status: RunStatus): nat {
    match status
    case Received => 8
    case Queued => 7
    case Leased => 6
    case Snapshotting => 5
    case Running => 4
    case Evaluating => 3
    case ReadyToPush => 2
    case Pushing => 1
    case _ => 0
  }

  lemma TransitionsDescend(status: RunStatus, target: RunStatus)
    requires target in AllowedTransitions(status)
    ensures Rank(target) < Rank(status) && status !in TERMINAL_STATUSES
  {
  }

  lemma TerminalIsFinal(status: RunStatus)
    ensures status in TERMINAL_STATUSES <==> AllowedTransitions(status) == {}
  {
    match status
    case Received => assert Queued in AllowedTransitions(status);
    case Queued => assert Leased in AllowedTransitions(status);
    case Leased => assert Failed in AllowedTransitions(status);
    case Snapshotting => assert Failed in AllowedTransitions(status);
    case Running => assert Failed in AllowedTransitions(status);
    case Evaluating => assert Failed in AllowedTransitions(status);
    case ReadyToPush => assert Refused in AllowedTransitions(status);
    case Pushing => assert Failed in AllowedTransitions(status);
    case _ =>
  }

  /** The same table by where a transition leads. */
  lemma EdgesByTarget(status: RunStatus, target: RunStatus)
    ensures target in AllowedTransitions(status)
       <==> match target
            case Received => false
            case Queued => status == Received
            case Leased => status == Queued
            case Snapshotting => status == Leased
            case Running => status in {Leased, Snapshotting}
            case Evaluating => status == Running
            case ReadyToPush => status == Evaluating
            case Pushing => status == ReadyToPush
            case Succeeded => status in {Evaluating, Pushing}
            case Refused => status in {Snapshotting, Running, Evaluating, ReadyToPush, Pushing}
            case Rejected => status == Received
            case BudgetExhausted => status == Running
            case Superseded => status in {Queued, Leased, Snapshotting, Running, Evaluating, ReadyToPush}
            case Cancelled => status in {Queued, Leased}
            case Failed => status in {Leased, Snapshotting, Running, Evaluating, Pushing}
  {
  }

  /** A sequence of statuses that follows the table. */
  ghost predicate FollowsTable(path: seq<RunStatus>) {
    forall i | 0 < i < |path| :: path[i] in AllowedTransitions(path[i - 1])
  }

  lemma {:induction false} PathsAreShort(path: seq<RunStatus>)
    requires path != [] && FollowsTable(path)
    ensures |path| + Rank(path[|path| - 1]) <= Rank(path[0]) + 1
  {
    if |path| > 1 {
      var front := path[..|path| - 1];
      PathsAreShort(front);
      TransitionsDescend(front[|front| - 1], path[|path| - 1]);
    }
  }
}
