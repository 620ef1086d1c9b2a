/** `OpenRouterModelGateway.run_agent_loop` in src/agentic_lab/gateway/model.py. */
module AgentLoop {
  import opened Wrappers
  import opened ToolRegistries

  /** A tool call the provider asks for; `None` stands for one that `_tool_request` rejects. */
  datatype ToolRequest = ToolRequest(id: string, name: string, arguments: string)

  datatype Message =
    | System(text: string)
    | User(text: string)
    | Calls(calls: seq<Option<ToolRequest>>)
    | Tool(id: string, content: string)
    | Assistant(content: string)

  /** `calls` is empty where `tool_calls` is missing or no list. */
  datatype ReplyMessage = ReplyMessage(calls: seq<Option<ToolRequest>>, content: Option<string>)

  datatype Reply =
    | Failed                       // the post or its status raises
    | Unreadable                   // the body is no JSON object
    | Reply(provider: string, cost: real, message: Option<ReplyMessage>)

  /** What one turn meets: two clock readings, the reply in between, and the tools. */
  datatype Turn = Turn(startedAt: real, reply: Reply, answeredAt: real, perform: (string, string) -> ToolResult)

  datatype Request = Request(
    modelIsPinned: bool,
    system: string,
    task: string,
    maxTurns: int,
    maxToolCalls: int,
    maxUsd: real,
    maxWallSeconds: int,
    evaluation: bool,
    providers: seq<string>)

  datatype LoopError =
    | UnpinnedModel | ExhaustedBefore | UnknownProvider | WallTime | PostFailed | UnreadableReply | ProviderOutside
    | CostExceeded | NoMessage | NoRegistry | ToolBudget | MalformedToolCall | RegistryExhausted | NoContent
    | RepairFailed | TurnBudget

  datatype Outcome = Returned(content: string) | Raised(error: LoopError)

  /** One request: its messages, and the settings beside them that are not constants. */
  datatype Post = Post(messages: seq<Message>, timeout: real, order: seq<string>, allowFallbacks: bool, offersTools: bool)

  /** `ModelCallMetadata`: the provider of the last reply and the cost billed so far. */
  datatype Metadata = Metadata(provider: string, cost: real)

  datatype Loop = Loop(
    messages: seq<Message>,
    toolCalls: nat,
    cost: real,
    repaired: bool,
    lastCall: Option<Metadata>,
    posted: seq<Post>,
    registry: Option<Registry>)

  // ---- What the loop does ------------------------------------------------------------------------------------------

  /** The tool calls of one reply, in order, each answered by a message. */
  function Answered(l: Loop, calls: seq<Option<ToolRequest>>, perform: (string, string) -> ToolResult): (Loop, Option<LoopError>)
    requires l.registry.Some?
    decreases |calls|
  {
    if calls == [] then (l, None)
    else
      var counted := l.(toolCalls := l.toolCalls + 1);
      if calls[0].None? then (counted, Some(MalformedToolCall))
      else
        match Executed(l.registry.value, calls[0].value.name, calls[0].value.arguments, None, perform)
        case Err(_) => (counted, Some(RegistryExhausted))
        case Ok((registry, content)) =>
          Answered(counted.(registry := Some(registry), messages := l.messages + [Tool(calls[0].value.id, content)]), calls[1..], perform)
  }

  function Timeout(remaining: real): real {
    var capped := if remaining < 60.0 then remaining else 60.0;
    if capped > 0.001 then capped else 0.001
  }

  function PostOf(request: Request, providers: seq<string>, offersTools: bool, messages: seq<Message>, remaining: real): Post {
    Post(messages, Timeout(remaining), providers, !request.evaluation && |providers| != 1, offersTools)
  }

  function RepairMessages(content: string, error: string): seq<Message> {
    [Assistant(content), User("Return only corrected JSON matching this schema error: " + error)]
  }

  /** One turn; `None` goes on to the next one. `validate` gives a schema error or nothing. */
  function Turned(request: Request, providers: seq<string>, deadline: real, validate: string -> Option<string>, l: Loop, turn: Turn)
    : (Loop, Option<Outcome>)
  {
    var remaining := deadline - turn.startedAt;
    if remaining <= 0.0 then (l, Some(Raised(WallTime)))
    else
      var l1 := l.(posted := l.posted + [PostOf(request, providers, l.registry.Some?, l.messages, remaining)]);
      if turn.reply.Failed? then (l1, Some(Raised(PostFailed)))
      else if turn.answeredAt > deadline then (l1, Some(Raised(WallTime)))
      else if turn.reply.Unreadable? then (l1, Some(Raised(UnreadableReply)))
      else Replied(request, providers, validate, l1, turn)
  }

  function Replied(request: Request, providers: seq<string>, validate: string -> Option<string>, l: Loop, turn: Turn): (Loop, Option<Outcome>)
    requires turn.reply.Reply?
  {
    var reply := turn.reply;
    var cost := l.cost + reply.cost;
    var l2 := l.(cost := cost, lastCall := Some(Metadata(reply.provider, cost)));
    if providers != [] && reply.provider != "unknown" && reply.provider !in providers then (l2, Some(Raised(ProviderOutside)))
    else if cost > request.maxUsd then (l2, Some(Raised(CostExceeded)))
    else if reply.message.None? then (l2, Some(Raised(NoMessage)))
    else if reply.message.value.calls != [] then
      var calls := reply.message.value.calls;
      if l.registry.None? then (l2, Some(Raised(NoRegistry)))
      else if l.toolCalls + |calls| > request.maxToolCalls then (l2, Some(Raised(ToolBudget)))
      else
        var (l3, error) := Answered(l2.(messages := l.messages + [Calls(calls)]), calls, turn.perform);
        (l3, if error.Some? then Some(Raised(error.value)) else None)
    else if reply.message.value.content.None? then (l2, Some(Raised(NoContent)))
    else
      var content := reply.message.value.content.value;
      match validate(content)
      case None => (l2, Some(Returned(content)))
      case Some(error) =>
        if l.repaired then (l2, Some(Raised(RepairFailed)))
        else (l2.(repaired := true, messages := l.messages + RepairMessages(content, error)), None)
  }

  function Looped(request: Request, providers: seq<string>, deadline: real, validate: string -> Option<string>, l: Loop, world: nat -> Turn, n: nat)
    : (Loop, Outcome)
    decreases request.maxTurns - n
  {
    if n >= request.maxTurns then (l, Raised(TurnBudget))
    else
      var (l', outcome) := Turned(request, providers, deadline, validate, l, world(n));
      if outcome.Some? then (l', outcome.value) else Looped(request, providers, deadline, validate, l', world, n + 1)
  }

  function Providers(request: Request, allowed: seq<string>): seq<string> {
    if request.providers != [] then request.providers else allowed
  }

  function Started(request: Request, registry: Option<Registry>): Loop {
    Loop([System(request.system), User(request.task)], 0, 0.0, false, None, [], registry)
  }

  /** `allowed` are the gateway's providers in order, `start` the clock when the deadline is set. */
  function Ran(request: Request, allowed: seq<string>, start: real, world: nat -> Turn, validate: string -> Option<string>, registry: Option<Registry>)
    : (Loop, Outcome)
  {
    var started := Started(request, registry);
    var providers := Providers(request, allowed);
    if !request.modelIsPinned then (started, Raised(UnpinnedModel))
    else if request.maxTurns < 1 || request.maxToolCalls < 0 || request.maxWallSeconds < 1 then (started, Raised(ExhaustedBefore))
    else if providers != [] && allowed != [] && exists p | p in providers :: p !in allowed then (started, Raised(UnknownProvider))
    else Looped(request, providers, start + request.maxWallSeconds as real, validate, started, world, 0)
  }

  // ---- The code ------------------------------------------------------------------------------------------------------

  class OpenRouterModelGateway {
    const allowedProviders: seq<string>
    var lastCall: Option<Metadata>
    var lastProviderAllowlist: seq<string>
    /** The requests made so far by the running or last loop. */
    var posted: seq<Post>

    constructor (allowedProviders: seq<string>) {
      this.allowedProviders := allowedProviders;
      lastCall, lastProviderAllowlist, posted := None, [], [];
    }

    static function StateOf(registry: Option<SnapshotToolRegistry>): Option<Registry>
      reads if registry.Some? then {registry.value} else {}
    {
      if registry.Some? then Some(registry.value.State()) else None
    }

    method RunAgentLoop(request: Request, start: real, world: nat -> Turn, validate: string -> Option<string>, registry: Option<SnapshotToolRegistry>)
      returns (outcome: Outcome, executed: nat)
      modifies this, if registry.Some? then {registry.value} else {}
      ensures var (l, o) := Ran(request, allowedProviders, start, world, validate, old(StateOf(registry)));
              && outcome == o && executed == l.toolCalls && lastCall == l.lastCall && posted == l.posted && StateOf(registry) == l.registry
      ensures outcome !in {Raised(UnpinnedModel), Raised(ExhaustedBefore)} ==>
                lastProviderAllowlist == if request.providers != [] then request.providers else allowedProviders
    {
      hide Turned, Answered;
      lastCall, posted, executed := None, [], 0;
      if !request.modelIsPinned { return Raised(UnpinnedModel), 0; }
      if request.maxTurns < 1 || request.maxToolCalls < 0 || request.maxWallSeconds < 1 { return Raised(ExhaustedBefore), 0; }
      var providers := if request.providers != [] then request.providers else allowedProviders;
      lastProviderAllowlist := providers;
      if providers != [] && allowedProviders != [] && exists p | p in providers :: p !in allowedProviders {
        return Raised(UnknownProvider), 0;
      }
      var messages := [System(request.system), User(request.task)];
      var repaired, cost, deadline := false, 0.0, start + request.maxWallSeconds as real;
      ghost var whole := Ran(request, allowedProviders, start, world, validate, StateOf(registry));
      var turn := 0;
      while turn < request.maxTurns
        invariant turn <= request.maxTurns && lastProviderAllowlist == providers
        invariant Looped(request, providers, deadline, validate,
                         Loop(messages, executed, cost, repaired, lastCall, posted, StateOf(registry)), world, turn) == whole
      {
        hide Ran, Looped;
        var t := world(turn);
        ghost var before := Loop(messages, executed, cost, repaired, lastCall, posted, StateOf(registry));
        LoopedOnce(request, providers, deadline, validate, before, world, turn);
        var end: Option<Outcome>;
        messages, executed, cost, repaired, end :=
          TakeTurn(request, providers, deadline, validate, messages, executed, cost, repaired, registry, t);
        if end.Some? { return end.value, executed; }
        turn := turn + 1;
      }
      outcome := Raised(TurnBudget);
    }

    /** The body of the loop; `end` says that it returns or raises. */
    method TakeTurn(request: Request, providers: seq<string>, deadline: real, validate: string -> Option<string>,
                    before: seq<Message>, calls: nat, billed: real, repairUsed: bool, registry: Option<SnapshotToolRegistry>, turn: Turn)
      returns (messages: seq<Message>, executed: nat, cost: real, repaired: bool, end: Option<Outcome>)
      modifies this`lastCall, this`posted, if registry.Some? then {registry.value} else {}
      ensures Turned(request, providers, deadline, validate,
                     old(Loop(before, calls, billed, repairUsed, lastCall, posted, StateOf(registry))), turn)
           == (Loop(messages, executed, cost, repaired, lastCall, posted, StateOf(registry)), end)
    {
      hide Timeout, RepairMessages;
      messages, executed, cost, repaired, end := before, calls, billed, repairUsed, None;
      var remaining := deadline - turn.startedAt;
      if remaining <= 0.0 { end := Some(Raised(WallTime)); return; }
      posted := posted + [Post(messages, Timeout(remaining), providers, if request.evaluation then false else |providers| != 1, registry.Some?)];
      if turn.reply.Failed? { end := Some(Raised(PostFailed)); return; }
      if turn.answeredAt > deadline { end := Some(Raised(WallTime)); return; }
      if turn.reply.Unreadable? { end := Some(Raised(UnreadableReply)); return; }
      cost := cost + turn.reply.cost;
      lastCall := Some(Metadata(turn.reply.provider, cost));
      if providers != [] && turn.reply.provider != "unknown" && turn.reply.provider !in providers {
        end := Some(Raised(ProviderOutside));
        return;
      }
      if cost > request.maxUsd { end := Some(Raised(CostExceeded)); return; }
      if turn.reply.message.None? { end := Some(Raised(NoMessage)); return; }
      var reply := turn.reply.message.value;
      if reply.calls != [] {
        if registry.None? { end := Some(Raised(NoRegistry)); return; }
        if executed + |reply.calls| > request.maxToolCalls { end := Some(Raised(ToolBudget)); return; }
        messages := messages + [Calls(reply.calls)];
        var error;
        messages, executed, error := AnswerToolCalls(registry.value, messages, executed, reply.calls, turn.perform,
                                                     Loop(messages, executed, cost, repaired, lastCall, posted, StateOf(registry)));
        end := if error.Some? then Some(Raised(error.value)) else None;
        return;
      }
      if reply.content.None? { end := Some(Raised(NoContent)); return; }
      var invalid := validate(reply.content.value);
      if invalid.None? { end := Some(Returned(reply.content.value)); return; }
      if repaired { end := Some(Raised(RepairFailed)); return; }
      repaired := true;
      messages := messages + RepairMessages(reply.content.value, invalid.value);
    }

    method AnswerToolCalls(registry: SnapshotToolRegistry, before: seq<Message>, made: nat, calls: seq<Option<ToolRequest>>, perform: (string, string) -> ToolResult,
                           ghost start: Loop)
      returns (messages: seq<Message>, executed: nat, error: Option<LoopError>)
      requires start.messages == before && start.toolCalls == made && start.registry == Some(registry.State())
      modifies registry
      ensures Answered(start, calls, perform)
           == (start.(messages := messages, toolCalls := executed, registry := Some(registry.State())), error)
    {
      hide Executed;
      messages, executed := before, made;
      for k := 0 to |calls|
        invariant Answered(start, calls, perform)
               == Answered(start.(messages := messages, toolCalls := executed, registry := Some(registry.State())), calls[k..], perform)
      {
        assert calls[k..][0] == calls[k] && calls[k..][1..] == calls[k + 1..];
        executed := executed + 1;
        if calls[k].None? { return messages, executed, Some(MalformedToolCall); }
        var result := registry.Execute(calls[k].value.name, calls[k].value.arguments, None, perform);
        if result.Err? { return messages, executed, Some(RegistryExhausted); }
        messages := messages + [Tool(calls[k].value.id, result.value)];
      }
      error := None;
    }
  }

  lemma LoopedOnce(request: Request, providers: seq<string>, deadline: real, validate: string -> Option<string>, l: Loop, world: nat -> Turn, n: nat)
    requires n < request.maxTurns
    ensures var (l', outcome) := Turned(request, providers, deadline, validate, l, world(n));
            Looped(request, providers, deadline, validate, l, world, n)
            == if outcome.Some? then (l', outcome.value) else Looped(request, providers, deadline, validate, l', world, n + 1)
  {
  }

  // ---- What the loop keeps -------------------------------------------------------------------------------------------

  /** One result per call, in order and under the call's id. */
  ghost predicate ResultsOf(m: seq<Message>, calls: seq<Option<ToolRequest>>) {
    |m| == |calls| && forall k | 0 <= k < |m| :: calls[k].Some? && m[k].Tool? && m[k].id == calls[k].value.id
  }

  /** A message with tool calls and their results in order, or a rejected answer and the request to repair it. */
  ghost predicate IsRound(m: seq<Message>) {
    && m != []
    && ((m[0].Calls? && ResultsOf(m[1..], m[0].calls))
        || (m[0].Assistant? && |m| == 2 && m[1].User?))
  }

  function RoundLength(m: seq<Message>): nat {
    if m != [] && m[0].Calls? then 1 + |m[0].calls| else 2
  }

  /** A sequence of rounds. */
  ghost predicate Follows(m: seq<Message>)
    decreases |m|
  {
    m == [] || (RoundLength(m) <= |m| && IsRound(m[..RoundLength(m)]) && Follows(m[RoundLength(m)..]))
  }

  /** How many messages satisfy `p`. */
  function Count(m: seq<Message>, p: Message -> bool): nat {
    if m == [] then 0 else Count(m[..|m| - 1], p) + if p(m[|m| - 1]) then 1 else 0
  }

  const IS_CALLS := (m: Message) => m.Calls?
  const IS_TOOL := (m: Message) => m.Tool?
  const IS_ASSISTANT := (m: Message) => m.Assistant?

  lemma {:induction false} CountSum(a: seq<Message>, b: seq<Message>, p: Message -> bool)
    ensures Count(a + b, p) == Count(a, p) + Count(b, p)
  {
    if b == [] {
      assert a + b == a;
    } else {
      assert (a + b)[..|a + b| - 1] == a + b[..|b| - 1];
      CountSum(a, b[..|b| - 1], p);
    }
  }

  lemma {:induction false} FollowsOn(a: seq<Message>, b: seq<Message>)
    requires Follows(a) && Follows(b)
    ensures Follows(a + b)
    decreases |a|
  {
    hide IsRound;
    if a == [] {
      assert a + b == b;
    } else {
      var n := RoundLength(a);
      assert (a + b)[..n] == a[..n] && (a + b)[n..] == a[n..] + b;
      FollowsOn(a[n..], b);
    }
  }

  lemma RoundFollows(m: seq<Message>)
    requires IsRound(m)
    ensures Follows(m)
  {
    assert m[..RoundLength(m)] == m && m[RoundLength(m)..] == [];
  }

  lemma RoundCounts(m: seq<Message>)
    requires IsRound(m)
    ensures |m| == Count(m, IS_CALLS) + Count(m, IS_TOOL) + 2 * Count(m, IS_ASSISTANT)
    ensures if m[0].Calls? then Count(m, IS_TOOL) == |m[0].calls| && Count(m, IS_ASSISTANT) == 0
            else Count(m, IS_TOOL) == 0 && Count(m, IS_ASSISTANT) == 1
  {
    var rest := m[1..];
    assert m == [m[0]] + rest;
    CountSum([m[0]], rest, IS_CALLS);
    CountSum([m[0]], rest, IS_TOOL);
    CountSum([m[0]], rest, IS_ASSISTANT);
    if m[0].Calls? {
      OnlyTools(rest);
    } else {
      assert rest == [m[1]];
    }
  }

  /** The total length follows from the kinds of messages. */
  lemma {:induction false} FollowsLength(m: seq<Message>)
    requires Follows(m)
    ensures |m| == Count(m, IS_CALLS) + Count(m, IS_TOOL) + 2 * Count(m, IS_ASSISTANT)
    decreases |m|
  {
    hide IsRound, Count;
    if m == [] {
      CountNothing();
    } else {
      var n := RoundLength(m);
      assert m == m[..n] + m[n..];
      RoundCounts(m[..n]);
      FollowsLength(m[n..]);
      CountSum(m[..n], m[n..], IS_CALLS);
      CountSum(m[..n], m[n..], IS_TOOL);
      CountSum(m[..n], m[n..], IS_ASSISTANT);
    }
  }

  lemma CountNothing()
    ensures Count([], IS_CALLS) == Count([], IS_TOOL) == Count([], IS_ASSISTANT) == 0
  {
  }

  lemma {:induction false} OnlyTools(m: seq<Message>)
    requires forall k | 0 <= k < |m| :: m[k].Tool?
    ensures Count(m, IS_TOOL) == |m| && Count(m, IS_CALLS) == 0 && Count(m, IS_ASSISTANT) == 0
  {
    if m != [] {
      OnlyTools(m[..|m| - 1]);
    }
  }

  /** A conversation that may be posted: the prompt, then answered calls and at most one repair, within the tool budget. */
  ghost predicate Conversation(request: Request, m: seq<Message>, toolCalls: nat, repaired: bool) {
    && |m| >= 2 && m[0] == System(request.system) && m[1] == User(request.task) && Follows(m[2..])
    && Count(m[2..], IS_TOOL) == toolCalls && Count(m[2..], IS_ASSISTANT) == (if repaired then 1 else 0)
  }

  ghost predicate Postable(request: Request, m: seq<Message>) {
    exists toolCalls: nat, repaired :: toolCalls <= request.maxToolCalls && Conversation(request, m, toolCalls, repaired)
  }

  /** A reply that arrived as an object before the deadline is read, and its cost counts. */
  predicate IsRead(turn: Turn, deadline: real) {
    turn.reply.Reply? && turn.answeredAt <= deadline
  }

  /** The cost of the replies read in the first `n` turns. */
  function Billed(world: nat -> Turn, deadline: real, n: nat): real {
    if n == 0 then 0.0
    else Billed(world, deadline, n - 1) + if IsRead(world(n - 1), deadline) then world(n - 1).reply.cost else 0.0
  }

  /** What every request carries: a postable conversation, longer than the one before, and the same settings. */
  ghost predicate PostsOk(request: Request, providers: seq<string>, offersTools: bool, posted: seq<Post>) {
    && (forall k | 0 <= k < |posted| :: Postable(request, posted[k].messages) && PostSettings(request, providers, offersTools, posted[k]))
    && (forall k | 0 < k < |posted| :: posted[k - 1].messages < posted[k].messages)
  }

  /** The timeout is positive and at most a minute; fallbacks need no evaluation and several or no named providers. */
  predicate PostSettings(request: Request, providers: seq<string>, offersTools: bool, post: Post) {
    && 0.0 < post.timeout <= 60.0 && post.order == providers && post.offersTools == offersTools
    && (post.allowFallbacks <==> !request.evaluation && |providers| != 1)
  }

  /** The registry has drawn one number per counted call. */
  ghost predicate RegistryOk(registry: Option<Registry>, initial: Option<Registry>, toolCalls: nat) {
    registry.Some? == initial.Some?
    && (registry.Some? ==>
          registry.value.maxCalls == initial.value.maxCalls && registry.value.nextSequence == initial.value.nextSequence + toolCalls)
  }

  predicate CostOnRecord(l: Loop) {
    if l.lastCall.Some? then l.lastCall.value.cost == l.cost else l.cost == 0.0
  }

  /** At the start of turn `n`. */
  ghost predicate LoopInv(request: Request, providers: seq<string>, deadline: real, world: nat -> Turn, initial: Option<Registry>, l: Loop, n: nat) {
    && l.toolCalls <= request.maxToolCalls && Conversation(request, l.messages, l.toolCalls, l.repaired)
    && |l.posted| == n && PostsOk(request, providers, initial.Some?, l.posted) && (n > 0 ==> l.posted[n - 1].messages < l.messages)
    && l.cost == Billed(world, deadline, n) && CostOnRecord(l) && RegistryOk(l.registry, initial, l.toolCalls)
  }

  lemma OneMore<T>(a: seq<T>, x: T, b: seq<T>)
    requires a + [x] <= b
    ensures a <= b && b[|a|..] == [x] + b[|a + [x]|..]
  {
  }

  lemma {:induction false} AnsweredKeeps(l: Loop, calls: seq<Option<ToolRequest>>, perform: (string, string) -> ToolResult)
    requires l.registry.Some?
    ensures var (l', error) := Answered(l, calls, perform);
            && l'.registry.Some? && l' == l.(messages := l'.messages, toolCalls := l'.toolCalls, registry := l'.registry)
            && l.toolCalls <= l'.toolCalls <= l.toolCalls + |calls|
            && l'.registry.value.maxCalls == l.registry.value.maxCalls
            && l.registry.value.nextSequence <= l'.registry.value.nextSequence <= l.registry.value.nextSequence + |calls|
            && (error.Some? ==> error.value in {MalformedToolCall, RegistryExhausted})
            && (error == Some(RegistryExhausted) ==> l.registry.value.nextSequence + |calls| > l.registry.value.maxCalls + 1)
            && (error.None? ==>
                  && l'.toolCalls == l.toolCalls + |calls| && l'.registry.value.nextSequence == l.registry.value.nextSequence + |calls|
                  && l.messages <= l'.messages && ResultsOf(l'.messages[|l.messages|..], calls))
    decreases |calls|
  {
    if calls != [] && calls[0].Some? {
      var executed := Executed(l.registry.value, calls[0].value.name, calls[0].value.arguments, None, perform);
      if executed.Ok? {
        var next := l.(toolCalls := l.toolCalls + 1, registry := Some(executed.value.0),
                       messages := l.messages + [Tool(calls[0].value.id, executed.value.1)]);
        AnsweredKeeps(next, calls[1..], perform);
        var (l', error) := Answered(next, calls[1..], perform);
        assert Answered(l, calls, perform) == (l', error);
        hide Executed, Answered;
        if error.None? {
          OneMore(l.messages, next.messages[|l.messages|], l'.messages);
        }
      }
    }
  }

  lemma ConversationMore(request: Request, m: seq<Message>, toolCalls: nat, repaired: bool, round: seq<Message>)
    requires Conversation(request, m, toolCalls, repaired) && IsRound(round) && round != [] && (round[0].Assistant? ==> !repaired)
    ensures Conversation(request, m + round, toolCalls + Count(round, IS_TOOL), repaired || round[0].Assistant?)
    ensures m < m + round
  {
    hide IsRound, Follows, Count;
    assert (m + round)[2..] == m[2..] + round;
    RoundFollows(round);
    FollowsOn(m[2..], round);
    CountSum(m[2..], round, IS_TOOL);
    CountSum(m[2..], round, IS_ASSISTANT);
    RoundCounts(round);
    RoundNotEmpty(round);
  }

  lemma RoundNotEmpty(m: seq<Message>)
    requires IsRound(m)
    ensures m != [] && (m[0].Calls? || m[0].Assistant?)
  {
  }

  /** What holds however the loop ends. */
  ghost predicate Ended(request: Request, providers: seq<string>, deadline: real, world: nat -> Turn, validate: string -> Option<string>,
                        initial: Option<Registry>, l: Loop, o: Outcome) {
    && |l.posted| <= request.maxTurns && PostsOk(request, providers, initial.Some?, l.posted) && l.toolCalls <= request.maxToolCalls
    && l.registry.Some? == initial.Some?
    && (initial.Some? ==> initial.value.nextSequence <= l.registry.value.nextSequence <= initial.value.nextSequence + request.maxToolCalls)
    && (o == Raised(RegistryExhausted) ==> initial.Some? && initial.value.nextSequence + request.maxToolCalls > initial.value.maxCalls + 1)
    && (o == Raised(TurnBudget) ==> |l.posted| == request.maxTurns)
    && l.cost == Billed(world, deadline, |l.posted|) && CostOnRecord(l)
    && (o.Returned? ==> validate(o.content) == None && l.lastCall.Some? && l.cost <= request.maxUsd)
  }

  lemma PostMore(request: Request, providers: seq<string>, offersTools: bool, l: Loop, remaining: real)
    requires PostsOk(request, providers, offersTools, l.posted) && remaining > 0.0 && l.toolCalls <= request.maxToolCalls && Conversation(request, l.messages, l.toolCalls, l.repaired)
    requires l.posted != [] ==> l.posted[|l.posted| - 1].messages < l.messages
    ensures PostsOk(request, providers, offersTools, l.posted + [PostOf(request, providers, offersTools, l.messages, remaining)])
  {
    hide Conversation;
    assert Postable(request, l.messages);
    hide Postable;
  }

  lemma RepliedKeeps(request: Request, providers: seq<string>, deadline: real, validate: string -> Option<string>, world: nat -> Turn,
                     initial: Option<Registry>, l: Loop, n: nat)
    requires IsRead(world(n), deadline) && |l.posted| == n + 1 <= request.maxTurns && PostsOk(request, providers, initial.Some?, l.posted) && l.posted[n].messages == l.messages
    requires l.toolCalls <= request.maxToolCalls && Conversation(request, l.messages, l.toolCalls, l.repaired)
    requires l.cost == Billed(world, deadline, n) && RegistryOk(l.registry, initial, l.toolCalls)
    ensures var (l', o) := Replied(request, providers, validate, l, world(n));
            && (o.None? ==> LoopInv(request, providers, deadline, world, initial, l', n + 1))
            && (o.Some? ==> Ended(request, providers, deadline, world, validate, initial, l', o.value))
  {
    hide Conversation, PostsOk, Answered, IsRound, Count;
    var turn := world(n);
    var (l', o) := Replied(request, providers, validate, l, turn);
    if turn.reply.message.Some? {
      var calls := turn.reply.message.value.calls;
      if calls != [] && l.registry.Some? && l.toolCalls + |calls| <= request.maxToolCalls {
        var asked := l.(cost := l.cost + turn.reply.cost, lastCall := Some(Metadata(turn.reply.provider, l.cost + turn.reply.cost)),
                        messages := l.messages + [Calls(calls)]);
        AnsweredKeeps(asked, calls, turn.perform);
        if Answered(asked, calls, turn.perform).1.None? {
          CallsRound(request, l, calls, Answered(asked, calls, turn.perform).0.messages);
        }
      } else if calls == [] && turn.reply.message.value.content.Some? && !l.repaired {
        var content := turn.reply.message.value.content.value;
        if validate(content).Some? {
          RepairRound(request, l, content, validate(content).value);
        }
      }
    }
  }

  lemma CallsRound(request: Request, l: Loop, calls: seq<Option<ToolRequest>>, messages: seq<Message>)
    requires Conversation(request, l.messages, l.toolCalls, l.repaired)
    requires l.messages + [Calls(calls)] <= messages && ResultsOf(messages[|l.messages| + 1..], calls)
    ensures Conversation(request, messages, l.toolCalls + |calls|, l.repaired) && l.messages < messages
  {
    hide Conversation, ResultsOf;
    var round := [Calls(calls)] + messages[|l.messages| + 1..];
    assert messages == l.messages + round;
    assert round[1..] == messages[|l.messages| + 1..];
    assert IsRound(round);
    RoundCounts(round);
    hide IsRound, Count;
    ConversationMore(request, l.messages, l.toolCalls, l.repaired, round);
  }

  lemma RepairRound(request: Request, l: Loop, content: string, error: string)
    requires Conversation(request, l.messages, l.toolCalls, false)
    ensures Conversation(request, l.messages + RepairMessages(content, error), l.toolCalls, true)
    ensures l.messages < l.messages + RepairMessages(content, error)
  {
    hide Conversation;
    RoundCounts(RepairMessages(content, error));
    ConversationMore(request, l.messages, l.toolCalls, false, RepairMessages(content, error));
  }

  lemma TurnKeeps(request: Request, providers: seq<string>, deadline: real, validate: string -> Option<string>, world: nat -> Turn,
                  initial: Option<Registry>, l: Loop, n: nat)
    requires LoopInv(request, providers, deadline, world, initial, l, n) && n < request.maxTurns
    ensures var (l', o) := Turned(request, providers, deadline, validate, l, world(n));
            && (o.None? ==> LoopInv(request, providers, deadline, world, initial, l', n + 1))
            && (o.Some? ==> Ended(request, providers, deadline, world, validate, initial, l', o.value))
  {
    hide Conversation, PostsOk, Replied, Billed;
    var turn := world(n);
    var remaining := deadline - turn.startedAt;
    var l1 := l.(posted := l.posted + [PostOf(request, providers, l.registry.Some?, l.messages, remaining)]);
    if remaining <= 0.0 {
      StoppedBefore(request, providers, deadline, world, validate, initial, l, n);
    } else {
      PostMore(request, providers, l.registry.Some?, l, remaining);
      if IsRead(turn, deadline) {
        RepliedKeeps(request, providers, deadline, validate, world, initial, l1, n);
      } else {
        Stopped(request, providers, deadline, world, validate, initial, l, l1, n);
      }
    }
    hide LoopInv, Ended;
  }

  /** A turn that ends before its request. */
  lemma StoppedBefore(request: Request, providers: seq<string>, deadline: real, world: nat -> Turn, validate: string -> Option<string>,
                      initial: Option<Registry>, l: Loop, n: nat)
    requires LoopInv(request, providers, deadline, world, initial, l, n) && n < request.maxTurns
    ensures Ended(request, providers, deadline, world, validate, initial, l, Raised(WallTime))
  {
    hide Conversation, PostsOk, Billed;
  }

  /** A turn that ends before its reply is read. */
  lemma Stopped(request: Request, providers: seq<string>, deadline: real, world: nat -> Turn, validate: string -> Option<string>,
                initial: Option<Registry>, l: Loop, l1: Loop, n: nat)
    requires LoopInv(request, providers, deadline, world, initial, l, n) && n < request.maxTurns && !IsRead(world(n), deadline)
    requires l1 == l.(posted := l1.posted) && |l1.posted| == n + 1 && PostsOk(request, providers, initial.Some?, l1.posted)
    ensures forall e | e in {WallTime, PostFailed, UnreadableReply} ::
              Ended(request, providers, deadline, world, validate, initial, l1, Raised(e))
  {
    hide Conversation, PostsOk;
  }

  lemma {:induction false} LoopEnds(request: Request, providers: seq<string>, deadline: real, validate: string -> Option<string>, world: nat -> Turn,
                                    initial: Option<Registry>, l: Loop, n: nat)
    requires LoopInv(request, providers, deadline, world, initial, l, n) && n <= request.maxTurns
    ensures var (l', o) := Looped(request, providers, deadline, validate, l, world, n); Ended(request, providers, deadline, world, validate, initial, l', o)
    decreases request.maxTurns - n
  {
    hide Conversation, PostsOk, Turned, Billed;
    if n < request.maxTurns {
      hide LoopInv, Ended;
      TurnKeeps(request, providers, deadline, validate, world, initial, l, n);
      var (l', o) := Turned(request, providers, deadline, validate, l, world(n));
      if o.None? {
        LoopEnds(request, providers, deadline, validate, world, initial, l', n + 1);
      }
    }
  }

  /**
   * For every sequence of replies: no more requests than turns, no more executed tool calls than budgeted;
   * however the loop ends, the recorded cost is the sum over the replies read; and an answer is returned only
   * if it fits the schema and that cost is within budget. A registry with room for the budgeted calls never
   * runs out.
   */
  lemma LoopBounds(request: Request, allowed: seq<string>, start: real, world: nat -> Turn, validate: string -> Option<string>, registry: Option<Registry>)
    ensures var (l, o) := Ran(request, allowed, start, world, validate, registry);
            if request.maxTurns >= 1 && request.maxToolCalls >= 0
            then Ended(request, Providers(request, allowed), start + request.maxWallSeconds as real, world, validate, registry, l, o)
            else l == Started(request, registry) && o.Raised?
  {
    var started, providers, deadline := Started(request, registry), Providers(request, allowed), start + request.maxWallSeconds as real;
    if request.maxTurns >= 1 && request.maxToolCalls >= 0 {
      assert LoopInv(request, providers, deadline, world, registry, started, 0);
      hide LoopInv;
      LoopEnds(request, providers, deadline, validate, world, registry, started, 0);
    }
    hide Looped, PostsOk;
  }

  /**
   * Every posted transcript is the prompt followed by tool messages with all their results in order and at
   * most one repair, has the length this implies, and extends the transcript posted before. The settings
   * beside it are the same in every request.
   */
  lemma PostedTranscripts(request: Request, allowed: seq<string>, start: real, world: nat -> Turn, validate: string -> Option<string>,
                          registry: Option<Registry>, k: nat)
    requires k < |Ran(request, allowed, start, world, validate, registry).0.posted|
    ensures var posted := Ran(request, allowed, start, world, validate, registry).0.posted;
            var m := posted[k].messages;
            && |m| >= 2 && m[0] == System(request.system) && m[1] == User(request.task) && Follows(m[2..])
            && |m| == 2 + Count(m[2..], IS_CALLS) + Count(m[2..], IS_TOOL) + 2 * Count(m[2..], IS_ASSISTANT)
            && Count(m[2..], IS_TOOL) <= request.maxToolCalls && Count(m[2..], IS_ASSISTANT) <= 1
            && (k > 0 ==> posted[k - 1].messages < m)
            && PostSettings(request, Providers(request, allowed), registry.Some?, posted[k])
  {
    LoopBounds(request, allowed, start, world, validate, registry);
    var (l, o) := Ran(request, allowed, start, world, validate, registry);
    hide Ran;
    assert Postable(request, l.posted[k].messages);
    FollowsLength(l.posted[k].messages[2..]);
    hide Follows, Count;
  }
}
