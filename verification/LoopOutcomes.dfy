/**
 * When the agent loop of src/agentic_lab/gateway/model.py ends, how, and what it has posted by then, said of the
 * replies and clock readings alone: the outcome is decided by the first turn that cannot go on.
 */
module LoopOutcomes {
  import opened Wrappers
  import opened ToolRegistries
  import opened AgentLoop

  /** What is fixed before the first turn. */
  datatype Setup = Setup(request: Request, providers: seq<string>, deadline: real, validate: string -> Option<string>, registry: Option<Registry>)

  // ---- One turn ------------------------------------------------------------------------------------------------

  /** A response arrived before the deadline. */
  predicate Arrived(c: Setup, t: Turn) {
    t.startedAt < c.deadline && !t.reply.Failed? && t.answeredAt <= c.deadline
  }

  /** The reply names a provider that was not asked for. */
  predicate Outside(c: Setup, t: Turn) {
    t.reply.Reply? && c.providers != [] && t.reply.provider != "unknown" && t.reply.provider !in c.providers
  }

  function CallsOf(t: Turn): seq<Option<ToolRequest>> {
    if t.reply.Reply? && t.reply.message.Some? then t.reply.message.value.calls else []
  }

  /** An answer in place of tool calls. */
  predicate Answers(t: Turn) {
    t.reply.Reply? && t.reply.message.Some? && t.reply.message.value.calls == []
  }

  // ---- The turns before ------------------------------------------------------------------------------------------

  /** The cost of the first `n` replies. */
  function Spent(world: nat -> Turn, n: nat): real {
    if n == 0 then 0.0 else Spent(world, n - 1) + if world(n - 1).reply.Reply? then world(n - 1).reply.cost else 0.0
  }

  /** The tool calls of the first `n` replies. */
  function Asked(world: nat -> Turn, n: nat): nat {
    if n == 0 then 0 else Asked(world, n - 1) + |CallsOf(world(n - 1))|
  }

  /** One of the first `n` replies was an answer, so it has been sent back for repair. */
  predicate SentBack(world: nat -> Turn, n: nat) {
    exists i | 0 <= i < n :: Answers(world(i))
  }

  /** How many more numbers the registry can give when turn `n` begins. */
  function Room(c: Setup, world: nat -> Turn, n: nat): int
    requires c.registry.Some?
  {
    c.registry.value.maxCalls + 1 - c.registry.value.nextSequence - Asked(world, n)
  }

  // ---- When a turn ends the loop -----------------------------------------------------------------------------------

  /** Call `k` is malformed, or finds the registry exhausted. */
  predicate Fails(calls: seq<Option<ToolRequest>>, room: int, k: nat) {
    k < |calls| && (calls[k].None? || k >= room)
  }

  predicate Stuck(calls: seq<Option<ToolRequest>>, room: int, k: nat) {
    Fails(calls, room, k) && forall j | 0 <= j < k :: !Fails(calls, room, j)
  }

  predicate StuckMalformed(calls: seq<Option<ToolRequest>>, room: int) {
    exists k | 0 <= k < |calls| :: Stuck(calls, room, k) && calls[k].None?
  }

  predicate StuckExhausted(calls: seq<Option<ToolRequest>>, room: int) {
    exists k | 0 <= k < |calls| :: Stuck(calls, room, k) && calls[k].Some?
  }

  predicate Run(calls: seq<Option<ToolRequest>>, room: int) {
    forall k | 0 <= k < |calls| :: !Fails(calls, room, k)
  }

  /** The reply came in time, from a provider asked for, and within the cost budget. */
  predicate Accepted(c: Setup, world: nat -> Turn, n: nat) {
    Arrived(c, world(n)) && world(n).reply.Reply? && !Outside(c, world(n)) && Spent(world, n + 1) <= c.request.maxUsd
  }

  /** It asks for tool calls, there are tools, and the budget has room for all of the calls. */
  predicate MayCall(c: Setup, world: nat -> Turn, n: nat) {
    && Accepted(c, world, n) && CallsOf(world(n)) != [] && c.registry.Some?
    && Asked(world, n + 1) <= c.request.maxToolCalls
  }

  predicate HasContent(c: Setup, world: nat -> Turn, n: nat) {
    Accepted(c, world, n) && Answers(world(n)) && world(n).reply.message.value.content.Some?
  }

  /** The turn's tool calls are all executed, or its answer is the first that does not fit the schema. */
  predicate GoesOn(c: Setup, world: nat -> Turn, n: nat) {
    || (MayCall(c, world, n) && Run(CallsOf(world(n)), Room(c, world, n)))
    || (HasContent(c, world, n) && c.validate(world(n).reply.message.value.content.value).Some? && !SentBack(world, n))
  }

  /** Turn `n`, if it is reached, ends the loop with this outcome. */
  ghost predicate Gives(c: Setup, world: nat -> Turn, n: nat, o: Outcome) {
    var t := world(n);
    match o
    case Returned(content) => HasContent(c, world, n) && content == t.reply.message.value.content.value && c.validate(content).None?
    case Raised(WallTime) => t.startedAt >= c.deadline || (!t.reply.Failed? && t.answeredAt > c.deadline)
    case Raised(PostFailed) => t.startedAt < c.deadline && t.reply.Failed?
    case Raised(UnreadableReply) => Arrived(c, t) && t.reply.Unreadable?
    case Raised(ProviderOutside) => Arrived(c, t) && Outside(c, t)
    case Raised(CostExceeded) => Arrived(c, t) && t.reply.Reply? && !Outside(c, t) && Spent(world, n + 1) > c.request.maxUsd
    case Raised(NoMessage) => Accepted(c, world, n) && t.reply.message.None?
    case Raised(NoRegistry) => Accepted(c, world, n) && CallsOf(t) != [] && c.registry.None?
    case Raised(ToolBudget) => Accepted(c, world, n) && CallsOf(t) != [] && c.registry.Some? && Asked(world, n + 1) > c.request.maxToolCalls
    case Raised(MalformedToolCall) => MayCall(c, world, n) && StuckMalformed(CallsOf(t), Room(c, world, n))
    case Raised(RegistryExhausted) => MayCall(c, world, n) && StuckExhausted(CallsOf(t), Room(c, world, n))
    case Raised(NoContent) => Accepted(c, world, n) && Answers(t) && t.reply.message.value.content.None?
    case Raised(RepairFailed) => HasContent(c, world, n) && c.validate(t.reply.message.value.content.value).Some? && SentBack(world, n)
    case Raised(_) => false
  }

  // ---- What is posted ------------------------------------------------------------------------------------------------

  /** The results of a reply's calls; `first` is the number of the first, and calls above the limit get no evidence. */
  function Results(limit: Option<int>, first: nat, calls: seq<Option<ToolRequest>>, perform: (string, string) -> ToolResult): seq<Message> {
    seq(|calls|, k requires 0 <= k < |calls| =>
      if calls[k].None? then Tool("", "")
      else Tool(calls[k].value.id,
                if limit.Some? && first + k > limit.value then "evidence window closed; return the final artifact"
                else perform(calls[k].value.name, calls[k].value.arguments).payload))
  }

  /** What turn `n` adds: its calls with their results, or its answer and the request to repair it. */
  function Round(c: Setup, world: nat -> Turn, n: nat): seq<Message> {
    var t := world(n);
    if c.registry.Some? && CallsOf(t) != [] then
      [Calls(CallsOf(t))] + Results(c.registry.value.evidenceCallLimit, c.registry.value.nextSequence + Asked(world, n), CallsOf(t), t.perform)
    else if Answers(t) && t.reply.message.value.content.Some? && c.validate(t.reply.message.value.content.value).Some? then
      [Assistant(t.reply.message.value.content.value),
       User("Return only corrected JSON matching this schema error: " + c.validate(t.reply.message.value.content.value).value)]
    else []
  }

  /** The messages when turn `n` begins. */
  function Transcript(c: Setup, world: nat -> Turn, n: nat): seq<Message> {
    if n == 0 then [System(c.request.system), User(c.request.task)] else Transcript(c, world, n - 1) + Round(c, world, n - 1)
  }

  /** The request of turn `n`: its timeout is the time left, but at least a millisecond and at most a minute. */
  ghost predicate IsPost(c: Setup, world: nat -> Turn, n: nat, post: Post) {
    var remaining := c.deadline - world(n).startedAt;
    && post.messages == Transcript(c, world, n) && post.order == c.providers && post.offersTools == c.registry.Some?
    && (post.allowFallbacks <==> !c.request.evaluation && |c.providers| != 1)
    && (remaining <= 0.001 ==> post.timeout == 0.001) && (remaining >= 60.0 ==> post.timeout == 60.0)
    && (0.001 <= remaining <= 60.0 ==> post.timeout == remaining)
  }

  ghost predicate PostsAre(c: Setup, world: nat -> Turn, posted: seq<Post>) {
    forall k | 0 <= k < |posted| :: IsPost(c, world, k, posted[k])
  }

  // ---- The loop keeps track ------------------------------------------------------------------------------------------

  ghost predicate RegistryAt(c: Setup, registry: Option<Registry>, calls: nat) {
    && registry.Some? == c.registry.Some?
    && (registry.Some? ==>
          && registry.value.maxCalls == c.registry.value.maxCalls && registry.value.evidenceCallLimit == c.registry.value.evidenceCallLimit
          && registry.value.nextSequence == c.registry.value.nextSequence + calls)
  }

  /** The provider of the last of the first `n` replies and the cost of all of them. */
  function LastCall(world: nat -> Turn, n: nat): Option<Metadata> {
    if n > 0 && world(n - 1).reply.Reply? then Some(Metadata(world(n - 1).reply.provider, Spent(world, n))) else None
  }

  ghost predicate Tracks(c: Setup, world: nat -> Turn, l: Loop, n: nat) {
    && l.messages == Transcript(c, world, n) && l.toolCalls == Asked(world, n) && l.cost == Spent(world, n)
    && (l.repaired <==> SentBack(world, n)) && RegistryAt(c, l.registry, Asked(world, n))
    && |l.posted| == n && PostsAre(c, world, l.posted) && l.lastCall == LastCall(world, n)
  }

  /** The first call that fails decides the error. */
  lemma {:induction false} AnsweredErrors(l: Loop, calls: seq<Option<ToolRequest>>, perform: (string, string) -> ToolResult)
    requires l.registry.Some?
    ensures var room, e := l.registry.value.maxCalls + 1 - l.registry.value.nextSequence, Answered(l, calls, perform).1;
            && (e.None? <==> Run(calls, room))
            && (e == Some(MalformedToolCall) <==> StuckMalformed(calls, room))
            && (e == Some(RegistryExhausted) <==> StuckExhausted(calls, room))
            && (e.Some? ==> e.value in {MalformedToolCall, RegistryExhausted})
    ensures Answered(l, calls, perform).0.posted == l.posted && Answered(l, calls, perform).0.lastCall == l.lastCall
    decreases |calls|
  {
    hide Run, StuckMalformed, StuckExhausted;
    var registry := l.registry.value;
    var room := registry.maxCalls + 1 - registry.nextSequence;
    if calls == [] {
      NothingStuck(room);
    } else if calls[0].None? || room <= 0 {
      StuckAtOnce(calls, room);
    } else {
      var next, message := AnsweredOnce(l, calls, perform);
      hide Answered;
      AnsweredErrors(next, calls[1..], perform);
      StuckLater(calls, room);
    }
  }

  /** Calls that all run are answered by their results, in order. */
  lemma {:induction false} AnsweredResults(l: Loop, calls: seq<Option<ToolRequest>>, perform: (string, string) -> ToolResult)
    requires l.registry.Some? && Answered(l, calls, perform).1.None?
    ensures var l' := Answered(l, calls, perform).0;
            && l'.registry.Some?
            && l' == l.(messages := l.messages + Results(l.registry.value.evidenceCallLimit, l.registry.value.nextSequence, calls, perform),
                        toolCalls := l.toolCalls + |calls|, registry := l'.registry)
            && l'.registry.value.maxCalls == l.registry.value.maxCalls && l'.registry.value.evidenceCallLimit == l.registry.value.evidenceCallLimit
            && l'.registry.value.nextSequence == l.registry.value.nextSequence + |calls|
    decreases |calls|
  {
    var registry := l.registry.value;
    var results := Results(registry.evidenceCallLimit, registry.nextSequence, calls, perform);
    if calls == [] {
      assert l.messages + results == l.messages;
    } else {
      var next, message := AnsweredOnce(l, calls, perform);
      hide Answered;
      AnsweredResults(next, calls[1..], perform);
      var more := Results(registry.evidenceCallLimit, registry.nextSequence + 1, calls[1..], perform);
      assert results == [message] + more;
      assert l.messages + [message] + more == l.messages + ([message] + more);
    }
  }

  lemma NothingStuck(room: int)
    ensures Run([], room) && !StuckMalformed([], room) && !StuckExhausted([], room)
  {
  }

  /** The first call is executed. */
  lemma AnsweredOnce(l: Loop, calls: seq<Option<ToolRequest>>, perform: (string, string) -> ToolResult) returns (next: Loop, message: Message)
    requires l.registry.Some? && calls != [] && calls[0].Some? && l.registry.value.nextSequence <= l.registry.value.maxCalls
    ensures next.registry.Some? && Answered(l, calls, perform) == Answered(next, calls[1..], perform)
    ensures next == l.(toolCalls := l.toolCalls + 1, registry := next.registry, messages := l.messages + [message])
    ensures message == Results(l.registry.value.evidenceCallLimit, l.registry.value.nextSequence, calls, perform)[0]
    ensures next.registry.value.maxCalls == l.registry.value.maxCalls
    ensures next.registry.value.evidenceCallLimit == l.registry.value.evidenceCallLimit
    ensures next.registry.value.nextSequence == l.registry.value.nextSequence + 1
  {
    var executed := Executed(l.registry.value, calls[0].value.name, calls[0].value.arguments, None, perform).value;
    message := Tool(calls[0].value.id, executed.1);
    next := l.(toolCalls := l.toolCalls + 1, registry := Some(executed.0), messages := l.messages + [message]);
  }

  lemma StuckLater(calls: seq<Option<ToolRequest>>, room: int)
    requires calls != [] && calls[0].Some? && room > 0
    ensures Run(calls, room) <==> Run(calls[1..], room - 1)
    ensures StuckMalformed(calls, room) <==> StuckMalformed(calls[1..], room - 1)
    ensures StuckExhausted(calls, room) <==> StuckExhausted(calls[1..], room - 1)
  {
    var rest, less := calls[1..], room - 1;
    assert !Fails(calls, room, 0);
    forall k | 0 < k < |calls|
      ensures rest[k - 1] == calls[k]
      ensures Fails(calls, room, k) <==> Fails(rest, less, k - 1)
    {
    }
    forall k | 0 <= k < |rest|
      ensures Fails(rest, less, k) <==> Fails(calls, room, k + 1)
    {
    }
    hide Fails;
    forall k | 0 <= k < |calls|
      ensures Stuck(calls, room, k) ==> k > 0 && Stuck(rest, less, k - 1)
    {
    }
    forall k | 0 <= k < |rest|
      ensures Stuck(rest, less, k) ==> Stuck(calls, room, k + 1)
    {
    }
  }

  lemma StuckAtOnce(calls: seq<Option<ToolRequest>>, room: int)
    requires calls != [] && (calls[0].None? || room <= 0)
    ensures !Run(calls, room) && (StuckMalformed(calls, room) <==> calls[0].None?) && (StuckExhausted(calls, room) <==> calls[0].Some?)
  {
    assert Fails(calls, room, 0) && Stuck(calls, room, 0);
    assert forall k | 0 < k < |calls| :: !Stuck(calls, room, k);
  }

  /** The loop has tracked the turns before `n` and posted the request of this one. */
  ghost predicate Awaits(c: Setup, world: nat -> Turn, l: Loop, n: nat) {
    |l.posted| == n + 1 && PostsAre(c, world, l.posted) && Tracks(c, world, l.(posted := l.posted[..n]), n)
  }

  /** What is to be shown of a turn whose reply has arrived. */
  ghost predicate TurnedAs(c: Setup, world: nat -> Turn, l: Loop, n: nat, o: Outcome, l': Loop, end: Option<Outcome>) {
    && (end.None? <==> GoesOn(c, world, n)) && (end == Some(o) <==> Gives(c, world, n, o))
    && (end.None? ==> Tracks(c, world, l', n + 1)) && l'.posted == l.posted && l'.lastCall == LastCall(world, n + 1)
  }

  lemma ReplyMeaning(c: Setup, world: nat -> Turn, l: Loop, n: nat, o: Outcome)
    requires Awaits(c, world, l, n) && Arrived(c, world(n)) && world(n).reply.Reply?
    ensures var (l', end) := Replied(c.request, c.providers, c.validate, l, world(n)); TurnedAs(c, world, l, n, o, l', end)
  {
    if !Accepted(c, world, n) || world(n).reply.message.None? {
      RefusalMeaning(c, world, l, n, o);
    } else if Answers(world(n)) {
      AnswerMeaning(c, world, l, n, o);
    } else {
      CallsMeaning(c, world, l, n, o);
    }
  }

  lemma RefusalMeaning(c: Setup, world: nat -> Turn, l: Loop, n: nat, o: Outcome)
    requires Awaits(c, world, l, n) && Arrived(c, world(n)) && world(n).reply.Reply?
    requires !Accepted(c, world, n) || world(n).reply.message.None?
    ensures var (l', end) := Replied(c.request, c.providers, c.validate, l, world(n)); TurnedAs(c, world, l, n, o, l', end)
  {
    hide PostsAre, Answered, Stuck, Results, Transcript, Room;
  }

  lemma AnswerMeaning(c: Setup, world: nat -> Turn, l: Loop, n: nat, o: Outcome)
    requires Awaits(c, world, l, n) && Accepted(c, world, n) && Answers(world(n))
    ensures var (l', end) := Replied(c.request, c.providers, c.validate, l, world(n)); TurnedAs(c, world, l, n, o, l', end)
  {
    hide PostsAre, Answered, Stuck, Results, Transcript, Room, Tracks;
    var (l', end) := Replied(c.request, c.providers, c.validate, l, world(n));
    AwaitsFacts(c, world, l, n);
    if end.None? {
      Tracked(c, world, l, l', n);
    }
  }

  lemma CallsMeaning(c: Setup, world: nat -> Turn, l: Loop, n: nat, o: Outcome)
    requires Awaits(c, world, l, n) && Accepted(c, world, n) && CallsOf(world(n)) != []
    ensures var (l', end) := Replied(c.request, c.providers, c.validate, l, world(n)); TurnedAs(c, world, l, n, o, l', end)
  {
    hide PostsAre, Answered, Stuck, Results, Transcript, Tracks, StuckMalformed, StuckExhausted, Run;
    var t := world(n);
    var calls, cost := CallsOf(t), l.cost + t.reply.cost;
    var (l', end) := Replied(c.request, c.providers, c.validate, l, t);
    AwaitsFacts(c, world, l, n);
    if l.registry.Some? && l.toolCalls + |calls| <= c.request.maxToolCalls {
      var asked := l.(cost := cost, lastCall := Some(Metadata(t.reply.provider, cost)), messages := l.messages + [Calls(calls)]);
      AnsweredErrors(asked, calls, t.perform);
      assert l' == Answered(asked, calls, t.perform).0;
      if end.None? {
        AnsweredResults(asked, calls, t.perform);
        var results := Results(c.registry.value.evidenceCallLimit, c.registry.value.nextSequence + Asked(world, n), calls, t.perform);
        assert l.messages + [Calls(calls)] + results == l.messages + ([Calls(calls)] + results);
        Tracked(c, world, l, l', n);
      }
    }
  }

  lemma AwaitsFacts(c: Setup, world: nat -> Turn, l: Loop, n: nat)
    requires Awaits(c, world, l, n)
    ensures l.messages == Transcript(c, world, n) && l.toolCalls == Asked(world, n) && l.cost == Spent(world, n)
    ensures (l.repaired <==> SentBack(world, n)) && RegistryAt(c, l.registry, Asked(world, n))
  {
  }

  lemma Tracked(c: Setup, world: nat -> Turn, l: Loop, l': Loop, n: nat)
    requires |l.posted| == n + 1 && PostsAre(c, world, l.posted) && l'.posted == l.posted && l'.messages == Transcript(c, world, n) + Round(c, world, n)
    requires l'.toolCalls == Asked(world, n) + |CallsOf(world(n))| && l'.cost == Spent(world, n + 1)
    requires (l'.repaired <==> SentBack(world, n) || Answers(world(n))) && l'.lastCall == LastCall(world, n + 1)
    requires RegistryAt(c, l'.registry, l'.toolCalls)
    ensures Tracks(c, world, l', n + 1)
  {
    hide Round, IsPost, RegistryAt;
  }

  /** One turn goes on, or ends the loop, exactly as it should, and the loop keeps track. */
  lemma TurnMeaning(c: Setup, world: nat -> Turn, l: Loop, n: nat, o: Outcome)
    requires Tracks(c, world, l, n)
    ensures var (l', end) := Turned(c.request, c.providers, c.deadline, c.validate, l, world(n));
            && (end.None? <==> GoesOn(c, world, n)) && (end == Some(o) <==> Gives(c, world, n, o))
            && (end.None? ==> Tracks(c, world, l', n + 1))
            && PostsAre(c, world, l'.posted) && |l'.posted| == (if world(n).startedAt < c.deadline then n + 1 else n)
            && l'.lastCall == if Arrived(c, world(n)) && world(n).reply.Reply? then LastCall(world, n + 1) else LastCall(world, n)
  {
    hide Transcript, Round, RepairMessages;
    var t := world(n);
    var remaining := c.deadline - t.startedAt;
    if remaining > 0.0 {
      var post := PostOf(c.request, c.providers, l.registry.Some?, l.messages, remaining);
      var l1 := l.(posted := l.posted + [post]);
      assert IsPost(c, world, n, post);
      assert PostsAre(c, world, l1.posted);
      if Arrived(c, t) && t.reply.Reply? {
        assert l1.posted[..n] == l.posted && l1.(posted := l.posted) == l;
        ReplyMeaning(c, world, l1, n, o);
      }
    }
    hide IsPost, PostsAre, Replied;
  }

  // ---- The whole loop --------------------------------------------------------------------------------------------------

  /** Turn `n` is the first that does not go on, and gives this outcome. */
  ghost predicate Ending(c: Setup, world: nat -> Turn, n: nat, o: Outcome) {
    n < c.request.maxTurns && (forall i | 0 <= i < n :: GoesOn(c, world, i)) && Gives(c, world, n, o)
  }

  /** `last` is the turn that ends the loop, or the number of turns if none does. */
  ghost predicate EndsAt(c: Setup, world: nat -> Turn, last: nat, o: Outcome, posted: seq<Post>, lastCall: Option<Metadata>) {
    && last <= c.request.maxTurns && (forall i | 0 <= i < last :: GoesOn(c, world, i)) && PostsAre(c, world, posted)
    && (if last == c.request.maxTurns then o == Raised(TurnBudget) && |posted| == last
       else !GoesOn(c, world, last) && Gives(c, world, last, o) && |posted| == if world(last).startedAt < c.deadline then last + 1 else last)
    && lastCall == LastCall(world, if last < c.request.maxTurns && Arrived(c, world(last)) && world(last).reply.Reply? then last + 1 else last)
  }

  lemma {:induction false} LoopMeaning(c: Setup, world: nat -> Turn, l: Loop, n: nat, o: Outcome) returns (last: nat)
    requires Tracks(c, world, l, n) && n <= c.request.maxTurns && forall i | 0 <= i < n :: GoesOn(c, world, i)
    ensures var (l', end) := Looped(c.request, c.providers, c.deadline, c.validate, l, world, n);
            && EndsAt(c, world, last, end, l'.posted, l'.lastCall)
            && (last < c.request.maxTurns ==> (Gives(c, world, last, o) <==> end == o))
    decreases c.request.maxTurns - n
  {
    hide Tracks, GoesOn, Gives, PostsAre, Turned;
    if n == c.request.maxTurns {
      last := n;
      assert PostsAre(c, world, l.posted) && |l.posted| == n && l.lastCall == LastCall(world, n) by { TracksPosts(c, world, l, n); }
    } else {
      var (l', end) := Turned(c.request, c.providers, c.deadline, c.validate, l, world(n));
      TurnMeaning(c, world, l, n, o);
      if end.None? {
        last := LoopMeaning(c, world, l', n + 1, o);
      } else {
        TurnMeaning(c, world, l, n, end.value);
        last := n;
      }
    }
  }

  lemma TracksPosts(c: Setup, world: nat -> Turn, l: Loop, n: nat)
    requires Tracks(c, world, l, n)
    ensures PostsAre(c, world, l.posted) && |l.posted| == n && l.lastCall == LastCall(world, n)
  {
  }

  function SetupOf(request: Request, allowed: seq<string>, start: real, validate: string -> Option<string>, registry: Option<Registry>): Setup {
    Setup(request, if request.providers != [] then request.providers else allowed, start + request.maxWallSeconds as real, validate, registry)
  }

  /** The request is one the loop begins with. */
  predicate Begins(request: Request, allowed: seq<string>) {
    && request.modelIsPinned && request.maxTurns >= 1 && request.maxToolCalls >= 0 && request.maxWallSeconds >= 1
    && (allowed != [] ==> forall p | p in request.providers :: p in allowed)
  }

  lemma RanMeaning(request: Request, allowed: seq<string>, start: real, world: nat -> Turn, validate: string -> Option<string>, registry: Option<Registry>, o: Outcome)
    returns (last: nat)
    requires Begins(request, allowed)
    ensures var c := SetupOf(request, allowed, start, validate, registry);
            var (l, end) := Ran(request, allowed, start, world, validate, registry);
            && EndsAt(c, world, last, end, l.posted, l.lastCall)
            && (last < request.maxTurns ==> (Gives(c, world, last, o) <==> end == o))
  {
    hide Looped, GoesOn, Gives;
    var c := SetupOf(request, allowed, start, validate, registry);
    assert Tracks(c, world, Started(request, registry), 0);
    last := LoopMeaning(c, world, Started(request, registry), 0, o);
  }

  /**
   * For every sequence of replies and clock readings, an outcome is the loop's exactly if it is what the first
   * turn gives that does not go on, or the turn budget runs out because all turns go on.
   */
  lemma OutcomeMeaning(request: Request, allowed: seq<string>, start: real, world: nat -> Turn, validate: string -> Option<string>, registry: Option<Registry>, o: Outcome)
    requires Begins(request, allowed)
    ensures var c, end := SetupOf(request, allowed, start, validate, registry), Ran(request, allowed, start, world, validate, registry).1;
            end == o <==> (exists n :: Ending(c, world, n, o)) || (o == Raised(TurnBudget) && forall n | 0 <= n < request.maxTurns :: GoesOn(c, world, n))
  {
    var c := SetupOf(request, allowed, start, validate, registry);
    var last := RanMeaning(request, allowed, start, world, validate, registry, o);
    hide Ran, GoesOn, Gives, PostsAre;
    if Ran(request, allowed, start, world, validate, registry).1 == o && last < request.maxTurns {
      assert Ending(c, world, last, o);
    }
    if exists n :: Ending(c, world, n, o) {
      var n: nat :| Ending(c, world, n, o);
      Exclusive(c, world, n, o);
      assert n == last;
    }
  }

  lemma Exclusive(c: Setup, world: nat -> Turn, n: nat, o: Outcome)
    ensures !(GoesOn(c, world, n) && Gives(c, world, n, o))
  {
    if GoesOn(c, world, n) && MayCall(c, world, n) {
      NeverStuck(CallsOf(world(n)), Room(c, world, n));
    }
    hide Run, Stuck, StuckMalformed, StuckExhausted, Spent, Asked, SentBack;
  }

  lemma NeverStuck(calls: seq<Option<ToolRequest>>, room: int)
    requires Run(calls, room)
    ensures !StuckMalformed(calls, room) && !StuckExhausted(calls, room)
  {
  }

  /** The other three outcomes are decided before the first turn. */
  lemma RefusedAtOnce(request: Request, allowed: seq<string>, start: real, world: nat -> Turn, validate: string -> Option<string>, registry: Option<Registry>)
    ensures
      var (l, o) := Ran(request, allowed, start, world, validate, registry);
      var exhausted := request.maxTurns < 1 || request.maxToolCalls < 0 || request.maxWallSeconds < 1;
      var unknown := allowed != [] && exists p | p in request.providers :: p !in allowed;
      && (o == Raised(UnpinnedModel) <==> !request.modelIsPinned)
      && (o == Raised(ExhaustedBefore) <==> request.modelIsPinned && exhausted)
      && (o == Raised(UnknownProvider) <==> request.modelIsPinned && !exhausted && unknown)
      && (!Begins(request, allowed) ==> l.posted == [] && l.toolCalls == 0 && l.lastCall == None)
  {
    hide Looped;
    if Begins(request, allowed) {
      var last := RanMeaning(request, allowed, start, world, validate, registry, Raised(TurnBudget));
      hide Ran, GoesOn;
    }
  }

  lemma GoingOnArrived(c: Setup, world: nat -> Turn, n: nat)
    requires GoesOn(c, world, n)
    ensures Arrived(c, world(n)) && world(n).reply.Reply? && !Outside(c, world(n))
  {
    hide Run, Spent, Asked, SentBack;
  }

  /** Every request posted is the one its turn calls for, and there is one for every turn that begins in time. */
  lemma PostsMeaning(request: Request, allowed: seq<string>, start: real, world: nat -> Turn, validate: string -> Option<string>, registry: Option<Registry>, k: nat)
    requires Begins(request, allowed)
    ensures var c, posted := SetupOf(request, allowed, start, validate, registry), Ran(request, allowed, start, world, validate, registry).0.posted;
            && (k < |posted| ==> IsPost(c, world, k, posted[k]))
            && (k < |posted| <==> k < request.maxTurns && (forall i | 0 <= i < k :: GoesOn(c, world, i)) && world(k).startedAt < c.deadline)
  {
    var c := SetupOf(request, allowed, start, validate, registry);
    var last := RanMeaning(request, allowed, start, world, validate, registry, Raised(TurnBudget));
    hide *;
    var (l, end) := Ran(request, allowed, start, world, validate, registry);
    SameSetup(request, allowed, start, validate, registry);
    PostsOf(c, world, last, end, l.posted, l.lastCall, k);
  }

  lemma SameSetup(request: Request, allowed: seq<string>, start: real, validate: string -> Option<string>, registry: Option<Registry>)
    ensures SetupOf(request, allowed, start, validate, registry).request == request
  {
  }

  lemma PostsOf(c: Setup, world: nat -> Turn, last: nat, o: Outcome, posted: seq<Post>, lastCall: Option<Metadata>, k: nat)
    requires EndsAt(c, world, last, o, posted, lastCall)
    ensures k < |posted| ==> IsPost(c, world, k, posted[k])
    ensures k < |posted| <==> k < c.request.maxTurns && (forall i | 0 <= i < k :: GoesOn(c, world, i)) && world(k).startedAt < c.deadline
  {
    hide Gives, IsPost, GoesOn, LastCall;
    if k < last {
      GoingOnArrived(c, world, k);
    }
  }

  /** An answer is returned only if every reply to a posted request came from a provider asked for, the answer's included. */
  lemma ReturnedFromProviders(request: Request, allowed: seq<string>, start: real, world: nat -> Turn, validate: string -> Option<string>,
                              registry: Option<Registry>, k: nat)
    requires Begins(request, allowed) && Ran(request, allowed, start, world, validate, registry).1.Returned?
    requires k < |Ran(request, allowed, start, world, validate, registry).0.posted|
    ensures var providers := if request.providers != [] then request.providers else allowed;
            world(k).reply.Reply? && (providers == [] || world(k).reply.provider == "unknown" || world(k).reply.provider in providers)
  {
    var c := SetupOf(request, allowed, start, validate, registry);
    var last := RanMeaning(request, allowed, start, world, validate, registry, Raised(TurnBudget));
    if k < last {
      GoingOnArrived(c, world, k);
    }
    hide Ran, PostsAre, Spent, Asked, SentBack, Run, GoesOn;
  }

  /**
   * What is on record when the loop has ended: nothing if no reply was read, else the provider of the last reply
   * read and the cost of all replies read. There is one for every posted request but the last, and one for that if
   * it arrived as an object.
   */
  lemma CallOnRecord(request: Request, allowed: seq<string>, start: real, world: nat -> Turn, validate: string -> Option<string>, registry: Option<Registry>)
    requires Begins(request, allowed)
    ensures var c, (l, o) := SetupOf(request, allowed, start, validate, registry), Ran(request, allowed, start, world, validate, registry);
            exists read: nat :: |l.posted| - 1 <= read <= |l.posted| && l.lastCall == LastCall(world, read)
              && (forall i | 0 <= i < read :: Arrived(c, world(i)) && world(i).reply.Reply?)
              && (read < |l.posted| ==> !(Arrived(c, world(read)) && world(read).reply.Reply?))
  {
    var c := SetupOf(request, allowed, start, validate, registry);
    var last := RanMeaning(request, allowed, start, world, validate, registry, Raised(TurnBudget));
    hide Ran, PostsAre, GoesOn, Gives, LastCall;
    var read := if last < request.maxTurns && Arrived(c, world(last)) && world(last).reply.Reply? then last + 1 else last;
    forall i | 0 <= i < read
      ensures Arrived(c, world(i)) && world(i).reply.Reply?
    {
      if i < last {
        GoingOnArrived(c, world, i);
      }
    }
  }
}
