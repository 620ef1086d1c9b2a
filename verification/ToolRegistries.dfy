/**
 * The call budget and evidence window of `SnapshotToolRegistry` (src/agentic_lab/tools/registry.py)
 * and the window the scout asks for (src/agentic_lab/agents/scout.py). `execute` takes its lock twice:
 * to draw a sequence number, and to append the record; tool calls interleave between the two.
 */
module ToolRegistries {
  import opened Wrappers

  datatype ToolExecution = ToolExecution(sequence: nat, toolName: string, status: string)

  datatype RegistryError = WindowOutsideBudget | ConfiguredTooLate | BudgetExhausted

  /** The lock-protected fields; `None` limits are not configured. */
  datatype Registry = Registry(
    maxCalls: int,
    nextSequence: nat,
    evidenceCallLimit: Option<int>,
    evidenceRequestLimit: Option<int>,
    records: seq<ToolExecution>)

  /** `configure_evidence_window` */
  function Configured(r: Registry, maxCalls: int, maxRequests: int): Result<Registry, RegistryError> {
    if maxCalls < 0 || maxCalls > r.maxCalls || maxRequests < 0 then Err(WindowOutsideBudget)
    else if r.nextSequence != 1 then Err(ConfiguredTooLate)
    else Ok(r.(evidenceCallLimit := Some(maxCalls), evidenceRequestLimit := Some(maxRequests)))
  }

  /** A call number and model-request count inside both limits. */
  predicate InsideWindow(r: Registry, sequence: nat, modelRequests: Option<int>) {
    && (r.evidenceCallLimit.Some? ==> sequence <= r.evidenceCallLimit.value)
    && (r.evidenceRequestLimit.Some? && modelRequests.Some? ==> modelRequests.value <= r.evidenceRequestLimit.value)
  }

  /** The first locked section: the drawn number is the old `nextSequence`. */
  function Drawn(r: Registry): Result<Registry, RegistryError> {
    if r.nextSequence > r.maxCalls then Err(BudgetExhausted)
    else Ok(r.(nextSequence := r.nextSequence + 1))
  }

  /** The second locked section. */
  function Recorded(r: Registry, record: ToolExecution): Registry {
    r.(records := r.records + [record])
  }

  /** What a tool gives back: the status that is recorded and the payload the caller gets. */
  datatype ToolResult = ToolResult(status: string, payload: string)

  const WINDOW_CLOSED := ToolResult("policy_refused", "evidence window closed; return the final artifact")

  /**
   * `execute` with no other call in between: a number is drawn, the tool is performed inside the window, the
   * call is on record and its payload returned. `perform` is validation, dispatch and redaction.
   */
  function Executed(r: Registry, toolName: string, arguments: string, modelRequests: Option<int>, perform: (string, string) -> ToolResult)
    : Result<(Registry, string), RegistryError>
  {
    var drawn :- Drawn(r);
    var result := if InsideWindow(r, r.nextSequence, modelRequests) then perform(toolName, arguments) else WINDOW_CLOSED;
    Ok((Recorded(drawn, ToolExecution(r.nextSequence, toolName, result.status)), result.payload))
  }

  class SnapshotToolRegistry {
    const maxCalls: int
    var nextSequence: nat
    var evidenceCallLimit: Option<int>
    var evidenceRequestLimit: Option<int>
    var records: seq<ToolExecution>

    function State(): Registry
      reads this
    {
      Registry(maxCalls, nextSequence, evidenceCallLimit, evidenceRequestLimit, records)
    }

    constructor (maxCalls: int)
      ensures State() == Registry(maxCalls, 1, None, None, [])
    {
      this.maxCalls := maxCalls;
      nextSequence := 1;
      evidenceCallLimit, evidenceRequestLimit := None, None;
      records := [];
    }

    method ConfigureEvidenceWindow(maxCalls: int, maxRequests: int) returns (r: Result<(), RegistryError>)
      modifies this
      ensures Configured(old(State()), maxCalls, maxRequests) == if r.Ok? then Ok(State()) else Err(r.error)
      ensures r == Err(WindowOutsideBudget) <==> !(0 <= maxCalls <= this.maxCalls && 0 <= maxRequests)
      ensures r == Err(ConfiguredTooLate) <==> 0 <= maxCalls <= this.maxCalls && 0 <= maxRequests && old(nextSequence) != 1
      ensures r.Ok? ==> State() == old(State()).(evidenceCallLimit := Some(maxCalls), evidenceRequestLimit := Some(maxRequests))
      ensures r.Err? ==> State() == old(State())
    {
      if maxCalls < 0 || maxCalls > this.maxCalls || maxRequests < 0 { return Err(WindowOutsideBudget); }
      if nextSequence != 1 { return Err(ConfiguredTooLate); }
      evidenceCallLimit := Some(maxCalls);
      evidenceRequestLimit := Some(maxRequests);
      r := Ok(());
    }

    method Execute(toolName: string, arguments: string, modelRequests: Option<int>, perform: (string, string) -> ToolResult)
      returns (r: Result<string, RegistryError>)
      modifies this
      ensures Executed(old(State()), toolName, arguments, modelRequests, perform) == if r.Ok? then Ok((State(), r.value)) else Err(r.error)
      ensures r.Err? <==> old(nextSequence) > maxCalls
      ensures r.Err? ==> r.error == BudgetExhausted && State() == old(State())
      ensures
        var closed := (evidenceCallLimit.Some? && old(nextSequence) > evidenceCallLimit.value)
                      || (evidenceRequestLimit.Some? && modelRequests.Some? && modelRequests.value > evidenceRequestLimit.value);
        var result := if closed then ToolResult("policy_refused", "evidence window closed; return the final artifact") else perform(toolName, arguments);
        r.Ok? ==> r.value == result.payload
                  && State() == old(State()).(nextSequence := old(nextSequence) + 1,
                                              records := old(records) + [ToolExecution(old(nextSequence), toolName, result.status)])
    {
      if nextSequence > maxCalls { return Err(BudgetExhausted); }
      var sequence := nextSequence;
      nextSequence := nextSequence + 1;
      var evidenceAllowed :=
        (evidenceCallLimit.None? || sequence <= evidenceCallLimit.value)
        && (evidenceRequestLimit.None? || modelRequests.None? || modelRequests.value <= evidenceRequestLimit.value);
      var result := WINDOW_CLOSED;
      if evidenceAllowed {
        result := perform(toolName, arguments);
      }
      records := records + [ToolExecution(sequence, toolName, result.status)];
      r := Ok(result.payload);
    }
  }

  // ---- Interleaved calls ----------------------------------------------------------------------------------

  datatype CallState =
    | Waiting
    | InFlight(sequence: nat, allowed: bool)            // between the two locked sections
    | Done(sequence: nat, allowed: bool, record: nat)   // its record's position in the list
    | Escaped(sequence: nat, allowed: bool)             // an exception left the call before its record
    | Rejected                                          // the budget was exhausted

  datatype Call = Call(toolName: string, modelRequests: Option<int>, state: CallState) {
    predicate Numbered() { state.InFlight? || state.Done? || state.Escaped? }
  }

  /**
   * `owners[n - 1]` is the call that drew number n and `recorders[k]` the call that wrote record k;
   * `unrecorded` are the calls that drew a number and have no record yet, or never will.
   */
  datatype World = World(registry: Registry, calls: seq<Call>, owners: seq<nat>, recorders: seq<nat>, unrecorded: set<nat>)

  datatype Event =
    | Configure(maxCalls: int, maxRequests: int)
    | Arrive(toolName: string, modelRequests: Option<int>)
    | Draw(call: nat)
    | Record(call: nat, status: string)
    | Escape(call: nat)

  function SetState(w: World, i: nat, state: CallState): seq<Call>
    requires i < |w.calls|
  {
    w.calls[i := w.calls[i].(state := state)]
  }

  ghost predicate Next(w: World, e: Event, w': World) {
    match e
    case Configure(c, r) =>
      w' == w.(registry := if Configured(w.registry, c, r).Ok? then Configured(w.registry, c, r).value else w.registry)
    case Arrive(name, requests) =>
      w' == w.(calls := w.calls + [Call(name, requests, Waiting)])
    case Draw(i) =>
      && i < |w.calls| && w.calls[i].state == Waiting
      && if Drawn(w.registry).Err? then w' == w.(calls := SetState(w, i, Rejected))
         else
           var n := w.registry.nextSequence;
           w' == w.(registry := Drawn(w.registry).value,
                    calls := SetState(w, i, InFlight(n, InsideWindow(w.registry, n, w.calls[i].modelRequests))),
                    owners := w.owners + [i],
                    unrecorded := w.unrecorded + {i})
    case Record(i, status) =>
      && i < |w.calls| && w.calls[i].state.InFlight?
      && var s := w.calls[i].state;
         var record := ToolExecution(s.sequence, w.calls[i].toolName, if s.allowed then status else "policy_refused");
         w' == w.(registry := Recorded(w.registry, record),
                  calls := SetState(w, i, Done(s.sequence, s.allowed, |w.registry.records|)),
                  recorders := w.recorders + [i],
                  unrecorded := w.unrecorded - {i})
    case Escape(i) =>
      && i < |w.calls| && w.calls[i].state.InFlight?
      && w' == w.(calls := SetState(w, i, Escaped(w.calls[i].state.sequence, w.calls[i].state.allowed)))
  }

  ghost predicate Init(w: World, maxCalls: int) {
    w == World(Registry(maxCalls, 1, None, None, []), [], [], [], {})
  }

  /** Numbers are drawn once each, without gaps, within the budget. */
  ghost predicate NumbersOk(w: World) {
    && |w.owners| == w.registry.nextSequence - 1
    && (w.owners != [] ==> |w.owners| <= w.registry.maxCalls)
    && (forall k | 0 <= k < |w.owners| ::
          w.owners[k] < |w.calls| && w.calls[w.owners[k]].Numbered() && w.calls[w.owners[k]].state.sequence == k + 1)
    && (forall i | 0 <= i < |w.calls| && w.calls[i].Numbered() ::
          1 <= w.calls[i].state.sequence <= |w.owners| && w.owners[w.calls[i].state.sequence - 1] == i)
  }

  /** A numbered call was let through exactly if it is inside both limits, as they are now. */
  ghost predicate WindowOk(w: World) {
    forall i | 0 <= i < |w.calls| && w.calls[i].Numbered() ::
      w.calls[i].state.allowed <==> InsideWindow(w.registry, w.calls[i].state.sequence, w.calls[i].modelRequests)
  }

  /** Records and finished calls correspond; every number is recorded or unrecorded. */
  ghost predicate RecordsOk(w: World) {
    && |w.recorders| == |w.registry.records|
    && |w.registry.records| + |w.unrecorded| == w.registry.nextSequence - 1
    && (forall i :: i in w.unrecorded <==> 0 <= i < |w.calls| && (w.calls[i].state.InFlight? || w.calls[i].state.Escaped?))
    && (forall k | 0 <= k < |w.recorders| ::
          w.recorders[k] < |w.calls| && w.calls[w.recorders[k]].state.Done? && w.calls[w.recorders[k]].state.record == k
          && w.calls[w.recorders[k]].state.sequence == w.registry.records[k].sequence)
    && (forall i | 0 <= i < |w.calls| && w.calls[i].state.Done? ::
          w.calls[i].state.record < |w.recorders| && w.recorders[w.calls[i].state.record] == i)
  }

  ghost predicate Inv(w: World) {
    NumbersOk(w) && WindowOk(w) && RecordsOk(w)
  }

  lemma StepKeepsNumbers(w: World, e: Event, w': World)
    requires NumbersOk(w) && Next(w, e, w')
    ensures NumbersOk(w')
  {
    hide InsideWindow;
    if e.Draw? {
      DrawKeepsNumbers(w, e.call, w');
    } else {
      hide NumbersOk;
      NumbersStay(w, w');
    }
  }

  lemma DrawKeepsNumbers(w: World, i: nat, w': World)
    requires NumbersOk(w) && Next(w, Draw(i), w')
    ensures NumbersOk(w')
  {
    hide InsideWindow;
    if Drawn(w.registry).Err? {
      hide NumbersOk;
      NumbersStay(w, w');
    }
  }

  lemma NumbersStay(w: World, w': World)
    requires NumbersOk(w) && w'.owners == w.owners && w'.registry.nextSequence == w.registry.nextSequence
    requires w'.registry.maxCalls == w.registry.maxCalls && |w.calls| <= |w'.calls|
    requires forall i | 0 <= i < |w.calls| ::
               && w'.calls[i].Numbered() == w.calls[i].Numbered()
               && (w.calls[i].Numbered() ==> w'.calls[i].state.sequence == w.calls[i].state.sequence)
    requires forall i | |w.calls| <= i < |w'.calls| :: !w'.calls[i].Numbered()
    ensures NumbersOk(w')
  {
  }

  lemma StepKeepsWindow(w: World, e: Event, w': World)
    requires NumbersOk(w) && WindowOk(w) && Next(w, e, w')
    ensures WindowOk(w')
  {
    if e.Configure? {
      assert w'.registry != w.registry ==> forall i | 0 <= i < |w.calls| :: !w.calls[i].Numbered();
    } else {
      hide NumbersOk;
      assert forall n: nat, r :: InsideWindow(w'.registry, n, r) == InsideWindow(w.registry, n, r);
      hide InsideWindow;
    }
  }

  lemma DrawKeepsRecords(w: World, i: nat, w': World)
    requires RecordsOk(w) && Next(w, Draw(i), w')
    ensures RecordsOk(w')
  {
    hide InsideWindow;
    assert i !in w.unrecorded;
    if Drawn(w.registry).Ok? {
      assert |w'.unrecorded| == |w.unrecorded| + 1;
      assert w'.calls[i].state.InFlight?;
    }
    assert forall j | 0 <= j < |w.calls| && j != i :: w'.calls[j] == w.calls[j];
    hide Next;
    RecordersStay(w, i, w');
  }

  lemma RecordersStay(w: World, i: nat, w': World)
    requires RecordsOk(w) && i < |w.calls| == |w'.calls| && !w.calls[i].state.Done? && !w'.calls[i].state.Done?
    requires w'.recorders == w.recorders && w'.registry.records == w.registry.records
    requires forall j | 0 <= j < |w.calls| && j != i :: w'.calls[j] == w.calls[j]
    ensures |w'.recorders| == |w'.registry.records|
    ensures forall k | 0 <= k < |w'.recorders| ::
              w'.recorders[k] < |w'.calls| && w'.calls[w'.recorders[k]].state.Done? && w'.calls[w'.recorders[k]].state.record == k
              && w'.calls[w'.recorders[k]].state.sequence == w'.registry.records[k].sequence
    ensures forall j | 0 <= j < |w'.calls| && w'.calls[j].state.Done? ::
              w'.calls[j].state.record < |w'.recorders| && w'.recorders[w'.calls[j].state.record] == j
  {
    forall k | 0 <= k < |w.recorders| ensures w.recorders[k] != i {}
  }

  lemma RecordKeepsRecords(w: World, i: nat, status: string, w': World)
    requires RecordsOk(w) && Next(w, Record(i, status), w')
    ensures RecordsOk(w')
  {
    hide InsideWindow;
    assert i in w.unrecorded;
    var last := |w.recorders|;
    forall k | 0 <= k < |w'.recorders|
      ensures var call := w'.calls[w'.recorders[k]];
              call.state.Done? && call.state.record == k && call.state.sequence == w'.registry.records[k].sequence
    {
      if k < last {
        assert w'.recorders[k] == w.recorders[k] != i;
      }
    }
  }

  lemma EscapeKeepsRecords(w: World, i: nat, w': World)
    requires RecordsOk(w) && Next(w, Escape(i), w')
    ensures RecordsOk(w')
  {
    forall k | 0 <= k < |w.recorders| ensures w.recorders[k] != i {}
  }

  lemma StepKeepsRecords(w: World, e: Event, w': World)
    requires RecordsOk(w) && Next(w, e, w')
    ensures RecordsOk(w')
  {
    match e
    case Configure(_, _) =>
    case Arrive(_, _) =>
    case Draw(i) => hide RecordsOk; DrawKeepsRecords(w, i, w');
    case Record(i, status) => hide RecordsOk; RecordKeepsRecords(w, i, status, w');
    case Escape(i) => hide RecordsOk; EscapeKeepsRecords(w, i, w');
  }

  lemma StepKeeps(w: World, e: Event, w': World)
    requires Inv(w) && Next(w, e, w')
    ensures Inv(w') && w'.registry.maxCalls == w.registry.maxCalls
    ensures w.registry.nextSequence > 1 ==> w'.registry.nextSequence > 1
                                            && w'.registry.evidenceCallLimit == w.registry.evidenceCallLimit
                                            && w'.registry.evidenceRequestLimit == w.registry.evidenceRequestLimit
  {
    hide NumbersOk, WindowOk, RecordsOk, InsideWindow;
    StepKeepsNumbers(w, e, w');
    StepKeepsWindow(w, e, w');
    StepKeepsRecords(w, e, w');
    LimitsStay(w, e, w');
    hide Next;
  }

  lemma LimitsStay(w: World, e: Event, w': World)
    requires Next(w, e, w')
    ensures w'.registry.maxCalls == w.registry.maxCalls && w'.registry.nextSequence >= w.registry.nextSequence
    ensures w.registry.nextSequence > 1 ==> w'.registry.evidenceCallLimit == w.registry.evidenceCallLimit
                                            && w'.registry.evidenceRequestLimit == w.registry.evidenceRequestLimit
  {
    hide InsideWindow;
  }

  ghost predicate Behaviour(trace: seq<World>, events: seq<Event>, maxCalls: int) {
    && |trace| == |events| + 1 && Init(trace[0], maxCalls)
    && forall k | 0 <= k < |events| :: Next(trace[k], events[k], trace[k + 1])
  }

  lemma {:induction false} ReachableInv(trace: seq<World>, events: seq<Event>, maxCalls: int)
    requires Behaviour(trace, events, maxCalls)
    ensures Inv(trace[|events|]) && trace[|events|].registry.maxCalls == maxCalls
    decreases |events|
  {
    if events != [] {
      var last := |events| - 1;
      ReachableInv(trace[..|events|], events[..last], maxCalls);
      StepKeeps(trace[last], events[last], trace[last + 1]);
    }
  }

  /**
   * Over every interleaving: numbers are unique, gapless and within the budget, and exactly the numbered
   * calls inside both limits reach the snapshot.
   */
  lemma SequencesAndWindow(trace: seq<World>, events: seq<Event>, maxCalls: int)
    requires Behaviour(trace, events, maxCalls)
    ensures var w := trace[|events|];
            && (forall i | 0 <= i < |w.calls| && w.calls[i].Numbered() :: 1 <= w.calls[i].state.sequence <= maxCalls)
            && (forall i, j | 0 <= i < j < |w.calls| && w.calls[i].Numbered() && w.calls[j].Numbered() ::
                  w.calls[i].state.sequence != w.calls[j].state.sequence)
            && (forall i | 0 <= i < |w.calls| && w.calls[i].Numbered() ::
                  w.calls[i].state.allowed
                  <==> (w.registry.evidenceCallLimit.Some? ==> w.calls[i].state.sequence <= w.registry.evidenceCallLimit.value)
                       && (w.registry.evidenceRequestLimit.Some? && w.calls[i].modelRequests.Some?
                           ==> w.calls[i].modelRequests.value <= w.registry.evidenceRequestLimit.value))
  {
    ReachableInv(trace, events, maxCalls);
    hide RecordsOk;
  }

  ghost predicate HasRecord(records: seq<ToolExecution>, n: nat) {
    exists k | 0 <= k < |records| :: records[k].sequence == n
  }

  /** Once no call is in flight and none escaped, the records number exactly 1 to n, each once. */
  lemma RecordsFill(trace: seq<World>, events: seq<Event>, maxCalls: int)
    requires Behaviour(trace, events, maxCalls)
    requires forall i | 0 <= i < |trace[|events|].calls| ::
               !trace[|events|].calls[i].state.InFlight? && !trace[|events|].calls[i].state.Escaped?
    ensures var records := trace[|events|].registry.records;
            && |records| == trace[|events|].registry.nextSequence - 1
            && (forall n | 1 <= n <= |records| :: HasRecord(records, n))
            && (forall k, l | 0 <= k < l < |records| :: records[k].sequence != records[l].sequence)
  {
    ReachableInv(trace, events, maxCalls);
    hide WindowOk;
    var w := trace[|events|];
    assert w.unrecorded == {};
    forall n | 1 <= n <= |w.registry.records|
      ensures HasRecord(w.registry.records, n)
    {
      var call := w.calls[w.owners[n - 1]];
      assert call.state.Done?;
      assert w.registry.records[call.state.record].sequence == n;
    }
    forall k, l | 0 <= k < l < |w.registry.records|
      ensures w.registry.records[k].sequence != w.registry.records[l].sequence
    {
      var i, j := w.recorders[k], w.recorders[l];
      assert w.calls[i].state.record == k && w.calls[j].state.record == l;
    }
  }

  /** The window never changes after the first number was drawn. */
  lemma {:induction false} WindowIsFinal(trace: seq<World>, events: seq<Event>, maxCalls: int, k: nat)
    requires Behaviour(trace, events, maxCalls) && k <= |events| && trace[k].registry.nextSequence > 1
    ensures trace[|events|].registry.evidenceCallLimit == trace[k].registry.evidenceCallLimit
    ensures trace[|events|].registry.evidenceRequestLimit == trace[k].registry.evidenceRequestLimit
    ensures trace[|events|].registry.nextSequence > 1
    decreases |events|
  {
    if k < |events| {
      var last := |events| - 1;
      WindowIsFinal(trace[..|events|], events[..last], maxCalls, k);
      ReachableInv(trace[..|events|], events[..last], maxCalls);
      hide Inv;
      StepKeeps(trace[last], events[last], trace[last + 1]);
    }
  }

  // ---- The scout's window -----------------------------------------------------------------------------------

  /** The limits `run_scout` computes from the model budget. */
  function ScoutWindow(maxTurns: int, maxToolCalls: int): (int, int) {
    var rounds := if maxTurns - 4 > 0 then maxTurns - 4 else 0;
    var calls := rounds * 2 + if rounds != 0 then 4 else 0;
    (if calls < maxToolCalls then calls else maxToolCalls, rounds)
  }

  /**
   * All turns but four are for evidence, and two calls each, plus four. A registry with the budget's calls accepts
   * this window exactly when it is unused and the budget is not negative.
   */
  lemma ScoutWindowAccepted(r: Registry, maxTurns: int, maxToolCalls: int)
    requires maxToolCalls <= r.maxCalls
    ensures var (calls, rounds) := ScoutWindow(maxTurns, maxToolCalls);
            && (Configured(r, calls, rounds).Ok? <==> r.nextSequence == 1 && maxToolCalls >= 0)
            && (maxTurns > 4 ==> rounds + 4 == maxTurns) && (maxTurns <= 4 ==> rounds == 0 && calls <= 0)
            && calls <= maxToolCalls && (maxTurns > 4 ==> calls <= 2 * rounds + 4 && (calls == maxToolCalls || calls == 2 * rounds + 4))
            && (0 <= maxToolCalls ==> 0 <= calls)
  {
  }
}
