/** The budgeted agent loop (`run_agent_checked`, src/agent.rs). The provider and the tools are
    oracles: how the k-th request and the k-th tool batch turn out is arbitrary. Durations are
    nanoseconds; only awaits take time. */
module AgentLoop {
  import opened Wrappers
  import opened Transcript

  type Duration = nat

  const SECOND: Duration := 1_000_000_000
  const REPAIR_MIN_LEFT: Duration := 15 * SECOND
  const TERMINAL_GRACE: Duration := 20 * SECOND

  datatype ModelOutcome =
    | Completed(content: Option<string>, calls: seq<ToolCall>, took: Duration)
    | Failed(took: Duration)
    | TimedOut(took: Duration)

  datatype ToolOutcome =
    | Finished(results: nat -> string, took: Duration)
    | Overran(took: Duration)

  datatype StopReason = Terminal | ToolBudget | TimeBudget | NoTerminalCall | ProviderError

  datatype AgentRun = AgentRun(finalCall: Option<ToolCall>, transcriptLen: nat, toolCalls: nat,
                               stopped: StopReason, repaired: bool)

  datatype Config = Config(maxToolCalls: nat, maxSeconds: nat, terminal: string,
                           asTerminal: string -> Option<string>, check: string -> Option<string>)
  {
    function Total(): Duration { maxSeconds * SECOND }
  }

  /** What the run did, in order. A request and a batch record the limit they were given and what came
      of them. */
  datatype Action =
    | Notice
    | Ask(messages: seq<Message>, terminalOnly: bool, lowEffort: bool, grace: bool, limit: Duration, reply: ModelOutcome)
    | RunBatch(calls: seq<ToolCall>, limit: Duration, outcome: ToolOutcome)

  function Min(a: nat, b: nat): nat { if a < b then a else b }
  function Max(a: nat, b: nat): nat { if a > b then a else b }
  function Sub(a: nat, b: nat): nat { if a > b then a - b else 0 }

  // ---- what a trace amounts to ----

  function Elapsed(trace: seq<Action>): Duration {
    if trace == [] then 0
    else Elapsed(trace[..|trace| - 1]) + Took(trace[|trace| - 1])
  }

  function Took(a: Action): Duration {
    match a case Notice => 0 case Ask(_, _, _, _, _, reply) => reply.took case RunBatch(_, _, outcome) => outcome.took
  }

  /** The longest any await ran past its limit. */
  ghost function Overrun(trace: seq<Action>): Duration {
    if trace == [] then 0
    else
      var a := trace[|trace| - 1];
      Max(Overrun(trace[..|trace| - 1]), if a.Notice? then 0 else Sub(Took(a), a.limit))
  }

  ghost function Asks(trace: seq<Action>): nat {
    if trace == [] then 0
    else Asks(trace[..|trace| - 1]) + if trace[|trace| - 1].Ask? then 1 else 0
  }

  ghost function Batches(trace: seq<Action>): nat {
    if trace == [] then 0
    else Batches(trace[..|trace| - 1]) + if trace[|trace| - 1].RunBatch? then 1 else 0
  }

  /** The slowest of the replies that came. */
  ghost function Slowest(trace: seq<Action>): Duration {
    if trace == [] then 0
    else
      var a := trace[|trace| - 1];
      if a.Ask? && a.reply.Completed? then Max(Slowest(trace[..|trace| - 1]), a.reply.took)
      else Slowest(trace[..|trace| - 1])
  }

  /** The request or the batch ran into its limit. */
  ghost predicate CutShort(a: Action) {
    (a.Ask? && a.reply.TimedOut?) || (a.RunBatch? && a.outcome.Overran?)
  }

  ghost predicate EndsCutShort(trace: seq<Action>) {
    trace != [] && CutShort(trace[|trace| - 1])
  }

  /** What came of the requests and batches is what the provider and the tools gave, in order. */
  ghost predicate Heard(trace: seq<Action>, model: nat -> ModelOutcome, tools: nat -> ToolOutcome) {
    trace == [] ||
    (var before, a := trace[..|trace| - 1], trace[|trace| - 1];
     && Heard(before, model, tools)
     && (a.Ask? ==> a.reply == model(Asks(before)))
     && (a.RunBatch? ==> a.outcome == tools(Batches(before))))
  }

  ghost function LastReply(trace: seq<Action>): Option<ModelOutcome> {
    if trace != [] && trace[|trace| - 1].Ask? then Some(trace[|trace| - 1].reply) else None
  }

  /** How many tool calls were started. */
  ghost function Started(trace: seq<Action>): nat {
    if trace == [] then 0
    else
      var a := trace[|trace| - 1];
      Started(trace[..|trace| - 1]) + if a.RunBatch? then |a.calls| else 0
  }

  /** No tool runs after the budget notice, and only the terminal tool is offered after it. */
  ghost predicate Quiet(trace: seq<Action>) {
    trace == [] ||
    (var before, a := trace[..|trace| - 1], trace[|trace| - 1];
     && Quiet(before)
     && (a.RunBatch? ==> Notice !in before)
     && (a.Ask? ==> (a.terminalOnly <==> Notice in before) && (a.lowEffort ==> a.terminalOnly)))
  }

  /** Every request carries a transcript in which all earlier tool calls are answered. */
  ghost predicate AsksValid(trace: seq<Action>) {
    forall a <- trace :: a.Ask? ==> Valid(a.messages)
  }

  /** Every request carried the conversation as it then was: nothing said is ever taken back. */
  ghost predicate Remembered(trace: seq<Action>, transcript: seq<Message>) {
    forall a <- trace :: a.Ask? ==> a.messages <= transcript
  }

  /** Every await was given no more than what was left of the budget. */
  ghost predicate InBudget(trace: seq<Action>, total: Duration) {
    trace == [] ||
    (var before, a := trace[..|trace| - 1], trace[|trace| - 1];
     && InBudget(before, total)
     && (!a.Notice? ==> Elapsed(before) + a.limit <= total)
     && (a.Ask? ==> !a.grace))
  }

  /** In budget, but for at most one last request that gets the grace allowance. */
  ghost predicate InBudgetButGrace(trace: seq<Action>, total: Duration) {
    || InBudget(trace, total)
    || (var n := |trace| - 1;
        n >= 0 && InBudget(trace[..n], total) && trace[n].Ask? && trace[n].grace && trace[n].limit == TERMINAL_GRACE)
  }

  lemma TraceStep(trace: seq<Action>, a: Action)
    ensures Elapsed(trace + [a]) == Elapsed(trace) + Took(a)
    ensures Overrun(trace + [a]) == Max(Overrun(trace), if a.Notice? then 0 else Sub(Took(a), a.limit))
    ensures Asks(trace + [a]) == Asks(trace) + if a.Ask? then 1 else 0
    ensures Started(trace + [a]) == Started(trace) + if a.RunBatch? then |a.calls| else 0
  {
    assert (trace + [a])[..|trace|] == trace;
  }

  /** Only awaits take time, and each takes what its outcome says. */
  lemma ElapsedStep(trace: seq<Action>, a: Action)
    ensures a.Notice? ==> Elapsed(trace + [a]) == Elapsed(trace)
    ensures a.Ask? ==> Elapsed(trace + [a]) == Elapsed(trace) + a.reply.took
    ensures a.RunBatch? ==> Elapsed(trace + [a]) == Elapsed(trace) + a.outcome.took
  {
    assert (trace + [a])[..|trace|] == trace;
  }

  /** `requests` and `batches` count what the trace has heard so far. */
  ghost predicate Consumed(trace: seq<Action>, model: nat -> ModelOutcome, tools: nat -> ToolOutcome, requests: nat,
                           batches: nat) {
    Heard(trace, model, tools) && requests == Asks(trace) && batches == Batches(trace)
  }

  lemma ConsumedStep(trace: seq<Action>, a: Action, model: nat -> ModelOutcome, tools: nat -> ToolOutcome,
                     requests: nat, batches: nat)
    requires Consumed(trace, model, tools, requests, batches)
    requires (a.Ask? ==> a.reply == model(requests)) && (a.RunBatch? ==> a.outcome == tools(batches))
    ensures Consumed(trace + [a], model, tools, requests + if a.Ask? then 1 else 0,
                     batches + if a.RunBatch? then 1 else 0)
  {
    assert (trace + [a])[..|trace|] == trace;
  }

  lemma TraceKeeps(trace: seq<Action>, a: Action, total: Duration)
    ensures Quiet(trace + [a]) <==>
      && Quiet(trace)
      && (a.RunBatch? ==> Notice !in trace)
      && (a.Ask? ==> (a.terminalOnly <==> Notice in trace) && (a.lowEffort ==> a.terminalOnly))
    ensures AsksValid(trace + [a]) <==> AsksValid(trace) && (a.Ask? ==> Valid(a.messages))
    ensures forall ms :: Remembered(trace + [a], ms) <==> Remembered(trace, ms) && (a.Ask? ==> a.messages <= ms)
    ensures InBudget(trace + [a], total) <==>
      InBudget(trace, total) && (!a.Notice? ==> Elapsed(trace) + a.limit <= total) && (a.Ask? ==> !a.grace)
    ensures Notice in trace + [a] <==> Notice in trace || a == Notice
  {
    assert (trace + [a])[..|trace|] == trace;
    assert forall x :: x in trace + [a] <==> x in trace || x == a;
  }

  lemma {:induction false} InBudgetElapsed(trace: seq<Action>, total: Duration)
    requires InBudget(trace, total)
    ensures Elapsed(trace) <= total + Overrun(trace)
  {
    if trace != [] {
      InBudgetElapsed(trace[..|trace| - 1], total);
    }
  }

  lemma GraceElapsed(trace: seq<Action>, total: Duration)
    requires InBudgetButGrace(trace, total)
    ensures Elapsed(trace) <= total + TERMINAL_GRACE + 2 * Overrun(trace)
  {
    if InBudget(trace, total) {
      InBudgetElapsed(trace, total);
    } else {
      InBudgetElapsed(trace[..|trace| - 1], total);
    }
  }

  // ---- deadlines ----

  function Reserve(total: Duration): Duration {
    Min(Max(Min(total / 5, 90 * SECOND), 10 * SECOND), total / 4)
  }

  /** A quarter of a short budget is held back, then ten seconds, a fifth, and at most ninety seconds. */
  lemma ReserveIs(total: Duration)
    ensures total < 40 * SECOND ==> Reserve(total) == total / 4
    ensures 40 * SECOND <= total <= 50 * SECOND ==> Reserve(total) == 10 * SECOND
    ensures 50 * SECOND <= total <= 450 * SECOND ==> Reserve(total) == total / 5
    ensures 450 * SECOND <= total ==> Reserve(total) == 90 * SECOND
  {
  }

  function SoftDeadline(total: Duration, slowestReply: Duration): (d: Duration)
    ensures total / 2 <= d <= total
    ensures d + Min(2 * slowestReply, total / 2) <= total
  {
    Min(total - Reserve(total), total - Min(2 * slowestReply, total / 2))
  }

  /** It is the latest time that leaves the reserve and room for two of the slowest replies, or half of the
      budget if they take more. */
  lemma SoftDeadlineIs(total: Duration, slowestReply: Duration, d: Duration)
    ensures d <= SoftDeadline(total, slowestReply) <==>
      d + Reserve(total) <= total && (d + 2 * slowestReply <= total || d + total / 2 <= total)
  {
  }

  /** Slower replies never move the soft deadline back. */
  lemma SoftDeadlineMonotone(total: Duration, faster: Duration, slower: Duration)
    requires faster <= slower
    ensures SoftDeadline(total, slower) <= SoftDeadline(total, faster)
  {
  }

  /** What an ordinary turn may take: until the deadline or at least a second, but never more than the
      budget. */
  function SoftLeft(total: Duration, now: Duration, deadline: Duration): (d: Duration)
    ensures d <= Sub(total, now)
  {
    Min(Max(Sub(deadline, now), SECOND), Sub(total, now))
  }

  lemma SoftLeftIs(total: Duration, now: Duration, deadline: Duration)
    requires deadline <= total
    ensures now + SECOND <= deadline ==> now + SoftLeft(total, now, deadline) == deadline
    ensures deadline < now + SECOND <= total ==> SoftLeft(total, now, deadline) == SECOND
    ensures total < now + SECOND ==> SoftLeft(total, now, deadline) == if now < total then total - now else 0
  {
  }

  // ---- what a lawful trace is ----

  /** The submission in a reply: its first call of the terminal tool, or its text if it has no calls. */
  function Submission(c: Config, content: Option<string>, calls: seq<ToolCall>): (r: Option<ToolCall>)
    ensures r.Some? ==> r.value.name == c.terminal
  {
    if calls == [] then
      if content.Some? && c.asTerminal(content.value).Some?
      then Some(ToolCall("text-terminal", c.terminal, c.asTerminal(content.value).value)) else None
    else if HasTerminal(c, calls) then Some(FirstNamed(calls, c.terminal)) else None
  }

  predicate HasTerminal(c: Config, calls: seq<ToolCall>) {
    exists k :: 0 <= k < |calls| && calls[k].name == c.terminal
  }

  function FirstNamed(calls: seq<ToolCall>, name: string): (c: ToolCall)
    requires exists k :: 0 <= k < |calls| && calls[k].name == name
    ensures c in calls && c.name == name
  {
    if calls[0].name == name then calls[0] else FirstNamed(calls[1..], name)
  }

  /** `call` is what the reply submits. */
  ghost predicate Carries(c: Config, reply: ModelOutcome, call: ToolCall) {
    && reply.Completed?
    && ((reply.calls == [] && reply.content.Some? && c.asTerminal(reply.content.value).Some?
         && call == ToolCall("text-terminal", c.terminal, c.asTerminal(reply.content.value).value))
        || (exists k :: 0 <= k < |reply.calls| && reply.calls[k] == call && call.name == c.terminal
              && forall j :: 0 <= j < k ==> reply.calls[j].name != c.terminal))
  }

  lemma {:induction false} FirstNamedAt(calls: seq<ToolCall>, name: string, k: nat)
    requires k < |calls| && calls[k].name == name && forall j :: 0 <= j < k ==> calls[j].name != name
    ensures FirstNamed(calls, name) == calls[k]
  {
    if k > 0 { FirstNamedAt(calls[1..], name, k - 1); }
  }

  lemma {:induction false} FirstPlace(calls: seq<ToolCall>, name: string) returns (k: nat)
    requires exists k :: 0 <= k < |calls| && calls[k].name == name
    ensures k < |calls| && calls[k].name == name && forall j :: 0 <= j < k ==> calls[j].name != name
  {
    if calls[0].name == name { k := 0; } else {
      k := FirstPlace(calls[1..], name);
      k := k + 1;
      assert forall j :: 1 <= j < k ==> calls[j] == calls[1..][j - 1];
    }
  }

  lemma CarriesExactly(c: Config, reply: ModelOutcome, call: ToolCall)
    requires reply.Completed?
    ensures Carries(c, reply, call) <==> Submission(c, reply.content, reply.calls) == Some(call)
  {
    if HasTerminal(c, reply.calls) {
      var k := FirstPlace(reply.calls, c.terminal);
      FirstNamedAt(reply.calls, c.terminal, k);
      if Carries(c, reply, call) {
        var m :| 0 <= m < |reply.calls| && reply.calls[m] == call && call.name == c.terminal
          && forall j :: 0 <= j < m ==> reply.calls[j].name != c.terminal;
        FirstNamedAt(reply.calls, c.terminal, m);
      }
    }
  }

  predicate Submits(c: Config, reply: ModelOutcome) {
    reply.Completed? && Submission(c, reply.content, reply.calls).Some?
  }

  /** Tool calls to be run, but for the notice. */
  predicate WantsTools(c: Config, reply: ModelOutcome) {
    reply.Completed? && reply.calls != [] && !HasTerminal(c, reply.calls)
  }

  /** How many tool calls count against the budget: of every batch the model asked for before the notice,
      as many as the budget allowed. */
  ghost function Counted(c: Config, trace: seq<Action>): (n: nat)
    ensures n <= c.maxToolCalls
  {
    if trace == [] then 0
    else
      var before, a := trace[..|trace| - 1], trace[|trace| - 1];
      Counted(c, before) + if a.Ask? && WantsTools(c, a.reply) && Notice !in before
        then Min(c.maxToolCalls - Counted(c, before), |a.reply.calls|) else 0
  }

  ghost function Soft(c: Config, trace: seq<Action>): Duration {
    SoftDeadline(c.maxSeconds * SECOND, Slowest(trace))
  }

  /** The reason the notice gives. */
  ghost function Reason(c: Config, before: seq<Action>): StopReason {
    if EndsCutShort(before) || Elapsed(before) > Soft(c, before) then TimeBudget else ToolBudget
  }

  /** The notice comes when the budget is already spent, and not because an await was cut short. */
  ghost predicate DeservesGrace(c: Config, before: seq<Action>) {
    !EndsCutShort(before) && Elapsed(before) > Soft(c, before) && Elapsed(before) >= c.maxSeconds * SECOND
  }

  ghost function Noticed(c: Config, trace: seq<Action>): Option<StopReason> {
    if trace == [] then None
    else if trace[|trace| - 1].Notice? then Some(Reason(c, trace[..|trace| - 1]))
    else Noticed(c, trace[..|trace| - 1])
  }

  ghost predicate GraceGiven(c: Config, trace: seq<Action>) {
    trace != [] &&
    (if trace[|trace| - 1].Notice? then DeservesGrace(c, trace[..|trace| - 1])
     else GraceGiven(c, trace[..|trace| - 1]))
  }

  /** A reply of text only, without a submission, before the notice. */
  ghost predicate NudgedIn(c: Config, trace: seq<Action>) {
    trace != [] &&
    (var before, a := trace[..|trace| - 1], trace[|trace| - 1];
     NudgedIn(c, before)
     || (a.Ask? && a.reply.Completed? && a.reply.calls == [] && a.reply.content.Some? && !Submits(c, a.reply)
         && Notice !in before))
  }

  /** A reply without a submission after the notice. */
  ghost predicate RemindedIn(c: Config, trace: seq<Action>) {
    trace != [] &&
    (var before, a := trace[..|trace| - 1], trace[|trace| - 1];
     RemindedIn(c, before) || (a.Ask? && a.reply.Completed? && !Submits(c, a.reply) && Notice in before))
  }

  /** A submission. */
  ghost predicate SubmittedIn(c: Config, trace: seq<Action>) {
    trace != [] &&
    (var before, a := trace[..|trace| - 1], trace[|trace| - 1];
     SubmittedIn(c, before) || (a.Ask? && Submits(c, a.reply)))
  }

  /** At least fifteen seconds are left. */
  ghost predicate TimeLeft(c: Config, trace: seq<Action>) {
    Elapsed(trace) + 15 * SECOND <= c.maxSeconds * SECOND
  }

  /** Whether the run goes on after its last request: to the one repair of a submission that the check
      rejects, to the tools or the one nudge before the notice, to the notice after a time-out, or to the
      one reminder of a spent tool budget after it. */
  ghost predicate GoesOn(c: Config, trace: seq<Action>)
    requires trace != [] && trace[|trace| - 1].Ask?
  {
    var before, reply := trace[..|trace| - 1], trace[|trace| - 1].reply;
    match reply
    case Failed(_) => false
    case TimedOut(_) => Notice !in before
    case Completed(content, calls, _) =>
      if Submits(c, reply) then
        && c.check(Submission(c, content, calls).value.arguments).Some?
        && !SubmittedIn(c, before) && TimeLeft(c, trace)
      else if Notice in before then
        Noticed(c, before) == Some(ToolBudget) && !RemindedIn(c, before) && TimeLeft(c, trace)
      else
        calls != [] || (content.Some? && !NudgedIn(c, before))
  }

  /** What an ordinary await may take: until the soft deadline or at least a second, within the budget. */
  ghost function OrdinaryLimit(c: Config, trace: seq<Action>): Duration {
    SoftLeft(c.maxSeconds * SECOND, Elapsed(trace), Soft(c, trace))
  }

  /** What the next request may take. */
  ghost function RequestLimit(c: Config, trace: seq<Action>): Duration {
    if Notice !in trace then OrdinaryLimit(c, trace)
    else if GraceGiven(c, trace) then 20 * SECOND
    else Sub(c.maxSeconds * SECOND, Elapsed(trace))
  }

  /** The last reply's tool calls are run: it asked for some before the notice and the soft deadline. */
  ghost predicate RunsNext(c: Config, trace: seq<Action>) {
    && trace != [] && trace[|trace| - 1].Ask? && WantsTools(c, trace[|trace| - 1].reply)
    && Notice !in trace && OrdinaryLimit(c, trace) > 0 && Elapsed(trace) < Soft(c, trace)
  }

  /** The notice is due: an await was cut short, the soft deadline has passed, or the tool budget is spent. */
  ghost predicate NoticeDue(c: Config, trace: seq<Action>) {
    EndsCutShort(trace) || Elapsed(trace) > Soft(c, trace) || Counted(c, trace) == c.maxToolCalls
  }

  /** The action `a` is what may, and must, come after `before`. */
  ghost predicate LawfulNext(c: Config, before: seq<Action>, a: Action) {
    && (before != [] && before[|before| - 1].Ask? ==> GoesOn(c, before))
    && (a.RunBatch? <==> RunsNext(c, before))
    && match a
       case Notice => Notice !in before && NoticeDue(c, before)
       case Ask(_, terminalOnly, lowEffort, grace, limit, _) =>
         && (Notice !in before ==> !NoticeDue(c, before))
         && (terminalOnly <==> Notice in before)
         && (lowEffort <==> Noticed(c, before) == Some(TimeBudget))
         && (grace <==> GraceGiven(c, before))
         && limit == RequestLimit(c, before) > 0
       case RunBatch(calls, limit, _) =>
         && calls == before[|before| - 1].reply.calls[..Min(c.maxToolCalls - Counted(c, before[..|before| - 1]),
                                                            |before[|before| - 1].reply.calls|)]
         && limit == OrdinaryLimit(c, before)
  }

  ghost predicate Lawful(c: Config, trace: seq<Action>) {
    trace == [] || (Lawful(c, trace[..|trace| - 1]) && LawfulNext(c, trace[..|trace| - 1], trace[|trace| - 1]))
  }

  /** The last request is dealt with and allows the run to go on. */
  ghost predicate Between(c: Config, trace: seq<Action>) {
    && (trace != [] && trace[|trace| - 1].Ask? ==> GoesOn(c, trace))
    && !RunsNext(c, trace)
    && (Notice !in trace ==> !EndsCutShort(trace))
  }

  /** The run ended where it had to: after a request that allows nothing more, or with no time for one. */
  ghost predicate EndsRight(c: Config, trace: seq<Action>, run: AgentRun) {
    && run.toolCalls == Counted(c, trace)
    && (run.repaired <==> SubmittedIn(c, if run.stopped == Terminal then trace[..Sub(|trace|, 1)] else trace))
    && ((trace != [] && trace[|trace| - 1].Ask? && !GoesOn(c, trace) && StopsFor(c, trace, run))
        || (run.stopped == TimeBudget && run.finalCall == None && RequestLimit(c, trace) == 0 && Between(c, trace)
            && (Notice !in trace ==> !NoticeDue(c, trace))))
  }

  /** The reason and the submission that the last request calls for. */
  ghost predicate StopsFor(c: Config, trace: seq<Action>, run: AgentRun)
    requires trace != [] && trace[|trace| - 1].Ask?
  {
    var before, reply := trace[..|trace| - 1], trace[|trace| - 1].reply;
    if Submits(c, reply) then
      run.stopped == Terminal && run.finalCall.Some? && Carries(c, reply, run.finalCall.value)
    else
      && run.finalCall == None
      && run.stopped ==
         match reply
         case Failed(_) => ProviderError
         case TimedOut(_) => TimeBudget
         case Completed(_, _, _) =>
           if Noticed(c, before).Some? then Noticed(c, before).value else NoTerminalCall
  }

  // ---- what a proper transcript is ----

  /** `m` is what has to follow the assistant message `a`: a submission is sent back with the error of the
      check, text gets a nudge or a reminder, and tool calls get their first answer. */
  ghost predicate Follows(c: Config, a: Message, m: Message)
    requires a.Assistant?
  {
    var submitted := Submission(c, a.content, a.calls);
    if submitted.Some? then
      var error := c.check(submitted.value.arguments);
      error.Some? &&
      m == if a.calls == [] then User(Repair(error.value)) else Tool(submitted.value.id, c.terminal, error.value)
    else if a.calls == [] then m == User(CallToFinish) || m == User(Reminder)
    else m.Tool? && m.id == a.calls[0].id && m.name == a.calls[0].name
  }

  ghost predicate Talk(c: Config, ms: seq<Message>) {
    && |ms| >= 2 && ms[0] == System && ms[1] == User(Task)
    && (forall i :: 0 <= i < |ms| - 1 && ms[i].Assistant? ==> Follows(c, ms[i], ms[i + 1]))
    && (forall i :: 0 <= i < |ms| && IsRepair(ms[i]) ==> i > 0 && ms[i - 1].Assistant? && Follows(c, ms[i - 1], ms[i]))
  }

  predicate IsRepair(m: Message) {
    m.User? && m.note.Repair?
  }

  predicate Closed(ms: seq<Message>) {
    ms != [] && !ms[|ms| - 1].Assistant?
  }

  /** What the model said, in order. */
  ghost function Said(ms: seq<Message>): seq<Message> {
    if ms == [] then []
    else Said(ms[..|ms| - 1]) + if ms[|ms| - 1].Assistant? then [ms[|ms| - 1]] else []
  }

  /** What the replies of a trace said, in order. */
  ghost function Spoken(trace: seq<Action>): seq<Message> {
    if trace == [] then []
    else
      var a := trace[|trace| - 1];
      Spoken(trace[..|trace| - 1])
      + if a.Ask? && a.reply.Completed? then [Assistant(a.reply.content, a.reply.calls)] else []
  }

  /** The transcript holds what was said, each thing properly followed up. */
  ghost predicate Chat(c: Config, ms: seq<Message>, trace: seq<Action>) {
    Talk(c, ms) && Said(ms) == Spoken(trace)
  }

  /** Messages that do not come from the model. */
  ghost predicate Ours(ms: seq<Message>) {
    forall m <- ms :: !m.Assistant?
  }

  lemma {:induction false} SaidOurs(ms: seq<Message>, more: seq<Message>)
    requires Ours(more)
    ensures Said(ms + more) == Said(ms)
    decreases |more|
  {
    if more == [] {
      assert ms + more == ms;
    } else {
      var n := |more| - 1;
      assert (ms + more)[..|ms + more| - 1] == ms + more[..n];
      assert more[n] in more;
      SaidOurs(ms, more[..n]);
    }
  }

  lemma SaidOne(ms: seq<Message>, a: Message)
    requires a.Assistant?
    ensures Said(ms + [a]) == Said(ms) + [a]
  {
    assert (ms + [a])[..|ms|] == ms;
  }

  /** A note of ours that is no repair. */
  lemma ChatNote(c: Config, ms: seq<Message>, trace: seq<Action>, note: Note)
    requires Chat(c, ms, trace) && Closed(ms) && !note.Repair?
    ensures Chat(c, ms + [User(note)], trace) && Closed(ms + [User(note)])
  {
    SaidOurs(ms, [User(note)]);
  }

  /** What the model said last, without more. */
  lemma ChatSaid(c: Config, ms: seq<Message>, before: seq<Action>, trace: seq<Action>, a: Message)
    requires Chat(c, ms, before) && Closed(ms) && a.Assistant? && Spoken(trace) == Spoken(before) + [a]
    ensures Chat(c, ms + [a], trace)
  {
    SaidOne(ms, a);
  }

  /** What the model said, and our answer to it. */
  lemma ChatAnswered(c: Config, ms: seq<Message>, before: seq<Action>, trace: seq<Action>, a: Message,
                     ours: seq<Message>)
    requires Chat(c, ms, before) && Closed(ms) && a.Assistant? && Spoken(trace) == Spoken(before) + [a]
    requires ours != [] && Ours(ours) && Follows(c, a, ours[0]) && forall k :: 1 <= k < |ours| ==> !IsRepair(ours[k])
    ensures Chat(c, ms + [a] + ours, trace) && Closed(ms + [a] + ours)
  {
    SaidOne(ms, a);
    SaidOurs(ms + [a], ours);
    TalkAnswered(c, ms, a, ours);
  }

  lemma TalkAnswered(c: Config, ms: seq<Message>, a: Message, ours: seq<Message>)
    requires Talk(c, ms) && Closed(ms) && a.Assistant?
    requires ours != [] && Ours(ours) && Follows(c, a, ours[0]) && forall k :: 1 <= k < |ours| ==> !IsRepair(ours[k])
    ensures Talk(c, ms + [a] + ours) && Closed(ms + [a] + ours)
  {
    var longer := ms + [a] + ours;
    assert forall k :: |ms| < k < |longer| ==> longer[k] == ours[k - |ms| - 1] && longer[k] in ours;
    assert longer[|ms|] == a;
  }

  // ---- the loop ----

  datatype State = State(messages: seq<Message>, toolCalls: nat, nudged: bool, repaired: bool,
                         noticeSent: bool, reminded: bool, warned: bool, budgetStop: StopReason,
                         softTimedOut: bool, graceDue: bool, slowestReply: Duration, trace: seq<Action>)
  {
    function Now(): Duration { Elapsed(trace) }

    function Left(c: Config): Duration { Sub(c.Total(), Now()) }

    function Push(m: Message): State { this.(messages := messages + [m]) }

    function Stop(reason: StopReason): AgentRun {
      AgentRun(None, |messages|, toolCalls, reason, repaired)
    }

    function Submit(call: ToolCall): AgentRun {
      AgentRun(Some(call), |messages|, toolCalls, Terminal, repaired)
    }
  }

  /** How many more requests the run can make. Every turn that continues uses one of: a tool call
      of the budget, the nudge, the repair, or the step to the notice and its reminder. */
  ghost function Potential(c: Config, s: State): nat
    requires s.toolCalls <= c.maxToolCalls
  {
    if s.noticeSent then
      1 + (if s.repaired then 0 else 1) + (if s.budgetStop == ToolBudget && !s.reminded then 1 else 0)
    else
      2 + (if s.repaired then 0 else 1) + (if s.nudged then 0 else 1) + (c.maxToolCalls - s.toolCalls)
  }

  /** `owed` is 1 while a request has been made and its turn is not over. */
  ghost predicate Inv(c: Config, s: State, owed: nat) {
    && Started(s.trace) <= s.toolCalls <= c.maxToolCalls
    && AsksValid(s.trace) && Remembered(s.trace, s.messages) && Quiet(s.trace)
    && (s.noticeSent <==> Notice in s.trace)
    && (s.budgetStop == ToolBudget || s.budgetStop == TimeBudget)
    && (s.noticeSent && s.budgetStop == ToolBudget ==> s.toolCalls == c.maxToolCalls)
    && Asks(s.trace) + Potential(c, s) <= c.maxToolCalls + 4 + owed
  }

  ghost predicate Head(c: Config, s: State) {
    Inv(c, s, 0) && Valid(s.messages) && !s.graceDue && InBudget(s.trace, c.Total())
  }

  /** A reply is in and its turn is to be decided. A grace reply came after the hard deadline. */
  ghost predicate Asked(c: Config, s: State) {
    && Inv(c, s, 1) && Valid(s.messages)
    && (s.graceDue ==> s.noticeSent && c.Total() <= s.Now() && InBudgetButGrace(s.trace, c.Total()))
    && (!s.graceDue ==> InBudget(s.trace, c.Total()))
  }

  // ---- the books a run keeps ----

  /** The one-time flags and the count say what happened in `trace`. */
  ghost predicate Flags(c: Config, s: State, trace: seq<Action>) {
    && (s.nudged <==> NudgedIn(c, trace)) && (s.reminded <==> RemindedIn(c, trace))
    && (s.repaired <==> SubmittedIn(c, trace)) && s.toolCalls == Counted(c, trace)
  }

  ghost predicate Times(c: Config, s: State) {
    && (s.noticeSent <==> Notice in s.trace)
    && Noticed(c, s.trace) == (if s.noticeSent then Some(s.budgetStop) else None)
    && (!s.noticeSent ==> !s.softTimedOut)
    && (s.graceDue <==> GraceGiven(c, s.trace))
    && s.slowestReply == Slowest(s.trace)
    && Lawful(c, s.trace)
  }

  ghost predicate Booked(c: Config, s: State) {
    && Flags(c, s, s.trace) && Times(c, s) && Between(c, s.trace)
    && Chat(c, s.messages, s.trace) && Closed(s.messages)
  }

  /** The next request may be made. */
  ghost predicate BookedReady(c: Config, s: State) {
    Booked(c, s) && (!s.noticeSent ==> !NoticeDue(c, s.trace))
  }

  /** A reply is in, and only the trace says so yet. */
  ghost predicate BookedAsk(c: Config, s: State) {
    && s.trace != [] && s.trace[|s.trace| - 1].Ask?
    && Flags(c, s, s.trace[..|s.trace| - 1]) && Times(c, s)
    && Chat(c, s.messages, s.trace[..|s.trace| - 1]) && Closed(s.messages)
  }

  ghost predicate BookedEnd(c: Config, trace: seq<Action>, transcript: seq<Message>, run: AgentRun) {
    Lawful(c, trace) && EndsRight(c, trace, run) && Chat(c, transcript, trace)
  }

  /** A submission that the check accepts is the last thing the run asks for, and what it returns. */
  ghost predicate AcceptedEnds(c: Config, trace: seq<Action>, run: AgentRun) {
    forall k, call :: 0 <= k < |trace| && trace[k].Ask? && Carries(c, trace[k].reply, call) &&
                      c.check(call.arguments).None? ==>
      k == |trace| - 1 && run.stopped == Terminal && run.finalCall == Some(call)
  }

  /** A request for a repair answers a submission that the check rejects, with the error of the check, and
      no rejected submission is passed over. */
  ghost predicate RepairsAnswer(c: Config, ms: seq<Message>) {
    && (forall i :: 0 <= i < |ms| && ms[i].User? && ms[i].note.Repair? ==>
          && i > 0 && ms[i - 1].Assistant? && ms[i - 1].calls == [] && ms[i - 1].content.Some?
          && c.asTerminal(ms[i - 1].content.value).Some?
          && c.check(c.asTerminal(ms[i - 1].content.value).value) == Some(ms[i].note.error))
    && (forall i, call :: 0 <= i < |ms| - 1 && ms[i].Assistant? &&
                          Carries(c, Completed(ms[i].content, ms[i].calls, 0), call) ==>
          SentBack(c, ms[i], call, ms[i + 1]))
  }

  /** `m` rejects the submission `call` of `a` with the error of the check. */
  ghost predicate SentBack(c: Config, a: Message, call: ToolCall, m: Message)
    requires a.Assistant?
  {
    && c.check(call.arguments).Some?
    && m == var error := c.check(call.arguments).value;
            if a.calls == [] then User(Repair(error)) else Tool(call.id, c.terminal, error)
  }

  lemma FollowsBack(c: Config, a: Message, call: ToolCall, m: Message)
    requires a.Assistant? && Follows(c, a, m) && Carries(c, Completed(a.content, a.calls, 0), call)
    ensures SentBack(c, a, call, m)
  {
    CarriesExactly(c, Completed(a.content, a.calls, 0), call);
  }

  lemma {:induction false} LawfulAt(c: Config, trace: seq<Action>, k: nat)
    requires Lawful(c, trace) && k < |trace|
    ensures LawfulNext(c, trace[..k], trace[k])
  {
    if k < |trace| - 1 {
      LawfulAt(c, trace[..|trace| - 1], k);
      assert trace[..|trace| - 1][..k] == trace[..k];
    }
  }

  /** After an accepted submission nothing goes on. */
  lemma AcceptedStops(c: Config, trace: seq<Action>, call: ToolCall)
    requires trace != [] && trace[|trace| - 1].Ask? && Carries(c, trace[|trace| - 1].reply, call)
    requires c.check(call.arguments).None?
    ensures !GoesOn(c, trace) && Submits(c, trace[|trace| - 1].reply)
  {
    CarriesExactly(c, trace[|trace| - 1].reply, call);
  }

  lemma RequestGoesOn(c: Config, trace: seq<Action>, k: nat)
    requires Lawful(c, trace) && k + 1 < |trace| && trace[k].Ask?
    ensures GoesOn(c, trace[..k + 1])
  {
    LawfulAt(c, trace, k + 1);
  }

  lemma AcceptedIsLast(c: Config, trace: seq<Action>, k: nat, call: ToolCall)
    requires Lawful(c, trace) && k < |trace| && trace[k].Ask?
    requires Carries(c, trace[k].reply, call) && c.check(call.arguments).None?
    ensures k == |trace| - 1
  {
    if k + 1 < |trace| { RequestGoesOn(c, trace, k); }
    AcceptedStops(c, trace[..k + 1], call);
  }

  lemma AcceptedIsReturned(c: Config, trace: seq<Action>, run: AgentRun, call: ToolCall)
    requires trace != [] && trace[|trace| - 1].Ask? && EndsRight(c, trace, run)
    requires Carries(c, trace[|trace| - 1].reply, call) && c.check(call.arguments).None?
    ensures run.stopped == Terminal && run.finalCall == Some(call)
  {
    AcceptedStops(c, trace, call);
    assert StopsFor(c, trace, run);
    CarriesExactly(c, trace[|trace| - 1].reply, call);
    CarriesExactly(c, trace[|trace| - 1].reply, run.finalCall.value);
  }

  lemma AcceptsEnd(c: Config, trace: seq<Action>, run: AgentRun)
    requires Lawful(c, trace) && EndsRight(c, trace, run)
    ensures AcceptedEnds(c, trace, run)
  {
    forall k: nat, call | k < |trace| && trace[k].Ask? && Carries(c, trace[k].reply, call) &&
                          c.check(call.arguments).None?
      ensures k == |trace| - 1 && run.stopped == Terminal && run.finalCall == Some(call)
    {
      AcceptedIsLast(c, trace, k, call);
      AcceptedIsReturned(c, trace, run, call);
    }
  }

  lemma RepairsAreAnswers(c: Config, ms: seq<Message>)
    requires Talk(c, ms)
    ensures RepairsAnswer(c, ms)
  {
    forall i, call | 0 <= i < |ms| - 1 && ms[i].Assistant? && Carries(c, Completed(ms[i].content, ms[i].calls, 0), call)
      ensures SentBack(c, ms[i], call, ms[i + 1])
    {
      FollowsBack(c, ms[i], call, ms[i + 1]);
    }
  }

  /** A reply of text only, without a submission. */
  ghost predicate TextOnly(c: Config, a: Action) {
    a.Ask? && a.reply.Completed? && a.reply.calls == [] && a.reply.content.Some? && !Submits(c, a.reply)
  }

  /** What one more action adds. */
  lemma BookStep(c: Config, before: seq<Action>, a: Action)
    ensures NudgedIn(c, before + [a]) == (NudgedIn(c, before) || (TextOnly(c, a) && Notice !in before))
    ensures RemindedIn(c, before + [a]) ==
      (RemindedIn(c, before) || (a.Ask? && a.reply.Completed? && !Submits(c, a.reply) && Notice in before))
    ensures SubmittedIn(c, before + [a]) == (SubmittedIn(c, before) || (a.Ask? && Submits(c, a.reply)))
    ensures Counted(c, before + [a]) == Counted(c, before) +
      if a.Ask? && WantsTools(c, a.reply) && Notice !in before
      then Min(c.maxToolCalls - Counted(c, before), |a.reply.calls|) else 0
    ensures Spoken(before + [a]) == Spoken(before) +
      if a.Ask? && a.reply.Completed? then [Assistant(a.reply.content, a.reply.calls)] else []
  {
    assert (before + [a])[..|before|] == before;
    FlagStep(c, before, a);
  }

  lemma FlagStep(c: Config, before: seq<Action>, a: Action)
    ensures NudgedIn(c, before + [a]) == (NudgedIn(c, before) || (TextOnly(c, a) && Notice !in before))
    ensures RemindedIn(c, before + [a]) ==
      (RemindedIn(c, before) || (a.Ask? && a.reply.Completed? && !Submits(c, a.reply) && Notice in before))
    ensures SubmittedIn(c, before + [a]) == (SubmittedIn(c, before) || (a.Ask? && Submits(c, a.reply)))
  {
    assert (before + [a])[..|before|] == before;
  }

  lemma TimeStep(c: Config, before: seq<Action>, a: Action)
    ensures Noticed(c, before + [a]) == if a.Notice? then Some(Reason(c, before)) else Noticed(c, before)
    ensures GraceGiven(c, before + [a]) == if a.Notice? then DeservesGrace(c, before) else GraceGiven(c, before)
    ensures Slowest(before + [a]) ==
      if a.Ask? && a.reply.Completed? then Max(Slowest(before), a.reply.took) else Slowest(before)
    ensures Lawful(c, before + [a]) == (Lawful(c, before) && LawfulNext(c, before, a))
    ensures Notice in before + [a] <==> Notice in before || a == Notice
    ensures EndsCutShort(before + [a]) == CutShort(a)
  {
    assert (before + [a])[..|before|] == before;
    assert forall x :: x in before + [a] <==> x in before || x == a;
  }

  /** What a finished run guarantees. */
  ghost predicate Done(c: Config, trace: seq<Action>, transcript: seq<Message>, run: AgentRun) {
    && Asks(trace) <= c.maxToolCalls + 4
    && Started(trace) <= run.toolCalls <= c.maxToolCalls
    && AsksValid(trace) && Remembered(trace, transcript) && Quiet(trace)
    && run.transcriptLen == |transcript|
    && (run.stopped == Terminal <==> run.finalCall.Some?)
    && Justified(c, trace, run) && Checked(c, trace, run)
    && InBudgetButGrace(trace, c.maxSeconds * SECOND)
  }

  /** The run stopped for the reason it gives. */
  ghost predicate Justified(c: Config, trace: seq<Action>, run: AgentRun) {
    var last := LastReply(trace);
    match run.stopped
    case Terminal =>
      last.Some? && last.value.Completed? && run.finalCall == Submission(c, last.value.content, last.value.calls)
    case ProviderError => last.Some? && last.value.Failed?
    case ToolBudget => Notice in trace && run.toolCalls == c.maxToolCalls
    case TimeBudget => Notice in trace || c.maxSeconds * SECOND <= Elapsed(trace)
    case NoTerminalCall =>
      && Notice !in trace && last.Some? && last.value.Completed? && last.value.calls == []
      && Submission(c, last.value.content, []) == None
  }

  /** A submission is a call of the terminal tool, and it passed the check unless the one repair was
      used up or too little time was left for one. */
  ghost predicate Checked(c: Config, trace: seq<Action>, run: AgentRun) {
    run.finalCall.Some? ==>
      && run.finalCall.value.name == c.terminal
      && (c.check(run.finalCall.value.arguments).None? || run.repaired
          || Sub(c.maxSeconds * SECOND, Elapsed(trace)) < 15 * SECOND)
  }

  function SendNotice(s: State, stop: StopReason): State {
    s.(noticeSent := true, budgetStop := stop, messages := s.messages + [User(WrapUp)], trace := s.trace + [Notice])
  }

  lemma NoticeStep(c: Config, s: State, stop: StopReason)
    requires Inv(c, s, 0) && InBudget(s.trace, c.Total()) && !s.noticeSent
    requires stop == TimeBudget || (stop == ToolBudget && s.toolCalls == c.maxToolCalls)
    ensures Inv(c, SendNotice(s, stop), 0) && InBudget(SendNotice(s, stop).trace, c.Total())
    ensures SendNotice(s, stop).Now() == s.Now()
    ensures Potential(c, SendNotice(s, stop)) <= Potential(c, s)
    ensures stop == TimeBudget ==> Potential(c, SendNotice(s, stop)) < Potential(c, s)
  {
    TraceStep(s.trace, Notice);
    TraceKeeps(s.trace, Notice, c.Total());
  }

  /** The next request may be made. */
  ghost predicate Ready(c: Config, s: State) {
    && Inv(c, s, 0) && Valid(s.messages) && InBudget(s.trace, c.Total())
    && (s.graceDue ==> s.noticeSent && c.Total() <= s.Now())
    && (!s.noticeSent ==> s.toolCalls < c.maxToolCalls)
  }

  /** The notice or the early warning at the top of an iteration. */
  method TopOfLoop(c: Config, s: State) returns (n: State)
    requires Head(c, s) && Booked(c, s)
    ensures Ready(c, n) && Potential(c, n) <= Potential(c, s) && BookedReady(c, n)
    ensures n.trace == s.trace || n.trace == s.trace + [Notice]
    ensures n.trace == s.trace + [Notice] ==> n.messages == s.messages + [User(WrapUp)]
    ensures n.trace == s.trace ==>
      n.messages == s.messages || n.messages == s.messages + [User(CallsLeft(c.maxToolCalls - s.toolCalls))]
    ensures n.noticeSent <==>
      s.noticeSent || s.Now() > SoftDeadline(c.Total(), s.slowestReply) || s.toolCalls == c.maxToolCalls
  {
    var timeUp := s.Now() > SoftDeadline(c.Total(), s.slowestReply);
    var toolsUp := s.toolCalls >= c.maxToolCalls;
    if (timeUp || toolsUp) && !s.noticeSent {
      var stop := if timeUp then TimeBudget else ToolBudget;
      var grace := timeUp && s.Now() >= c.Total() && !s.softTimedOut;
      FirstNotice(c, s, stop, grace);
      NoticeBooked(c, s, stop, grace);
      return SendNotice(s, stop).(graceDue := grace);
    }
    n := Warn(c, s);
  }

  lemma NothingDue(c: Config, s: State, n: State)
    requires Booked(c, s) && Chat(c, n.messages, s.trace) && Closed(n.messages)
    requires n == s.(messages := n.messages, warned := n.warned)
    requires s.noticeSent || (s.Now() <= SoftDeadline(c.Total(), s.slowestReply) && s.toolCalls < c.maxToolCalls)
    ensures BookedReady(c, n)
  {
  }

  /** The notice, when it is due at the top of an iteration. */
  lemma NoticeBooked(c: Config, s: State, stop: StopReason, grace: bool)
    requires Booked(c, s) && !s.noticeSent
    requires s.Now() > SoftDeadline(c.Total(), s.slowestReply) || s.toolCalls >= c.maxToolCalls
    requires stop == if s.Now() > SoftDeadline(c.Total(), s.slowestReply) then TimeBudget else ToolBudget
    requires grace <==> s.Now() > SoftDeadline(c.Total(), s.slowestReply) && s.Now() >= c.Total()
    ensures BookedReady(c, SendNotice(s, stop).(graceDue := grace))
  {
    var n := SendNotice(s, stop).(graceDue := grace);
    NoticeNoted(c, s, s.trace);
    TimeStep(c, s.trace, Notice);
    NoticeLast(c, s.trace);
  }

  /** After a notice there is nothing left to do about earlier replies. */
  lemma NoticeLast(c: Config, trace: seq<Action>)
    ensures Between(c, trace + [Notice])
  {
    assert (trace + [Notice])[|trace|] == Notice;
    assert Notice in trace + [Notice];
  }

  lemma FirstNotice(c: Config, s: State, stop: StopReason, grace: bool)
    requires Head(c, s) && !s.noticeSent
    requires stop == TimeBudget || (stop == ToolBudget && s.toolCalls == c.maxToolCalls)
    requires grace ==> c.Total() <= s.Now()
    ensures Ready(c, SendNotice(s, stop).(graceDue := grace))
    ensures Potential(c, SendNotice(s, stop).(graceDue := grace)) <= Potential(c, s)
  {
    NoticeStep(c, s, stop);
    PushUser(s.messages, WrapUp);
  }

  /** The one early warning, once a fifth of a budget of ten or more tool calls is left. */
  method Warn(c: Config, s: State) returns (n: State)
    requires Head(c, s) && Booked(c, s)
    requires s.noticeSent || (s.Now() <= SoftDeadline(c.Total(), s.slowestReply) && s.toolCalls < c.maxToolCalls)
    ensures Ready(c, n) && Potential(c, n) == Potential(c, s) && BookedReady(c, n) && n.trace == s.trace
    ensures n.noticeSent == s.noticeSent
    ensures !(!s.warned && c.maxToolCalls >= 10 && 5 * (c.maxToolCalls - s.toolCalls) <= c.maxToolCalls) ==> n == s
    ensures !s.warned && c.maxToolCalls >= 10 && 5 * (c.maxToolCalls - s.toolCalls) <= c.maxToolCalls ==>
      n == s.(messages := s.messages + [User(CallsLeft(c.maxToolCalls - s.toolCalls))], warned := true)
  {
    if !s.warned && c.maxToolCalls >= 10 && c.maxToolCalls - s.toolCalls <= c.maxToolCalls / 5 {
      Warned(c, s, CallsLeft(c.maxToolCalls - s.toolCalls));
      return s.Push(User(CallsLeft(c.maxToolCalls - s.toolCalls))).(warned := true);
    }
    StillReady(c, s, s);
    NothingDue(c, s, s);
    return s;
  }

  lemma Warned(c: Config, s: State, note: Note)
    requires Head(c, s) && Booked(c, s) && !note.Repair?
    requires s.noticeSent || (s.Now() <= SoftDeadline(c.Total(), s.slowestReply) && s.toolCalls < c.maxToolCalls)
    ensures var n := s.Push(User(note)).(warned := true);
      Ready(c, n) && Potential(c, n) == Potential(c, s) && BookedReady(c, n)
  {
    var n := s.Push(User(note)).(warned := true);
    ChatNote(c, s.messages, s.trace, note);
    PushUser(s.messages, note);
    StillReady(c, s, n);
    NothingDue(c, s, n);
  }

  lemma StillReady(c: Config, s: State, n: State)
    requires Head(c, s) && n == s.(messages := n.messages, warned := n.warned)
    requires Valid(n.messages) && s.messages <= n.messages
    requires s.noticeSent || s.toolCalls < c.maxToolCalls
    ensures Ready(c, n) && Potential(c, n) == Potential(c, s)
  {
  }

  /** `run_agent_checked`: whatever the provider and the tools do, the run ends, within its
      request, tool and time budgets, and with a valid transcript at every request. */
  method RunAgentChecked(c: Config, model: nat -> ModelOutcome, tools: nat -> ToolOutcome)
    returns (run: AgentRun, trace: seq<Action>, transcript: seq<Message>)
    ensures Done(c, trace, transcript, run) && Heard(trace, model, tools)
    ensures BookedEnd(c, trace, transcript, run)
    ensures AcceptedEnds(c, trace, run) && RepairsAnswer(c, transcript)
    ensures Elapsed(trace) <= c.maxSeconds * SECOND + 20 * SECOND + 2 * Overrun(trace)
  {
    var s := State([System, User(Task)], 0, false, false, false, false, false, ToolBudget, false, false, 0, []);
    assert Asks([]) == Batches([]) == Started([]) == Elapsed([]) == 0;
    FirstBooks(c, s);
    var requests, batches := 0, 0;
    while true
      invariant Head(c, s) && Booked(c, s) && Consumed(s.trace, model, tools, requests, batches)
      decreases Potential(c, s)
    {
      ConsumedStep(s.trace, Notice, model, tools, requests, batches);
      s := TopOfLoop(c, s);
      var limit := Limit(c, s);
      if limit == 0 {
        NoTimeLeft(c, s);
        BookNoTimeLeft(c, s);
        EndIsRight(c, s.trace, s.messages, s.Stop(TimeBudget));
        return s.Stop(TimeBudget), s.trace, s.messages;
      }
      var stop: Option<AgentRun>;
      s, stop, batches := Turn(c, s, limit, model, tools, requests, batches);
      if stop.Some? {
        GraceElapsed(s.trace, c.Total());
        EndIsRight(c, s.trace, s.messages, stop.value);
        return stop.value, s.trace, s.messages;
      }
      requests := requests + 1;
    }
  }

  lemma EndIsRight(c: Config, trace: seq<Action>, transcript: seq<Message>, run: AgentRun)
    requires BookedEnd(c, trace, transcript, run)
    ensures AcceptedEnds(c, trace, run) && RepairsAnswer(c, transcript)
  {
    AcceptsEnd(c, trace, run);
    RepairsAreAnswers(c, transcript);
  }

  lemma FirstBooks(c: Config, s: State)
    requires s.trace == [] && s.messages == [System, User(Task)] && s.toolCalls == 0 && s.slowestReply == 0
    requires !s.nudged && !s.repaired && !s.noticeSent && !s.reminded && !s.softTimedOut && !s.graceDue
    ensures Booked(c, s)
  {
    assert [System, User(Task)][..1][..0] == [];
    assert Said([System, User(Task)]) == [];
  }

  /** The limit the loop computes is the one the trace calls for. */
  lemma LimitIs(c: Config, s: State)
    requires Times(c, s)
    ensures Limit(c, s) == RequestLimit(c, s.trace)
  {
  }

  lemma BookNoTimeLeft(c: Config, s: State)
    requires BookedReady(c, s) && Limit(c, s) == 0
    ensures BookedEnd(c, s.trace, s.messages, s.Stop(TimeBudget))
  {
    LimitIs(c, s);
  }

  lemma BookAsk(c: Config, s: State, limit: Duration, reply: ModelOutcome)
    requires BookedReady(c, s) && limit == Limit(c, s) > 0
    ensures BookedAsk(c, Await(s, limit, reply))
  {
    var ask := AskOf(s, limit, reply);
    LimitIs(c, s);
    TimeStep(c, s.trace, ask);
    assert (s.trace + [ask])[..|s.trace|] == s.trace;
  }

  /** One request and what is done about its reply. */
  method Turn(c: Config, s: State, limit: Duration, model: nat -> ModelOutcome, tools: nat -> ToolOutcome,
              requests: nat, batches: nat)
    returns (n: State, stop: Option<AgentRun>, done: nat)
    requires Ready(c, s) && BookedReady(c, s) && limit == Limit(c, s) > 0
    requires Consumed(s.trace, model, tools, requests, batches)
    ensures Consumed(n.trace, model, tools, requests + 1, done)
    ensures stop.None? ==> Head(c, n) && Booked(c, n) && Potential(c, n) < Potential(c, s)
    ensures stop.Some? ==> Done(c, n.trace, n.messages, stop.value) && BookedEnd(c, n.trace, n.messages, stop.value)
  {
    var reply := model(requests);
    AskStep(c, s, limit, reply);
    BookAsk(c, s, limit, reply);
    ConsumedStep(s.trace, AskOf(s, limit, reply), model, tools, requests, batches);
    var asked := Await(s, limit, reply);
    if reply.Completed? && RunsTools(c, asked, reply.calls) {
      var ran: Option<Action>;
      n, ran := HandleCalls(c, asked, reply, tools(batches));
      stop, done := None, batches;
      if ran.Some? {
        done := batches + 1;
        BatchConsumed(asked.trace, ran.value, model, tools, requests + 1, batches);
      }
    } else {
      ConsumedStep(asked.trace, Notice, model, tools, requests + 1, batches);
      n, stop := HandleOutcome(c, asked, reply);
      done := batches;
    }
  }

  lemma BatchConsumed(trace: seq<Action>, ran: Action, model: nat -> ModelOutcome, tools: nat -> ToolOutcome,
                      requests: nat, batches: nat)
    requires Consumed(trace, model, tools, requests, batches) && ran.RunBatch? && ran.outcome == tools(batches)
    ensures Consumed(trace + [ran], model, tools, requests, batches + 1)
    ensures Consumed(trace + [ran] + [Notice], model, tools, requests, batches + 1)
  {
    ConsumedStep(trace, ran, model, tools, requests, batches);
    ConsumedStep(trace + [ran], Notice, model, tools, requests, batches + 1);
  }

  /** How long the next request may take. */
  function Limit(c: Config, s: State): Duration {
    if !s.noticeSent then SoftLeft(c.Total(), s.Now(), SoftDeadline(c.Total(), s.slowestReply))
    else if s.graceDue then TERMINAL_GRACE
    else s.Left(c)
  }

  /** The request is made; after a time-budget notice it runs at low effort. */
  function AskOf(s: State, limit: Duration, reply: ModelOutcome): Action {
    Ask(s.messages, s.noticeSent, s.noticeSent && s.budgetStop == TimeBudget, s.graceDue, limit, reply)
  }

  /** The state once the reply is in; a completed one counts towards the slowest. */
  function Await(s: State, limit: Duration, reply: ModelOutcome): State {
    s.(trace := s.trace + [AskOf(s, limit, reply)],
       slowestReply := if reply.Completed? then Max(s.slowestReply, reply.took) else s.slowestReply)
  }

  lemma AskStep(c: Config, s: State, limit: Duration, reply: ModelOutcome)
    requires Ready(c, s) && limit == Limit(c, s) > 0
    ensures Asked(c, Await(s, limit, reply)) && LastReply(Await(s, limit, reply).trace) == Some(reply)
    ensures Potential(c, Await(s, limit, reply)) == Potential(c, s)
  {
    var ask := AskOf(s, limit, reply);
    TraceStep(s.trace, ask);
    TraceKeeps(s.trace, ask, c.Total());
    assert (s.trace + [ask])[..|s.trace|] == s.trace;
  }

  lemma NoTimeLeft(c: Config, s: State)
    requires Ready(c, s) && Limit(c, s) == 0
    ensures Done(c, s.trace, s.messages, s.Stop(TimeBudget))
    ensures s.Now() <= c.Total() + TERMINAL_GRACE + 2 * Overrun(s.trace)
  {
    GraceElapsed(s.trace, c.Total());
  }

  predicate RunsTools(c: Config, s: State, calls: seq<ToolCall>) {
    calls != [] && !HasTerminal(c, calls) && !s.noticeSent
  }

  /** Every outcome of a request but an ordinary batch of tool calls. */
  method HandleOutcome(c: Config, s: State, outcome: ModelOutcome) returns (n: State, stop: Option<AgentRun>)
    requires Asked(c, s) && BookedAsk(c, s) && LastReply(s.trace) == Some(outcome)
    requires outcome.Completed? ==> !RunsTools(c, s, outcome.calls)
    ensures n.trace == s.trace || n.trace == s.trace + [Notice]
    ensures stop.None? ==> Head(c, n) && Booked(c, n) && Potential(c, n) < Potential(c, s)
    ensures stop.Some? ==> Done(c, n.trace, n.messages, stop.value) && BookedEnd(c, n.trace, n.messages, stop.value)
  {
    match outcome {
      case Failed(_) =>
        FailedEnds(c, s);
        n, stop := s, Some(s.Stop(ProviderError));
      case TimedOut(_) =>
        n, stop := HandleTimeout(c, s);
      case Completed(content, calls, _) =>
        if calls == [] {
          n, stop := HandleText(c, s, content);
        } else if HasTerminal(c, calls) {
          n, stop := HandleTerminal(c, s, content, calls);
        } else {
          n, stop := HandleLateCalls(c, s, content, calls);
        }
    }
  }

  /** The trace before the last request, and that request. */
  lemma LastAsk(trace: seq<Action>) returns (before: seq<Action>, a: Action)
    requires trace != []
    ensures trace == before + [a] && before == trace[..|trace| - 1] && a == trace[|trace| - 1]
  {
    before, a := trace[..|trace| - 1], trace[|trace| - 1];
  }

  /** A run that stops after a request that allows nothing more, having said at most what the model said. */
  lemma BookStop(c: Config, s: State, n: State, run: AgentRun)
    requires BookedAsk(c, s) && !GoesOn(c, s.trace) && StopsFor(c, s.trace, run)
    requires run.toolCalls == s.toolCalls && run.repaired == s.repaired
    requires var reply := s.trace[|s.trace| - 1].reply;
      n.messages == if reply.Completed? then s.messages + [Assistant(reply.content, reply.calls)] else s.messages
    requires s.trace[|s.trace| - 1].reply.Completed? ==> !RunsTools(c, s, s.trace[|s.trace| - 1].reply.calls)
    ensures BookedEnd(c, s.trace, n.messages, run)
  {
    var before, a := LastAsk(s.trace);
    BookStep(c, before, a);
    TimeStep(c, before, a);
    if a.reply.Completed? {
      ChatSaid(c, s.messages, before, s.trace, Assistant(a.reply.content, a.reply.calls));
    }
  }

  /** A run that goes on after a completed reply, with the books brought up to date. */
  lemma BookGoOn(c: Config, s: State, n: State, ours: seq<Message>)
    requires BookedAsk(c, s) && GoesOn(c, s.trace) && !RunsNext(c, s.trace)
    requires s.trace[|s.trace| - 1].reply.Completed?
    requires n.trace == s.trace && n.noticeSent == s.noticeSent && n.budgetStop == s.budgetStop
    requires n.softTimedOut == s.softTimedOut && n.graceDue == s.graceDue && n.slowestReply == s.slowestReply
    requires Flags(c, n, s.trace)
    requires var a := Assistant(s.trace[|s.trace| - 1].reply.content, s.trace[|s.trace| - 1].reply.calls);
      && n.messages == s.messages + [a] + ours && ours != [] && Ours(ours) && Follows(c, a, ours[0])
      && forall k :: 1 <= k < |ours| ==> !IsRepair(ours[k])
    ensures Booked(c, n)
  {
    var before, a := LastAsk(s.trace);
    BookStep(c, before, a);
    TimeStep(c, before, a);
    ChatAnswered(c, s.messages, before, s.trace, Assistant(a.reply.content, a.reply.calls), ours);
  }

  /** What the flags have to become after a reply that runs no tools. */
  lemma FlagsAfter(c: Config, s: State, n: State)
    requires BookedAsk(c, s) && n.toolCalls == s.toolCalls
    requires var a := s.trace[|s.trace| - 1];
      && !(WantsTools(c, a.reply) && !s.noticeSent)
      && n.nudged == (s.nudged || (TextOnly(c, a) && !s.noticeSent))
      && n.reminded == (s.reminded || (a.reply.Completed? && !Submits(c, a.reply) && s.noticeSent))
      && n.repaired == (s.repaired || Submits(c, a.reply))
    ensures Flags(c, n, s.trace)
  {
    var before, a := LastAsk(s.trace);
    BookStep(c, before, a);
    TimeStep(c, before, a);
  }

  /** The last reply said this. */
  ghost predicate Replied(s: State, content: Option<string>, calls: seq<ToolCall>) {
    var last := LastReply(s.trace);
    last.Some? && last.value.Completed? && last.value.content == content && last.value.calls == calls
  }

  ghost predicate Submitted(c: Config, s: State, call: ToolCall) {
    var last := LastReply(s.trace);
    last.Some? && last.value.Completed? && Submission(c, last.value.content, last.value.calls) == Some(call)
  }

  /** The turn is over and nothing but the messages and one-time flags changed. */
  lemma GoOn(c: Config, s: State, n: State)
    requires Asked(c, s) && Valid(n.messages) && !s.graceDue
    requires n.trace == s.trace && n.toolCalls == s.toolCalls && n.graceDue == s.graceDue
    requires n.noticeSent == s.noticeSent && n.budgetStop == s.budgetStop && s.messages <= n.messages
    requires Potential(c, n) < Potential(c, s)
    ensures Head(c, n)
  {
  }

  /** A run that stops here has kept every promise. */
  lemma StopHere(c: Config, s: State, n: State, run: AgentRun)
    requires Asked(c, s) && run.toolCalls == s.toolCalls
    requires s.messages <= n.messages && run.transcriptLen == |n.messages|
    requires run.stopped == Terminal <==> run.finalCall.Some?
    requires Justified(c, s.trace, run) && Checked(c, s.trace, run)
    ensures Done(c, s.trace, n.messages, run)
  {
  }

  method HandleTimeout(c: Config, s: State) returns (n: State, stop: Option<AgentRun>)
    requires Asked(c, s) && BookedAsk(c, s) && s.trace[|s.trace| - 1].reply.TimedOut?
    ensures n.trace == s.trace || n.trace == s.trace + [Notice]
    ensures stop.None? ==> Head(c, n) && Booked(c, n) && Potential(c, n) < Potential(c, s)
    ensures stop.Some? ==> Done(c, n.trace, n.messages, stop.value) && BookedEnd(c, n.trace, n.messages, stop.value)
  {
    if s.noticeSent {
      TimeoutEnds(c, s);
      return s, Some(s.Stop(TimeBudget));
    }
    TimeoutNoticed(c, s);
    n, stop := SendNotice(s, TimeBudget).(softTimedOut := true), None;
  }

  lemma FailedEnds(c: Config, s: State)
    requires Asked(c, s) && BookedAsk(c, s) && s.trace[|s.trace| - 1].reply.Failed?
    ensures Done(c, s.trace, s.messages, s.Stop(ProviderError))
    ensures BookedEnd(c, s.trace, s.messages, s.Stop(ProviderError))
  {
    StopHere(c, s, s, s.Stop(ProviderError));
    BookStop(c, s, s, s.Stop(ProviderError));
  }

  lemma TimeoutEnds(c: Config, s: State)
    requires Asked(c, s) && BookedAsk(c, s) && s.trace[|s.trace| - 1].reply.TimedOut? && s.noticeSent
    ensures Done(c, s.trace, s.messages, s.Stop(TimeBudget))
    ensures BookedEnd(c, s.trace, s.messages, s.Stop(TimeBudget))
  {
    StopHere(c, s, s, s.Stop(TimeBudget));
    LastNotNotice(c, s);
    BookStop(c, s, s, s.Stop(TimeBudget));
  }

  lemma LastNotNotice(c: Config, s: State)
    requires BookedAsk(c, s)
    ensures s.noticeSent <==> Notice in s.trace[..|s.trace| - 1]
    ensures Noticed(c, s.trace[..|s.trace| - 1]) == Noticed(c, s.trace)
  {
    var before, a := LastAsk(s.trace);
    TimeStep(c, before, a);
  }

  /** When an await was cut short the notice goes out at once, without grace. */
  lemma NoticeAfterCut(c: Config, trace: seq<Action>)
    requires Lawful(c, trace) && EndsCutShort(trace) && Notice !in trace
    ensures Lawful(c, trace + [Notice]) && Notice in trace + [Notice]
    ensures Noticed(c, trace + [Notice]) == Some(TimeBudget) && !GraceGiven(c, trace + [Notice])
    ensures Slowest(trace + [Notice]) == Slowest(trace)
  {
    TimeStep(c, trace, Notice);
    if trace[|trace| - 1].Ask? { assert trace[|trace| - 1] in trace; TimedOutGoesOn(c, trace); }
  }

  lemma TimedOutGoesOn(c: Config, trace: seq<Action>)
    requires trace != [] && trace[|trace| - 1].Ask? && trace[|trace| - 1].reply.TimedOut? && Notice !in trace
    ensures GoesOn(c, trace) && !RunsNext(c, trace)
  {
    assert forall x :: x in trace[..|trace| - 1] ==> x in trace;
  }

  lemma TimeoutNoticed(c: Config, s: State)
    requires Asked(c, s) && BookedAsk(c, s) && s.trace[|s.trace| - 1].reply.TimedOut? && !s.noticeSent
    ensures var n := SendNotice(s, TimeBudget).(softTimedOut := true);
      Head(c, n) && Booked(c, n) && Potential(c, n) < Potential(c, s)
  {
    NoticeAfterAsk(c, s);
    BookTimeout(c, s);
  }

  lemma BookTimeout(c: Config, s: State)
    requires BookedAsk(c, s) && s.trace[|s.trace| - 1].reply.TimedOut? && !s.noticeSent
    ensures Booked(c, SendNotice(s, TimeBudget).(softTimedOut := true))
  {
    FlagsAfter(c, s, s);
    NothingSaid(c, s);
    CutNoticed(c, s);
  }

  /** The notice right after an await that was cut short. */
  lemma CutNoticed(c: Config, s: State)
    requires Flags(c, s, s.trace) && Times(c, s) && EndsCutShort(s.trace) && !s.noticeSent
    requires Chat(c, s.messages, s.trace) && Closed(s.messages)
    ensures Booked(c, SendNotice(s, TimeBudget).(softTimedOut := true))
  {
    NoticeNoted(c, s, s.trace);
    NoticeLast(c, s.trace);
    CutNoticedTimes(c, s);
  }

  lemma CutNoticedTimes(c: Config, s: State)
    requires Times(c, s) && EndsCutShort(s.trace) && !s.noticeSent
    ensures Times(c, SendNotice(s, TimeBudget).(softTimedOut := true))
  {
    if s.graceDue { GraceAfterNotice(c, s.trace); }
    NoticeAfterCut(c, s.trace);
  }

  lemma {:induction false} GraceAfterNotice(c: Config, trace: seq<Action>)
    requires GraceGiven(c, trace)
    ensures Notice in trace
  {
    if !trace[|trace| - 1].Notice? {
      GraceAfterNotice(c, trace[..|trace| - 1]);
    } else {
      assert trace[|trace| - 1] in trace;
    }
  }

  /** The notice changes no flag, and is said to the model. */
  lemma NoticeNoted(c: Config, s: State, trace: seq<Action>)
    requires Flags(c, s, trace) && Chat(c, s.messages, trace) && Closed(s.messages)
    ensures Flags(c, s, trace + [Notice])
    ensures Chat(c, s.messages + [User(WrapUp)], trace + [Notice]) && Closed(s.messages + [User(WrapUp)])
  {
    BookStep(c, trace, Notice);
    ChatNote(c, s.messages, trace, WrapUp);
  }

  lemma NothingSaid(c: Config, s: State)
    requires BookedAsk(c, s) && !s.trace[|s.trace| - 1].reply.Completed?
    ensures Chat(c, s.messages, s.trace)
  {
    var before, a := LastAsk(s.trace);
    BookStep(c, before, a);
  }

  lemma NoticeAfterAsk(c: Config, s: State)
    requires Asked(c, s) && !s.noticeSent
    ensures Head(c, SendNotice(s, TimeBudget))
    ensures Potential(c, SendNotice(s, TimeBudget)) < Potential(c, s)
  {
    PushUser(s.messages, WrapUp);
    TraceStep(s.trace, Notice);
    TraceKeeps(s.trace, Notice, c.Total());
  }

  /** The repair request for a rejected submission, if one is still allowed. */
  function RepairRequest(c: Config, s: State, arguments: string): (r: Option<string>)
    ensures r.Some? ==> !s.repaired && s.Left(c) >= REPAIR_MIN_LEFT
  {
    match c.check(arguments)
    case None => None
    case Some(err) => if s.repaired || s.Left(c) < REPAIR_MIN_LEFT then None else Some(err)
  }

  /** A repair is asked for exactly when the run goes on, and carries the error of the check. */
  lemma SubmissionSettled(c: Config, s: State, content: Option<string>, calls: seq<ToolCall>, call: ToolCall,
                          repair: Option<string>)
    requires BookedAsk(c, s) && Replied(s, content, calls) && Submission(c, content, calls) == Some(call)
    requires repair == RepairRequest(c, s, call.arguments)
    ensures GoesOn(c, s.trace) <==> repair.Some?
    ensures repair.Some? ==> repair == c.check(call.arguments)
    ensures StopsFor(c, s.trace, s.Submit(call))
  {
    LastNotNotice(c, s);
    CarriesExactly(c, s.trace[|s.trace| - 1].reply, call);
  }

  lemma SubmissionEnds(c: Config, s: State, content: Option<string>, calls: seq<ToolCall>, call: ToolCall, n: State)
    requires Asked(c, s) && BookedAsk(c, s) && Replied(s, content, calls) && Submission(c, content, calls) == Some(call)
    requires RepairRequest(c, s, call.arguments).None? && n == s.Push(Assistant(content, calls))
    ensures Done(c, s.trace, n.messages, n.Submit(call)) && BookedEnd(c, s.trace, n.messages, n.Submit(call))
  {
    StopHere(c, s, n, n.Submit(call));
    SubmissionSettled(c, s, content, calls, call, None);
    BookStop(c, s, n, n.Submit(call));
  }

  lemma Repaired(c: Config, s: State, content: Option<string>, calls: seq<ToolCall>, call: ToolCall, error: string,
                 n: State, ours: seq<Message>)
    requires Asked(c, s) && BookedAsk(c, s) && Valid(n.messages)
    requires Replied(s, content, calls) && Submission(c, content, calls) == Some(call)
    requires RepairRequest(c, s, call.arguments) == Some(error)
    requires n == s.(repaired := true, messages := s.messages + [Assistant(content, calls)] + ours)
    requires ours != [] && Ours(ours) && forall k :: 1 <= k < |ours| ==> !IsRepair(ours[k])
    requires ours[0] == if calls == [] then User(Repair(error)) else Tool(call.id, call.name, error)
    ensures Head(c, n) && Booked(c, n) && Potential(c, n) < Potential(c, s)
  {
    GoOn(c, s, n);
    SubmissionSettled(c, s, content, calls, call, Some(error));
    FlagsAfter(c, s, n);
    BookGoOn(c, s, n, ours);
  }

  lemma NudgedOn(c: Config, s: State, content: Option<string>, n: State)
    requires Asked(c, s) && BookedAsk(c, s) && Valid(n.messages)
    requires Replied(s, content, []) && content.Some? && Submission(c, content, []) == None
    requires !s.nudged && !s.noticeSent
    requires n == s.(nudged := true, messages := s.messages + [Assistant(content, [])] + [User(CallToFinish)])
    ensures Head(c, n) && Booked(c, n) && Potential(c, n) < Potential(c, s)
  {
    GoOn(c, s, n);
    LastNotNotice(c, s);
    FlagsAfter(c, s, n);
    BookGoOn(c, s, n, [User(CallToFinish)]);
  }

  lemma RemindedOn(c: Config, s: State, content: Option<string>, calls: seq<ToolCall>, n: State, ours: seq<Message>)
    requires Asked(c, s) && BookedAsk(c, s) && Valid(n.messages)
    requires Replied(s, content, calls) && Submission(c, content, calls) == None
    requires s.noticeSent && s.budgetStop == ToolBudget && !s.reminded && s.Left(c) >= REPAIR_MIN_LEFT
    requires n == s.(reminded := true, messages := s.messages + [Assistant(content, calls)] + ours)
    requires ours != [] && Ours(ours) && Follows(c, Assistant(content, calls), ours[0])
    requires forall k :: 1 <= k < |ours| ==> !IsRepair(ours[k])
    ensures Head(c, n) && Booked(c, n) && Potential(c, n) < Potential(c, s)
  {
    GoOn(c, s, n);
    LastNotNotice(c, s);
    FlagsAfter(c, s, n);
    BookGoOn(c, s, n, ours);
  }

  lemma SilenceEnds(c: Config, s: State, content: Option<string>, calls: seq<ToolCall>, n: State, reason: StopReason)
    requires Asked(c, s) && BookedAsk(c, s) && Replied(s, content, calls) && Submission(c, content, calls) == None
    requires n == s.Push(Assistant(content, calls))
    requires s.noticeSent ==> s.budgetStop == TimeBudget || s.reminded || s.Left(c) < REPAIR_MIN_LEFT
    requires !s.noticeSent ==> calls == [] && (content.None? || s.nudged)
    requires s.budgetStop == ToolBudget || s.budgetStop == TimeBudget
    requires reason == if s.noticeSent then s.budgetStop else NoTerminalCall
    ensures Done(c, s.trace, n.messages, n.Stop(reason)) && BookedEnd(c, s.trace, n.messages, n.Stop(reason))
  {
    SilenceDone(c, s, content, calls, n, reason);
    SilenceStops(c, s, content, calls, n.Stop(reason));
    BookStop(c, s, n, n.Stop(reason));
  }

  lemma SilenceStops(c: Config, s: State, content: Option<string>, calls: seq<ToolCall>, run: AgentRun)
    requires BookedAsk(c, s) && Replied(s, content, calls) && Submission(c, content, calls) == None
    requires s.noticeSent ==> s.budgetStop == TimeBudget || s.reminded || s.Left(c) < REPAIR_MIN_LEFT
    requires !s.noticeSent ==> calls == [] && (content.None? || s.nudged)
    requires run.finalCall == None && run.stopped == if s.noticeSent then s.budgetStop else NoTerminalCall
    ensures !GoesOn(c, s.trace) && StopsFor(c, s.trace, run)
  {
    LastNotNotice(c, s);
  }

  lemma SilenceDone(c: Config, s: State, content: Option<string>, calls: seq<ToolCall>, n: State, reason: StopReason)
    requires Asked(c, s) && Replied(s, content, calls) && Submission(c, content, calls) == None
    requires n == s.Push(Assistant(content, calls))
    requires !s.noticeSent ==> calls == []
    requires s.budgetStop == ToolBudget || s.budgetStop == TimeBudget
    requires reason == if s.noticeSent then s.budgetStop else NoTerminalCall
    ensures Done(c, s.trace, n.messages, n.Stop(reason))
  {
    StopHere(c, s, n, n.Stop(reason));
  }

  method HandleText(c: Config, s: State, content: Option<string>) returns (n: State, stop: Option<AgentRun>)
    requires Asked(c, s) && BookedAsk(c, s) && Replied(s, content, [])
    ensures n.trace == s.trace
    ensures stop.None? ==> Head(c, n) && Booked(c, n) && Potential(c, n) < Potential(c, s)
    ensures stop.Some? ==> Done(c, n.trace, n.messages, stop.value) && BookedEnd(c, n.trace, n.messages, stop.value)
  {
    n := s.Push(Assistant(content, []));
    PushText(s.messages, content);
    if content.Some? {
      var submission := c.asTerminal(content.value);
      if submission.Some? {
        var call := ToolCall("text-terminal", c.terminal, submission.value);
        n, stop := HandleTextSubmission(c, s, n, content, call);
        return;
      }
      if !n.nudged && !n.noticeSent {
        PushUser(n.messages, CallToFinish);
        n := n.Push(User(CallToFinish)).(nudged := true);
        NudgedOn(c, s, content, n);
        return n, None;
      }
    }
    n, stop := HandleSilence(c, s, n, content);
  }

  method HandleTextSubmission(c: Config, s: State, t: State, content: Option<string>, call: ToolCall)
    returns (n: State, stop: Option<AgentRun>)
    requires Asked(c, s) && BookedAsk(c, s) && Submitted(c, s, call)
    requires Replied(s, content, []) && t == s.Push(Assistant(content, [])) && Valid(t.messages)
    ensures n.trace == s.trace
    ensures stop.None? ==> Head(c, n) && Booked(c, n) && Potential(c, n) < Potential(c, s)
    ensures stop.Some? ==> Done(c, n.trace, n.messages, stop.value) && BookedEnd(c, n.trace, n.messages, stop.value)
  {
    n := t;
    var m := RepairRequest(c, n, call.arguments);
    if m.Some? {
      PushUser(n.messages, Repair(m.value));
      n := n.Push(User(Repair(m.value))).(repaired := true);
      Repaired(c, s, content, [], call, m.value, n, [User(Repair(m.value))]);
      return n, None;
    }
    SubmissionEnds(c, s, content, [], call, n);
    return n, Some(n.Submit(call));
  }

  /** A reply with neither a submission nor tool calls: at most one reminder, then the end. */
  method HandleSilence(c: Config, s: State, t: State, content: Option<string>) returns (n: State,
                       stop: Option<AgentRun>)
    requires Asked(c, s) && BookedAsk(c, s) && Replied(s, content, []) && Submission(c, content, []) == None
    requires t == s.Push(Assistant(content, [])) && Valid(t.messages)
    requires content.None? || s.nudged || s.noticeSent
    ensures n.trace == s.trace
    ensures stop.None? ==> Head(c, n) && Booked(c, n) && Potential(c, n) < Potential(c, s)
    ensures stop.Some? ==> Done(c, n.trace, n.messages, stop.value) && BookedEnd(c, n.trace, n.messages, stop.value)
  {
    n := t;
    if n.noticeSent && n.budgetStop == ToolBudget && !n.reminded && n.Left(c) >= REPAIR_MIN_LEFT {
      PushUser(n.messages, Reminder);
      n := n.Push(User(Reminder)).(reminded := true);
      RemindedOn(c, s, content, [], n, [User(Reminder)]);
      return n, None;
    }
    var reason := if n.noticeSent then n.budgetStop else NoTerminalCall;
    SilenceEnds(c, s, content, [], n, reason);
    return n, Some(n.Stop(reason));
  }

  lemma PushText(ms: seq<Message>, content: Option<string>)
    requires Valid(ms)
    ensures Valid(ms + [Assistant(content, [])])
  {
    PushAnswered(ms, Assistant(content, []), []);
    assert ms + [Assistant(content, [])] + [] == ms + [Assistant(content, [])];
  }

  method HandleTerminal(c: Config, s: State, content: Option<string>, calls: seq<ToolCall>)
    returns (n: State, stop: Option<AgentRun>)
    requires Asked(c, s) && BookedAsk(c, s)
    requires HasTerminal(c, calls) && Replied(s, content, calls)
    ensures n.trace == s.trace
    ensures stop.None? ==> Head(c, n) && Booked(c, n) && Potential(c, n) < Potential(c, s)
    ensures stop.Some? ==> Done(c, n.trace, n.messages, stop.value) && BookedEnd(c, n.trace, n.messages, stop.value)
  {
    n := s.Push(Assistant(content, calls));
    var call := FirstNamed(calls, c.terminal);
    var m := RepairRequest(c, n, call.arguments);
    if m.None? {
      SubmissionEnds(c, s, content, calls, call, n);
      return n, Some(n.Submit(call));
    }
    var answers := [Tool(call.id, call.name, m.value)] +
      AnswerEach(Others(calls, call.id), _ => "not executed: resubmit the terminal call");
    RepairAnswers(calls, call, m.value, _ => "not executed: resubmit the terminal call");
    PushAnswered(s.messages, Assistant(content, calls), answers);
    n := n.(repaired := true, messages := n.messages + answers);
    Repaired(c, s, content, calls, call, m.value, n, answers);
    stop := None;
  }

  /** Tool calls that answer the budget notice are not executed. */
  method HandleLateCalls(c: Config, s: State, content: Option<string>, calls: seq<ToolCall>)
    returns (n: State, stop: Option<AgentRun>)
    requires Asked(c, s) && BookedAsk(c, s) && s.noticeSent && Replied(s, content, calls)
    requires calls != [] && !HasTerminal(c, calls)
    ensures n.trace == s.trace
    ensures stop.None? ==> Head(c, n) && Booked(c, n) && Potential(c, n) < Potential(c, s)
    ensures stop.Some? ==> Done(c, n.trace, n.messages, stop.value) && BookedEnd(c, n.trace, n.messages, stop.value)
  {
    n := s.Push(Assistant(content, calls));
    if n.budgetStop == ToolBudget && !n.reminded && n.Left(c) >= REPAIR_MIN_LEFT {
      var answers := AnswerEach(calls, _ => "not executed: tool budget exhausted");
      InOrderAnswers(calls, answers);
      PushAnswered(s.messages, Assistant(content, calls), answers);
      n := n.(reminded := true, messages := n.messages + answers);
      AnswersFollow(c, Assistant(content, calls), answers);
      RemindedOn(c, s, content, calls, n, answers);
      return n, None;
    }
    SilenceEnds(c, s, content, calls, n, n.budgetStop);
    return n, Some(n.Stop(n.budgetStop));
  }

  /** An ordinary batch of tool calls, capped at the remaining tool budget. */
  method HandleCalls(c: Config, s: State, reply: ModelOutcome, outcome: ToolOutcome)
    returns (n: State, ran: Option<Action>)
    requires Asked(c, s) && BookedAsk(c, s) && LastReply(s.trace) == Some(reply) && s.toolCalls < c.maxToolCalls
    requires reply.Completed? && RunsTools(c, s, reply.calls)
    ensures Head(c, n) && Booked(c, n) && Potential(c, n) < Potential(c, s)
    ensures ran.Some? <==> s.Now() < SoftDeadline(c.Total(), s.slowestReply)
    ensures n.toolCalls == s.toolCalls + Min(c.maxToolCalls - s.toolCalls, |reply.calls|)
    ensures ran.None? ==> n.trace == s.trace
    ensures ran.None? ==>
      n.messages == s.messages + [Assistant(reply.content, reply.calls)] + Refused(reply.calls)
    ensures ran.Some? ==> ran.value.RunBatch? && ran.value.outcome == outcome
    ensures ran.Some? ==> ran.value.calls == reply.calls[..Min(c.maxToolCalls - s.toolCalls, |reply.calls|)]
    ensures ran.Some? ==> n.trace == s.trace + [ran.value] || n.trace == s.trace + [ran.value] + [Notice]
    ensures ran.Some? ==> n.messages == BatchTalk(s, reply, |ran.value.calls|, outcome)
  {
    var exec := Allowed(c, s, reply.calls);
    AllowedFits(c, s, reply.calls);
    var soft := SoftDeadline(c.Total(), s.slowestReply);
    var toolLimit := SoftLeft(c.Total(), s.Now(), soft);
    if toolLimit == 0 || s.Now() >= soft {
      n := SkipCalls(c, s, reply, exec);
      ran := None;
    } else {
      var batch := RunBatch(exec, toolLimit, outcome);
      n := RunCalls(c, s, reply, batch);
      ran := Some(batch);
    }
  }

  lemma AllowedFits(c: Config, s: State, calls: seq<ToolCall>)
    requires s.toolCalls < c.maxToolCalls && calls != []
    ensures 0 < |Allowed(c, s, calls)| && s.toolCalls + |Allowed(c, s, calls)| <= c.maxToolCalls
  {
  }

  function Refused(calls: seq<ToolCall>): seq<Message> {
    AnswerEach(calls, _ => "not executed: time budget")
  }

  /** Too late for another batch: the calls are counted and answered, but not run. */
  method SkipCalls(c: Config, s: State, reply: ModelOutcome, exec: seq<ToolCall>) returns (n: State)
    requires Asked(c, s) && BookedAsk(c, s) && LastReply(s.trace) == Some(reply)
    requires reply.Completed? && RunsTools(c, s, reply.calls) && s.toolCalls < c.maxToolCalls
    requires exec == Allowed(c, s, reply.calls) && !RunsNext(c, s.trace)
    ensures Head(c, n) && Booked(c, n) && Potential(c, n) < Potential(c, s)
    ensures n.trace == s.trace && n.toolCalls == s.toolCalls + |exec|
    ensures n.messages == s.messages + [Assistant(reply.content, reply.calls)] + Refused(reply.calls)
  {
    var said := Assistant(reply.content, reply.calls);
    AllowedFits(c, s, reply.calls);
    Skipped(c, s, said, |exec|);
    n := s.(messages := s.messages + [said] + Refused(said.calls), toolCalls := s.toolCalls + |exec|);
    BookSkip(c, s, n);
  }

  method RunCalls(c: Config, s: State, reply: ModelOutcome, batch: Action) returns (n: State)
    requires Asked(c, s) && BookedAsk(c, s) && LastReply(s.trace) == Some(reply)
    requires reply.Completed? && RunsTools(c, s, reply.calls) && s.toolCalls < c.maxToolCalls
    requires batch.RunBatch? && batch.calls == Allowed(c, s, reply.calls) && RunsNext(c, s.trace)
    requires 0 < batch.limit == OrdinaryLimit(c, s.trace)
    ensures Head(c, n) && Booked(c, n) && Potential(c, n) < Potential(c, s)
    ensures n.toolCalls == s.toolCalls + |batch.calls|
    ensures n.trace == s.trace + [batch] || n.trace == s.trace + [batch] + [Notice]
    ensures n.messages == BatchTalk(s, reply, |batch.calls|, batch.outcome)
  {
    var said := Assistant(reply.content, reply.calls);
    AllowedFits(c, s, reply.calls);
    BatchStep(c, s, said, batch);
    BookBatch(c, s, reply, batch);
    n := AfterBatch(c, s, Ran(s, said, batch), said, |batch.calls|, batch.outcome);
  }

  /** The messages after a batch: its results and refusals, or, when it overran, nothing but refusals and
      the notice. */
  ghost function BatchTalk(s: State, reply: ModelOutcome, cut: nat, outcome: ToolOutcome): seq<Message>
    requires reply.Completed? && cut <= |reply.calls|
  {
    var heard := s.messages + [Assistant(reply.content, reply.calls)];
    match outcome
    case Finished(results, _) => heard + Answered(reply.calls, cut, results)
    case Overran(_) => heard + Refused(reply.calls) + [User(WrapUp)]
  }

  /** The calls that the tool budget still allows. */
  function Allowed(c: Config, s: State, calls: seq<ToolCall>): (r: seq<ToolCall>)
    ensures r <= calls
  {
    calls[..Min(Sub(c.maxToolCalls, s.toolCalls), |calls|)]
  }

  /** The results of the first `cut` calls, and a refusal for each of the others. */
  function Answered(calls: seq<ToolCall>, cut: nat, results: nat -> string): seq<Message>
    requires cut <= |calls|
  {
    AnswerEach(calls[..cut], results) + AnswerEach(calls[cut..], _ => "not executed: budget")
  }

  /** The state while a batch's answers are awaited. */
  function Ran(s: State, said: Message, batch: Action): State
    requires batch.RunBatch?
  {
    s.(messages := s.messages + [said], toolCalls := s.toolCalls + |batch.calls|, trace := s.trace + [batch])
  }

  /** The answers to a batch that ran; a batch that overran brings the budget notice. */
  method AfterBatch(c: Config, s: State, ran: State, said: Message, cut: nat, outcome: ToolOutcome) returns (n: State)
    requires Running(c, s, ran, said) && cut <= |said.calls|
    requires ran.trace[|ran.trace| - 1].outcome == outcome
    ensures Head(c, n) && Booked(c, n) && Potential(c, n) <= Potential(c, ran)
    ensures n.toolCalls == ran.toolCalls && n.trace == if outcome.Overran? then ran.trace + [Notice] else ran.trace
    ensures n.messages == match outcome
      case Finished(results, _) => s.messages + [said] + Answered(said.calls, cut, results)
      case Overran(_) => s.messages + [said] + Refused(said.calls) + [User(WrapUp)]
  {
    match outcome {
      case Overran(_) =>
        n := ran.(messages := ran.messages + Refused(said.calls), softTimedOut := true);
        OverrunNoticed(c, s, ran, said, n);
        n := SendNotice(n, TimeBudget);
      case Finished(results, _) =>
        n := ran.(messages := ran.messages + Answered(said.calls, cut, results));
        BatchAnswered(c, s, ran, said, n, cut, results);
    }
  }

  /** A batch is running: the answers of its calls are owed. */
  ghost predicate Running(c: Config, s: State, ran: State, said: Message) {
    && Valid(s.messages) && ran.messages == s.messages + [said] && BookedBatch(c, s, ran, said)
    && said.calls != [] && !HasTerminal(c, said.calls)
    && Inv(c, ran, 0) && !ran.graceDue && !ran.noticeSent && InBudget(ran.trace, c.Total())
  }

  lemma OverrunNoticed(c: Config, s: State, ran: State, said: Message, n: State)
    requires Running(c, s, ran, said) && ran.trace[|ran.trace| - 1].outcome.Overran?
    requires n == ran.(messages := ran.messages + Refused(said.calls), softTimedOut := true)
    ensures Head(c, SendNotice(n, TimeBudget)) && Booked(c, SendNotice(n, TimeBudget))
    ensures Potential(c, SendNotice(n, TimeBudget)) <= Potential(c, ran)
  {
    NotExecuted(s.messages, said);
    NoticeAfterBatch(c, n);
    BookOverrun(c, s, ran, said, n);
  }

  lemma BatchAnswered(c: Config, s: State, ran: State, said: Message, n: State, cut: nat, results: nat -> string)
    requires Running(c, s, ran, said) && ran.trace[|ran.trace| - 1].outcome.Finished? && cut <= |said.calls|
    requires n == ran.(messages := ran.messages + Answered(said.calls, cut, results))
    ensures Head(c, n) && Booked(c, n)
  {
    Executed(s.messages, said, cut, results);
    BookFinished(c, s, ran, said, n, Answered(said.calls, cut, results));
  }

  /** The books while a batch's answers are awaited. */
  ghost predicate BookedBatch(c: Config, s: State, ran: State, said: Message) {
    && ran.trace != [] && ran.trace[|ran.trace| - 1].RunBatch? && said.Assistant?
    && Flags(c, ran, ran.trace) && Times(c, ran)
    && Chat(c, s.messages, ran.trace[..|ran.trace| - 1][..Sub(|ran.trace|, 2)]) && Closed(s.messages)
    && Spoken(ran.trace) == Spoken(ran.trace[..|ran.trace| - 1][..Sub(|ran.trace|, 2)]) + [said]
  }

  lemma BookBatch(c: Config, s: State, reply: ModelOutcome, batch: Action)
    requires BookedAsk(c, s) && LastReply(s.trace) == Some(reply) && reply.Completed? && RunsTools(c, s, reply.calls)
    requires batch.RunBatch? && batch.calls == Allowed(c, s, reply.calls) && RunsNext(c, s.trace)
    requires batch.limit == OrdinaryLimit(c, s.trace)
    ensures var said := Assistant(reply.content, reply.calls); BookedBatch(c, s, Ran(s, said, batch), said)
  {
    var before, a := LastAsk(s.trace);
    var said := Assistant(reply.content, reply.calls);
    BatchTimes(c, s, said, batch);
    BatchFlags(c, s, before, a, said, batch);
    BookStep(c, before, a);
    BookStep(c, s.trace, batch);
    assert (s.trace + [batch])[..|s.trace|] == s.trace;
  }

  lemma BatchTimes(c: Config, s: State, said: Message, batch: Action)
    requires Times(c, s) && batch.RunBatch? && RunsNext(c, s.trace) && batch.limit == OrdinaryLimit(c, s.trace)
    requires s.toolCalls == Counted(c, s.trace[..|s.trace| - 1])
    requires batch.calls == Allowed(c, s, s.trace[|s.trace| - 1].reply.calls)
    ensures Times(c, Ran(s, said, batch))
  {
    TimeStep(c, s.trace, batch);
  }

  lemma BatchFlags(c: Config, s: State, before: seq<Action>, a: Action, said: Message, batch: Action)
    requires s.trace == before + [a] && Flags(c, s, before) && a.Ask? && WantsTools(c, a.reply) && Notice !in before
    requires batch.RunBatch? && batch.calls == Allowed(c, s, a.reply.calls)
    ensures Flags(c, Ran(s, said, batch), s.trace + [batch])
  {
    BookStep(c, before, a);
    BookStep(c, s.trace, batch);
  }

  lemma BatchLast(c: Config, trace: seq<Action>)
    requires trace != [] && trace[|trace| - 1].RunBatch? && trace[|trace| - 1].outcome.Finished?
    ensures Between(c, trace)
  {
  }

  lemma AnswersFollow(c: Config, said: Message, ours: seq<Message>)
    requires said.Assistant? && said.calls != [] && !HasTerminal(c, said.calls)
    requires |ours| == |said.calls|
    requires forall k :: 0 <= k < |ours| ==>
      ours[k].Tool? && ours[k].id == said.calls[k].id && ours[k].name == said.calls[k].name
    ensures Ours(ours) && Follows(c, said, ours[0]) && forall k :: 1 <= k < |ours| ==> !IsRepair(ours[k])
  {
  }

  lemma BookFinished(c: Config, s: State, ran: State, said: Message, n: State, ours: seq<Message>)
    requires BookedBatch(c, s, ran, said) && ran.trace[|ran.trace| - 1].outcome.Finished?
    requires said.calls != [] && !HasTerminal(c, said.calls) && |ours| == |said.calls|
    requires forall k :: 0 <= k < |ours| ==>
      ours[k].Tool? && ours[k].id == said.calls[k].id && ours[k].name == said.calls[k].name
    requires n == ran.(messages := s.messages + [said] + ours)
    ensures Booked(c, n)
  {
    AnswersFollow(c, said, ours);
    ChatAnswered(c, s.messages, ran.trace[..|ran.trace| - 1][..Sub(|ran.trace|, 2)], ran.trace, said, ours);
    BatchLast(c, ran.trace);
  }

  lemma BookOverrun(c: Config, s: State, ran: State, said: Message, n: State)
    requires BookedBatch(c, s, ran, said) && ran.trace[|ran.trace| - 1].outcome.Overran?
    requires !ran.noticeSent && !ran.graceDue
    requires said.calls != [] && !HasTerminal(c, said.calls)
    requires n == ran.(messages := s.messages + [said] + Refused(said.calls), softTimedOut := true)
    ensures Booked(c, SendNotice(n, TimeBudget))
  {
    AnswersFollow(c, said, Refused(said.calls));
    ChatAnswered(c, s.messages, ran.trace[..|ran.trace| - 1][..Sub(|ran.trace|, 2)], ran.trace, said,
                 Refused(said.calls));
    CutNoticed(c, n.(softTimedOut := false));
  }

  lemma BookSkip(c: Config, s: State, n: State)
    requires BookedAsk(c, s) && s.trace[|s.trace| - 1].reply.Completed? && !RunsNext(c, s.trace)
    requires RunsTools(c, s, s.trace[|s.trace| - 1].reply.calls)
    requires var reply := s.trace[|s.trace| - 1].reply;
      n == s.(messages := s.messages + [Assistant(reply.content, reply.calls)] + Refused(reply.calls),
              toolCalls := s.toolCalls + |Allowed(c, s, reply.calls)|)
    ensures Booked(c, n)
  {
    var before, a := LastAsk(s.trace);
    BookStep(c, before, a);
    TimeStep(c, before, a);
    AnswersFollow(c, Assistant(a.reply.content, a.reply.calls), Refused(a.reply.calls));
    BookGoOn(c, s, n, Refused(a.reply.calls));
  }

  /** Calls that are counted but not run for lack of time. */
  lemma Skipped(c: Config, s: State, said: Message, count: nat)
    requires Asked(c, s) && !s.noticeSent && said.Assistant?
    requires 0 < count && s.toolCalls + count <= c.maxToolCalls
    ensures var n := s.(messages := s.messages + [said] + Refused(said.calls), toolCalls := s.toolCalls + count);
      Head(c, n) && Potential(c, n) < Potential(c, s)
  {
    NotExecuted(s.messages, said);
  }

  lemma NotExecuted(ms: seq<Message>, said: Message)
    requires Valid(ms) && said.Assistant?
    ensures Valid(ms + [said] + Refused(said.calls))
  {
    InOrderAnswers(said.calls, Refused(said.calls));
    PushAnswered(ms, said, Refused(said.calls));
  }

  lemma Executed(ms: seq<Message>, said: Message, cut: nat, results: nat -> string)
    requires Valid(ms) && said.Assistant? && cut <= |said.calls|
    ensures Valid(ms + [said] + Answered(said.calls, cut, results))
  {
    InOrderAnswers(said.calls, Answered(said.calls, cut, results));
    PushAnswered(ms, said, Answered(said.calls, cut, results));
  }

  lemma BatchStep(c: Config, s: State, said: Message, batch: Action)
    requires Asked(c, s) && !s.noticeSent && batch.RunBatch?
    requires 0 < |batch.calls| && s.toolCalls + |batch.calls| <= c.maxToolCalls
    requires 0 < batch.limit <= s.Left(c)
    ensures var n := Ran(s, said, batch);
      Inv(c, n, 0) && InBudget(n.trace, c.Total()) && Potential(c, n) < Potential(c, s)
  {
    TraceStep(s.trace, batch);
    TraceKeeps(s.trace, batch, c.Total());
  }

  lemma NoticeAfterBatch(c: Config, s: State)
    requires Head(c, s) && !s.noticeSent
    ensures Head(c, SendNotice(s, TimeBudget))
    ensures Potential(c, SendNotice(s, TimeBudget)) < Potential(c, s)
  {
    NoticeStep(c, s, TimeBudget);
    PushUser(s.messages, WrapUp);
  }
}
