/**
 The connected scenario on the chat wire: one conversation grows turn by turn through
 growth, probe and tool turns against a server that may answer anything.

 Everything outside the runner is a parameter: the server is a function of all requests sent
 so far, the chat template a function of the messages and the tool flag.
 */
module Scenario {
  import opened Common
  import opened PrefixReuse
  import opened Text
  import opened Wires

  datatype Request = Request(messages: seq<Message>, tools: bool, turn: Turn)

  /** What a turn of the wire makes of the server's answer. */
  datatype Reply = Reply(
    errors: seq<string>, content: string, toolCalls: seq<ToolCall>,
    promptTokens: nat, cachedTokens: nat)

  datatype Memory = Memory(singleEngine: bool, activeMb: Option<real>)

  datatype Kind =
    | DeepSleep
    | Grow(target: int, tolerance: int)
    | ToolRound(city: string)
    | Probe(prompt: string, wanted: string)
    | Unknown

  /** `options` is everything else a turn passes to the server unread. */
  datatype Turn = Turn(kind: Kind, expectReuse: bool, options: string)

  datatype Environment = Environment(
    server: seq<Request> -> Reply,
    render: (seq<Message>, bool) -> Render,
    memory: nat -> Memory,
    sleep: nat -> seq<string>,
    growText: (nat, nat, Turn) -> string,
    growAnswer: nat -> string,
    askText: (nat, string) -> string,
    toolOutput: string -> string,
    cityIn: string -> Option<string>,
    fold: string -> string,
    block: nat,
    hybrid: bool,
    maxActiveMb: Option<real>)

  datatype TurnError =
    | SleepFailed(text: string) | SeveralEngines | Transport(text: string) | GrowthMissed
    | CallCount | WrongTool | NoCallId | BadArguments | WrongCity
    | CalledToolsAgain | MissingToolResult | NoVisibleContent | MissingExpected
    | CacheMismatch(finding: Finding) | MemoryExceeded

  datatype ScenarioError = InTurn(index: nat, error: TurnError) | UnknownKind(index: nat)

  datatype Record = Record(
    index: nat, kind: Kind, errors: seq<TurnError>, cacheNotes: seq<Finding>,
    promptTokens: nat, cachedTokens: nat, rejectedRound: bool)

  /** Everything the runner holds between two turns. */
  datatype Run = Run(
    messages: seq<Message>, requests: seq<Request>, renders: seq<Render>,
    records: seq<Record>, errors: seq<ScenarioError>, lastPromptTokens: nat)

  const START := Run([], [], [], [], [], 0)

  const REUSE_WATCH_FROM: nat := 3

  /** No client render is ever confirmed by the server. */
  function RenderConfidenceFor(hasToolHistory: bool): Confidence {
    ApproximateUnverified
  }

  // ---------------------------------------------------------------------------
  // Grading the first round of a tool turn
  // ---------------------------------------------------------------------------

  function GradeToolCall(env: Environment, calls: seq<ToolCall>, expectedCity: string)
    : (Option<ToolCall>, seq<TurnError>)
  {
    if |calls| != 1 then (None, [CallCount])
    else
      var call := calls[0];
      var errors :=
        (if call.name != "get_weather" then [WrongTool] else [])
        + (if call.id == "" then [NoCallId] else []);
      match env.cityIn(call.arguments)
      case None => (None, errors + [BadArguments])
      case Some(city) =>
        var all := errors + if env.fold(city) != env.fold(expectedCity) then [WrongCity] else [];
        (if all == [] then Some(call) else None, all)
  }

  /** A call is accepted exactly when it is the one right call, and only then without errors. */
  lemma GradingAcceptsExactlyTheRightCall(
    env: Environment, calls: seq<ToolCall>, expectedCity: string)
    ensures var (call, errors) := GradeToolCall(env, calls, expectedCity);
      && (call.Some? <==> errors == [])
      && (call.Some? <==>
            && |calls| == 1 && calls[0].name == "get_weather" && calls[0].id != ""
            && env.cityIn(calls[0].arguments).Some?
            && env.fold(env.cityIn(calls[0].arguments).value) == env.fold(expectedCity))
      && (call.Some? ==> calls == [call.value])
  {
    var (call, errors) := GradeToolCall(env, calls, expectedCity);
    if call.Some? { assert calls == [calls[0]]; }
  }

  // ---------------------------------------------------------------------------
  // One turn as a function of the run so far
  // ---------------------------------------------------------------------------

  /** A turn after its first request: the run, and what the answer has to be judged by. */
  datatype Opened = Opened(run: Run, render: Render, predicted: Match, reply: Reply, errors: seq<TurnError>)

  datatype Closed = Closed(run: Run, errors: seq<TurnError>, cacheNotes: seq<Finding>, rejected: bool)

  function UserText(env: Environment, s: Run, index: nat, turn: Turn): string {
    match turn.kind
    case Grow(_, _) =>
      var current :=
        if s.lastPromptTokens > 0 then s.lastPromptTokens else |env.render(s.messages, false)|;
      env.growText(index, current, turn)
    case ToolRound(city) => env.askText(index, city)
    case Probe(prompt, _) => prompt
    case _ => ""
  }

  function Expected(env: Environment, index: nat, turn: Turn): string {
    match turn.kind
    case Grow(_, _) => env.growAnswer(index)
    case Probe(_, wanted) => wanted
    case _ => ""
  }

  function Abs(n: int): nat {
    if n < 0 then -n else n
  }

  function Transports(texts: seq<string>): seq<TurnError> {
    seq(|texts|, i requires 0 <= i < |texts| => Transport(texts[i]))
  }

  function SleepErrors(texts: seq<string>): seq<TurnError> {
    seq(|texts|, i requires 0 <= i < |texts| => SleepFailed(texts[i]))
  }

  function CacheErrors(findings: seq<Finding>): seq<TurnError> {
    seq(|findings|, i requires 0 <= i < |findings| => CacheMismatch(findings[i]))
  }

  /** Sends the whole history so far. */
  function Send(env: Environment, s: Run, tools: bool, turn: Turn): (Run, Reply) {
    var requests := s.requests + [Request(s.messages, tools, turn)];
    var reply := env.server(requests);
    (s.(requests := requests,
        lastPromptTokens := if reply.promptTokens > 0 then reply.promptTokens else s.lastPromptTokens),
     reply)
  }

  function Open(env: Environment, s: Run, index: nat, turn: Turn): Opened
    requires env.block > 0
  {
    var asked := s.(messages := s.messages + [UserMessage(UserText(env, s, index, turn))]);
    var tools := turn.kind.ToolRound?;
    var render := env.render(asked.messages, tools);
    var (sent, reply) := Send(env, asked, tools, turn);
    var missed := turn.kind.Grow? && reply.promptTokens > 0
      && Abs(reply.promptTokens - turn.kind.target) > turn.kind.tolerance;
    Opened(
      sent, render, Best(s.renders, render, env.block), reply,
      (if env.memory(|sent.requests|).singleEngine then [] else [SeveralEngines])
      + Transports(reply.errors) + (if missed then [GrowthMissed] else []))
  }

  function Watched(index: nat, turn: Turn): bool {
    index >= REUSE_WATCH_FROM && turn.expectReuse
  }

  function CacheGrade(env: Environment, observed: nat, predicted: Match, tools: bool)
    : (seq<Finding>, seq<Finding>)
  {
    SplitCacheGrading(GradeCacheMatch(observed, predicted, RenderConfidenceFor(tools), env.hybrid))
  }

  function CloseText(env: Environment, o: Opened, index: nat, turn: Turn): Closed {
    var content := o.reply.content;
    var wanted := Expected(env, index, turn);
    Closed(
      o.run.(messages := o.run.messages + [AssistantMessage(content, [])],
             renders := o.run.renders + [o.render]),
      o.errors + (if Blank(content) then [NoVisibleContent] else [])
        + (if wanted != "" && !Contains(content, wanted) then [MissingExpected] else []),
      [], false)
  }

  /** The run once the call is answered, before the model is asked to go on. */
  function WithResult(env: Environment, o: Opened, turn: Turn, call: ToolCall): Run
    requires turn.kind.ToolRound?
  {
    o.run.(
      messages := o.run.messages + [AssistantMessage(o.reply.content, o.reply.toolCalls)]
        + [ToolMessage(call.id, env.toolOutput(turn.kind.city))],
      renders := o.run.renders + [o.render])
  }

  /** What the continuation of a tool turn is predicted to restore. */
  function ContinuationMatch(env: Environment, called: Run): Match
    requires env.block > 0
  {
    Best(called.renders, env.render(called.messages, true), env.block)
  }

  function CloseToolRound(env: Environment, o: Opened, index: nat, turn: Turn): Closed
    requires env.block > 0 && turn.kind.ToolRound?
  {
    var (call, graded) := GradeToolCall(env, o.reply.toolCalls, turn.kind.city);
    if call.None? then Closed(o.run, o.errors + graded, [], true)
    else
      var called := WithResult(env, o, turn, call.value);
      var render := env.render(called.messages, true);
      var predicted := ContinuationMatch(env, called);
      var (sent, reply) := Send(env, called, true, turn);
      var (blocking, notes) := CacheGrade(env, reply.cachedTokens, predicted, true);
      var answer :=
        if reply.toolCalls != [] then [CalledToolsAgain]
        else if !Contains(reply.content, "21") then [MissingToolResult] else [];
      Closed(
        sent.(messages := sent.messages + [AssistantMessage(reply.content, reply.toolCalls)],
              renders := sent.renders + [render]),
        o.errors + graded + Transports(reply.errors) + answer
          + (if Watched(index, turn) then CacheErrors(blocking) else []),
        if Watched(index, turn) then notes else [], false)
  }

  function Exceeded(env: Environment, memory: Memory): bool {
    env.maxActiveMb.Some? && memory.activeMb.Some? && memory.activeMb.value > env.maxActiveMb.value
  }

  function InTurns(index: nat, errors: seq<TurnError>): seq<ScenarioError> {
    seq(|errors|, i requires 0 <= i < |errors| => InTurn(index, errors[i]))
  }

  function TurnRecord(env: Environment, o: Opened, c: Closed, index: nat, turn: Turn): Record {
    var (blocking, notes) :=
      CacheGrade(env, o.reply.cachedTokens, o.predicted, turn.kind.ToolRound?);
    Record(
      index, turn.kind,
      c.errors + (if Watched(index, turn) then CacheErrors(blocking) else [])
        + (if Exceeded(env, env.memory(|o.run.requests|)) then [MemoryExceeded] else []),
      c.cacheNotes + (if Watched(index, turn) then notes else []),
      o.reply.promptTokens, o.reply.cachedTokens, c.rejected)
  }

  function Finish(s: Run, record: Record): Run {
    s.(records := s.records + [record], errors := s.errors + InTurns(record.index, record.errors))
  }

  function Play(env: Environment, s: Run, index: nat, turn: Turn): Run
    requires env.block > 0
  {
    match turn.kind
    case DeepSleep =>
      Finish(s, Record(index, turn.kind, SleepErrors(env.sleep(index)), [], 0, 0, false))
    case Unknown =>
      s.(records := s.records + [Record(index, turn.kind, [], [], 0, 0, false)],
         errors := s.errors + [UnknownKind(index)])
    case ToolRound(_) =>
      var o := Open(env, s, index, turn);
      var c := CloseToolRound(env, o, index, turn);
      Finish(c.run, TurnRecord(env, o, c, index, turn))
    case _ =>
      var o := Open(env, s, index, turn);
      var c := CloseText(env, o, index, turn);
      Finish(c.run, TurnRecord(env, o, c, index, turn))
  }

  /** The run after the first turns; turns are numbered from 1. */
  function PlayAll(env: Environment, turns: seq<Turn>): Run
    requires env.block > 0
  {
    if turns == [] then START
    else Play(env, PlayAll(env, turns[..|turns| - 1]), |turns|, turns[|turns| - 1])
  }

  // ---------------------------------------------------------------------------
  // The runner
  // ---------------------------------------------------------------------------

  /** One request over the wire's whole history, recorded in the log. */
  method RunTurn(env: Environment, wire: ChatWire, s: Run, tools: bool, turn: Turn)
    returns (sent: Run, reply: Reply)
    requires s.messages == wire.messages
    ensures (sent, reply) == Send(env, s, tools, turn)
  {
    var requests := s.requests + [Request(wire.messages, tools, turn)];
    reply := env.server(requests);
    sent := s.(requests := requests);
    if reply.promptTokens > 0 {
      sent := sent.(lastPromptTokens := reply.promptTokens);
    }
  }

  method OpenTurn(env: Environment, wire: ChatWire, s: Run, index: nat, turn: Turn)
    returns (o: Opened)
    requires env.block > 0 && s.messages == wire.messages
    modifies wire
    ensures o == Open(env, s, index, turn) && o.run.messages == wire.messages
  {
    wire.AddUser(UserText(env, s, index, turn));
    var asked := s.(messages := wire.messages);
    var render := env.render(wire.messages, turn.kind.ToolRound?);
    var predicted := BestCacheMatch(s.renders, render, env.block);
    var sent, reply := RunTurn(env, wire, asked, turn.kind.ToolRound?, turn);
    var errors: seq<TurnError> := [];
    if !env.memory(|sent.requests|).singleEngine {
      errors := errors + [SeveralEngines];
    }
    errors := errors + Transports(reply.errors);
    if turn.kind.Grow? && reply.promptTokens > 0
      && Abs(reply.promptTokens - turn.kind.target) > turn.kind.tolerance {
      errors := errors + [GrowthMissed];
    }
    o := Opened(sent, render, predicted, reply, errors);
  }

  method CloseTextTurn(env: Environment, wire: ChatWire, o: Opened, index: nat, turn: Turn)
    returns (c: Closed)
    requires o.run.messages == wire.messages
    modifies wire
    ensures c == CloseText(env, o, index, turn) && c.run.messages == wire.messages
  {
    var errors := o.errors;
    if Blank(o.reply.content) {
      errors := errors + [NoVisibleContent];
    }
    var wanted := Expected(env, index, turn);
    if wanted != "" && !Contains(o.reply.content, wanted) {
      errors := errors + [MissingExpected];
    }
    wire.CommitAssistant(o.reply.content, []);
    var renders := o.run.renders + [o.render];
    c := Closed(o.run.(messages := wire.messages, renders := renders), errors, [], false);
  }

  method CloseToolTurn(env: Environment, wire: ChatWire, o: Opened, index: nat, turn: Turn)
    returns (c: Closed)
    requires env.block > 0 && turn.kind.ToolRound? && o.run.messages == wire.messages
    modifies wire
    ensures c == CloseToolRound(env, o, index, turn) && c.run.messages == wire.messages
  {
    var (call, graded) := GradeToolCall(env, o.reply.toolCalls, turn.kind.city);
    var errors := o.errors + graded;
    if call.None? {
      return Closed(o.run, errors, [], true);
    }
    wire.CommitAssistant(o.reply.content, o.reply.toolCalls);
    wire.CommitToolResult(call.value, env.toolOutput(turn.kind.city));
    var called := o.run.(messages := wire.messages, renders := o.run.renders + [o.render]);
    var render := env.render(wire.messages, true);
    var predicted := BestCacheMatch(called.renders, render, env.block);
    var sent, reply := RunTurn(env, wire, called, true, turn);
    errors := errors + Transports(reply.errors);
    var answer: seq<TurnError> := [];
    if reply.toolCalls != [] {
      answer := [CalledToolsAgain];
    } else if !Contains(reply.content, "21") {
      answer := [MissingToolResult];
    }
    errors := errors + answer;
    wire.CommitAssistant(reply.content, reply.toolCalls);
    var notes: seq<Finding> := [];
    var blocking: seq<TurnError> := [];
    if Watched(index, turn) {
      var (findings, unverified) := CacheGrade(env, reply.cachedTokens, predicted, true);
      blocking, notes := CacheErrors(findings), unverified;
    }
    errors := errors + blocking;
    c := Closed(
      sent.(messages := wire.messages, renders := sent.renders + [render]), errors, notes, false);
  }

  method RunScenario(env: Environment, turns: seq<Turn>) returns (s: Run, wire: ChatWire)
    requires env.block > 0
    ensures fresh(wire)
    ensures s == PlayAll(env, turns) && wire.messages == s.messages
  {
    wire := new ChatWire();
    s := START;
    for i := 0 to |turns|
      invariant fresh(wire)
      invariant s == PlayAll(env, turns[..i]) && wire.messages == s.messages
    {
      var turn, index := turns[i], i + 1;
      assert turns[..i + 1][..i] == turns[..i];
      match turn.kind {
        case DeepSleep =>
          s := Finish(s, Record(index, turn.kind, SleepErrors(env.sleep(index)), [], 0, 0, false));
        case Unknown =>
          s := s.(records := s.records + [Record(index, turn.kind, [], [], 0, 0, false)],
                  errors := s.errors + [UnknownKind(index)]);
        case ToolRound(_) =>
          var o := OpenTurn(env, wire, s, index, turn);
          var c := CloseToolTurn(env, wire, o, index, turn);
          s := Finish(c.run, TurnRecord(env, o, c, index, turn));
        case _ =>
          var o := OpenTurn(env, wire, s, index, turn);
          var c := CloseTextTurn(env, wire, o, index, turn);
          s := Finish(c.run, TurnRecord(env, o, c, index, turn));
      }
    }
    assert turns[..|turns|] == turns;
  }

  // ---------------------------------------------------------------------------
  // Every request extends the one before it
  // ---------------------------------------------------------------------------

  /** Each request's messages properly extend every earlier request's messages. */
  ghost predicate GrowsOnly(s: Run) {
    && (forall i, j :: 0 <= i < j < |s.requests| ==>
          s.requests[i].messages < s.requests[j].messages)
    && (forall i :: 0 <= i < |s.requests| ==> s.requests[i].messages <= s.messages)
  }

  /** Something was said since the last request. */
  ghost predicate HasNews(s: Run) {
    forall i :: 0 <= i < |s.requests| ==> s.requests[i].messages < s.messages
  }

  lemma CommittingGrows(s: Run, t: Run)
    requires GrowsOnly(s) && t.requests == s.requests && s.messages <= t.messages
    ensures GrowsOnly(t)
    ensures s.messages < t.messages ==> HasNews(t)
  {
    forall i | 0 <= i < |s.requests|
      ensures t.requests[i].messages <= t.messages
      ensures s.messages < t.messages ==> t.requests[i].messages < t.messages
    {
      assert s.requests[i].messages <= s.messages;
    }
  }

  lemma SendingGrows(env: Environment, s: Run, tools: bool, turn: Turn)
    requires GrowsOnly(s) && HasNews(s)
    ensures GrowsOnly(Send(env, s, tools, turn).0)
  {
  }

  lemma PlayGrows(env: Environment, s: Run, index: nat, turn: Turn)
    requires env.block > 0 && GrowsOnly(s)
    ensures GrowsOnly(Play(env, s, index, turn))
    ensures s.messages <= Play(env, s, index, turn).messages
  {
    if !turn.kind.DeepSleep? && !turn.kind.Unknown? {
      var asked := s.(messages := s.messages + [UserMessage(UserText(env, s, index, turn))]);
      var o := Open(env, s, index, turn);
      CommittingGrows(s, asked);
      SendingGrows(env, asked, turn.kind.ToolRound?, turn);
      if turn.kind.ToolRound? {
        var (call, _) := GradeToolCall(env, o.reply.toolCalls, turn.kind.city);
        if call.Some? {
          var called := o.run.(
            messages := o.run.messages + [AssistantMessage(o.reply.content, o.reply.toolCalls)]
              + [ToolMessage(call.value.id, env.toolOutput(turn.kind.city))],
            renders := o.run.renders + [o.render]);
          CommittingGrows(o.run, called);
          SendingGrows(env, called, true, turn);
          CommittingGrows(Send(env, called, true, turn).0, CloseToolRound(env, o, index, turn).run);
          CommittingGrows(CloseToolRound(env, o, index, turn).run, Play(env, s, index, turn));
        } else {
          CommittingGrows(o.run, Play(env, s, index, turn));
        }
      } else {
        CommittingGrows(o.run, Play(env, s, index, turn));
      }
    }
  }

  /** In every run, against every server, no request rewrites history. */
  lemma {:induction false} RequestsOnlyExtend(env: Environment, turns: seq<Turn>)
    requires env.block > 0
    ensures GrowsOnly(PlayAll(env, turns))
  {
    if turns != [] {
      var n := |turns| - 1;
      RequestsOnlyExtend(env, turns[..n]);
      PlayGrows(env, PlayAll(env, turns[..n]), |turns|, turns[n]);
    }
  }
}
