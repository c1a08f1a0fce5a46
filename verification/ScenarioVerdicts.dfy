/** What each turn of a scenario asks, and what each of its errors means, in every run. */
module ScenarioVerdicts {
  import opened Common
  import opened Sequences
  import opened PrefixReuse
  import opened Text
  import opened Wires
  import opened Scenario
  import opened ScenarioProperties

  // ---------------------------------------------------------------------------
  // A run and its beginnings
  // ---------------------------------------------------------------------------

  lemma PlayedUpTo(env: Environment, turns: seq<Turn>, i: nat)
    requires env.block > 0 && i < |turns|
    ensures PlayAll(env, turns[..i + 1]) == Play(env, PlayAll(env, turns[..i]), i + 1, turns[i])
  {
    assert turns[..i + 1][..i] == turns[..i];
  }

  /** What one run recorded is where the other's record begins. */
  ghost predicate Continues(s: Run, t: Run) {
    s.records <= t.records && s.errors <= t.errors
  }

  lemma LastTurnAdds(env: Environment, turns: seq<Turn>)
    requires env.block > 0 && turns != []
    ensures var s, t := PlayAll(env, turns[..|turns| - 1]), PlayAll(env, turns);
      Continues(s, t) && |t.records| == |s.records| + 1
  {
    var n := |turns| - 1;
    var r := PlayAddsOneRecord(env, PlayAll(env, turns[..n]), |turns|, turns[n]);
  }

  lemma GoesOn(s: Run, t: Run, u: Run)
    requires Continues(s, t) && Continues(t, u)
    ensures Continues(s, u)
  {
  }

  /** The record of a turn, and the errors it gave the scenario, are never taken back. */
  lemma {:induction false} RecordsStay(env: Environment, turns: seq<Turn>, k: nat)
    requires env.block > 0 && k <= |turns|
    ensures Continues(PlayAll(env, turns[..k]), PlayAll(env, turns))
    ensures |PlayAll(env, turns).records| == |turns|
    decreases |turns|
  {
    if turns == [] {
      assert turns[..k] == turns;
    } else {
      var n := |turns| - 1;
      LastTurnAdds(env, turns);
      if k == |turns| {
        assert turns[..k] == turns;
        RecordsStay(env, turns[..n], n);
      } else {
        RecordsStay(env, turns[..n], k);
        assert turns[..n][..k] == turns[..k];
        GoesOn(PlayAll(env, turns[..k]), PlayAll(env, turns[..n]), PlayAll(env, turns));
      }
    }
  }

  /** The record of a turn is the one it left when it was played. */
  lemma RecordOfTurn(env: Environment, turns: seq<Turn>, i: nat)
    requires env.block > 0 && i < |turns|
    ensures |PlayAll(env, turns).records| == |turns| && |PlayAll(env, turns[..i]).records| == i
    ensures |PlayAll(env, turns[..i + 1]).records| == i + 1
    ensures PlayAll(env, turns).records[i] == PlayAll(env, turns[..i + 1]).records[i]
  {
    RecordsStay(env, turns, i + 1);
    RecordsStay(env, turns[..i + 1], i + 1);
    RecordsStay(env, turns[..i], i);
  }

  /** A turn adds its record's errors to the scenario's, in order, or that its kind is unknown. */
  lemma ErrorsGrowTurnByTurn(env: Environment, turns: seq<Turn>, i: nat)
    requires env.block > 0 && i < |turns|
    ensures |PlayAll(env, turns).records| == |turns|
    ensures var s, t, r :=
        PlayAll(env, turns[..i]), PlayAll(env, turns[..i + 1]), PlayAll(env, turns).records[i];
      && r.index == i + 1 && r.kind == turns[i].kind
      && s.errors <= t.errors <= PlayAll(env, turns).errors
      && (turns[i].kind.Unknown? ==> t.errors == s.errors + [UnknownKind(i + 1)])
      && (!turns[i].kind.Unknown? ==>
            && |t.errors| == |s.errors| + |r.errors|
            && forall k :: 0 <= k < |r.errors| ==> t.errors[|s.errors| + k] == InTurn(i + 1, r.errors[k]))
  {
    PlayedUpTo(env, turns, i);
    RecordOfTurn(env, turns, i);
    RecordsStay(env, turns, i + 1);
    var r := PlayAddsOneRecord(env, PlayAll(env, turns[..i]), i + 1, turns[i]);
  }

  // ---------------------------------------------------------------------------
  // What a turn asks
  // ---------------------------------------------------------------------------

  /** What the server said to the request at `k`. */
  ghost function ReplyTo(env: Environment, s: Run, k: nat): Reply
    requires k < |s.requests|
  {
    env.server(s.requests[..k + 1])
  }

  /** No reply from `from` on reported a prompt width. */
  ghost predicate Unreported(env: Environment, s: Run, from: nat) {
    forall k :: from <= k < |s.requests| ==> ReplyTo(env, s, k).promptTokens == 0
  }

  /** The prompt width that the server reported last. */
  ghost predicate LastReported(env: Environment, s: Run, width: nat) {
    exists k :: 0 <= k < |s.requests| && ReplyTo(env, s, k).promptTokens == width > 0
      && Unreported(env, s, k + 1)
  }

  /** The size of the conversation so far; the client's own count, if no width was reported. */
  ghost predicate IsSize(env: Environment, s: Run, size: nat) {
    LastReported(env, s, size) || (Unreported(env, s, 0) && size == |env.render(s.messages, false)|)
  }

  ghost predicate RemembersWidth(env: Environment, s: Run) {
    if s.lastPromptTokens == 0 then Unreported(env, s, 0) else LastReported(env, s, s.lastPromptTokens)
  }

  lemma SendRemembers(env: Environment, s: Run, tools: bool, turn: Turn)
    requires RemembersWidth(env, s)
    ensures RemembersWidth(env, Send(env, s, tools, turn).0)
  {
    var t, n := Send(env, s, tools, turn).0, |s.requests|;
    assert t.requests[..n + 1] == t.requests;
    forall k | 0 <= k < n ensures ReplyTo(env, t, k) == ReplyTo(env, s, k) {
      assert t.requests[..k + 1] == s.requests[..k + 1];
    }
    if ReplyTo(env, t, n).promptTokens > 0 {
      assert LastReported(env, t, t.lastPromptTokens);
    } else if s.lastPromptTokens > 0 {
      var k :| 0 <= k < n && ReplyTo(env, s, k).promptTokens == s.lastPromptTokens
        && Unreported(env, s, k + 1);
      assert ReplyTo(env, t, k).promptTokens == t.lastPromptTokens;
    }
  }

  lemma PlayRemembers(env: Environment, s: Run, index: nat, turn: Turn)
    requires env.block > 0 && RemembersWidth(env, s)
    ensures RemembersWidth(env, Play(env, s, index, turn))
  {
    var t := Play(env, s, index, turn);
    if !turn.kind.DeepSleep? && !turn.kind.Unknown? {
      var o := Open(env, s, index, turn);
      var asked := s.(messages := s.messages + [UserMessage(UserText(env, s, index, turn))]);
      SameRequests(env, s, asked);
      SendRemembers(env, asked, turn.kind.ToolRound?, turn);
      if turn.kind.ToolRound? && GradeToolCall(env, o.reply.toolCalls, turn.kind.city).0.Some? {
        var called := WithResult(
          env, o, turn, GradeToolCall(env, o.reply.toolCalls, turn.kind.city).0.value);
        SameRequests(env, o.run, called);
        SendRemembers(env, called, true, turn);
        SameRequests(env, Send(env, called, true, turn).0, t);
      } else {
        SameRequests(env, o.run, t);
      }
    } else {
      SameRequests(env, s, t);
    }
  }

  lemma SameRequests(env: Environment, s: Run, t: Run)
    requires t.requests == s.requests && t.lastPromptTokens == s.lastPromptTokens
    ensures RemembersWidth(env, s) == RemembersWidth(env, t)
  {
    assert forall k :: 0 <= k < |s.requests| ==> ReplyTo(env, t, k) == ReplyTo(env, s, k);
    assert forall k: nat :: Unreported(env, t, k) == Unreported(env, s, k);
  }

  lemma {:induction false} WidthsAreRemembered(env: Environment, turns: seq<Turn>)
    requires env.block > 0
    ensures RemembersWidth(env, PlayAll(env, turns))
  {
    if turns != [] {
      var n := |turns| - 1;
      WidthsAreRemembered(env, turns[..n]);
      PlayRemembers(env, PlayAll(env, turns[..n]), |turns|, turns[n]);
    }
  }

  /** The words of a turn. */
  ghost predicate Asks(env: Environment, s: Run, index: nat, turn: Turn, text: string) {
    match turn.kind
    case Grow(_, _) => exists size: nat :: IsSize(env, s, size) && text == env.growText(index, size, turn)
    case ToolRound(city) => text == env.askText(index, city)
    case Probe(prompt, _) => text == prompt
    case _ => false
  }

  predicate Speaks(turn: Turn) {
    turn.kind.Grow? || turn.kind.Probe? || turn.kind.ToolRound?
  }

  ghost function Question(text: string): Message {
    Message(User, Some(text), [], None)
  }

  /** From `s` on the turn sent the history and its own words, and said them in the history. */
  ghost predicate Asked(env: Environment, s: Run, t: Run, index: nat, turn: Turn, text: string) {
    var n := |s.requests|;
    && Asks(env, s, index, turn, text)
    && n < |t.requests| && t.requests[..n] == s.requests
    && t.requests[n] == Request(s.messages + [Question(text)], turn.kind.ToolRound?, turn)
    && s.messages + [Question(text)] <= t.messages
  }

  /**
   In every run a turn sends the history so far and its own words, with the tool exactly if it
   is a tool turn; a growth turn is sized by the width that the server reported last.
   */
  lemma WhatATurnAsks(env: Environment, turns: seq<Turn>, i: nat) returns (text: string)
    requires env.block > 0 && i < |turns| && Speaks(turns[i])
    ensures Asked(env, PlayAll(env, turns[..i]), PlayAll(env, turns[..i + 1]), i + 1, turns[i], text)
  {
    var s, turn := PlayAll(env, turns[..i]), turns[i];
    PlayedUpTo(env, turns, i);
    WidthsAreRemembered(env, turns[..i]);
    text := UserText(env, s, i + 1, turn);
    if turn.kind.Grow? {
      var size := if s.lastPromptTokens > 0 then s.lastPromptTokens else |env.render(s.messages, false)|;
      assert IsSize(env, s, size);
    }
    FirstRequest(env, s, i + 1, turn);
  }

  lemma FirstRequest(env: Environment, s: Run, index: nat, turn: Turn)
    requires env.block > 0 && Speaks(turn)
    ensures var t, n := Play(env, s, index, turn), |s.requests|;
      var asked := s.messages + [UserMessage(UserText(env, s, index, turn))];
      && |t.requests| > n && t.requests[..n] == s.requests
      && t.requests[n] == Request(asked, turn.kind.ToolRound?, turn)
      && asked <= t.messages
  {
    var o, t := Open(env, s, index, turn), Play(env, s, index, turn);
    var n := |s.requests|;
    assert o.run.requests[..n] == s.requests;
    if !turn.kind.ToolRound? {
      assert t.requests == o.run.requests;
      assert t.messages == o.run.messages + [AssistantMessage(o.reply.content, [])];
    } else {
      ToolTurnGoesOn(env, s, index, turn);
      assert t.requests[..n] == o.run.requests[..n] && t.requests[n] == o.run.requests[n];
    }
  }

  lemma ToolTurnGoesOn(env: Environment, s: Run, index: nat, turn: Turn)
    requires env.block > 0 && turn.kind.ToolRound?
    ensures var o, t := Open(env, s, index, turn), Play(env, s, index, turn);
      o.run.requests <= t.requests && o.run.messages <= t.messages
  {
    var o := Open(env, s, index, turn);
    if GradeToolCall(env, o.reply.toolCalls, turn.kind.city).0.Some? {
      var called, reply := AcceptedWords(env, s, index, turn);
      assert o.run.messages <= called.messages;
    }
  }

  /** A tool turn whose call was right: the history with its result is sent, and answered. */
  lemma AcceptedWords(env: Environment, s: Run, index: nat, turn: Turn) returns (called: Run, reply: Reply)
    requires env.block > 0 && turn.kind.ToolRound?
    requires GradeToolCall(env, Open(env, s, index, turn).reply.toolCalls, turn.kind.city).0.Some?
    ensures var o, t := Open(env, s, index, turn), Play(env, s, index, turn);
      && called == WithResult(
           env, o, turn, GradeToolCall(env, o.reply.toolCalls, turn.kind.city).0.value)
      && t.requests == o.run.requests + [Request(called.messages, true, turn)]
      && reply == env.server(t.requests)
      && t.messages == called.messages + [AssistantMessage(reply.content, reply.toolCalls)]
  {
    var o := Open(env, s, index, turn);
    called := WithResult(env, o, turn, GradeToolCall(env, o.reply.toolCalls, turn.kind.city).0.value);
    reply := Send(env, called, true, turn).1;
  }

  // ---------------------------------------------------------------------------
  // What a turn reports
  // ---------------------------------------------------------------------------

  /** `part` stands in `s` at this place. */
  ghost predicate StandsAt(part: string, s: string, at: nat) {
    at + |part| <= |s| && s[at..at + |part|] == part
  }

  ghost predicate Occurs(part: string, s: string) {
    exists at: nat :: StandsAt(part, s, at)
  }

  lemma {:induction false} ContainsIffOccurs(s: string, part: string)
    ensures Contains(s, part) <==> Occurs(part, s)
  {
    if Contains(s, part) {
      var at := ContainedAt(s, part);
      assert StandsAt(part, s, at);
    }
    if Occurs(part, s) {
      var at: nat :| StandsAt(part, s, at);
      StandingIsContained(s, part, at);
    }
  }

  lemma {:induction false} StandingIsContained(s: string, part: string, at: nat)
    requires StandsAt(part, s, at)
    ensures Contains(s, part)
  {
    if at == 0 {
      assert part == s[..|part|] && part <= s;
    } else {
      assert s[1..][at - 1..at - 1 + |part|] == part;
      StandingIsContained(s[1..], part, at - 1);
    }
  }

  /** The text that the answer must contain. */
  ghost predicate Wants(env: Environment, index: nat, turn: Turn, wanted: string) {
    match turn.kind
    case Grow(_, _) => wanted == env.growAnswer(index)
    case Probe(_, expected) => wanted == expected
    case _ => false
  }

  ghost predicate OverBound(env: Environment, memory: Memory) {
    env.maxActiveMb.Some? && memory.activeMb.Some? && memory.activeMb.value > env.maxActiveMb.value
  }

  /** The server's own count of the prompt is off the growth turn's target. */
  ghost predicate OffTarget(turn: Turn, reply: Reply) {
    && turn.kind.Grow? && reply.promptTokens > 0
    && (reply.promptTokens < turn.kind.target - turn.kind.tolerance
        || reply.promptTokens > turn.kind.target + turn.kind.tolerance)
  }

  /** Of a string only white space. */
  ghost predicate Invisible(s: string) {
    forall k :: 0 <= k < |s| ==> IsSpace(s[k])
  }

  /**
   When a growth or probe turn has an error, in terms of the turn, the server's reply and the
   memory seen meanwhile.
   */
  ghost predicate TextTurnError(
    env: Environment, index: nat, turn: Turn, reply: Reply, memory: Memory, e: TurnError)
  {
    match e
    case SeveralEngines => !memory.singleEngine
    case Transport(text) => text in reply.errors
    case GrowthMissed => OffTarget(turn, reply)
    case NoVisibleContent => Invisible(reply.content)
    case MissingExpected =>
      exists wanted :: Wants(env, index, turn, wanted) && wanted != "" && !Occurs(wanted, reply.content)
    case MemoryExceeded => OverBound(env, memory)
    case _ => false
  }

  /** The one right call: its name, an id, and arguments that name the city. */
  ghost predicate RightCall(env: Environment, city: string, calls: seq<ToolCall>) {
    && |calls| == 1 && calls[0].name == "get_weather" && calls[0].id != ""
    && env.cityIn(calls[0].arguments).Some?
    && env.fold(env.cityIn(calls[0].arguments).value) == env.fold(city)
  }

  /** When a tool turn has an error; the second reply is there if the first call was right. */
  ghost predicate ToolTurnError(
    env: Environment, city: string, first: Reply, second: Option<Reply>, memory: Memory, e: TurnError)
  {
    var calls := first.toolCalls;
    match e
    case SeveralEngines => !memory.singleEngine
    case Transport(text) => text in first.errors || (second.Some? && text in second.value.errors)
    case CallCount => |calls| != 1
    case WrongTool => |calls| == 1 && calls[0].name != "get_weather"
    case NoCallId => |calls| == 1 && calls[0].id == ""
    case BadArguments => |calls| == 1 && env.cityIn(calls[0].arguments).None?
    case WrongCity =>
      |calls| == 1 && env.cityIn(calls[0].arguments).Some?
      && env.fold(env.cityIn(calls[0].arguments).value) != env.fold(city)
    case CalledToolsAgain => second.Some? && second.value.toolCalls != []
    case MissingToolResult =>
      second.Some? && second.value.toolCalls == [] && !Occurs("21", second.value.content)
    case MemoryExceeded => OverBound(env, memory)
    case _ => false
  }

  lemma InParts<T>(e: T, a: seq<T>, b: seq<T>, c: seq<T>)
    ensures e in a + b + c <==> e in a || e in b || e in c
  {
  }

  lemma TransportMembers(texts: seq<string>, e: TurnError)
    ensures e in Transports(texts) <==> e.Transport? && e.text in texts
  {
    if e.Transport? && e.text in texts {
      var k :| 0 <= k < |texts| && texts[k] == e.text;
      assert Transports(texts)[k] == e;
    }
  }

  /** What was found before the call was looked at. */
  ghost predicate OpeningError(turn: Turn, reply: Reply, memory: Memory, e: TurnError) {
    || (e == SeveralEngines && !memory.singleEngine)
    || (e.Transport? && e.text in reply.errors)
    || (e == GrowthMissed && OffTarget(turn, reply))
  }

  lemma OpeningErrors(env: Environment, s: Run, index: nat, turn: Turn, e: TurnError)
    requires env.block > 0
    ensures var o := Open(env, s, index, turn);
      e in o.errors <==> OpeningError(turn, o.reply, env.memory(|s.requests| + 1), e)
  {
    var o := Open(env, s, index, turn);
    TransportMembers(o.reply.errors, e);
    InParts(
      e, if env.memory(|s.requests| + 1).singleEngine then [] else [SeveralEngines],
      Transports(o.reply.errors), if OffTarget(turn, o.reply) then [GrowthMissed] else []);
  }

  lemma TextErrors(env: Environment, o: Opened, index: nat, turn: Turn, e: TurnError)
    requires turn.kind.Grow? || turn.kind.Probe?
    ensures e in CloseText(env, o, index, turn).errors <==>
      || e in o.errors || (e == NoVisibleContent && Invisible(o.reply.content))
      || (e == MissingExpected && exists wanted ::
            Wants(env, index, turn, wanted) && wanted != "" && !Occurs(wanted, o.reply.content))
  {
    var content, wanted := o.reply.content, Expected(env, index, turn);
    ContainsIffOccurs(content, wanted);
    assert Wants(env, index, turn, wanted);
    InParts(
      e, o.errors, if Blank(content) then [NoVisibleContent] else [],
      if wanted != "" && !Contains(content, wanted) then [MissingExpected] else []);
  }

  lemma RecordErrors(env: Environment, o: Opened, c: Closed, index: nat, turn: Turn, e: TurnError)
    ensures e in TurnRecord(env, o, c, index, turn).errors <==>
      e in c.errors || (e == MemoryExceeded && OverBound(env, env.memory(|o.run.requests|)))
  {
    var (blocking, _) := CacheGrade(env, o.reply.cachedTokens, o.predicted, turn.kind.ToolRound?);
    CacheGradeIgnoresTheObservation(env, o.predicted, turn.kind.ToolRound?, o.reply.cachedTokens, 0);
    assert CacheErrors(blocking) == [];
    InParts(
      e, c.errors, [],
      if OverBound(env, env.memory(|o.run.requests|)) then [MemoryExceeded] else []);
  }

  /** From the third turn on reuse is watched where the turn asks for it. */
  ghost predicate Watches(index: nat, turn: Turn) {
    index >= 3 && turn.expectReuse
  }

  /** Every watched request leaves a note that its render was not confirmed. */
  ghost function Notes(count: nat): seq<Finding> {
    seq(count, _ => Unverified)
  }

  lemma RecordNotes(env: Environment, o: Opened, c: Closed, index: nat, turn: Turn, earlier: nat)
    requires c.cacheNotes == Notes(earlier)
    ensures TurnRecord(env, o, c, index, turn).cacheNotes
      == Notes(if Watches(index, turn) then earlier + 1 else earlier)
  {
    UnconfirmedIsNoted(env, o.reply.cachedTokens, o.predicted, turn.kind.ToolRound?);
  }

  lemma UnconfirmedIsNoted(env: Environment, observed: nat, predicted: Match, tools: bool)
    ensures CacheGrade(env, observed, predicted, tools).1 == Notes(1)
  {
    var items := GradeCacheMatch(observed, predicted, ApproximateUnverified, env.hybrid);
    assert items == [Unverified] && Select(items[1..], true) == [];
  }

  /** A growth or probe turn: one request, its reply committed as the answer, its record. */
  ghost predicate TextTurn(env: Environment, s: Run, t: Run, index: nat, turn: Turn, r: Record) {
    var n := |s.requests|;
    && |t.requests| == n + 1
    && (var reply := ReplyTo(env, t, n);
        && t.messages == t.requests[n].messages + [AnswerOf(reply.content, [])]
        && r.promptTokens == reply.promptTokens && r.cachedTokens == reply.cachedTokens
        && !r.rejectedRound && r.cacheNotes == Notes(if Watches(index, turn) then 1 else 0)
        && forall e :: e in r.errors <==> TextTurnError(env, index, turn, reply, env.memory(n + 1), e))
  }

  /** An assistant message; an empty text is null. */
  ghost function AnswerOf(content: string, calls: seq<ToolCall>): Message {
    Message(Assistant, if content == "" then None else Some(content), calls, None)
  }

  lemma PlayedText(env: Environment, s: Run, index: nat, turn: Turn)
    requires env.block > 0 && (turn.kind.Grow? || turn.kind.Probe?)
    ensures var t := Play(env, s, index, turn);
      |t.records| == |s.records| + 1 && TextTurn(env, s, t, index, turn, t.records[|s.records|])
  {
    var o, t := Open(env, s, index, turn), Play(env, s, index, turn);
    var n, r := |s.requests|, t.records[|s.records|];
    assert t.requests[..n + 1] == t.requests;
    assert ReplyTo(env, t, n) == o.reply;
    RecordNotes(env, o, CloseText(env, o, index, turn), index, turn, 0);
    forall e
      ensures e in r.errors <==> TextTurnError(env, index, turn, o.reply, env.memory(n + 1), e)
    {
      OpeningErrors(env, s, index, turn, e);
      TextErrors(env, o, index, turn, e);
      RecordErrors(env, o, CloseText(env, o, index, turn), index, turn, e);
    }
  }

  /**
   In every run a growth or probe turn leaves its question and the reply's text in the history,
   and its record holds exactly the errors that the reply and the memory give rise to.
   */
  lemma TextTurnsReport(env: Environment, turns: seq<Turn>, i: nat)
    requires env.block > 0 && i < |turns| && (turns[i].kind.Grow? || turns[i].kind.Probe?)
    ensures |PlayAll(env, turns).records| == |turns|
    ensures TextTurn(env, PlayAll(env, turns[..i]), PlayAll(env, turns[..i + 1]), i + 1, turns[i],
                     PlayAll(env, turns).records[i])
  {
    PlayedUpTo(env, turns, i);
    RecordOfTurn(env, turns, i);
    PlayedText(env, PlayAll(env, turns[..i]), i + 1, turns[i]);
  }

  lemma GradingErrors(env: Environment, calls: seq<ToolCall>, city: string, e: TurnError)
    ensures GradeToolCall(env, calls, city).0.Some? <==> RightCall(env, city, calls)
    ensures e in GradeToolCall(env, calls, city).1 <==>
      || (e == CallCount && |calls| != 1)
      || (e == WrongTool && |calls| == 1 && calls[0].name != "get_weather")
      || (e == NoCallId && |calls| == 1 && calls[0].id == "")
      || (e == BadArguments && |calls| == 1 && env.cityIn(calls[0].arguments).None?)
      || (e == WrongCity && |calls| == 1 && env.cityIn(calls[0].arguments).Some?
          && env.fold(env.cityIn(calls[0].arguments).value) != env.fold(city))
  {
    GradingAcceptsExactlyTheRightCall(env, calls, city);
    if |calls| == 1 {
      var named := env.cityIn(calls[0].arguments);
      InParts(
        e, if calls[0].name != "get_weather" then [WrongTool] else [],
        if calls[0].id == "" then [NoCallId] else [],
        if named.None? then [BadArguments]
        else if env.fold(named.value) != env.fold(city) then [WrongCity] else []);
    }
  }

  lemma AnswerErrors(reply: Reply, e: TurnError)
    ensures
      var answer :=
        if reply.toolCalls != [] then [CalledToolsAgain]
        else if !Contains(reply.content, "21") then [MissingToolResult] else [];
      e in answer <==>
        || (e == CalledToolsAgain && reply.toolCalls != [])
        || (e == MissingToolResult && reply.toolCalls == [] && !Occurs("21", reply.content))
  {
    ContainsIffOccurs(reply.content, "21");
  }

  lemma ToolErrors(
    env: Environment, o: Opened, index: nat, turn: Turn, second: Option<Reply>, memory: Memory, e: TurnError)
    requires env.block > 0 && turn.kind.ToolRound?
    requires e in o.errors <==> OpeningError(turn, o.reply, memory, e)
    requires second.Some? <==> RightCall(env, turn.kind.city, o.reply.toolCalls)
    requires second.Some? ==>
      && GradeToolCall(env, o.reply.toolCalls, turn.kind.city).0.Some?
      && var called := WithResult(
           env, o, turn, GradeToolCall(env, o.reply.toolCalls, turn.kind.city).0.value);
         second.value == env.server(called.requests + [Request(called.messages, true, turn)])
    ensures e in CloseToolRound(env, o, index, turn).errors <==>
      ToolTurnError(env, turn.kind.city, o.reply, second, memory, e) && e != MemoryExceeded
  {
    var calls, city := o.reply.toolCalls, turn.kind.city;
    GradingErrors(env, calls, city, e);
    if second.Some? {
      var called := WithResult(env, o, turn, GradeToolCall(env, calls, city).0.value);
      AcceptedErrors(env, o, index, turn, called, second.value, e);
    }
  }

  lemma AcceptedErrors(
    env: Environment, o: Opened, index: nat, turn: Turn, called: Run, reply: Reply, e: TurnError)
    requires env.block > 0 && turn.kind.ToolRound?
    requires GradeToolCall(env, o.reply.toolCalls, turn.kind.city).0.Some?
    requires called == WithResult(
      env, o, turn, GradeToolCall(env, o.reply.toolCalls, turn.kind.city).0.value)
    requires reply == env.server(called.requests + [Request(called.messages, true, turn)])
    ensures e in CloseToolRound(env, o, index, turn).errors <==>
      || e in o.errors || (e.Transport? && e.text in reply.errors)
      || (e == CalledToolsAgain && reply.toolCalls != [])
      || (e == MissingToolResult && reply.toolCalls == [] && !Occurs("21", reply.content))
  {
    GradingAcceptsExactlyTheRightCall(env, o.reply.toolCalls, turn.kind.city);
    var predicted := ContinuationMatch(env, called);
    CacheGradeIgnoresTheObservation(env, predicted, true, reply.cachedTokens, 0);
    assert CacheErrors(CacheGrade(env, reply.cachedTokens, predicted, true).0) == [];
    TransportMembers(reply.errors, e);
    AnswerErrors(reply, e);
    var answer: seq<TurnError> :=
      if reply.toolCalls != [] then [CalledToolsAgain]
      else if !Contains(reply.content, "21") then [MissingToolResult] else [];
    InParts(e, o.errors + [], Transports(reply.errors), answer);
    NothingAdded(o.errors + [] + Transports(reply.errors) + answer);
  }

  /** A tool turn: the first reply's call, and if it is right its result, and what is said of it. */
  ghost predicate ToolTurn(env: Environment, s: Run, t: Run, index: nat, turn: Turn, r: Record)
    requires turn.kind.ToolRound? && |s.requests| < |t.requests|
  {
    var n, city := |s.requests|, turn.kind.city;
    var first, asked := ReplyTo(env, t, n), t.requests[n].messages;
    var right := RightCall(env, city, first.toolCalls);
    && |t.requests| == n + (if right then 2 else 1)
    && r.rejectedRound == !right
    && r.promptTokens == first.promptTokens && r.cachedTokens == first.cachedTokens
    && r.cacheNotes == Notes(if !Watches(index, turn) then 0 else if right then 2 else 1)
    && (!right ==> t.messages == asked)
    && (right ==>
          var second, result := ReplyTo(env, t, n + 1), t.requests[n + 1];
          && result.messages == asked
               + [AnswerOf(first.content, first.toolCalls),
                  Message(Tool, Some(env.toolOutput(city)), [], Some(first.toolCalls[0].id))]
          && result.tools && result.turn == turn
          && t.messages == result.messages + [AnswerOf(second.content, second.toolCalls)])
    && forall e :: e in r.errors <==>
         ToolTurnError(
           env, city, first, if right then Some(ReplyTo(env, t, n + 1)) else None, env.memory(n + 1), e)
  }

  lemma ContinuationNotes(env: Environment, o: Opened, index: nat, turn: Turn)
    requires env.block > 0 && turn.kind.ToolRound?
    ensures CloseToolRound(env, o, index, turn).cacheNotes
      == Notes(if Watches(index, turn) && RightCall(env, turn.kind.city, o.reply.toolCalls) then 1 else 0)
  {
    GradingAcceptsExactlyTheRightCall(env, o.reply.toolCalls, turn.kind.city);
    if RightCall(env, turn.kind.city, o.reply.toolCalls) {
      var called := WithResult(
        env, o, turn, GradeToolCall(env, o.reply.toolCalls, turn.kind.city).0.value);
      var reply := Send(env, called, true, turn).1;
      UnconfirmedIsNoted(env, reply.cachedTokens, ContinuationMatch(env, called), true);
    }
  }

  lemma ToolRecordErrors(
    env: Environment, s: Run, index: nat, turn: Turn, second: Option<Reply>, requests: seq<Request>)
    requires env.block > 0 && turn.kind.ToolRound?
    requires requests == Play(env, s, index, turn).requests
    requires second == if RightCall(env, turn.kind.city, Open(env, s, index, turn).reply.toolCalls)
      then Some(env.server(requests)) else None
    ensures var o, memory := Open(env, s, index, turn), env.memory(|s.requests| + 1);
      var r := TurnRecord(env, o, CloseToolRound(env, o, index, turn), index, turn);
      forall e :: e in r.errors <==> ToolTurnError(env, turn.kind.city, o.reply, second, memory, e)
  {
    var o, memory := Open(env, s, index, turn), env.memory(|s.requests| + 1);
    var c := CloseToolRound(env, o, index, turn);
    GradingAcceptsExactlyTheRightCall(env, o.reply.toolCalls, turn.kind.city);
    if second.Some? {
      var called, reply := AcceptedWords(env, s, index, turn);
    }
    forall e
      ensures e in TurnRecord(env, o, c, index, turn).errors <==>
        ToolTurnError(env, turn.kind.city, o.reply, second, memory, e)
    {
      OpeningErrors(env, s, index, turn, e);
      ToolErrors(env, o, index, turn, second, memory, e);
      RecordErrors(env, o, c, index, turn, e);
    }
  }

  lemma PlayedTool(env: Environment, s: Run, index: nat, turn: Turn)
    requires env.block > 0 && turn.kind.ToolRound?
    ensures var t := Play(env, s, index, turn);
      && |t.records| == |s.records| + 1 && |s.requests| < |t.requests|
      && ToolTurn(env, s, t, index, turn, t.records[|s.records|])
  {
    var o, t := Open(env, s, index, turn), Play(env, s, index, turn);
    var c, right := CloseToolRound(env, o, index, turn), RightCall(env, turn.kind.city, o.reply.toolCalls);
    assert t.records == s.records + [TurnRecord(env, o, c, index, turn)];
    PlayedToolTalk(env, s, index, turn);
    ContinuationNotes(env, o, index, turn);
    RecordNotes(env, o, c, index, turn, if Watches(index, turn) && right then 1 else 0);
    ToolRecordErrors(
      env, s, index, turn, if right then Some(env.server(t.requests)) else None, t.requests);
    assert t.requests[..|t.requests|] == t.requests;
  }

  lemma PlayedToolTalk(env: Environment, s: Run, index: nat, turn: Turn)
    requires env.block > 0 && turn.kind.ToolRound?
    ensures var o, t, n := Open(env, s, index, turn), Play(env, s, index, turn), |s.requests|;
      var right := RightCall(env, turn.kind.city, o.reply.toolCalls);
      && |t.records| == |s.records| + 1
      && |t.requests| == n + (if right then 2 else 1)
      && ReplyTo(env, t, n) == o.reply
      && t.records[|s.records|].rejectedRound == !right
      && (!right ==> t.messages == t.requests[n].messages)
      && (right ==>
            && t.requests[n + 1] == Request(
                 t.requests[n].messages
                   + [AnswerOf(o.reply.content, o.reply.toolCalls),
                      Message(Tool, Some(env.toolOutput(turn.kind.city)), [], Some(o.reply.toolCalls[0].id))],
                 true, turn)
            && t.messages == t.requests[n + 1].messages
                 + [AnswerOf(env.server(t.requests).content, env.server(t.requests).toolCalls)])
  {
    var o, t, n := Open(env, s, index, turn), Play(env, s, index, turn), |s.requests|;
    GradingAcceptsExactlyTheRightCall(env, o.reply.toolCalls, turn.kind.city);
    if RightCall(env, turn.kind.city, o.reply.toolCalls) {
      var called, reply := AcceptedWords(env, s, index, turn);
      assert t.requests[..n + 1] == o.run.requests;
      var call, result := AnswerOf(o.reply.content, o.reply.toolCalls),
        Message(Tool, Some(env.toolOutput(turn.kind.city)), [], Some(o.reply.toolCalls[0].id));
      assert called.messages == o.run.messages + [call] + [result];
      Regroup(o.run.messages, [call], [result]);
    } else {
      assert t.requests[..n + 1] == o.run.requests;
    }
  }

  /**
   In every run a tool turn accepts exactly the right call, answers it with its own id and asks
   again with the tool; its record holds exactly the errors of both replies and the memory.
   */
  lemma ToolTurnsReport(env: Environment, turns: seq<Turn>, i: nat)
    requires env.block > 0 && i < |turns| && turns[i].kind.ToolRound?
    ensures |PlayAll(env, turns).records| == |turns|
    ensures |PlayAll(env, turns[..i]).requests| < |PlayAll(env, turns[..i + 1]).requests|
    ensures ToolTurn(env, PlayAll(env, turns[..i]), PlayAll(env, turns[..i + 1]), i + 1, turns[i],
                     PlayAll(env, turns).records[i])
  {
    PlayedUpTo(env, turns, i);
    RecordOfTurn(env, turns, i);
    PlayedTool(env, PlayAll(env, turns[..i]), i + 1, turns[i]);
  }

  /** A turn that puts the server to sleep, and one of unknown kind, say nothing. */
  lemma QuietTurnsReport(env: Environment, turns: seq<Turn>, i: nat)
    requires env.block > 0 && i < |turns| && !Speaks(turns[i])
    ensures |PlayAll(env, turns).records| == |turns|
    ensures var s, t, r :=
        PlayAll(env, turns[..i]), PlayAll(env, turns[..i + 1]), PlayAll(env, turns).records[i];
      && t.messages == s.messages && t.requests == s.requests && t.renders == s.renders
      && !r.rejectedRound && r.cacheNotes == [] && r.promptTokens == r.cachedTokens == 0
      && (turns[i].kind.Unknown? ==> r.errors == [])
      && (turns[i].kind.DeepSleep? ==>
            && |r.errors| == |env.sleep(i + 1)|
            && forall k :: 0 <= k < |r.errors| ==> r.errors[k] == SleepFailed(env.sleep(i + 1)[k]))
  {
    PlayedUpTo(env, turns, i);
    RecordOfTurn(env, turns, i);
  }

  // ---------------------------------------------------------------------------
  // What a passing run means
  // ---------------------------------------------------------------------------

  /** The server and its memory were as they should be during a turn. */
  ghost predicate Healthy(env: Environment, reply: Reply, memory: Memory) {
    memory.singleEngine && reply.errors == [] && !OverBound(env, memory)
  }

  /** The turn got what it was for. */
  ghost predicate Satisfied(env: Environment, s: Run, t: Run, index: nat, turn: Turn) {
    var n := |s.requests|;
    match turn.kind
    case DeepSleep => env.sleep(index) == []
    case Unknown => false
    case Grow(_, _) => n < |t.requests| && AnsweredRightly(env, ReplyTo(env, t, n), index, turn, n)
    case Probe(_, _) => n < |t.requests| && AnsweredRightly(env, ReplyTo(env, t, n), index, turn, n)
    case ToolRound(city) =>
      && |t.requests| == n + 2
      && Healthy(env, ReplyTo(env, t, n), env.memory(n + 1))
      && RightCall(env, city, ReplyTo(env, t, n).toolCalls)
      && ReplyTo(env, t, n + 1).errors == [] && ReplyTo(env, t, n + 1).toolCalls == []
      && Occurs("21", ReplyTo(env, t, n + 1).content)
  }

  /** A visible answer with the wanted text in it, and a growth turn that hit its target. */
  ghost predicate AnsweredRightly(env: Environment, reply: Reply, index: nat, turn: Turn, n: nat) {
    && Healthy(env, reply, env.memory(n + 1)) && !Invisible(reply.content) && !OffTarget(turn, reply)
    && forall wanted :: Wants(env, index, turn, wanted) ==> Occurs(wanted, reply.content)
  }

  lemma EmptyIffNoMember<T>(s: seq<T>)
    ensures s == [] <==> forall x :: x !in s
  {
    NonEmptyHasMember(s);
  }

  lemma EverythingOccursIfEmpty(s: string)
    ensures Occurs("", s)
  {
    assert StandsAt("", s, 0);
  }

  lemma TextTurnSatisfied(env: Environment, s: Run, t: Run, index: nat, turn: Turn, r: Record)
    requires (turn.kind.Grow? || turn.kind.Probe?) && TextTurn(env, s, t, index, turn, r)
    ensures r.errors == [] <==> Satisfied(env, s, t, index, turn)
  {
    var n := |s.requests|;
    var reply, memory := ReplyTo(env, t, n), env.memory(n + 1);
    EmptyIffNoMember(r.errors);
    EmptyIffNoMember(reply.errors);
    EverythingOccursIfEmpty(reply.content);
    if r.errors == [] {
      forall e ensures !TextTurnError(env, index, turn, reply, memory, e) {
        assert e !in r.errors;
      }
      forall text ensures text !in reply.errors {
        assert !TextTurnError(env, index, turn, reply, memory, Transport(text));
      }
      assert !TextTurnError(env, index, turn, reply, memory, SeveralEngines);
      assert !TextTurnError(env, index, turn, reply, memory, GrowthMissed);
      assert !TextTurnError(env, index, turn, reply, memory, NoVisibleContent);
      assert !TextTurnError(env, index, turn, reply, memory, MissingExpected);
      assert !TextTurnError(env, index, turn, reply, memory, MemoryExceeded);
    }
  }

  lemma ToolTurnSatisfied(env: Environment, s: Run, t: Run, index: nat, turn: Turn, r: Record)
    requires turn.kind.ToolRound? && |s.requests| < |t.requests| && ToolTurn(env, s, t, index, turn, r)
    ensures r.errors == [] <==> Satisfied(env, s, t, index, turn)
  {
    var n, city := |s.requests|, turn.kind.city;
    var first, memory := ReplyTo(env, t, n), env.memory(n + 1);
    var right := RightCall(env, city, first.toolCalls);
    EmptyIffNoMember(r.errors);
    if right {
      var second := ReplyTo(env, t, n + 1);
      NoToolErrors(env, city, first, second, memory);
      assert forall e :: e in r.errors <==> ToolTurnError(env, city, first, Some(second), memory, e);
    } else {
      assert ToolTurnError(env, city, first, None, memory, WrongError(env, city, first.toolCalls));
      assert WrongError(env, city, first.toolCalls) in r.errors;
    }
  }

  /** What is wrong with a call that is not the right one. */
  ghost function WrongError(env: Environment, city: string, calls: seq<ToolCall>): TurnError {
    if |calls| != 1 then CallCount else if calls[0].name != "get_weather" then WrongTool
    else if calls[0].id == "" then NoCallId
    else if env.cityIn(calls[0].arguments).None? then BadArguments else WrongCity
  }

  lemma NoToolErrors(env: Environment, city: string, first: Reply, second: Reply, memory: Memory)
    requires RightCall(env, city, first.toolCalls)
    ensures (forall e :: !ToolTurnError(env, city, first, Some(second), memory, e)) <==>
      && Healthy(env, first, memory) && second.errors == [] && second.toolCalls == []
      && Occurs("21", second.content)
  {
    var last := Some(second);
    EmptyIffNoMember(first.errors);
    EmptyIffNoMember(second.errors);
    if forall e :: !ToolTurnError(env, city, first, last, memory, e) {
      forall text ensures text !in first.errors && text !in second.errors {
        assert !ToolTurnError(env, city, first, last, memory, Transport(text));
      }
      assert !ToolTurnError(env, city, first, last, memory, SeveralEngines);
      assert !ToolTurnError(env, city, first, last, memory, MemoryExceeded);
      assert !ToolTurnError(env, city, first, last, memory, CalledToolsAgain);
      assert !ToolTurnError(env, city, first, last, memory, MissingToolResult);
    }
  }

  ghost predicate SatisfiedAt(env: Environment, turns: seq<Turn>, i: nat)
    requires env.block > 0 && i < |turns|
  {
    Satisfied(env, PlayAll(env, turns[..i]), PlayAll(env, turns[..i + 1]), i + 1, turns[i])
  }

  lemma TurnIsSatisfied(env: Environment, turns: seq<Turn>, i: nat)
    requires env.block > 0 && i < |turns|
    ensures |PlayAll(env, turns).records| == |turns|
    ensures PlayAll(env, turns).records[i].errors == [] && !turns[i].kind.Unknown?
      <==> SatisfiedAt(env, turns, i)
  {
    var s, t := PlayAll(env, turns[..i]), PlayAll(env, turns[..i + 1]);
    match turns[i].kind
    case DeepSleep => QuietTurnsReport(env, turns, i);
    case Unknown => QuietTurnsReport(env, turns, i);
    case ToolRound(_) =>
      ToolTurnsReport(env, turns, i);
      ToolTurnSatisfied(env, s, t, i + 1, turns[i], PlayAll(env, turns).records[i]);
    case _ =>
      TextTurnsReport(env, turns, i);
      TextTurnSatisfied(env, s, t, i + 1, turns[i], PlayAll(env, turns).records[i]);
  }

  /** A run passes exactly when every turn got what it was for. */
  lemma PassesIffEveryTurnIsSatisfied(env: Environment, turns: seq<Turn>)
    requires env.block > 0
    ensures PlayAll(env, turns).errors == [] <==>
      forall i :: 0 <= i < |turns| ==> SatisfiedAt(env, turns, i)
  {
    PassesIffNoRecordFails(env, turns);
    forall i | 0 <= i < |turns|
      ensures PlayAll(env, turns).records[i].errors == [] && !turns[i].kind.Unknown?
        <==> SatisfiedAt(env, turns, i)
    {
      TurnIsSatisfied(env, turns, i);
    }
  }
}
