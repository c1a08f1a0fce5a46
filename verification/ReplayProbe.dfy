/**
 The parser-boundary probe: a cold arm talks to the server, a warm arm repeats the
 conversation with the cold arm's answers in its history, and a verdict compares the two.
 Either server may answer anything, depending on everything it was sent so far.
 */
module ReplayProbe {
  import opened Common

  datatype Message =
    | User(content: string)
    | Assistant(content: string, reasoning: Option<string>)

  datatype Turn = Turn(
    key: string, user: string, tools: seq<string>, effort: string, preservePriorReasoning: bool)

  datatype Payload = Payload(messages: seq<Message>, tools: Option<seq<string>>, effort: Option<string>)

  datatype Response = Response(
    code: int, content: string, reasoning: string, cachedTokens: nat, promptTokens: nat)

  type Server = seq<Payload> -> Response

  datatype Record = Record(key: string, response: Response)

  function ChatPayload(messages: seq<Message>, turn: Turn): Payload {
    Payload(
      messages,
      if turn.tools == [] then None else Some(turn.tools),
      if turn.effort == "" then None else Some(turn.effort))
  }

  /** The history entry for an answer; the next turn decides whether its reasoning is kept. */
  function AssistantEntry(script: seq<Turn>, i: nat, source: Response): Message
    requires i < |script|
  {
    Assistant(
      source.content,
      if i + 1 < |script| && script[i + 1].preservePriorReasoning && source.reasoning != ""
      then Some(source.reasoning) else None)
  }

  method RunConversation(script: seq<Turn>, server: Server, replay: Option<seq<Record>>)
    returns (records: seq<Record>, payloads: seq<Payload>)
    ensures IsRun(script, server, replay, records, payloads)
  {
    records, payloads := [], [];
    var history: seq<Message> := [];
    for index := 0 to |script|
      invariant |records| == index
      invariant RunSoFar(script, server, replay, records, payloads)
      invariant forall i :: 0 <= i < index ==> records[i].response.code == 200
      invariant history == History(script, Sources(replay, records), index)
    {
      var turn := script[index];
      var messages := history + [User(turn.user)];
      var payload := ChatPayload(messages, turn);
      var response := server(payloads + [payload]);
      OneMoreTurn(script, server, replay, records, payloads, payload, Record(turn.key, response));
      records, payloads := records + [Record(turn.key, response)], payloads + [payload];
      if response.code != 200 {
        break;
      }
      history := messages + [AssistantEntry(script, index, Source(replay, index, response))];
    }
  }

  // ---------------------------------------------------------------------------
  // What a run is
  // ---------------------------------------------------------------------------

  /** The answers that enter the history: the replayed ones as far as they go. */
  function Sources(replay: Option<seq<Record>>, records: seq<Record>): seq<Response> {
    seq(|records|, i requires 0 <= i < |records| => Source(replay, i, records[i].response))
  }

  /** The messages before the `i`-th user message: user and assistant by turns. */
  function History(script: seq<Turn>, answers: seq<Response>, i: nat): (h: seq<Message>)
    requires i <= |answers| && i <= |script|
    ensures |h| == 2 * i
  {
    seq(2 * i, k requires 0 <= k < 2 * i =>
      if k % 2 == 0 then User(script[k / 2].user)
      else AssistantEntry(script, k / 2, answers[k / 2]))
  }

  lemma HistoryGrows(script: seq<Turn>, answers: seq<Response>, i: nat)
    requires i < |answers| && i < |script|
    ensures History(script, answers, i + 1)
      == History(script, answers, i) + [User(script[i].user)] + [AssistantEntry(script, i, answers[i])]
  {
  }

  /** The messages of the `i`-th request. */
  function Prompt(script: seq<Turn>, answers: seq<Response>, i: nat): seq<Message>
    requires i <= |answers| && i < |script|
  {
    History(script, answers, i) + [User(script[i].user)]
  }

  /** The answer to the `i`-th request, given everything sent until then. */
  function Answer(server: Server, payloads: seq<Payload>, i: nat): Response
    requires i < |payloads|
  {
    server(payloads[..i + 1])
  }

  /** The records answer the payloads. */
  ghost predicate Answered(
    script: seq<Turn>, server: Server, records: seq<Record>, payloads: seq<Payload>)
    requires |records| == |payloads| <= |script|
  {
    forall i :: 0 <= i < |records| ==>
      records[i] == Record(script[i].key, Answer(server, payloads, i))
  }

  /** Each payload carries the history that the answers before it make. */
  ghost predicate Prompted(script: seq<Turn>, answers: seq<Response>, payloads: seq<Payload>)
    requires |answers| == |payloads| <= |script|
  {
    forall i :: 0 <= i < |payloads| ==>
      payloads[i] == ChatPayload(Prompt(script, answers, i), script[i])
  }

  ghost predicate RunSoFar(
    script: seq<Turn>, server: Server, replay: Option<seq<Record>>, records: seq<Record>,
    payloads: seq<Payload>)
  {
    && |records| == |payloads| <= |script|
    && Answered(script, server, records, payloads)
    && Prompted(script, Sources(replay, records), payloads)
  }

  lemma OneMoreAnswer(
    script: seq<Turn>, server: Server, records: seq<Record>, payloads: seq<Payload>, payload: Payload)
    requires |records| == |payloads| < |script| && Answered(script, server, records, payloads)
    ensures Answered(
      script, server, records + [Record(script[|records|].key, server(payloads + [payload]))],
      payloads + [payload])
  {
    var n, more := |records|, payloads + [payload];
    assert more[..n + 1] == more;
    forall i | 0 <= i < n ensures Answer(server, more, i) == Answer(server, payloads, i) {
      assert more[..i + 1] == payloads[..i + 1];
    }
  }

  lemma OneMorePrompt(
    script: seq<Turn>, answers: seq<Response>, answer: Response, payloads: seq<Payload>, payload: Payload)
    requires |answers| == |payloads| < |script| && Prompted(script, answers, payloads)
    requires payload == ChatPayload(Prompt(script, answers, |answers|), script[|answers|])
    ensures Prompted(script, answers + [answer], payloads + [payload])
    ensures History(script, answers + [answer], |answers|) == History(script, answers, |answers|)
  {
    forall i | 0 <= i <= |answers|
      ensures History(script, answers + [answer], i) == History(script, answers, i)
    {
      HistoryDependsOnEarlierAnswers(script, answers + [answer], answers, i);
    }
  }

  function Source(replay: Option<seq<Record>>, i: nat, own: Response): Response {
    if replay.Some? && i < |replay.value| then replay.value[i].response else own
  }

  lemma OneMoreTurn(
    script: seq<Turn>, server: Server, replay: Option<seq<Record>>, records: seq<Record>,
    payloads: seq<Payload>, payload: Payload, record: Record)
    requires RunSoFar(script, server, replay, records, payloads) && |records| < |script|
    requires payload
      == ChatPayload(Prompt(script, Sources(replay, records), |records|), script[|records|])
    requires record == Record(script[|records|].key, server(payloads + [payload]))
    ensures RunSoFar(script, server, replay, records + [record], payloads + [payload])
    ensures History(script, Sources(replay, records + [record]), |records| + 1)
      == Prompt(script, Sources(replay, records), |records|)
         + [AssistantEntry(script, |records|, Source(replay, |records|, record.response))]
  {
    var n, answers := |records|, Sources(replay, records);
    var answer := Source(replay, n, record.response);
    assert Sources(replay, records + [record]) == answers + [answer];
    OneMoreAnswer(script, server, records, payloads, payload);
    OneMorePrompt(script, answers, answer, payloads, payload);
    HistoryGrows(script, answers + [answer], n);
  }

  /** A run goes on exactly as long as the server answers with 200. */
  ghost predicate IsRun(
    script: seq<Turn>, server: Server, replay: Option<seq<Record>>, records: seq<Record>,
    payloads: seq<Payload>)
  {
    && RunSoFar(script, server, replay, records, payloads)
    && (forall i :: 0 <= i < |records| - 1 ==> records[i].response.code == 200)
    && (|records| < |script| ==>
          records != [] && records[|records| - 1].response.code != 200)
  }

  lemma HistoryDependsOnEarlierAnswers(
    script: seq<Turn>, a: seq<Response>, b: seq<Response>, i: nat)
    requires i <= |script| && i <= |a| && i <= |b|
    requires forall j :: 0 <= j < i ==> a[j] == b[j]
    ensures History(script, a, i) == History(script, b, i)
  {
  }

  /** The answer that enters the history after a turn. */
  ghost predicate Entered(replay: Option<seq<Record>>, records: seq<Record>, i: nat, answer: Response) {
    if replay.Some? && i < |replay.value| then answer == replay.value[i].response
    else i < |records| && answer == records[i].response
  }

  /** An answer in the history, with its reasoning if the next turn keeps it. */
  ghost predicate IsEntry(script: seq<Turn>, i: nat, message: Message, answer: Response)
    requires i + 1 < |script|
  {
    && message.Assistant? && message.content == answer.content
    && (message.reasoning.Some? <==> script[i + 1].preservePriorReasoning && answer.reasoning != "")
    && (message.reasoning.Some? ==> message.reasoning.value == answer.reasoning)
  }

  /**
   What a run asks at each turn: the user's words, after every earlier turn's words and answer;
   tools and effort are sent exactly if the turn names some.
   */
  lemma WhatATurnAsks(
    script: seq<Turn>, server: Server, replay: Option<seq<Record>>, records: seq<Record>,
    payloads: seq<Payload>, i: nat)
    requires IsRun(script, server, replay, records, payloads) && i < |payloads|
    ensures |payloads| == |records| <= |script|
    ensures records[i].key == script[i].key && records[i].response == server(payloads[..i + 1])
    ensures var sent, turn := payloads[i], script[i];
      && (sent.tools.Some? <==> turn.tools != []) && (sent.tools.Some? ==> sent.tools.value == turn.tools)
      && (sent.effort.Some? <==> turn.effort != "")
      && (sent.effort.Some? ==> sent.effort.value == turn.effort)
      && |sent.messages| == 2 * i + 1 && sent.messages[2 * i] == User(turn.user)
      && forall j :: 0 <= j < i ==>
           && sent.messages[2 * j] == User(script[j].user)
           && exists answer ::
                Entered(replay, records, j, answer) && IsEntry(script, j, sent.messages[2 * j + 1], answer)
  {
    var answers := Sources(replay, records);
    assert payloads[i] == ChatPayload(Prompt(script, answers, i), script[i]);
    forall j | 0 <= j < i
      ensures payloads[i].messages[2 * j] == User(script[j].user)
      ensures exists answer ::
        Entered(replay, records, j, answer) && IsEntry(script, j, payloads[i].messages[2 * j + 1], answer)
    {
      assert 2 * j / 2 == j && (2 * j + 1) / 2 == j && (2 * j + 1) % 2 == 1;
      assert Entered(replay, records, j, answers[j]);
      assert payloads[i].messages[2 * j + 1] == AssistantEntry(script, j, answers[j]);
    }
  }

  // ---------------------------------------------------------------------------
  // The warm arm's prompts do not depend on the warm server
  // ---------------------------------------------------------------------------

  /** Every prompt that both arms reach is the same, wherever either arm stops. */
  lemma WarmPromptsAreColdPrompts(
    script: seq<Turn>, coldServer: Server, warmServer: Server,
    cold: seq<Record>, coldPayloads: seq<Payload>, warm: seq<Record>, warmPayloads: seq<Payload>,
    i: nat)
    requires IsRun(script, coldServer, None, cold, coldPayloads)
    requires IsRun(script, warmServer, Some(cold), warm, warmPayloads)
    requires i < |coldPayloads| && i < |warmPayloads|
    ensures warmPayloads[i] == coldPayloads[i]
  {
    var a, b := Sources(None, cold), Sources(Some(cold), warm);
    HistoryDependsOnEarlierAnswers(script, a, b, i);
  }

  // ---------------------------------------------------------------------------
  // The verdict
  // ---------------------------------------------------------------------------

  datatype Verdict = Pass | Fail | InconclusiveNoReuse

  datatype TurnReport = TurnReport(
    key: string, byteEqual: bool, normalizedEqual: bool, widthVariant: bool,
    coldCached: nat, warmCached: nat)

  /** What the report of a turn says of the two answers. */
  ghost predicate Reports(report: TurnReport, c: Record, w: Record, normalize: string -> string) {
    && report.key == c.key
    && (report.byteEqual <==> c.response.content == w.response.content)
    && (report.normalizedEqual <==> normalize(c.response.content) == normalize(w.response.content))
    && (report.widthVariant <==>
          c.response.content != w.response.content
          && c.response.cachedTokens != w.response.cachedTokens)
    && report.coldCached == c.response.cachedTokens && report.warmCached == w.response.cachedTokens
  }

  ghost predicate AllOk(records: seq<Record>) {
    forall i :: 0 <= i < |records| ==> records[i].response.code == 200
  }

  /** Both arms completed every turn. */
  ghost predicate Comparable(cold: seq<Record>, warm: seq<Record>) {
    |cold| == |warm| && AllOk(cold) && AllOk(warm)
  }

  /** Where both arms restored the same width, they gave the same text. */
  ghost predicate LikeForLike(cold: seq<Record>, warm: seq<Record>)
    requires |cold| == |warm|
  {
    forall i :: 0 <= i < |cold| && cold[i].response.cachedTokens == warm[i].response.cachedTokens ==>
      cold[i].response.content == warm[i].response.content
  }

  ghost predicate ReuseProven(warm: seq<Record>, tableHits: bool) {
    tableHits || exists i :: 0 <= i < |warm| && warm[i].response.cachedTokens > 0
  }

  method ComputeVerdict(
    cold: seq<Record>, warm: seq<Record>, tableHits: bool, normalize: string -> string)
    returns (verdict: Verdict, turns: seq<TurnReport>)
    ensures verdict == Pass <==>
      Comparable(cold, warm) && ReuseProven(warm, tableHits) && LikeForLike(cold, warm)
    ensures verdict == InconclusiveNoReuse <==>
      Comparable(cold, warm) && !ReuseProven(warm, tableHits)
    ensures |turns| == if Comparable(cold, warm) then |cold| else 0
    ensures forall i :: 0 <= i < |turns| ==> Reports(turns[i], cold[i], warm[i], normalize)
  {
    turns := [];
    var coldOk := AllAnswered(cold);
    var warmOk := AllAnswered(warm);
    if |cold| != |warm| || !coldOk || !warmOk {
      return Fail, turns;
    }
    var contractOk, reuse := true, tableHits;
    for i := 0 to |cold|
      invariant |turns| == i
      invariant forall j :: 0 <= j < i ==> Reports(turns[j], cold[j], warm[j], normalize)
      invariant contractOk <==> forall j :: 0 <= j < i ==>
        cold[j].response.cachedTokens == warm[j].response.cachedTokens ==>
        cold[j].response.content == warm[j].response.content
      invariant reuse <==> tableHits || exists j :: 0 <= j < i && warm[j].response.cachedTokens > 0
    {
      var c, w := cold[i].response, warm[i].response;
      var report := TurnReport(
        cold[i].key, c.content == w.content, normalize(c.content) == normalize(w.content),
        c.content != w.content && c.cachedTokens != w.cachedTokens, c.cachedTokens, w.cachedTokens);
      if !report.byteEqual && !report.widthVariant {
        contractOk := false;
      }
      turns := turns + [report];
      reuse := reuse || report.warmCached > 0;
    }
    verdict := if !reuse then InconclusiveNoReuse else if contractOk then Pass else Fail;
  }

  method AllAnswered(records: seq<Record>) returns (ok: bool)
    ensures ok <==> AllOk(records)
  {
    for i := 0 to |records|
      invariant forall j :: 0 <= j < i ==> records[j].response.code == 200
    {
      if records[i].response.code != 200 {
        return false;
      }
    }
    ok := true;
  }

  /**
   Any verdict but a failure to complete means that both arms ran the whole script and that
   every warm prompt was the cold prompt: so a pass compares answers to identical prompts.
   */
  lemma ComparableArmsSawTheSamePrompts(
    script: seq<Turn>, coldServer: Server, warmServer: Server,
    cold: seq<Record>, coldPayloads: seq<Payload>, warm: seq<Record>, warmPayloads: seq<Payload>)
    requires IsRun(script, coldServer, None, cold, coldPayloads)
    requires IsRun(script, warmServer, Some(cold), warm, warmPayloads)
    requires Comparable(cold, warm)
    ensures |cold| == |warm| == |script|
    ensures warmPayloads == coldPayloads
  {
    forall i | 0 <= i < |script| ensures warmPayloads[i] == coldPayloads[i] {
      WarmPromptsAreColdPrompts(
        script, coldServer, warmServer, cold, coldPayloads, warm, warmPayloads, i);
    }
  }

  /** Against one and the same server the warm arm repeats the cold arm exactly. */
  lemma SameServerRepeatsItself(
    script: seq<Turn>, server: Server, cold: seq<Record>, coldPayloads: seq<Payload>,
    warm: seq<Record>, warmPayloads: seq<Payload>, n: nat)
    requires IsRun(script, server, None, cold, coldPayloads)
    requires IsRun(script, server, Some(cold), warm, warmPayloads)
    requires n <= |cold| && n <= |warm|
    ensures warmPayloads[..n] == coldPayloads[..n] && warm[..n] == cold[..n]
  {
    forall i | 0 <= i < n ensures warmPayloads[i] == coldPayloads[i] {
      WarmPromptsAreColdPrompts(script, server, server, cold, coldPayloads, warm, warmPayloads, i);
    }
    forall i | 0 <= i < n ensures warm[i] == cold[i] {
      assert warmPayloads[..i + 1] == coldPayloads[..i + 1];
      assert Answer(server, warmPayloads, i) == Answer(server, coldPayloads, i);
    }
  }
}
