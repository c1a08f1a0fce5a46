/** What holds in every run of the scenario, against every server. */
module ScenarioProperties {
  import opened Common
  import opened Sequences
  import opened PrefixReuse
  import opened Text
  import opened Wires
  import opened Scenario

  // ---------------------------------------------------------------------------
  // Errors are accounted for, turn by turn
  // ---------------------------------------------------------------------------

  function ErrorsOf(r: Record): seq<ScenarioError> {
    if r.kind.Unknown? then [UnknownKind(r.index)] else InTurns(r.index, r.errors)
  }

  function AllErrors(records: seq<Record>): seq<ScenarioError> {
    if records == [] then []
    else AllErrors(records[..|records| - 1]) + ErrorsOf(records[|records| - 1])
  }

  /** One record per turn, in order. */
  ghost predicate RecordsMatch(records: seq<Record>, turns: seq<Turn>) {
    |records| == |turns|
    && forall i :: 0 <= i < |turns| ==>
         records[i].index == i + 1 && records[i].kind == turns[i].kind
         && (turns[i].kind.Unknown? ==> records[i].errors == [])
  }

  lemma OpenKeepsRecords(env: Environment, s: Run, index: nat, turn: Turn)
    requires env.block > 0
    ensures var o := Open(env, s, index, turn);
      o.run.records == s.records && o.run.errors == s.errors
  {
  }

  lemma CloseKeepsRecords(env: Environment, o: Opened, index: nat, turn: Turn)
    requires env.block > 0
    ensures var c := CloseText(env, o, index, turn);
      c.run.records == o.run.records && c.run.errors == o.run.errors
    ensures turn.kind.ToolRound? ==>
      var c := CloseToolRound(env, o, index, turn);
      c.run.records == o.run.records && c.run.errors == o.run.errors
  {
  }

  /** Each turn adds its record, and that record's errors. */
  lemma PlayAddsOneRecord(env: Environment, s: Run, index: nat, turn: Turn) returns (r: Record)
    requires env.block > 0
    ensures var t := Play(env, s, index, turn);
      && t.records == s.records + [r] && r.index == index && r.kind == turn.kind
      && (turn.kind.Unknown? ==> r.errors == [])
      && t.errors == s.errors + ErrorsOf(r)
  {
    r := Play(env, s, index, turn).records[|s.records|];
    if !turn.kind.DeepSleep? && !turn.kind.Unknown? {
      OpenKeepsRecords(env, s, index, turn);
      CloseKeepsRecords(env, Open(env, s, index, turn), index, turn);
    }
  }

  lemma OneMoreRecord(records: seq<Record>, turns: seq<Turn>, r: Record)
    requires turns != [] && RecordsMatch(records, turns[..|turns| - 1])
    requires r.index == |turns| && r.kind == turns[|turns| - 1].kind
    requires r.kind.Unknown? ==> r.errors == []
    ensures RecordsMatch(records + [r], turns)
    ensures AllErrors(records + [r]) == AllErrors(records) + ErrorsOf(r)
  {
    var all := records + [r];
    assert all[..|records|] == records;
    forall i | 0 <= i < |turns|
      ensures all[i].index == i + 1 && all[i].kind == turns[i].kind
        && (turns[i].kind.Unknown? ==> all[i].errors == [])
    {
      if i < |records| { assert all[i] == records[i] && turns[i] == turns[..|turns| - 1][i]; }
    }
  }

  /** The scenario's errors are exactly the records' errors and the unknown turns, in order. */
  lemma {:induction false} ErrorsAreAccountedFor(env: Environment, turns: seq<Turn>)
    requires env.block > 0
    ensures var s := PlayAll(env, turns);
      RecordsMatch(s.records, turns) && s.errors == AllErrors(s.records)
  {
    if turns != [] {
      var n := |turns| - 1;
      var s := PlayAll(env, turns[..n]);
      ErrorsAreAccountedFor(env, turns[..n]);
      var r := PlayAddsOneRecord(env, s, |turns|, turns[n]);
      OneMoreRecord(s.records, turns, r);
    }
  }

  lemma {:induction false} NoErrorsAnywhere(records: seq<Record>)
    ensures AllErrors(records) == [] <==>
      forall i :: 0 <= i < |records| ==> records[i].errors == [] && !records[i].kind.Unknown?
    decreases |records|
  {
    if records != [] {
      var front, last := records[..|records| - 1], records[|records| - 1];
      NoErrorsAnywhere(front);
      NoErrorsHere(last);
      EmptyParts(AllErrors(front), ErrorsOf(last));
      assert forall i :: 0 <= i < |front| ==> front[i] == records[i];
    }
  }

  lemma NoErrorsHere(r: Record)
    ensures ErrorsOf(r) == [] <==> r.errors == [] && !r.kind.Unknown?
  {
    assert |InTurns(r.index, r.errors)| == |r.errors|;
  }

  /** A run passes exactly when no record has an error and every turn's kind was known. */
  lemma PassesIffNoRecordFails(env: Environment, turns: seq<Turn>)
    requires env.block > 0
    ensures var s := PlayAll(env, turns);
      && |s.records| == |turns|
      && (s.errors == [] <==>
            (forall i :: 0 <= i < |turns| ==> s.records[i].errors == [] && !turns[i].kind.Unknown?))
  {
    ErrorsAreAccountedFor(env, turns);
    NoErrorsAnywhere(PlayAll(env, turns).records);
  }

  // ---------------------------------------------------------------------------
  // The history of an error-free run
  // ---------------------------------------------------------------------------

  predicate IsUser(m: Message) {
    m.role == User && m.content.Some? && m.toolCalls == []
  }

  predicate IsAnswer(m: Message) {
    m.role == Assistant && m.content.Some? && !Blank(m.content.value) && m.toolCalls == []
  }

  predicate IsOneCall(m: Message) {
    m.role == Assistant && |m.toolCalls| == 1
    && m.toolCalls[0].name == "get_weather" && m.toolCalls[0].id != ""
  }

  predicate IsResultOf(m: Message, call: Message)
    requires IsOneCall(call)
  {
    m.role == Tool && m.callId == Some(call.toolCalls[0].id) && m.content.Some?
  }

  /** A user message with its answer. */
  predicate IsTextExchange(ms: seq<Message>) {
    |ms| == 2 && IsUser(ms[0]) && IsAnswer(ms[1])
  }

  /** A user message, one call, that call's result, and the answer. */
  predicate IsToolExchange(ms: seq<Message>) {
    |ms| == 4 && IsUser(ms[0]) && IsOneCall(ms[1]) && IsResultOf(ms[2], ms[1]) && IsAnswer(ms[3])
  }

  /** A sequence of complete exchanges. */
  predicate Conversation(ms: seq<Message>) {
    || ms == []
    || (|ms| >= 2 && Conversation(ms[..|ms| - 2]) && IsTextExchange(ms[|ms| - 2..]))
    || (|ms| >= 4 && Conversation(ms[..|ms| - 4]) && IsToolExchange(ms[|ms| - 4..]))
  }

  lemma OneMoreExchange(ms: seq<Message>, exchange: seq<Message>)
    requires Conversation(ms) && (IsTextExchange(exchange) || IsToolExchange(exchange))
    ensures Conversation(ms + exchange)
  {
    var all := ms + exchange;
    assert all[..|all| - |exchange|] == ms && all[|all| - |exchange|..] == exchange;
  }

  /** Each render is the render of the request it stands for. */
  ghost predicate RendersFollowRequests(env: Environment, s: Run) {
    |s.renders| == |s.requests|
    && forall i :: 0 <= i < |s.renders| ==>
         s.renders[i] == env.render(s.requests[i].messages, s.requests[i].tools)
  }

  lemma DigitsAreVisible()
    ensures !Blank("21")
  {
    assert !IsSpace("21"[0]);
  }

  /** From `s` to `t` every new request left its render, and no error means one exchange. */
  ghost predicate CleanStep(env: Environment, s: Run, t: Run, failed: bool) {
    && s.requests <= t.requests && s.renders <= t.renders
    && |t.requests| - |s.requests| == |t.renders| - |s.renders|
    && (forall k :: |s.renders| <= k < |t.renders| ==>
          var r := t.requests[k - |s.renders| + |s.requests|];
          t.renders[k] == env.render(r.messages, r.tools))
    && (failed || ExtendsByExchange(s.messages, t.messages))
  }

  ghost predicate ExtendsByExchange(before: seq<Message>, after: seq<Message>) {
    before <= after
    && (IsTextExchange(after[|before|..]) || IsToolExchange(after[|before|..]))
  }

  lemma TextTurnIsClean(env: Environment, s: Run, index: nat, turn: Turn)
    requires env.block > 0 && (turn.kind.Grow? || turn.kind.Probe?)
    ensures var t := Play(env, s, index, turn);
      && !t.records[|s.records|].rejectedRound
      && |t.requests| == |s.requests| + 1
      && CleanStep(env, s, t, t.records[|s.records|].errors != [])
  {
    var t := Play(env, s, index, turn);
    var exchange := TextRound(env, s, index, turn);
    assert t.messages[|s.messages|..] == exchange;
  }

  /** What a text turn adds: two messages, one request and its render. */
  lemma TextRound(env: Environment, s: Run, index: nat, turn: Turn)
    returns (exchange: seq<Message>)
    requires env.block > 0 && (turn.kind.Grow? || turn.kind.Probe?)
    ensures var t, n := Play(env, s, index, turn), |s.requests|;
      && t.messages == s.messages + exchange
      && |t.requests| == n + 1 && t.requests[..n] == s.requests
      && t.renders == s.renders + [env.render(t.requests[n].messages, t.requests[n].tools)]
      && !t.records[|s.records|].rejectedRound
      && (t.records[|s.records|].errors == [] ==> IsTextExchange(exchange))
  {
    var o, t := Open(env, s, index, turn), Play(env, s, index, turn);
    exchange := [UserMessage(UserText(env, s, index, turn)), AssistantMessage(o.reply.content, [])];
    if t.records[|s.records|].errors == [] {
      assert CloseText(env, o, index, turn).errors == [];
    }
  }

  /** A tool turn whose first call is rejected; it leaves a request without a render. */
  lemma RejectedToolTurn(env: Environment, s: Run, index: nat, turn: Turn)
    requires env.block > 0 && turn.kind.ToolRound?
    requires Play(env, s, index, turn).records[|s.records|].rejectedRound
    ensures var t := Play(env, s, index, turn);
      && |t.requests| == |s.requests| + 1 && t.renders == s.renders
      && t.records[|s.records|].errors != []
  {
    var o := Open(env, s, index, turn);
    GradingAcceptsExactlyTheRightCall(env, o.reply.toolCalls, turn.kind.city);
    assert CloseToolRound(env, o, index, turn).errors != [];
  }

  lemma AcceptedToolTurnIsClean(env: Environment, s: Run, index: nat, turn: Turn)
    requires env.block > 0 && turn.kind.ToolRound?
    requires !Play(env, s, index, turn).records[|s.records|].rejectedRound
    ensures var t := Play(env, s, index, turn);
      && |t.requests| == |s.requests| + 2
      && CleanStep(env, s, t, t.records[|s.records|].errors != [])
  {
    var t := Play(env, s, index, turn);
    var exchange := AcceptedRound(env, s, index, turn);
    var failed := t.records[|s.records|].errors != [];
    if !failed {
      AcceptedAnswer(env, s, index, turn);
      assert t.messages[|t.messages| - 1] == exchange[3];
      AnsweredToolExchange(exchange);
    }
    TwoRequestsAreClean(env, s, t, exchange, failed);
  }

  lemma TwoRequestsAreClean(env: Environment, s: Run, t: Run, exchange: seq<Message>, failed: bool)
    requires t.messages == s.messages + exchange && (failed || IsToolExchange(exchange))
    requires |t.requests| == |s.requests| + 2 && t.requests[..|s.requests|] == s.requests
    requires var n := |s.requests|;
      t.renders == s.renders
        + [env.render(t.requests[n].messages, t.requests[n].tools),
           env.render(t.requests[n + 1].messages, t.requests[n + 1].tools)]
    ensures CleanStep(env, s, t, failed)
  {
    assert t.messages[|s.messages|..] == exchange;
  }

  /** What an accepted tool turn adds: four messages, two requests and their renders. */
  lemma AcceptedRound(env: Environment, s: Run, index: nat, turn: Turn)
    returns (exchange: seq<Message>)
    requires env.block > 0 && turn.kind.ToolRound?
    requires !Play(env, s, index, turn).records[|s.records|].rejectedRound
    ensures |exchange| == 4 && IsUser(exchange[0])
    ensures IsOneCall(exchange[1]) && IsResultOf(exchange[2], exchange[1])
    ensures exchange[3].role == Assistant
    ensures var t := Play(env, s, index, turn);
      var asked, called := s.messages + exchange[..1], s.messages + exchange[..3];
      && t.messages == s.messages + exchange
      && t.requests == s.requests + [Request(asked, true, turn), Request(called, true, turn)]
      && t.renders == s.renders + [env.render(asked, true), env.render(called, true)]
  {
    var o := Open(env, s, index, turn);
    GradingAcceptsExactlyTheRightCall(env, o.reply.toolCalls, turn.kind.city);
    var user := UserMessage(UserText(env, s, index, turn));
    var request := AssistantMessage(o.reply.content, o.reply.toolCalls);
    var result := ToolMessage(o.reply.toolCalls[0].id, env.toolOutput(turn.kind.city));
    var called := o.run.(
      messages := o.run.messages + [request] + [result], renders := o.run.renders + [o.render]);
    var (sent, reply) := Send(env, called, true, turn);
    var answer := AssistantMessage(reply.content, reply.toolCalls);
    exchange := [user, request, result, answer];
    FourMessages(s.messages, user, request, result, answer);
  }

  lemma FourMessages(ms: seq<Message>, a: Message, b: Message, c: Message, d: Message)
    ensures var exchange := [a, b, c, d];
      && ms + [a] == ms + exchange[..1]
      && ms + [a] + [b] + [c] == ms + exchange[..3]
      && ms + [a] + [b] + [c] + [d] == ms + exchange
  {
    var exchange := [a, b, c, d];
    assert exchange[..1] == [a] && exchange[..3] == [a, b, c];
  }

  /** Without errors the turn's last message is the answer that was asked for. */
  lemma AcceptedAnswer(env: Environment, s: Run, index: nat, turn: Turn)
    requires env.block > 0 && turn.kind.ToolRound?
    requires Play(env, s, index, turn).records[|s.records|].errors == []
    requires !Play(env, s, index, turn).records[|s.records|].rejectedRound
    ensures var ms := Play(env, s, index, turn).messages;
      && ms != [] && ms[|ms| - 1].toolCalls == [] && ms[|ms| - 1].content.Some?
      && Contains(ms[|ms| - 1].content.value, "21")
  {
    var o := Open(env, s, index, turn);
    assert CloseToolRound(env, o, index, turn).errors == [];
    GradingAcceptsExactlyTheRightCall(env, o.reply.toolCalls, turn.kind.city);
  }

  lemma AnsweredToolExchange(ms: seq<Message>)
    requires |ms| == 4 && IsUser(ms[0]) && IsOneCall(ms[1]) && IsResultOf(ms[2], ms[1])
    requires ms[3].role == Assistant && ms[3].toolCalls == []
    requires ms[3].content.Some? && Contains(ms[3].content.value, "21")
    ensures IsToolExchange(ms)
  {
    DigitsAreVisible();
    ContainerOfVisibleIsVisible(ms[3].content.value, "21");
  }

  /** The tool turns whose first call was rejected. */
  function Rejected(records: seq<Record>): nat {
    if records == [] then 0
    else Rejected(records[..|records| - 1]) + if records[|records| - 1].rejectedRound then 1 else 0
  }

  ghost predicate HistoryIsSound(env: Environment, s: Run) {
    && |s.renders| + Rejected(s.records) == |s.requests|
    && (Rejected(s.records) == 0 ==> RendersFollowRequests(env, s))
    && (s.errors == [] ==> Rejected(s.records) == 0 && Conversation(s.messages))
  }

  lemma PlayKeepsHistorySound(env: Environment, s: Run, index: nat, turn: Turn)
    requires env.block > 0 && HistoryIsSound(env, s)
    ensures HistoryIsSound(env, Play(env, s, index, turn))
  {
    var t, n := Play(env, s, index, turn), |s.records|;
    var record := PlayAddsOneRecord(env, s, index, turn);
    assert t.records[..n] == s.records && t.records[n] == record;
    NoErrorsHere(record);
    match turn.kind
    case DeepSleep => QuietStepKeepsHistorySound(env, s, t);
    case Unknown => QuietStepKeepsHistorySound(env, s, t);
    case ToolRound(_) =>
      if record.rejectedRound {
        RejectedToolTurn(env, s, index, turn);
      } else {
        AcceptedToolTurnIsClean(env, s, index, turn);
        CleanStepKeepsHistorySound(env, s, t);
      }
    case _ =>
      TextTurnIsClean(env, s, index, turn);
      CleanStepKeepsHistorySound(env, s, t);
  }

  /** A turn that talks to nobody. */
  lemma QuietStepKeepsHistorySound(env: Environment, s: Run, t: Run)
    requires HistoryIsSound(env, s)
    requires t.messages == s.messages && t.requests == s.requests && t.renders == s.renders
    requires |t.records| == |s.records| + 1 && t.records[..|s.records|] == s.records
    requires !t.records[|s.records|].rejectedRound
    requires t.errors == [] ==> s.errors == []
    ensures HistoryIsSound(env, t)
  {
  }

  lemma CleanStepKeepsHistorySound(env: Environment, s: Run, t: Run)
    requires HistoryIsSound(env, s)
    requires |t.records| == |s.records| + 1 && t.records[..|s.records|] == s.records
    requires !t.records[|s.records|].rejectedRound
    requires CleanStep(env, s, t, t.records[|s.records|].errors != [])
    requires t.errors == [] ==> s.errors == [] && t.records[|s.records|].errors == []
    ensures HistoryIsSound(env, t)
  {
    if t.errors == [] {
      OneMoreExchange(s.messages, t.messages[|s.messages|..]);
      assert t.messages == s.messages + t.messages[|s.messages|..];
    }
    if Rejected(t.records) == 0 {
      forall i | 0 <= i < |t.renders|
        ensures t.renders[i] == env.render(t.requests[i].messages, t.requests[i].tools)
      {
        if i < |s.renders| {
          assert t.renders[i] == s.renders[i] && t.requests[i] == s.requests[i];
        }
      }
    }
  }

  /**
   In every run each request but those of rejected tool rounds leaves one render; in an
   error-free run there is one render per request, in order, and the history is a sequence of
   complete exchanges.
   */
  lemma {:induction false} HistoryOfEveryRun(env: Environment, turns: seq<Turn>)
    requires env.block > 0
    ensures HistoryIsSound(env, PlayAll(env, turns))
  {
    if turns != [] {
      var n := |turns| - 1;
      HistoryOfEveryRun(env, turns[..n]);
      PlayKeepsHistorySound(env, PlayAll(env, turns[..n]), |turns|, turns[n]);
    }
  }

  lemma ErrorFreeRunsAreConversations(env: Environment, turns: seq<Turn>)
    requires env.block > 0
    ensures var s := PlayAll(env, turns);
      s.errors == [] ==> Conversation(s.messages) && RendersFollowRequests(env, s)
  {
    HistoryOfEveryRun(env, turns);
  }

  // ---------------------------------------------------------------------------
  // What the oracle predicts
  // ---------------------------------------------------------------------------

  /** The history goes on with an answer to `before`. */
  predicate AnsweredIn(before: seq<Message>, messages: seq<Message>) {
    before < messages && messages[|before|].role == Assistant
  }

  /**
   The template only appends answers: a history that goes on with an assistant message renders
   to more tokens, and to the same ones up to the shorter render's last token. Nothing is said
   of histories that go on otherwise, where the generation prompt makes the renders part.
   */
  ghost predicate AppendOnlyTemplate(env: Environment, tools: bool) {
    forall before, after :: AnsweredIn(before, after) ==>
      var short, long := env.render(before, tools), env.render(after, tools);
      2 <= |short| < |long| && Agree(short, long, |short| - 1)
  }

  /** A tool schema changes the render's head, and every render is longer than that. */
  ghost predicate ToolsChangeTheHead(env: Environment, head: nat) {
    && (forall a, b :: !Agree(env.render(a, true), env.render(b, false), head))
    && (forall ms, tools :: ms != [] ==> head < |env.render(ms, tools)|)
  }

  /** What a render was made of. */
  datatype Source = Source(messages: seq<Message>, tools: bool)

  /** The renders are those of the sources, and each source was answered before the next. */
  ghost predicate RendersOf(env: Environment, s: Run, sources: seq<Source>) {
    && |sources| == |s.renders|
    && (forall i :: 0 <= i < |sources| ==>
          s.renders[i] == env.render(sources[i].messages, sources[i].tools)
          && sources[i].messages != [] && AnsweredIn(sources[i].messages, s.messages))
    && (forall i, j :: 0 <= i < j < |sources| ==>
          AnsweredIn(sources[i].messages, sources[j].messages))
  }

  lemma StaysAnswered(before: seq<Message>, messages: seq<Message>, more: seq<Message>)
    requires AnsweredIn(before, messages) && messages <= more
    ensures AnsweredIn(before, more)
  {
  }

  /** Whatever is said next, earlier sources stay answered. */
  lemma RendersStay(env: Environment, s: Run, t: Run, sources: seq<Source>)
    requires RendersOf(env, s, sources) && t.renders == s.renders && s.messages <= t.messages
    ensures RendersOf(env, t, sources)
  {
    forall i | 0 <= i < |sources| ensures AnsweredIn(sources[i].messages, t.messages) {
      StaysAnswered(sources[i].messages, s.messages, t.messages);
    }
  }

  /** One more render, of everything said so far and a question, whose answer follows. */
  lemma OneMoreSource(env: Environment, s: Run, t: Run, sources: seq<Source>, source: Source)
    requires RendersOf(env, s, sources) && s.messages < source.messages
    requires AnsweredIn(source.messages, t.messages)
    requires t.renders == s.renders + [env.render(source.messages, source.tools)]
    ensures RendersOf(env, t, sources + [source])
  {
    forall i | 0 <= i < |sources|
      ensures AnsweredIn(sources[i].messages, source.messages)
      ensures AnsweredIn(sources[i].messages, t.messages)
    {
      StaysAnswered(sources[i].messages, s.messages, source.messages);
      StaysAnswered(sources[i].messages, s.messages, t.messages);
    }
  }

  lemma TextTurnSource(env: Environment, s: Run, index: nat, turn: Turn, sources: seq<Source>)
    returns (more: seq<Source>)
    requires env.block > 0 && (turn.kind.Grow? || turn.kind.Probe?) && RendersOf(env, s, sources)
    ensures RendersOf(env, Play(env, s, index, turn), more)
    ensures more == sources
      + [Source(s.messages + [UserMessage(UserText(env, s, index, turn))], false)]
  {
    var t, o := Play(env, s, index, turn), Open(env, s, index, turn);
    var asked := s.messages + [UserMessage(UserText(env, s, index, turn))];
    more := sources + [Source(asked, false)];
    assert t.messages == asked + [AssistantMessage(o.reply.content, [])];
    OneMoreSource(env, s, t, sources, Source(asked, false));
  }

  /** Both rounds of an accepted tool turn; a rejected one leaves no render. */
  lemma ToolTurnSources(env: Environment, s: Run, index: nat, turn: Turn, sources: seq<Source>)
    returns (more: seq<Source>)
    requires env.block > 0 && turn.kind.ToolRound? && RendersOf(env, s, sources)
    ensures RendersOf(env, Play(env, s, index, turn), more)
    ensures sources <= more && forall i :: |sources| <= i < |more| ==> more[i].tools
  {
    if Play(env, s, index, turn).records[|s.records|].rejectedRound {
      more := sources;
      RejectedTurnStays(env, s, index, turn, sources);
    } else {
      var exchange := AcceptedRound(env, s, index, turn);
      more := TwoMoreSources(env, s, Play(env, s, index, turn), sources, exchange);
    }
  }

  lemma RejectedTurnStays(env: Environment, s: Run, index: nat, turn: Turn, sources: seq<Source>)
    requires env.block > 0 && turn.kind.ToolRound? && RendersOf(env, s, sources)
    requires Play(env, s, index, turn).records[|s.records|].rejectedRound
    ensures RendersOf(env, Play(env, s, index, turn), sources)
  {
    var t := Play(env, s, index, turn);
    assert s.messages <= t.messages && t.renders == s.renders;
    RendersStay(env, s, t, sources);
  }

  /** The renders of a question and of a call's result, each answered by the next message. */
  lemma TwoMoreSources(env: Environment, s: Run, t: Run, sources: seq<Source>, exchange: seq<Message>)
    returns (more: seq<Source>)
    requires RendersOf(env, s, sources)
    requires |exchange| == 4 && exchange[1].role == Assistant && exchange[3].role == Assistant
    requires t.messages == s.messages + exchange
    requires t.renders == s.renders
      + [env.render(s.messages + exchange[..1], true), env.render(s.messages + exchange[..3], true)]
    ensures RendersOf(env, t, more)
    ensures sources <= more && forall i :: |sources| <= i < |more| ==> more[i].tools
  {
    var asked, called := Source(s.messages + exchange[..1], true), Source(s.messages + exchange[..3], true);
    var half := s.(messages := called.messages, renders := s.renders + [env.render(asked.messages, true)]);
    assert called.messages[|asked.messages|] == exchange[1];
    OneMoreSource(env, s, half, sources, asked);
    assert t.messages[|called.messages|] == exchange[3];
    SecondSource(env, half, t, sources + [asked], called);
    more := sources + [asked] + [called];
  }

  lemma SecondSource(env: Environment, s: Run, t: Run, sources: seq<Source>, source: Source)
    requires RendersOf(env, s, sources) && s.messages == source.messages && source.messages != []
    requires AnsweredIn(source.messages, t.messages)
    requires t.renders == s.renders + [env.render(source.messages, source.tools)]
    ensures RendersOf(env, t, sources + [source])
  {
    forall i | 0 <= i < |sources| ensures AnsweredIn(sources[i].messages, t.messages) {
      StaysAnswered(sources[i].messages, source.messages, t.messages);
    }
  }

  /** In every run the renders are those of ever longer, answered histories. */
  lemma {:induction false} RendersHaveSources(env: Environment, turns: seq<Turn>)
    returns (sources: seq<Source>)
    requires env.block > 0
    ensures RendersOf(env, PlayAll(env, turns), sources)
    ensures (forall t :: t in turns ==> !t.kind.ToolRound?) ==>
      forall i :: 0 <= i < |sources| ==> !sources[i].tools
  {
    sources := [];
    if turns != [] {
      var n := |turns| - 1;
      var s := PlayAll(env, turns[..n]);
      sources := RendersHaveSources(env, turns[..n]);
      assert turns[n] in turns && forall x :: x in turns[..n] ==> x in turns;
      match turns[n].kind
      case DeepSleep => RendersStay(env, s, PlayAll(env, turns), sources);
      case Unknown => RendersStay(env, s, PlayAll(env, turns), sources);
      case ToolRound(_) => sources := ToolTurnSources(env, s, |turns|, turns[n], sources);
      case _ => sources := TextTurnSource(env, s, |turns|, turns[n], sources);
    }
  }

  /** The source `k` is the last with tools, or the last without. */
  predicate LastOfKind(sources: seq<Source>, tools: bool, k: nat) {
    && k < |sources| && sources[k].tools == tools
    && forall i :: k < i < |sources| ==> sources[i].tools != tools
  }

  /**
   In every run, against every server, a turn is predicted to restore the last render with
   tools, or the last without, as its own render is, up to that render's N-1 token, however
   many of the other kind came since. In a run without tool turns nothing is asked of renders
   with tools.
   */
  lemma TurnsReuseTheLastRenderOfTheirKind(
    env: Environment, turns: seq<Turn>, index: nat, turn: Turn, head: nat)
    returns (sources: seq<Source>)
    requires env.block > 0 && AppendOnlyTemplate(env, turn.kind.ToolRound?)
    requires (forall t :: t in turns ==> !t.kind.ToolRound?) || ToolsChangeTheHead(env, head)
    ensures RendersOf(env, PlayAll(env, turns), sources)
    ensures var s := PlayAll(env, turns);
      var predicted := Open(env, s, index, turn).predicted;
      forall k: nat :: LastOfKind(sources, turn.kind.ToolRound?, k) ==>
        && predicted.sourceIndex == Some(k) && predicted.kind == NMinusOneExact
        && predicted.safeExpected == |s.renders[k]| - 1
  {
    sources := RendersHaveSources(env, turns);
    var s, tools := PlayAll(env, turns), turn.kind.ToolRound?;
    forall k: nat | LastOfKind(sources, tools, k)
      ensures var predicted := Open(env, s, index, turn).predicted;
        && predicted.sourceIndex == Some(k) && predicted.kind == NMinusOneExact
        && predicted.safeExpected == |s.renders[k]| - 1
    {
      var asked := s.messages + [UserMessage(UserText(env, s, index, turn))];
      LastOfKindWins(env, s, sources, asked, tools, head, k);
    }
  }

  lemma LastOfKindWins(
    env: Environment, s: Run, sources: seq<Source>, asked: seq<Message>, tools: bool, head: nat, k: nat)
    requires env.block > 0 && AppendOnlyTemplate(env, tools) && RendersOf(env, s, sources)
    requires s.messages <= asked && LastOfKind(sources, tools, k)
    requires (forall i :: 0 <= i < |sources| ==> !sources[i].tools) || ToolsChangeTheHead(env, head)
    ensures var best := Best(s.renders, env.render(asked, tools), env.block);
      && best.sourceIndex == Some(k) && best.kind == NMinusOneExact
      && best.safeExpected == |s.renders[k]| - 1
  {
    var current := env.render(asked, tools);
    StaysAnswered(sources[k].messages, s.messages, asked);
    forall i | 0 <= i < |s.renders| && i != k
      ensures !Agree(s.renders[i], current, |s.renders[k]| - 1) || |s.renders[i]| < |s.renders[k]|
    {
      if sources[i].tools != tools {
        OtherKindDiffers(env, sources[i], sources[k], asked, head);
      } else {
        assert i < k && AnsweredIn(sources[i].messages, sources[k].messages);
      }
    }
    ContinuedRenderWins(s.renders, current, env.block, k);
  }

  lemma OtherKindDiffers(
    env: Environment, other: Source, source: Source, asked: seq<Message>, head: nat)
    requires ToolsChangeTheHead(env, head) && source.messages != [] && other.tools != source.tools
    ensures !Agree(env.render(other.messages, other.tools), env.render(asked, source.tools),
                   |env.render(source.messages, source.tools)| - 1)
  {
    var with, without :=
      if other.tools then other.messages else asked, if other.tools then asked else other.messages;
    assert head < |env.render(source.messages, source.tools)|;
    assert !Agree(env.render(with, true), env.render(without, false), head);
  }

  /**
   In every run the continuation of a tool turn, which sends the result of the call, is
   predicted to restore the render of its own question up to the N-1 token.
   */
  lemma ContinuationsReuseTheirQuestion(
    env: Environment, turns: seq<Turn>, index: nat, turn: Turn, call: ToolCall, head: nat)
    requires env.block > 0 && turn.kind.ToolRound?
    requires AppendOnlyTemplate(env, true) && ToolsChangeTheHead(env, head)
    ensures var s := PlayAll(env, turns);
      var o := Open(env, s, index, turn);
      var predicted := ContinuationMatch(env, WithResult(env, o, turn, call));
      && predicted.sourceIndex == Some(|s.renders|) && predicted.kind == NMinusOneExact
      && predicted.safeExpected == |o.render| - 1
  {
    var s := PlayAll(env, turns);
    var sources := RendersHaveSources(env, turns);
    var o := Open(env, s, index, turn);
    var called := WithResult(env, o, turn, call);
    var asked := Source(s.messages + [UserMessage(UserText(env, s, index, turn))], true);
    assert called.messages[|asked.messages|] == AssistantMessage(o.reply.content, o.reply.toolCalls);
    OneMoreSource(env, s, called, sources, asked);
    LastOfKindWins(env, called, sources + [asked], called.messages, true, head, |sources|);
  }

  /**
   In a conversation without tool turns the oracle predicts at every turn that the engine
   restores the previous request up to its N-1 token.
   */
  lemma PlainConversationsReuseTheLastRender(
    env: Environment, turns: seq<Turn>, index: nat, turn: Turn)
    requires env.block > 0 && AppendOnlyTemplate(env, false)
    requires (forall t :: t in turns ==> !t.kind.ToolRound?) && !turn.kind.ToolRound?
    requires PlayAll(env, turns).renders != []
    ensures var s := PlayAll(env, turns);
      var last, predicted := |s.renders| - 1, Open(env, s, index, turn).predicted;
      && predicted.sourceIndex == Some(last) && predicted.kind == NMinusOneExact
      && predicted.safeExpected == |s.renders[last]| - 1
  {
    var s := PlayAll(env, turns);
    var sources := RendersHaveSources(env, turns);
    var asked := s.messages + [UserMessage(UserText(env, s, index, turn))];
    LastOfKindWins(env, s, sources, asked, false, 0, |sources| - 1);
  }

  // ---------------------------------------------------------------------------
  // A template that only appends answers
  // ---------------------------------------------------------------------------

  /** How a ChatML template writes: markers, role names and texts as tokens. */
  datatype ChatMl = ChatMl(
    start: int, end: int, role: Role -> int, text: Message -> seq<int>,
    system: int, schema: seq<int>) {
    function Entry(m: Message): seq<int> {
      [start, role(m.role)] + text(m) + [end]
    }

    function Entries(ms: seq<Message>): seq<int> {
      if ms == [] then [] else Entries(ms[..|ms| - 1]) + Entry(ms[|ms| - 1])
    }

    /** The schema opens the render as a system message. */
    function Head(tools: bool): seq<int> {
      if tools then [start, system] + schema + [end] else []
    }

    /** The messages and the generation prompt, which opens an assistant message. */
    function Render(ms: seq<Message>, tools: bool): Render {
      Head(tools) + Entries(ms) + [start, role(Assistant)]
    }
  }

  lemma {:induction false} EntriesGrow(c: ChatMl, before: seq<Message>, after: seq<Message>)
    requires before <= after
    ensures c.Entries(before) <= c.Entries(after)
    decreases |after|
  {
    if before != after {
      assert before <= after[..|after| - 1];
      EntriesGrow(c, before, after[..|after| - 1]);
    } else {
      assert before == after;
    }
  }

  /** ChatML meets the conditions on templates, generation prompt included. */
  lemma ChatMlOnlyAppendsAnswers(env: Environment, c: ChatMl, tools: bool)
    requires forall ms :: env.render(ms, tools) == c.Render(ms, tools)
    ensures AppendOnlyTemplate(env, tools)
  {
    forall before, after | AnsweredIn(before, after)
      ensures var short, long := env.render(before, tools), env.render(after, tools);
        2 <= |short| < |long| && Agree(short, long, |short| - 1)
    {
      ChatMlAppends(c, before, after, tools);
    }
  }

  lemma ChatMlAppends(c: ChatMl, before: seq<Message>, after: seq<Message>, tools: bool)
    requires AnsweredIn(before, after)
    ensures var short, long := c.Render(before, tools), c.Render(after, tools);
      2 <= |short| < |long| && Agree(short, long, |short| - 1)
  {
    var n := |before|;
    var next := after[..n + 1];
    assert next[..n] == before && next[n] == after[n];
    EntriesGrow(c, next, after);
    assert c.Entries(next) == c.Entries(before) + c.Entry(after[n]);
    PrefixAgrees(c.Render(before, tools), c.Render(after, tools));
  }

  lemma ChatMlToolsChangeTheHead(env: Environment, c: ChatMl)
    requires forall ms, tools :: env.render(ms, tools) == c.Render(ms, tools)
    requires forall role :: c.role(role) != c.system
    ensures ToolsChangeTheHead(env, 2)
  {
    forall ms ensures |c.Render(ms, false)| >= 2 && c.Render(ms, false)[1] != c.system {
      if ms != [] {
        assert c.Entries([]) == [] && c.Entries([ms[0]]) == c.Entry(ms[0]);
        EntriesGrow(c, [ms[0]], ms);
      }
    }
    forall ms, tools | ms != [] ensures 2 < |env.render(ms, tools)| {
      assert |c.Entries(ms)| >= 1;
    }
  }

  lemma PrefixAgrees(short: Render, long: Render)
    requires short <= long && |short| > 0
    ensures Agree(short, long, |short| - 1)
  {
  }

  // ---------------------------------------------------------------------------
  // The verdict does not depend on the cached widths the server reports
  // ---------------------------------------------------------------------------

  function Masked(r: Reply): Reply {
    r.(cachedTokens := 0)
  }

  /** The two surroundings differ at most in the cached widths their servers report. */
  ghost predicate SameButForCaching(e1: Environment, e2: Environment) {
    && e1.(server := e2.server) == e2
    && forall requests :: Masked(e1.server(requests)) == Masked(e2.server(requests))
  }

  /** The two runs differ at most in the cached widths that their records note. */
  ghost predicate SameRun(s1: Run, s2: Run) {
    && s1.(records := s2.records) == s2
    && SameRecords(s1.records, s2.records)
  }

  ghost predicate SameRecords(r1: seq<Record>, r2: seq<Record>) {
    |r1| == |r2|
    && forall i :: 0 <= i < |r1| ==> r1[i].(cachedTokens := 0) == r2[i].(cachedTokens := 0)
  }

  /** Unconfirmed renders never block, and the note is the same whatever was observed. */
  lemma CacheGradeIgnoresTheObservation(env: Environment, predicted: Match, tools: bool, a: nat, b: nat)
    ensures CacheGrade(env, a, predicted, tools) == CacheGrade(env, b, predicted, tools)
    ensures CacheGrade(env, a, predicted, tools).0 == []
  {
    GradingIsExact(a, predicted, ApproximateUnverified, env.hybrid);
  }

  lemma OpenIgnoresCaching(
    e1: Environment, e2: Environment, s1: Run, s2: Run, index: nat, turn: Turn)
    requires e1.block > 0 && SameButForCaching(e1, e2) && SameRun(s1, s2)
    ensures SameOpened(Open(e1, s1, index, turn), Open(e2, s2, index, turn))
  {
  }

  ghost predicate SameOpened(o1: Opened, o2: Opened) {
    && SameRun(o1.run, o2.run) && Masked(o1.reply) == Masked(o2.reply)
    && o1.render == o2.render && o1.predicted == o2.predicted && o1.errors == o2.errors
  }

  ghost predicate SameClosed(c1: Closed, c2: Closed) {
    SameRun(c1.run, c2.run) && c1.(run := c2.run) == c2
  }

  lemma CloseTextIgnoresCaching(
    e1: Environment, e2: Environment, o1: Opened, o2: Opened, index: nat, turn: Turn)
    requires SameButForCaching(e1, e2) && SameOpened(o1, o2)
    ensures SameClosed(CloseText(e1, o1, index, turn), CloseText(e2, o2, index, turn))
  {
  }

  lemma CloseToolRoundIgnoresCaching(
    e1: Environment, e2: Environment, o1: Opened, o2: Opened, index: nat, turn: Turn)
    requires e1.block > 0 && SameButForCaching(e1, e2) && turn.kind.ToolRound? && SameOpened(o1, o2)
    ensures SameClosed(CloseToolRound(e1, o1, index, turn), CloseToolRound(e2, o2, index, turn))
  {
    var (call, _) := GradeToolCall(e1, o1.reply.toolCalls, turn.kind.city);
    if call.Some? {
      ResultIgnoresCaching(e1, e2, o1, o2, turn, call.value);
    }
  }

  lemma ResultIgnoresCaching(
    e1: Environment, e2: Environment, o1: Opened, o2: Opened, turn: Turn, call: ToolCall)
    requires e1.block > 0 && SameButForCaching(e1, e2) && turn.kind.ToolRound? && SameOpened(o1, o2)
    ensures var c1, c2 := WithResult(e1, o1, turn, call), WithResult(e2, o2, turn, call);
      SameRun(c1, c2) && ContinuationMatch(e1, c1) == ContinuationMatch(e2, c2)
  {
  }

  lemma FinishIgnoresCaching(
    e1: Environment, e2: Environment, o1: Opened, o2: Opened, c1: Closed, c2: Closed,
    index: nat, turn: Turn)
    requires SameButForCaching(e1, e2) && SameOpened(o1, o2) && SameClosed(c1, c2)
    ensures SameRun(Finish(c1.run, TurnRecord(e1, o1, c1, index, turn)),
                    Finish(c2.run, TurnRecord(e2, o2, c2, index, turn)))
  {
    CacheGradeIgnoresTheObservation(
      e1, o1.predicted, turn.kind.ToolRound?, o1.reply.cachedTokens, o2.reply.cachedTokens);
    assert TurnRecord(e1, o1, c1, index, turn).(cachedTokens := 0)
        == TurnRecord(e2, o2, c2, index, turn).(cachedTokens := 0);
  }

  lemma PlayIgnoresCaching(
    e1: Environment, e2: Environment, s1: Run, s2: Run, index: nat, turn: Turn)
    requires e1.block > 0 && SameButForCaching(e1, e2) && SameRun(s1, s2)
    ensures SameRun(Play(e1, s1, index, turn), Play(e2, s2, index, turn))
  {
    if !turn.kind.DeepSleep? && !turn.kind.Unknown? {
      var o1, o2 := Open(e1, s1, index, turn), Open(e2, s2, index, turn);
      OpenIgnoresCaching(e1, e2, s1, s2, index, turn);
      if turn.kind.ToolRound? {
        CloseToolRoundIgnoresCaching(e1, e2, o1, o2, index, turn);
        FinishIgnoresCaching(
          e1, e2, o1, o2, CloseToolRound(e1, o1, index, turn), CloseToolRound(e2, o2, index, turn),
          index, turn);
      } else {
        CloseTextIgnoresCaching(e1, e2, o1, o2, index, turn);
        FinishIgnoresCaching(
          e1, e2, o1, o2, CloseText(e1, o1, index, turn), CloseText(e2, o2, index, turn), index, turn);
      }
    }
  }

  /**
   Two servers that differ only in the cached widths they report lead to the same requests,
   history, renders and errors: no cache finding can fail a scenario.
   */
  lemma {:induction false} VerdictIgnoresCaching(e1: Environment, e2: Environment, turns: seq<Turn>)
    requires e1.block > 0 && SameButForCaching(e1, e2)
    ensures SameRun(PlayAll(e1, turns), PlayAll(e2, turns))
  {
    if turns != [] {
      var n := |turns| - 1;
      VerdictIgnoresCaching(e1, e2, turns[..n]);
      PlayIgnoresCaching(
        e1, e2, PlayAll(e1, turns[..n]), PlayAll(e2, turns[..n]), |turns|, turns[n]);
    }
  }
}
