/**
 The two wire dialects of the scenario runner. Each keeps its own history of one
 conversation; the chat projection reads the Responses history as chat messages.
 */
module Wires {
  import opened Common
  import opened Sequences

  datatype ToolCall = ToolCall(id: string, name: string, arguments: string)

  datatype Role = User | Assistant | Tool

  /** A chat message; `callId` is set on tool results only. */
  datatype Message = Message(
    role: Role, content: Option<string>, toolCalls: seq<ToolCall>, callId: Option<string>)

  /** A Responses input item; what a reasoning item holds is left open. */
  datatype Item =
    | TextItem(role: Role, content: string)
    | FunctionCall(call: ToolCall)
    | FunctionCallOutput(callId: string, output: string)
    | Reasoning(payload: string)

  /** One step of a conversation, as the runner commits it to either wire. */
  datatype Step =
    | AddUser(content: string)
    | CommitAssistant(content: string, calls: seq<ToolCall>, reasoning: seq<string>)
    | CommitToolResult(call: ToolCall, output: string)

  // ---------------------------------------------------------------------------
  // Chat
  // ---------------------------------------------------------------------------

  function UserMessage(content: string): Message {
    Message(User, Some(content), [], None)
  }

  function AssistantMessage(content: string, calls: seq<ToolCall>): Message {
    Message(Assistant, if content == "" then None else Some(content), calls, None)
  }

  function ToolMessage(callId: string, output: string): Message {
    Message(Tool, Some(output), [], Some(callId))
  }

  function ChatStep(s: Step): Message {
    match s
    case AddUser(content) => UserMessage(content)
    case CommitAssistant(content, calls, _) => AssistantMessage(content, calls)
    case CommitToolResult(call, output) => ToolMessage(call.id, output)
  }

  function ChatHistory(steps: seq<Step>): seq<Message> {
    seq(|steps|, i requires 0 <= i < |steps| => ChatStep(steps[i]))
  }

  class ChatWire {
    var messages: seq<Message>

    constructor ()
      ensures messages == []
    {
      messages := [];
    }

    method AddUser(content: string)
      modifies this
      ensures messages == old(messages) + [Message(User, Some(content), [], None)]
    {
      messages := messages + [Message(User, Some(content), [], None)];
    }

    method CommitAssistant(content: string, calls: seq<ToolCall>)
      modifies this
      ensures messages == old(messages)
        + [Message(Assistant, if content == "" then None else Some(content), calls, None)]
    {
      var message := Message(Assistant, if content == "" then None else Some(content), [], None);
      if calls != [] {
        message := message.(toolCalls := calls);
      }
      messages := messages + [message];
    }

    method CommitToolResult(call: ToolCall, output: string)
      modifies this
      ensures messages == old(messages) + [Message(Tool, Some(output), [], Some(call.id))]
    {
      messages := messages + [Message(Tool, Some(output), [], Some(call.id))];
    }
  }

  // ---------------------------------------------------------------------------
  // Responses
  // ---------------------------------------------------------------------------

  function ReasoningItems(payloads: seq<string>): seq<Item> {
    seq(|payloads|, i requires 0 <= i < |payloads| => Reasoning(payloads[i]))
  }

  function CallItems(calls: seq<ToolCall>): seq<Item> {
    seq(|calls|, i requires 0 <= i < |calls| => FunctionCall(calls[i]))
  }

  function TextItems(content: string): seq<Item> {
    if content == "" then [] else [TextItem(Assistant, content)]
  }

  function ResponsesStep(s: Step): seq<Item> {
    match s
    case AddUser(content) => [TextItem(User, content)]
    case CommitAssistant(content, calls, reasoning) =>
      ReasoningItems(reasoning) + CallItems(calls) + TextItems(content)
    case CommitToolResult(call, output) => [FunctionCallOutput(call.id, output)]
  }

  function ResponsesHistory(steps: seq<Step>): seq<Item> {
    if steps == [] then [] else ResponsesStep(steps[0]) + ResponsesHistory(steps[1..])
  }

  /** An assistant turn follows: its reasoning, its calls, and its text if it has one. */
  ghost predicate Committed(
    before: seq<Item>, after: seq<Item>, content: string, calls: seq<ToolCall>, reasoning: seq<string>)
  {
    var n, m := |before|, |before| + |reasoning|;
    && |after| == m + |calls| + (if content == "" then 0 else 1)
    && before <= after
    && (forall i :: 0 <= i < |reasoning| ==> after[n + i] == Reasoning(reasoning[i]))
    && (forall i :: 0 <= i < |calls| ==> after[m + i] == FunctionCall(calls[i]))
    && (content != "" ==> after[|after| - 1] == TextItem(Assistant, content))
  }

  lemma AssistantIsCommitted(
    before: seq<Item>, content: string, calls: seq<ToolCall>, reasoning: seq<string>)
    ensures Committed(
      before, before + ResponsesStep(CommitAssistant(content, calls, reasoning)), content, calls, reasoning)
  {
  }

  lemma NextItem(start: seq<Item>, added: seq<Item>, item: Item)
    ensures start + added + [item] == start + (added + [item])
  {
  }

  lemma NextItems(start: seq<Item>, a: seq<Item>, b: seq<Item>, c: seq<Item>)
    ensures start + a + b + c == start + (a + b + c)
    ensures start + a + b == start + (a + b + [])
  {
  }

  class ResponsesWire {
    var items: seq<Item>

    constructor ()
      ensures items == []
    {
      items := [];
    }

    method AddUser(content: string)
      modifies this
      ensures items == old(items) + ResponsesStep(Step.AddUser(content))
      ensures items == old(items) + [TextItem(User, content)]
    {
      items := items + [TextItem(User, content)];
    }

    method CommitAssistant(content: string, calls: seq<ToolCall>, reasoning: seq<string>)
      modifies this
      ensures items == old(items) + ResponsesStep(Step.CommitAssistant(content, calls, reasoning))
      ensures Committed(old(items), items, content, calls, reasoning)
    {
      ghost var start := items;
      for i := 0 to |reasoning|
        invariant items == start + ReasoningItems(reasoning[..i])
      {
        NextItem(start, ReasoningItems(reasoning[..i]), Reasoning(reasoning[i]));
        assert ReasoningItems(reasoning[..i + 1]) == ReasoningItems(reasoning[..i]) + [Reasoning(reasoning[i])];
        items := items + [Reasoning(reasoning[i])];
      }
      assert reasoning[..|reasoning|] == reasoning;
      AppendCalls(calls);
      if content != "" {
        items := items + [TextItem(Assistant, content)];
      }
      NextItems(start, ReasoningItems(reasoning), CallItems(calls), TextItems(content));
      AssistantIsCommitted(start, content, calls, reasoning);
    }

    method AppendCalls(calls: seq<ToolCall>)
      modifies this
      ensures items == old(items) + CallItems(calls)
    {
      ghost var start := items;
      for i := 0 to |calls|
        invariant items == start + CallItems(calls[..i])
      {
        NextItem(start, CallItems(calls[..i]), FunctionCall(calls[i]));
        assert CallItems(calls[..i + 1]) == CallItems(calls[..i]) + [FunctionCall(calls[i])];
        items := items + [FunctionCall(calls[i])];
      }
      assert calls[..|calls|] == calls;
    }

    method CommitToolResult(call: ToolCall, output: string)
      modifies this
      ensures items == old(items) + ResponsesStep(Step.CommitToolResult(call, output))
      ensures items == old(items) + [FunctionCallOutput(call.id, output)]
    {
      items := items + [FunctionCallOutput(call.id, output)];
    }
  }

  // ---------------------------------------------------------------------------
  // The chat projection
  // ---------------------------------------------------------------------------

  function ProjectItem(item: Item): seq<Message> {
    match item
    case FunctionCall(call) => [Message(Assistant, Some(""), [call], None)]
    case FunctionCallOutput(callId, output) => [ToolMessage(callId, output)]
    case Reasoning(_) => []
    case TextItem(role, content) => [Message(role, Some(content), [], None)]
  }

  function Project(items: seq<Item>): seq<Message> {
    if items == [] then []
    else Project(items[..|items| - 1]) + ProjectItem(items[|items| - 1])
  }

  method ChatProjection(wire: ResponsesWire) returns (projected: seq<Message>)
    ensures projected == Project(wire.items)
  {
    projected := [];
    var items := wire.items;
    for i := 0 to |items|
      invariant projected == Project(items[..i])
    {
      assert items[..i + 1][..i] == items[..i];
      match items[i] {
        case FunctionCall(call) =>
          projected := projected + [Message(Assistant, Some(""), [call], None)];
        case FunctionCallOutput(callId, output) =>
          projected := projected + [ToolMessage(callId, output)];
        case Reasoning(_) =>
        case TextItem(role, content) =>
          projected := projected + [Message(role, Some(content), [], None)];
      }
    }
    assert items[..|items|] == items;
  }

  /** A message with null content and one with empty content are the same to a template. */
  function Normal(m: Message): Message {
    if m.content.None? then m.(content := Some("")) else m
  }

  function NormalAll(ms: seq<Message>): seq<Message> {
    seq(|ms|, i requires 0 <= i < |ms| => Normal(ms[i]))
  }

  lemma ProjectLast(items: seq<Item>, item: Item)
    ensures Project(items + [item]) == Project(items) + ProjectItem(item)
  {
    assert (items + [item])[..|items|] == items;
  }

  lemma {:induction false} ProjectConcat(a: seq<Item>, b: seq<Item>)
    ensures Project(a + b) == Project(a) + Project(b)
  {
    if b == [] {
      assert a + b == a;
    } else {
      var front, last := b[..|b| - 1], b[|b| - 1];
      assert b == front + [last];
      ProjectConcat(a, front);
      Regroup(a, front, [last]);
      ProjectLast(a + front, last);
      ProjectLast(front, last);
      Regroup(Project(a), Project(front), ProjectItem(last));
    }
  }

  lemma {:induction false} ReasoningIsInvisible(payloads: seq<string>)
    ensures Project(ReasoningItems(payloads)) == []
  {
    if payloads != [] {
      var n := |payloads| - 1;
      ReasoningIsInvisible(payloads[..n]);
      assert ReasoningItems(payloads)[..n] == ReasoningItems(payloads[..n]);
    }
  }

  lemma {:induction false} ProjectedCalls(calls: seq<ToolCall>)
    ensures |Project(CallItems(calls))| == |calls|
    ensures forall i :: 0 <= i < |calls| ==>
      Project(CallItems(calls))[i] == Message(Assistant, Some(""), [calls[i]], None)
  {
    if calls != [] {
      var n := |calls| - 1;
      ProjectedCalls(calls[..n]);
      assert CallItems(calls)[..n] == CallItems(calls[..n]);
    }
  }

  /** The step leaves one message on either wire: text alone, or one call alone. */
  predicate Aligned(s: Step) {
    s.CommitAssistant? ==> if s.content != "" then s.calls == [] else |s.calls| == 1
  }

  function TextMessages(content: string): seq<Message> {
    if content == "" then [] else [Message(Assistant, Some(content), [], None)]
  }

  lemma ProjectedText(content: string)
    ensures Project(TextItems(content)) == TextMessages(content)
  {
    if content != "" {
      ProjectLast([], TextItem(Assistant, content));
      assert [] + TextItems(content) == TextItems(content);
    }
  }

  lemma ProjectedParts(a: seq<Item>, b: seq<Item>, c: seq<Item>)
    ensures Project(a + b + c) == Project(a) + Project(b) + Project(c)
  {
    ProjectConcat(a + b, c);
    ProjectConcat(a, b);
  }

  lemma ProjectedAssistant(content: string, calls: seq<ToolCall>, reasoning: seq<string>)
    ensures Project(ResponsesStep(CommitAssistant(content, calls, reasoning)))
      == Project(CallItems(calls)) + TextMessages(content)
  {
    ProjectedParts(ReasoningItems(reasoning), CallItems(calls), TextItems(content));
    ReasoningIsInvisible(reasoning);
    ProjectedText(content);
    assert [] + Project(CallItems(calls)) == Project(CallItems(calls));
  }

  /** How many projected messages a step becomes. */
  function Width(s: Step): nat {
    if s.CommitAssistant? then |s.calls| + (if s.content == "" then 0 else 1) else 1
  }

  /** What one step adds to the projected history. */
  lemma ProjectedStep(s: Step)
    ensures var p := Project(ResponsesStep(s));
      && |p| == Width(s)
      && (!s.CommitAssistant? ==> p == [ChatStep(s)])
      && (s.CommitAssistant? ==>
            && (forall i :: 0 <= i < |s.calls| ==>
                  p[i] == Message(Assistant, Some(""), [s.calls[i]], None))
            && (s.content != "" ==> p[|s.calls|] == Message(Assistant, Some(s.content), [], None)))
  {
    match s
    case CommitAssistant(content, calls, reasoning) =>
      ProjectedAssistant(content, calls, reasoning);
      ProjectedCalls(calls);
    case AddUser(content) => assert ResponsesStep(s)[..0] == [];
    case CommitToolResult(call, output) => assert ResponsesStep(s)[..0] == [];
  }

  lemma AlignedStepProjectsToItsMessage(s: Step)
    requires Aligned(s)
    ensures Project(ResponsesStep(s)) == [Normal(ChatStep(s))]
  {
    ProjectedStep(s);
    var p := Project(ResponsesStep(s));
    if s.CommitAssistant? {
      if s.content == "" {
        var call := s.calls[0];
        assert s.calls == [call];
        assert p == [Message(Assistant, Some(""), [call], None)];
      } else {
        assert p == [Message(Assistant, Some(s.content), [], None)];
      }
    }
  }

  lemma HistoryHead(steps: seq<Step>)
    requires steps != []
    ensures NormalAll(ChatHistory(steps))
      == [Normal(ChatStep(steps[0]))] + NormalAll(ChatHistory(steps[1..]))
  {
    var all, rest := NormalAll(ChatHistory(steps)), NormalAll(ChatHistory(steps[1..]));
    forall i | 1 <= i < |steps| ensures all[i] == rest[i - 1] {
      assert steps[i] == steps[1..][i - 1];
    }
  }

  lemma {:induction false} AlignedHistoriesAgree(steps: seq<Step>)
    requires forall i :: 0 <= i < |steps| ==> Aligned(steps[i])
    ensures Project(ResponsesHistory(steps)) == NormalAll(ChatHistory(steps))
  {
    if steps != [] {
      AlignedHistoriesAgree(steps[1..]);
      AlignedStepProjectsToItsMessage(steps[0]);
      ProjectConcat(ResponsesStep(steps[0]), ResponsesHistory(steps[1..]));
      HistoryHead(steps);
    }
  }

  /** Every projected message carries at most one call, and a call or a text but not both. */
  lemma {:induction false} ProjectedMessagesAreThin(items: seq<Item>, i: nat)
    requires i < |Project(items)|
    ensures var m := Project(items)[i];
      |m.toolCalls| <= 1 && (m.toolCalls != [] ==> m.content == Some(""))
  {
    var n := |items| - 1;
    if i < |Project(items[..n])| { ProjectedMessagesAreThin(items[..n], i); }
  }

  /** A step becomes exactly one projected message when it is aligned; a lone text or call is. */
  lemma WidthDecidesAlignment(s: Step)
    requires Width(s) <= 1
    ensures Aligned(s) <==> Width(s) == 1
  {
  }

  lemma {:induction false} ProjectedLength(steps: seq<Step>)
    requires forall i :: 0 <= i < |steps| ==> Width(steps[i]) <= 1
    ensures |Project(ResponsesHistory(steps))| <= |steps|
    ensures |Project(ResponsesHistory(steps))| == |steps| ==>
      forall i :: 0 <= i < |steps| ==> Aligned(steps[i])
  {
    if steps != [] {
      var rest := steps[1..];
      ProjectedLength(rest);
      ProjectedStep(steps[0]);
      WidthDecidesAlignment(steps[0]);
      ProjectConcat(ResponsesStep(steps[0]), ResponsesHistory(rest));
      if |Project(ResponsesHistory(steps))| == |steps| {
        AllAligned(steps);
      }
    }
  }

  lemma AllAligned(steps: seq<Step>)
    requires steps != [] && Aligned(steps[0])
    requires forall i :: 0 <= i < |steps[1..]| ==> Aligned(steps[1..][i])
    ensures forall i :: 0 <= i < |steps| ==> Aligned(steps[i])
  {
    forall i | 0 <= i < |steps| ensures Aligned(steps[i]) {
      if i > 0 { assert steps[1..][i - 1] == steps[i]; }
    }
  }

  /**
   Whatever reasoning is replayed, the projected Responses history is the chat history
   message for message exactly when every assistant turn was either text or a single call.
   */
  lemma ProjectionIsFaithfulIffAligned(steps: seq<Step>)
    ensures Project(ResponsesHistory(steps)) == NormalAll(ChatHistory(steps))
      <==> forall i :: 0 <= i < |steps| ==> Aligned(steps[i])
  {
    var projected, chat := Project(ResponsesHistory(steps)), NormalAll(ChatHistory(steps));
    if forall i :: 0 <= i < |steps| ==> Aligned(steps[i]) {
      AlignedHistoriesAgree(steps);
    } else if projected == chat {
      forall i | 0 <= i < |steps| ensures Width(steps[i]) <= 1 {
        ProjectedMessagesAreThin(ResponsesHistory(steps), i);
        assert projected[i] == chat[i] == Normal(ChatStep(steps[i]));
      }
      ProjectedLength(steps);
    }
  }

  /** Two calls in one turn are one chat message but two projected ones. */
  lemma TwoCallsAreNotAligned(a: ToolCall, b: ToolCall)
    ensures var steps := [CommitAssistant("", [a, b], [])];
      |ChatHistory(steps)| == 1 && |Project(ResponsesHistory(steps))| == 2
  {
    var steps := [CommitAssistant("", [a, b], [])];
    ProjectedStep(steps[0]);
    assert ResponsesHistory(steps) == ResponsesStep(steps[0]) + [];
    ProjectConcat(ResponsesStep(steps[0]), []);
  }
}
