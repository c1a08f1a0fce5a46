/**
 The speed gate's one-pass check of an event stream, against a predicate on the whole trace.
 A line of the stream is taken as decoded: what it says about the protocol, and no more.
 Absent, null and empty strings are all "" here, as the checker treats them alike.
 */
module StreamChecker {
  import opened Common
  import opened Sequences
  import opened Text

  datatype TextField = Text(s: string) | NonString

  datatype Delta = Delta(content: TextField, reasoning: TextField) | NonObjectDelta

  datatype Choice = Choice(finish: string, delta: Delta) | NonObjectChoice

  datatype Choices = NoChoice | OneChoice(choice: Choice) | UnexpectedShape

  /** A count is None when the server sent anything but an integer. */
  datatype Usage = Usage(prompt: Option<int>, completion: Option<int>)

  datatype Event = Event(isError: bool, id: string, usage: Option<Usage>, choices: Choices)

  datatype Line =
    | InvalidUtf8
    | NotData
    | DoneMarker
    | MalformedJson
    | NonObjectEvent
    | Data(event: Event)

  datatype ProtocolError =
    | InvalidEncoding | DataAfterDone | Malformed | NonObject | ServerError | RequestIdChanged
    | BadChoicesShape | BadChoice | BadDelta | BadText
    | DoneCount | FinishCount | MissingRequestId | MissingUsage | BadFinishReason | EmptyAnswer

  const NO_USAGE := Usage(None, None)

  datatype Report = Report(
    errors: seq<ProtocolError>, doneEvents: nat, finishEvents: nat, requestId: string,
    usage: Usage, finishReason: string, content: string)

  // ---------------------------------------------------------------------------
  // The whole-trace predicate
  // ---------------------------------------------------------------------------

  predicate WellShaped(c: Choices) {
    match c
    case NoChoice => true
    case OneChoice(Choice(_, Delta(Text(_), Text(_)))) => true
    case _ => false
  }

  /** No error event, at most one choice, and text where text belongs. */
  predicate GoodEvent(e: Event) {
    !e.isError && WellShaped(e.choices)
  }

  predicate GoodLine(line: Line) {
    line.NotData? || line.DoneMarker? || (line.Data? && GoodEvent(line.event))
  }

  predicate IsData(line: Line) {
    line.MalformedJson? || line.NonObjectEvent? || line.Data?
  }

  ghost predicate GoodTrace(lines: seq<Line>) {
    && (forall i :: 0 <= i < |lines| ==> GoodLine(lines[i]))
    && (forall i, j :: 0 <= i < j < |lines| && lines[i].DoneMarker? ==> !IsData(lines[j]))
    && OneId(lines)
  }

  /** All request ids in the trace are equal. */
  ghost predicate OneId(lines: seq<Line>) {
    forall i, j :: 0 <= i < j < |lines| && HasId(lines[i]) && HasId(lines[j]) ==>
      lines[i].event.id == lines[j].event.id
  }

  predicate HasId(line: Line) {
    line.Data? && line.event.id != ""
  }

  function DoneCount(lines: seq<Line>): nat {
    if lines == [] then 0
    else DoneCount(lines[..|lines| - 1]) + if lines[|lines| - 1].DoneMarker? then 1 else 0
  }

  function FinishIn(c: Choices): seq<string> {
    match c
    case OneChoice(Choice(finish, _)) => if finish != "" then [finish] else []
    case _ => []
  }

  function FinishOf(line: Line): seq<string> {
    if line.Data? then FinishIn(line.event.choices) else []
  }

  /** Every finish reason, in order. */
  function Finishes(lines: seq<Line>): seq<string> {
    if lines == [] then []
    else Finishes(lines[..|lines| - 1]) + FinishOf(lines[|lines| - 1])
  }

  function ContentIn(c: Choices): string {
    match c
    case OneChoice(Choice(_, Delta(Text(s), Text(_)))) => s
    case _ => ""
  }

  function ContentOf(line: Line): string {
    if line.Data? then ContentIn(line.event.choices) else ""
  }

  /** The visible text. */
  function Contents(lines: seq<Line>): string {
    if lines == [] then ""
    else Contents(lines[..|lines| - 1]) + ContentOf(lines[|lines| - 1])
  }

  /** The last usage report. */
  function LastUsage(lines: seq<Line>): Usage {
    if lines == [] then NO_USAGE
    else
      var last := lines[|lines| - 1];
      if last.Data? && last.event.usage.Some? then last.event.usage.value
      else LastUsage(lines[..|lines| - 1])
  }

  predicate Positive(n: Option<int>) {
    n.Some? && n.value > 0
  }

  ghost predicate ValidTrace(lines: seq<Line>) {
    && GoodTrace(lines)
    && DoneCount(lines) == 1
    && |Finishes(lines)| == 1 && Finishes(lines)[0] in {"stop", "length"}
    && (exists i :: 0 <= i < |lines| && HasId(lines[i]))
    && Positive(LastUsage(lines).prompt) && Positive(LastUsage(lines).completion)
    && !Blank(Contents(lines))
  }

  // ---------------------------------------------------------------------------
  // What a valid trace is, line by line
  // ---------------------------------------------------------------------------

  /** A line that breaks no rule by itself. */
  ghost predicate Acceptable(line: Line) {
    match line
    case NotData => true
    case DoneMarker => true
    case Data(event) =>
      && !event.isError
      && (event.choices == NoChoice
          || (&& event.choices.OneChoice? && event.choices.choice.Choice?
              && event.choices.choice.delta.Delta?
              && event.choices.choice.delta.content.Text?
              && event.choices.choice.delta.reasoning.Text?))
    case _ => false
  }

  /** The line gives this visible text. */
  ghost predicate Says(line: Line, content: string) {
    && line.Data? && line.event.choices.OneChoice? && line.event.choices.choice.Choice?
    && line.event.choices.choice.delta.Delta?
    && line.event.choices.choice.delta.content == Text(content)
    && line.event.choices.choice.delta.reasoning.Text?
  }

  /** The line gives this finish reason. */
  ghost predicate Ends(line: Line, finish: string) {
    && line.Data? && line.event.choices.OneChoice? && line.event.choices.choice.Choice?
    && line.event.choices.choice.finish == finish != ""
  }

  ghost predicate Counts(line: Line) {
    line.Data? && line.event.usage.Some?
  }

  ghost predicate OneDone(lines: seq<Line>) {
    exists k :: 0 <= k < |lines| && lines[k].DoneMarker?
      && forall j :: 0 <= j < |lines| && lines[j].DoneMarker? ==> j == k
  }

  /** Only this line gives a finish reason. */
  ghost predicate OnlyEnd(lines: seq<Line>, k: nat, finish: string) {
    k < |lines| && Ends(lines[k], finish) && forall j :: 0 <= j < |lines| && j != k ==> !Finishing(lines[j])
  }

  ghost predicate Finishing(line: Line) {
    exists finish :: Ends(line, finish)
  }

  /** The last counts are positive. */
  ghost predicate CountsArePositive(lines: seq<Line>) {
    exists k :: 0 <= k < |lines| && Counts(lines[k]) && (forall j :: k < j < |lines| ==> !Counts(lines[j]))
      && var usage := lines[k].event.usage.value;
         usage.prompt.Some? && usage.prompt.value > 0 && usage.completion.Some? && usage.completion.value > 0
  }

  /** The line says something visible. */
  ghost predicate Shows(line: Line) {
    exists content, i :: Says(line, content) && 0 <= i < |content| && !IsSpace(content[i])
  }

  ghost predicate SomethingVisible(lines: seq<Line>) {
    exists k :: 0 <= k < |lines| && Shows(lines[k])
  }

  ghost predicate NothingBehindTheEnd(lines: seq<Line>) {
    forall i, j :: 0 <= i < j < |lines| && lines[i].DoneMarker? ==> lines[j].NotData? || lines[j].DoneMarker?
  }

  /** Some event has an id, and all events that have one have the same. */
  ghost predicate SameIdThroughout(lines: seq<Line>) {
    exists i :: 0 <= i < |lines| && lines[i].Data? && lines[i].event.id != ""
      && forall j :: 0 <= j < |lines| && lines[j].Data? && lines[j].event.id != "" ==>
           lines[j].event.id == lines[i].event.id
  }

  ghost predicate EndsOnce(lines: seq<Line>) {
    (exists k: nat :: OnlyEnd(lines, k, "stop")) || (exists k: nat :: OnlyEnd(lines, k, "length"))
  }

  /**
   Decodable lines without errors and with text where text belongs; one end, with no data behind
   it; one finish reason, stop or length; one request id; last counts that are positive; and
   something visible.
   */
  ghost predicate ProtocolHolds(lines: seq<Line>) {
    && (forall i :: 0 <= i < |lines| ==> Acceptable(lines[i]))
    && OneDone(lines) && NothingBehindTheEnd(lines) && EndsOnce(lines) && SameIdThroughout(lines)
    && CountsArePositive(lines) && SomethingVisible(lines)
  }

  lemma {:induction false} NoDoneSoFar(lines: seq<Line>)
    ensures DoneCount(lines) == 0 <==> forall i :: 0 <= i < |lines| ==> !lines[i].DoneMarker?
  {
    if lines != [] {
      var n := |lines| - 1;
      NoDoneSoFar(lines[..n]);
      assert forall i :: 0 <= i < n ==> lines[..n][i] == lines[i];
    }
  }

  lemma {:induction false} DoneIsCounted(lines: seq<Line>)
    ensures DoneCount(lines) == 1 <==> OneDone(lines)
  {
    if lines != [] {
      var n := |lines| - 1;
      var front := lines[..n];
      DoneIsCounted(front);
      NoDoneSoFar(front);
      assert forall i :: 0 <= i < n ==> front[i] == lines[i];
      if !lines[n].DoneMarker? && OneDone(front) {
        var k :| 0 <= k < n && front[k].DoneMarker? && forall j :: 0 <= j < n && front[j].DoneMarker? ==> j == k;
        assert lines[k].DoneMarker?;
      }
    }
  }

  lemma FinishesOf(line: Line)
    ensures |FinishOf(line)| <= 1 && (FinishOf(line) == [] <==> !Finishing(line))
    ensures forall finish :: FinishOf(line) == [finish] <==> Ends(line, finish)
  {
    if FinishOf(line) != [] { assert Ends(line, FinishOf(line)[0]); }
  }

  lemma {:induction false} NoFinishSoFar(lines: seq<Line>)
    ensures Finishes(lines) == [] <==> forall i :: 0 <= i < |lines| ==> !Finishing(lines[i])
  {
    if lines != [] {
      var n := |lines| - 1;
      NoFinishSoFar(lines[..n]);
      FinishesOf(lines[n]);
      assert forall i :: 0 <= i < n ==> lines[..n][i] == lines[i];
    }
  }

  lemma {:induction false} FinishIsRead(lines: seq<Line>, finish: string)
    ensures Finishes(lines) == [finish] <==> exists k: nat :: OnlyEnd(lines, k, finish)
  {
    if lines != [] {
      var n := |lines| - 1;
      FinishIsRead(lines[..n], finish);
      NoFinishSoFar(lines[..n]);
      FinishesOf(lines[n]);
      OneOfTwo(Finishes(lines[..n]), FinishOf(lines[n]), finish);
      OneMoreEnd(lines, finish);
    }
  }

  lemma OneOfTwo<T>(a: seq<T>, b: seq<T>, x: T)
    requires |b| <= 1
    ensures a + b == [x] <==> (a == [] && b == [x]) || (a == [x] && b == [])
  {
    if a + b == [x] { assert |a| + |b| == 1 && (a + b)[0] == x; }
  }

  lemma OneMoreEnd(lines: seq<Line>, finish: string)
    requires lines != []
    ensures var n := |lines| - 1;
      (exists k: nat :: OnlyEnd(lines, k, finish)) <==>
        || ((exists k: nat :: OnlyEnd(lines[..n], k, finish)) && !Finishing(lines[n]))
        || (Ends(lines[n], finish) && forall i :: 0 <= i < n ==> !Finishing(lines[..n][i]))
  {
    var n := |lines| - 1;
    assert forall i :: 0 <= i < n ==> lines[..n][i] == lines[i];
    if k: nat :| OnlyEnd(lines, k, finish) {
      if k < n { assert OnlyEnd(lines[..n], k, finish); }
    }
    if (exists k: nat :: OnlyEnd(lines[..n], k, finish)) && !Finishing(lines[n]) {
      var k: nat :| OnlyEnd(lines[..n], k, finish);
      assert OnlyEnd(lines, k, finish);
    }
    if Ends(lines[n], finish) && forall i :: 0 <= i < n ==> !Finishing(lines[..n][i]) {
      assert OnlyEnd(lines, n, finish);
    }
  }

  lemma {:induction false} UsageIsLast(lines: seq<Line>)
    ensures Positive(LastUsage(lines).prompt) && Positive(LastUsage(lines).completion)
      <==> CountsArePositive(lines)
  {
    if lines != [] {
      var n := |lines| - 1;
      UsageIsLast(lines[..n]);
      assert forall i :: 0 <= i < n ==> lines[..n][i] == lines[i];
    }
  }

  lemma VisibleParts(a: string, b: string)
    ensures Blank(a + b) <==> Blank(a) && Blank(b)
  {
    assert forall i :: 0 <= i < |a| ==> (a + b)[i] == a[i];
    assert forall i :: 0 <= i < |b| ==> (a + b)[|a| + i] == b[i];
  }

  lemma ContentIsSaid(line: Line)
    ensures (forall content :: Says(line, content) ==> ContentOf(line) == content)
    ensures ContentOf(line) != "" ==> Says(line, ContentOf(line))
  {
  }

  lemma ShownIsSaid(line: Line)
    ensures Shows(line) <==> !Blank(ContentOf(line))
  {
    ContentIsSaid(line);
    if !Blank(ContentOf(line)) {
      var i :| 0 <= i < |ContentOf(line)| && !IsSpace(ContentOf(line)[i]);
      assert Says(line, ContentOf(line));
    }
  }

  lemma OneMoreShown(lines: seq<Line>)
    requires lines != []
    ensures SomethingVisible(lines) <==>
      SomethingVisible(lines[..|lines| - 1]) || Shows(lines[|lines| - 1])
  {
    var n := |lines| - 1;
    if k :| 0 <= k < n && Shows(lines[..n][k]) { assert Shows(lines[k]); }
    if k :| 0 <= k < |lines| && Shows(lines[k]) {
      if k < n { assert Shows(lines[..n][k]); }
    }
  }

  lemma {:induction false} VisibleTextIsRead(lines: seq<Line>)
    ensures !Blank(Contents(lines)) <==> SomethingVisible(lines)
  {
    if lines != [] {
      var n := |lines| - 1;
      VisibleTextIsRead(lines[..n]);
      OneMoreShown(lines);
      ShownIsSaid(lines[n]);
      VisibleParts(Contents(lines[..n]), ContentOf(lines[n]));
    }
  }

  /** The visible text, and the finish reasons, are read line by line, in order. */
  lemma {:induction false} ReadInOrder(a: seq<Line>, b: seq<Line>)
    ensures Contents(a + b) == Contents(a) + Contents(b)
    ensures Finishes(a + b) == Finishes(a) + Finishes(b)
    decreases |b|
  {
    if b == [] {
      assert a + b == a;
    } else {
      var n := |b| - 1;
      assert (a + b)[..|a + b| - 1] == a + b[..n];
      ReadInOrder(a, b[..n]);
      Regroup(Contents(a), Contents(b[..n]), ContentOf(b[n]));
      Regroup(Finishes(a), Finishes(b[..n]), FinishOf(b[n]));
    }
  }

  lemma GoodTracesAreAcceptable(lines: seq<Line>)
    ensures GoodTrace(lines) <==>
      && (forall i :: 0 <= i < |lines| ==> Acceptable(lines[i]))
      && NothingBehindTheEnd(lines) && OneId(lines)
  {
    assert forall i :: 0 <= i < |lines| ==> (GoodLine(lines[i]) <==> Acceptable(lines[i]));
  }

  lemma IdsAreOne(lines: seq<Line>)
    ensures OneId(lines) && (exists i :: 0 <= i < |lines| && HasId(lines[i])) <==> SameIdThroughout(lines)
  {
    if OneId(lines) {
      if i :| 0 <= i < |lines| && HasId(lines[i]) {
        assert forall j :: 0 <= j < |lines| && HasId(lines[j]) ==> lines[j].event.id == lines[i].event.id;
      }
    }
  }

  lemma OneFinish(lines: seq<Line>)
    ensures |Finishes(lines)| == 1 && Finishes(lines)[0] in {"stop", "length"} <==> EndsOnce(lines)
  {
    FinishIsRead(lines, "stop");
    FinishIsRead(lines, "length");
    OneOf(Finishes(lines), "stop", "length");
  }

  lemma OneOf<T>(s: seq<T>, a: T, b: T)
    ensures |s| == 1 && s[0] in {a, b} <==> s == [a] || s == [b]
  {
  }

  /** The predicate that the checker decides, in terms of single lines. */
  lemma ValidTracesFollowTheProtocol(lines: seq<Line>)
    ensures ValidTrace(lines) <==> ProtocolHolds(lines)
  {
    GoodTracesAreAcceptable(lines);
    DoneIsCounted(lines);
    OneFinish(lines);
    IdsAreOne(lines);
    UsageIsLast(lines);
    VisibleTextIsRead(lines);
  }

  // ---------------------------------------------------------------------------
  // The one-pass checker
  // ---------------------------------------------------------------------------

  const START := Report([], 0, 0, "", NO_USAGE, "", "")

  /** Takes one event into account. */
  method CheckEvent(r: Report, e: Event) returns (t: Report)
    ensures t.doneEvents == r.doneEvents
    ensures t.requestId == if r.requestId != "" then r.requestId else e.id
    ensures t.usage == if e.usage.Some? then e.usage.value else r.usage
    ensures t.errors == [] <==>
      r.errors == [] && GoodEvent(e) && (e.id != "" && r.requestId != "" ==> e.id == r.requestId)
    ensures t.finishEvents == r.finishEvents + |FinishOf(Data(e))|
    ensures t.finishReason == if FinishOf(Data(e)) == [] then r.finishReason else FinishOf(Data(e))[0]
    ensures t.content == r.content + ContentOf(Data(e))
  {
    t := r;
    if e.isError {
      t := t.(errors := t.errors + [ServerError]);
    }
    if e.id != "" {
      if t.requestId != "" && t.requestId != e.id {
        t := t.(errors := t.errors + [RequestIdChanged]);
      }
      if t.requestId == "" {
        t := t.(requestId := e.id);
      }
    }
    if e.usage.Some? {
      t := t.(usage := e.usage.value);
    }
    t := CheckChoices(t, e.choices);
  }

  method CheckChoices(r: Report, choices: Choices) returns (t: Report)
    ensures t == r.(
      errors := t.errors, finishEvents := t.finishEvents, finishReason := t.finishReason,
      content := t.content)
    ensures t.errors == [] <==> r.errors == [] && WellShaped(choices)
    ensures t.finishEvents == r.finishEvents + |FinishIn(choices)|
    ensures t.finishReason == if FinishIn(choices) == [] then r.finishReason else FinishIn(choices)[0]
    ensures t.content == r.content + ContentIn(choices)
  {
    t := r;
    match choices {
      case UnexpectedShape =>
        t := t.(errors := t.errors + [BadChoicesShape]);
      case NoChoice =>
      case OneChoice(NonObjectChoice) =>
        t := t.(errors := t.errors + [BadChoice]);
      case OneChoice(Choice(finish, delta)) =>
        if finish != "" {
          t := t.(finishEvents := t.finishEvents + 1, finishReason := finish);
        }
        match delta {
          case NonObjectDelta =>
            t := t.(errors := t.errors + [BadDelta]);
          case Delta(Text(content), Text(_)) =>
            t := t.(content := t.content + content);
          case Delta(_, _) =>
            t := t.(errors := t.errors + [BadText]);
        }
    }
  }

  /** What the report knows about the lines read so far. */
  ghost predicate Knows(r: Report, lines: seq<Line>) {
    (r.errors == [] <==> GoodTrace(lines)) && Counted(r, lines) && FirstIdIs(r.requestId, lines)
  }

  ghost predicate Counted(r: Report, lines: seq<Line>) {
    && r.doneEvents == DoneCount(lines)
    && r.finishEvents == |Finishes(lines)|
    && r.finishReason == (if Finishes(lines) == [] then "" else Finishes(lines)[|Finishes(lines)| - 1])
    && r.usage == LastUsage(lines)
    && r.content == Contents(lines)
  }

  /** `id` is an id of the trace, or "" if the trace has none. */
  ghost predicate FirstIdIs(id: string, lines: seq<Line>) {
    if id == "" then forall i :: 0 <= i < |lines| ==> !HasId(lines[i])
    else exists i :: 0 <= i < |lines| && HasId(lines[i]) && lines[i].event.id == id
  }

  /** When one more line keeps a good trace good. */
  lemma OneMoreLine(lines: seq<Line>, line: Line, id: string)
    requires FirstIdIs(id, lines)
    ensures GoodTrace(lines + [line]) <==>
      && GoodTrace(lines) && GoodLine(line)
      && (IsData(line) ==> DoneCount(lines) == 0)
      && (HasId(line) && id != "" ==> line.event.id == id)
  {
    var n, all := |lines|, lines + [line];
    NoDoneSoFar(lines);
    assert forall i :: 0 <= i < n ==> all[i] == lines[i];
    assert all[n] == line;
    if GoodTrace(all) {
      assert forall i :: 0 <= i < n ==> GoodLine(all[i]);
      if IsData(line) {
        assert forall i :: 0 <= i < n ==> !all[i].DoneMarker?;
      }
    }
  }

  method CheckStream(lines: seq<Line>) returns (valid: bool, report: Report)
    ensures valid <==> ValidTrace(lines)
    ensures valid <==> report.errors == []
    ensures report.doneEvents == DoneCount(lines) && report.finishEvents == |Finishes(lines)|
    ensures report.content == Contents(lines) && report.usage == LastUsage(lines)
  {
    report := START;
    for i := 0 to |lines|
      invariant Knows(report, lines[..i])
    {
      var next := CheckLine(report, lines[i]);
      StepKeepsKnowledge(report, lines[..i], lines[i], next);
      assert lines[..i + 1] == lines[..i] + [lines[i]];
      report := next;
    }
    assert lines[..|lines|] == lines;
    var errors := FinalErrors(report);
    report := report.(errors := errors);
    valid := errors == [];
  }

  /** The checks that need the whole stream. */
  method FinalErrors(r: Report) returns (errors: seq<ProtocolError>)
    ensures errors == [] <==>
      && r.errors == [] && r.doneEvents == 1 && r.finishEvents == 1 && r.requestId != ""
      && Positive(r.usage.prompt) && Positive(r.usage.completion)
      && r.finishReason in {"stop", "length"} && !Blank(r.content)
  {
    errors := r.errors;
    if r.doneEvents != 1 {
      errors := errors + [ProtocolError.DoneCount];
    }
    if r.finishEvents != 1 {
      errors := errors + [FinishCount];
    }
    if r.requestId == "" {
      errors := errors + [MissingRequestId];
    }
    if !Positive(r.usage.prompt) || !Positive(r.usage.completion) {
      errors := errors + [MissingUsage];
    }
    if r.finishReason !in {"stop", "length"} {
      errors := errors + [BadFinishReason];
    }
    if Blank(r.content) {
      errors := errors + [EmptyAnswer];
    }
  }

  /** How one line moves the report. */
  ghost predicate Steps(r: Report, line: Line, t: Report) {
    && (t.errors == [] <==>
          && r.errors == [] && GoodLine(line) && (IsData(line) ==> r.doneEvents == 0)
          && (HasId(line) && r.requestId != "" ==> line.event.id == r.requestId))
    && t.doneEvents == r.doneEvents + (if line.DoneMarker? then 1 else 0)
    && t.finishEvents == r.finishEvents + |FinishOf(line)|
    && t.finishReason == (if FinishOf(line) == [] then r.finishReason else FinishOf(line)[0])
    && t.content == r.content + ContentOf(line)
    && t.usage == (if line.Data? && line.event.usage.Some? then line.event.usage.value else r.usage)
    && t.requestId == (if r.requestId == "" && HasId(line) then line.event.id else r.requestId)
  }

  method CheckLine(r: Report, line: Line) returns (t: Report)
    ensures Steps(r, line, t)
  {
    t := r;
    match line {
      case InvalidUtf8 => t := t.(errors := t.errors + [InvalidEncoding]);
      case NotData =>
      case DoneMarker => t := t.(doneEvents := t.doneEvents + 1);
      case _ =>
        if t.doneEvents > 0 {
          t := t.(errors := t.errors + [DataAfterDone]);
        }
        match line {
          case MalformedJson => t := t.(errors := t.errors + [Malformed]);
          case NonObjectEvent => t := t.(errors := t.errors + [NonObject]);
          case Data(event) => t := CheckEvent(t, event);
        }
    }
  }

  lemma StepCounts(r: Report, lines: seq<Line>, line: Line, t: Report)
    requires Counted(r, lines) && Steps(r, line, t)
    ensures Counted(t, lines + [line])
  {
    var all := lines + [line];
    assert all[..|lines|] == lines && all[|lines|] == line;
    assert Finishes(all) == Finishes(lines) + FinishOf(line);
  }

  lemma StepKeepsId(r: Report, lines: seq<Line>, line: Line, t: Report)
    requires FirstIdIs(r.requestId, lines) && Steps(r, line, t)
    ensures FirstIdIs(t.requestId, lines + [line])
  {
    var all := lines + [line];
    assert all[|lines|] == line && forall i :: 0 <= i < |lines| ==> all[i] == lines[i];
    if r.requestId != "" {
      var k :| 0 <= k < |lines| && HasId(lines[k]) && lines[k].event.id == r.requestId;
      assert HasId(all[k]) && all[k].event.id == t.requestId;
    }
  }

  lemma StepKeepsKnowledge(r: Report, lines: seq<Line>, line: Line, t: Report)
    requires Knows(r, lines) && Steps(r, line, t)
    ensures Knows(t, lines + [line])
  {
    OneMoreLine(lines, line, r.requestId);
    StepCounts(r, lines, line, t);
    StepKeepsId(r, lines, line, t);
  }
}
