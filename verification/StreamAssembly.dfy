/**
 The streaming assembler of the chat dialect: it rebuilds one assistant message from the
 deltas of a server-sent event stream, where the pieces of several tool calls may interleave.
 An absent string and an empty one are both "" here, as the assembler treats them alike.
 */
module StreamAssembly {
  import opened Common
  import opened Sequences

  datatype CallDelta = CallDelta(index: int, id: string, name: string, arguments: string)

  datatype Choice = Choice(content: string, reasoning: string, calls: seq<CallDelta>, finish: string)

  datatype Usage = Usage(promptTokens: int, cachedTokens: int, completionTokens: int)

  datatype Event =
    | Unparseable(text: string)
    | ErrorEvent(message: string)
    | Chunk(usage: Option<Usage>, choices: seq<Choice>)

  datatype StreamError = UnparseableEvent(text: string) | ServerError(message: string) | IdChanged

  datatype Slot = Slot(id: string, name: string, arguments: string)

  const EMPTY_SLOT := Slot("", "", "")

  /** Slots in order of first appearance, and their indices. */
  datatype Slots = Slots(order: seq<int>, slots: map<int, Slot>)

  datatype State = State(
    content: string, reasoning: string, finishes: seq<string>, usage: Option<Usage>,
    errors: seq<StreamError>, calls: Slots)

  // ---------------------------------------------------------------------------
  // The assembler as a fold
  // ---------------------------------------------------------------------------

  function AddToSlot(slot: Slot, d: CallDelta): Slot {
    Slot(
      if d.id != "" then d.id else slot.id,
      if d.name != "" then d.name else slot.name,
      slot.arguments + d.arguments)
  }

  predicate ChangesId(slot: Slot, d: CallDelta) {
    d.id != "" && slot.id != "" && slot.id != d.id
  }

  function SlotAt(calls: Slots, index: int): Slot {
    if index in calls.slots then calls.slots[index] else EMPTY_SLOT
  }

  function PutCall(calls: Slots, d: CallDelta): Slots {
    Slots(
      if d.index in calls.slots then calls.order else calls.order + [d.index],
      calls.slots[d.index := AddToSlot(SlotAt(calls, d.index), d)])
  }

  function AddCall(s: State, d: CallDelta): State {
    s.(calls := PutCall(s.calls, d),
       errors := if ChangesId(SlotAt(s.calls, d.index), d) then s.errors + [IdChanged] else s.errors)
  }

  function AddCalls(s: State, ds: seq<CallDelta>): State {
    if ds == [] then s else AddCall(AddCalls(s, ds[..|ds| - 1]), ds[|ds| - 1])
  }

  function AddChoice(s: State, c: Choice): State {
    var t := AddCalls(s.(content := s.content + c.content, reasoning := s.reasoning + c.reasoning), c.calls);
    t.(finishes := if c.finish != "" then t.finishes + [c.finish] else t.finishes)
  }

  function AddChoices(s: State, cs: seq<Choice>): State {
    if cs == [] then s else AddChoice(AddChoices(s, cs[..|cs| - 1]), cs[|cs| - 1])
  }

  function AddEvent(s: State, e: Event): State {
    match e
    case Unparseable(text) => s.(errors := s.errors + [UnparseableEvent(text)])
    case ErrorEvent(message) => s.(errors := s.errors + [ServerError(message)])
    case Chunk(usage, choices) =>
      AddChoices(if usage.Some? then s.(usage := usage) else s, choices)
  }

  function Start(): State {
    State("", "", [], None, [], Slots([], map[]))
  }

  function AssembleAll(events: seq<Event>): State {
    if events == [] then Start()
    else AddEvent(AssembleAll(events[..|events| - 1]), events[|events| - 1])
  }

  /** The assembled calls, in order of first appearance. */
  function Calls(s: Slots): seq<Slot> {
    seq(|s.order|, i requires 0 <= i < |s.order| => SlotAt(s, s.order[i]))
  }

  method Assemble(events: seq<Event>) returns (s: State, calls: seq<Slot>)
    ensures s == AssembleAll(events) && calls == Calls(s.calls)
  {
    s := Start();
    for i := 0 to |events|
      invariant s == AssembleAll(events[..i])
    {
      assert events[..i + 1][..i] == events[..i];
      match events[i] {
        case Unparseable(text) => s := s.(errors := s.errors + [UnparseableEvent(text)]);
        case ErrorEvent(message) => s := s.(errors := s.errors + [ServerError(message)]);
        case Chunk(usage, choices) =>
          if usage.Some? {
            s := s.(usage := usage);
          }
          s := AssembleChoices(s, choices);
      }
    }
    assert events[..|events|] == events;
    calls := Calls(s.calls);
  }

  method AssembleChoices(start: State, choices: seq<Choice>) returns (s: State)
    ensures s == AddChoices(start, choices)
  {
    s := start;
    for i := 0 to |choices|
      invariant s == AddChoices(start, choices[..i])
    {
      assert choices[..i + 1][..i] == choices[..i];
      s := AssembleChoice(s, choices[i]);
    }
    assert choices[..|choices|] == choices;
  }

  method AssembleChoice(start: State, c: Choice) returns (s: State)
    ensures s == AddChoice(start, c)
  {
    s := start;
    if c.content != "" {
      s := s.(content := s.content + c.content);
    }
    if c.reasoning != "" {
      s := s.(reasoning := s.reasoning + c.reasoning);
    }
    assert s == start.(content := start.content + c.content,
                       reasoning := start.reasoning + c.reasoning);
    s := AssembleCalls(s, c.calls);
    if c.finish != "" {
      s := s.(finishes := s.finishes + [c.finish]);
    }
  }

  method AssembleCalls(start: State, calls: seq<CallDelta>) returns (s: State)
    ensures s == AddCalls(start, calls)
  {
    s := start;
    for i := 0 to |calls|
      invariant s == AddCalls(start, calls[..i])
    {
      assert calls[..i + 1][..i] == calls[..i];
      var d := calls[i];
      var slots, order, errors := s.calls.slots, s.calls.order, s.errors;
      if d.index !in slots {
        slots, order := slots[d.index := EMPTY_SLOT], order + [d.index];
      }
      var slot := slots[d.index];
      if d.id != "" {
        if slot.id != "" && slot.id != d.id {
          errors := errors + [IdChanged];
        }
        slot := slot.(id := d.id);
      }
      if d.name != "" {
        slot := slot.(name := d.name);
      }
      if d.arguments != "" {
        slot := slot.(arguments := slot.arguments + d.arguments);
      }
      assert slot == AddToSlot(SlotAt(s.calls, d.index), d);
      assert slots[d.index := slot] == s.calls.slots[d.index := slot];
      s := s.(calls := Slots(order, slots[d.index := slot]), errors := errors);
    }
    assert calls[..|calls|] == calls;
  }

  // ---------------------------------------------------------------------------
  // What a stream says, read off as a whole
  // ---------------------------------------------------------------------------

  function ChoicesOf(e: Event): seq<Choice> {
    if e.Chunk? then e.choices else []
  }

  function AllChoices(events: seq<Event>): seq<Choice> {
    if events == [] then []
    else AllChoices(events[..|events| - 1]) + ChoicesOf(events[|events| - 1])
  }

  function Contents(cs: seq<Choice>): string {
    if cs == [] then "" else Contents(cs[..|cs| - 1]) + cs[|cs| - 1].content
  }

  function Reasonings(cs: seq<Choice>): string {
    if cs == [] then "" else Reasonings(cs[..|cs| - 1]) + cs[|cs| - 1].reasoning
  }

  function Deltas(cs: seq<Choice>): seq<CallDelta> {
    if cs == [] then [] else Deltas(cs[..|cs| - 1]) + cs[|cs| - 1].calls
  }

  predicate Undamaged(events: seq<Event>) {
    forall i :: 0 <= i < |events| ==> events[i].Chunk?
  }

  /** The deltas of one call, in their own order. */
  function Project(ds: seq<CallDelta>, index: int): seq<CallDelta> {
    if ds == [] then []
    else
      var last := ds[|ds| - 1];
      Project(ds[..|ds| - 1], index) + if last.index == index then [last] else []
  }

  function FoldSlot(ds: seq<CallDelta>): Slot {
    if ds == [] then EMPTY_SLOT else AddToSlot(FoldSlot(ds[..|ds| - 1]), ds[|ds| - 1])
  }

  predicate KeepsId(ds: seq<CallDelta>) {
    ds == [] ||
    (KeepsId(ds[..|ds| - 1]) && !ChangesId(FoldSlot(ds[..|ds| - 1]), ds[|ds| - 1]))
  }

  /** The indices in order of first appearance. */
  function FirstSeen(ds: seq<CallDelta>): seq<int> {
    if ds == [] then []
    else
      var before, index := FirstSeen(ds[..|ds| - 1]), ds[|ds| - 1].index;
      if index in before then before else before + [index]
  }

  /** The slots hold, for every index, the fold of that index's own deltas. */
  ghost predicate Holds(calls: Slots, ds: seq<CallDelta>) {
    && calls.order == FirstSeen(ds)
    && (forall k :: k in calls.slots <==> k in FirstSeen(ds))
    && (forall k :: SlotAt(calls, k) == FoldSlot(Project(ds, k)))
  }

  ghost predicate AllKeepIds(ds: seq<CallDelta>) {
    forall k :: KeepsId(Project(ds, k))
  }

  // ---------------------------------------------------------------------------
  // The fold holds exactly what the stream says
  // ---------------------------------------------------------------------------

  lemma SplitLast<T>(a: seq<T>, b: seq<T>)
    requires b != []
    ensures a + b == a + b[..|b| - 1] + [b[|b| - 1]]
  {
  }

  lemma ProjectLast(ds: seq<CallDelta>, d: CallDelta)
    ensures (ds + [d])[..|ds|] == ds && (ds + [d])[|ds|] == d
    ensures FirstSeen(ds + [d]) ==
      if d.index in FirstSeen(ds) then FirstSeen(ds) else FirstSeen(ds) + [d.index]
    ensures forall k :: Project(ds + [d], k) == Project(ds, k) + if d.index == k then [d] else []
  {
    assert (ds + [d])[..|ds|] == ds;
  }

  /** The slots are right, and the stream is free of errors exactly when it should be. */
  ghost predicate Tracks(s: State, ds: seq<CallDelta>, undamaged: bool) {
    Holds(s.calls, ds) && (s.errors == [] <==> undamaged && AllKeepIds(ds))
  }

  lemma AddCallHolds(calls: Slots, ds: seq<CallDelta>, d: CallDelta)
    requires Holds(calls, ds)
    ensures Holds(PutCall(calls, d), ds + [d])
  {
    ProjectLast(ds, d);
    var own := Project(ds, d.index);
    assert (own + [d])[..|own|] == own;
    forall k ensures SlotAt(PutCall(calls, d), k) == FoldSlot(Project(ds + [d], k)) {
      if k == d.index {
        assert FoldSlot(own + [d]) == AddToSlot(FoldSlot(own), d);
      } else {
        assert Project(ds + [d], k) == Project(ds, k);
      }
    }
  }

  lemma AddCallKeepsIds(ds: seq<CallDelta>, d: CallDelta)
    ensures AllKeepIds(ds + [d])
      <==> AllKeepIds(ds) && !ChangesId(FoldSlot(Project(ds, d.index)), d)
  {
    ProjectLast(ds, d);
    var own := Project(ds, d.index);
    assert (own + [d])[..|own|] == own;
    assert Project(ds + [d], d.index) == own + [d];
    assert KeepsId(own + [d]) <==> KeepsId(own) && !ChangesId(FoldSlot(own), d);
    forall k | k != d.index ensures Project(ds + [d], k) == Project(ds, k) {}
    if AllKeepIds(ds + [d]) {
      forall k ensures KeepsId(Project(ds, k)) {
        assert KeepsId(Project(ds + [d], k));
      }
    }
  }

  lemma AddCallTracks(s: State, ds: seq<CallDelta>, undamaged: bool, d: CallDelta)
    requires Tracks(s, ds, undamaged)
    ensures Tracks(AddCall(s, d), ds + [d], undamaged)
  {
    AddCallHolds(s.calls, ds, d);
    AddCallKeepsIds(ds, d);
    assert SlotAt(s.calls, d.index) == FoldSlot(Project(ds, d.index));
  }

  lemma {:induction false} AddCallsTracks(
    s: State, before: seq<CallDelta>, undamaged: bool, ds: seq<CallDelta>)
    requires Tracks(s, before, undamaged)
    ensures Tracks(AddCalls(s, ds), before + ds, undamaged)
  {
    if ds == [] {
      assert before + ds == before;
    } else {
      var n := |ds| - 1;
      AddCallsTracks(s, before, undamaged, ds[..n]);
      AddCallTracks(AddCalls(s, ds[..n]), before + ds[..n], undamaged, ds[n]);
      SplitLast(before, ds);
    }
  }

  lemma {:induction false} AddCallsFrame(s: State, ds: seq<CallDelta>)
    ensures var t := AddCalls(s, ds);
      t == s.(calls := t.calls, errors := t.errors)
  {
    if ds != [] { AddCallsFrame(s, ds[..|ds| - 1]); }
  }

  /** The state says what `cs` say, for a stream that is damaged or not. */
  ghost predicate Says(s: State, cs: seq<Choice>, undamaged: bool) {
    s.content == Contents(cs) && s.reasoning == Reasonings(cs) && Tracks(s, Deltas(cs), undamaged)
  }

  lemma ChoicesLast(cs: seq<Choice>, c: Choice)
    ensures Contents(cs + [c]) == Contents(cs) + c.content
    ensures Reasonings(cs + [c]) == Reasonings(cs) + c.reasoning
    ensures Deltas(cs + [c]) == Deltas(cs) + c.calls
  {
    assert (cs + [c])[..|cs|] == cs;
  }

  lemma AddChoiceSays(s: State, cs: seq<Choice>, undamaged: bool, c: Choice)
    requires Says(s, cs, undamaged)
    ensures Says(AddChoice(s, c), cs + [c], undamaged)
  {
    ChoicesLast(cs, c);
    var t := s.(content := s.content + c.content, reasoning := s.reasoning + c.reasoning);
    AddCallsFrame(t, c.calls);
    AddCallsTracks(t, Deltas(cs), undamaged, c.calls);
  }

  lemma {:induction false} AddChoicesSays(
    s: State, before: seq<Choice>, undamaged: bool, cs: seq<Choice>)
    requires Says(s, before, undamaged)
    ensures Says(AddChoices(s, cs), before + cs, undamaged)
  {
    if cs == [] {
      assert before + cs == before;
    } else {
      var n := |cs| - 1;
      AddChoicesSays(s, before, undamaged, cs[..n]);
      AddChoiceSays(AddChoices(s, cs[..n]), before + cs[..n], undamaged, cs[n]);
      SplitLast(before, cs);
    }
  }

  /**
   The assembled message, for every stream: the text and the reasoning are the
   concatenated pieces, each call is rebuilt from its own deltas alone, calls come in order of
   first appearance, and there is an error exactly when an event was damaged or a call
   changed its id.
   */
  lemma {:induction false} AssemblyReadsTheStream(events: seq<Event>)
    ensures Says(AssembleAll(events), AllChoices(events), Undamaged(events))
  {
    if events == [] {
      assert forall k :: Project([], k) == [];
    } else {
      var n := |events| - 1;
      AssemblyReadsTheStream(events[..n]);
      AddEventSays(AssembleAll(events[..n]), AllChoices(events[..n]), Undamaged(events[..n]), events[n]);
      UndamagedLast(events);
    }
  }

  lemma UndamagedLast(events: seq<Event>)
    requires events != []
    ensures Undamaged(events) <==> Undamaged(events[..|events| - 1]) && events[|events| - 1].Chunk?
  {
  }

  lemma AddEventSays(s: State, cs: seq<Choice>, undamaged: bool, e: Event)
    requires Says(s, cs, undamaged)
    ensures Says(AddEvent(s, e), cs + ChoicesOf(e), undamaged && e.Chunk?)
  {
    if e.Chunk? {
      AddChoicesSays(if e.usage.Some? then s.(usage := e.usage) else s, cs, undamaged, e.choices);
    } else {
      assert cs + ChoicesOf(e) == cs;
    }
  }

  // ---------------------------------------------------------------------------
  // Slots, usage, finish reasons and errors, read off the stream
  // ---------------------------------------------------------------------------

  /** `text` is the last of the texts that is not empty, or empty if all are. */
  ghost predicate IsLastText(text: string, texts: seq<string>) {
    if text == "" then forall i :: 0 <= i < |texts| ==> texts[i] == ""
    else exists i :: 0 <= i < |texts| && texts[i] == text && forall j :: i < j < |texts| ==> texts[j] == ""
  }

  lemma NextLastText(text: string, texts: seq<string>, next: string)
    requires IsLastText(text, texts)
    ensures IsLastText(if next != "" then next else text, texts + [next])
  {
    var all := texts + [next];
    if next != "" {
      assert all[|texts|] == next;
    } else if text != "" {
      var i :| 0 <= i < |texts| && texts[i] == text && forall j :: i < j < |texts| ==> texts[j] == "";
      assert all[i] == text;
    }
  }

  function Ids(ds: seq<CallDelta>): seq<string> {
    seq(|ds|, i requires 0 <= i < |ds| => ds[i].id)
  }

  function Names(ds: seq<CallDelta>): seq<string> {
    seq(|ds|, i requires 0 <= i < |ds| => ds[i].name)
  }

  function Arguments(ds: seq<CallDelta>): string {
    if ds == [] then "" else Arguments(ds[..|ds| - 1]) + ds[|ds| - 1].arguments
  }

  /** A call has the last id and the last name it was sent, and all its arguments in order. */
  lemma {:induction false} SlotIsReadOff(ds: seq<CallDelta>)
    ensures var slot := FoldSlot(ds);
      IsLastText(slot.id, Ids(ds)) && IsLastText(slot.name, Names(ds)) && slot.arguments == Arguments(ds)
  {
    if ds != [] {
      var n := |ds| - 1;
      var front := FoldSlot(ds[..n]);
      SlotIsReadOff(ds[..n]);
      NextLastText(front.id, Ids(ds[..n]), ds[n].id);
      NextLastText(front.name, Names(ds[..n]), ds[n].name);
      assert Ids(ds) == Ids(ds[..n]) + [ds[n].id] && Names(ds) == Names(ds[..n]) + [ds[n].name];
    }
  }

  /** The finish reasons that are not empty, in order. */
  function Finishes(cs: seq<Choice>): seq<string> {
    if cs == [] then []
    else
      var finish := cs[|cs| - 1].finish;
      Finishes(cs[..|cs| - 1]) + if finish == "" then [] else [finish]
  }

  lemma {:induction false} AddChoicesFrame(s: State, cs: seq<Choice>)
    ensures var t := AddChoices(s, cs);
      t.usage == s.usage && t.finishes == s.finishes + Finishes(cs)
  {
    if cs != [] {
      var n := |cs| - 1;
      AddChoicesFrame(s, cs[..n]);
      var t := AddChoices(s, cs[..n]);
      AddCallsFrame(
        t.(content := t.content + cs[n].content, reasoning := t.reasoning + cs[n].reasoning),
        cs[n].calls);
    }
  }

  /** The usage is that of the last chunk that carries one. */
  ghost predicate IsLastUsage(usage: Option<Usage>, events: seq<Event>) {
    match usage
    case None => forall i :: 0 <= i < |events| ==> !Reports(events[i])
    case Some(u) => exists i ::
      && 0 <= i < |events| && Reports(events[i]) && events[i].usage == Some(u)
      && forall j :: i < j < |events| ==> !Reports(events[j])
  }

  ghost predicate Reports(e: Event) {
    e.Chunk? && e.usage.Some?
  }

  lemma {:induction false} UsageAndFinishesAreRead(events: seq<Event>)
    ensures IsLastUsage(AssembleAll(events).usage, events)
    ensures AssembleAll(events).finishes == Finishes(AllChoices(events))
  {
    if events != [] {
      var n := |events| - 1;
      var s, e := AssembleAll(events[..n]), events[n];
      UsageAndFinishesAreRead(events[..n]);
      FinishesConcat(AllChoices(events[..n]), ChoicesOf(e));
      if e.Chunk? {
        AddChoicesFrame(if e.usage.Some? then s.(usage := e.usage) else s, e.choices);
      }
      NextUsage(s.usage, events);
    }
  }

  lemma NextUsage(usage: Option<Usage>, events: seq<Event>)
    requires events != [] && IsLastUsage(usage, events[..|events| - 1])
    ensures var last := events[|events| - 1];
      IsLastUsage(if last.Chunk? && last.usage.Some? then last.usage else usage, events)
  {
    var n := |events| - 1;
    if Reports(events[n]) {
      assert events[n].usage == Some(events[n].usage.value);
    } else {
      assert forall j :: 0 <= j < n ==> events[..n][j] == events[j];
      if usage.Some? {
        var i :| && 0 <= i < n && Reports(events[..n][i]) && events[..n][i].usage == usage
          && forall j :: i < j < n ==> !Reports(events[..n][j]);
        assert Reports(events[i]) && events[i].usage == Some(usage.value);
        assert forall j :: i < j < |events| ==> !Reports(events[j]);
      }
    }
  }

  lemma {:induction false} FinishesConcat(a: seq<Choice>, b: seq<Choice>)
    ensures Finishes(a + b) == Finishes(a) + Finishes(b)
  {
    if b == [] {
      assert a + b == a;
    } else {
      FinishesConcat(a, b[..|b| - 1]);
      assert (a + b)[..|a + b| - 1] == a + b[..|b| - 1];
    }
  }

  /** What of a stream may be an error: damaged events and deltas, in stream order. */
  datatype Signal = Damage(error: StreamError) | Sent(delta: CallDelta)

  function SentAll(ds: seq<CallDelta>): seq<Signal> {
    seq(|ds|, i requires 0 <= i < |ds| => Sent(ds[i]))
  }

  function Signals(events: seq<Event>): seq<Signal> {
    if events == [] then []
    else
      var last := events[|events| - 1];
      Signals(events[..|events| - 1]) + SignalsOf(last)
  }

  function DeltasIn(signals: seq<Signal>): seq<CallDelta> {
    if signals == [] then []
    else
      var last := signals[|signals| - 1];
      DeltasIn(signals[..|signals| - 1]) + if last.Sent? then [last.delta] else []
  }

  /** The delta names an id, and the last id that its call had before is another one. */
  ghost predicate IdChangesAt(before: seq<CallDelta>, d: CallDelta) {
    d.id != "" && exists i ::
      && 0 <= i < |before| && before[i].index == d.index && before[i].id != "" && before[i].id != d.id
      && forall j :: i < j < |before| && before[j].index == d.index ==> before[j].id == ""
  }

  ghost function ErrorsRead(signals: seq<Signal>): seq<StreamError> {
    if signals == [] then []
    else
      var front, last := signals[..|signals| - 1], signals[|signals| - 1];
      ErrorsRead(front) +
      match last
      case Damage(error) => [error]
      case Sent(d) => if IdChangesAt(DeltasIn(front), d) then [IdChanged] else []
  }

  lemma {:induction false} LastIdOfACall(ds: seq<CallDelta>, d: CallDelta)
    ensures ChangesId(FoldSlot(Project(ds, d.index)), d) <==> IdChangesAt(ds, d)
  {
    if ds != [] {
      var n := |ds| - 1;
      var own, last := Project(ds[..n], d.index), ds[n];
      LastIdOfACall(ds[..n], d);
      IdChangesLater(ds, d);
      if last.index == d.index {
        assert Project(ds, d.index) == own + [last];
        assert (own + [last])[..|own|] == own;
        assert FoldSlot(own + [last]).id == if last.id != "" then last.id else FoldSlot(own).id;
      } else {
        assert Project(ds, d.index) == own;
      }
    }
  }

  lemma IdChangesLater(ds: seq<CallDelta>, d: CallDelta)
    requires ds != []
    ensures var n := |ds| - 1;
      IdChangesAt(ds, d) <==>
        if ds[n].index == d.index && ds[n].id != "" then d.id != "" && ds[n].id != d.id
        else IdChangesAt(ds[..n], d)
  {
    var n := |ds| - 1;
    assert forall j :: 0 <= j < n ==> ds[..n][j] == ds[j];
    if IdChangesAt(ds[..n], d) {
      var i :| && 0 <= i < n && ds[..n][i].index == d.index && ds[..n][i].id != "" && ds[..n][i].id != d.id
        && forall j :: i < j < n && ds[..n][j].index == d.index ==> ds[..n][j].id == "";
      assert ds[i].index == d.index;
    }
    if IdChangesAt(ds, d) {
      var i :| && 0 <= i < |ds| && ds[i].index == d.index && ds[i].id != "" && ds[i].id != d.id
        && forall j :: i < j < |ds| && ds[j].index == d.index ==> ds[j].id == "";
      if i < n { assert ds[..n][i].index == d.index; }
    }
  }

  ghost predicate Reads(s: State, signals: seq<Signal>) {
    Holds(s.calls, DeltasIn(signals)) && s.errors == ErrorsRead(signals)
  }

  lemma AddCallReads(s: State, signals: seq<Signal>, d: CallDelta)
    requires Reads(s, signals)
    ensures Reads(AddCall(s, d), signals + [Sent(d)])
  {
    var ds := DeltasIn(signals);
    assert (signals + [Sent(d)])[..|signals|] == signals;
    assert DeltasIn(signals + [Sent(d)]) == ds + [d];
    AddCallHolds(s.calls, ds, d);
    LastIdOfACall(ds, d);
    assert SlotAt(s.calls, d.index) == FoldSlot(Project(ds, d.index));
  }

  lemma {:induction false} AddCallsReads(s: State, signals: seq<Signal>, ds: seq<CallDelta>)
    requires Reads(s, signals)
    ensures Reads(AddCalls(s, ds), signals + SentAll(ds))
  {
    if ds == [] {
      assert signals + SentAll(ds) == signals;
    } else {
      var n := |ds| - 1;
      AddCallsReads(s, signals, ds[..n]);
      AddCallReads(AddCalls(s, ds[..n]), signals + SentAll(ds[..n]), ds[n]);
      OneMoreSent(signals, ds);
    }
  }

  lemma OneMoreSent(signals: seq<Signal>, ds: seq<CallDelta>)
    requires ds != []
    ensures var n := |ds| - 1;
      signals + SentAll(ds) == signals + SentAll(ds[..n]) + [Sent(ds[n])]
  {
    var n := |ds| - 1;
    assert SentAll(ds) == SentAll(ds[..n]) + [Sent(ds[n])];
    Regroup(signals, SentAll(ds[..n]), [Sent(ds[n])]);
  }

  lemma AddChoiceReads(s: State, signals: seq<Signal>, c: Choice)
    requires Reads(s, signals)
    ensures Reads(AddChoice(s, c), signals + SentAll(c.calls))
  {
    var t := s.(content := s.content + c.content, reasoning := s.reasoning + c.reasoning);
    AddCallsReads(t, signals, c.calls);
  }

  lemma {:induction false} AddChoicesReads(s: State, signals: seq<Signal>, cs: seq<Choice>)
    requires Reads(s, signals)
    ensures Reads(AddChoices(s, cs), signals + SentAll(Deltas(cs)))
  {
    if cs == [] {
      assert signals + SentAll(Deltas(cs)) == signals;
    } else {
      var n := |cs| - 1;
      var front := signals + SentAll(Deltas(cs[..n]));
      AddChoicesReads(s, signals, cs[..n]);
      AddChoiceReads(AddChoices(s, cs[..n]), front, cs[n]);
      SentConcat(signals, Deltas(cs[..n]), cs[n].calls);
    }
  }

  lemma SentConcat(signals: seq<Signal>, a: seq<CallDelta>, b: seq<CallDelta>)
    ensures signals + SentAll(a + b) == signals + SentAll(a) + SentAll(b)
  {
    assert SentAll(a + b) == SentAll(a) + SentAll(b);
  }

  function SignalsOf(e: Event): seq<Signal> {
    match e
    case Unparseable(text) => [Damage(UnparseableEvent(text))]
    case ErrorEvent(message) => [Damage(ServerError(message))]
    case Chunk(_, choices) => SentAll(Deltas(choices))
  }

  lemma AddEventReads(s: State, signals: seq<Signal>, e: Event)
    requires Reads(s, signals)
    ensures Reads(AddEvent(s, e), signals + SignalsOf(e))
  {
    if e.Chunk? {
      AddChoicesReads(if e.usage.Some? then s.(usage := e.usage) else s, signals, e.choices);
    } else {
      var damage := SignalsOf(e)[0];
      assert SignalsOf(e) == [damage] && (signals + [damage])[..|signals|] == signals;
      NothingAdded(DeltasIn(signals));
    }
  }

  /** The errors are the damaged events and the changes of a call's id, in stream order. */
  lemma {:induction false} ErrorsAreRead(events: seq<Event>)
    ensures AssembleAll(events).errors == ErrorsRead(Signals(events))
    ensures Reads(AssembleAll(events), Signals(events))
  {
    if events == [] {
      assert forall k :: Project([], k) == [];
    } else {
      var n := |events| - 1;
      ErrorsAreRead(events[..n]);
      AddEventReads(AssembleAll(events[..n]), Signals(events[..n]), events[n]);
    }
  }

  // ---------------------------------------------------------------------------
  // Round trip
  // ---------------------------------------------------------------------------

  /**
   The deltas are a cut of one call: its arguments in pieces, its id and its name each sent
   at least once and never otherwise.
   */
  ghost predicate IsCut(ds: seq<CallDelta>, call: Slot) {
    && call.id != "" && call.name != ""
    && Arguments(ds) == call.arguments
    && (forall d :: d in ds ==> d.id in {"", call.id} && d.name in {"", call.name})
    && (exists d :: d in ds && d.id == call.id)
    && (exists d :: d in ds && d.name == call.name)
  }

  ghost predicate SendsId(ds: seq<CallDelta>) {
    exists d :: d in ds && d.id != ""
  }

  ghost predicate SendsName(ds: seq<CallDelta>) {
    exists d :: d in ds && d.name != ""
  }

  lemma SendsLast(ds: seq<CallDelta>, d: CallDelta)
    ensures SendsId(ds + [d]) <==> SendsId(ds) || d.id != ""
    ensures SendsName(ds + [d]) <==> SendsName(ds) || d.name != ""
  {
    assert forall e :: e in ds + [d] <==> e in ds || e == d;
  }

  lemma {:induction false} CutFolds(ds: seq<CallDelta>, call: Slot)
    requires forall d :: d in ds ==> d.id in {"", call.id} && d.name in {"", call.name}
    ensures KeepsId(ds)
    ensures FoldSlot(ds) == Slot(
      if SendsId(ds) then call.id else "", if SendsName(ds) then call.name else "", Arguments(ds))
  {
    if ds != [] {
      var front, last := ds[..|ds| - 1], ds[|ds| - 1];
      assert last in ds && forall d :: d in front ==> d in ds;
      CutFolds(front, call);
      assert ds == front + [last];
      SendsLast(front, last);
    }
  }

  /** A message: text, reasoning, and the tool calls by index. */
  datatype Message = Message(content: string, reasoning: string, calls: map<int, Slot>)

  /**
   The stream cuts the message in any way and interleaves the calls in any order that keeps
   each call's own order.
   */
  ghost predicate Streams(events: seq<Event>, m: Message) {
    var cs := AllChoices(events);
    && Undamaged(events)
    && Contents(cs) == m.content
    && Reasonings(cs) == m.reasoning
    && (forall k :: k in FirstSeen(Deltas(cs)) <==> k in m.calls)
    && (forall k :: k in m.calls ==> IsCut(Project(Deltas(cs), k), m.calls[k]))
  }

  /** The calls at these indices, in this order. */
  function CallsAt(calls: map<int, Slot>, order: seq<int>): seq<Slot>
    requires forall i :: 0 <= i < |order| ==> order[i] in calls
  {
    seq(|order|, i requires 0 <= i < |order| => calls[order[i]])
  }

  /**
   However a message is cut and interleaved, the assembler returns it without errors, its calls
   in the order in which they first appeared, each once.
   */
  lemma StreamingRoundTrip(events: seq<Event>, m: Message)
    requires Streams(events, m)
    ensures forall i :: 0 <= i < |FirstSeen(Deltas(AllChoices(events)))| ==>
      FirstSeen(Deltas(AllChoices(events)))[i] in m.calls
    ensures var s := AssembleAll(events);
      && s.content == m.content && s.reasoning == m.reasoning
      && s.calls.slots == m.calls
      && Calls(s.calls) == CallsAt(m.calls, FirstSeen(Deltas(AllChoices(events))))
      && Distinct(FirstSeen(Deltas(AllChoices(events)))) && |Calls(s.calls)| == |m.calls|
      && s.errors == []
  {
    AssemblyReadsTheStream(events);
    var s, ds := AssembleAll(events), Deltas(AllChoices(events));
    forall k
      ensures KeepsId(Project(ds, k))
      ensures k in m.calls ==> SlotAt(s.calls, k) == m.calls[k]
    {
      if k in m.calls {
        CutFolds(Project(ds, k), m.calls[k]);
      } else {
        UnseenIsEmpty(ds, k);
      }
    }
    assert AllKeepIds(ds);
    assert s.calls.slots.Keys == m.calls.Keys by {
      forall k ensures k in s.calls.slots <==> k in m.calls {
        assert k in FirstSeen(ds) <==> k in m.calls;
      }
    }
    forall k | k in m.calls ensures s.calls.slots[k] == m.calls[k] {
      assert k in FirstSeen(ds) && SlotAt(s.calls, k) == m.calls[k];
    }
    SameMaps(s.calls.slots, m.calls);
    CallsAreListed(s.calls, ds);
  }

  lemma CallsAreListed(s: Slots, ds: seq<CallDelta>)
    requires Holds(s, ds)
    ensures forall i :: 0 <= i < |FirstSeen(ds)| ==> FirstSeen(ds)[i] in s.slots
    ensures Calls(s) == CallsAt(s.slots, FirstSeen(ds))
    ensures Distinct(FirstSeen(ds)) && |Calls(s)| == |s.slots|
  {
    var order := FirstSeen(ds);
    forall i | 0 <= i < |order| ensures order[i] in s.slots {
      var k := order[i];
      assert k in FirstSeen(ds) <==> k in s.slots;
    }
    FirstSeenIsDistinct(ds);
    forall k: int ensures k in order <==> k in s.slots {
      assert k in FirstSeen(ds) <==> k in s.slots;
    }
    OrderOfKeys(order, s.slots);
  }

  lemma {:induction false} FirstSeenIsDistinct(ds: seq<CallDelta>)
    ensures Distinct(FirstSeen(ds))
  {
    if ds != [] { FirstSeenIsDistinct(ds[..|ds| - 1]); }
  }

  /** An order of the keys has as many places as there are entries. */
  lemma OrderOfKeys<K, V>(order: seq<K>, entries: map<K, V>)
    requires Distinct(order)
    requires (forall k :: k in order ==> k in entries) && (forall k :: k in entries ==> k in order)
    ensures |order| == |entries|
  {
    DistinctSize(order);
    assert (set k | k in order) == entries.Keys;
  }

  /** The same calls in another order of appearance are the same calls. */
  lemma {:induction false} CallsInAnotherOrder(a: Slots, b: Slots)
    requires a.slots == b.slots && Distinct(a.order) && Distinct(b.order)
    requires forall k :: k in a.order <==> k in b.order
    ensures multiset(Calls(a)) == multiset(Calls(b))
    decreases |a.order|
  {
    if a.order == [] {
      NonEmptyHasMember(b.order);
    } else {
      var n := |a.order| - 1;
      var last := a.order[n];
      assert last in a.order && last in b.order;
      var i :| 0 <= i < |b.order| && b.order[i] == last;
      var restA, restB := Slots(a.order[..n], a.slots), Slots(b.order[..i] + b.order[i + 1..], b.slots);
      assert a.order[..n] + a.order[n + 1..] == a.order[..n];
      CallTaken(a, n, restA);
      CallTaken(b, i, restB);
      forall k ensures k in restA.order <==> k in restB.order {
        RemainingMember(a.order, n, k);
        RemainingMember(b.order, i, k);
      }
      CallsInAnotherOrder(restA, restB);
    }
  }

  lemma CallTaken(s: Slots, i: nat, rest: Slots)
    requires i < |s.order| && rest == Slots(s.order[..i] + s.order[i + 1..], s.slots)
    ensures multiset(Calls(s)) == multiset(Calls(rest)) + multiset{SlotAt(s, s.order[i])}
  {
    var calls := Calls(s);
    assert Calls(rest) == calls[..i] + calls[i + 1..];
    OneTaken(calls, i);
  }

  lemma OneTaken<T>(s: seq<T>, i: nat)
    requires i < |s|
    ensures multiset(s) == multiset(s[..i] + s[i + 1..]) + multiset{s[i]}
  {
    assert s == s[..i] + ([s[i]] + s[i + 1..]);
  }

  lemma SameMaps<K, V>(a: map<K, V>, b: map<K, V>)
    requires a.Keys == b.Keys
    requires forall k :: k in a.Keys ==> a[k] == b[k]
    ensures a == b
  {
  }

  lemma {:induction false} UnseenIsEmpty(ds: seq<CallDelta>, k: int)
    ensures k in FirstSeen(ds) <==> Project(ds, k) != []
  {
    if ds != [] { UnseenIsEmpty(ds[..|ds| - 1], k); }
  }

  /**
   Two streams, damaged or not, that carry the same text and the same deltas per call,
   interleaved differently, assemble to the same calls, listed as they first appear; if both
   are damaged or neither is, they agree on whether there is an error.
   */
  lemma InterleavingIsImmaterial(a: seq<Event>, b: seq<Event>)
    requires Contents(AllChoices(a)) == Contents(AllChoices(b))
    requires Reasonings(AllChoices(a)) == Reasonings(AllChoices(b))
    requires forall k :: Project(Deltas(AllChoices(a)), k) == Project(Deltas(AllChoices(b)), k)
    ensures var s, t := AssembleAll(a), AssembleAll(b);
      && s.content == t.content && s.reasoning == t.reasoning
      && s.calls.slots == t.calls.slots
      && multiset(Calls(s.calls)) == multiset(Calls(t.calls))
      && (FirstSeen(Deltas(AllChoices(a))) == FirstSeen(Deltas(AllChoices(b))) ==>
            Calls(s.calls) == Calls(t.calls))
      && ((Undamaged(a) <==> Undamaged(b)) ==> (s.errors == [] <==> t.errors == []))
  {
    AssemblyReadsTheStream(a);
    AssemblyReadsTheStream(b);
    SlotsDependOnProjections(
      AssembleAll(a).calls, AssembleAll(b).calls, Deltas(AllChoices(a)), Deltas(AllChoices(b)));
    SameCallsListed(
      AssembleAll(a).calls, AssembleAll(b).calls, Deltas(AllChoices(a)), Deltas(AllChoices(b)));
  }

  lemma SameCallsListed(s: Slots, t: Slots, da: seq<CallDelta>, db: seq<CallDelta>)
    requires Holds(s, da) && Holds(t, db) && s.slots == t.slots
    ensures multiset(Calls(s)) == multiset(Calls(t))
    ensures FirstSeen(da) == FirstSeen(db) ==> Calls(s) == Calls(t)
  {
    FirstSeenIsDistinct(da);
    FirstSeenIsDistinct(db);
    CallsInAnotherOrder(s, t);
  }

  lemma SlotsDependOnProjections(s: Slots, t: Slots, da: seq<CallDelta>, db: seq<CallDelta>)
    requires Holds(s, da) && Holds(t, db)
    requires forall k :: Project(da, k) == Project(db, k)
    ensures s.slots == t.slots
    ensures AllKeepIds(da) <==> AllKeepIds(db)
  {
    forall k ensures k in s.slots <==> k in t.slots {
      UnseenIsEmpty(da, k);
      UnseenIsEmpty(db, k);
      assert Project(da, k) == Project(db, k);
    }
    forall k | k in s.slots ensures s.slots[k] == t.slots[k] {
      assert Project(da, k) == Project(db, k);
      assert SlotAt(s, k) == SlotAt(t, k);
    }
    SameMaps(s.slots, t.slots);
    if AllKeepIds(da) {
      forall k ensures KeepsId(Project(db, k)) { assert KeepsId(Project(da, k)); }
    }
    if AllKeepIds(db) {
      forall k ensures KeepsId(Project(da, k)) { assert KeepsId(Project(db, k)); }
    }
  }
}
