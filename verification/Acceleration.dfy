/** The acceleration contract: what is requested, set against what a runtime attests. */
module Acceleration {
  import opened Common
  import opened Attestation

  const FALSE_VALUES: set<string> := {"", "0", "false", "no", "off", "disabled", "none"}

  datatype Default = Switch(on: bool) | Mode(mode: string)

  datatype Spec = Spec(
    id: string, caption: string, kind: string, scopes: seq<string>, default: Default, env: seq<string>)

  datatype FeatureState =
    | Disabled | ConfiguredUnattested | InstalledUnobserved | ActiveObserved | RefusedOrFallback

  /** A feature's row: its specification, and a copy of what the runtime attested, if it did. */
  datatype Row = Row(
    spec: Spec, requested: bool, selection: Selection, source: string, state: FeatureState,
    runtime: Option<Facts>)

  /** What was selected: the text of a setting, or a default that is a switch. */
  datatype Selection = Text(text: string) | Flipped(on: bool)

  datatype Summary = Summary(requested: nat, installed: nat, observed: nat, unattested: nat)

  /** Process environment, and how Python strips and lowers a string. */
  datatype Settings = Settings(env: map<string, string>, strip: string -> string, lower: string -> string)

  /** Whether a text asks for a feature. */
  predicate Asks(settings: Settings, text: string) {
    settings.lower(text) !in FALSE_VALUES
  }

  /** The first variable that is set decides; otherwise the default does. */
  function Requested(spec: Spec, settings: Settings): (bool, Selection, string) {
    RequestedFrom(spec, settings, spec.env)
  }

  function RequestedFrom(spec: Spec, settings: Settings, names: seq<string>): (bool, Selection, string) {
    if names == [] then
      match spec.default
      case Switch(on) => (on, Flipped(on), "default")
      case Mode(mode) =>
        (Asks(settings, mode), Text(settings.lower(mode)), "default")
    else if names[0] in settings.env then
      var raw := settings.strip(settings.env[names[0]]);
      var mode := settings.lower(raw);
      (Asks(settings, raw), Text(if spec.default.Mode? then mode else raw), names[0])
    else RequestedFrom(spec, settings, names[1..])
  }

  /** The words that turn a feature off. */
  ghost predicate TurnsOff(word: string) {
    || word == "" || word == "0" || word == "false" || word == "no" || word == "off"
    || word == "disabled" || word == "none"
  }

  /** `names[i]` is the first name that is set. */
  ghost predicate FirstSet(settings: Settings, names: seq<string>, i: nat) {
    && i < |names| && names[i] in settings.env
    && forall j :: 0 <= j < i ==> names[j] !in settings.env
  }

  /**
   The decision comes from the first name that is set, or from the default if none is; a mode
   is selected in lower case, other settings as they are written.
   */
  lemma {:induction false} FirstSettingDecides(spec: Spec, settings: Settings, names: seq<string>)
    returns (i: nat)
    ensures var (requested, selection, source) := RequestedFrom(spec, settings, names);
      if i < |names| then
        FirstSet(settings, names, i) && source == names[i] &&
        var written := settings.strip(settings.env[names[i]]);
        && (requested <==> !TurnsOff(settings.lower(written)))
        && selection == Text(if spec.default.Mode? then settings.lower(written) else written)
      else
        && source == "default" && (forall j :: 0 <= j < |names| ==> names[j] !in settings.env)
        && (spec.default.Switch? ==> selection == Flipped(requested) && requested == spec.default.on)
        && (spec.default.Mode? ==>
              && selection == Text(settings.lower(spec.default.mode))
              && (requested <==> !TurnsOff(settings.lower(spec.default.mode))))
  {
    if names == [] || names[0] in settings.env {
      i := 0;
    } else {
      var k := FirstSettingDecides(spec, settings, names[1..]);
      i := k + 1;
      assert forall j :: 1 <= j < |names| ==> names[j] == names[1..][j - 1];
    }
  }

  function FactAt(facts: Facts, key: string): Fact {
    if key in facts then facts[key] else Nothing
  }

  function AsCount(f: Fact): int {
    match f
    case Count(n) => n
    case Flag(b) => if b then 1 else 0
    case _ => 0
  }

  predicate Truthy(f: Fact) {
    match f
    case Flag(b) => b
    case Count(n) => n != 0
    case Note(text) => text != ""
    case Nothing => false
  }

  /** Calls observed, under either name; the first name wins if it is there at all. */
  function ObservedCalls(facts: Facts): int {
    AsCount(if "observed_calls" in facts then facts["observed_calls"] else FactAt(facts, "calls"))
  }

  predicate Installed(facts: Facts) {
    match FactAt(facts, "installed")
    case Flag(b) => b
    case f => AsCount(f) > 0
  }

  function StateOf(requested: bool, runtime: Option<Facts>): FeatureState {
    if !requested then Disabled
    else if runtime.None? then ConfiguredUnattested
    else
      var facts := runtime.value;
      if Installed(facts) && ObservedCalls(facts) > 0 then ActiveObserved
      else if Installed(facts) then InstalledUnobserved
      else if Truthy(FactAt(facts, "reason")) || Truthy(FactAt(facts, "disabled_reason"))
      then RefusedOrFallback
      else ConfiguredUnattested
  }

  function RowOf(spec: Spec, settings: Settings, runtime: Option<Facts>): Row {
    var (requested, selection, source) := Requested(spec, settings);
    Row(spec, requested, selection, source, StateOf(requested, runtime), runtime)
  }

  function Tally(rows: seq<Row>, states: set<FeatureState>): nat {
    if rows == [] then 0
    else Tally(rows[..|rows| - 1], states) + if rows[|rows| - 1].state in states then 1 else 0
  }

  const ALL_STATES: set<FeatureState> :=
    {Disabled, ConfiguredUnattested, InstalledUnobserved, ActiveObserved, RefusedOrFallback}

  method Summarize(rows: seq<Row>) returns (summary: Summary)
    requires forall row :: row in rows ==> (row.requested <==> row.state != Disabled)
    ensures summary.requested == Tally(rows, ALL_STATES - {Disabled})
    ensures summary.installed == Tally(rows, {InstalledUnobserved, ActiveObserved})
    ensures summary.observed == Tally(rows, {ActiveObserved})
    ensures summary.unattested == Tally(rows, {ConfiguredUnattested})
  {
    summary := Summary(0, 0, 0, 0);
    for i := 0 to |rows|
      invariant summary.requested == Tally(rows[..i], ALL_STATES - {Disabled})
      invariant summary.installed == Tally(rows[..i], {InstalledUnobserved, ActiveObserved})
      invariant summary.observed == Tally(rows[..i], {ActiveObserved})
      invariant summary.unattested == Tally(rows[..i], {ConfiguredUnattested})
    {
      assert rows[..i + 1][..i] == rows[..i];
      var row := rows[i];
      summary := Summary(
        summary.requested + (if row.requested then 1 else 0),
        summary.installed
          + (if row.state in {InstalledUnobserved, ActiveObserved} then 1 else 0),
        summary.observed + (if row.state == ActiveObserved then 1 else 0),
        summary.unattested + (if row.state == ConfiguredUnattested then 1 else 0));
    }
    assert rows[..|rows|] == rows;
  }

  /** The rows of one family, in the order of its definition, and their summary. */
  method BuildContract(definition: Option<seq<Spec>>, settings: Settings, runtime: Record?)
    returns (known: bool, rows: seq<Row>, summary: Summary)
    ensures known <==> definition.Some?
    ensures |rows| == if definition.Some? then |definition.value| else 0
    ensures forall i :: 0 <= i < |rows| ==>
      rows[i] == RowOf(definition.value[i], settings,
                       if runtime == null then None
                       else FactsOf(runtime.features, definition.value[i].id))
    ensures summary.requested == Tally(rows, ALL_STATES - {Disabled})
    ensures summary.installed == Tally(rows, {InstalledUnobserved, ActiveObserved})
    ensures summary.observed == Tally(rows, {ActiveObserved})
    ensures summary.unattested == Tally(rows, {ConfiguredUnattested})
  {
    if definition.None? {
      return false, [], Summary(0, 0, 0, 0);
    }
    known, rows := true, [];
    var specs := definition.value;
    for i := 0 to |specs|
      invariant |rows| == i
      invariant forall j :: 0 <= j < i ==>
        rows[j] == RowOf(specs[j], settings,
                         if runtime == null then None else FactsOf(runtime.features, specs[j].id))
    {
      var facts: Option<Facts> := None;
      if runtime != null && specs[i].id in runtime.features {
        var entry := runtime.features[specs[i].id];
        if entry != null {
          facts := Some(entry.facts);
        }
      }
      rows := rows + [RowOf(specs[i], settings, facts)];
    }
    summary := Summarize(rows);
  }

  lemma {:induction false} TallyOfDisjointStates(
    rows: seq<Row>, a: set<FeatureState>, b: set<FeatureState>)
    requires a !! b
    ensures Tally(rows, a + b) == Tally(rows, a) + Tally(rows, b)
  {
    if rows != [] { TallyOfDisjointStates(rows[..|rows| - 1], a, b); }
  }

  /**
   Every requested feature is counted once: as installed, as unattested, or as refused; and
   no more are observed than installed.
   */
  lemma RequestedFeaturesAreConserved(rows: seq<Row>)
    ensures Tally(rows, ALL_STATES - {Disabled})
      == Tally(rows, {InstalledUnobserved, ActiveObserved}) + Tally(rows, {ConfiguredUnattested})
         + Tally(rows, {RefusedOrFallback})
    ensures Tally(rows, {ActiveObserved}) <= Tally(rows, {InstalledUnobserved, ActiveObserved})
  {
    var installed := {InstalledUnobserved, ActiveObserved};
    TallyOfDisjointStates(rows, installed, {ConfiguredUnattested});
    TallyOfDisjointStates(rows, installed + {ConfiguredUnattested}, {RefusedOrFallback});
    assert installed + {ConfiguredUnattested} + {RefusedOrFallback} == ALL_STATES - {Disabled};
    TallyOfDisjointStates(rows, {ActiveObserved}, {InstalledUnobserved});
    assert {ActiveObserved} + {InstalledUnobserved} == installed;
  }

  /** The facts say so with a flag or a positive count. */
  ghost predicate SaysInstalled(facts: Facts) {
    "installed" in facts && Affirms(facts["installed"])
  }

  ghost predicate Affirms(fact: Fact) {
    match fact
    case Flag(b) => b
    case Count(n) => n > 0
    case _ => false
  }

  /** Calls were seen, under the first of the two names that is there. */
  ghost predicate SaysCalled(facts: Facts) {
    if "observed_calls" in facts then Affirms(facts["observed_calls"])
    else "calls" in facts && Affirms(facts["calls"])
  }

  /** Some reason is given why a feature is not there. */
  ghost predicate SaysWhyNot(facts: Facts) {
    exists key :: key in ["reason", "disabled_reason"] && key in facts && IsGiven(facts[key])
  }

  ghost predicate IsGiven(fact: Fact) {
    fact == Flag(true) || (fact.Count? && fact != Count(0)) || (fact.Note? && fact != Note(""))
  }

  lemma FactsAreRead(facts: Facts)
    ensures Installed(facts) <==> SaysInstalled(facts)
    ensures ObservedCalls(facts) > 0 <==> SaysCalled(facts)
    ensures Truthy(FactAt(facts, "reason")) || Truthy(FactAt(facts, "disabled_reason")) <==> SaysWhyNot(facts)
  {
    assert ["reason", "disabled_reason"][0] == "reason" && ["reason", "disabled_reason"][1] == "disabled_reason";
  }

  /**
   When a feature is in which state. A request alone is never reported as installed: the runtime
   must have attested it; and it is refused only if a reason was attested.
   */
  lemma InstalledNeedsAttestation(requested: bool, runtime: Option<Facts>)
    ensures var state, attested := StateOf(requested, runtime), requested && runtime.Some?;
      && (state == Disabled <==> !requested)
      && (state in {InstalledUnobserved, ActiveObserved} <==> attested && SaysInstalled(runtime.value))
      && (state == ActiveObserved <==>
            attested && SaysInstalled(runtime.value) && SaysCalled(runtime.value))
      && (state == RefusedOrFallback <==>
            attested && !SaysInstalled(runtime.value) && SaysWhyNot(runtime.value))
  {
    if runtime.Some? { FactsAreRead(runtime.value); }
  }

  /** A row shows its feature as configured and as attested. */
  lemma RowsShowTheirFeature(spec: Spec, settings: Settings, runtime: Option<Facts>)
    ensures var row := RowOf(spec, settings, runtime);
      && row.spec == spec && row.runtime == runtime
      && (row.requested, row.selection, row.source) == RequestedFrom(spec, settings, spec.env)
      && row.state == StateOf(row.requested, runtime)
  {
  }

  /** A tally is the number of rows in one of the states. */
  lemma {:induction false} TallyCounts(rows: seq<Row>, states: set<FeatureState>)
    ensures Tally(rows, states) == |set i: nat | i < |rows| && rows[i].state in states|
  {
    var now := set i: nat | i < |rows| && rows[i].state in states;
    if rows == [] {
      assert now == {};
    } else {
      var n := |rows| - 1;
      var before := set i: nat | i < |rows[..n]| && rows[..n][i].state in states;
      TallyCounts(rows[..n], states);
      assert now == before + if rows[n].state in states then {n} else {};
    }
  }

  /** With nothing attested nothing is installed, and all that is requested is unattested. */
  lemma {:induction false} NothingAttestedNothingInstalled(
    rows: seq<Row>, specs: seq<Spec>, settings: Settings)
    requires |rows| == |specs|
    requires forall i :: 0 <= i < |rows| ==> rows[i] == RowOf(specs[i], settings, None)
    ensures Tally(rows, {InstalledUnobserved, ActiveObserved}) == 0
    ensures Tally(rows, ALL_STATES - {Disabled}) == Tally(rows, {ConfiguredUnattested})
  {
    if rows != [] {
      var n := |rows| - 1;
      NothingAttestedNothingInstalled(rows[..n], specs[..n], settings);
      assert rows[n].state in {Disabled, ConfiguredUnattested};
    }
  }
}
