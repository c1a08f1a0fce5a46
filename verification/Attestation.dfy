/**
 Runtime-acceleration attestations: loaders merge facts about features onto a model object,
 readers get copies, and a contract sets the facts against what the configuration requests.
 Dicts are objects here, so that sharing between them can be told apart from equality.
 */
module Attestation {
  import opened Common

  const SCHEMA: string := "vmlx-runtime-acceleration-v1"

  datatype Fact = Flag(b: bool) | Count(n: int) | Note(text: string) | Nothing

  type Facts = map<string, Fact>

  class FactMap {
    var facts: Facts

    constructor (facts: Facts)
      ensures this.facts == facts
    {
      this.facts := facts;
    }
  }

  /** A feature entry that is not a dict is null. */
  class Record {
    var schema: string
    var family: string
    var features: map<string, FactMap?>

    constructor (schema: string, family: string, features: map<string, FactMap?>)
      ensures this.schema == schema && this.family == family && this.features == features
    {
      this.schema, this.family, this.features := schema, family, features;
    }
  }

  /** A model object; an opaque wrapper refuses new attributes. */
  class Model {
    const refusesAttributes: bool
    var attestation: Record?

    constructor (refusesAttributes: bool)
      ensures attestation == null && this.refusesAttributes == refusesAttributes
    {
      this.refusesAttributes, this.attestation := refusesAttributes, null;
    }
  }

  /** The objects that hold a record's facts. */
  ghost function Maps(features: map<string, FactMap?>): set<object> {
    set k | k in features && features[k] != null :: features[k] as object
  }

  /** What is recorded of one feature. */
  ghost function FactsOf(features: map<string, FactMap?>, key: string): (facts: Option<Facts>)
    reads Maps(features)
    ensures facts.Some? <==> key in features && features[key] != null
    ensures facts.Some? ==> (features[key] as object) in Maps(features) && facts.value == features[key].facts
  {
    if key in features && features[key] != null then
      assert (features[key] as object) in Maps(features);
      Some(features[key].facts)
    else None
  }

  ghost function FactsOn(model: Model, key: string): Option<Facts>
    reads model, model.attestation,
      if model.attestation == null then {} else Maps(model.attestation.features)
  {
    if model.attestation == null then None else FactsOf(model.attestation.features, key)
  }

  // ---------------------------------------------------------------------------
  // Merging
  // ---------------------------------------------------------------------------

  /** Field by field, the later facts win. */
  function Merge(prior: Option<Facts>, added: Option<Facts>): Option<Facts> {
    match (prior, added)
    case (None, _) => added
    case (_, None) => prior
    case (Some(p), Some(a)) => Some(p + a)
  }

  /** Merging is associative, so two recordings are one recording of the merged facts. */
  lemma MergeIsAssociative(a: Option<Facts>, b: Option<Facts>, c: Option<Facts>)
    ensures Merge(Merge(a, b), c) == Merge(a, Merge(b, c))
  {
    if a.Some? && b.Some? && c.Some? {
      assert (a.value + b.value) + c.value == a.value + (b.value + c.value);
    }
  }

  /** No feature and no field is ever dropped, and added fields have the added value. */
  lemma MergeKeepsEverything(prior: Option<Facts>, added: Option<Facts>, field: string)
    ensures prior.Some? || added.Some? <==> Merge(prior, added).Some?
    ensures Merge(prior, added).Some? ==>
      var m := Merge(prior, added).value;
      && (field in m <==> (prior.Some? && field in prior.value) || (added.Some? && field in added.value))
      && (added.Some? && field in added.value ==> m[field] == added.value[field])
      && (prior.Some? && field in prior.value && (added.Some? ==> field !in added.value) ==>
            m[field] == prior.value[field])
  {
  }

  type Aliases = string -> Option<string>

  function CanonicalFamily(aliases: Aliases, family: string): (canonical: string)
    ensures aliases(family) == Some(canonical) || (aliases(family).None? && canonical == family)
  {
    if aliases(family).Some? then aliases(family).value else family
  }

  /** A copy of every entry that is a dict. */
  method CopyFeatures(features: map<string, FactMap?>) returns (copy: map<string, FactMap?>)
    ensures forall k :: k in copy <==> k in features && features[k] != null
    ensures forall k :: k in copy ==> copy[k] != null && fresh(copy[k])
    ensures forall k :: FactsOf(copy, k) == old(FactsOf(features, k))
  {
    copy := map[];
    var todo := features.Keys;
    while todo != {}
      invariant todo <= features.Keys
      invariant forall k :: k in copy <==> k in features && k !in todo && features[k] != null
      invariant forall k :: k in copy ==> copy[k] != null && fresh(copy[k])
      invariant forall k :: k in copy ==> copy[k].facts == features[k].facts
      decreases |todo|
    {
      var key :| key in todo;
      todo := todo - {key};
      if features[key] != null {
        var entry := new FactMap(features[key].facts);
        copy := copy[key := entry];
      }
    }
  }

  function FactsUnder(facts: map<string, Facts>, key: string): Option<Facts> {
    if key in facts then Some(facts[key]) else None
  }

  /** The facts when all features but those in `todo` were added. */
  ghost predicate MergedBut(
    merged: map<string, Facts>, current: map<string, Facts>, added: map<string, Facts>, todo: set<string>)
  {
    forall k :: FactsUnder(merged, k)
      == Merge(FactsUnder(current, k), if k in todo then None else FactsUnder(added, k))
  }

  lemma OneMoreFeature(
    merged: map<string, Facts>, current: map<string, Facts>, added: map<string, Facts>,
    todo: set<string>, key: string)
    requires MergedBut(merged, current, added, todo) && key in todo && key in added
    ensures MergedBut(
      merged[key := (if key in merged then merged[key] else map[]) + added[key]],
      current, added, todo - {key})
  {
    assert FactsUnder(merged, key) == FactsUnder(current, key);
    EmptyIsNeutral(added[key]);
  }

  /** The objects hold these facts. */
  ghost predicate Hold(features: map<string, FactMap?>, facts: map<string, Facts>)
    reads Maps(features)
  {
    && features.Keys == facts.Keys
    && forall k :: k in features ==> FactsOf(features, k) == Some(facts[k])
  }

  ghost function FactsIn(features: map<string, FactMap?>): (facts: map<string, Facts>)
    requires forall k :: k in features ==> features[k] != null
    reads Maps(features)
    ensures Hold(features, facts)
  {
    map k | k in features :: FactsOf(features, k).value
  }

  lemma HeldFacts(features: map<string, FactMap?>, facts: map<string, Facts>, key: string)
    requires Hold(features, facts)
    ensures FactsOf(features, key) == FactsUnder(facts, key)
    ensures key in features ==> features[key] != null
  {
  }

  /** Adds every entry of `added`, in new objects. */
  method MergeFeatures(current: map<string, FactMap?>, added: map<string, FactMap>)
    returns (merged: map<string, FactMap?>)
    requires forall k :: k in current ==> current[k] != null
    ensures forall k :: k in merged ==> merged[k] != null
    ensures forall k :: k in merged ==> k in added || k in current
    ensures forall k :: k in merged && k !in added ==> merged[k] == current[k]
    ensures forall k :: k in merged && k in added ==> fresh(merged[k])
    ensures forall k ::
      FactsOf(merged, k) == Merge(old(FactsOf(current, k)), old(FactsOf(added, k)))
  {
    ghost var base, plus := FactsIn(current), FactsIn(added);
    ghost var facts := base;
    merged := current;
    var todo := added.Keys;
    while todo != {}
      invariant todo <= added.Keys && Hold(merged, facts) && Hold(added, plus)
      invariant MergedBut(facts, base, plus, todo)
      invariant forall k :: k in merged ==>
        if k in added && k !in todo then fresh(merged[k]) else k in current && merged[k] == current[k]
      decreases todo
    {
      var key :| key in todo;
      OneMoreFeature(facts, base, plus, todo, key);
      todo := todo - {key};
      merged, facts := AddFeature(merged, key, added[key], facts, plus);
    }
    forall k ensures FactsOf(merged, k) == Merge(old(FactsOf(current, k)), old(FactsOf(added, k))) {
      HeldFacts(merged, facts, k);
      HeldFacts(added, plus, k);
      assert old(FactsOf(current, k)) == FactsUnder(base, k);
    }
  }

  /** Adds one entry: a new object that holds the merge with what was there. */
  method AddFeature(
    features: map<string, FactMap?>, key: string, added: FactMap,
    ghost facts: map<string, Facts>, ghost plus: map<string, Facts>)
    returns (more: map<string, FactMap?>, ghost moreFacts: map<string, Facts>)
    requires Hold(features, facts) && key in plus && plus[key] == added.facts
    ensures moreFacts == facts[key := (if key in facts then facts[key] else map[]) + plus[key]]
    ensures Hold(more, moreFacts)
    ensures forall k :: k in features && k != key ==> more[k] == features[k]
    ensures more[key] != null && fresh(more[key])
  {
    HeldFacts(features, facts, key);
    var prior: Facts := if key in features then features[key].facts else map[];
    var entry := new FactMap(prior + added.facts);
    more := features[key := entry];
    moreFacts := facts[key := (if key in facts then facts[key] else map[]) + plus[key]];
  }

  lemma EmptyIsNeutral(facts: Facts)
    ensures map[] + facts == facts
  {
  }

  method RecordAttestation(
    model: Model, aliases: Aliases, family: string, features: map<string, FactMap>)
    returns (r: Record)
    modifies model`attestation
    ensures fresh(r) && (forall o :: o in Maps(r.features) ==> fresh(o))
    ensures r.schema == SCHEMA && r.family == CanonicalFamily(aliases, family)
    ensures forall k ::
      FactsOf(r.features, k) == Merge(old(FactsOn(model, k)), old(FactsOf(features, k)))
    ensures old(model.attestation) == null ==>
      forall k :: FactsOf(r.features, k) == old(FactsOf(features, k))
    ensures old(model.attestation) != null ==>
      forall k :: FactsOf(r.features, k)
        == Merge(old(FactsOf(model.attestation.features, k)), old(FactsOf(features, k)))
    ensures if model.refusesAttributes then model.attestation == old(model.attestation)
            else model.attestation == r
  {
    var current := map[];
    if model.attestation != null {
      current := CopyFeatures(model.attestation.features);
    }
    var merged := MergeFeatures(current, features);
    r := new Record(SCHEMA, CanonicalFamily(aliases, family), merged);
    if !model.refusesAttributes {
      model.attestation := r;
    }
  }

  /** Two recordings in a row leave on the model the merge of both with what was there. */
  method RecordTwice(
    model: Model, aliases: Aliases, family: string, a: map<string, FactMap>, b: map<string, FactMap>)
    requires !model.refusesAttributes
    modifies model`attestation
    ensures model.attestation != null && fresh(model.attestation)
    ensures forall k ::
      FactsOn(model, k) == Merge(old(FactsOn(model, k)), Merge(old(FactsOf(a, k)), old(FactsOf(b, k))))
  {
    var first := RecordAttestation(model, aliases, family, a);
    var second := RecordAttestation(model, aliases, family, b);
    forall k
      ensures FactsOn(model, k)
        == Merge(old(FactsOn(model, k)), Merge(old(FactsOf(a, k)), old(FactsOf(b, k))))
    {
      MergeIsAssociative(old(FactsOn(model, k)), old(FactsOf(a, k)), old(FactsOf(b, k)));
    }
  }

  // ---------------------------------------------------------------------------
  // Finding
  // ---------------------------------------------------------------------------

  predicate Attested(model: Model)
    reads model, model.attestation
  {
    model.attestation != null && model.attestation.schema == SCHEMA
  }

  /** The first candidate that carries an attestation of this schema. */
  ghost predicate IsFirst(candidates: seq<Model>, i: nat)
    reads candidates, set c | c in candidates && c.attestation != null :: c.attestation
  {
    && i < |candidates| && candidates[i].attestation != null
    && candidates[i].attestation.schema == SCHEMA
    && forall j :: 0 <= j < i ==>
         candidates[j].attestation == null || candidates[j].attestation.schema != SCHEMA
  }

  /**
   A copy of the first attestation among the candidates: equal facts in new objects, so that
   nothing done to the copy reaches a model.
   */
  method FindAttestation(candidates: seq<Model>) returns (r: Record?)
    ensures r == null <==> forall c :: c in candidates ==> !Attested(c)
    ensures r == null <==> forall i :: !IsFirst(candidates, i)
    ensures r != null ==>
      && fresh(r) && (forall o :: o in Maps(r.features) ==> fresh(o))
      && exists i: nat :: IsFirst(candidates, i) && CopyOf(r, candidates[i])
  {
    for i := 0 to |candidates|
      invariant forall j :: 0 <= j < i ==> !Attested(candidates[j])
    {
      var found := candidates[i].attestation;
      if found != null && found.schema == SCHEMA {
        var features := CopyFeatures(found.features);
        r := new Record(found.schema, found.family, features);
        assert Attested(candidates[i]) && candidates[i] in candidates;
        forall k ensures FactsOf(r.features, k) == FactsOf(candidates[i].attestation.features, k) {
          assert FactsOf(features, k) == old(FactsOf(found.features, k));
        }
        assert IsFirst(candidates, i) && CopyOf(r, candidates[i]);
        return r;
      }
    }
    r := null;
  }

  ghost predicate CopyOf(r: Record, model: Model)
    reads r, Maps(r.features), model, model.attestation,
      if model.attestation == null then {} else Maps(model.attestation.features)
  {
    && model.attestation != null
    && r.schema == model.attestation.schema && r.family == model.attestation.family
    && forall k :: FactsOf(r.features, k) == FactsOf(model.attestation.features, k)
  }

  /** What was recorded on a model is found again. */
  method RecordThenFind(
    model: Model, aliases: Aliases, family: string, features: map<string, FactMap>)
    returns (found: Record?)
    requires !model.refusesAttributes
    modifies model`attestation
    ensures found != null && found != model.attestation
    ensures found.family == CanonicalFamily(aliases, family)
    ensures forall k ::
      FactsOf(found.features, k) == Merge(old(FactsOn(model, k)), old(FactsOf(features, k)))
  {
    var recorded := RecordAttestation(model, aliases, family, features);
    assert model in [model] && Attested(model);
    found := FindAttestation([model]);
  }
}
