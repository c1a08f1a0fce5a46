/**
 Discriminators of a prompt cache: dict entries that separate requests with equal tokens,
 some of them only from a boundary token on.
 */
module CacheKey {
  import opened Common
  import opened Json
  import JsonText

  /** The reserved dict key that holds the boundary of every scoped key. */
  const SCOPES: string := "__vmlx_cache_extra_scopes_v1__"

  /** What `int` makes of a string; which strings are numerals is left open. */
  type Numerals = string -> Option<int>

  function Max(a: int, b: int): int {
    if a < b then b else a
  }

  // ---------------------------------------------------------------------------
  // Scoping a key
  // ---------------------------------------------------------------------------

  function ScopesIn(fields: map<string, Value>): map<string, Value> {
    if SCOPES in fields && fields[SCOPES].VObj? then fields[SCOPES].fields else map[]
  }

  function ScopedFields(extra: Value, repr: Value -> string): map<string, Value> {
    match extra
    case VObj(fields) => fields
    case VNull => map[]
    case _ => map["request" := VStr(repr(extra))]
  }

  /** The dict with the boundary of `key` set. */
  function WithBoundary(fields: map<string, Value>, key: string, boundary: nat): map<string, Value> {
    fields[SCOPES := VObj(ScopesIn(fields)[key := VInt(boundary)])]
  }

  function ScopeKey(extra: Value, repr: Value -> string, key: string, start: int): Value {
    VObj(WithBoundary(ScopedFields(extra, repr), key, Max(0, start)))
  }

  method ScopeCacheExtraKey(extra: Value, repr: Value -> string, key: string, start: int)
    returns (scoped: map<string, Value>)
    ensures VObj(scoped) == ScopeKey(extra, repr, key, start)
    ensures Scoped(extra, repr, key, start, scoped)
  {
    ScopingKeepsTheRest(extra, repr, key, start);
    match extra {
      case VObj(fields) => scoped := fields;
      case VNull => scoped := map[];
      case _ => scoped := map["request" := VStr(repr(extra))];
    }
    var scopes := map[];
    if SCOPES in scoped && scoped[SCOPES].VObj? {
      scopes := scoped[SCOPES].fields;
    }
    scopes := scopes[key := VInt(Max(0, start))];
    scoped := scoped[SCOPES := VObj(scopes)];
  }

  /**
   The key has the boundary, at least zero; every other boundary and every other entry is as
   before. A discriminator that is no dict is the only entry, unless it is missing.
   */
  ghost predicate Scoped(
    extra: Value, repr: Value -> string, key: string, start: int, scoped: map<string, Value>)
  {
    && SCOPES in scoped && scoped[SCOPES].VObj?
    && key in scoped[SCOPES].fields
    && scoped[SCOPES].fields[key] == VInt(if start < 0 then 0 else start)
    && scoped[SCOPES].fields - {key} ==
         (if extra.VObj? && SCOPES in extra.fields && extra.fields[SCOPES].VObj?
          then extra.fields[SCOPES].fields - {key} else map[])
    && scoped - {SCOPES} ==
         if extra.VObj? then extra.fields - {SCOPES}
         else if extra.VNull? then map[] else map["request" := VStr(repr(extra))]
  }

  lemma ScopingKeepsTheRest(extra: Value, repr: Value -> string, key: string, start: int)
    ensures Scoped(extra, repr, key, start, ScopeKey(extra, repr, key, start).fields)
  {
    var f := ScopedFields(extra, repr);
    OneMoreEntry(f, SCOPES, VObj(ScopesIn(f)[key := VInt(Max(0, start))]));
    OneMoreEntry(ScopesIn(f), key, VInt(Max(0, start)));
    assert SCOPES != "request";
    if !extra.VObj? { OtherEntry<Value>("request", VStr(repr(extra)), SCOPES); }
  }

  lemma OneMoreEntry<V>(m: map<string, V>, key: string, v: V)
    ensures m[key := v] - {key} == m - {key}
  {
  }

  lemma OtherEntry<V>(key: string, v: V, other: string)
    requires key != other
    ensures map[key := v] - {other} == map[key := v]
  {
  }

  /** Scoping two keys commutes. */
  lemma ScopingCommutes(
    extra: Value, repr: Value -> string, k1: string, b1: int, k2: string, b2: int)
    requires k1 != k2
    ensures ScopeKey(ScopeKey(extra, repr, k1, b1), repr, k2, b2)
      == ScopeKey(ScopeKey(extra, repr, k2, b2), repr, k1, b1)
  {
    var f := ScopedFields(extra, repr);
    var s, v1, v2 := ScopesIn(f), VInt(Max(0, b1)), VInt(Max(0, b2));
    assert s[k1 := v1][k2 := v2] == s[k2 := v2][k1 := v1];
    assert f[SCOPES := VObj(s[k1 := v1])][SCOPES := VObj(s[k1 := v1][k2 := v2])]
        == f[SCOPES := VObj(s[k2 := v2])][SCOPES := VObj(s[k2 := v2][k1 := v1])];
  }

  /** The last boundary given to a key is the one that counts. */
  lemma LastScopeWins(extra: Value, repr: Value -> string, key: string, b1: int, b2: int)
    ensures ScopeKey(ScopeKey(extra, repr, key, b1), repr, key, b2) == ScopeKey(extra, repr, key, b2)
  {
    var f := ScopedFields(extra, repr);
    var s, v1, v2 := ScopesIn(f), VInt(Max(0, b1)), VInt(Max(0, b2));
    assert s[key := v1][key := v2] == s[key := v2];
    assert f[SCOPES := VObj(s[key := v1])][SCOPES := VObj(s[key := v2])]
        == f[SCOPES := VObj(s[key := v2])];
  }

  // ---------------------------------------------------------------------------
  // Resolving the keys of a token range
  // ---------------------------------------------------------------------------

  datatype Boundary = Unscoped | Malformed | From(token: nat)

  function BoundaryOf(scopes: map<string, Value>, numerals: Numerals, key: string): Boundary {
    if key !in scopes then Unscoped
    else
      var integer := match scopes[key]
        case VInt(n) => Some(n)
        case VBool(b) => Some(if b then 1 else 0)
        case VStr(s) => numerals(s)
        case _ => None;
      if scopes[key].VNull? then Unscoped
      else if integer.None? then Malformed
      else From(Max(0, integer.value))
  }

  /** What `int` makes of a boundary: a number, a boolean, or a numeral. */
  ghost predicate ReadsAs(boundary: Value, numerals: Numerals, n: int) {
    || boundary == VInt(n)
    || (boundary == VBool(false) && n == 0) || (boundary == VBool(true) && n == 1)
    || (boundary.VStr? && numerals(boundary.s) == Some(n))
  }

  /** A boundary that is missing or null scopes nothing; a number below zero counts as zero. */
  lemma BoundariesAreRead(scopes: map<string, Value>, numerals: Numerals, key: string)
    ensures var boundary := BoundaryOf(scopes, numerals, key);
      && (boundary == Unscoped <==> key !in scopes || scopes[key].VNull?)
      && (boundary == Malformed <==>
            key in scopes && !scopes[key].VNull? && forall n :: !ReadsAs(scopes[key], numerals, n))
      && forall n :: key in scopes && ReadsAs(scopes[key], numerals, n) ==>
           boundary == From(if n < 0 then 0 else n)
  {
    if key in scopes {
      match scopes[key]
      case VInt(n) => assert ReadsAs(scopes[key], numerals, n);
      case VBool(b) => assert ReadsAs(scopes[key], numerals, if b then 1 else 0);
      case VStr(s) =>
        if numerals(s).Some? { assert ReadsAs(scopes[key], numerals, numerals(s).value); }
      case _ =>
    }
  }

  /** Whether the key takes part in ranges that end at `end`. */
  predicate Active(boundary: Boundary, end: int) {
    boundary.From? ==> end > boundary.token
  }

  /** The entries in force. */
  function KeysInForce(fields: map<string, Value>, numerals: Numerals, end: int): map<string, Value> {
    var scopes := ScopesIn(fields);
    fields - set k | k in fields && (k == SCOPES || !Active(BoundaryOf(scopes, numerals, k), end))
  }

  /** The boundary of a key that is in force because the range has passed it. */
  function PassedBoundary(fields: map<string, Value>, numerals: Numerals, end: int, key: string)
    : Option<Value>
  {
    var boundary := BoundaryOf(ScopesIn(fields), numerals, key);
    if key in fields && key != SCOPES && boundary.From? && end > boundary.token
    then Some(VInt(boundary.token)) else None
  }

  function ScopesInForce(fields: map<string, Value>, numerals: Numerals, end: int)
    : map<string, Value>
  {
    map k | k in fields && PassedBoundary(fields, numerals, end, k).Some?
      :: PassedBoundary(fields, numerals, end, k).value
  }

  function Assemble(keys: map<string, Value>, scopes: map<string, Value>): Value {
    var resolved := if scopes == map[] then keys else keys[SCOPES := VObj(scopes)];
    if resolved == map[] then VNull else VObj(resolved)
  }

  function Resolve(extra: Value, numerals: Numerals, end: int): Value {
    if !extra.VObj? || ScopesIn(extra.fields) == map[] then extra
    else
      Assemble(KeysInForce(extra.fields, numerals, end), ScopesInForce(extra.fields, numerals, end))
  }

  /**
   What the range sees of a dict with boundaries: every other entry whose boundary, if it has a
   well-formed one, lies before the end, and exactly these boundaries beside them.
   */
  ghost predicate Resolved(fields: map<string, Value>, numerals: Numerals, end: int, resolved: Value) {
    var left := if resolved.VObj? then resolved.fields else map[];
    && (resolved.VObj? && resolved.fields != map[]) != (resolved == VNull)
    && (forall k :: k != SCOPES ==>
          (k in left <==>
             k in fields
             && var boundary := BoundaryOf(ScopesIn(fields), numerals, k);
                boundary.From? ==> end > boundary.token))
    && (forall k :: k in left && k != SCOPES ==> left[k] == fields[k])
    && (SCOPES in left ==> left[SCOPES].VObj? && left[SCOPES].fields != map[])
    && (forall k, n: nat :: Passed(fields, numerals, end, k, n) ==>
          SCOPES in left && left[SCOPES].VObj? && k in left[SCOPES].fields
          && left[SCOPES].fields[k] == VInt(n))
    && (SCOPES in left ==>
          forall k :: k in left[SCOPES].fields ==> exists n: nat :: Passed(fields, numerals, end, k, n))
  }

  /** The range has passed the boundary of a key that is there. */
  ghost predicate Passed(fields: map<string, Value>, numerals: Numerals, end: int, key: string, n: nat) {
    key in fields && key != SCOPES && BoundaryOf(ScopesIn(fields), numerals, key) == From(n) && end > n
  }

  /** Without boundaries a discriminator is what it was; otherwise a range sees what it has passed. */
  lemma RangesSeeWhatTheyPassed(extra: Value, numerals: Numerals, end: int)
    ensures if extra.VObj? && ScopesIn(extra.fields) != map[]
      then Resolved(extra.fields, numerals, end, Resolve(extra, numerals, end))
      else Resolve(extra, numerals, end) == extra
  {
    if extra.VObj? && ScopesIn(extra.fields) != map[] {
      AssembledKeepsBoth(
        KeysInForce(extra.fields, numerals, end), ScopesInForce(extra.fields, numerals, end));
      var active := ScopesInForce(extra.fields, numerals, end);
      forall k, n: nat | Passed(extra.fields, numerals, end, k, n)
        ensures k in active && active[k] == VInt(n)
      {
        assert PassedBoundary(extra.fields, numerals, end, k) == Some(VInt(n));
      }
      forall k | k in active ensures exists n: nat :: Passed(extra.fields, numerals, end, k, n) {
        assert Passed(
          extra.fields, numerals, end, k, BoundaryOf(ScopesIn(extra.fields), numerals, k).token);
      }
    }
  }

  lemma AssembledKeepsBoth(keys: map<string, Value>, scopes: map<string, Value>)
    requires SCOPES !in keys
    ensures var resolved := Assemble(keys, scopes);
      var left := if resolved.VObj? then resolved.fields else map[];
      && (resolved.VObj? && resolved.fields != map[]) != (resolved == VNull)
      && (forall k :: k != SCOPES ==> (k in left <==> k in keys))
      && (forall k :: k in keys ==> left[k] == keys[k])
      && (SCOPES in left <==> scopes != map[])
      && (scopes != map[] ==> left[SCOPES] == VObj(scopes))
  {
    if scopes != map[] {
      assert SCOPES in keys[SCOPES := VObj(scopes)];
    }
  }

  /** The dict is visited in an arbitrary order: the result does not depend on it. */
  method CacheExtraKeysForTokenRange(extra: Value, numerals: Numerals, start: int, end: int)
    returns (resolved: Value)
    ensures resolved == Resolve(extra, numerals, Max(start, end))
  {
    if !extra.VObj? {
      return extra;
    }
    var fields := extra.fields;
    var scopes := ScopesIn(fields);
    if scopes == map[] {
      return extra;
    }
    var kept, active := map[], map[];
    var rangeEnd := Max(start, end);
    ghost var allKept := KeysInForce(fields, numerals, rangeEnd);
    ghost var allActive := ScopesInForce(fields, numerals, rangeEnd);
    var todo := fields.Keys;
    while todo != {}
      invariant todo <= fields.Keys
      invariant forall k :: k in kept <==> k in allKept && k !in todo
      invariant forall k :: k in kept ==> kept[k] == allKept[k]
      invariant forall k :: k in active <==> k in allActive && k !in todo
      invariant forall k :: k in active ==> active[k] == allActive[k]
      decreases |todo|
    {
      var key :| key in todo;
      todo := todo - {key};
      if key != SCOPES {
        match BoundaryOf(scopes, numerals, key) {
          case From(boundary) =>
            if rangeEnd > boundary {
              kept := kept[key := fields[key]];
              active := active[key := VInt(boundary)];
            }
          case _ =>
            kept := kept[key := fields[key]];
        }
      }
    }
    assert kept == allKept && active == allActive;
    resolved := Assemble(kept, active);
  }

  // ---------------------------------------------------------------------------
  // What resolution depends on
  // ---------------------------------------------------------------------------

  lemma AssembleIsInjective(
    k1: map<string, Value>, s1: map<string, Value>, k2: map<string, Value>, s2: map<string, Value>)
    requires SCOPES !in k1 && SCOPES !in k2
    ensures Assemble(k1, s1) == Assemble(k2, s2) <==> k1 == k2 && s1 == s2
  {
    var r1 := if s1 == map[] then k1 else k1[SCOPES := VObj(s1)];
    var r2 := if s2 == map[] then k2 else k2[SCOPES := VObj(s2)];
    assert SCOPES in r1 <==> s1 != map[];
    assert SCOPES in r2 <==> s2 != map[];
    assert r1 - {SCOPES} == k1 && r2 - {SCOPES} == k2;
    if Assemble(k1, s1) == Assemble(k2, s2) {
      assert r1 == r2;
      if s1 != map[] { assert r1[SCOPES] == VObj(s1) && r2[SCOPES] == VObj(s2); }
    }
  }

  /** Resolving again at a second end is resolving once at the smaller of the two. */
  lemma ResolvingTwice(extra: Value, numerals: Numerals, e1: int, e2: int)
    ensures Resolve(Resolve(extra, numerals, e1), numerals, e2)
      == Resolve(extra, numerals, if e1 < e2 then e1 else e2)
  {
    var least := if e1 < e2 then e1 else e2;
    if extra.VObj? && ScopesIn(extra.fields) != map[] {
      var fields := extra.fields;
      var kept, active := KeysInForce(fields, numerals, e1), ScopesInForce(fields, numerals, e1);
      var once := Resolve(extra, numerals, e1);
      if active == map[] {
        assert KeysInForce(fields, numerals, least) == kept by {
          forall k | k in kept ensures !BoundaryOf(ScopesIn(fields), numerals, k).From? {
            assert k !in active;
          }
        }
        assert ScopesInForce(fields, numerals, least) == map[];
        assert once.VObj? ==> ScopesIn(once.fields) == map[];
      } else {
        assert once == VObj(kept[SCOPES := VObj(active)]);
        assert ScopesIn(once.fields) == active;
        ResolvingAgain(fields, numerals, e1, e2);
      }
    }
  }

  lemma ResolvingAgain(fields: map<string, Value>, numerals: Numerals, e1: int, e2: int)
    requires var active := ScopesInForce(fields, numerals, e1); active != map[]
    ensures var least := if e1 < e2 then e1 else e2;
      var once := KeysInForce(fields, numerals, e1)[SCOPES := VObj(ScopesInForce(fields, numerals, e1))];
      && KeysInForce(once, numerals, e2) == KeysInForce(fields, numerals, least)
      && ScopesInForce(once, numerals, e2) == ScopesInForce(fields, numerals, least)
  {
    var least := if e1 < e2 then e1 else e2;
    var active, kept := ScopesInForce(fields, numerals, e1), KeysInForce(fields, numerals, e1);
    var once := kept[SCOPES := VObj(active)];
    forall k ensures PassedBoundary(once, numerals, e2, k) == PassedBoundary(fields, numerals, least, k) {
      KeyResolvedAgain(fields, numerals, e1, e2, k);
    }
    SamePassedBoundaries(once, e2, fields, least, numerals);
    var k1, k2 := KeysInForce(once, numerals, e2), KeysInForce(fields, numerals, least);
    forall k ensures k in k1 <==> k in k2 {
      KeyResolvedAgain(fields, numerals, e1, e2, k);
    }
  }

  /** One key of a dict that was resolved before. */
  lemma KeyResolvedAgain(fields: map<string, Value>, numerals: Numerals, e1: int, e2: int, key: string)
    ensures var least := if e1 < e2 then e1 else e2;
      var once := KeysInForce(fields, numerals, e1)[SCOPES := VObj(ScopesInForce(fields, numerals, e1))];
      && (key in KeysInForce(once, numerals, e2) <==> key in KeysInForce(fields, numerals, least))
      && PassedBoundary(once, numerals, e2, key) == PassedBoundary(fields, numerals, least, key)
  {
    var active, kept := ScopesInForce(fields, numerals, e1), KeysInForce(fields, numerals, e1);
    assert ScopesIn(kept[SCOPES := VObj(active)]) == active;
    assert key in active <==> PassedBoundary(fields, numerals, e1, key).Some?;
  }

  /** A longer range keeps every key, value and boundary of a shorter one. */
  lemma LongerRangesKeepKeys(fields: map<string, Value>, numerals: Numerals, e1: int, e2: int)
    requires e1 <= e2
    ensures KeysInForce(fields, numerals, e1).Items <= KeysInForce(fields, numerals, e2).Items
    ensures ScopesInForce(fields, numerals, e1).Items <= ScopesInForce(fields, numerals, e2).Items
  {
    var k1, k2 := KeysInForce(fields, numerals, e1), KeysInForce(fields, numerals, e2);
    var s1, s2 := ScopesInForce(fields, numerals, e1), ScopesInForce(fields, numerals, e2);
    assert forall k :: k in k1 ==> k in k2 && k1[k] == k2[k];
    assert forall k :: k in s1 ==> k in s2 && s1[k] == s2[k];
  }

  /**
   Requests that differ only in one key's value resolve alike exactly on the ranges that
   end at or before the key's boundary: nowhere if it is unscoped or malformed.
   */
  lemma ValueIsHiddenBeforeItsBoundary(
    fields: map<string, Value>, numerals: Numerals, key: string, v1: Value, v2: Value, end: int)
    requires key != SCOPES && v1 != v2
    ensures Resolve(VObj(fields[key := v1]), numerals, end)
        == Resolve(VObj(fields[key := v2]), numerals, end)
      <==> !Active(BoundaryOf(ScopesIn(fields), numerals, key), end)
  {
    var f1, f2 := fields[key := v1], fields[key := v2];
    assert ScopesIn(f1) == ScopesIn(f2) == ScopesIn(fields);
    assert f1[key] != f2[key];
    if ScopesIn(fields) != map[] {
      var k1, k2 := KeysInForce(f1, numerals, end), KeysInForce(f2, numerals, end);
      AssembleIsInjective(
        k1, ScopesInForce(f1, numerals, end), k2, ScopesInForce(f2, numerals, end));
      assert key in k1 <==> Active(BoundaryOf(ScopesIn(fields), numerals, key), end);
      if key in k1 {
        assert k1[key] != k2[key];
      } else {
        assert k1 == k2;
        SamePassedBoundaries(f1, end, f2, end, numerals);
      }
    }
  }

  lemma SamePassedBoundaries(
    f1: map<string, Value>, e1: int, f2: map<string, Value>, e2: int, numerals: Numerals)
    requires forall k :: PassedBoundary(f1, numerals, e1, k) == PassedBoundary(f2, numerals, e2, k)
    ensures ScopesInForce(f1, numerals, e1) == ScopesInForce(f2, numerals, e2)
  {
    var s1, s2 := ScopesInForce(f1, numerals, e1), ScopesInForce(f2, numerals, e2);
    forall k ensures k in s1 <==> k in s2 {
      assert PassedBoundary(f1, numerals, e1, k) == PassedBoundary(f2, numerals, e2, k);
    }
  }

  /**
   Requests that give a key they both hold different boundaries resolve alike exactly on the
   ranges that end at or before the smaller one.
   */
  lemma BoundariesAreHiddenBeforeTheFirst(
    fields: map<string, Value>, numerals: Numerals, key: string, b1: nat, b2: nat, end: int)
    requires key != SCOPES && b1 != b2
    ensures Resolve(VObj(WithBoundary(fields, key, b1)), numerals, end)
        == Resolve(VObj(WithBoundary(fields, key, b2)), numerals, end)
      <==> key !in fields || end <= if b1 < b2 then b1 else b2
  {
    var f1, f2 := WithBoundary(fields, key, b1), WithBoundary(fields, key, b2);
    var k1, k2 := KeysInForce(f1, numerals, end), KeysInForce(f2, numerals, end);
    AssembleIsInjective(
      k1, ScopesInForce(f1, numerals, end), k2, ScopesInForce(f2, numerals, end));
    BoundaryInEffect(fields, numerals, key, b1, end);
    BoundaryInEffect(fields, numerals, key, b2, end);
    if key in fields && end > b1 && end > b2 {
      assert ScopesInForce(f1, numerals, end)[key] != ScopesInForce(f2, numerals, end)[key];
    } else if key !in fields || (end <= b1 && end <= b2) {
      OtherKeysInForce(fields, numerals, key, b1, b2, end);
      SamePassedBoundaries(f1, end, f2, end, numerals);
    }
  }

  lemma BoundaryInEffect(
    fields: map<string, Value>, numerals: Numerals, key: string, boundary: nat, end: int)
    requires key != SCOPES
    ensures var f := WithBoundary(fields, key, boundary);
      && ScopesIn(f) != map[]
      && (key in KeysInForce(f, numerals, end) <==> key in fields && end > boundary)
      && PassedBoundary(f, numerals, end, key)
           == (if key in fields && end > boundary then Some(VInt(boundary)) else None)
  {
    var f := WithBoundary(fields, key, boundary);
    assert ScopesIn(f) == ScopesIn(fields)[key := VInt(boundary)];
    assert key in ScopesIn(f);
    assert BoundaryOf(ScopesIn(f), numerals, key) == From(boundary);
  }

  lemma OtherKeysInForce(
    fields: map<string, Value>, numerals: Numerals, key: string, b1: nat, b2: nat, end: int)
    requires key != SCOPES && (key !in fields || (end <= b1 && end <= b2))
    ensures var f1, f2 := WithBoundary(fields, key, b1), WithBoundary(fields, key, b2);
      && KeysInForce(f1, numerals, end) == KeysInForce(f2, numerals, end)
      && forall k :: PassedBoundary(f1, numerals, end, k) == PassedBoundary(f2, numerals, end, k)
  {
    var f1, f2 := WithBoundary(fields, key, b1), WithBoundary(fields, key, b2);
    BoundaryInEffect(fields, numerals, key, b1, end);
    BoundaryInEffect(fields, numerals, key, b2, end);
    forall k | k != key
      ensures BoundaryOf(ScopesIn(f1), numerals, k) == BoundaryOf(ScopesIn(f2), numerals, k)
    {
      assert ScopesIn(f1) == ScopesIn(fields)[key := VInt(b1)];
      assert ScopesIn(f2) == ScopesIn(fields)[key := VInt(b2)];
    }
    var k1, k2 := KeysInForce(f1, numerals, end), KeysInForce(f2, numerals, end);
    forall k ensures k in k1 <==> k in k2 {
      if k != key && k != SCOPES {
        assert k in f1 <==> k in f2;
      }
    }
  }

  // ---------------------------------------------------------------------------
  // Canonical markers
  // ---------------------------------------------------------------------------

  /** Sorted, compact, ASCII-only JSON text; no text at all for a missing discriminator. */
  function CanonicalMarker(extra: Json): Option<string> {
    if extra.Null? then None else Some(JsonText.Print(SortKeys(extra)))
  }

  /** Equal markers are exactly equal discriminators, whatever the insertion order. */
  lemma MarkersDecideEquality(a: Json, b: Json)
    requires WellFormed(a) && WellFormed(b)
    ensures CanonicalMarker(a) == CanonicalMarker(b) <==> Meaning(a) == Meaning(b)
    ensures CanonicalMarker(a) == None <==> a == Null
  {
    JsonText.ParseInvertsPrint(SortKeys(a));
    JsonText.ParseInvertsPrint(SortKeys(b));
    SortedFormDecidesEquality(a, b);
  }
}
