/**
 JSON values as Python holds them, and what makes two of them equal: a dict is a list of
 entries in insertion order, and its meaning forgets that order.

 Strings are sequences of Unicode scalar values, which is what `char` ranges over.
 */
module Json {

  datatype Json =
    | Null
    | Bool(b: bool)
    | Int(n: int)
    | Str(s: string)
    | Arr(items: seq<Json>)
    | Obj(entries: seq<Entry>)

  datatype Entry = Entry(key: string, value: Json)

  /** A value up to the order of dict entries. */
  datatype Value =
    | VNull
    | VBool(b: bool)
    | VInt(n: int)
    | VStr(s: string)
    | VArr(items: seq<Value>)
    | VObj(fields: map<string, Value>)

  function Keys(es: seq<Entry>): set<string> {
    set e | e in es :: e.key
  }

  /** No dict holds the same key twice. */
  predicate WellFormed(v: Json) {
    match v
    case Arr(items) => forall i :: 0 <= i < |items| ==> WellFormed(items[i])
    case Obj(es) => WellFormedEntries(es)
    case _ => true
  }

  predicate WellFormedEntries(es: seq<Entry>) {
    es == [] ||
    (WellFormed(es[0].value) && es[0].key !in Keys(es[1..]) && WellFormedEntries(es[1..]))
  }

  function Meaning(v: Json): Value {
    match v
    case Null => VNull
    case Bool(b) => VBool(b)
    case Int(n) => VInt(n)
    case Str(s) => VStr(s)
    case Arr(items) => VArr(seq(|items|, i requires 0 <= i < |items| => Meaning(items[i])))
    case Obj(es) => VObj(MeaningEntries(es))
  }

  function MeaningEntries(es: seq<Entry>): (m: map<string, Value>)
    ensures m.Keys == Keys(es)
  {
    if es == [] then map[]
    else
      assert es == [es[0]] + es[1..];
      MeaningEntries(es[1..])[es[0].key := Meaning(es[0].value)]
  }

  // ---------------------------------------------------------------------------
  // Key order
  // ---------------------------------------------------------------------------

  /** Python's string order: lexicographic by code point. */
  predicate Before(a: string, b: string) {
    if b == "" then false
    else if a == "" then true
    else if a[0] != b[0] then a[0] < b[0]
    else Before(a[1..], b[1..])
  }

  /** `k` is the first place where the keys differ, if they do within both. */
  ghost predicate DifferAt(a: string, b: string, k: nat) {
    && k <= |a| && k <= |b| && (forall i :: 0 <= i < k ==> a[i] == b[i])
    && (k < |a| && k < |b| ==> a[k] != b[k])
  }

  /** One key comes before another if it is a prefix of it, or smaller where they first differ. */
  lemma {:induction false} OrderIsByCodePoint(a: string, b: string, k: nat)
    requires DifferAt(a, b, k)
    ensures Before(a, b) <==> k < |b| && (k == |a| || a[k] < b[k])
  {
    if k > 0 {
      assert DifferAt(a[1..], b[1..], k - 1);
      OrderIsByCodePoint(a[1..], b[1..], k - 1);
    }
  }

  lemma {:induction false} BeforeIsTotal(a: string, b: string)
    ensures a == b || Before(a, b) || Before(b, a)
  {
    if a != "" && b != "" && a[0] == b[0] {
      BeforeIsTotal(a[1..], b[1..]);
      assert a == [a[0]] + a[1..] && b == [b[0]] + b[1..];
    }
  }

  lemma {:induction false} BeforeIsStrict(a: string, b: string)
    requires Before(a, b)
    ensures a != b && !Before(b, a)
  {
    if a != "" && a[0] == b[0] {
      BeforeIsStrict(a[1..], b[1..]);
    }
  }

  lemma {:induction false} BeforeIsTransitive(a: string, b: string, c: string)
    requires Before(a, b) && Before(b, c)
    ensures Before(a, c)
  {
    if a != "" && a[0] == b[0] && b[0] == c[0] {
      BeforeIsTransitive(a[1..], b[1..], c[1..]);
    }
  }

  // ---------------------------------------------------------------------------
  // Sorting the keys of every dict
  // ---------------------------------------------------------------------------

  predicate Sorted(es: seq<Entry>) {
    forall i, j :: 0 <= i < j < |es| ==> Before(es[i].key, es[j].key)
  }

  function Insert(e: Entry, es: seq<Entry>): (r: seq<Entry>)
    ensures |r| == |es| + 1
  {
    if es != [] && Before(es[0].key, e.key) then [es[0]] + Insert(e, es[1..]) else [e] + es
  }

  function Sort(es: seq<Entry>): (r: seq<Entry>)
    ensures |r| == |es|
  {
    if es == [] then [] else Insert(es[0], Sort(es[1..]))
  }

  function SortKeys(v: Json): Json {
    match v
    case Arr(items) => Arr(seq(|items|, i requires 0 <= i < |items| => SortKeys(items[i])))
    case Obj(es) => Obj(Sort(SortKeysOfEach(es)))
    case _ => v
  }

  function SortKeysOfEach(es: seq<Entry>): (r: seq<Entry>)
    ensures |r| == |es|
  {
    if es == [] then []
    else [Entry(es[0].key, SortKeys(es[0].value))] + SortKeysOfEach(es[1..])
  }

  /** Every dict of the value is strictly sorted. */
  predicate Canonical(v: Json) {
    match v
    case Arr(items) => forall i :: 0 <= i < |items| ==> Canonical(items[i])
    case Obj(es) => Sorted(es) && forall i :: 0 <= i < |es| ==> Canonical(es[i].value)
    case _ => true
  }

  lemma KeysOfCons(es: seq<Entry>)
    requires es != []
    ensures Keys(es) == {es[0].key} + Keys(es[1..])
  {
    assert es == [es[0]] + es[1..];
  }

  lemma {:induction false} InsertKeepsElements(e: Entry, es: seq<Entry>)
    ensures forall x :: x in Insert(e, es) <==> x == e || x in es
  {
    if es != [] && Before(es[0].key, e.key) {
      InsertKeepsElements(e, es[1..]);
      assert es == [es[0]] + es[1..];
    }
  }

  lemma {:induction false} InsertKeepsMeaning(e: Entry, es: seq<Entry>)
    requires e.key !in Keys(es)
    ensures MeaningEntries(Insert(e, es)) == MeaningEntries(es)[e.key := Meaning(e.value)]
  {
    var r := Insert(e, es);
    if es != [] && Before(es[0].key, e.key) {
      KeysOfCons(es);
      InsertKeepsMeaning(e, es[1..]);
      assert r[0] == es[0] && r[1..] == Insert(e, es[1..]);
      UpdatesCommute(
        MeaningEntries(es[1..]), e.key, Meaning(e.value), es[0].key, Meaning(es[0].value));
    } else {
      assert r[0] == e && r[1..] == es;
    }
  }

  lemma UpdatesCommute(m: map<string, Value>, a: string, x: Value, b: string, y: Value)
    requires a != b
    ensures m[a := x][b := y] == m[b := y][a := x]
  {
  }

  lemma {:induction false} InsertKeepsOrder(e: Entry, es: seq<Entry>)
    requires Sorted(es) && e.key !in Keys(es)
    ensures Sorted(Insert(e, es))
  {
    if es != [] {
      KeysOfCons(es);
      var head, r := es[0], Insert(e, es[1..]);
      if Before(head.key, e.key) {
        InsertKeepsOrder(e, es[1..]);
        InsertKeepsElements(e, es[1..]);
        forall j | 0 <= j < |r| ensures Before(head.key, r[j].key) {
          assert r[j] in r;
        }
      } else {
        BeforeIsTotal(head.key, e.key);
        forall j | 0 <= j < |es| ensures Before(e.key, es[j].key) {
          if j > 0 { BeforeIsTransitive(e.key, head.key, es[j].key); }
        }
      }
    }
  }

  lemma {:induction false} SortSorts(es: seq<Entry>)
    requires WellFormedEntries(es)
    ensures Sorted(Sort(es))
    ensures Keys(Sort(es)) == Keys(es)
    ensures MeaningEntries(Sort(es)) == MeaningEntries(es)
    ensures forall x :: x in Sort(es) <==> x in es
  {
    if es != [] {
      assert es == [es[0]] + es[1..];
      SortSorts(es[1..]);
      InsertKeepsOrder(es[0], Sort(es[1..]));
      InsertKeepsElements(es[0], Sort(es[1..]));
      InsertKeepsMeaning(es[0], Sort(es[1..]));
    }
  }

  lemma {:induction false} SortKeysIsCanonical(v: Json)
    requires WellFormed(v)
    ensures Canonical(SortKeys(v)) && WellFormed(SortKeys(v))
    ensures Meaning(SortKeys(v)) == Meaning(v)
    decreases v
  {
    match v
    case Arr(items) =>
      forall i | 0 <= i < |items|
        ensures Canonical(SortKeys(items[i])) && WellFormed(SortKeys(items[i]))
        ensures Meaning(SortKeys(items[i])) == Meaning(items[i])
      {
        SortKeysIsCanonical(items[i]);
      }
    case Obj(es) =>
      var each := SortKeysOfEach(es);
      SortKeysOfEachIsCanonical(es);
      SortSorts(each);
      forall i | 0 <= i < |each| ensures Canonical(Sort(each)[i].value) {
        assert Sort(each)[i] in each;
      }
      SortedIsWellFormed(Sort(each));
    case _ =>
  }

  lemma {:induction false} SortKeysOfEachIsCanonical(es: seq<Entry>)
    requires WellFormedEntries(es)
    ensures var each := SortKeysOfEach(es);
      && WellFormedEntries(each)
      && Keys(each) == Keys(es)
      && MeaningEntries(each) == MeaningEntries(es)
      && (forall e :: e in each ==> Canonical(e.value) && WellFormed(e.value))
    decreases es
  {
    if es != [] {
      KeysOfCons(es);
      SortKeysIsCanonical(es[0].value);
      SortKeysOfEachIsCanonical(es[1..]);
      var each := SortKeysOfEach(es);
      assert each[1..] == SortKeysOfEach(es[1..]);
      KeysOfCons(each);
    }
  }

  lemma {:induction false} SortedIsWellFormed(es: seq<Entry>)
    requires Sorted(es) && forall e :: e in es ==> WellFormed(e.value)
    ensures WellFormedEntries(es)
  {
    if es != [] {
      SortedIsWellFormed(es[1..]);
      forall e | e in es[1..] ensures e.key != es[0].key {
        var k :| 0 <= k < |es[1..]| && es[1..][k] == e;
        assert es[k + 1] == e;
        BeforeIsStrict(es[0].key, es[k + 1].key);
      }
    }
  }

  // ---------------------------------------------------------------------------
  // A meaning has one canonical form
  // ---------------------------------------------------------------------------

  lemma {:induction false} CanonicalIsUnique(a: Json, b: Json)
    requires Canonical(a) && Canonical(b) && Meaning(a) == Meaning(b)
    ensures a == b
    decreases a
  {
    match a
    case Arr(items) =>
      assert |items| == |Meaning(a).items| == |b.items|;
      forall i | 0 <= i < |items| ensures items[i] == b.items[i] {
        assert Meaning(a).items[i] == Meaning(b).items[i];
        CanonicalIsUnique(items[i], b.items[i]);
      }
    case Obj(es) =>
      SortedEntriesAreUnique(es, b.entries);
    case _ =>
  }

  lemma {:induction false} SortedEntriesAreUnique(a: seq<Entry>, b: seq<Entry>)
    requires Sorted(a) && Sorted(b)
    requires forall i :: 0 <= i < |a| ==> Canonical(a[i].value)
    requires forall i :: 0 <= i < |b| ==> Canonical(b[i].value)
    requires MeaningEntries(a) == MeaningEntries(b)
    ensures a == b
    decreases a
  {
    assert Keys(a) == MeaningEntries(a).Keys == MeaningEntries(b).Keys == Keys(b);
    NoKeysNoEntries(a);
    NoKeysNoEntries(b);
    if a != [] {
      LeastKeyIsFirst(a, b);
      HeadMeaning(a);
      HeadMeaning(b);
      CanonicalIsUnique(a[0].value, b[0].value);
      SortedEntriesAreUnique(a[1..], b[1..]);
      assert a == [a[0]] + a[1..] && b == [b[0]] + b[1..];
    }
  }

  lemma NoKeysNoEntries(es: seq<Entry>)
    ensures Keys(es) == {} <==> es == []
  {
    if es != [] { assert es[0].key in Keys(es); }
  }

  lemma LeastKeyIsFirst(a: seq<Entry>, b: seq<Entry>)
    requires a != [] && b != [] && Sorted(a) && Sorted(b) && Keys(a) == Keys(b)
    ensures a[0].key == b[0].key
  {
    assert a[0].key in Keys(a) && b[0].key in Keys(b);
    var i :| 0 <= i < |b| && b[i].key == a[0].key;
    var j :| 0 <= j < |a| && a[j].key == b[0].key;
    if i > 0 && j > 0 {
      BeforeIsStrict(b[0].key, b[i].key);
      assert false;
    }
  }

  /** The first of sorted entries is in the meaning, and the rest mean the rest of the map. */
  lemma HeadMeaning(es: seq<Entry>)
    requires es != [] && Sorted(es)
    ensures MeaningEntries(es)[es[0].key] == Meaning(es[0].value)
    ensures MeaningEntries(es[1..]) == MeaningEntries(es) - {es[0].key}
  {
    if es[0].key in Keys(es[1..]) {
      var k :| 0 <= k < |es[1..]| && es[1..][k].key == es[0].key;
      BeforeIsStrict(es[0].key, es[k + 1].key);
    }
    var rest := MeaningEntries(es[1..]);
    assert es[0].key !in rest;
    assert rest[es[0].key := Meaning(es[0].value)] - {es[0].key} == rest;
  }

  /** Two values are equal up to entry order exactly when their sorted forms are equal. */
  lemma SortedFormDecidesEquality(a: Json, b: Json)
    requires WellFormed(a) && WellFormed(b)
    ensures SortKeys(a) == SortKeys(b) <==> Meaning(a) == Meaning(b)
  {
    SortKeysIsCanonical(a);
    SortKeysIsCanonical(b);
    if Meaning(a) == Meaning(b) {
      CanonicalIsUnique(SortKeys(a), SortKeys(b));
    }
  }
}
