/**
 Choosing the drafting depth from a benchmark: the fastest depth among those that gave the
 baseline's output and beat the baseline's speed.
 */
module DepthSelection {
  import opened Common
  import opened Sequences

  /** One benchmarked configuration; the baseline has no depth. */
  datatype Row = Row(name: string, depth: Option<int>, speed: Option<real>)

  /** One repetition compared with the baseline; a missing label is empty. */
  datatype Comparison = Comparison(name: string, sameText: bool, sameTokens: bool)

  datatype Reason = OutputNotEquivalent | MissingSpeed | NotFasterThanBaseline

  datatype Candidate = Candidate(depth: int, name: string, speed: real)

  datatype Rejection = Rejection(depth: int, name: string, reason: Reason)

  datatype Selection = Selection(
    best: Option<Candidate>, speedup: Option<real>, candidateCount: nat, rejected: seq<Rejection>)

  const BASELINE := "baseline_no_mtp"

  // ---------------------------------------------------------------------------
  // What makes a row eligible
  // ---------------------------------------------------------------------------

  predicate Matches(c: Comparison) {
    c.sameText && c.sameTokens
  }

  ghost predicate Compared(comparisons: seq<Comparison>, name: string) {
    exists c :: c in comparisons && c.name == name
  }

  /** The label was compared, and never found to differ. */
  ghost predicate Verified(comparisons: seq<Comparison>, name: string) {
    && Compared(comparisons, name)
    && forall c :: c in comparisons && c.name == name ==> c.sameText && c.sameTokens
  }

  ghost predicate SomethingWasCompared(comparisons: seq<Comparison>) {
    exists c :: c in comparisons && c.name != ""
  }

  function LabelOf(row: Row, defaultLabel: int -> string): string
    requires row.depth.Some?
  {
    if row.name == "" then defaultLabel(row.depth.value) else row.name
  }

  /** The verdict table: a label's entry is true while all its comparisons match. */
  ghost predicate Tabulates(verdicts: map<string, bool>, comparisons: seq<Comparison>) {
    && (forall name :: name in verdicts <==> name != "" && Compared(comparisons, name))
    && (forall name :: name in verdicts ==> (verdicts[name] <==> Verified(comparisons, name)))
  }

  /** Why a row with a depth is refused, if it is. */
  function Refusal(row: Row, name: string, verdicts: map<string, bool>, baseline: Option<real>)
    : Option<Reason>
  {
    if verdicts != map[] && !(name in verdicts && verdicts[name]) then Some(OutputNotEquivalent)
    else if row.speed.None? then Some(MissingSpeed)
    else if baseline.Some? && row.speed.value <= baseline.value then Some(NotFasterThanBaseline)
    else None
  }

  predicate Eligible(
    row: Row, defaultLabel: int -> string, verdicts: map<string, bool>, baseline: Option<real>)
  {
    row.depth.Some? && Refusal(row, LabelOf(row, defaultLabel), verdicts, baseline).None?
  }

  function CandidateOf(row: Row, defaultLabel: int -> string): Candidate
    requires row.depth.Some? && row.speed.Some?
  {
    Candidate(row.depth.value, LabelOf(row, defaultLabel), row.speed.value)
  }

  /** The rejections of the rows, in order. */
  function Rejections(
    rows: seq<Row>, defaultLabel: int -> string, verdicts: map<string, bool>, baseline: Option<real>)
    : seq<Rejection>
  {
    if rows == [] then []
    else
      var row := rows[|rows| - 1];
      Rejections(rows[..|rows| - 1], defaultLabel, verdicts, baseline)
      + if row.depth.None? || Eligible(row, defaultLabel, verdicts, baseline) then []
        else
          var name := LabelOf(row, defaultLabel);
          [Rejection(row.depth.value, name, Refusal(row, name, verdicts, baseline).value)]
  }

  /** The candidates of the rows, in order. */
  function Candidates(
    rows: seq<Row>, defaultLabel: int -> string, verdicts: map<string, bool>, baseline: Option<real>)
    : seq<Candidate>
  {
    if rows == [] then []
    else
      var row := rows[|rows| - 1];
      Candidates(rows[..|rows| - 1], defaultLabel, verdicts, baseline)
      + if Eligible(row, defaultLabel, verdicts, baseline) then [CandidateOf(row, defaultLabel)] else []
  }

  function Depths(rows: seq<Row>): nat {
    if rows == [] then 0
    else Depths(rows[..|rows| - 1]) + if rows[|rows| - 1].depth.Some? then 1 else 0
  }

  /** The speed of the first baseline row, if it has one. */
  function BaselineSpeed(rows: seq<Row>): Option<real> {
    if rows == [] then None
    else if rows[0].name == BASELINE then rows[0].speed
    else BaselineSpeed(rows[1..])
  }

  // ---------------------------------------------------------------------------
  // The selection
  // ---------------------------------------------------------------------------

  method Tabulate(comparisons: seq<Comparison>) returns (verdicts: map<string, bool>)
    ensures Tabulates(verdicts, comparisons)
  {
    verdicts := map[];
    for i := 0 to |comparisons|
      invariant Tabulates(verdicts, comparisons[..i])
    {
      var c := comparisons[i];
      OneMoreComparison(verdicts, comparisons[..i], c);
      assert comparisons[..i + 1] == comparisons[..i] + [c];
      if c.name != "" {
        var before := if c.name in verdicts then verdicts[c.name] else true;
        verdicts := verdicts[c.name := before && Matches(c)];
      }
    }
    assert comparisons[..|comparisons|] == comparisons;
  }

  lemma OneMoreComparison(verdicts: map<string, bool>, comparisons: seq<Comparison>, c: Comparison)
    requires Tabulates(verdicts, comparisons)
    ensures Tabulates(
      if c.name == "" then verdicts
      else verdicts[c.name := (c.name in verdicts ==> verdicts[c.name]) && Matches(c)],
      comparisons + [c])
  {
    var all := comparisons + [c];
    assert c in all && forall x :: x in all <==> x in comparisons || x == c;
    forall name
      ensures Compared(all, name) <==> Compared(comparisons, name) || name == c.name
      ensures name != c.name ==> (Verified(all, name) <==> Verified(comparisons, name))
      ensures name == c.name ==>
        (Verified(all, name)
         <==> (Compared(comparisons, name) ==> Verified(comparisons, name)) && Matches(c))
    {
    }
  }

  method FindBaseline(rows: seq<Row>) returns (baseline: Option<real>)
    ensures baseline == BaselineSpeed(rows)
  {
    baseline := None;
    for i := 0 to |rows|
      invariant BaselineSpeed(rows) == BaselineSpeed(rows[i..])
    {
      assert rows[i..][1..] == rows[i + 1..];
      if rows[i].name == BASELINE {
        return rows[i].speed;
      }
    }
  }

  method Sift(
    rows: seq<Row>, defaultLabel: int -> string, verdicts: map<string, bool>, baseline: Option<real>)
    returns (candidates: seq<Candidate>, count: nat, rejected: seq<Rejection>)
    ensures count == Depths(rows)
    ensures candidates == Candidates(rows, defaultLabel, verdicts, baseline)
    ensures rejected == Rejections(rows, defaultLabel, verdicts, baseline)
  {
    candidates, count, rejected := [], 0, [];
    for i := 0 to |rows|
      invariant count == Depths(rows[..i])
      invariant candidates == Candidates(rows[..i], defaultLabel, verdicts, baseline)
      invariant rejected == Rejections(rows[..i], defaultLabel, verdicts, baseline)
    {
      assert rows[..i + 1][..i] == rows[..i];
      var row := rows[i];
      if row.depth.Some? {
        count := count + 1;
        var name := LabelOf(row, defaultLabel);
        match Refusal(row, name, verdicts, baseline) {
          case Some(reason) => rejected := rejected + [Rejection(row.depth.value, name, reason)];
          case None => candidates := candidates + [Candidate(row.depth.value, name, row.speed.value)];
        }
      }
    }
    assert rows[..|rows|] == rows;
  }

  /**
   The first fastest of the rows that qualify is selected; every other row with a depth is
   refused, in order, with the reason that applies to it.
   */
  method SelectBestDepth(rows: seq<Row>, comparisons: seq<Comparison>, defaultLabel: int -> string)
    returns (s: Selection, ghost best: nat, ghost refused: seq<nat>)
    ensures IsFastest(s.best, best, rows, comparisons, defaultLabel, BaselineSpeed(rows))
    ensures AreRefused(s.rejected, refused, rows, comparisons, defaultLabel, BaselineSpeed(rows))
    ensures s.candidateCount == |set i | 0 <= i < |rows| && rows[i].depth.Some?|
    ensures s.speedup.Some? <==>
      s.best.Some? && BaselineSpeed(rows).Some? && BaselineSpeed(rows).value != 0.0
    ensures s.speedup.Some? ==>
      s.speedup.value * BaselineSpeed(rows).value == s.best.value.speed
    ensures s.speedup.Some? && BaselineSpeed(rows).value > 0.0 ==> s.speedup.value > 1.0
  {
    var baseline := FindBaseline(rows);
    var fastest, count, rejected;
    fastest, count, rejected, best, refused := Choose(rows, comparisons, defaultLabel, baseline);
    var speedup := Speedup(fastest, baseline);
    s := Selection(fastest, speedup, count, rejected);
  }

  method Choose(
    rows: seq<Row>, comparisons: seq<Comparison>, defaultLabel: int -> string, baseline: Option<real>)
    returns (fastest: Option<Candidate>, count: nat, rejected: seq<Rejection>,
             ghost best: nat, ghost refused: seq<nat>)
    ensures IsFastest(fastest, best, rows, comparisons, defaultLabel, baseline)
    ensures AreRefused(rejected, refused, rows, comparisons, defaultLabel, baseline)
    ensures count == |set i | 0 <= i < |rows| && rows[i].depth.Some?|
  {
    var verdicts := Tabulate(comparisons);
    var candidates;
    candidates, count, rejected := Sift(rows, defaultLabel, verdicts, baseline);
    refused := RejectionsAreTheRest(rows, comparisons, defaultLabel, verdicts, baseline);
    DepthsAreCounted(rows);
    fastest := Fastest(candidates);
    best := FastestOfTheRows(rows, comparisons, defaultLabel, verdicts, baseline, candidates, fastest);
  }

  method Speedup(best: Option<Candidate>, baseline: Option<real>) returns (speedup: Option<real>)
    requires best.Some? && baseline.Some? ==> best.value.speed > baseline.value
    ensures speedup.Some? <==> best.Some? && baseline.Some? && baseline.value != 0.0
    ensures speedup.Some? ==> speedup.value * baseline.value == best.value.speed
    ensures speedup.Some? && baseline.value > 0.0 ==> speedup.value > 1.0
  {
    speedup := None;
    if best.Some? && baseline.Some? && baseline.value != 0.0 {
      speedup := Some(best.value.speed / baseline.value);
      if baseline.value > 0.0 {
        SpeedupExceedsOne(speedup.value, baseline.value, best.value.speed);
      }
    }
  }

  /** `k` holds the highest speed, and is the first to. */
  ghost predicate FirstFastest(cs: seq<Candidate>, k: int) {
    && 0 <= k < |cs|
    && (forall i :: 0 <= i < |cs| ==> cs[i].speed <= cs[k].speed)
    && (forall i :: 0 <= i < k ==> cs[i].speed < cs[k].speed)
  }

  method Fastest(cs: seq<Candidate>) returns (best: Option<Candidate>)
    ensures best.None? <==> cs == []
    ensures best.Some? ==> exists k :: FirstFastest(cs, k) && cs[k] == best.value
  {
    if cs == [] {
      return None;
    }
    var k := 0;
    for i := 1 to |cs|
      invariant k < i && FirstFastest(cs[..i], k)
    {
      if cs[i].speed > cs[k].speed {
        k := i;
      }
    }
    assert cs[..|cs|] == cs;
    best := Some(cs[k]);
  }

  // ---------------------------------------------------------------------------
  // What the selection means
  // ---------------------------------------------------------------------------

  /** The row's own label, or the one made from its depth. */
  ghost predicate IsLabel(name: string, row: Row, defaultLabel: int -> string)
    requires row.depth.Some?
  {
    (row.name != "" ==> name == row.name) && (row.name == "" ==> name == defaultLabel(row.depth.value))
  }

  ghost predicate Describes(c: Candidate, row: Row, defaultLabel: int -> string)
    requires row.depth.Some? && row.speed.Some?
  {
    c.depth == row.depth.value && IsLabel(c.name, row, defaultLabel) && c.speed == row.speed.value
  }

  /** Whatever was compared, the row's output was, and it never differed. */
  ghost predicate Equivalent(row: Row, comparisons: seq<Comparison>, defaultLabel: int -> string)
    requires row.depth.Some?
  {
    SomethingWasCompared(comparisons) ==>
      exists name :: IsLabel(name, row, defaultLabel) && name != "" && Verified(comparisons, name)
  }

  /** The row has a depth, its output is the baseline's, and it is faster. */
  ghost predicate Qualifies(
    row: Row, comparisons: seq<Comparison>, defaultLabel: int -> string, baseline: Option<real>)
  {
    && row.depth.Some? && Equivalent(row, comparisons, defaultLabel)
    && row.speed.Some? && (baseline.Some? ==> row.speed.value > baseline.value)
  }

  /** The first of the requirements that the row does not meet. */
  ghost predicate Refused(
    row: Row, comparisons: seq<Comparison>, defaultLabel: int -> string, baseline: Option<real>,
    reason: Reason)
    requires row.depth.Some?
  {
    match reason
    case OutputNotEquivalent => !Equivalent(row, comparisons, defaultLabel)
    case MissingSpeed => Equivalent(row, comparisons, defaultLabel) && row.speed.None?
    case NotFasterThanBaseline =>
      && Equivalent(row, comparisons, defaultLabel) && row.speed.Some? && baseline.Some?
      && row.speed.value <= baseline.value
  }

  /** `best` is the first fastest of the rows that qualify, if any does. */
  ghost predicate IsFastest(
    selected: Option<Candidate>, best: nat, rows: seq<Row>, comparisons: seq<Comparison>,
    defaultLabel: int -> string, baseline: Option<real>)
  {
    match selected
    case None =>
      forall i :: 0 <= i < |rows| ==> !Qualifies(rows[i], comparisons, defaultLabel, baseline)
    case Some(c) =>
      && best < |rows| && Qualifies(rows[best], comparisons, defaultLabel, baseline)
      && Describes(c, rows[best], defaultLabel)
      && forall i :: 0 <= i < |rows| && Qualifies(rows[i], comparisons, defaultLabel, baseline) ==>
           && rows[i].speed.value <= rows[best].speed.value
           && (i < best ==> rows[i].speed.value < rows[best].speed.value)
  }

  /** `at` are the rows with a depth that do not qualify, and the rejections say why. */
  ghost predicate AreRefused(
    rejected: seq<Rejection>, at: seq<nat>, rows: seq<Row>, comparisons: seq<Comparison>,
    defaultLabel: int -> string, baseline: Option<real>)
  {
    && |at| == |rejected| && Lists(at, rows)
    && (forall i: nat :: i < |rows| ==>
          (i in at <==>
             rows[i].depth.Some? && !Qualifies(rows[i], comparisons, defaultLabel, baseline)))
    && (forall k :: 0 <= k < |at| ==>
          Rejects(rejected[k], rows[at[k]], comparisons, defaultLabel, baseline))
  }

  /** The rejection names the row, and the reason that applies to it. */
  ghost predicate Rejects(
    r: Rejection, row: Row, comparisons: seq<Comparison>, defaultLabel: int -> string,
    baseline: Option<real>)
  {
    && row.depth.Some? && r.depth == row.depth.value && IsLabel(r.name, row, defaultLabel)
    && Refused(row, comparisons, defaultLabel, baseline, r.reason)
  }

  /** Places in the rows, in order. */
  ghost predicate Lists(at: seq<nat>, rows: seq<Row>) {
    && (forall k :: 0 <= k < |at| ==> at[k] < |rows|)
    && (forall j, k :: 0 <= j < k < |at| ==> at[j] < at[k])
  }

  /** A row with a depth qualifies exactly if it is not refused, and the reason is the right one. */
  lemma RefusalIsExact(
    row: Row, comparisons: seq<Comparison>, defaultLabel: int -> string,
    verdicts: map<string, bool>, baseline: Option<real>)
    requires Tabulates(verdicts, comparisons) && row.depth.Some?
    ensures Eligible(row, defaultLabel, verdicts, baseline)
      <==> Qualifies(row, comparisons, defaultLabel, baseline)
    ensures IsLabel(LabelOf(row, defaultLabel), row, defaultLabel)
    ensures var refusal := Refusal(row, LabelOf(row, defaultLabel), verdicts, baseline);
      refusal.Some? ==> Refused(row, comparisons, defaultLabel, baseline, refusal.value)
  {
    var name := LabelOf(row, defaultLabel);
    assert IsLabel(name, row, defaultLabel);
    if SomethingWasCompared(comparisons) {
      var other :| other in comparisons && other.name != "";
      assert Compared(comparisons, other.name) && other.name in verdicts;
    } else {
      NothingTabulated(verdicts, comparisons);
    }
  }

  lemma NothingTabulated(verdicts: map<string, bool>, comparisons: seq<Comparison>)
    requires Tabulates(verdicts, comparisons) && !SomethingWasCompared(comparisons)
    ensures verdicts == map[]
  {
    forall name ensures name !in verdicts {
      assert name in verdicts ==> Compared(comparisons, name) && name != "";
    }
  }

  /** The candidates are the rows that qualify, each once, in order. */
  lemma {:induction false} CandidatesAreTheQualifying(
    rows: seq<Row>, comparisons: seq<Comparison>, defaultLabel: int -> string,
    verdicts: map<string, bool>, baseline: Option<real>) returns (at: seq<nat>)
    requires Tabulates(verdicts, comparisons)
    ensures var cs := Candidates(rows, defaultLabel, verdicts, baseline);
      && |at| == |cs| && Lists(at, rows)
      && (forall i: nat :: i < |rows| ==>
            (i in at <==> Qualifies(rows[i], comparisons, defaultLabel, baseline)))
      && (forall k :: 0 <= k < |at| ==>
            && Qualifies(rows[at[k]], comparisons, defaultLabel, baseline)
            && Describes(cs[k], rows[at[k]], defaultLabel))
  {
    at := [];
    if rows != [] {
      var n := |rows| - 1;
      var front := CandidatesAreTheQualifying(rows[..n], comparisons, defaultLabel, verdicts, baseline);
      at := front;
      if rows[n].depth.Some? {
        RefusalIsExact(rows[n], comparisons, defaultLabel, verdicts, baseline);
        if Qualifies(rows[n], comparisons, defaultLabel, baseline) { at := front + [n]; }
      }
      assert forall i: nat :: i < n ==> rows[..n][i] == rows[i];
    }
  }

  /** The refused are the other rows with a depth, in order, each with its reason. */
  lemma {:induction false} RejectionsAreTheRest(
    rows: seq<Row>, comparisons: seq<Comparison>, defaultLabel: int -> string,
    verdicts: map<string, bool>, baseline: Option<real>) returns (at: seq<nat>)
    requires Tabulates(verdicts, comparisons)
    ensures AreRefused(
      Rejections(rows, defaultLabel, verdicts, baseline), at, rows, comparisons, defaultLabel, baseline)
  {
    at := [];
    if rows != [] {
      var n := |rows| - 1;
      var front := RejectionsAreTheRest(rows[..n], comparisons, defaultLabel, verdicts, baseline);
      var before := Rejections(rows[..n], defaultLabel, verdicts, baseline);
      at := front;
      if rows[n].depth.Some? { RefusalIsExact(rows[n], comparisons, defaultLabel, verdicts, baseline); }
      if rows[n].depth.Some? && !Qualifies(rows[n], comparisons, defaultLabel, baseline) {
        at := front + [n];
        var name := LabelOf(rows[n], defaultLabel);
        var r := Rejection(rows[n].depth.value, name, Refusal(rows[n], name, verdicts, baseline).value);
        OneMoreRefused(before, front, rows, comparisons, defaultLabel, baseline, r);
      } else {
        OneMorePassed(before, front, rows, comparisons, defaultLabel, baseline);
        NothingAdded(before);
      }
    }
  }

  lemma OneMoreRefused(
    rejected: seq<Rejection>, at: seq<nat>, rows: seq<Row>, comparisons: seq<Comparison>,
    defaultLabel: int -> string, baseline: Option<real>, r: Rejection)
    requires rows != []
    requires var n := |rows| - 1;
      && AreRefused(rejected, at, rows[..n], comparisons, defaultLabel, baseline)
      && Rejects(r, rows[n], comparisons, defaultLabel, baseline)
      && !Qualifies(rows[n], comparisons, defaultLabel, baseline)
    ensures AreRefused(
      rejected + [r], at + [|rows| - 1], rows, comparisons, defaultLabel, baseline)
  {
    var n := |rows| - 1;
    assert forall i: nat :: i < n ==> rows[..n][i] == rows[i];
  }

  lemma OneMorePassed(
    rejected: seq<Rejection>, at: seq<nat>, rows: seq<Row>, comparisons: seq<Comparison>,
    defaultLabel: int -> string, baseline: Option<real>)
    requires rows != []
    requires var n := |rows| - 1;
      && AreRefused(rejected, at, rows[..n], comparisons, defaultLabel, baseline)
      && (rows[n].depth.None? || Qualifies(rows[n], comparisons, defaultLabel, baseline))
    ensures AreRefused(rejected, at, rows, comparisons, defaultLabel, baseline)
  {
    var n := |rows| - 1;
    assert forall i: nat :: i < n ==> rows[..n][i] == rows[i];
  }

  lemma NoneIsFaster(
    rows: seq<Row>, defaultLabel: int -> string, cs: seq<Candidate>, at: seq<nat>, k: int, i: nat)
    requires |at| == |cs| && Lists(at, rows) && FirstFastest(cs, k) && i in at
    requires forall j :: 0 <= j < |at| ==>
      && rows[at[j]].depth.Some? && rows[at[j]].speed.Some?
      && Describes(cs[j], rows[at[j]], defaultLabel)
    ensures rows[i].speed.value <= rows[at[k]].speed.value
    ensures i < at[k] ==> rows[i].speed.value < rows[at[k]].speed.value
  {
    var j :| 0 <= j < |at| && at[j] == i;
    assert Describes(cs[j], rows[at[j]], defaultLabel) && Describes(cs[k], rows[at[k]], defaultLabel);
    if i < at[k] { assert j < k; }
  }

  /** The fastest candidate, seen among the rows. */
  lemma FastestOfTheRows(
    rows: seq<Row>, comparisons: seq<Comparison>, defaultLabel: int -> string,
    verdicts: map<string, bool>, baseline: Option<real>, cs: seq<Candidate>, fastest: Option<Candidate>)
    returns (best: nat)
    requires Tabulates(verdicts, comparisons) && cs == Candidates(rows, defaultLabel, verdicts, baseline)
    requires fastest.None? <==> cs == []
    requires fastest.Some? ==> exists k :: FirstFastest(cs, k) && cs[k] == fastest.value
    ensures IsFastest(fastest, best, rows, comparisons, defaultLabel, baseline)
    ensures fastest.Some? && baseline.Some? ==> fastest.value.speed > baseline.value
  {
    var at := CandidatesAreTheQualifying(rows, comparisons, defaultLabel, verdicts, baseline);
    best := 0;
    if fastest.Some? {
      var k :| FirstFastest(cs, k) && cs[k] == fastest.value;
      best := at[k];
      forall i | 0 <= i < |rows| && Qualifies(rows[i], comparisons, defaultLabel, baseline)
        ensures rows[i].speed.value <= rows[best].speed.value
        ensures i < best ==> rows[i].speed.value < rows[best].speed.value
      {
        assert i in at;
        NoneIsFaster(rows, defaultLabel, cs, at, k, i);
      }
    } else {
      forall i | 0 <= i < |rows| ensures !Qualifies(rows[i], comparisons, defaultLabel, baseline) {
        assert i !in at;
      }
    }
  }

  lemma {:induction false} DepthsAreCounted(rows: seq<Row>)
    ensures Depths(rows) == |set i | 0 <= i < |rows| && rows[i].depth.Some?|
  {
    if rows != [] {
      var n := |rows| - 1;
      DepthsAreCounted(rows[..n]);
      var before := set i | 0 <= i < n && rows[..n][i].depth.Some?;
      assert (set i | 0 <= i < |rows| && rows[i].depth.Some?)
          == before + if rows[n].depth.Some? then {n} else {};
    }
  }

  /** The baseline's speed is that of the first row with its name. */
  lemma {:induction false} BaselineIsTheFirst(rows: seq<Row>, k: nat)
    requires k < |rows| && rows[k].name == "baseline_no_mtp"
    requires forall i :: 0 <= i < k ==> rows[i].name != "baseline_no_mtp"
    ensures BaselineSpeed(rows) == rows[k].speed
  {
    if k > 0 { BaselineIsTheFirst(rows[1..], k - 1); }
  }

  lemma {:induction false} NoBaselineNoSpeed(rows: seq<Row>)
    requires forall i :: 0 <= i < |rows| ==> rows[i].name != "baseline_no_mtp"
    ensures BaselineSpeed(rows) == None
  {
    if rows != [] { NoBaselineNoSpeed(rows[1..]); }
  }

  /** Every benchmarked depth is either a candidate or rejected, with one reason. */
  lemma {:induction false} DepthsAreAccountedFor(
    rows: seq<Row>, defaultLabel: int -> string, verdicts: map<string, bool>, baseline: Option<real>)
    ensures |Candidates(rows, defaultLabel, verdicts, baseline)|
      + |Rejections(rows, defaultLabel, verdicts, baseline)| == Depths(rows)
  {
    if rows != [] {
      DepthsAreAccountedFor(rows[..|rows| - 1], defaultLabel, verdicts, baseline);
    }
  }

  /** A candidate is a row that qualified. */
  lemma CandidateHasARow(
    rows: seq<Row>, comparisons: seq<Comparison>, defaultLabel: int -> string,
    verdicts: map<string, bool>, baseline: Option<real>, c: Candidate) returns (row: Row)
    requires Tabulates(verdicts, comparisons)
    requires c in Candidates(rows, defaultLabel, verdicts, baseline)
    ensures row in rows && Qualifies(row, comparisons, defaultLabel, baseline)
    ensures Describes(c, row, defaultLabel)
  {
    var at := CandidatesAreTheQualifying(rows, comparisons, defaultLabel, verdicts, baseline);
    var k :| 0 <= k < |at| && Candidates(rows, defaultLabel, verdicts, baseline)[k] == c;
    row := rows[at[k]];
  }

  /**
   A candidate beat the baseline, and its output was verified exactly when anything was compared
   at all: without a labelled comparison the selection accepts unverified outputs.
   */
  lemma CandidatesAreVerifiedIffAnythingWasCompared(
    rows: seq<Row>, comparisons: seq<Comparison>, defaultLabel: int -> string,
    verdicts: map<string, bool>, baseline: Option<real>, c: Candidate)
    requires Tabulates(verdicts, comparisons) && c.name != ""
    requires c in Candidates(rows, defaultLabel, verdicts, baseline)
    ensures Verified(comparisons, c.name) <==> SomethingWasCompared(comparisons)
    ensures baseline.Some? ==> c.speed > baseline.value
  {
    var row := CandidateHasARow(rows, comparisons, defaultLabel, verdicts, baseline, c);
    if Compared(comparisons, c.name) {
      var same :| same in comparisons && same.name == c.name;
      assert same.name != "";
    }
  }

  /** Against a positive baseline a higher speed is a speedup above one. */
  lemma SpeedupExceedsOne(speedup: real, baseline: real, speed: real)
    requires baseline > 0.0 && speed > baseline && speedup * baseline == speed
    ensures speedup > 1.0
  {
    assert (speedup - 1.0) * baseline == speed - baseline;
  }

  /** Without any comparison a single benchmarked depth is selected, and nothing verified it. */
  lemma UnverifiedDepthIsSelected(defaultLabel: int -> string)
    ensures var rows, c :=
        [Row("native_mtp_d1", Some(1), Some(2.0))], Candidate(1, "native_mtp_d1", 2.0);
      && Tabulates(map[], [])
      && Candidates(rows, defaultLabel, map[], BaselineSpeed(rows)) == [c] && FirstFastest([c], 0)
      && !Verified([], c.name)
  {
    var rows := [Row("native_mtp_d1", Some(1), Some(2.0))];
    assert rows[0].name != BASELINE && rows[1..] == [] && BaselineSpeed([]) == None;
    assert rows[..0] == [] && Eligible(rows[0], defaultLabel, map[], None);
    assert Candidates([], defaultLabel, map[], None) == [];
  }
}
