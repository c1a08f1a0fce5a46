/**
 Folding a server log of speculative-decoding statistics: lines of several requests interleave,
 each updates the row of its request, and the totals add up the rows.
 A line is taken as matched by its pattern.
 */
module MtpLog {
  import opened Common
  import opened Sequences

  datatype Emits = Emits(init: nat, draft: nat, bonus: nat, verify: nat)

  datatype Forwards = Forwards(seedMain: nat, verifyMain: nat, replayMain: nat, mtp: nat)

  datatype Line =
    | TextFinish(request: string, finish: string, depth: nat, tokens: nat, cycles: nat,
                 fullAccept: nat, denominator: nat, accepted: nat, drafted: nat, emits: Emits,
                 timings: string)
    | Finish(request: string, finish: string, cycles: nat, accepted: nat, drafted: nat, emits: Emits)
    | Timings(request: string, timings: string)
    | Depths(request: string, acceptedByDepth: (nat, nat, nat), draftedByDepth: (nat, nat, nat),
             forwards: Forwards)
    | Other

  /** What is known of one request; every entry may be missing. */
  datatype Row = Row(
    finish: Option<string>, depth: Option<nat>, tokens: Option<nat>, cycles: Option<nat>,
    fullAccept: Option<nat>, accepted: Option<nat>, drafted: Option<nat>, emits: Option<Emits>,
    timings: Option<string>, acceptedByDepth: seq<nat>, draftedByDepth: seq<nat>,
    forwards: Option<Forwards>)

  const EMPTY_ROW := Row(None, None, None, None, None, None, None, None, None, [], [], None)

  /** Rows by request, and the requests in order of first appearance. */
  datatype Rows = Rows(order: seq<string>, byRequest: map<string, Row>)

  const NO_ROWS := Rows([], map[])

  datatype LogError = DenominatorDisagrees

  // ---------------------------------------------------------------------------
  // One line
  // ---------------------------------------------------------------------------

  function List3(t: (nat, nat, nat)): seq<nat> {
    [t.0, t.1, t.2]
  }

  function Update(row: Row, line: Line): Row {
    match line
    case TextFinish(_, finish, depth, tokens, cycles, fullAccept, _, accepted, drafted, emits, timings) =>
      row.(finish := Some(finish), depth := Some(depth), tokens := Some(tokens),
           cycles := Some(cycles), fullAccept := Some(fullAccept), accepted := Some(accepted),
           drafted := Some(drafted), emits := Some(emits), timings := Some(timings))
    case Finish(_, finish, cycles, accepted, drafted, emits) =>
      row.(finish := Some(finish), cycles := Some(cycles), accepted := Some(accepted),
           drafted := Some(drafted), emits := Some(emits))
    case Timings(_, timings) => row.(timings := Some(timings))
    case Depths(_, accepted, drafted, forwards) =>
      row.(acceptedByDepth := List3(accepted), draftedByDepth := List3(drafted),
           forwards := Some(forwards))
    case Other => row
  }

  predicate Damaged(line: Line) {
    line.TextFinish? && line.denominator != line.cycles
  }

  function RowAt(rows: Rows, request: string): Row {
    if request in rows.byRequest then rows.byRequest[request] else EMPTY_ROW
  }

  function Put(rows: Rows, line: Line): Rows {
    if line.Other? then rows
    else
      Rows(
        if line.request in rows.byRequest then rows.order else rows.order + [line.request],
        rows.byRequest[line.request := Update(RowAt(rows, line.request), line)])
  }

  function FoldLines(lines: seq<Line>): Rows {
    if lines == [] then NO_ROWS else Put(FoldLines(lines[..|lines| - 1]), lines[|lines| - 1])
  }

  // ---------------------------------------------------------------------------
  // Totals
  // ---------------------------------------------------------------------------

  /** The integers that are added up over the requests. */
  datatype Field =
    | Cycles | Accepted | Drafted | AcceptedAt(level: nat) | DraftedAt(level: nat)
    | SeedMain | VerifyMain | ReplayMain | Mtp

  function OrZero(n: Option<nat>): nat {
    if n.Some? then n.value else 0
  }

  function At(list: seq<nat>, i: nat): nat {
    if i < |list| then list[i] else 0
  }

  function Get(row: Row, field: Field): nat {
    match field
    case Cycles => OrZero(row.cycles)
    case Accepted => OrZero(row.accepted)
    case Drafted => OrZero(row.drafted)
    case AcceptedAt(i) => At(row.acceptedByDepth, i)
    case DraftedAt(i) => At(row.draftedByDepth, i)
    case SeedMain => if row.forwards.Some? then row.forwards.value.seedMain else 0
    case VerifyMain => if row.forwards.Some? then row.forwards.value.verifyMain else 0
    case ReplayMain => if row.forwards.Some? then row.forwards.value.replayMain else 0
    case Mtp => if row.forwards.Some? then row.forwards.value.mtp else 0
  }

  /** The field added up over the requests of the list. */
  function Total(requests: seq<string>, rows: Rows, field: Field): nat {
    if requests == [] then 0
    else
      Total(requests[..|requests| - 1], rows, field)
      + Get(RowAt(rows, requests[|requests| - 1]), field)
  }

  datatype Totals = Totals(
    cycles: nat, accepted: nat, drafted: nat, acceptedByDepth: seq<nat>, draftedByDepth: seq<nat>,
    forwards: Forwards)

  function TotalsOf(rows: Rows): Totals {
    Totals(
      Total(rows.order, rows, Cycles), Total(rows.order, rows, Accepted),
      Total(rows.order, rows, Drafted),
      [Total(rows.order, rows, AcceptedAt(0)), Total(rows.order, rows, AcceptedAt(1)),
       Total(rows.order, rows, AcceptedAt(2))],
      [Total(rows.order, rows, DraftedAt(0)), Total(rows.order, rows, DraftedAt(1)),
       Total(rows.order, rows, DraftedAt(2))],
      Forwards(
        Total(rows.order, rows, SeedMain), Total(rows.order, rows, VerifyMain),
        Total(rows.order, rows, ReplayMain), Total(rows.order, rows, Mtp)))
  }

  method AddUp(rows: Rows, field: Field) returns (total: nat)
    ensures total == Total(rows.order, rows, field)
  {
    total := 0;
    for i := 0 to |rows.order|
      invariant total == Total(rows.order[..i], rows, field)
    {
      assert rows.order[..i + 1][..i] == rows.order[..i];
      total := total + Get(RowAt(rows, rows.order[i]), field);
    }
    assert rows.order[..|rows.order|] == rows.order;
  }

  /** Column sums of lists that may be shorter or longer than `size`. */
  function ColumnSum(lists: seq<seq<nat>>, i: nat): nat {
    if lists == [] then 0 else ColumnSum(lists[..|lists| - 1], i) + At(lists[|lists| - 1], i)
  }

  method SumLists(lists: seq<seq<nat>>, size: nat) returns (totals: seq<nat>)
    ensures |totals| == size
    ensures forall i :: 0 <= i < size ==> totals[i] == ColumnSum(lists, i)
  {
    totals := seq(size, i => 0);
    for r := 0 to |lists|
      invariant |totals| == size
      invariant forall i :: 0 <= i < size ==> totals[i] == ColumnSum(lists[..r], i)
    {
      var row := lists[r];
      var before := totals;
      for i := 0 to if |row| < size then |row| else size
        invariant |totals| == size
        invariant forall j :: 0 <= j < i ==> totals[j] == before[j] + row[j]
        invariant forall j :: i <= j < size ==> totals[j] == before[j]
      {
        totals := totals[i := totals[i] + row[i]];
      }
      assert lists[..r + 1][..r] == lists[..r];
      forall i | 0 <= i < size ensures totals[i] == ColumnSum(lists[..r + 1], i) {
        assert totals[i] == before[i] + At(row, i);
      }
    }
    assert lists[..|lists|] == lists;
  }

  method ParseMtpLog(lines: seq<Line>) returns (r: Result<(Rows, Totals), LogError>)
    ensures r.Err? <==> exists i ::
      0 <= i < |lines| && lines[i].TextFinish? && lines[i].denominator != lines[i].cycles
    ensures r.Ok? ==> r.value.0 == FoldLines(lines) && r.value.1 == TotalsOf(FoldLines(lines))
  {
    var rows := NO_ROWS;
    for i := 0 to |lines|
      invariant forall j :: 0 <= j < i ==> !Damaged(lines[j])
      invariant rows == FoldLines(lines[..i])
    {
      assert lines[..i + 1][..i] == lines[..i];
      if Damaged(lines[i]) {
        return Err(DenominatorDisagrees);
      }
      rows := Put(rows, lines[i]);
    }
    assert lines[..|lines|] == lines;
    var cycles := AddUp(rows, Cycles);
    var accepted := AddUp(rows, Accepted);
    var drafted := AddUp(rows, Drafted);
    var acceptedByDepth := SumLists(Lists(rows, true), 3);
    var draftedByDepth := SumLists(Lists(rows, false), 3);
    var seed := AddUp(rows, SeedMain);
    var verify := AddUp(rows, VerifyMain);
    var replay := AddUp(rows, ReplayMain);
    var mtp := AddUp(rows, Mtp);
    ColumnsAreTotals(rows);
    r := Ok((rows, Totals(cycles, accepted, drafted, acceptedByDepth, draftedByDepth,
                          Forwards(seed, verify, replay, mtp))));
  }

  /** The per-depth lists of all rows. */
  function Lists(rows: Rows, accepted: bool): seq<seq<nat>> {
    seq(|rows.order|, i requires 0 <= i < |rows.order| =>
      var row := RowAt(rows, rows.order[i]);
      if accepted then row.acceptedByDepth else row.draftedByDepth)
  }

  lemma ColumnsAreTotals(rows: Rows)
    ensures forall i :: ColumnSum(Lists(rows, true), i) == Total(rows.order, rows, AcceptedAt(i))
    ensures forall i :: ColumnSum(Lists(rows, false), i) == Total(rows.order, rows, DraftedAt(i))
  {
    forall i: nat
      ensures ColumnSum(Lists(rows, true), i) == Total(rows.order, rows, AcceptedAt(i))
      ensures ColumnSum(Lists(rows, false), i) == Total(rows.order, rows, DraftedAt(i))
    {
      ColumnIsTotal(rows, i, |rows.order|);
      assert Lists(rows, true)[..|rows.order|] == Lists(rows, true);
      assert Lists(rows, false)[..|rows.order|] == Lists(rows, false);
      assert rows.order[..|rows.order|] == rows.order;
    }
  }

  lemma {:induction false} ColumnIsTotal(rows: Rows, i: nat, n: nat)
    requires n <= |rows.order|
    ensures ColumnSum(Lists(rows, true)[..n], i) == Total(rows.order[..n], rows, AcceptedAt(i))
    ensures ColumnSum(Lists(rows, false)[..n], i) == Total(rows.order[..n], rows, DraftedAt(i))
  {
    if n > 0 {
      ColumnIsTotal(rows, i, n - 1);
      assert Lists(rows, true)[..n][..n - 1] == Lists(rows, true)[..n - 1];
      assert Lists(rows, false)[..n][..n - 1] == Lists(rows, false)[..n - 1];
      assert rows.order[..n][..n - 1] == rows.order[..n - 1];
    }
  }

  // ---------------------------------------------------------------------------
  // A request's row depends on its own lines
  // ---------------------------------------------------------------------------

  /** The lines of one request, in their own order. */
  function Project(lines: seq<Line>, request: string): seq<Line> {
    if lines == [] then []
    else
      var last := lines[|lines| - 1];
      Project(lines[..|lines| - 1], request)
      + if !last.Other? && last.request == request then [last] else []
  }

  function FoldRow(lines: seq<Line>): Row {
    if lines == [] then EMPTY_ROW else Update(FoldRow(lines[..|lines| - 1]), lines[|lines| - 1])
  }

  /** Whatever lies between its lines, a request's row is the fold of its own lines. */
  lemma {:induction false} RowsDependOnOwnLines(lines: seq<Line>)
    ensures var rows := FoldLines(lines);
      && Distinct(rows.order)
      && (forall q :: q in rows.byRequest <==> q in rows.order)
      && (forall q :: q in rows.order <==> Project(lines, q) != [])
      && (forall q :: RowAt(rows, q) == FoldRow(Project(lines, q)))
  {
    if lines != [] {
      var n := |lines| - 1;
      RowsDependOnOwnLines(lines[..n]);
      var before, after, line := FoldLines(lines[..n]), FoldLines(lines), lines[n];
      StaysDistinct(before, line);
      assert lines == lines[..n] + [line];
      forall q
        ensures q in after.order <==> Project(lines, q) != []
        ensures q in after.byRequest <==> q in after.order
        ensures RowAt(after, q) == FoldRow(Project(lines, q))
      {
        OneMoreLine(before, lines[..n], line, q);
      }
    }
  }

  lemma StaysDistinct(rows: Rows, line: Line)
    requires Distinct(rows.order) && forall q :: q in rows.byRequest <==> q in rows.order
    ensures Distinct(Put(rows, line).order)
  {
  }

  /** What one more line does to the entry of one request. */
  lemma OneMoreLine(rows: Rows, lines: seq<Line>, line: Line, q: string)
    requires q in rows.byRequest <==> q in rows.order
    requires q in rows.order <==> Project(lines, q) != []
    requires RowAt(rows, q) == FoldRow(Project(lines, q))
    ensures var after, own := Put(rows, line), Project(lines + [line], q);
      && (q in after.byRequest <==> q in after.order)
      && (q in after.order <==> own != [])
      && RowAt(after, q) == FoldRow(own)
  {
    var own := Project(lines, q);
    assert (lines + [line])[..|lines|] == lines && (own + [line])[..|own|] == own;
    if line.Other? || line.request != q {
      assert Project(lines + [line], q) == own;
    }
  }

  // ---------------------------------------------------------------------------
  // The last line that writes a field decides it
  // ---------------------------------------------------------------------------

  predicate Writes(line: Line, field: Field) {
    match field
    case Cycles => line.TextFinish? || line.Finish?
    case Accepted => line.TextFinish? || line.Finish?
    case Drafted => line.TextFinish? || line.Finish?
    case _ => line.Depths?
  }

  ghost function Level(levels: (nat, nat, nat), i: nat): nat {
    if i == 0 then levels.0 else if i == 1 then levels.1 else if i == 2 then levels.2 else 0
  }

  ghost function Written(line: Line, field: Field): nat
    requires Writes(line, field)
  {
    match field
    case Cycles => line.cycles
    case Accepted => line.accepted
    case Drafted => line.drafted
    case AcceptedAt(i) => Level(line.acceptedByDepth, i)
    case DraftedAt(i) => Level(line.draftedByDepth, i)
    case SeedMain => line.forwards.seedMain
    case VerifyMain => line.forwards.verifyMain
    case ReplayMain => line.forwards.replayMain
    case Mtp => line.forwards.mtp
  }

  ghost function LastWritten(lines: seq<Line>, field: Field): nat {
    if lines == [] then 0
    else
      var n := |lines| - 1;
      if Writes(lines[n], field) then Written(lines[n], field) else LastWritten(lines[..n], field)
  }

  lemma {:induction false} RowHoldsLastWritten(lines: seq<Line>, field: Field)
    ensures Get(FoldRow(lines), field) == LastWritten(lines, field)
  {
    if lines != [] { RowHoldsLastWritten(lines[..|lines| - 1], field); }
  }

  /** The line at `i` is the request's last of these kinds. */
  ghost predicate LastOf(lines: seq<Line>, request: string, i: nat, kind: Line -> bool) {
    && i < |lines| && IsOf(lines[i], request, kind)
    && forall j :: i < j < |lines| ==> !IsOf(lines[j], request, kind)
  }

  ghost predicate IsOf(line: Line, request: string, kind: Line -> bool) {
    !line.Other? && line.request == request && kind(line)
  }

  ghost predicate NoneOf(lines: seq<Line>, request: string, kind: Line -> bool) {
    forall j :: 0 <= j < |lines| ==> !IsOf(lines[j], request, kind)
  }

  const Ends: Line -> bool := (line: Line) => line.TextFinish? || line.Finish?
  const EndsText: Line -> bool := (line: Line) => line.TextFinish?
  const Times: Line -> bool := (line: Line) => line.TextFinish? || line.Timings?
  const Counts: Line -> bool := (line: Line) => line.Depths?

  /** What the request's last line of a finish says. */
  ghost predicate EndRead(lines: seq<Line>, request: string, row: Row) {
    && (forall i: nat :: LastOf(lines, request, i, Ends) ==>
          && row.finish == Some(lines[i].finish) && row.emits == Some(lines[i].emits)
          && row.cycles == Some(lines[i].cycles) && row.accepted == Some(lines[i].accepted)
          && row.drafted == Some(lines[i].drafted))
    && (NoneOf(lines, request, Ends) ==>
          && row.finish.None? && row.emits.None? && row.cycles.None? && row.accepted.None?
          && row.drafted.None?)
  }

  ghost predicate TextEndRead(lines: seq<Line>, request: string, row: Row) {
    && (forall i: nat :: LastOf(lines, request, i, EndsText) ==>
          && row.depth == Some(lines[i].depth) && row.tokens == Some(lines[i].tokens)
          && row.fullAccept == Some(lines[i].fullAccept))
    && (NoneOf(lines, request, EndsText) ==> row.depth.None? && row.tokens.None? && row.fullAccept.None?)
  }

  ghost predicate TimesRead(lines: seq<Line>, request: string, row: Row) {
    && (forall i: nat :: LastOf(lines, request, i, Times) ==> row.timings == Some(lines[i].timings))
    && (NoneOf(lines, request, Times) ==> row.timings.None?)
  }

  ghost predicate Levels(list: seq<nat>, levels: (nat, nat, nat)) {
    |list| == 3 && list[0] == levels.0 && list[1] == levels.1 && list[2] == levels.2
  }

  ghost predicate CountsRead(lines: seq<Line>, request: string, row: Row) {
    && (forall i: nat :: LastOf(lines, request, i, Counts) ==>
          && Levels(row.acceptedByDepth, lines[i].acceptedByDepth)
          && Levels(row.draftedByDepth, lines[i].draftedByDepth)
          && row.forwards == Some(lines[i].forwards))
    && (NoneOf(lines, request, Counts) ==>
          row.acceptedByDepth == [] && row.draftedByDepth == [] && row.forwards.None?)
  }

  /** A line is told only to its own request's row. */
  lemma RowIsTold(rows: Rows, line: Line, request: string)
    ensures RowAt(Put(rows, line), request) ==
      if line.Other? || line.request != request then RowAt(rows, request)
      else Update(RowAt(rows, request), line)
  {
  }

  lemma EndStillRead(lines: seq<Line>, request: string, before: Row, after: Row)
    requires lines != [] && EndRead(lines[..|lines| - 1], request, before)
    requires var line := lines[|lines| - 1];
      after == if line.Other? || line.request != request then before else Update(before, line)
    ensures EndRead(lines, request, after)
  {
    LastOfMore(lines, request, Ends);
  }

  lemma TextEndStillRead(lines: seq<Line>, request: string, before: Row, after: Row)
    requires lines != [] && TextEndRead(lines[..|lines| - 1], request, before)
    requires var line := lines[|lines| - 1];
      after == if line.Other? || line.request != request then before else Update(before, line)
    ensures TextEndRead(lines, request, after)
  {
    LastOfMore(lines, request, EndsText);
  }

  lemma TimesStillRead(lines: seq<Line>, request: string, before: Row, after: Row)
    requires lines != [] && TimesRead(lines[..|lines| - 1], request, before)
    requires var line := lines[|lines| - 1];
      after == if line.Other? || line.request != request then before else Update(before, line)
    ensures TimesRead(lines, request, after)
  {
    LastOfMore(lines, request, Times);
  }

  lemma CountsAreUpdated(row: Row, line: Line)
    ensures var after := Update(row, line);
      if line.Depths? then
        && Levels(after.acceptedByDepth, line.acceptedByDepth)
        && Levels(after.draftedByDepth, line.draftedByDepth) && after.forwards == Some(line.forwards)
      else
        && after.acceptedByDepth == row.acceptedByDepth && after.draftedByDepth == row.draftedByDepth
        && after.forwards == row.forwards
  {
  }

  lemma CountsStillRead(lines: seq<Line>, request: string, before: Row, after: Row)
    requires lines != [] && CountsRead(lines[..|lines| - 1], request, before)
    requires var line := lines[|lines| - 1];
      after == if line.Other? || line.request != request then before else Update(before, line)
    ensures CountsRead(lines, request, after)
  {
    LastOfMore(lines, request, Counts);
    CountsAreUpdated(before, lines[|lines| - 1]);
    if IsOf(lines[|lines| - 1], request, Counts) {
      assert !NoneOf(lines, request, Counts);
    }
  }

  lemma LastOfMore(lines: seq<Line>, request: string, kind: Line -> bool)
    requires lines != []
    ensures var n := |lines| - 1;
      && (NoneOf(lines, request, kind) <==>
            NoneOf(lines[..n], request, kind) && !IsOf(lines[n], request, kind))
      && (forall i: nat :: LastOf(lines, request, i, kind) <==>
            if IsOf(lines[n], request, kind) then i == n else LastOf(lines[..n], request, i, kind))
  {
    var n := |lines| - 1;
    assert forall j :: 0 <= j < n ==> lines[..n][j] == lines[j];
  }

  /**
   In a log of any interleaving, each entry of a request's row is what the request's own last
   line of the right kind says, and is missing if there is none.
   */
  lemma {:induction false} RowsAreReadOff(lines: seq<Line>, request: string)
    ensures var row := RowAt(FoldLines(lines), request);
      && EndRead(lines, request, row) && TextEndRead(lines, request, row)
      && TimesRead(lines, request, row) && CountsRead(lines, request, row)
  {
    if lines != [] {
      var n := |lines| - 1;
      RowsAreReadOff(lines[..n], request);
      RowIsTold(FoldLines(lines[..n]), lines[n], request);
      var before, after := RowAt(FoldLines(lines[..n]), request), RowAt(FoldLines(lines), request);
      EndStillRead(lines, request, before, after);
      TextEndStillRead(lines, request, before, after);
      TimesStillRead(lines, request, before, after);
      CountsStillRead(lines, request, before, after);
    }
  }

  /** The last-written values added up over a list of requests. */
  ghost function SumLastWritten(requests: seq<string>, lines: seq<Line>, field: Field): nat {
    if requests == [] then 0
    else
      SumLastWritten(requests[..|requests| - 1], lines, field)
      + LastWritten(Project(lines, requests[|requests| - 1]), field)
  }

  lemma {:induction false} TotalIsSumOfLastWritten(
    requests: seq<string>, lines: seq<Line>, field: Field)
    ensures Total(requests, FoldLines(lines), field) == SumLastWritten(requests, lines, field)
  {
    if requests != [] {
      var q := requests[|requests| - 1];
      TotalIsSumOfLastWritten(requests[..|requests| - 1], lines, field);
      RowsDependOnOwnLines(lines);
      RowHoldsLastWritten(Project(lines, q), field);
    }
  }

  /** The totals show three levels of depth. */
  ghost predicate InTotals(field: Field) {
    field.AcceptedAt? || field.DraftedAt? ==> field.level < 3
  }

  /** The place of a field in the totals. */
  ghost function Shown(totals: Totals, field: Field): nat {
    match field
    case Cycles => totals.cycles
    case Accepted => totals.accepted
    case Drafted => totals.drafted
    case AcceptedAt(i) => if i < |totals.acceptedByDepth| then totals.acceptedByDepth[i] else 0
    case DraftedAt(i) => if i < |totals.draftedByDepth| then totals.draftedByDepth[i] else 0
    case SeedMain => totals.forwards.seedMain
    case VerifyMain => totals.forwards.verifyMain
    case ReplayMain => totals.forwards.replayMain
    case Mtp => totals.forwards.mtp
  }

  lemma TotalsShowEverySum(rows: Rows, field: Field)
    requires InTotals(field)
    ensures Shown(TotalsOf(rows), field) == Total(rows.order, rows, field)
  {
  }

  /**
   Every total is the sum, over the distinct requests of the log, of the value its own last
   line gave.
   */
  lemma TotalsAddUpLastWrittenFields(lines: seq<Line>, field: Field)
    ensures var rows := FoldLines(lines);
      && Distinct(rows.order)
      && (forall q :: q in rows.order <==> Project(lines, q) != [])
      && Total(rows.order, rows, field) == SumLastWritten(rows.order, lines, field)
      && (InTotals(field) ==> Shown(TotalsOf(rows), field) == SumLastWritten(rows.order, lines, field))
  {
    RowsDependOnOwnLines(lines);
    TotalIsSumOfLastWritten(FoldLines(lines).order, lines, field);
    if InTotals(field) { TotalsShowEverySum(FoldLines(lines), field); }
  }

  // ---------------------------------------------------------------------------
  // Interleaving is immaterial
  // ---------------------------------------------------------------------------

  lemma {:induction false} TotalWithout(requests: seq<string>, rows: Rows, field: Field, k: nat)
    requires k < |requests|
    ensures Total(requests, rows, field)
      == Total(requests[..k] + requests[k + 1..], rows, field) + Get(RowAt(rows, requests[k]), field)
  {
    var n := |requests| - 1;
    if k < n {
      TotalWithout(requests[..n], rows, field, k);
      var rest := requests[..k] + requests[k + 1..];
      assert requests[..n][..k] + requests[..n][k + 1..] == rest[..n - 1];
      assert rest[n - 1] == requests[n];
    } else {
      assert requests[..k] + requests[k + 1..] == requests[..n];
    }
  }

  /** Sums over the same requests in another order are equal. */
  lemma {:induction false} TotalsOfPermutations(
    a: seq<string>, b: seq<string>, rows: Rows, field: Field)
    requires Distinct(a) && Distinct(b) && forall q :: q in a <==> q in b
    ensures Total(a, rows, field) == Total(b, rows, field)
    decreases |a|
  {
    if a == [] {
      NonEmptyHasMember(b);
    } else {
      var n := |a| - 1;
      assert a[n] in b;
      var k :| 0 <= k < |b| && b[k] == a[n];
      var rest := b[..k] + b[k + 1..];
      forall q ensures q in a[..n] <==> q in rest {
        RemainingMember(a, n, q);
        RemainingMember(b, k, q);
        assert a[..n] + a[n + 1..] == a[..n];
      }
      TotalWithout(b, rows, field, k);
      TotalsOfPermutations(a[..n], rest, rows, field);
    }
  }

  /**
   Two logs in which every request has the same lines in the same order, however the requests
   interleave, are rejected alike and give the same rows and the same totals.
   */
  lemma InterleavingIsImmaterial(a: seq<Line>, b: seq<Line>)
    requires forall q :: Project(a, q) == Project(b, q)
    ensures FoldLines(a).byRequest == FoldLines(b).byRequest
    ensures TotalsOf(FoldLines(a)) == TotalsOf(FoldLines(b))
    ensures (exists i :: 0 <= i < |a| && Damaged(a[i])) <==> (exists i :: 0 <= i < |b| && Damaged(b[i]))
  {
    SameProjectionsSameRows(a, b);
    var ra, rb := FoldLines(a), FoldLines(b);
    forall field: Field ensures Total(ra.order, ra, field) == Total(rb.order, rb, field) {
      SameRowsSameTotal(rb.order, ra, rb, field);
      TotalsOfPermutations(ra.order, rb.order, ra, field);
    }
    DamageShowsInProjection(a, b);
    DamageShowsInProjection(b, a);
  }

  lemma SameProjectionsSameRows(a: seq<Line>, b: seq<Line>)
    requires forall q :: Project(a, q) == Project(b, q)
    ensures var ra, rb := FoldLines(a), FoldLines(b);
      && Distinct(ra.order) && Distinct(rb.order)
      && (forall q :: q in ra.order <==> q in rb.order)
      && ra.byRequest == rb.byRequest
  {
    RowsDependOnOwnLines(a);
    RowsDependOnOwnLines(b);
    var ra, rb := FoldLines(a), FoldLines(b);
    forall q
      ensures q in ra.order <==> q in rb.order
      ensures RowAt(ra, q) == RowAt(rb, q)
    {
      assert Project(a, q) == Project(b, q);
    }
    assert ra.byRequest.Keys == rb.byRequest.Keys;
    forall q | q in ra.byRequest ensures ra.byRequest[q] == rb.byRequest[q] {
      assert RowAt(ra, q) == RowAt(rb, q);
    }
  }

  lemma {:induction false} SameRowsSameTotal(requests: seq<string>, a: Rows, b: Rows, field: Field)
    requires a.byRequest == b.byRequest
    ensures Total(requests, a, field) == Total(requests, b, field)
  {
    if requests != [] { SameRowsSameTotal(requests[..|requests| - 1], a, b, field); }
  }

  lemma {:induction false} ProjectMembers(lines: seq<Line>, q: string, line: Line)
    ensures line in Project(lines, q) <==> line in lines && !line.Other? && line.request == q
  {
    if lines != [] {
      var n := |lines| - 1;
      ProjectMembers(lines[..n], q, line);
      assert lines == lines[..n] + [lines[n]];
    }
  }

  lemma DamageShowsInProjection(a: seq<Line>, b: seq<Line>)
    requires forall q :: Project(a, q) == Project(b, q)
    ensures (exists i :: 0 <= i < |a| && Damaged(a[i])) ==> exists i :: 0 <= i < |b| && Damaged(b[i])
  {
    if i :| 0 <= i < |a| && Damaged(a[i]) {
      ProjectMembers(a, a[i].request, a[i]);
      ProjectMembers(b, a[i].request, a[i]);
      assert a[i] in b;
    }
  }

  // ---------------------------------------------------------------------------
  // Requests come in order of first appearance
  // ---------------------------------------------------------------------------

  predicate Names(line: Line, request: string) {
    !line.Other? && line.request == request
  }

  /** A line of `a` stands before all lines of `b`. */
  ghost predicate AppearsBefore(lines: seq<Line>, a: string, b: string) {
    exists p :: 0 <= p < |lines| && Names(lines[p], a) && forall q :: 0 <= q <= p ==> !Names(lines[q], b)
  }

  lemma StillAppearsBefore(lines: seq<Line>, n: nat, a: string, b: string)
    requires n <= |lines| && AppearsBefore(lines[..n], a, b)
    ensures AppearsBefore(lines, a, b)
  {
    var p :| 0 <= p < n && Names(lines[..n][p], a) && forall q :: 0 <= q <= p ==> !Names(lines[..n][q], b);
    assert Names(lines[p], a) && forall q :: 0 <= q <= p ==> lines[q] == lines[..n][q];
  }

  lemma NewcomersAppearLast(lines: seq<Line>, a: string, b: string)
    requires Project(lines, a) != [] && Project(lines, b) == []
    ensures AppearsBefore(lines, a, b)
  {
    var line := Project(lines, a)[0];
    ProjectMembers(lines, a, line);
    var p :| 0 <= p < |lines| && lines[p] == line;
    assert Names(lines[p], a);
    forall q | 0 <= q <= p ensures !Names(lines[q], b) {
      ProjectMembers(lines, b, lines[q]);
    }
  }

  lemma {:induction false} RequestsAppearInOrder(lines: seq<Line>)
    ensures var order := FoldLines(lines).order;
      forall i, j :: 0 <= i < j < |order| ==> AppearsBefore(lines, order[i], order[j])
  {
    if lines != [] {
      var n := |lines| - 1;
      var before, order := FoldLines(lines[..n]).order, FoldLines(lines).order;
      RequestsAppearInOrder(lines[..n]);
      RowsDependOnOwnLines(lines[..n]);
      forall i, j | 0 <= i < j < |order| ensures AppearsBefore(lines, order[i], order[j]) {
        if j == |before| {
          assert order[i] == before[i] && order[j] !in before;
          NewcomersAppearLast(lines[..n], order[i], order[j]);
        } else {
          assert AppearsBefore(lines[..n], before[i], before[j]);
        }
        StillAppearsBefore(lines, n, order[i], order[j]);
      }
    }
  }
}
