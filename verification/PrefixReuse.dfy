/**
 The prefix-reuse oracle of the connected-scenario runner: how many tokens of the
 current render an earlier render allows the engine to restore from cache, and which
 earlier render allows the most.
 */
module PrefixReuse {
  import opened Arithmetic
  import opened Common

  type Render = seq<int>

  datatype MatchKind = NMinusOneExact | ChainBlock | NoMatch

  datatype Match = Match(
    safeExpected: nat, kind: MatchKind, lcp: nat, sourceLen: nat, sourceIndex: Option<nat>)

  /** Both renders start with the same `n` tokens. */
  predicate Agree(a: Render, b: Render, n: nat) {
    n <= |a| && n <= |b| && forall i :: 0 <= i < n ==> a[i] == b[i]
  }

  // ---------------------------------------------------------------------------
  // Longest common prefix
  // ---------------------------------------------------------------------------

  function Lcp(a: Render, b: Render): (n: nat)
    ensures n <= |a| && n <= |b|
  {
    if a != [] && b != [] && a[0] == b[0] then 1 + Lcp(a[1..], b[1..]) else 0
  }

  /** `Lcp` is the largest agreeing length, and every smaller length agrees too. */
  lemma {:induction false} LcpDecidesAgreement(a: Render, b: Render, n: nat)
    ensures Agree(a, b, n) <==> n <= Lcp(a, b)
  {
    if n > 0 && a != [] && b != [] && a[0] == b[0] {
      LcpDecidesAgreement(a[1..], b[1..], n - 1);
      if Agree(a[1..], b[1..], n - 1) {
        forall i | 0 <= i < n ensures a[i] == b[i] {
          if i > 0 { assert a[1..][i - 1] == b[1..][i - 1]; }
        }
      }
    }
  }

  method TokenizedLcp(previous: Render, current: Render) returns (lcp: nat)
    ensures forall n: nat :: Agree(previous, current, n) <==> n <= lcp
    ensures lcp == Lcp(previous, current)
  {
    var limit := if |previous| < |current| then |previous| else |current|;
    lcp := 0;
    while lcp < limit && previous[lcp] == current[lcp]
      invariant lcp <= limit
      invariant Agree(previous, current, lcp)
    {
      lcp := lcp + 1;
    }
    LcpDecidesAgreement(previous, current, lcp);
    LcpDecidesAgreement(previous, current, lcp + 1);
    forall n: nat ensures Agree(previous, current, n) <==> n <= lcp {
      LcpDecidesAgreement(previous, current, n);
    }
  }

  // ---------------------------------------------------------------------------
  // One candidate
  // ---------------------------------------------------------------------------

  function Classify(previous: Render, current: Render, block: nat): Match
    requires block > 0
  {
    var lcp := Lcp(previous, current);
    if previous != [] && lcp >= |previous| - 1 then
      Match(|previous| - 1, NMinusOneExact, lcp, |previous|, None)
    else
      var safe := lcp / block * block;
      Match(safe, if safe > 0 then ChainBlock else NoMatch, lcp, |previous|, None)
  }

  /** What the engine hashes: the number of leading whole blocks with equal contents. */
  function AgreeingBlocks(a: Render, b: Render, block: nat): nat
    requires block > 0
    decreases |a|
  {
    if |a| >= block && |b| >= block && Agree(a, b, block)
    then 1 + AgreeingBlocks(a[block..], b[block..], block)
    else 0
  }

  lemma {:induction false} LcpSkipsABlock(a: Render, b: Render, n: nat)
    requires Agree(a, b, n)
    ensures Lcp(a, b) == n + Lcp(a[n..], b[n..])
  {
    if n > 0 {
      assert a[0] == b[0];
      LcpSkipsABlock(a[1..], b[1..], n - 1);
      assert a[1..][n - 1..] == a[n..] && b[1..][n - 1..] == b[n..];
    }
  }

  lemma {:induction false} LcpInBlocks(a: Render, b: Render, block: nat)
    requires block > 0
    ensures Lcp(a, b) / block == AgreeingBlocks(a, b, block)
    decreases |a|
  {
    LcpDecidesAgreement(a, b, block);
    if Agree(a, b, block) {
      LcpSkipsABlock(a, b, block);
      LcpInBlocks(a[block..], b[block..], block);
      DivideOneMore(Lcp(a[block..], b[block..]), block);
    } else {
      DivideSmall(Lcp(a, b), block);
    }
  }

  /** What else is said of a candidate: how far the renders agree, and its length. */
  lemma CandidatesAreDescribed(previous: Render, current: Render, block: nat, n: nat)
    requires block > 0
    ensures var m := Classify(previous, current, block);
      && (Agree(previous, current, n) <==> n <= m.lcp)
      && m.sourceLen == |previous| && m.sourceIndex == None
  {
    LcpDecidesAgreement(previous, current, n);
  }

  /**
   A candidate's extent is sound (the two renders agree on it), and it is either the
   whole candidate but its last token, exactly when they agree that far, or block size
   times the number of leading whole blocks that agree.
   */
  lemma ClassifyIsSound(previous: Render, current: Render, block: nat)
    requires block > 0
    ensures var m := Classify(previous, current, block);
      && Agree(previous, current, m.safeExpected)
      && (m.kind == NMinusOneExact <==>
            previous != [] && Agree(previous, current, |previous| - 1))
      && (m.kind == NMinusOneExact ==> m.safeExpected == |previous| - 1)
      && (m.kind != NMinusOneExact ==>
            m.safeExpected == block * AgreeingBlocks(previous, current, block))
      && (m.kind == NoMatch <==> m.kind != NMinusOneExact && m.safeExpected == 0)
  {
    var m := Classify(previous, current, block);
    LcpDecidesAgreement(previous, current, m.safeExpected);
    FloorToMultiple(Lcp(previous, current), block);
    LcpDecidesAgreement(previous, current, Lcp(previous, current) / block * block);
    LcpInBlocks(previous, current, block);
    if previous != [] {
      LcpDecidesAgreement(previous, current, |previous| - 1);
    }
  }

  // ---------------------------------------------------------------------------
  // The best candidate of the whole history
  // ---------------------------------------------------------------------------

  function Best(history: seq<Render>, current: Render, block: nat): Match
    requires block > 0
  {
    if history == [] then
      Match(0, NoMatch, 0, 0, None)
    else
      var i := |history| - 1;
      var best := Best(history[..i], current, block);
      var candidate := Classify(history[i], current, block);
      if candidate.safeExpected > best.safeExpected
      then candidate.(sourceIndex := Some(i))
      else best
  }

  method BestCacheMatch(history: seq<Render>, current: Render, block: nat) returns (best: Match)
    requires block > 0
    ensures best == Best(history, current, block)
  {
    best := Match(0, NoMatch, 0, 0, None);
    for i := 0 to |history|
      invariant best == Best(history[..i], current, block)
    {
      var lcp := TokenizedLcp(history[i], current);
      var candidate := Classify(history[i], current, block);
      assert history[..i + 1][..i] == history[..i];
      if candidate.safeExpected > best.safeExpected {
        best := candidate.(sourceIndex := Some(i));
      }
    }
    assert history[..|history|] == history;
  }

  /**
   The chosen extent is the maximum over the whole history, taken at the earliest render
   that reaches it; there is no source exactly when no render allows any reuse.
   */
  lemma {:induction false} BestIsEarliestMaximum(history: seq<Render>, current: Render, block: nat)
    requires block > 0
    ensures var best := Best(history, current, block);
      && (forall i :: 0 <= i < |history| ==>
            Classify(history[i], current, block).safeExpected <= best.safeExpected)
      && (best.sourceIndex.None? <==>
            forall i :: 0 <= i < |history| ==> Classify(history[i], current, block).safeExpected == 0)
      && (best.sourceIndex.None? ==> best.safeExpected == 0)
      && (best.sourceIndex.Some? ==>
            var i := best.sourceIndex.value;
            && i < |history|
            && best == Classify(history[i], current, block).(sourceIndex := Some(i))
            && Agree(history[i], current, best.safeExpected)
            && forall j :: 0 <= j < i ==>
                 Classify(history[j], current, block).safeExpected < best.safeExpected)
  {
    if history != [] {
      var n := |history| - 1;
      BestIsEarliestMaximum(history[..n], current, block);
      ClassifyIsSound(history[n], current, block);
      var rest := history[..n];
      assert forall i :: 0 <= i < n ==> rest[i] == history[i];
    }
  }

  /** An extent that bounds every candidate and is reached by one is the best. */
  lemma ReachedBoundIsBest(history: seq<Render>, current: Render, block: nat, bound: nat)
    requires block > 0
    requires forall i :: 0 <= i < |history| ==>
      Classify(history[i], current, block).safeExpected <= bound
    requires bound > 0 ==>
      exists i :: 0 <= i < |history| && Classify(history[i], current, block).safeExpected == bound
    ensures Best(history, current, block).safeExpected == bound
  {
    BestIsEarliestMaximum(history, current, block);
  }

  /** Whatever is added to a history, in whatever order, the extent never drops. */
  lemma MoreHistoryNeverLowers(
    history: seq<Render>, larger: seq<Render>, current: Render, block: nat)
    requires block > 0
    requires forall r :: r in history ==> r in larger
    ensures Best(history, current, block).safeExpected <= Best(larger, current, block).safeExpected
  {
    BestIsEarliestMaximum(history, current, block);
    BestIsEarliestMaximum(larger, current, block);
    var best := Best(history, current, block);
    if best.sourceIndex.Some? {
      assert history[best.sourceIndex.value] in larger;
    }
  }

  /**
   A render that the current one continues through its next-to-last token wins over every
   render that either stops agreeing earlier or is shorter.
   */
  lemma ContinuedRenderWins(history: seq<Render>, current: Render, block: nat, k: nat)
    requires block > 0 && k < |history|
    requires |history[k]| >= 2
    requires Agree(history[k], current, |history[k]| - 1)
    requires forall i :: 0 <= i < |history| && i != k ==>
      !Agree(history[i], current, |history[k]| - 1) || |history[i]| < |history[k]|
    ensures var best := Best(history, current, block);
      best.sourceIndex == Some(k) && best.kind == NMinusOneExact
      && best.safeExpected == |history[k]| - 1
  {
    var goal := |history[k]| - 1;
    BestIsEarliestMaximum(history, current, block);
    ClassifyIsSound(history[k], current, block);
    forall i | 0 <= i < |history| && i != k
      ensures Classify(history[i], current, block).safeExpected < goal
    {
      var m := Classify(history[i], current, block);
      ClassifyIsSound(history[i], current, block);
      if m.safeExpected >= goal {
        LcpDecidesAgreement(history[i], current, m.safeExpected);
        LcpDecidesAgreement(history[i], current, goal);
        assert false;
      }
    }
  }

  /** Every render continues its predecessor up to the generation prompt's last token. */
  ghost predicate AppendOnly(history: seq<Render>, current: Render) {
    && (forall i :: 0 <= i < |history| ==> |history[i]| >= 2)
    && (forall i, j :: 0 <= i < j < |history| ==> |history[i]| < |history[j]|)
    && (forall i :: 0 <= i < |history| ==> Agree(history[i], current, |history[i]| - 1))
  }

  /** An append-only conversation always matches its last render, up to its N-1 token. */
  lemma AppendOnlyMatchesLastRender(history: seq<Render>, current: Render, block: nat)
    requires block > 0 && history != []
    requires AppendOnly(history, current)
    ensures var best := Best(history, current, block);
      best.sourceIndex == Some(|history| - 1) && best.kind == NMinusOneExact
      && best.safeExpected == |history[|history| - 1]| - 1
  {
    ContinuedRenderWins(history, current, block, |history| - 1);
  }

  /** The renders that are not marked as detours, in order. */
  function Chain(history: seq<Render>, detour: seq<bool>): (chain: seq<Render>)
    requires |detour| == |history|
    ensures |chain| <= |history|
  {
    if history == [] then []
    else
      var n := |history| - 1;
      Chain(history[..n], detour[..n]) + if detour[n] then [] else [history[n]]
  }

  /** Where the chain's last render stands in the history, if it has one. */
  lemma {:induction false} LastOfChain(history: seq<Render>, detour: seq<bool>) returns (k: nat)
    requires |detour| == |history|
    ensures var chain := Chain(history, detour);
      chain != [] ==>
        && k < |history| && !detour[k] && history[k] == chain[|chain| - 1]
        && (forall i :: k < i < |history| ==> detour[i])
        && (forall i :: 0 <= i < k && !detour[i] ==> history[i] in chain[..|chain| - 1])
  {
    if history == [] {
      return 0;
    }
    var n := |history| - 1;
    var chain, before := Chain(history, detour), Chain(history[..n], detour[..n]);
    if detour[n] {
      k := LastOfChain(history[..n], detour[..n]);
      assert chain == before;
      assert forall i :: 0 <= i < n ==> history[..n][i] == history[i] && detour[..n][i] == detour[i];
    } else {
      k := n;
      assert chain[..|chain| - 1] == before;
      forall i | 0 <= i < n && !detour[i] ensures history[i] in before {
        ChainMembers(history[..n], detour[..n], i);
      }
    }
  }

  lemma {:induction false} ChainMembers(history: seq<Render>, detour: seq<bool>, i: nat)
    requires |detour| == |history| && i < |history| && !detour[i]
    ensures history[i] in Chain(history, detour)
  {
    var n := |history| - 1;
    if i < n {
      ChainMembers(history[..n], detour[..n], i);
    } else {
      var chain := Chain(history, detour);
      assert chain[|chain| - 1] == history[n];
    }
  }

  /**
   Detours (renders that leave the chain before the chain's end, as tools-on turns do) may stand
   anywhere in the history: the match is the one the chain alone would give.
   */
  lemma DetoursNeverDisplaceTheChain(history: seq<Render>, detour: seq<bool>, current: Render, block: nat)
    requires block > 0 && |detour| == |history|
    requires var chain := Chain(history, detour);
      && chain != [] && AppendOnly(chain, current)
      && forall i :: 0 <= i < |history| && detour[i] ==>
           !Agree(history[i], current, |chain[|chain| - 1]| - 1)
    ensures var chain, best := Chain(history, detour), Best(history, current, block);
      && best.sourceIndex.Some? && best.sourceIndex.value < |history|
      && !detour[best.sourceIndex.value]
      && best.(sourceIndex := None) == Best(chain, current, block).(sourceIndex := None)
  {
    var chain := Chain(history, detour);
    var k := LastOfChain(history, detour);
    forall i | 0 <= i < |history| && i != k
      ensures !Agree(history[i], current, |history[k]| - 1) || |history[i]| < |history[k]|
    {
      if !detour[i] { EarlierIsShorter(chain, current, history[i]); }
    }
    ContinuedRenderWins(history, current, block, k);
    AppendOnlyMatchesLastRender(chain, current, block);
    BestIsItsCandidate(history, current, block, k);
    BestIsItsCandidate(chain, current, block, |chain| - 1);
  }

  lemma EarlierIsShorter(chain: seq<Render>, current: Render, render: Render)
    requires chain != [] && AppendOnly(chain, current) && render in chain[..|chain| - 1]
    ensures |render| < |chain[|chain| - 1]|
  {
    var j :| 0 <= j < |chain| - 1 && chain[..|chain| - 1][j] == render;
  }

  lemma BestIsItsCandidate(history: seq<Render>, current: Render, block: nat, k: nat)
    requires block > 0 && Best(history, current, block).sourceIndex == Some(k)
    ensures k < |history|
    ensures Best(history, current, block) == Classify(history[k], current, block).(sourceIndex := Some(k))
  {
    BestIsEarliestMaximum(history, current, block);
  }

  /** Renders of at most one token allow no reuse, so the N-1 results need two tokens. */
  lemma OneTokenRendersHaveNoSource(history: seq<Render>, current: Render, block: nat)
    requires block > 0 && forall i :: 0 <= i < |history| ==> |history[i]| <= 1
    ensures Best(history, current, block) == Match(0, NoMatch, 0, 0, None)
  {
    BestIsEarliestMaximum(history, current, block);
    forall i | 0 <= i < |history| ensures Classify(history[i], current, block).safeExpected == 0 {
      ClassifyIsSound(history[i], current, block);
    }
    NothingFound(history, current, block);
  }

  lemma {:induction false} NothingFound(history: seq<Render>, current: Render, block: nat)
    requires block > 0
    requires forall i :: 0 <= i < |history| ==> Classify(history[i], current, block).safeExpected == 0
    ensures Best(history, current, block) == Match(0, NoMatch, 0, 0, None)
  {
    if history != [] { NothingFound(history[..|history| - 1], current, block); }
  }

  // ---------------------------------------------------------------------------
  // Grading an observed restore against the oracle
  // ---------------------------------------------------------------------------

  datatype Confidence = ServerVerified | ApproximateUnverified

  datatype Finding = Unverified | UnderRestore | OverRestoreHybrid | OverRestore

  function GradeCacheMatch(
    observed: int, match_: Match, confidence: Confidence, hybrid: bool): seq<Finding>
  {
    if confidence != ServerVerified then [Unverified]
    else
      (if observed < match_.safeExpected then [UnderRestore] else [])
      + (if observed > match_.safeExpected
         then [if hybrid then OverRestoreHybrid else OverRestore] else [])
  }

  function Select(items: seq<Finding>, unverified: bool): seq<Finding> {
    if items == [] then []
    else (if items[0].Unverified? == unverified then [items[0]] else [])
         + Select(items[1..], unverified)
  }

  /** Blocking errors and informational notes. */
  function SplitCacheGrading(items: seq<Finding>): (seq<Finding>, seq<Finding>) {
    (Select(items, false), Select(items, true))
  }

  lemma {:induction false} SplitLosesNothing(items: seq<Finding>)
    ensures var (errors, notes) := SplitCacheGrading(items);
      multiset(errors) + multiset(notes) == multiset(items)
      && Unverified !in errors && (forall n :: n in notes ==> n == Unverified)
  {
    if items != [] {
      SplitLosesNothing(items[1..]);
      assert items == [items[0]] + items[1..];
    }
  }

  /**
   With a confirmed render a restore blocks exactly when it is not the predicted extent;
   without one it never blocks and is always noted.
   */
  lemma GradingIsExact(observed: int, match_: Match, confidence: Confidence, hybrid: bool)
    ensures var (errors, notes) :=
        SplitCacheGrading(GradeCacheMatch(observed, match_, confidence, hybrid));
      && (errors == [] <==> confidence != ServerVerified || observed == match_.safeExpected)
      && (notes == [] <==> confidence == ServerVerified)
      && |errors| <= 1
      && (forall e :: e in errors <==>
            && confidence == ServerVerified
            && (|| (e == UnderRestore && observed < match_.safeExpected)
                || (e == OverRestoreHybrid && observed > match_.safeExpected && hybrid)
                || (e == OverRestore && observed > match_.safeExpected && !hybrid)))
  {
    var items := GradeCacheMatch(observed, match_, confidence, hybrid);
    assert items == [] || items == [items[0]];
    if items != [] {
      assert items[1..] == [];
      assert Select(items[1..], true) == Select(items[1..], false) == [];
    }
  }
}
