/**
 Sizing a probe prompt to a token target: bracket the number of filler words by doubling,
 then bisect, with a memo table over an arbitrary tokenizer.
 */
module PromptSizing {
  import opened Common
  import Filler

  type Tokenizer = string -> int

  datatype Sized = Sized(content: string, tokens: int, words: nat)

  datatype SizingError = TargetNotPositive | InstructionsTooLong | NotBracketed | MissesTolerance

  /** What stays fixed while one prompt is sized: the tokenizer and the text per word count. */
  datatype Task = Task(tokenizer: Tokenizer, content: nat -> string) {
    function Tokens(words: nat): int {
      tokenizer(content(words))
    }
  }

  /** The runner's own task: filler in front of a question. */
  function ProbeTask(tokenizer: Tokenizer, seed: int, question: string): Task {
    Task(tokenizer, (words: nat) => Filler.ProbeContent(words, seed, question))
  }

  datatype Rendering = Rendering(content: string, tokens: int)

  class Memo {
    const task: Task
    var rendered: map<nat, Rendering>
    /** How often the tokenizer was called. */
    ghost var tokenizations: nat

    /** The table agrees with the tokenizer and was paid for once per entry. */
    ghost predicate Valid()
      reads this
    {
      && (forall w :: w in rendered ==> rendered[w] == Rendering(task.content(w), task.Tokens(w)))
      && tokenizations == |rendered|
    }

    constructor (task: Task)
      ensures Valid() && rendered == map[] && this.task == task
    {
      this.task, this.rendered, this.tokenizations := task, map[], 0;
    }

    method Rendered(words: nat) returns (content: string, tokens: int)
      requires Valid()
      modifies this
      ensures Valid()
      ensures content == task.content(words) && tokens == task.Tokens(words)
      ensures rendered.Keys == old(rendered.Keys) + {words}
      ensures tokenizations
        == old(tokenizations) + if words in old(rendered) then 0 else 1
    {
      if words !in rendered {
        content := task.content(words);
        tokenizations := tokenizations + 1;
        rendered := rendered[words := Rendering(content, task.tokenizer(content))];
      }
      content, tokens := rendered[words].content, rendered[words].tokens;
    }
  }

  function Pow2(n: nat): (p: nat)
    ensures p >= 1
  {
    if n == 0 then 1 else 2 * Pow2(n - 1)
  }

  /** The least `n` with `k <= 2^n`. */
  function Log2Up(k: nat): (n: nat)
    ensures k <= Pow2(n)
    ensures n > 0 ==> Pow2(n - 1) < k
  {
    if k <= 1 then 0
    else
      var n := Log2Up((k + 1) / 2);
      assert n > 0 ==> Pow2(n) == 2 * Pow2(n - 1);
      n + 1
  }

  /** Half the target, and at least one. */
  function FirstProbe(target: int): nat
    requires target > 0
  {
    if target / 2 < 1 then 1 else target / 2
  }

  /** The doubling search tries these, one after the other. */
  function ProbeAt(target: int, k: nat): (h: nat)
    requires target > 0
    ensures h > 0
  {
    if k == 0 then FirstProbe(target) else 2 * ProbeAt(target, k - 1)
  }

  lemma {:induction false} ProbesDouble(target: int, k: nat)
    requires target > 0
    ensures ProbeAt(target, k) == Pow2(k) * (if target == 1 then 1 else target / 2)
  {
    if k > 0 { ProbesDouble(target, k - 1); }
  }

  /** Every word count that the doubling search may try fits. */
  ghost predicate EveryProbeFits(task: Task, target: int)
    requires target > 0
  {
    forall k: nat :: ProbeAt(target, k) <= 4 * target ==> task.Tokens(ProbeAt(target, k)) <= target
  }

  /** `w` words fit and one more does not. */
  predicate IsBoundary(task: Task, target: int, w: nat) {
    task.Tokens(w) <= target < task.Tokens(w + 1)
  }

  method BuildTargetPrompt(task: Task, target: int, tolerance: int)
    returns (r: Result<Sized, SizingError>, memo: Memo)
    ensures fresh(memo) && memo.Valid() && memo.task == task
    ensures r.Ok? ==>
      var p := r.value;
      && p.content == task.content(p.words) && p.tokens == task.Tokens(p.words)
      && IsBoundary(task, target, p.words)
      && target - p.tokens <= tolerance
    ensures r == Err(TargetNotPositive) <==> target <= 0
    ensures r == Err(InstructionsTooLong) <==> target > 0 && task.Tokens(0) > target
    ensures r == Err(NotBracketed) <==>
      target > 0 && task.Tokens(0) <= target && EveryProbeFits(task, target)
    ensures r == Err(MissesTolerance) ==>
      exists w :: IsBoundary(task, target, w) && target - task.Tokens(w) > tolerance
    ensures Monotone(task) && target > 0 && task.Tokens(0) <= target && !EveryProbeFits(task, target) ==>
      forall w: nat :: IsBoundary(task, target, w) ==>
        (r == Err(MissesTolerance) <==> target - task.Tokens(w) > tolerance)
    ensures target > 0 ==> memo.tokenizations <= 5 + Log2Up(2 * target)
  {
    memo := new Memo(task);
    if target <= 0 {
      return Err(TargetNotPositive), memo;
    }
    var _, emptyTokens := memo.Rendered(0);
    if emptyTokens > target {
      return Err(InstructionsTooLong), memo;
    }
    var low, high, bracketed := Bracket(memo, target);
    if !bracketed {
      return Err(NotBracketed), memo;
    }
    low := Bisect(memo, target, low, high);
    var content, count := memo.Rendered(low);
    if Monotone(task) { BoundaryIsUnique(task, target, low); }
    if target - count > tolerance {
      return Err(MissesTolerance), memo;
    }
    r := Ok(Sized(content, count, low));
  }

  method Bracket(memo: Memo, target: int) returns (low: nat, high: nat, bracketed: bool)
    requires memo.Valid() && target > 0
    requires memo.task.Tokens(0) <= target && memo.tokenizations == 1 && 0 in memo.rendered
    modifies memo
    ensures memo.Valid()
    ensures bracketed ==>
      && low < high && high - low <= 2 * target
      && memo.task.Tokens(low) <= target < memo.task.Tokens(high)
      && low in memo.rendered
    ensures bracketed <==> !EveryProbeFits(memo.task, target)
    ensures memo.tokenizations <= 5
  {
    low, high := 0, FirstProbe(target);
    ghost var k: nat := 0;
    FirstProbing(memo.task, target);
    var _, tokens := memo.Rendered(high);
    while tokens <= target
      invariant memo.Valid() && low in memo.rendered && high in memo.rendered
      invariant Probing(memo.task, target, k, low, high) && memo.tokenizations <= k + 2
      invariant tokens == memo.task.Tokens(high)
      decreases 4 * target - high
    {
      NextProbe(memo.task, target, k, low, high);
      low := high;
      high := high * 2;
      k := k + 1;
      if high > 4 * target {
        return low, high, false;
      }
      var _, next := memo.Rendered(high);
      tokens := next;
    }
    SomeProbeIsTooLong(memo.task, target, k, low, high);
    bracketed := true;
  }

  /** `high` is the probe `k`, not more than twice the target above `low`, which fits. */
  ghost predicate Probing(task: Task, target: int, k: nat, low: nat, high: nat)
    requires target > 0
  {
    && k <= 3 && high == ProbeAt(target, k) && high <= 4 * target
    && low < high && high - low <= 2 * target && task.Tokens(low) <= target
    && ProbesFitBefore(task, target, k)
  }

  lemma FirstProbing(task: Task, target: int)
    requires target > 0 && task.Tokens(0) <= target
    ensures Probing(task, target, 0, 0, FirstProbe(target))
  {
  }

  lemma SomeProbeIsTooLong(task: Task, target: int, k: nat, low: nat, high: nat)
    requires target > 0 && Probing(task, target, k, low, high) && task.Tokens(high) > target
    ensures !EveryProbeFits(task, target)
  {
  }

  /** When a probe fits, the next one is tried, or there is none left and all fit. */
  lemma NextProbe(task: Task, target: int, k: nat, low: nat, high: nat)
    requires target > 0 && Probing(task, target, k, low, high) && task.Tokens(high) <= target
    ensures high * 2 <= 4 * target ==> Probing(task, target, k + 1, high, high * 2)
    ensures high * 2 > 4 * target ==> EveryProbeFits(task, target)
  {
    OneMoreProbeFits(task, target, k);
    if high * 2 <= 4 * target {
      ProbesAreFew(target, k + 1);
    } else {
      LastProbeFits(task, target, k + 1);
    }
  }

  ghost predicate ProbesFitBefore(task: Task, target: int, k: nat)
    requires target > 0
  {
    forall j: nat :: j < k ==> task.Tokens(ProbeAt(target, j)) <= target
  }

  lemma OneMoreProbeFits(task: Task, target: int, k: nat)
    requires target > 0
    requires ProbesFitBefore(task, target, k) && task.Tokens(ProbeAt(target, k)) <= target
    ensures ProbesFitBefore(task, target, k + 1)
    ensures ProbeAt(target, k + 1) == 2 * ProbeAt(target, k)
  {
  }

  lemma LastProbeFits(task: Task, target: int, k: nat)
    requires target > 0 && ProbesFitBefore(task, target, k) && ProbeAt(target, k) > 4 * target
    ensures EveryProbeFits(task, target)
  {
    ProbesGrow(target, k);
  }

  method Bisect(memo: Memo, target: int, from: nat, to: nat) returns (low: nat)
    requires memo.Valid() && target > 0
    requires from < to && to - from <= 2 * target
    requires memo.task.Tokens(from) <= target < memo.task.Tokens(to)
    requires from in memo.rendered
    modifies memo
    ensures memo.Valid() && low in memo.rendered
    ensures IsBoundary(memo.task, target, low)
    ensures memo.task.Tokens(low) <= target < memo.task.Tokens(low + 1)
    ensures memo.tokenizations <= old(memo.tokenizations) + Log2Up(2 * target)
  {
    low := from;
    var high := to;
    ghost var start, halvings := memo.tokenizations, Log2Up(2 * target);
    ghost var budget := start + halvings;
    while low + 1 < high
      invariant memo.Valid() && low in memo.rendered
      invariant low < high && high - low <= Pow2(halvings)
      invariant memo.task.Tokens(low) <= target < memo.task.Tokens(high)
      invariant memo.tokenizations + halvings <= budget
    {
      HalfTheGap(low, high, halvings);
      low, high := Halve(memo, target, low, high);
      halvings := halvings - 1;
    }
    assert high == low + 1;
  }

  /** Moves one end of the gap to its middle. */
  method Halve(memo: Memo, target: int, low: nat, high: nat) returns (newLow: nat, newHigh: nat)
    requires memo.Valid() && low in memo.rendered && low + 1 < high
    requires memo.task.Tokens(low) <= target < memo.task.Tokens(high)
    modifies memo
    ensures memo.Valid() && newLow in memo.rendered
    ensures memo.task.Tokens(newLow) <= target < memo.task.Tokens(newHigh)
    ensures var mid := (low + high) / 2;
      (newLow == low && newHigh == mid) || (newLow == mid && newHigh == high)
    ensures memo.tokenizations <= old(memo.tokenizations) + 1
  {
    newLow, newHigh := low, high;
    var mid := (low + high) / 2;
    var _, tokens := memo.Rendered(mid);
    if tokens <= target {
      newLow := mid;
    } else {
      newHigh := mid;
    }
  }

  /** Either half of a gap of at least two fits the next smaller power of two. */
  lemma HalfTheGap(low: nat, high: nat, n: nat)
    requires low + 1 < high && high - low <= Pow2(n)
    ensures n > 0
    ensures (low + high) / 2 - low <= Pow2(n - 1) && high - (low + high) / 2 <= Pow2(n - 1)
  {
  }

  lemma {:induction false} ProbesGrow(target: int, k: nat)
    requires target > 0
    ensures forall j: nat :: j >= k ==> ProbeAt(target, j) >= ProbeAt(target, k)
  {
    forall j: nat | j >= k ensures ProbeAt(target, j) >= ProbeAt(target, k) {
      LaterProbeIsLarger(target, k, j);
    }
  }

  lemma {:induction false} LaterProbeIsLarger(target: int, k: nat, j: nat)
    requires target > 0 && k <= j
    ensures ProbeAt(target, j) >= ProbeAt(target, k)
    decreases j
  {
    if k < j { LaterProbeIsLarger(target, k, j - 1); }
  }

  /** The first probe is at least a third of the target, so four probes pass four times it. */
  lemma ProbesAreFew(target: int, k: nat)
    requires target > 0 && ProbeAt(target, k) <= 4 * target
    ensures k <= 3
  {
    assert ProbeAt(target, 2) == 2 * ProbeAt(target, 1) == 4 * FirstProbe(target);
    assert ProbeAt(target, 4) == 2 * ProbeAt(target, 3);
    assert ProbeAt(target, 4) == 4 * ProbeAt(target, 2);
    if k > 3 { LaterProbeIsLarger(target, 4, k); }
  }

  // ---------------------------------------------------------------------------
  // What more a well-behaved tokenizer gives
  // ---------------------------------------------------------------------------

  ghost predicate Monotone(task: Task) {
    forall v: nat, w: nat :: v <= w ==> task.Tokens(v) <= task.Tokens(w)
  }

  /** A boundary of a monotone counter separates the counts that fit from those that do not. */
  lemma BoundaryIsLargestFit(task: Task, target: int, w: nat)
    requires Monotone(task) && IsBoundary(task, target, w)
    ensures forall v: nat :: task.Tokens(v) <= target <==> v <= w
  {
    forall v: nat ensures task.Tokens(v) <= target <==> v <= w {
      if v > w { assert task.Tokens(w + 1) <= task.Tokens(v); }
    }
  }

  lemma BoundaryIsUnique(task: Task, target: int, v: nat)
    requires Monotone(task) && IsBoundary(task, target, v)
    ensures forall w: nat :: IsBoundary(task, target, w) ==> w == v
  {
    forall w: nat | IsBoundary(task, target, w) ensures w == v {
      BoundaryIsLargestFit(task, target, v);
      BoundaryIsLargestFit(task, target, w);
    }
  }

  ghost predicate EveryWordCosts(task: Task) {
    task.Tokens(0) >= 0 && forall w: nat :: task.Tokens(w) < task.Tokens(w + 1)
  }

  lemma {:induction false} WordsCostAtLeastTheirNumber(task: Task, w: nat)
    requires EveryWordCosts(task)
    ensures task.Tokens(w) >= w
    decreases w
  {
    if w > 0 {
      WordsCostAtLeastTheirNumber(task, w - 1);
      assert task.Tokens(w - 1) < task.Tokens(w - 1 + 1);
    }
  }

  /** If every word costs a token, the third probe is already too long. */
  lemma BracketingCannotFail(task: Task, target: int)
    requires target > 0 && EveryWordCosts(task)
    ensures !EveryProbeFits(task, target)
  {
    var h := ProbeAt(target, 2);
    assert h == 2 * ProbeAt(target, 1) == 4 * FirstProbe(target);
    assert target < h <= 4 * target;
    WordsCostAtLeastTheirNumber(task, h);
  }

  // ---------------------------------------------------------------------------
  // The runner's own contents
  // ---------------------------------------------------------------------------

  /** One entry per word count is one entry per text: different counts never share a text. */
  lemma MemoKeysAreTexts(tokenizer: Tokenizer, seed: int, question: string, v: nat, w: nat)
    ensures var task := ProbeTask(tokenizer, seed, question);
      task.content(v) == task.content(w) <==> v == w
  {
    Filler.ProbeDeterminesFiller(v, seed, w, seed, question);
  }
}
