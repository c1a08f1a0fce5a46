/**
 The speed gate's exact prompt: bisect the number of filler copies, step back once when a
 single token is missing, and pad to the target.
 */
module ExactFit {
  import opened Common

  /** Tokens of the prompt with so many filler copies and so many padding words. */
  type Counter = (nat, nat) -> int

  datatype Fit = Fit(repeats: nat, padding: nat)

  datatype FitError = SmallerThanTask | PaddingFailed

  /** The chat template adds this many tokens to the plain text. */
  const TEMPLATE_TOKENS := 5

  function Bisect(count: Counter, target: int, low: nat, high: int): (r: nat)
    requires low <= high
    ensures low <= r <= high
    decreases high - low
  {
    if low >= high then low
    else
      var mid := (low + high + 1) / 2;
      if count(mid, 0) <= target then Bisect(count, target, mid, high)
      else Bisect(count, target, low, mid - 1)
  }

  /** One copy less when exactly one token is missing. */
  function StepBack(count: Counter, target: int, low: nat): nat {
    if target - count(low, 0) == 1 && low > 0 then low - 1 else low
  }

  /** The first padding in the window that meets the target. */
  function FirstPadding(count: Counter, target: int, low: nat, from: nat, to: int): Option<nat>
    decreases if from < to then to - from else 0
  {
    if from >= to then None
    else if count(low, from) == target then Some(from)
    else FirstPadding(count, target, low, from + 1, to)
  }

  function WindowStart(remainder: nat): nat {
    if remainder < 8 then 0 else remainder - 8
  }

  function ExactFit(count: Counter, nominal: int): Result<Fit, FitError> {
    var target := nominal - TEMPLATE_TOKENS;
    var low := StepBack(count, target, if nominal <= 0 then 0 else Bisect(count, target, 0, nominal));
    var remainder := target - count(low, 0);
    if remainder < 0 then Err(SmallerThanTask)
    else
      match FirstPadding(count, target, low, WindowStart(remainder), remainder + 9)
      case Some(padding) => Ok(Fit(low, padding))
      case None => Err(PaddingFailed)
  }

  method Prompt(count: Counter, nominal: int) returns (r: Result<Fit, FitError>)
    ensures r == ExactFit(count, nominal)
  {
    var target := nominal - TEMPLATE_TOKENS;
    var low: nat, high := 0, nominal;
    while low < high
      invariant nominal <= 0 ==> low == 0 && high == nominal
      invariant nominal > 0 ==> low <= high
      invariant nominal > 0 ==> Bisect(count, target, low, high) == Bisect(count, target, 0, nominal)
      decreases high - low
    {
      var mid := (low + high + 1) / 2;
      if count(mid, 0) <= target {
        low := mid;
      } else {
        high := mid - 1;
      }
    }
    assert low == if nominal <= 0 then 0 else Bisect(count, target, 0, nominal);
    if target - count(low, 0) == 1 && low > 0 {
      low := low - 1;
    }
    var remainder := target - count(low, 0);
    if remainder < 0 {
      return Err(SmallerThanTask);
    }
    var start := WindowStart(remainder);
    for padding := start to remainder + 9
      invariant FirstPadding(count, target, low, padding, remainder + 9)
        == FirstPadding(count, target, low, start, remainder + 9)
    {
      if count(low, padding) == target {
        return Ok(Fit(low, padding));
      }
    }
    r := Err(PaddingFailed);
  }

  // ---------------------------------------------------------------------------
  // Any counter
  // ---------------------------------------------------------------------------

  /** The bisection ends where one copy more is too long, monotone counter or not. */
  lemma {:induction false} BisectionFindsABoundary(
    count: Counter, target: int, low: nat, high: int)
    requires low <= high
    ensures var r := Bisect(count, target, low, high);
      && (r == low || count(r, 0) <= target)
      && (r == high || count(r + 1, 0) > target)
    decreases high - low
  {
    if low < high {
      var mid := (low + high + 1) / 2;
      if count(mid, 0) <= target {
        BisectionFindsABoundary(count, target, mid, high);
      } else {
        BisectionFindsABoundary(count, target, low, mid - 1);
      }
    }
  }

  lemma {:induction false} FirstPaddingIsFirst(
    count: Counter, target: int, low: nat, from: nat, to: int)
    ensures var p := FirstPadding(count, target, low, from, to);
      && (p.None? ==> forall q: nat :: from <= q < to ==> count(low, q) != target)
      && (p.Some? ==> from <= p.value < to && count(low, p.value) == target)
      && (p.Some? ==> forall q: nat :: from <= q < p.value ==> count(low, q) != target)
    decreases if from < to then to - from else 0
  {
    if from < to && count(low, from) != target {
      FirstPaddingIsFirst(count, target, low, from + 1, to);
    }
  }

  /** With `low` copies some tokens are missing, and no padding within eight of them fits. */
  ghost predicate CannotPad(count: Counter, target: int, low: nat) {
    count(low, 0) <= target
    && forall q: nat :: -8 <= q - (target - count(low, 0)) <= 8 ==> count(low, q) != target
  }

  /**
   Where the search ends: at a boundary of the counter, or one copy before it if a single token
   is missing there.
   */
  ghost predicate EndsAt(count: Counter, target: int, nominal: int, low: nat) {
    exists found: nat :: IsFound(count, target, nominal, found)
      && low == if found > 0 && count(found, 0) + 1 == target then found - 1 else found
  }

  /** So many copies fit, or none was tried, and one more does not, or none was allowed. */
  ghost predicate IsFound(count: Counter, target: int, nominal: int, found: nat) {
    && (found == 0 || (found <= nominal && count(found, 0) <= target))
    && (found >= nominal || count(found + 1, 0) > target)
  }

  /** This padding meets the target, and no smaller one within eight of the missing tokens does. */
  ghost predicate Pads(count: Counter, target: int, low: nat, padding: nat) {
    var missing := target - count(low, 0);
    && count(low, padding) == target && missing - 8 <= padding <= missing + 8
    && forall q: nat :: missing - 8 <= q < padding ==> count(low, q) != target
  }

  /**
   A returned prompt has exactly the target, and the least padding within eight of the missing
   tokens; a failure to pad means that none of these meets it; and a prompt is called too small
   exactly when the copies found are already too long.
   */
  lemma FitIsExact(count: Counter, nominal: int) returns (low: nat)
    ensures var target, r := nominal - 5, ExactFit(count, nominal);
      && EndsAt(count, target, nominal, low)
      && (r == Err(SmallerThanTask) <==> count(low, 0) > target)
      && (r == Err(PaddingFailed) <==> CannotPad(count, target, low))
      && (r.Ok? ==>
            && r.value.repeats == low && Pads(count, target, low, r.value.padding)
            && count(r.value.repeats, r.value.padding) == target)
  {
    var target := nominal - TEMPLATE_TOKENS;
    var found := if nominal <= 0 then 0 else Bisect(count, target, 0, nominal);
    low := StepBack(count, target, found);
    if nominal > 0 { BisectionFindsABoundary(count, target, 0, nominal); }
    assert IsFound(count, target, nominal, found);
    var remainder := target - count(low, 0);
    if remainder >= 0 {
      FirstPaddingIsFirst(count, target, low, WindowStart(remainder), remainder + 9);
    }
  }

  // ---------------------------------------------------------------------------
  // A counter that adds up
  // ---------------------------------------------------------------------------

  /** The task alone costs `base`, every copy `filler`, every padding word one token. */
  ghost predicate Additive(count: Counter, base: nat, filler: nat) {
    filler >= 1 && forall r: nat, p: nat :: count(r, p) == base + filler * r + p
  }

  /** The search finds the largest number of copies that fits, or none. */
  lemma AdditiveSearch(count: Counter, nominal: int, base: nat, filler: nat) returns (found: nat)
    requires Additive(count, base, filler)
    ensures var target := nominal - TEMPLATE_TOKENS;
      && found == (if nominal <= 0 then 0 else Bisect(count, target, 0, nominal))
      && (base > target ==> found == 0)
      && (base <= target ==> 0 <= target - (base + filler * found) < filler)
  {
    var target := nominal - TEMPLATE_TOKENS;
    found := if nominal <= 0 then 0 else Bisect(count, target, 0, nominal);
    if nominal > 0 { BisectionFindsABoundary(count, target, 0, nominal); }
    CopiesCost(filler, found);
    assert count(found, 0) == base + filler * found;
    assert count(found + 1, 0) == base + filler * (found + 1);
  }

  lemma CopiesCost(filler: nat, n: nat)
    requires filler >= 1
    ensures filler * n >= n && filler * (n + 1) == filler * n + filler
  {
  }

  /**
   For an additive counter the search succeeds exactly when the bare task fits; then it pads
   with exactly the missing tokens, at most one more than a copy costs, and never with a
   single token unless no copy fits at all.
   */
  lemma AdditiveCountersAlwaysFit(count: Counter, nominal: int, base: nat, filler: nat)
    requires Additive(count, base, filler)
    ensures var target, r := nominal - TEMPLATE_TOKENS, ExactFit(count, nominal);
      && (r.Ok? <==> base <= target)
      && (base > target ==> r == Err(SmallerThanTask))
      && (r.Ok? ==>
            var Fit(repeats, padding) := r.value;
            && base + filler * repeats + padding == target
            && (padding < filler || padding == filler + 1)
            && (padding == 1 ==> repeats == 0))
  {
    var target := nominal - TEMPLATE_TOKENS;
    var found := AdditiveSearch(count, nominal, base, filler);
    var low := StepBack(count, target, found);
    assert count(found, 0) == base + filler * found;
    if low != found {
      CopiesCost(filler, low);
    }
    assert count(low, 0) == base + filler * low;
    if base <= target {
      PadsWithWhatIsMissing(count, target, low, base, filler);
    }
  }

  lemma PadsWithWhatIsMissing(count: Counter, target: int, low: nat, base: nat, filler: nat)
    requires Additive(count, base, filler) && count(low, 0) <= target
    ensures var remainder := target - count(low, 0);
      FirstPadding(count, target, low, WindowStart(remainder), remainder + 9) == Some(remainder)
  {
    var remainder := target - count(low, 0);
    FirstPaddingIsFirst(count, target, low, WindowStart(remainder), remainder + 9);
    assert count(low, 0) == base + filler * low && count(low, remainder) == target;
  }
}
