/** Division facts about variable divisors, proved once. */
module Arithmetic {

  lemma DivideOneMore(n: nat, d: nat)
    requires d > 0
    ensures (d + n) / d == 1 + n / d
  {
    var q, r := n / d, n % d;
    assert d + n == (q + 1) * d + r;
    DivideUnique(d + n, d, q + 1, r);
  }

  lemma DivideUnique(n: nat, d: nat, q: nat, r: nat)
    requires d > 0 && r < d && n == q * d + r
    ensures n / d == q
  {
    var k := n / d - q;
    assert n == (n / d) * d + n % d;
    assert k * d == r - n % d;
    assert k > 0 ==> k * d >= d;
    assert k < 0 ==> k * d + d <= 0;
  }

  lemma RemainderUnique(n: nat, d: nat, q: nat, r: nat)
    requires d > 0 && r < d && n == q * d + r
    ensures n % d == r
  {
    DivideUnique(n, d, q, r);
    assert n == n / d * d + n % d;
  }

  lemma Split(n: nat, d: nat) returns (q: nat, start: nat)
    requires d > 0
    ensures q == n / d && start == q * d && n == start + n % d && start % d == 0
  {
    q := n / d;
    start := q * d;
    RemainderUnique(start, d, q, 0);
  }

  lemma DivideSmall(n: nat, d: nat)
    requires n < d
    ensures n / d == 0
  {
    DivideUnique(n, d, 0, n);
  }

  lemma FloorToMultiple(n: nat, d: nat)
    requires d > 0
    ensures 0 <= n / d * d <= n
    ensures n / d * d == d * (n / d)
  {
    assert n == n / d * d + n % d;
  }

  lemma {:induction false} MultiplesGrow(i: nat, j: nat, d: nat)
    requires d > 0 && i < j
    ensures i * d < j * d
    decreases j
  {
    assert j * d == (j - 1) * d + d;
    if i < j - 1 { MultiplesGrow(i, j - 1, d); }
  }

  lemma MultipleFits(k: nat, n: nat, d: nat)
    requires d > 0
    ensures k <= n / d <==> k * d <= n
  {
    var q := n / d;
    assert n == q * d + n % d && (q + 1) * d == q * d + d;
    if k < q { MultiplesGrow(k, q, d); }
    if k > q + 1 { MultiplesGrow(q + 1, k, d); }
  }

  lemma MultipleHasNoRemainder(k: nat, d: nat)
    requires d > 0
    ensures k * d % d == 0
  {
    DivideUnique(k * d, d, k, 0);
    assert k * d == k * d / d * d + k * d % d;
  }

  lemma BetweenMultiples(n: nat, q: nat, d: nat)
    requires d > 0 && q * d < n < (q + 1) * d
    ensures n % d != 0
  {
    DivideUnique(n, d, q, n - q * d);
    assert n == n / d * d + n % d;
  }

  lemma BetweenCuts(m: nat, n: nat, d: nat)
    requires d > 0 && m % d == 0 && m < n < m + d
    ensures n % d != 0
  {
    var q := m / d;
    assert m == q * d && (q + 1) * d == m + d;
    BetweenMultiples(n, q, d);
  }

  /** A multiple is at least `d` below a larger one, and the next is a multiple, too. */
  lemma MultiplesApart(a: nat, b: nat, d: nat)
    requires d > 0 && a % d == 0 && b % d == 0
    ensures (a + d) % d == 0 && (a < b ==> a + d <= b)
  {
    RemainderUnique(a + d, d, a / d + 1, 0);
    if a < b < a + d { BetweenCuts(a, b, d); }
  }

  lemma NextMultiple(n: nat, d: nat)
    ensures (n + 1) * d == n * d + d
  {
  }
}
