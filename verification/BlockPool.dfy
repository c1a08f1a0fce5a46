/**
 The block pool of the paged cache: reference counts over a queue of free blocks, as a state
 and its steps. Blocks are of any type.
 */
module BlockPool {
  import opened Sequences

  /** The free blocks, least recently used first, and the references to every block. */
  datatype Pool<!B(==)> = Pool(queue: seq<B>, refs: map<B, nat>, placeholder: B)

  /** A block is free exactly when nothing refers to it, and is then queued once. */
  ghost predicate Sound<B>(p: Pool<B>) {
    && Distinct(p.queue)
    && (forall b :: b in p.queue ==> b in p.refs && p.refs[b] == 0)
    && (forall b :: b in p.refs && p.refs[b] == 0 ==> b in p.queue)
    && p.placeholder in p.refs && p.refs[p.placeholder] > 0
  }

  /** Everything a step refers to belongs to the pool. */
  ghost predicate Known<B>(p: Pool<B>, bs: seq<B>) {
    forall b :: b in bs ==> b in p.refs
  }

  // ---------------------------------------------------------------------------
  // Touching and releasing
  // ---------------------------------------------------------------------------

  /** The sequence without any of the given elements. */
  function Without<B(==)>(s: seq<B>, gone: seq<B>): seq<B> {
    if s == [] then []
    else Without(s[..|s| - 1], gone) + if s[|s| - 1] in gone then [] else [s[|s| - 1]]
  }

  function TouchOne<B(==)>(p: Pool<B>, b: B): Pool<B>
    requires b in p.refs
  {
    p.(queue := if p.refs[b] == 0 then Without(p.queue, [b]) else p.queue,
       refs := p.refs[b := p.refs[b] + 1])
  }

  function ReleaseOne<B(==)>(p: Pool<B>, b: B): Pool<B>
    requires b in p.refs
  {
    if b == p.placeholder || p.refs[b] == 0 then p
    else
      p.(queue := if p.refs[b] == 1 then p.queue + [b] else p.queue,
         refs := p.refs[b := p.refs[b] - 1])
  }

  function TouchAll<B(==)>(p: Pool<B>, bs: seq<B>): (q: Pool<B>)
    requires Known(p, bs)
    ensures q.refs.Keys == p.refs.Keys && q.placeholder == p.placeholder
  {
    if bs == [] then p
    else
      assert bs[|bs| - 1] in bs;
      TouchOne(TouchAll(p, bs[..|bs| - 1]), bs[|bs| - 1])
  }

  lemma TouchAllNext<B>(p: Pool<B>, bs: seq<B>, i: nat)
    requires Known(p, bs) && i < |bs|
    ensures bs[i] in p.refs
    ensures TouchAll(p, bs[..i + 1]) == TouchOne(TouchAll(p, bs[..i]), bs[i])
  {
    assert bs[i] in bs && bs[..i + 1][..i] == bs[..i];
  }

  function ReleaseAll<B(==)>(p: Pool<B>, bs: seq<B>): (q: Pool<B>)
    requires Known(p, bs)
    ensures q.refs.Keys == p.refs.Keys && q.placeholder == p.placeholder
  {
    if bs == [] then p
    else
      assert bs[|bs| - 1] in bs;
      ReleaseOne(ReleaseAll(p, bs[..|bs| - 1]), bs[|bs| - 1])
  }

  // ---------------------------------------------------------------------------
  // Allocating
  // ---------------------------------------------------------------------------

  /** The place of the first block whose payload may be dropped. */
  function FirstRecyclable<B(==)>(queue: seq<B>, pending: set<B>): (k: nat)
    ensures k <= |queue|
    ensures forall i :: 0 <= i < k ==> queue[i] in pending
    ensures k < |queue| ==> queue[k] !in pending
  {
    if queue == [] || queue[0] !in pending then 0
    else 1 + FirstRecyclable(queue[1..], pending)
  }

  /** Moves the first recyclable block over; what was passed over goes to the end. */
  function TakeOne<B(==)>(s: (seq<B>, seq<B>), pending: set<B>): (r: (seq<B>, seq<B>))
    ensures |r.0| <= |s.0| + 1
  {
    var (taken, rest) := s;
    var k := FirstRecyclable(rest, pending);
    if k == |rest| then s else (taken + [rest[k]], rest[k + 1..] + rest[..k])
  }

  /** Takes up to `n` recyclable blocks. */
  function Take<B(==)>(queue: seq<B>, pending: set<B>, n: nat): (r: (seq<B>, seq<B>))
    ensures |r.0| <= n
  {
    if n == 0 then ([], queue) else TakeOne(Take(queue, pending, n - 1), pending)
  }

  /** Gives the blocks one reference each. */
  function Hand<B(==)>(refs: map<B, nat>, bs: seq<B>): map<B, nat> {
    if bs == [] then refs else Hand(refs, bs[..|bs| - 1])[bs[|bs| - 1] := 1]
  }

  function AllocateFrom<B(==)>(p: Pool<B>, pending: set<B>, n: nat): Pool<B> {
    var (taken, rest) := Take(p.queue, pending, n);
    if n > |p.queue| then p
    else if |taken| == n then p.(queue := rest, refs := Hand(p.refs, taken))
    else p.(queue := rest + taken)
  }

  /** The elements in or out of the set, in their order. */
  function Select<B(==)>(s: seq<B>, pending: set<B>, inside: bool): seq<B> {
    if s == [] then []
    else
      Select(s[..|s| - 1], pending, inside)
      + if (s[|s| - 1] in pending) == inside then [s[|s| - 1]] else []
  }

  lemma {:induction false} SelectConcat<B>(a: seq<B>, b: seq<B>, pending: set<B>, inside: bool)
    ensures Select(a + b, pending, inside) == Select(a, pending, inside) + Select(b, pending, inside)
  {
    if b == [] {
      assert a + b == a;
    } else {
      var n := |b| - 1;
      SelectConcat(a, b[..n], pending, inside);
      assert (a + b)[..|a + b| - 1] == a + b[..n];
    }
  }

  lemma {:induction false} SelectAllOrNone<B>(s: seq<B>, pending: set<B>, inside: bool)
    requires forall b :: b in s ==> b in pending
    ensures Select(s, pending, inside) == if inside then s else []
  {
    if s != [] {
      var n := |s| - 1;
      assert s[n] in s && forall b :: b in s[..n] ==> b in s;
      SelectAllOrNone(s[..n], pending, inside);
      assert s == s[..n] + [s[n]];
    }
  }

  lemma {:induction false} SelectMembers<B>(s: seq<B>, pending: set<B>, inside: bool, b: B)
    ensures b in Select(s, pending, inside) <==> b in s && (b in pending) == inside
  {
    if s != [] {
      var n := |s| - 1;
      SelectMembers(s[..n], pending, inside, b);
      assert s == s[..n] + [s[n]];
    }
  }

  lemma {:induction false} SelectSplits<B>(s: seq<B>, pending: set<B>)
    ensures multiset(Select(s, pending, true)) + multiset(Select(s, pending, false)) == multiset(s)
  {
    if s != [] {
      var front, last := s[..|s| - 1], s[|s| - 1];
      SelectSplits(front, pending);
      assert s == front + [last];
      assert multiset(s) == multiset(front) + multiset{last};
      var inside := last in pending;
      assert Select(s, pending, inside) == Select(front, pending, inside) + [last];
      NothingAdded(Select(front, pending, !inside));
    }
  }

  lemma PassedOverArePending<B>(s: seq<B>, pending: set<B>)
    ensures forall b :: b in Select(s, pending, true) ==> b in pending
  {
    forall b | b in Select(s, pending, true) ensures b in pending {
      SelectMembers(s, pending, true, b);
    }
  }

  lemma SelectParts<B>(a: seq<B>, b: seq<B>, last: B, pending: set<B>, inside: bool)
    ensures Select(a + b + [last], pending, inside)
      == Select(a, pending, inside) + Select(b, pending, inside)
         + if (last in pending) == inside then [last] else []
  {
    SelectConcat(a, b, pending, inside);
    assert (a + b + [last])[..|a + b|] == a + b;
  }

  lemma SelectRun<B>(a: seq<B>, skipped: seq<B>, found: B, pending: set<B>)
    requires (forall b :: b in skipped ==> b in pending) && found !in pending
    ensures Select(a + skipped + [found], pending, false) == Select(a, pending, false) + [found]
    ensures Select(a + skipped + [found], pending, true) == Select(a, pending, true) + skipped
  {
    SelectAllOrNone(skipped, pending, true);
    SelectAllOrNone(skipped, pending, false);
    SelectParts(a, skipped, found, pending, true);
    SelectParts(a, skipped, found, pending, false);
    NothingAdded(Select(a, pending, false));
    NothingAdded(Select(a, pending, true) + skipped);
  }

  lemma CutAdvances<B>(queue: seq<B>, pending: set<B>, before: nat, k: nat)
    requires before + k < |queue|
    requires forall i :: before <= i < before + k ==> queue[i] in pending
    requires queue[before + k] !in pending
    ensures var cut := before + k + 1;
      && Select(queue[..cut], pending, false)
           == Select(queue[..before], pending, false) + [queue[before + k]]
      && Select(queue[..cut], pending, true)
           == Select(queue[..before], pending, true) + queue[before..before + k]
  {
    var cut, skipped, found := before + k + 1, queue[before..before + k], queue[before + k];
    forall b | b in skipped ensures b in pending {
      var i :| 0 <= i < k && skipped[i] == b;
      assert queue[before + i] == b;
    }
    assert queue[..cut] == queue[..before] + skipped + [found];
    SelectRun(queue[..before], skipped, found, pending);
  }

  /** What taking does to a queue that it scanned up to the cut, behind a block that it took. */
  ghost predicate CutAt<B>(queue: seq<B>, pending: set<B>, cut: nat, taken: seq<B>, rest: seq<B>) {
    && cut <= |queue| && (cut > 0 ==> queue[cut - 1] !in pending)
    && taken == Select(queue[..cut], pending, false)
    && rest == queue[cut..] + Select(queue[..cut], pending, true)
  }

  /**
   Taking stops at a cut of the queue, right behind the block taken last: everything recyclable
   before it is taken, in order, and what is left is the queue behind the cut followed by what
   was passed over. It only takes fewer than asked for if nothing recyclable is left.
   */
  lemma {:induction false} TakeCuts<B>(queue: seq<B>, pending: set<B>, n: nat) returns (cut: nat)
    ensures var (taken, rest) := Take(queue, pending, n);
      && CutAt(queue, pending, cut, taken, rest)
      && (|taken| < n ==> FirstRecyclable(rest, pending) == |rest|)
  {
    if n == 0 {
      cut := 0;
      NothingCut(queue, pending);
    } else {
      var s := Take(queue, pending, n - 1);
      cut := TakeCuts(queue, pending, n - 1);
      var k := FirstRecyclable(s.1, pending);
      if k < |s.1| {
        RestAdvances(queue, pending, cut, s.0, s.1);
        cut := cut + k + 1;
      }
    }
  }

  lemma NothingCut<B>(queue: seq<B>, pending: set<B>)
    ensures CutAt(queue, pending, 0, [], queue)
  {
    assert queue[..0] == [] && queue[0..] + [] == queue;
  }

  /** Any recyclable block lies behind the cut. */
  lemma RestAdvances<B>(queue: seq<B>, pending: set<B>, cut: nat, taken: seq<B>, rest: seq<B>)
    requires CutAt(queue, pending, cut, taken, rest)
    requires FirstRecyclable(rest, pending) < |rest|
    ensures var k := FirstRecyclable(rest, pending);
      CutAt(queue, pending, cut + k + 1, taken + [rest[k]], rest[k + 1..] + rest[..k])
  {
    var k, passed := FirstRecyclable(rest, pending), Select(queue[..cut], pending, true);
    PassedOverArePending(queue[..cut], pending);
    assert forall i :: |queue| - cut <= i < |rest| ==> rest[i] == passed[i - (|queue| - cut)];
    assert forall i :: 0 <= i < |passed| ==> passed[i] in passed;
    assert k < |queue| - cut;
    assert forall i :: cut <= i <= cut + k ==> queue[i] == rest[i - cut];
    CutAdvances(queue, pending, cut, k);
    TurnAt(queue[cut..], passed, k);
    assert queue[cut..][k + 1..] == queue[cut + k + 1..];
    assert queue[cut..][..k] == queue[cut..cut + k];
  }

  lemma TurnAt<B>(behind: seq<B>, passed: seq<B>, k: nat)
    requires k < |behind|
    ensures (behind + passed)[k + 1..] + (behind + passed)[..k]
      == behind[k + 1..] + (passed + behind[..k])
  {
    assert (behind + passed)[k + 1..] == behind[k + 1..] + passed;
    assert (behind + passed)[..k] == behind[..k];
  }

  lemma NothingIsLeft<B>(queue: seq<B>, pending: set<B>, cut: nat, taken: seq<B>, rest: seq<B>)
    requires CutAt(queue, pending, cut, taken, rest)
    requires FirstRecyclable(rest, pending) == |rest|
    ensures Select(queue[cut..], pending, false) == []
  {
    var behind := queue[cut..];
    forall b | b in behind ensures b in pending {
      var i :| 0 <= i < |behind| && behind[i] == b;
      assert rest[i] == b;
    }
    SelectAllOrNone(behind, pending, false);
  }

  /**
   The blocks handed out are the least recently used recyclable ones, in order; there are too
   few exactly when the queue holds too few, and no block appears or is lost either way.
   */
  lemma TakesTheLeastRecentlyUsed<B>(queue: seq<B>, pending: set<B>, n: nat)
    ensures var (taken, rest) := Take(queue, pending, n);
      var all := Select(queue, pending, false);
      && |taken| == (if n <= |all| then n else |all|)
      && taken == all[..|taken|]
      && multiset(rest) + multiset(taken) == multiset(queue)
  {
    var (taken, rest) := Take(queue, pending, n);
    var cut := TakeCuts(queue, pending, n);
    assert queue == queue[..cut] + queue[cut..];
    SelectConcat(queue[..cut], queue[cut..], pending, false);
    SelectSplits(queue[..cut], pending);
    if |taken| < n {
      NothingIsLeft(queue, pending, cut, taken, rest);
    }
  }

  lemma TakeOneAdds<B>(taken: seq<B>, rest: seq<B>, pending: set<B>)
    ensures TakeOne((taken, rest), pending)
      == (taken + TakeOne(([], rest), pending).0, TakeOne(([], rest), pending).1)
  {
    var k := FirstRecyclable(rest, pending);
    if k < |rest| {
      assert taken + ([] + [rest[k]]) == taken + [rest[k]];
    } else {
      NothingAdded(taken);
    }
  }

  lemma {:induction false} TakeStops<B>(queue: seq<B>, pending: set<B>, n: nat, m: nat)
    requires n <= m && TakeOne(Take(queue, pending, n), pending) == Take(queue, pending, n)
    ensures Take(queue, pending, m) == Take(queue, pending, n)
  {
    if n < m { TakeStops(queue, pending, n, m - 1); }
  }

  lemma AllocatingOne<B>(p: Pool<B>, pending: set<B>)
    ensures var (taken, rest) := TakeOne(([], p.queue), pending);
      && Take(p.queue, pending, 1) == (taken, rest)
      && (taken == [] ==> rest == p.queue && AllocateFrom(p, pending, 1) == p)
      && (taken != [] ==> AllocateFrom(p, pending, 1) == p.(queue := rest, refs := p.refs[taken[0] := 1]))
  {
    var (taken, rest) := TakeOne(([], p.queue), pending);
    assert Take(p.queue, pending, 0) == ([], p.queue);
    NothingAdded(rest);
    if taken != [] {
      assert taken == [taken[0]] && taken[..0] == [];
      assert Hand(p.refs, taken) == Hand(p.refs, [])[taken[0] := 1];
    }
  }

  // ---------------------------------------------------------------------------
  // Sequences without repetitions
  // ---------------------------------------------------------------------------

  lemma {:induction false} DistinctCounts<B>(s: seq<B>)
    ensures Distinct(s) <==> forall b :: multiset(s)[b] <= 1
  {
    if s != [] {
      var front, last := s[..|s| - 1], s[|s| - 1];
      DistinctCounts(front);
      assert s == front + [last];
      assert multiset(s) == multiset(front) + multiset{last};
      if Distinct(s) {
        assert last !in front;
      } else if Distinct(front) {
        var i, j :| 0 <= i < j < |s| && s[i] == s[j];
        assert j == |s| - 1 && front[i] == last;
        assert multiset(s)[last] > 1;
      } else {
        var b :| multiset(front)[b] > 1;
        assert multiset(s)[b] > 1;
      }
    }
  }

  /** Splitting a sequence without repetitions gives two that share nothing. */
  lemma SameCounts<B>(whole: seq<B>, a: seq<B>, b: seq<B>)
    requires Distinct(whole) && multiset(b) + multiset(a) == multiset(whole)
    ensures Distinct(a) && Distinct(b) && Distinct(b + a)
    ensures forall x :: x in whole ==> x in a || x in b
    ensures forall x :: x in a ==> x in whole && x !in b
    ensures forall x :: x in b ==> x in whole
  {
    DistinctCounts(whole);
    DistinctCounts(a);
    DistinctCounts(b);
    DistinctCounts(b + a);
    assert multiset(b + a) == multiset(whole);
    forall x ensures multiset(a)[x] <= 1 && multiset(b)[x] <= 1 {
      assert multiset(whole)[x] == multiset(a)[x] + multiset(b)[x];
    }
    forall x | x in whole ensures x in a || x in b {
      assert multiset(whole)[x] > 0;
    }
    forall x | x in a ensures x in whole && x !in b {
      assert multiset(a)[x] > 0 && multiset(whole)[x] <= 1;
      assert x in b ==> multiset(b)[x] > 0;
    }
    forall x | x in b ensures x in whole {
      assert multiset(b)[x] > 0 && multiset(whole)[x] == multiset(a)[x] + multiset(b)[x];
    }
  }

  lemma {:induction false} WithoutMember<B>(s: seq<B>, gone: seq<B>, b: B)
    ensures b in Without(s, gone) <==> b in s && b !in gone
  {
    if s != [] {
      WithoutMember(s[..|s| - 1], gone, b);
      assert s == s[..|s| - 1] + [s[|s| - 1]];
    }
  }

  lemma {:induction false} WithoutIsDistinct<B>(s: seq<B>, gone: seq<B>)
    requires Distinct(s)
    ensures Distinct(Without(s, gone))
  {
    if s != [] {
      var front, last := s[..|s| - 1], s[|s| - 1];
      WithoutIsDistinct(front, gone);
      WithoutMember(front, gone, last);
    }
  }

  lemma {:induction false} WithoutNothing<B>(s: seq<B>)
    ensures Without(s, []) == s
  {
    if s != [] {
      WithoutNothing(s[..|s| - 1]);
      assert s == s[..|s| - 1] + [s[|s| - 1]];
    }
  }

  lemma {:induction false} WithoutAbsent<B>(s: seq<B>, b: B)
    requires b !in s
    ensures Without(s, [b]) == s
  {
    if s != [] {
      assert s == s[..|s| - 1] + [s[|s| - 1]];
      WithoutAbsent(s[..|s| - 1], b);
    }
  }

  lemma {:induction false} WithoutTwice<B>(s: seq<B>, gone: seq<B>, b: B)
    ensures Without(Without(s, gone), [b]) == Without(s, gone + [b])
  {
    if s != [] {
      var front, last := s[..|s| - 1], s[|s| - 1];
      WithoutTwice(front, gone, b);
      OnlyMember(b);
      assert last in gone + [b] <==> last in gone || last in [b];
      var kept := Without(front, gone);
      if last in gone {
        assert Without(s, gone) == kept;
      } else {
        assert (kept + [last])[..|kept|] == kept && (kept + [last])[|kept|] == last;
        assert Without(kept + [last], [b]) == Without(kept, [b]) + if last in [b] then [] else [last];
      }
    }
  }

  lemma {:induction false} WithoutConcat<B>(a: seq<B>, b: seq<B>, gone: seq<B>)
    ensures Without(a + b, gone) == Without(a, gone) + Without(b, gone)
  {
    if b == [] {
      assert a + b == a;
    } else {
      var n := |b| - 1;
      WithoutConcat(a, b[..n], gone);
      assert (a + b)[..|a + b| - 1] == a + b[..n];
    }
  }

  lemma WithoutMiddle<B>(a: seq<B>, b: B, c: seq<B>)
    requires b !in a && b !in c
    ensures Without(a + [b] + c, [b]) == a + c
  {
    WithoutConcat(a + [b], c, [b]);
    WithoutAbsent(a, b);
    WithoutAbsent(c, b);
    assert (a + [b])[..|a|] == a && a + [] == a;
  }

  lemma WithoutAt<B>(s: seq<B>, k: nat)
    requires Distinct(s) && k < |s|
    ensures Without(s, [s[k]]) == s[..k] + s[k + 1..]
  {
    assert s == s[..k] + [s[k]] + s[k + 1..];
    WithoutMiddle(s[..k], s[k], s[k + 1..]);
  }

  // ---------------------------------------------------------------------------
  // Every step keeps the pool sound
  // ---------------------------------------------------------------------------

  lemma TouchKeepsSound<B>(p: Pool<B>, b: B)
    requires Sound(p) && b in p.refs
    ensures Sound(TouchOne(p, b))
  {
    WithoutIsDistinct(p.queue, [b]);
    OnlyMember(b);
    var q := TouchOne(p, b);
    forall x | x in q.queue ensures x in q.refs && q.refs[x] == 0 {
      WithoutMember(p.queue, [b], x);
    }
    forall x | x in q.refs && q.refs[x] == 0 ensures x in q.queue {
      WithoutMember(p.queue, [b], x);
    }
  }

  lemma ReleaseKeepsSound<B>(p: Pool<B>, b: B)
    requires Sound(p) && b in p.refs
    ensures Sound(ReleaseOne(p, b))
  {
    assert forall x :: x in p.queue + [b] <==> x in p.queue || x == b;
  }

  lemma {:induction false} TouchAllKeepsSound<B>(p: Pool<B>, bs: seq<B>)
    requires Sound(p) && Known(p, bs)
    ensures Sound(TouchAll(p, bs))
  {
    if bs != [] {
      TouchAllKeepsSound(p, bs[..|bs| - 1]);
      assert bs[|bs| - 1] in bs;
      TouchKeepsSound(TouchAll(p, bs[..|bs| - 1]), bs[|bs| - 1]);
    }
  }

  lemma {:induction false} ReleaseAllKeepsSound<B>(p: Pool<B>, bs: seq<B>)
    requires Sound(p) && Known(p, bs)
    ensures Sound(ReleaseAll(p, bs))
  {
    if bs != [] {
      ReleaseAllKeepsSound(p, bs[..|bs| - 1]);
      assert bs[|bs| - 1] in bs;
      ReleaseKeepsSound(ReleaseAll(p, bs[..|bs| - 1]), bs[|bs| - 1]);
    }
  }

  lemma {:induction false} HandedRef<B>(refs: map<B, nat>, bs: seq<B>, b: B)
    ensures b in Hand(refs, bs) <==> b in refs || b in bs
    ensures b in bs ==> Hand(refs, bs)[b] == 1
    ensures b in refs && b !in bs ==> Hand(refs, bs)[b] == refs[b]
  {
    if bs != [] {
      HandedRef(refs, bs[..|bs| - 1], b);
      assert bs == bs[..|bs| - 1] + [bs[|bs| - 1]];
    }
  }

  lemma {:induction false} HandedKeys<B>(refs: map<B, nat>, bs: seq<B>)
    requires forall b :: b in bs ==> b in refs
    ensures Hand(refs, bs).Keys == refs.Keys
  {
    if bs != [] {
      HandedKeys(refs, bs[..|bs| - 1]);
      assert bs[|bs| - 1] in bs;
    }
  }

  /** The queue is split into what is taken and what is left. */
  lemma TakingSplits<B>(queue: seq<B>, pending: set<B>, n: nat)
    requires Distinct(queue)
    ensures var (taken, rest) := Take(queue, pending, n);
      && Distinct(taken) && Distinct(rest) && Distinct(rest + taken)
      && (forall b :: b in queue ==> b in taken || b in rest)
      && (forall b :: b in taken ==> b in queue && b !in rest)
      && (forall b :: b in rest ==> b in queue)
      && |rest| + |taken| == |queue|
  {
    var (taken, rest) := Take(queue, pending, n);
    TakesTheLeastRecentlyUsed(queue, pending, n);
    assert |multiset(rest) + multiset(taken)| == |rest| + |taken|;
    SameCounts(queue, taken, rest);
  }

  lemma TakenAreNotPending<B>(queue: seq<B>, pending: set<B>, n: nat)
    ensures forall b :: b in Take(queue, pending, n).0 ==> b !in pending
  {
    var cut := TakeCuts(queue, pending, n);
    forall b | b in Take(queue, pending, n).0 ensures b !in pending {
      SelectMembers(queue[..cut], pending, false, b);
    }
  }

  lemma HandingKeepsSound<B>(p: Pool<B>, taken: seq<B>, rest: seq<B>)
    requires Sound(p) && Distinct(rest)
    requires forall b :: b in p.queue ==> b in taken || b in rest
    requires forall b :: b in taken ==> b in p.queue && b !in rest
    requires forall b :: b in rest ==> b in p.queue
    ensures Sound(p.(queue := rest, refs := Hand(p.refs, taken)))
    ensures Hand(p.refs, taken).Keys == p.refs.Keys
  {
    var q := p.(queue := rest, refs := Hand(p.refs, taken));
    forall b | b in taken ensures b in p.refs {
      assert b in p.queue;
    }
    HandedKeys(p.refs, taken);
    forall b | b in q.queue ensures b in q.refs && q.refs[b] == 0 {
      assert b in p.queue;
      HandedRef(p.refs, taken, b);
    }
    forall b | b in q.refs && q.refs[b] == 0 ensures b in q.queue {
      HandedRef(p.refs, taken, b);
      assert b in p.queue;
    }
    HandedRef(p.refs, taken, p.placeholder);
    assert p.placeholder !in p.queue;
  }

  lemma ReorderingKeepsSound<B>(p: Pool<B>, queue: seq<B>)
    requires Sound(p) && Distinct(queue)
    requires forall b :: b in p.queue <==> b in queue
    ensures Sound(p.(queue := queue))
  {
    var q := p.(queue := queue);
    forall b | b in q.queue ensures b in q.refs && q.refs[b] == 0 {
      assert b in p.queue;
    }
  }

  lemma AllocationKeepsSound<B>(p: Pool<B>, pending: set<B>, n: nat)
    requires Sound(p)
    ensures var q := AllocateFrom(p, pending, n);
      Sound(q) && q.refs.Keys == p.refs.Keys && q.placeholder == p.placeholder
  {
    var (taken, rest) := Take(p.queue, pending, n);
    TakingSplits(p.queue, pending, n);
    if n <= |p.queue| {
      if |taken| == n {
        HandingKeepsSound(p, taken, rest);
      } else {
        assert forall b :: b in rest + taken <==> b in rest || b in taken;
        ReorderingKeepsSound(p, rest + taken);
      }
    }
  }

  /**
   Allocation gives out only free blocks, each once, with one reference, and leaves every other
   count alone; when it fails, all blocks stay free.
   */
  lemma AllocationIsFresh<B>(p: Pool<B>, pending: set<B>, n: nat)
    requires Sound(p)
    ensures var taken, q := Take(p.queue, pending, n).0, AllocateFrom(p, pending, n);
      && Sound(q) && q.refs.Keys == p.refs.Keys && q.placeholder == p.placeholder
      && Distinct(taken)
      && (forall b :: b in taken ==>
            b in p.refs && p.refs[b] == 0 && b != p.placeholder && b !in pending)
      && (forall b :: b in p.refs ==>
            q.refs[b] == if |taken| == n && b in taken then 1 else p.refs[b])
  {
    var (taken, rest) := Take(p.queue, pending, n);
    AllocationKeepsSound(p, pending, n);
    TakingSplits(p.queue, pending, n);
    TakenAreNotPending(p.queue, pending, n);
    forall b | b in taken ensures b in p.refs && p.refs[b] == 0 {
      assert b in p.queue;
    }
    forall b | b in p.refs
      ensures AllocateFrom(p, pending, n).refs[b] ==
        if |taken| == n && b in taken then 1 else p.refs[b]
    {
      HandedRef(p.refs, taken, b);
    }
  }

  /**
   What allocation does to the queue, which is scanned up to the last block taken: what was passed
   over goes to the end, and too few blocks go behind that, all of them free again.
   */
  lemma AllocationTurnsTheQueue<B>(p: Pool<B>, pending: set<B>, n: nat) returns (cut: nat)
    ensures cut <= |p.queue| && (cut > 0 ==> p.queue[cut - 1] !in pending)
    ensures var q, all := AllocateFrom(p, pending, n), Select(p.queue, pending, false);
      var passed, found := Select(p.queue[..cut], pending, true), Select(p.queue[..cut], pending, false);
      && (n > |p.queue| ==> q == p)
      && (n <= |all| ==> |found| == n && q.queue == p.queue[cut..] + passed)
      && (|all| < n <= |p.queue| ==>
            found == all && q.refs == p.refs && q.queue == p.queue[cut..] + passed + all)
  {
    var (taken, rest) := Take(p.queue, pending, n);
    cut := TakeCuts(p.queue, pending, n);
    TakesTheLeastRecentlyUsed(p.queue, pending, n);
    SelectedAreFewer(p.queue, pending);
  }

  lemma SelectedAreFewer<B>(queue: seq<B>, pending: set<B>)
    ensures |Select(queue, pending, false)| <= |queue|
  {
    SelectSplits(queue, pending);
    assert |multiset(Select(queue, pending, false))| <= |multiset(queue)|;
  }

  // ---------------------------------------------------------------------------
  // Counting references
  // ---------------------------------------------------------------------------

  lemma {:induction false} TouchesAddUp<B>(p: Pool<B>, bs: seq<B>, b: B)
    requires Known(p, bs) && b in p.refs
    ensures TouchAll(p, bs).refs[b] == p.refs[b] + multiset(bs)[b]
  {
    if bs != [] {
      TouchesAddUp(p, bs[..|bs| - 1], b);
      assert bs == bs[..|bs| - 1] + [bs[|bs| - 1]];
    }
  }

  lemma {:induction false} ReleasesAddUp<B>(p: Pool<B>, bs: seq<B>, b: B)
    requires Known(p, bs) && b in p.refs
    ensures ReleaseAll(p, bs).refs[b] ==
      if b == p.placeholder then p.refs[b]
      else if p.refs[b] < multiset(bs)[b] then 0 else p.refs[b] - multiset(bs)[b]
  {
    if bs != [] {
      ReleasesAddUp(p, bs[..|bs| - 1], b);
      assert bs == bs[..|bs| - 1] + [bs[|bs| - 1]];
    }
  }

  lemma {:induction false} TouchedLeave<B>(p: Pool<B>, bs: seq<B>)
    requires Sound(p) && Known(p, bs)
    ensures TouchAll(p, bs).queue == Without(p.queue, bs)
  {
    if bs == [] {
      WithoutNothing(p.queue);
    } else {
      var front, last := bs[..|bs| - 1], bs[|bs| - 1];
      assert bs == front + [last] && last in bs;
      TouchedLeave(p, front);
      TouchAllKeepsSound(p, front);
      WithoutTwice(p.queue, front, last);
      if TouchAll(p, front).refs[last] != 0 {
        WithoutAbsent(Without(p.queue, front), last);
      }
    }
  }

  lemma {:induction false} ReleasesAppend<B>(p: Pool<B>, bs: seq<B>)
    requires Known(p, bs)
    ensures p.queue <= ReleaseAll(p, bs).queue
  {
    if bs != [] { ReleasesAppend(p, bs[..|bs| - 1]); }
  }

  /** Releases are made one after the other; the last reference puts a block at the end. */
  lemma {:induction false} ReleasesInTurn<B>(p: Pool<B>, bs: seq<B>, more: seq<B>)
    requires Known(p, bs + more)
    ensures Known(p, bs) && Known(p, more)
    ensures ReleaseAll(p, bs + more) == ReleaseAll(ReleaseAll(p, bs), more)
    decreases |more|
  {
    assert forall b :: b in bs + more <==> b in bs || b in more;
    if more == [] {
      assert bs + more == bs;
    } else {
      var n := |more| - 1;
      assert (bs + more)[..|bs + more| - 1] == bs + more[..n] && more[n] in more;
      ReleasesInTurn(p, bs, more[..n]);
    }
  }

  lemma ReleasedLast<B>(p: Pool<B>, b: B)
    requires b in p.refs
    ensures Known(p, [b])
    ensures ReleaseAll(p, [b]).queue ==
      if b != p.placeholder && p.refs[b] == 1 then p.queue + [b] else p.queue
  {
    OnlyMember(b);
    assert [b][..0] == [] && ReleaseAll(p, [b][..0]) == p;
  }

  /**
   Touching blocks and releasing them again restores every count exactly when the placeholder
   is not among them; the blocks left alone keep their order and are recycled first.
   */
  lemma TouchThenRelease<B>(p: Pool<B>, bs: seq<B>)
    requires Sound(p) && Known(p, bs)
    ensures var q := ReleaseAll(TouchAll(p, bs), bs);
      && Sound(q)
      && (q.refs == p.refs <==> p.placeholder !in bs)
      && Without(p.queue, bs) <= q.queue
      && multiset(q.queue) == multiset(p.queue)
  {
    var t := TouchAll(p, bs);
    var q := ReleaseAll(t, bs);
    TouchAllKeepsSound(p, bs);
    ReleaseAllKeepsSound(t, bs);
    TouchedLeave(p, bs);
    ReleasesAppend(t, bs);
    forall b | b in p.refs
      ensures q.refs[b] == p.refs[b] + if b == p.placeholder then multiset(bs)[b] else 0
    {
      TouchesAddUp(p, bs, b);
      ReleasesAddUp(t, bs, b);
    }
    CountsRestored(p, q, bs);
    SameQueues(p, q);
  }

  lemma CountsRestored<B>(p: Pool<B>, q: Pool<B>, bs: seq<B>)
    requires p.refs.Keys == q.refs.Keys && p.placeholder in p.refs
    requires forall b :: b in p.refs ==>
      q.refs[b] == p.refs[b] + if b == p.placeholder then multiset(bs)[b] else 0
    ensures q.refs == p.refs <==> p.placeholder !in bs
  {
    assert p.placeholder in bs <==> multiset(bs)[p.placeholder] > 0;
    if p.placeholder in bs {
      assert q.refs[p.placeholder] != p.refs[p.placeholder];
    }
  }

  /** The counts determine which blocks are queued. */
  lemma SameQueues<B>(p: Pool<B>, q: Pool<B>)
    requires Sound(p) && Sound(q) && p.refs.Keys == q.refs.Keys
    requires forall b :: b in p.refs ==> (p.refs[b] == 0 <==> q.refs[b] == 0)
    ensures multiset(p.queue) == multiset(q.queue)
  {
    DistinctCounts(p.queue);
    DistinctCounts(q.queue);
    forall b ensures multiset(p.queue)[b] == multiset(q.queue)[b] {
      assert b in p.queue <==> multiset(p.queue)[b] > 0;
      assert b in q.queue <==> multiset(q.queue)[b] > 0;
    }
  }

  /** Every block is either free or in use: the queue and the used blocks make up the pool. */
  lemma BlocksAreConserved<B>(p: Pool<B>)
    requires Sound(p)
    ensures |p.queue| + |set b | b in p.refs && p.refs[b] > 0| == |p.refs|
  {
    var free, used := set b | b in p.refs && p.refs[b] == 0, set b | b in p.refs && p.refs[b] > 0;
    assert free + used == p.refs.Keys && free * used == {};
    assert free == set b | b in p.queue;
    DistinctSize(p.queue);
  }

  // ---------------------------------------------------------------------------
  // Runs
  // ---------------------------------------------------------------------------

  datatype Op<!B> =
    | Touch(blocks: seq<B>)
    | Release(blocks: seq<B>)
    | Allocate(pending: set<B>, count: nat)
    | Rotate(count: nat)

  /** The first `n` blocks, or all, go to the other end, in their order. */
  function RotateQueue<B(==)>(queue: seq<B>, n: nat): (turned: seq<B>)
    ensures |turned| == |queue|
    ensures forall i :: 0 <= i < |queue| ==>
      turned[i] == queue[if n >= |queue| then i else if i < |queue| - n then i + n else i + n - |queue|]
  {
    var k := if n < |queue| then n else |queue|;
    queue[k..] + queue[..k]
  }

  function Step<B(==)>(p: Pool<B>, op: Op<B>): (q: Pool<B>)
    requires op.Touch? || op.Release? ==> Known(p, op.blocks)
  {
    match op
    case Touch(bs) => TouchAll(p, bs)
    case Release(bs) => ReleaseAll(p, bs)
    case Allocate(pending, n) => AllocateFrom(p, pending, n)
    case Rotate(n) => p.(queue := RotateQueue(p.queue, n))
  }

  lemma StepKeepsSound<B>(p: Pool<B>, op: Op<B>)
    requires Sound(p) && (op.Touch? || op.Release? ==> Known(p, op.blocks))
    ensures var q := Step(p, op);
      Sound(q) && q.refs.Keys == p.refs.Keys && q.placeholder == p.placeholder
  {
    match op
    case Touch(bs) => TouchAllKeepsSound(p, bs);
    case Release(bs) => ReleaseAllKeepsSound(p, bs);
    case Allocate(pending, n) => AllocationIsFresh(p, pending, n);
    case Rotate(n) =>
      var k := if n < |p.queue| then n else |p.queue|;
      assert p.queue == p.queue[..k] + p.queue[k..];
      SameCounts(p.queue, p.queue[..k], p.queue[k..]);
      ReorderingKeepsSound(p, RotateQueue(p.queue, n));
  }

  /** The steps only name blocks of the pool. */
  ghost predicate Runs<B>(p: Pool<B>, ops: seq<Op<B>>) {
    forall op :: op in ops && (op.Touch? || op.Release?) ==> Known(p, op.blocks)
  }

  /** The pool after the steps; whatever they were, it is sound again and has the same blocks. */
  ghost function After<B>(p: Pool<B>, ops: seq<Op<B>>): (q: Pool<B>)
    requires Sound(p) && Runs(p, ops)
    ensures Sound(q) && q.refs.Keys == p.refs.Keys && q.placeholder == p.placeholder
  {
    if ops == [] then p
    else
      assert ops[|ops| - 1] in ops && forall op :: op in ops[..|ops| - 1] ==> op in ops;
      var q := After(p, ops[..|ops| - 1]);
      StepKeepsSound(q, ops[|ops| - 1]);
      Step(q, ops[|ops| - 1])
  }

  function TouchCount<B(==)>(ops: seq<Op<B>>, b: B): nat {
    if ops == [] then 0
    else
      var last := ops[|ops| - 1];
      TouchCount(ops[..|ops| - 1], b) + if last.Touch? then multiset(last.blocks)[b] else 0
  }

  /**
   A block in use that no step releases keeps its references, gains one for every touch, and is
   not handed out again, whatever else happens.
   */
  lemma {:induction false} KeptUntilReleased<B>(p: Pool<B>, ops: seq<Op<B>>, b: B)
    requires Sound(p) && Runs(p, ops) && b in p.refs && p.refs[b] > 0
    requires forall op :: op in ops && op.Release? ==> b !in op.blocks
    ensures var q := After(p, ops);
      && q.refs[b] == p.refs[b] + TouchCount(ops, b)
      && (forall pending, n :: b !in Take(q.queue, pending, n).0)
  {
    if ops != [] {
      var front, last := ops[..|ops| - 1], ops[|ops| - 1];
      assert last in ops && forall op :: op in front ==> op in ops;
      KeptUntilReleased(p, front, b);
      var q := After(p, front);
      match last
      case Touch(bs) => TouchesAddUp(q, bs, b);
      case Release(bs) => ReleasesAddUp(q, bs, b);
      case Allocate(pending, n) => AllocationIsFresh(q, pending, n);
      case Rotate(n) =>
    }
    var q := After(p, ops);
    forall pending, n ensures b !in Take(q.queue, pending, n).0 {
      AllocationIsFresh(q, pending, n);
    }
  }
}
