/**
 The content-addressed block chain of the paged cache: a block is known by its parent, its
 tokens and the discriminators in force at its end. The hash is modelled by the triple
 itself, so equal hashes mean equal contents.
 */
module BlockChain {
  import opened Arithmetic
  import opened Json
  import opened CacheKey
  import PrefixReuse

  datatype Chain = Root | Block(parent: Chain, tokens: seq<int>, extra: Value)

  datatype Request = Request(tokens: seq<int>, extra: Value)

  /** Block `i` of a partition ends before token `ends[i]`. */
  ghost predicate Partition(ends: seq<nat>, n: nat) {
    && (forall i :: 0 <= i < |ends| ==> 0 < ends[i] <= n)
    && (forall i, j :: 0 <= i < j < |ends| ==> ends[i] < ends[j])
  }

  ghost function ChainAt(r: Request, ends: seq<nat>, numerals: Numerals, i: nat): Chain
    requires Partition(ends, |r.tokens|) && i < |ends|
  {
    var parent := if i == 0 then Root else ChainAt(r, ends, numerals, i - 1);
    var start := if i == 0 then 0 else ends[i - 1];
    Block(parent, r.tokens[start..ends[i]], Resolve(r.extra, numerals, ends[i]))
  }

  /** Discriminators that agree at some end agree at every smaller one. */
  lemma AgreementReachesBack(x: Value, y: Value, numerals: Numerals, e1: int, e2: int)
    requires e1 <= e2 && Resolve(x, numerals, e2) == Resolve(y, numerals, e2)
    ensures Resolve(x, numerals, e1) == Resolve(y, numerals, e1)
  {
    ResolvingTwice(x, numerals, e2, e1);
    ResolvingTwice(y, numerals, e2, e1);
  }

  /**
   A block's identity is exactly the tokens up to its end and the discriminators in force
   there, whatever the partition.
   */
  lemma {:induction false} IdentityIsPrefixAndDiscriminators(
    r1: Request, r2: Request, ends: seq<nat>, numerals: Numerals, i: nat)
    requires Partition(ends, |r1.tokens|) && Partition(ends, |r2.tokens|) && i < |ends|
    ensures ChainAt(r1, ends, numerals, i) == ChainAt(r2, ends, numerals, i)
      <==> r1.tokens[..ends[i]] == r2.tokens[..ends[i]]
           && Resolve(r1.extra, numerals, ends[i]) == Resolve(r2.extra, numerals, ends[i])
  {
    var start := if i == 0 then 0 else ends[i - 1];
    assert r1.tokens[..ends[i]] == r1.tokens[..start] + r1.tokens[start..ends[i]];
    assert r2.tokens[..ends[i]] == r2.tokens[..start] + r2.tokens[start..ends[i]];
    if i > 0 {
      IdentityIsPrefixAndDiscriminators(r1, r2, ends, numerals, i - 1);
      if Resolve(r1.extra, numerals, ends[i]) == Resolve(r2.extra, numerals, ends[i]) {
        AgreementReachesBack(r1.extra, r2.extra, numerals, start, ends[i]);
      }
    }
    var p1, p2 := r1.tokens[..ends[i]], r2.tokens[..ends[i]];
    assert p1 == p2 ==> p1[..start] == p2[..start] && p1[start..] == p2[start..];
    assert p1[..start] == r1.tokens[..start] && p2[..start] == r2.tokens[..start];
    assert p1[start..] == r1.tokens[start..ends[i]] && p2[start..] == r2.tokens[start..ends[i]];
  }

  /**
   Equal tokens, one discriminator with two values: the chains share exactly the blocks that
   end at or before its boundary, and none if it is unscoped or its boundary is malformed.
   */
  lemma ValueSplitsTheChainAtItsBoundary(
    tokens: seq<int>, fields: map<string, Value>, numerals: Numerals, key: string,
    v1: Value, v2: Value, ends: seq<nat>, i: nat)
    requires Partition(ends, |tokens|) && i < |ends|
    requires key != SCOPES && v1 != v2
    ensures var boundary := BoundaryOf(ScopesIn(fields), numerals, key);
      ChainAt(Request(tokens, VObj(fields[key := v1])), ends, numerals, i)
        == ChainAt(Request(tokens, VObj(fields[key := v2])), ends, numerals, i)
      <==> boundary.From? && ends[i] <= boundary.token
  {
    IdentityIsPrefixAndDiscriminators(
      Request(tokens, VObj(fields[key := v1])), Request(tokens, VObj(fields[key := v2])),
      ends, numerals, i);
    ValueIsHiddenBeforeItsBoundary(fields, numerals, key, v1, v2, ends[i]);
  }

  /** The same for two requests scoped by the library's own call. */
  lemma ScopedMediaShareTheTextBeforeThem(
    tokens: seq<int>, fields: map<string, Value>, numerals: Numerals, repr: Value -> string,
    key: string, v1: Value, v2: Value, start: int, ends: seq<nat>, i: nat)
    requires Partition(ends, |tokens|) && i < |ends|
    requires key != SCOPES && v1 != v2
    ensures
      ChainAt(Request(tokens, ScopeKey(VObj(fields[key := v1]), repr, key, start)), ends, numerals, i)
        == ChainAt(Request(tokens, ScopeKey(VObj(fields[key := v2]), repr, key, start)), ends, numerals, i)
      <==> ends[i] <= start
  {
    var scoped := WithBoundary(fields, key, Max(0, start));
    ScopingIgnoresTheValue(fields, key, v1, Max(0, start));
    ScopingIgnoresTheValue(fields, key, v2, Max(0, start));
    ScopedBoundary(fields, numerals, key, Max(0, start));
    ValueSplitsTheChainAtItsBoundary(tokens, scoped, numerals, key, v1, v2, ends, i);
  }

  lemma ScopingIgnoresTheValue(fields: map<string, Value>, key: string, value: Value, boundary: nat)
    requires key != SCOPES
    ensures WithBoundary(fields[key := value], key, boundary)
      == WithBoundary(fields, key, boundary)[key := value]
  {
    assert ScopesIn(fields[key := value]) == ScopesIn(fields);
  }

  lemma ScopedBoundary(fields: map<string, Value>, numerals: Numerals, key: string, boundary: nat)
    requires key != SCOPES
    ensures BoundaryOf(ScopesIn(WithBoundary(fields, key, boundary)), numerals, key) == From(boundary)
  {
    assert ScopesIn(WithBoundary(fields, key, boundary)) == ScopesIn(fields)[key := VInt(boundary)];
  }

  /** Equal values, two boundaries: the chains part at the smaller boundary. */
  lemma BoundariesSplitTheChainAtTheFirst(
    tokens: seq<int>, fields: map<string, Value>, numerals: Numerals, key: string,
    b1: nat, b2: nat, ends: seq<nat>, i: nat)
    requires Partition(ends, |tokens|) && i < |ends|
    requires key != SCOPES && key in fields && b1 != b2
    ensures ChainAt(Request(tokens, VObj(WithBoundary(fields, key, b1))), ends, numerals, i)
        == ChainAt(Request(tokens, VObj(WithBoundary(fields, key, b2))), ends, numerals, i)
      <==> ends[i] <= if b1 < b2 then b1 else b2
  {
    IdentityIsPrefixAndDiscriminators(
      Request(tokens, VObj(WithBoundary(fields, key, b1))),
      Request(tokens, VObj(WithBoundary(fields, key, b2))), ends, numerals, i);
    BoundariesAreHiddenBeforeTheFirst(fields, numerals, key, b1, b2, ends[i]);
  }

  // ---------------------------------------------------------------------------
  // The engine's blocks: full ones of one size, and a shorter one at the end
  // ---------------------------------------------------------------------------

  /** The ends of the first `n` full blocks. */
  function Ends(n: nat, block: nat): (ends: seq<nat>)
    ensures |ends| == n
  {
    seq(n, i requires 0 <= i < n => (i + 1) * block)
  }

  lemma EndsPartition(n: nat, block: nat, total: nat)
    requires block > 0 && n * block <= total
    ensures Partition(Ends(n, block), total)
  {
    forall i, j | 0 <= i < j <= n ensures i * block < j * block {
      MultiplesGrow(i, j, block);
    }
    forall i | 0 <= i < n ensures 0 < Ends(n, block)[i] <= total {
      MultiplesGrow(0, i + 1, block);
      if i + 1 < n { MultiplesGrow(i + 1, n, block); }
    }
  }

  ghost function FullBlocks(r: Request, block: nat): (n: nat)
    requires block > 0
    ensures n * block <= |r.tokens|
  {
    FloorToMultiple(|r.tokens|, block);
    |r.tokens| / block
  }

  /** Where the block that ends before `end` starts: after the full blocks before it. */
  function Start(end: nat, block: nat): nat
    requires block > 0 && end > 0
  {
    (end - 1) / block * block
  }

  /** The first `end` tokens are cut after every full block, and at the end. */
  function Cuts(end: nat, block: nat): (ends: seq<nat>)
    requires block > 0 && end > 0
    ensures |ends| == (end - 1) / block + 1
  {
    Ends((end - 1) / block, block) + [end]
  }

  lemma CutsPartition(end: nat, block: nat, total: nat)
    requires block > 0 && 0 < end <= total
    ensures Partition(Cuts(end, block), total)
  {
    var q, ends := (end - 1) / block, Cuts(end, block);
    FloorToMultiple(end - 1, block);
    EndsPartition(q, block, end - 1);
    assert forall i :: 0 <= i < q ==> ends[i] == Ends(q, block)[i];
  }

  /** The identity of the last block of the request's first `end` tokens. */
  ghost function PrefixId(r: Request, block: nat, numerals: Numerals, end: nat): Chain
    requires block > 0 && 0 < end <= |r.tokens|
  {
    CutsPartition(end, block, |r.tokens|);
    ChainAt(r, Cuts(end, block), numerals, (end - 1) / block)
  }

  lemma {:induction false} ChainDependsOnEarlierEnds(
    r: Request, a: seq<nat>, b: seq<nat>, numerals: Numerals, i: nat)
    requires Partition(a, |r.tokens|) && Partition(b, |r.tokens|) && i < |a| && i < |b|
    requires forall j :: 0 <= j <= i ==> a[j] == b[j]
    ensures ChainAt(r, a, numerals, i) == ChainAt(r, b, numerals, i)
  {
    if i > 0 { ChainDependsOnEarlierEnds(r, a, b, numerals, i - 1); }
  }

  /** Cutting at the end of a full block is the start of any longer cut. */
  lemma CutsExtend(end: nat, block: nat)
    requires block > 0 && end > 0 && Start(end, block) > 0
    ensures var q, start := (end - 1) / block, Start(end, block);
      && 0 < q && start < end && (start - 1) / block == q - 1
      && forall j :: 0 <= j < q ==> Cuts(start, block)[j] == Cuts(end, block)[j]
  {
    var q, start := (end - 1) / block, Start(end, block);
    FloorToMultiple(end - 1, block);
    assert (q - 1) * block + (block - 1) == start - 1 by { assert q * block == (q - 1) * block + block; }
    DivideUnique(start - 1, block, q - 1, block - 1);
    assert Cuts(start, block)[q - 1] == start == Ends(q, block)[q - 1];
    assert forall j :: 0 <= j < q - 1 ==> Ends(q - 1, block)[j] == Ends(q, block)[j];
  }

  /** A block's identity from its parent's, its own tokens and the discriminators at its end. */
  lemma PrefixIdStep(r: Request, block: nat, numerals: Numerals, end: nat)
    requires block > 0 && 0 < end <= |r.tokens|
    ensures var start := Start(end, block);
      && start < end <= start + block
      && PrefixId(r, block, numerals, end) == Block(
           if start == 0 then Root else PrefixId(r, block, numerals, start),
           r.tokens[start..end], Resolve(r.extra, numerals, end))
  {
    var q, start := (end - 1) / block, Start(end, block);
    FloorToMultiple(end - 1, block);
    assert end - 1 == q * block + (end - 1) % block;
    CutsPartition(end, block, |r.tokens|);
    assert Cuts(end, block)[q] == end;
    if q > 0 {
      MultiplesGrow(0, q, block);
      CutsExtend(end, block);
      CutsPartition(start, block, |r.tokens|);
      ChainDependsOnEarlierEnds(r, Cuts(end, block), Cuts(start, block), numerals, q - 1);
      assert Cuts(end, block)[q - 1] == Ends(q, block)[q - 1] == start;
    }
  }

  /** Prefixes are one block exactly when their tokens and discriminators agree. */
  lemma PrefixIdentity(r1: Request, r2: Request, block: nat, numerals: Numerals, end: nat)
    requires block > 0 && 0 < end <= |r1.tokens| && end <= |r2.tokens|
    ensures PrefixId(r1, block, numerals, end) == PrefixId(r2, block, numerals, end)
      <==> PrefixReuse.Agree(r1.tokens, r2.tokens, end)
           && Resolve(r1.extra, numerals, end) == Resolve(r2.extra, numerals, end)
  {
    CutsPartition(end, block, |r1.tokens|);
    CutsPartition(end, block, |r2.tokens|);
    IdentityIsPrefixAndDiscriminators(r1, r2, Cuts(end, block), numerals, (end - 1) / block);
    EqualPrefixesAgree(r1.tokens, r2.tokens, end);
  }

  lemma EqualPrefixesAgree(a: seq<int>, b: seq<int>, n: nat)
    requires n <= |a| && n <= |b|
    ensures a[..n] == b[..n] <==> PrefixReuse.Agree(a, b, n)
  {
    if a[..n] == b[..n] {
      forall i | 0 <= i < n ensures a[i] == b[i] {
        assert a[..n][i] == b[..n][i];
      }
    }
  }

  /** The number of tokens of a block and all blocks before it. */
  function Span(c: Chain): nat {
    if c.Root? then 0 else Span(c.parent) + |c.tokens|
  }

  /** An identity tells where its block ends. */
  lemma {:induction false} SpanIsEnd(r: Request, block: nat, numerals: Numerals, end: nat)
    requires block > 0 && 0 < end <= |r.tokens|
    ensures Span(PrefixId(r, block, numerals, end)) == end
    decreases end
  {
    PrefixIdStep(r, block, numerals, end);
    if Start(end, block) > 0 { SpanIsEnd(r, block, numerals, Start(end, block)); }
  }

  // ---------------------------------------------------------------------------
  // What is stored
  // ---------------------------------------------------------------------------

  /** A request's blocks end after every full block and at the last token. */
  predicate Boundary(r: Request, block: nat, end: nat)
    requires block > 0
  {
    0 < end <= |r.tokens| && (end % block == 0 || end == |r.tokens|)
  }

  /** The request's blocks that end by `end`. */
  ghost function BlocksThrough(r: Request, block: nat, numerals: Numerals, end: nat): set<Chain>
    requires block > 0 && end <= |r.tokens|
  {
    set e: nat | 0 < e <= end && Boundary(r, block, e) :: PrefixId(r, block, numerals, e)
  }

  ghost function BlocksOf(r: Request, block: nat, numerals: Numerals): set<Chain>
    requires block > 0
  {
    BlocksThrough(r, block, numerals, |r.tokens|)
  }

  /** Every block that storing the requests one after the other indexes. */
  ghost function Stored(history: seq<Request>, block: nat, numerals: Numerals): set<Chain>
    requires block > 0
  {
    if history == [] then {}
    else
      Stored(history[..|history| - 1], block, numerals)
      + BlocksOf(history[|history| - 1], block, numerals)
  }

  lemma {:induction false} StoredMembers(
    history: seq<Request>, block: nat, numerals: Numerals, c: Chain) returns (h: Request)
    requires block > 0 && c in Stored(history, block, numerals)
    ensures h in history && c in BlocksOf(h, block, numerals)
  {
    h := history[|history| - 1];
    if c !in BlocksOf(h, block, numerals) {
      h := StoredMembers(history[..|history| - 1], block, numerals, c);
    }
  }

  lemma {:induction false} BlocksAreStored(
    history: seq<Request>, block: nat, numerals: Numerals, h: Request)
    requires block > 0 && h in history
    ensures BlocksOf(h, block, numerals) <= Stored(history, block, numerals)
  {
    var n := |history| - 1;
    if h != history[n] {
      var k :| 0 <= k < |history| && history[k] == h;
      assert history[..n][k] == h;
      BlocksAreStored(history[..n], block, numerals, h);
    }
  }

  /** `h` has a block that ends after `end` tokens, and agrees with `r` on all that is in it. */
  ghost predicate Shares(h: Request, r: Request, block: nat, numerals: Numerals, end: nat)
    requires block > 0
  {
    && Boundary(h, block, end)
    && PrefixReuse.Agree(h.tokens, r.tokens, end)
    && Resolve(h.extra, numerals, end) == Resolve(r.extra, numerals, end)
  }

  ghost predicate SharedByAny(
    history: seq<Request>, r: Request, block: nat, numerals: Numerals, end: nat)
    requires block > 0
  {
    exists h :: h in history && Shares(h, r, block, numerals, end)
  }

  /**
   A block of `r` is stored exactly when some stored request has a block ending there and the
   same tokens and discriminators through it.
   */
  lemma StoredIffShared(
    history: seq<Request>, r: Request, block: nat, numerals: Numerals, end: nat)
    requires block > 0 && 0 < end <= |r.tokens|
    ensures PrefixId(r, block, numerals, end) in Stored(history, block, numerals)
      <==> SharedByAny(history, r, block, numerals, end)
  {
    var c := PrefixId(r, block, numerals, end);
    if c in Stored(history, block, numerals) {
      var h := StoredMembers(history, block, numerals, c);
      var e: nat :| 0 < e <= |h.tokens| && Boundary(h, block, e) && PrefixId(h, block, numerals, e) == c;
      SpanIsEnd(r, block, numerals, end);
      SpanIsEnd(h, block, numerals, e);
      PrefixIdentity(h, r, block, numerals, end);
      assert Shares(h, r, block, numerals, end);
    }
    if SharedByAny(history, r, block, numerals, end) {
      var h :| h in history && Shares(h, r, block, numerals, end);
      PrefixIdentity(h, r, block, numerals, end);
      assert PrefixId(h, block, numerals, end) in BlocksOf(h, block, numerals);
      BlocksAreStored(history, block, numerals, h);
    }
  }

  /** A request that shares a block shares every full block before it. */
  lemma SharingReachesBack(
    h: Request, r: Request, block: nat, numerals: Numerals, k: nat, end: nat)
    requires block > 0 && 0 < k <= end && k % block == 0 && Shares(h, r, block, numerals, end)
    ensures Shares(h, r, block, numerals, k)
  {
    AgreementReachesBack(h.extra, r.extra, numerals, k, end);
  }

  /** Between two cuts there is no boundary, so storing goes from cut to cut. */
  lemma NextBlocks(r: Request, block: nat, numerals: Numerals, end: nat)
    requires block > 0 && 0 < end <= |r.tokens| && Boundary(r, block, end)
    ensures Start(end, block) < end
    ensures BlocksThrough(r, block, numerals, end)
      == BlocksThrough(r, block, numerals, Start(end, block)) + {PrefixId(r, block, numerals, end)}
  {
    PrefixIdStep(r, block, numerals, end);
    forall e: nat | Start(end, block) < e < end ensures !Boundary(r, block, e) {
      NoBoundaryBetween(r, block, end, e);
    }
  }

  lemma NoBoundaryBetween(r: Request, block: nat, end: nat, e: nat)
    requires block > 0 && end <= |r.tokens| && 0 < e < end && Start(end, block) < e
    ensures !Boundary(r, block, e)
  {
    var q := (end - 1) / block;
    assert end - 1 == q * block + (end - 1) % block;
    NextMultiple(q, block);
    BetweenMultiples(e, q, block);
  }

  // ---------------------------------------------------------------------------
  // Storing and looking up
  // ---------------------------------------------------------------------------

  /** The identity of the block from `start` to `end`, computed from its parent's. */
  method NextBlock(
    r: Request, block: nat, numerals: Numerals, start: nat, end: nat, parent: Chain)
    returns (id: Chain)
    requires block > 0 && 0 < end <= |r.tokens| && start == Start(end, block)
    requires parent == if start == 0 then Root else PrefixId(r, block, numerals, start)
    ensures id == PrefixId(r, block, numerals, end) && |id.tokens| == end - start
  {
    PrefixIdStep(r, block, numerals, end);
    var extra := CacheExtraKeysForTokenRange(r.extra, numerals, start, end);
    id := Block(parent, r.tokens[start..end], extra);
  }

  method Largest(sizes: set<nat>) returns (largest: nat)
    requires sizes != {}
    ensures largest in sizes && forall s :: s in sizes ==> s <= largest
  {
    largest :| largest in sizes;
    var todo := sizes - {largest};
    while todo != {}
      invariant todo <= sizes && largest in sizes
      invariant forall s :: s in sizes && s !in todo ==> s <= largest
      decreases |todo|
    {
      var size :| size in todo;
      todo := todo - {size};
      largest := if size > largest then size else largest;
    }
  }

  /** The length of the block at the end, if that is shorter than a full one. */
  ghost function ShortLength(n: nat, block: nat): set<nat>
    requires block > 0
  {
    if n % block == 0 then {} else {n % block}
  }

  lemma ShortLengthAt(start: nat, end: nat, block: nat)
    requires block > 0 && start % block == 0 && start < end <= start + block
    ensures ShortLength(end, block) == if end - start < block then {end - start} else {}
  {
    if end - start < block {
      TailIsRemainder(start, end - start, block);
    } else {
      RemainderUnique(end, block, start / block + 1, 0);
    }
  }

  class BlockCache {
    const block: nat
    const numerals: Numerals
    /** The hash index: identities of the blocks that can be looked up. */
    var index: set<Chain>
    /** The lengths of the shorter blocks that were ever stored. */
    var partialSizes: set<nat>
    /** Every request stored since the cache was created. */
    ghost var history: seq<Request>

    /** Only blocks of stored requests are indexed. */
    ghost predicate Valid()
      reads this
    {
      block > 0 && index <= Stored(history, block, numerals)
    }

    ghost predicate Informed()
      reads this
    {
      LengthsKnown(index, block, partialSizes)
    }

    constructor (block: nat, numerals: Numerals)
      requires block > 0
      ensures Valid() && Informed() && index == {} && history == []
      ensures this.block == block && this.numerals == numerals
    {
      this.block, this.numerals, this.index, this.partialSizes, this.history := block, numerals, {}, {}, [];
    }

    /** Indexes every full block of the request and the shorter one at its end. */
    method Store(r: Request)
      requires Valid()
      modifies this
      ensures Valid()
      ensures old(Informed()) ==> Informed()
      ensures history == old(history) + [r]
      ensures index == old(index) + BlocksOf(r, block, numerals)
      ensures partialSizes == old(partialSizes) + ShortLength(|r.tokens|, block)
    {
      var parent, start := Root, 0;
      while start < |r.tokens|
        invariant 0 <= start <= |r.tokens| && history == old(history)
        invariant start == |r.tokens| || start % block == 0
        invariant parent == if start == 0 then Root else PrefixId(r, block, numerals, start)
        invariant index == old(index) + BlocksThrough(r, block, numerals, start)
        invariant old(Informed()) ==> Informed()
        invariant partialSizes == old(partialSizes) + ShortLength(start, block)
      {
        start, parent := StoreNext(r, start, parent, old(index));
      }
      history := history + [r];
      assert history[..|history| - 1] == old(history);
    }

    /** Indexes the block that starts at `start`. */
    method StoreNext(r: Request, start: nat, parent: Chain, ghost before: set<Chain>)
      returns (end: nat, id: Chain)
      requires block > 0 && start < |r.tokens| && start % block == 0
      requires parent == if start == 0 then Root else PrefixId(r, block, numerals, start)
      requires index == before + BlocksThrough(r, block, numerals, start)
      modifies this`index, this`partialSizes
      ensures start < end <= |r.tokens| && (end == |r.tokens| || end % block == 0)
      ensures id == PrefixId(r, block, numerals, end)
      ensures index == before + BlocksThrough(r, block, numerals, end)
      ensures old(Informed()) ==> Informed()
      ensures partialSizes == old(partialSizes) + ShortLength(end, block)
    {
      end := if start + block < |r.tokens| then start + block else |r.tokens|;
      NextCut(start, end, block);
      id := NextBlock(r, block, numerals, start, end, parent);
      OneMoreStored(r, block, numerals, before, start, end);
      index := index + {id};
      ShortLengthAt(start, end, block);
      if end - start < block {
        partialSizes := partialSizes + {end - start};
      }
    }

    /** Any block may leave the index at any time. */
    method Evict(c: Chain)
      requires Valid()
      modifies this`index
      ensures Valid() && (old(Informed()) ==> Informed()) && index == old(index) - {c}
    {
      index := index - {c};
    }

    /** After a restart only the lengths that the disk reports are known. */
    method Restart(reported: set<nat>)
      requires Valid()
      modifies this`partialSizes
      ensures Valid() && partialSizes == reported
    {
      partialSizes := reported;
    }

    /** Tries the lengths from the largest down, after the block that ends at `start`. */
    method TryPartials(r: Request, start: nat, parent: Chain, sizes: set<nat>)
      returns (tail: nat)
      requires Valid() && start <= |r.tokens| && start % block == 0
      requires parent == if start == 0 then Root else PrefixId(r, block, numerals, start)
      requires forall s :: s in sizes ==> 0 < s < block && start + s <= |r.tokens|
      ensures tail == 0 || (tail in sizes && Indexed(r, index, block, numerals, start, tail))
      ensures forall s :: s in sizes && s > tail ==> !Indexed(r, index, block, numerals, start, s)
    {
      var todo := sizes;
      while todo != {}
        invariant todo <= sizes
        invariant forall s :: s in sizes && s !in todo ==>
          !Indexed(r, index, block, numerals, start, s)
        decreases |todo|
      {
        var size := Largest(todo);
        todo := todo - {size};
        NextCut(start, start + size, block);
        var id := NextBlock(r, block, numerals, start, start + size, parent);
        if id in index {
          return size;
        }
      }
      tail := 0;
    }

    /**
     The leading full blocks that are indexed, and after the first that is not, or after the
     last, the longest shorter block that is, as far as the lengths are known.
     */
    method GetComputedBlocks(r: Request) returns (start: nat, tail: nat, cachedTokens: nat)
      requires Valid()
      ensures StopsAt(r, index, block, numerals, partialSizes, start, tail)
      ensures Informed() ==> LookupStopsAt(r, index, block, numerals, start, tail)
      ensures cachedTokens == start + tail
    {
      var full := 0;
      cachedTokens := 0;
      var parent := Root;
      var n := |r.tokens| / block;
      while full < n
        invariant n == FullBlocks(r, block) && full <= n
        invariant cachedTokens == full * block <= |r.tokens| && cachedTokens % block == 0
        invariant parent == if cachedTokens == 0 then Root else PrefixId(r, block, numerals, cachedTokens)
        invariant FullBlocksIndexed(r, index, block, numerals, cachedTokens)
      {
        NextFullBlock(r, block, full);
        var end := cachedTokens + block;
        var id := NextBlock(r, block, numerals, cachedTokens, end, parent);
        if id !in index {
          start := cachedTokens;
          tail := TailAtMiss(r, start, parent);
          cachedTokens := start + tail;
          KnownLengthsSuffice(r, index, block, numerals, partialSizes, start, tail);
          return;
        }
        OneMoreFullBlock(r, index, block, numerals, cachedTokens);
        parent := id;
        full, cachedTokens := full + 1, end;
      }
      TailIsShort(|r.tokens|, block);
      start := cachedTokens;
      tail := TailAtEnd(r, start, parent);
      cachedTokens := start + tail;
      KnownLengthsSuffice(r, index, block, numerals, partialSizes, start, tail);
    }

    /** Behind the last full block before one that is not indexed. */
    method TailAtMiss(r: Request, start: nat, parent: Chain) returns (tail: nat)
      requires Valid() && start % block == 0 && start + block <= |r.tokens|
      requires parent == if start == 0 then Root else PrefixId(r, block, numerals, start)
      ensures IsTriedTail(r, index, block, numerals, partialSizes, start, tail)
    {
      var sizes := set s | s in partialSizes && 0 < s < block && start + s <= |r.tokens|;
      tail := TryPartials(r, start, parent, sizes);
    }

    /** Behind the last full block of the request, whose other tokens may be a block, too. */
    method TailAtEnd(r: Request, start: nat, parent: Chain) returns (tail: nat)
      requires Valid() && start % block == 0 && start <= |r.tokens| < start + block
      requires parent == if start == 0 then Root else PrefixId(r, block, numerals, start)
      ensures IsTriedTail(r, index, block, numerals, partialSizes, start, tail)
    {
      var remaining := |r.tokens| - start;
      var sizes := (set s | s in partialSizes && 0 < s <= remaining)
        + if remaining > 0 then {remaining} else {};
      tail := TryPartials(r, start, parent, sizes);
    }
  }

  /** The lengths of all indexed blocks shorter than a full one are among the sizes. */
  ghost predicate LengthsKnown(index: set<Chain>, block: nat, sizes: set<nat>) {
    forall c :: c in index && c.Block? && |c.tokens| < block ==> |c.tokens| in sizes
  }

  lemma OneMoreStored(
    r: Request, block: nat, numerals: Numerals, before: set<Chain>, start: nat, end: nat)
    requires block > 0 && start < end <= |r.tokens| && start == Start(end, block)
    requires end == |r.tokens| || end % block == 0
    ensures before + BlocksThrough(r, block, numerals, end)
      == before + BlocksThrough(r, block, numerals, start) + {PrefixId(r, block, numerals, end)}
  {
    NextBlocks(r, block, numerals, end);
  }

  lemma TailLength(r: Request, block: nat, numerals: Numerals, start: nat, size: nat)
    requires block > 0 && start % block == 0 && 0 < size <= block && start + size <= |r.tokens|
    ensures var id := PrefixId(r, block, numerals, start + size);
      id.Block? && |id.tokens| == size
  {
    NextCut(start, start + size, block);
    PrefixIdStep(r, block, numerals, start + size);
  }

  lemma NextCut(start: nat, end: nat, block: nat)
    requires block > 0 && start % block == 0 && start < end <= start + block
    ensures Start(end, block) == start
    ensures end == start + block ==> end % block == 0
  {
    var q := start / block;
    assert start == q * block;
    DivideUnique(end - 1, block, q, end - 1 - start);
    if end == start + block {
      NextMultiple(q, block);
      MultipleHasNoRemainder(q + 1, block);
    }
  }

  lemma NextFullBlock(r: Request, block: nat, full: nat)
    requires block > 0 && full < FullBlocks(r, block)
    ensures (full + 1) * block == full * block + block <= |r.tokens|
    ensures Start(full * block + block, block) == full * block
    ensures (full * block + block) % block == 0
  {
    NextMultiple(full, block);
    MultipleFits(full + 1, |r.tokens|, block);
    DivideUnique(full * block + block - 1, block, full, block - 1);
    MultipleHasNoRemainder(full + 1, block);
  }

  lemma TailIsShort(n: nat, block: nat)
    requires block > 0
    ensures 0 <= n - n / block * block < block
  {
    assert n == n / block * block + n % block;
  }

  /** All full blocks through `end` are indexed. */
  ghost predicate FullBlocksIndexed(
    r: Request, index: set<Chain>, block: nat, numerals: Numerals, end: nat)
    requires block > 0
  {
    forall e: nat :: 0 < e <= end && e <= |r.tokens| && e % block == 0 ==>
      PrefixId(r, block, numerals, e) in index
  }

  /** The block of the `size` tokens after `start` is indexed. */
  ghost predicate Indexed(
    r: Request, index: set<Chain>, block: nat, numerals: Numerals, start: nat, size: nat)
    requires block > 0
  {
    size > 0 && start + size <= |r.tokens| && PrefixId(r, block, numerals, start + size) in index
  }

  lemma OneMoreFullBlock(
    r: Request, index: set<Chain>, block: nat, numerals: Numerals, end: nat)
    requires block > 0 && end % block == 0 && FullBlocksIndexed(r, index, block, numerals, end)
    requires Indexed(r, index, block, numerals, end, block)
    ensures FullBlocksIndexed(r, index, block, numerals, end + block)
  {
    forall e: nat | 0 < e <= end + block && e <= |r.tokens| && e % block == 0
      ensures PrefixId(r, block, numerals, e) in index
    {
      if end < e < end + block { BetweenCuts(end, e, block); }
    }
  }

  /** Of the blocks behind `start` that of `tail` tokens is indexed, if any, and no longer one. */
  ghost predicate IsLongestTail(
    r: Request, index: set<Chain>, block: nat, numerals: Numerals, start: nat, tail: nat)
    requires block > 0
  {
    && start + tail <= |r.tokens| && tail < block
    && (tail > 0 ==> Indexed(r, index, block, numerals, start, tail))
    && (forall s: nat :: tail < s <= block ==> !Indexed(r, index, block, numerals, start, s))
  }

  /**
   The first full blocks of the request are indexed and the next is not; behind them a
   shorter block of `tail` tokens is indexed, if any, and no longer one.
   */
  ghost predicate LookupStopsAt(
    r: Request, index: set<Chain>, block: nat, numerals: Numerals, start: nat, tail: nat)
    requires block > 0
  {
    && start % block == 0 && FullBlocksIndexed(r, index, block, numerals, start)
    && IsLongestTail(r, index, block, numerals, start, tail)
  }

  /** The lengths tried behind `start`: the known ones, and what is left if it is short. */
  function Tried(sizes: set<nat>, n: nat, start: nat, block: nat): set<nat> {
    (set s | s in sizes && 0 < s < block && start + s <= n)
    + if start < n < start + block then {n - start} else {}
  }

  /** Of the blocks tried behind `start` that of `tail` tokens is indexed, if any, and no longer one. */
  ghost predicate IsTriedTail(
    r: Request, index: set<Chain>, block: nat, numerals: Numerals, sizes: set<nat>, start: nat, tail: nat)
    requires block > 0
  {
    && start + tail <= |r.tokens| && tail < block
    && (tail > 0 ==>
          tail in Tried(sizes, |r.tokens|, start, block) && Indexed(r, index, block, numerals, start, tail))
    && (forall s :: s in Tried(sizes, |r.tokens|, start, block) && s > tail ==>
          !Indexed(r, index, block, numerals, start, s))
  }

  /** The same of a lookup that knows only some lengths of shorter blocks. */
  ghost predicate StopsAt(
    r: Request, index: set<Chain>, block: nat, numerals: Numerals, sizes: set<nat>, start: nat, tail: nat)
    requires block > 0
  {
    && start % block == 0 && FullBlocksIndexed(r, index, block, numerals, start)
    && !Indexed(r, index, block, numerals, start, block)
    && IsTriedTail(r, index, block, numerals, sizes, start, tail)
  }

  /** Blocks whose length was not tried are not indexed, if all lengths are known. */
  lemma KnownLengthsSuffice(
    r: Request, index: set<Chain>, block: nat, numerals: Numerals, sizes: set<nat>, start: nat, tail: nat)
    requires block > 0 && StopsAt(r, index, block, numerals, sizes, start, tail)
    ensures LengthsKnown(index, block, sizes) ==> LookupStopsAt(r, index, block, numerals, start, tail)
  {
    if LengthsKnown(index, block, sizes) {
      forall s: nat | tail < s < block ensures !Indexed(r, index, block, numerals, start, s) {
        if start + s <= |r.tokens| { TailLength(r, block, numerals, start, s); }
      }
    }
  }

  // ---------------------------------------------------------------------------
  // What a lookup finds
  // ---------------------------------------------------------------------------

  /** `end` is the end of a block that the lookup returns. */
  ghost predicate Returned(block: nat, start: nat, tail: nat, end: nat)
    requires block > 0
  {
    0 < end && if end <= start then end % block == 0 else end == start + tail
  }

  /**
   Safety, whatever was evicted: every block a lookup returns was stored by a request with the
   same tokens through that block and the same discriminators in force there.
   */
  lemma ServedBlocksAreJustified(
    history: seq<Request>, index: set<Chain>, r: Request, block: nat, numerals: Numerals,
    start: nat, tail: nat, end: nat)
    requires block > 0 && index <= Stored(history, block, numerals)
    requires LookupStopsAt(r, index, block, numerals, start, tail)
    requires Returned(block, start, tail, end)
    ensures SharedByAny(history, r, block, numerals, end)
  {
    StoredIffShared(history, r, block, numerals, end);
  }

  /**
   With nothing evicted a lookup finds exactly the longest prefix of the request that ends with
   a block of a stored request, full or not.
   */
  lemma LookupFindsTheLongestStoredPrefix(
    history: seq<Request>, r: Request, block: nat, numerals: Numerals, start: nat, tail: nat)
    requires block > 0
    requires LookupStopsAt(r, Stored(history, block, numerals), block, numerals, start, tail)
    ensures var found := start + tail;
      && (found > 0 ==> SharedByAny(history, r, block, numerals, found))
      && (forall end: nat :: SharedByAny(history, r, block, numerals, end) ==> end <= found)
  {
    var found := start + tail;
    if found > 0 {
      ServedBlocksAreJustified(
        history, Stored(history, block, numerals), r, block, numerals, start, tail, found);
    }
    forall end: nat | SharedByAny(history, r, block, numerals, end) ensures end <= found {
      NothingLongerIsShared(history, r, block, numerals, start, tail, end);
    }
  }

  lemma NothingLongerIsShared(
    history: seq<Request>, r: Request, block: nat, numerals: Numerals, start: nat, tail: nat, end: nat)
    requires block > 0 && SharedByAny(history, r, block, numerals, end)
    requires LookupStopsAt(r, Stored(history, block, numerals), block, numerals, start, tail)
    ensures end <= start + tail
  {
    var h :| h in history && Shares(h, r, block, numerals, end);
    if end > start + tail {
      var size := if end < start + block then end - start else block;
      MultiplesApart(start, start, block);
      if end >= start + block { SharingReachesBack(h, r, block, numerals, start + block, end); }
      assert SharedByAny(history, r, block, numerals, start + size);
      NoLongerIsIndexed(r, Stored(history, block, numerals), block, numerals, start, tail, size);
      StoredIffShared(history, r, block, numerals, start + size);
      assert false;
    }
  }

  lemma NoLongerIsIndexed(
    r: Request, index: set<Chain>, block: nat, numerals: Numerals, start: nat, tail: nat, size: nat)
    requires block > 0 && LookupStopsAt(r, index, block, numerals, start, tail)
    requires tail < size <= block && start + size <= |r.tokens|
    ensures PrefixId(r, block, numerals, start + size) !in index
  {
    assert !Indexed(r, index, block, numerals, start, size);
  }

  /**
   Looking up fewer tokens never finds more, evictions or not: as long as the lengths of all
   shorter blocks are known, the second lookup without the last token cannot win.
   */
  lemma ShorterLookupNeverWins(
    r: Request, n: nat, index: set<Chain>, block: nat, numerals: Numerals,
    start: nat, tail: nat, start2: nat, tail2: nat)
    requires block > 0 && n <= |r.tokens|
    requires LookupStopsAt(r, index, block, numerals, start, tail)
    requires LookupStopsAt(Request(r.tokens[..n], r.extra), index, block, numerals, start2, tail2)
    ensures start2 + tail2 <= start + tail
  {
    MultiplesApart(start, start2, block);
    MultiplesApart(start2, start, block);
    if start2 > start {
      NoLongerIsIndexed(r, index, block, numerals, start, tail, block);
      ShorterIsIndexedToo(r, n, index, block, numerals, start2, tail2, start + block);
      assert false;
    } else if start2 == start && tail2 > tail {
      NoLongerIsIndexed(r, index, block, numerals, start, tail, tail2);
      ShorterIsIndexedToo(r, n, index, block, numerals, start, tail2, start + tail2);
      assert false;
    }
  }

  /** What the shorter lookup returns is indexed for the longer one. */
  lemma ShorterIsIndexedToo(
    r: Request, n: nat, index: set<Chain>, block: nat, numerals: Numerals,
    start: nat, tail: nat, end: nat)
    requires block > 0 && n <= |r.tokens|
    requires LookupStopsAt(Request(r.tokens[..n], r.extra), index, block, numerals, start, tail)
    requires 0 < end <= n
    requires (end <= start && end % block == 0) || (tail > 0 && end == start + tail)
    ensures PrefixId(r, block, numerals, end) in index
  {
    PrefixIdentity(Request(r.tokens[..n], r.extra), r, block, numerals, end);
  }

  /** A request without its last token. */
  function WithoutLast(r: Request): Request
    requires r.tokens != []
  {
    Request(r.tokens[..|r.tokens| - 1], r.extra)
  }

  /**
   All full blocks of the request without its last token are indexed, and so is the shorter
   block at its end, whose length is not known; with the last token it is not.
   */
  ghost predicate EndsInUnknownLength(
    r: Request, index: set<Chain>, block: nat, numerals: Numerals, sizes: set<nat>)
    requires block > 0 && r.tokens != []
  {
    var n := |r.tokens| - 1;
    && n % block > 0 && n % block !in sizes
    && FullBlocksIndexed(r, index, block, numerals, n)
    && PrefixId(r, block, numerals, n) in index && PrefixId(r, block, numerals, n + 1) !in index
  }

  /**
   The second lookup, without the last token, restores more than the first exactly if the
   request was stored without its last token and the length of its last block is not known, as
   after a restart; it then restores all but the last token.
   */
  lemma SecondLookupWinsIffLengthUnknown(
    r: Request, index: set<Chain>, block: nat, numerals: Numerals, sizes: set<nat>,
    start: nat, tail: nat, start2: nat, tail2: nat)
    requires block > 0 && r.tokens != []
    requires StopsAt(r, index, block, numerals, sizes, start, tail)
    requires StopsAt(WithoutLast(r), index, block, numerals, sizes, start2, tail2)
    ensures start2 + tail2 > start + tail
      <==> EndsInUnknownLength(r, index, block, numerals, sizes)
    ensures start2 + tail2 > start + tail ==> start2 + tail2 == |r.tokens| - 1
  {
    if EndsInUnknownLength(r, index, block, numerals, sizes) {
      UnknownLengthWins(r, index, block, numerals, sizes, start, tail, start2, tail2);
    }
    if start2 + tail2 > start + tail {
      WinnerHasUnknownLength(r, index, block, numerals, sizes, start, tail, start2, tail2);
    }
  }

  /** A request that was stored without its last token is one, if its tail's length is not known. */
  lemma RestartNeedsTheSecondLookup(r: Request, block: nat, numerals: Numerals, sizes: set<nat>)
    requires block > 0 && r.tokens != []
    requires (|r.tokens| - 1) % block > 0 && (|r.tokens| - 1) % block !in sizes
    ensures EndsInUnknownLength(r, Stored([WithoutLast(r)], block, numerals), block, numerals, sizes)
  {
    var n, s, history := |r.tokens| - 1, WithoutLast(r), [WithoutLast(r)];
    forall e: nat | 0 < e <= n && (e % block == 0 || e == n)
      ensures PrefixId(r, block, numerals, e) in Stored(history, block, numerals)
    {
      assert s in history && Shares(s, r, block, numerals, e);
      StoredIffShared(history, r, block, numerals, e);
    }
    StoredIffShared(history, r, block, numerals, n + 1);
  }

  /** The blocks that both requests have are indexed for both or for neither. */
  lemma SharedBlocks(
    r: Request, index: set<Chain>, block: nat, numerals: Numerals, start: nat, size: nat)
    requires block > 0 && r.tokens != [] && start + size < |r.tokens|
    ensures Indexed(WithoutLast(r), index, block, numerals, start, size)
      <==> Indexed(r, index, block, numerals, start, size)
    ensures FullBlocksIndexed(WithoutLast(r), index, block, numerals, start)
      <==> FullBlocksIndexed(r, index, block, numerals, start)
  {
    forall e: nat | 0 < e < |r.tokens|
      ensures PrefixId(WithoutLast(r), block, numerals, e) == PrefixId(r, block, numerals, e)
    {
      PrefixIdentity(WithoutLast(r), r, block, numerals, e);
    }
  }

  /** Of full blocks a lookup finds as many as are indexed in a row. */
  lemma FullBlocksAreUnique(
    r: Request, index: set<Chain>, block: nat, numerals: Numerals, sizes: set<nat>,
    start: nat, tail: nat, end: nat)
    requires block > 0 && StopsAt(r, index, block, numerals, sizes, start, tail)
    requires end <= |r.tokens| && end % block == 0 && FullBlocksIndexed(r, index, block, numerals, end)
    requires !Indexed(r, index, block, numerals, end, block)
    ensures start == end
  {
    MultiplesApart(start, end, block);
    MultiplesApart(end, start, block);
  }

  lemma UnknownLengthWins(
    r: Request, index: set<Chain>, block: nat, numerals: Numerals, sizes: set<nat>,
    start: nat, tail: nat, start2: nat, tail2: nat)
    requires block > 0 && r.tokens != []
    requires StopsAt(r, index, block, numerals, sizes, start, tail)
    requires StopsAt(WithoutLast(r), index, block, numerals, sizes, start2, tail2)
    requires EndsInUnknownLength(r, index, block, numerals, sizes)
    ensures start + tail < start2 + tail2 == |r.tokens| - 1
  {
    var n := |r.tokens| - 1;
    var _, end := Split(n, block);
    var t := n - end;
    SharedBlocks(r, index, block, numerals, end, t);
    FullBlocksAreUnique(WithoutLast(r), index, block, numerals, sizes, start2, tail2, end);
    FullBlocksAreUnique(r, index, block, numerals, sizes, start, tail, end);
    ShorterFindsTheTail(WithoutLast(r), index, block, numerals, sizes, end, tail2, t);
    LongerMissesTheTail(r, index, block, numerals, sizes, end, tail, t);
  }

  /** What is left is tried, whether or not its length is known. */
  lemma ShorterFindsTheTail(
    s: Request, index: set<Chain>, block: nat, numerals: Numerals, sizes: set<nat>,
    start: nat, tail: nat, t: nat)
    requires block > 0 && |s.tokens| == start + t && 0 < t < block
    requires IsTriedTail(s, index, block, numerals, sizes, start, tail)
    requires PrefixId(s, block, numerals, start + t) in index
    ensures tail == t
  {
    assert t in Tried(sizes, start + t, start, block) && Indexed(s, index, block, numerals, start, t);
  }

  /** Other lengths are tried only if they are known. */
  lemma LongerMissesTheTail(
    r: Request, index: set<Chain>, block: nat, numerals: Numerals, sizes: set<nat>,
    start: nat, tail: nat, t: nat)
    requires block > 0 && |r.tokens| == start + t + 1 && 0 < t < block && t !in sizes
    requires IsTriedTail(r, index, block, numerals, sizes, start, tail)
    requires PrefixId(r, block, numerals, start + t + 1) !in index
    ensures tail < t
  {
    if tail > 0 {
      assert tail in Tried(sizes, start + t + 1, start, block);
      assert Indexed(r, index, block, numerals, start, tail);
    }
  }

  lemma WinnerHasUnknownLength(
    r: Request, index: set<Chain>, block: nat, numerals: Numerals, sizes: set<nat>,
    start: nat, tail: nat, start2: nat, tail2: nat)
    requires block > 0 && r.tokens != []
    requires StopsAt(r, index, block, numerals, sizes, start, tail)
    requires StopsAt(WithoutLast(r), index, block, numerals, sizes, start2, tail2)
    requires start2 + tail2 > start + tail
    ensures EndsInUnknownLength(r, index, block, numerals, sizes)
    ensures start2 + tail2 == |r.tokens| - 1
  {
    SameStart(r, index, block, numerals, sizes, start, tail, start2, tail2);
    WinningTail(r, index, block, numerals, sizes, start, tail, tail2);
    TailIsRemainder(start, tail2, block);
    TailAddsNoFullBlock(r, index, block, numerals, start, tail2);
  }

  lemma TailAddsNoFullBlock(
    r: Request, index: set<Chain>, block: nat, numerals: Numerals, start: nat, tail: nat)
    requires block > 0 && start % block == 0 && tail < block
    requires FullBlocksIndexed(r, index, block, numerals, start)
    ensures FullBlocksIndexed(r, index, block, numerals, start + tail)
  {
    forall e: nat | 0 < e <= start + tail && e <= |r.tokens| && e % block == 0
      ensures PrefixId(r, block, numerals, e) in index
    {
      if e > start { BetweenCuts(start, e, block); }
    }
  }

  /** A tail is longer than what the first lookup found only if its length was not tried there. */
  lemma WinningTail(
    r: Request, index: set<Chain>, block: nat, numerals: Numerals, sizes: set<nat>,
    start: nat, tail: nat, tail2: nat)
    requires block > 0 && r.tokens != [] && tail2 > tail
    requires IsTriedTail(r, index, block, numerals, sizes, start, tail)
    requires !Indexed(r, index, block, numerals, start, block)
    requires IsTriedTail(WithoutLast(r), index, block, numerals, sizes, start, tail2)
    ensures 0 < tail2 < block && tail2 !in sizes && start + tail2 == |r.tokens| - 1
    ensures PrefixId(r, block, numerals, start + tail2) in index
    ensures PrefixId(r, block, numerals, start + tail2 + 1) !in index
  {
    var n := |r.tokens| - 1;
    SharedBlocks(r, index, block, numerals, start, tail2);
    assert tail2 in Tried(sizes, n, start, block) && tail2 !in Tried(sizes, n + 1, start, block);
    assert tail2 + 1 == block || tail2 + 1 in Tried(sizes, n + 1, start, block);
    assert !Indexed(r, index, block, numerals, start, tail2 + 1);
  }

  /** A lookup that wins does so behind the same full blocks. */
  lemma SameStart(
    r: Request, index: set<Chain>, block: nat, numerals: Numerals, sizes: set<nat>,
    start: nat, tail: nat, start2: nat, tail2: nat)
    requires block > 0 && r.tokens != []
    requires StopsAt(r, index, block, numerals, sizes, start, tail)
    requires StopsAt(WithoutLast(r), index, block, numerals, sizes, start2, tail2)
    requires start2 + tail2 > start + tail
    ensures start2 == start && tail2 > tail
  {
    MultiplesApart(start, start2, block);
    MultiplesApart(start2, start, block);
    if start2 > start {
      SharedBlocks(r, index, block, numerals, start, block);
      assert false;
    }
  }

  lemma TailIsRemainder(start: nat, tail: nat, block: nat)
    requires block > 0 && start % block == 0 && tail < block
    ensures (start + tail) % block == tail
  {
    RemainderUnique(start + tail, block, start / block, tail);
  }

  lemma NotBelow(a: nat, b: nat, d: nat)
    requires d > 0 && a <= b
    ensures a * d <= b * d
  {
    if a < b { MultiplesGrow(a, b, d); }
  }

  // ---------------------------------------------------------------------------
  // The oracle predicts the engine
  // ---------------------------------------------------------------------------

  /** Without discriminators, requests share as many full blocks as the oracle counts. */
  lemma {:induction false} OracleCountsSharedBlocks(
    a: seq<int>, b: seq<int>, block: nat, numerals: Numerals, k: nat)
    requires block > 0
    ensures k <= PrefixReuse.AgreeingBlocks(a, b, block) <==>
      && k * block <= |a| && k * block <= |b|
      && (k * block > 0 ==>
            PrefixId(Request(a, VNull), block, numerals, k * block)
            == PrefixId(Request(b, VNull), block, numerals, k * block))
  {
    PrefixReuse.LcpInBlocks(a, b, block);
    PrefixReuse.LcpDecidesAgreement(a, b, k * block);
    MultipleFits(k, PrefixReuse.Lcp(a, b), block);
    if 0 < k * block <= |a| && k * block <= |b| {
      PrefixIdentity(Request(a, VNull), Request(b, VNull), block, numerals, k * block);
    }
  }

  /** What the engine stores of a render: all but the last token, which is fed again. */
  function Kept(render: PrefixReuse.Render): Request {
    Request(if render == [] then [] else render[..|render| - 1], VNull)
  }

  function AllKept(history: seq<PrefixReuse.Render>): seq<Request> {
    seq(|history|, i requires 0 <= i < |history| => Kept(history[i]))
  }

  /** The extent of a candidate is shared with what is kept of it. */
  lemma CandidateExtentIsShared(
    previous: PrefixReuse.Render, current: PrefixReuse.Render, block: nat, numerals: Numerals)
    requires block > 0
    ensures var extent := PrefixReuse.Classify(previous, current, block).safeExpected;
      extent > 0 ==> Shares(Kept(previous), Request(current, VNull), block, numerals, extent)
  {
    var m, lcp := PrefixReuse.Classify(previous, current, block), PrefixReuse.Lcp(previous, current);
    PrefixReuse.ClassifyIsSound(previous, current, block);
    WholeBlocks(lcp, block);
    if m.safeExpected > 0 {
      KeptAgrees(previous, current, m.safeExpected);
    }
  }

  lemma WholeBlocks(n: nat, block: nat)
    requires block > 0
    ensures n / block * block <= n && n / block * block % block == 0
  {
    MultipleHasNoRemainder(n / block, block);
    FloorToMultiple(n, block);
  }

  lemma KeptAgrees(previous: PrefixReuse.Render, current: PrefixReuse.Render, n: nat)
    requires PrefixReuse.Agree(previous, current, n) && n < |previous|
    ensures PrefixReuse.Agree(Kept(previous).tokens, current, n)
  {
  }

  /** Nothing longer is. */
  lemma NothingBeyondTheExtentIsShared(
    previous: PrefixReuse.Render, current: PrefixReuse.Render, block: nat, numerals: Numerals, end: nat)
    requires block > 0 && Shares(Kept(previous), Request(current, VNull), block, numerals, end)
    ensures end <= PrefixReuse.Classify(previous, current, block).safeExpected
  {
    var m, lcp := PrefixReuse.Classify(previous, current, block), PrefixReuse.Lcp(previous, current);
    assert forall i :: 0 <= i < end ==> Kept(previous).tokens[i] == previous[i];
    PrefixReuse.LcpDecidesAgreement(previous, current, end);
    if m.kind != PrefixReuse.NMinusOneExact {
      var q := end / block;
      assert end == q * block + end % block;
      MultipleFits(q, lcp, block);
      NotBelow(q, lcp / block, block);
    }
  }

  lemma NoCandidateExceedsTheLookup(
    history: seq<PrefixReuse.Render>, current: PrefixReuse.Render, block: nat,
    numerals: Numerals, start: nat, tail: nat, i: nat)
    requires block > 0 && i < |history|
    requires LookupStopsAt(
      Request(current, VNull), Stored(AllKept(history), block, numerals), block, numerals, start, tail)
    ensures PrefixReuse.Classify(history[i], current, block).safeExpected <= start + tail
  {
    var r, extent := Request(current, VNull), PrefixReuse.Classify(history[i], current, block).safeExpected;
    CandidateExtentIsShared(history[i], current, block, numerals);
    assert AllKept(history)[i] == Kept(history[i]);
    if extent > 0 {
      assert SharedByAny(AllKept(history), r, block, numerals, extent);
      NothingLongerIsShared(AllKept(history), r, block, numerals, start, tail, extent);
    }
  }

  lemma SomeCandidateReachesTheLookup(
    history: seq<PrefixReuse.Render>, current: PrefixReuse.Render, block: nat,
    numerals: Numerals, start: nat, tail: nat) returns (i: nat)
    requires block > 0 && start + tail > 0
    requires LookupStopsAt(
      Request(current, VNull), Stored(AllKept(history), block, numerals), block, numerals, start, tail)
    ensures i < |history|
    ensures PrefixReuse.Classify(history[i], current, block).safeExpected >= start + tail
  {
    var r, found := Request(current, VNull), start + tail;
    LookupFindsTheLongestStoredPrefix(AllKept(history), r, block, numerals, start, tail);
    var h :| h in AllKept(history) && Shares(h, r, block, numerals, found);
    i :| 0 <= i < |history| && AllKept(history)[i] == h;
    NothingBeyondTheExtentIsShared(history[i], current, block, numerals, found);
  }

  /**
   For every history the oracle's best extent is exactly what the engine's lookup restores of
   the current render, once the earlier renders are stored without their last tokens.
   */
  lemma OraclePredictsTheLookup(
    history: seq<PrefixReuse.Render>, current: PrefixReuse.Render, block: nat,
    numerals: Numerals, start: nat, tail: nat)
    requires block > 0
    requires LookupStopsAt(
      Request(current, VNull), Stored(AllKept(history), block, numerals), block, numerals, start, tail)
    ensures PrefixReuse.Best(history, current, block).safeExpected == start + tail
  {
    forall i | 0 <= i < |history|
      ensures PrefixReuse.Classify(history[i], current, block).safeExpected <= start + tail
    {
      NoCandidateExceedsTheLookup(history, current, block, numerals, start, tail, i);
    }
    if start + tail > 0 {
      var i := SomeCandidateReachesTheLookup(history, current, block, numerals, start, tail);
    }
    PrefixReuse.ReachedBoundIsBest(history, current, block, start + tail);
  }

  /** The engine, given the renders one after the other, restores what the oracle predicts. */
  method RestoredTokens(
    history: seq<PrefixReuse.Render>, current: PrefixReuse.Render, block: nat, numerals: Numerals)
    returns (cachedTokens: nat)
    requires block > 0
    ensures cachedTokens == PrefixReuse.Best(history, current, block).safeExpected
  {
    var cache := new BlockCache(block, numerals);
    for i := 0 to |history|
      invariant fresh(cache) && cache.Valid() && cache.Informed() && cache.block == block && cache.numerals == numerals
      invariant cache.index == Stored(AllKept(history[..i]), block, numerals)
    {
      assert AllKept(history[..i + 1])[..i] == AllKept(history[..i]);
      cache.Store(Kept(history[i]));
    }
    assert history[..|history|] == history;
    var start, tail, found := cache.GetComputedBlocks(Request(current, VNull));
    OraclePredictsTheLookup(history, current, block, numerals, start, tail);
    cachedTokens := found;
  }
}
