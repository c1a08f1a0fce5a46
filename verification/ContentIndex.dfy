/**
 The paged cache's map from content hashes to blocks, and what it and the block pool keep
 together: a block found under a hash holds what was stored under that hash.
 Hashes, blocks and payloads are of any type.
 */
module ContentIndex {
  import opened Common
  import opened Sequences
  import opened BlockPool

  // ---------------------------------------------------------------------------
  // The map
  // ---------------------------------------------------------------------------

  /** The blocks of a hash in the order they were first inserted; no hash has none. */
  type Index<!Id(==), B> = map<Id, seq<B>>

  function At<Id(==), B>(index: Index<Id, B>, id: Id): seq<B> {
    if id in index then index[id] else []
  }

  /** A block that is already there keeps its place. */
  function Inserted<Id(==), B(==)>(index: Index<Id, B>, id: Id, b: B): Index<Id, B> {
    index[id := if b in At(index, id) then At(index, id) else At(index, id) + [b]]
  }

  function Popped<Id(==), B(==)>(index: Index<Id, B>, id: Id, b: B): Index<Id, B> {
    if id !in index then index
    else if Without(index[id], [b]) == [] then index - {id}
    else index[id := Without(index[id], [b])]
  }

  ghost predicate WellFormed<Id, B>(index: Index<Id, B>) {
    forall id :: id in index ==> index[id] != [] && Distinct(index[id])
  }

  lemma InsertedAt<Id, B>(index: Index<Id, B>, id: Id, b: B)
    requires WellFormed(index)
    ensures WellFormed(Inserted(index, id, b))
    ensures forall other, x ::
      x in At(Inserted(index, id, b), other) <==> x in At(index, other) || (other == id && x == b)
  {
    var all := At(index, id) + [b];
    assert all[|all| - 1] == b && forall x :: x in all <==> x in At(index, id) || x == b;
  }

  lemma PoppedAt<Id, B>(index: Index<Id, B>, id: Id, b: B)
    requires WellFormed(index)
    ensures WellFormed(Popped(index, id, b))
    ensures forall other, x ::
      x in At(Popped(index, id, b), other) <==> x in At(index, other) && !(other == id && x == b)
  {
    if id in index {
      var rest := Without(index[id], [b]);
      WithoutIsDistinct(index[id], [b]);
      forall x ensures x in rest <==> x in index[id] && x != b {
        WithoutMember(index[id], [b], x);
        OnlyMember(b);
      }
    }
  }

  class BlockHashToBlockMap<Id(==), B(==)> {
    var cache: map<Id, seq<B>>

    ghost predicate Valid()
      reads this
    {
      WellFormed(cache)
    }

    constructor ()
      ensures Valid() && cache == map[]
    {
      cache := map[];
    }

    /** Of several blocks under one hash, the one that was first inserted last. */
    method GetBlock(id: Id) returns (r: Option<B>)
      requires Valid()
      ensures r.None? <==> forall b :: b !in At(cache, id)
      ensures r.Some? ==> At(cache, id) != [] && r.value == At(cache, id)[|At(cache, id)| - 1]
    {
      if id !in cache {
        return None;
      }
      var blocks := cache[id];
      assert blocks[|blocks| - 1] in At(cache, id);
      r := Some(blocks[|blocks| - 1]);
    }

    method Insert(id: Id, b: B)
      requires Valid()
      modifies this
      ensures Valid() && cache == Inserted(old(cache), id, b)
    {
      InsertedAt(cache, id, b);
      if id !in cache {
        assert [] + [b] == [b];
        cache := cache[id := [b]];
      } else if b !in cache[id] {
        cache := cache[id := cache[id] + [b]];
      } else {
        cache := cache[id := cache[id]];
      }
    }

    /** Takes one block out of a hash; the others stay. */
    method Pop(id: Id, b: B) returns (found: bool)
      requires Valid()
      modifies this
      ensures Valid() && cache == Popped(old(cache), id, b)
      ensures found <==> b in At(old(cache), id)
    {
      PoppedAt(cache, id, b);
      if id !in cache {
        return false;
      }
      found := b in cache[id];
      var rest := Without(cache[id], [b]);
      cache := if rest == [] then cache - {id} else cache[id := rest];
    }

    /** Takes every block out of a hash. */
    method PopAll(id: Id) returns (blocks: seq<B>)
      requires Valid()
      modifies this
      ensures Valid() && cache == old(cache) - {id} && blocks == At(old(cache), id)
    {
      blocks := if id in cache then cache[id] else [];
      cache := cache - {id};
    }
  }

  /**
   In the map alone, what was inserted last is found exactly when it was new or last already: a
   block that is inserted again keeps its place. See `PublishedIsFound` for the map in its cache.
   */
  lemma LastInsertedIsFoundIffNewOrLast<Id, B>(index: Index<Id, B>, id: Id, b: B)
    ensures var blocks, after := At(index, id), At(Inserted(index, id, b), id);
      after[|after| - 1] == b <==> b !in blocks || blocks[|blocks| - 1] == b
  {
    var blocks := At(index, id);
    assert b in blocks ==> blocks != [];
  }

  // ---------------------------------------------------------------------------
  // The map and the pool together
  // ---------------------------------------------------------------------------

  /**
   The pool, the map, and what each block carries: its hash and its payload, if any. `written`
   are all payloads that were ever stored, with their hashes; what is on disk is among them.
   */
  datatype Cache<!B(==), !Id(==), P(==)> = Cache(
    pool: Pool<B>, index: Index<Id, B>, hashes: map<B, Id>, payloads: map<B, P>,
    written: set<(Id, P)>)

  /**
   A block is found only under its own hash, and a payload that it carries beside a hash was
   stored under that hash. A block may have a hash and no payload, which is then on disk only,
   or a payload and no hash.
   */
  ghost predicate Coherent<B, Id, P>(c: Cache<B, Id, P>) {
    && Sound(c.pool) && WellFormed(c.index)
    && (forall id :: id in c.index ==> forall b :: b in c.index[id] ==> b in c.hashes && c.hashes[b] == id)
    && (forall b :: b in c.hashes ==>
          && b in c.pool.refs && b != c.pool.placeholder
          && (b in c.payloads ==> (c.hashes[b], c.payloads[b]) in c.written))
  }

  /** A block loses its hash, its entry in the map and its payload. */
  function Recycle<B(==), Id(==), P(==)>(c: Cache<B, Id, P>, b: B): Cache<B, Id, P> {
    c.(index := if b in c.hashes then Popped(c.index, c.hashes[b], b) else c.index,
       hashes := c.hashes - {b}, payloads := c.payloads - {b})
  }

  function RecycleAll<B(==), Id(==), P(==)>(c: Cache<B, Id, P>, bs: seq<B>): Cache<B, Id, P> {
    if bs == [] then c else Recycle(RecycleAll(c, bs[..|bs| - 1]), bs[|bs| - 1])
  }

  /** What happens to a cache. */
  datatype Change<!B, !Id, P> =
    /** Requests take and give up references. */
    | Share(blocks: seq<B>)
    | Drop(blocks: seq<B>)
    /** Blocks are handed out, or visited in order of last use and evicted. */
    | Hand(pending: set<B>, count: nat)
    | Evict(pending: set<B>, count: nat)
    /** A free block is evicted out of order, to save memory or to reset the cache. */
    | Reclaim(block: B)
    /** A block in use gets a hash, with a payload or without. */
    | Publish(block: B, id: Id, payload: Option<P>)
    /** A block in use gets a copy of another's payload. */
    | Copy(block: B, from: B)
    /** A hash is no longer found. */
    | Retire(id: Id)
    /** A payload is dropped, or read from disk again, whoever uses the block. */
    | Unload(block: B)
    | Load(block: B, content: P)
    /** A block whose payload did not reach the disk loses everything, whoever uses it. */
    | Invalidate(block: B)

  /**
   What a step may name. A block gets a hash only while it is in use and carries nothing; only
   what was stored under its hash is read from disk.
   */
  ghost predicate Allowed<B, Id, P>(c: Cache<B, Id, P>, change: Change<B, Id, P>) {
    match change
    case Share(bs) => Known(c.pool, bs)
    case Drop(bs) => Known(c.pool, bs)
    case Reclaim(b) => b in c.pool.refs && c.pool.refs[b] == 0
    case Publish(b, _, _) =>
      && b in c.pool.refs && c.pool.refs[b] > 0 && b != c.pool.placeholder
      && b !in c.hashes && b !in c.payloads
    case Copy(b, from) => b !in c.hashes && from in c.payloads
    case Load(b, p) => b in c.hashes && (c.hashes[b], p) in c.written
    case _ => true
  }

  /** The blocks of a sequence that have a hash. */
  function Hashed<B(==), Id>(bs: seq<B>, hashes: map<B, Id>): seq<B> {
    if bs == [] then []
    else Hashed(bs[..|bs| - 1], hashes) + if bs[|bs| - 1] in hashes then [bs[|bs| - 1]] else []
  }

  lemma {:induction false} HashedMembers<B, Id>(bs: seq<B>, hashes: map<B, Id>, b: B)
    ensures b in Hashed(bs, hashes) <==> b in bs && b in hashes
  {
    if bs != [] {
      HashedMembers(bs[..|bs| - 1], hashes, b);
      assert bs == bs[..|bs| - 1] + [bs[|bs| - 1]];
    }
  }

  /** The blocks whose contents a step discards. A block to hand out need not have a hash. */
  function Discarded<B(==), Id, P(==)>(c: Cache<B, Id, P>, change: Change<B, Id, P>): seq<B> {
    match change
    case Hand(pending, n) => if n > |c.pool.queue| then [] else Take(c.pool.queue, pending, n).0
    case Evict(pending, n) =>
      var visited := c.pool.queue[..if n < |c.pool.queue| then n else |c.pool.queue|];
      Hashed(Select(visited, pending, false), c.hashes)
    case Reclaim(b) => [b]
    case Invalidate(b) => [b]
    case _ => []
  }

  function Changed<B(==), Id(==), P(==)>(c: Cache<B, Id, P>, change: Change<B, Id, P>): Cache<B, Id, P>
    requires Allowed(c, change)
  {
    var cleaned := RecycleAll(c, Discarded(c, change));
    match change
    case Share(bs) => c.(pool := TouchAll(c.pool, bs))
    case Drop(bs) => c.(pool := ReleaseAll(c.pool, bs))
    case Hand(pending, n) => cleaned.(pool := AllocateFrom(c.pool, pending, n))
    case Evict(_, n) => cleaned.(pool := Step(c.pool, Rotate(n)))
    case Reclaim(_) => cleaned
    case Publish(b, id, p) =>
      c.(index := Inserted(c.index, id, b), hashes := c.hashes[b := id],
         payloads := if p.Some? then c.payloads[b := p.value] else c.payloads,
         written := if p.Some? then c.written + {(id, p.value)} else c.written)
    case Copy(b, from) => c.(payloads := c.payloads[b := c.payloads[from]])
    case Retire(id) => c.(index := c.index - {id})
    case Unload(b) => c.(payloads := c.payloads - {b})
    case Load(b, p) => c.(payloads := c.payloads[b := p])
    case Invalidate(_) => cleaned
  }

  /** A lookup protects the block that it returns. */
  function Lookup<B(==), Id(==), P(==)>(c: Cache<B, Id, P>, id: Id): (Option<B>, Cache<B, Id, P>)
    requires forall b :: b in At(c.index, id) ==> b in c.pool.refs
  {
    var blocks := At(c.index, id);
    if blocks == [] then (None, c)
    else
      var b := blocks[|blocks| - 1];
      assert b in blocks;
      (Some(b), c.(pool := TouchOne(c.pool, b)))
  }

  // ---------------------------------------------------------------------------
  // Every step keeps them coherent
  // ---------------------------------------------------------------------------

  lemma RecycleKeepsCoherent<B, Id, P>(c: Cache<B, Id, P>, b: B)
    requires Coherent(c)
    ensures Coherent(Recycle(c, b))
  {
    var after := Recycle(c, b);
    if b in c.hashes { PoppedAt(c.index, c.hashes[b], b); }
    forall id, x | id in after.index && x in after.index[id]
      ensures x in after.hashes && after.hashes[x] == id
    {
      assert x in At(after.index, id);
      assert x in At(c.index, id) && id in c.index && x in c.index[id];
    }
  }

  lemma {:induction false} RecycledAll<B, Id, P>(c: Cache<B, Id, P>, bs: seq<B>)
    requires Coherent(c)
    ensures var r := RecycleAll(c, bs);
      && Coherent(r) && r.pool == c.pool && r.written == c.written
      && (forall b :: b in r.hashes ==> b in c.hashes && b !in bs && r.hashes[b] == c.hashes[b])
      && (forall b :: b in c.hashes && b !in bs ==> b in r.hashes)
      && (forall b :: b in r.payloads ==> b in c.payloads && b !in bs && r.payloads[b] == c.payloads[b])
      && (forall b :: b in c.payloads && b !in bs ==> b in r.payloads)
  {
    if bs != [] {
      var front, last := bs[..|bs| - 1], bs[|bs| - 1];
      RecycledAll(c, front);
      RecycleKeepsCoherent(RecycleAll(c, front), last);
      assert bs == front + [last];
    }
  }

  /** A new pool with the same blocks keeps everything else coherent. */
  lemma PoolChangeKeepsCoherent<B, Id, P>(c: Cache<B, Id, P>, pool: Pool<B>)
    requires Coherent(c) && Sound(pool)
    requires pool.refs.Keys == c.pool.refs.Keys && pool.placeholder == c.pool.placeholder
    ensures Coherent(c.(pool := pool))
  {
  }

  lemma PublishKeepsCoherent<B, Id, P>(c: Cache<B, Id, P>, b: B, id: Id, p: Option<P>)
    requires Coherent(c) && Allowed(c, Publish(b, id, p))
    ensures Coherent(Changed(c, Publish(b, id, p)))
  {
    InsertedAt(c.index, id, b);
  }

  lemma ContentChangeKeepsCoherent<B, Id, P>(c: Cache<B, Id, P>, change: Change<B, Id, P>)
    requires Coherent(c) && Allowed(c, change)
    requires change.Copy? || change.Retire? || change.Unload? || change.Load?
    ensures Coherent(Changed(c, change))
  {
  }

  lemma ChangeKeepsCoherent<B, Id, P>(c: Cache<B, Id, P>, change: Change<B, Id, P>)
    requires Coherent(c) && Allowed(c, change)
    ensures Coherent(Changed(c, change))
  {
    var cleaned := RecycleAll(c, Discarded(c, change));
    RecycledAll(c, Discarded(c, change));
    match change
    case Share(bs) =>
      StepKeepsSound(c.pool, Touch(bs));
      PoolChangeKeepsCoherent(c, TouchAll(c.pool, bs));
    case Drop(bs) =>
      StepKeepsSound(c.pool, Release(bs));
      PoolChangeKeepsCoherent(c, ReleaseAll(c.pool, bs));
    case Hand(pending, n) =>
      StepKeepsSound(c.pool, Allocate(pending, n));
      PoolChangeKeepsCoherent(cleaned, AllocateFrom(c.pool, pending, n));
    case Evict(pending, n) =>
      StepKeepsSound(c.pool, Rotate(n));
      PoolChangeKeepsCoherent(cleaned, Step(c.pool, Rotate(n)));
    case Reclaim(_) =>
    case Publish(b, id, p) => PublishKeepsCoherent(c, b, id, p);
    case Invalidate(_) =>
    case _ => ContentChangeKeepsCoherent(c, change);
  }

  /**
   A lookup only returns a block that was published under exactly this hash; a payload that it
   carries was stored under this hash; and the block is in use afterwards, as a step that
   shares it leaves it.
   */
  lemma LookupServesWhatWasStored<B, Id, P>(c: Cache<B, Id, P>, id: Id)
    requires Coherent(c)
    ensures forall b :: b in At(c.index, id) ==> b in c.pool.refs
    ensures var (found, after) := Lookup(c, id);
      && Coherent(after)
      && (found.None? <==> id !in c.index)
      && (found.Some? ==>
            var b := found.value;
            && b in after.hashes && after.hashes[b] == id
            && (b in after.payloads ==> (id, after.payloads[b]) in after.written)
            && b in after.pool.refs && after.pool.refs[b] > 0 && b !in after.pool.queue
            && Allowed(c, Share([b])) && after == Changed(c, Share([b])))
  {
    var blocks := At(c.index, id);
    if blocks != [] {
      var b := blocks[|blocks| - 1];
      assert b in blocks;
      TouchKeepsSound(c.pool, b);
      PoolChangeKeepsCoherent(c, TouchOne(c.pool, b));
      assert [b][..0] == [] && TouchAll(c.pool, [b][..0]) == c.pool;
    }
  }

  /** Whatever else is registered under its hash, a block that was just published is found. */
  lemma PublishedIsFound<B, Id, P>(c: Cache<B, Id, P>, b: B, id: Id, p: Option<P>)
    requires Coherent(c) && Allowed(c, Publish(b, id, p))
    ensures var after := Changed(c, Publish(b, id, p));
      && (forall x :: x in At(after.index, id) ==> x in after.pool.refs)
      && Lookup(after, id).0 == Some(b)
  {
    PublishKeepsCoherent(c, b, id, p);
    LookupServesWhatWasStored(Changed(c, Publish(b, id, p)), id);
    assert b !in At(c.index, id);
  }

  /**
   The blocks handed out carry nothing, whatever they carried before: no hash, no entry in the
   map, no payload. So they may be published, also without a payload of their own.
   */
  lemma HandedBlocksAreClean<B, Id, P>(c: Cache<B, Id, P>, pending: set<B>, n: nat, b: B)
    requires Coherent(c) && n <= |c.pool.queue|
    requires var taken := Take(c.pool.queue, pending, n).0; |taken| == n && b in taken
    ensures var after := Changed(c, Hand(pending, n));
      && (forall id :: b !in At(after.index, id))
      && forall id :: Allowed(after, Publish(b, id, None))
  {
    RecycledAll(c, Discarded(c, Hand(pending, n)));
    ChangeKeepsCoherent(c, Hand(pending, n));
    AllocationIsFresh(c.pool, pending, n);
  }

  /** Except where a block is invalidated, only free blocks are discarded. */
  lemma DiscardedAreFree<B, Id, P>(c: Cache<B, Id, P>, change: Change<B, Id, P>, b: B)
    requires Coherent(c) && Allowed(c, change) && b in Discarded(c, change)
    ensures change == Invalidate(b) || (b in c.pool.refs && c.pool.refs[b] == 0)
  {
    match change
    case Hand(pending, n) => TakingSplits(c.pool.queue, pending, n);
    case Evict(pending, n) =>
      var visited := c.pool.queue[..if n < |c.pool.queue| then n else |c.pool.queue|];
      HashedMembers(Select(visited, pending, false), c.hashes, b);
      SelectMembers(visited, pending, false, b);
      assert b in c.pool.queue;
    case Reclaim(x) => OnlyMember(x);
    case Invalidate(x) => OnlyMember(x);
    case _ =>
  }

  /**
   What a step does to a hashed block in use. It keeps its hash exactly if it is not
   invalidated, and it stays in use then unless a release names it. What it carries is as
   before exactly if it is neither invalidated nor loses a payload that it had nor is given
   another one.
   */
  lemma UsedBlocksKeepTheirContents<B, Id, P>(c: Cache<B, Id, P>, change: Change<B, Id, P>, b: B)
    requires Coherent(c) && Allowed(c, change)
    requires b in c.hashes && c.pool.refs[b] > 0
    ensures var after := Changed(c, change);
      && b in after.pool.refs && ((change.Drop? && b in change.blocks) || after.pool.refs[b] > 0)
      && ((b in after.hashes && after.hashes[b] == c.hashes[b]) <==> change != Invalidate(b))
      && (Carried(after, b) == Carried(c, b) <==> !Rewrites(c, change, b))
      && c.written <= after.written
  {
    UsedBlocksStay(c, change, b);
    if b in Discarded(c, change) { DiscardedAreFree(c, change, b); }
    RecycledAll(c, Discarded(c, change));
    match change
    case Invalidate(x) => OnlyMember(x);
    case Reclaim(x) => OnlyMember(x);
    case _ =>
  }

  /** A block in use stays in use, unless a release names it. */
  lemma UsedBlocksStay<B, Id, P>(c: Cache<B, Id, P>, change: Change<B, Id, P>, b: B)
    requires Coherent(c) && Allowed(c, change) && b in c.pool.refs && c.pool.refs[b] > 0
    ensures var after := Changed(c, change);
      b in after.pool.refs && ((change.Drop? && b in change.blocks) || after.pool.refs[b] > 0)
  {
    RecycledAll(c, Discarded(c, change));
    match change
    case Share(bs) => TouchesAddUp(c.pool, bs, b);
    case Drop(bs) => ReleasesAddUp(c.pool, bs, b);
    case Hand(pending, n) => AllocationIsFresh(c.pool, pending, n);
    case _ =>
  }

  function Carried<B(==), Id, P(==)>(c: Cache<B, Id, P>, b: B): Option<P> {
    if b in c.payloads then Some(c.payloads[b]) else None
  }

  /** The steps that change the payload of a hashed block in use. */
  ghost predicate Rewrites<B, Id, P>(c: Cache<B, Id, P>, change: Change<B, Id, P>, b: B) {
    match change
    case Unload(x) => x == b && b in c.payloads
    case Load(x, p) => x == b && Carried(c, b) != Some(p)
    case Invalidate(x) => x == b && b in c.payloads
    case _ => false
  }

  // ---------------------------------------------------------------------------
  // What every step does to every block
  // ---------------------------------------------------------------------------

  /** The places before `end` whose block may be recycled. */
  ghost function RecyclableBefore<B>(queue: seq<B>, pending: set<B>, end: nat): (places: set<nat>)
    requires end <= |queue|
    ensures |places| <= end
  {
    var places := set i: nat | 0 <= i < end && queue[i] !in pending;
    SetOfPlaces(places, end);
    places
  }

  lemma {:induction false} SetOfPlaces(places: set<nat>, end: nat)
    requires forall i :: i in places ==> i < end
    ensures |places| <= end
  {
    if end > 0 {
      SetOfPlaces(places - {end - 1}, end - 1);
    } else {
      assert places == {};
    }
  }

  /** The block at this place is one of the first `n` that may be recycled. */
  ghost predicate AmongFirst<B>(queue: seq<B>, pending: set<B>, n: nat, b: B, i: nat) {
    i < |queue| && queue[i] == b && b !in pending && |RecyclableBefore(queue, pending, i)| < n
  }

  /** The steps with which a block loses its hash and its payload. */
  ghost predicate Loses<B, Id, P>(c: Cache<B, Id, P>, change: Change<B, Id, P>, b: B) {
    match change
    case Hand(pending, n) =>
      n <= |c.pool.queue| && exists i: nat :: AmongFirst(c.pool.queue, pending, n, b, i)
    case Evict(pending, n) =>
      b in c.hashes && b !in pending && exists i :: 0 <= i < n && i < |c.pool.queue| && c.pool.queue[i] == b
    case Reclaim(x) => x == b
    case Invalidate(x) => x == b
    case _ => false
  }

  lemma {:induction false} SelectCounts<B>(queue: seq<B>, pending: set<B>, end: nat)
    requires end <= |queue|
    ensures |Select(queue[..end], pending, false)| == |RecyclableBefore(queue, pending, end)|
  {
    var now := RecyclableBefore(queue, pending, end);
    if end == 0 {
      assert now == {};
    } else {
      var before := RecyclableBefore(queue, pending, end - 1);
      SelectCounts(queue, pending, end - 1);
      assert queue[..end][..end - 1] == queue[..end - 1];
      assert now == before + if queue[end - 1] in pending then {} else {end - 1};
    }
  }

  lemma CountsGrow<B>(queue: seq<B>, pending: set<B>, i: nat, j: nat)
    requires i <= j <= |queue|
    ensures |RecyclableBefore(queue, pending, i)| <= |RecyclableBefore(queue, pending, j)|
    ensures i < j && queue[i] !in pending ==>
      |RecyclableBefore(queue, pending, i)| < |RecyclableBefore(queue, pending, j)|
  {
    var a, b := RecyclableBefore(queue, pending, i), RecyclableBefore(queue, pending, j);
    SubsetSize(a, b);
    if i < j && queue[i] !in pending { SubsetSize(a + {i}, b); }
  }

  lemma {:induction false} SubsetSize<T>(a: set<T>, b: set<T>)
    requires a <= b
    ensures |a| <= |b|
  {
    if a != {} {
      var x :| x in a;
      SubsetSize(a - {x}, b - {x});
    }
  }

  lemma SelectedAt<B>(queue: seq<B>, pending: set<B>, end: nat, b: B)
    requires end <= |queue|
    ensures b in Select(queue[..end], pending, false) <==>
      b !in pending && exists i :: 0 <= i < end && queue[i] == b
  {
    SelectMembers(queue[..end], pending, false, b);
    assert b in queue[..end] <==> exists i :: 0 <= i < end && queue[i] == b;
  }

  /** A place before the cut of a take is one of the first that may be recycled, and conversely. */
  lemma CutIsByCount<B>(queue: seq<B>, pending: set<B>, n: nat, cut: nat, i: nat)
    requires i < |queue| && queue[i] !in pending
    requires var (taken, rest) := Take(queue, pending, n);
      && CutAt(queue, pending, cut, taken, rest)
      && (|taken| < n ==> FirstRecyclable(rest, pending) == |rest|)
    ensures i < cut <==> |RecyclableBefore(queue, pending, i)| < n
  {
    var (taken, rest) := Take(queue, pending, n);
    SelectCounts(queue, pending, cut);
    if i < cut {
      CountsGrow(queue, pending, i, cut);
    } else {
      CountsGrow(queue, pending, cut, i);
      assert queue[cut..][i - cut] == queue[i];
      SelectMembers(queue[cut..], pending, false, queue[i]);
      if |taken| < n { NothingIsLeft(queue, pending, cut, taken, rest); }
    }
  }

  lemma TakenAreTheFirst<B>(queue: seq<B>, pending: set<B>, n: nat, b: B)
    ensures b in Take(queue, pending, n).0 <==> exists i: nat :: AmongFirst(queue, pending, n, b, i)
  {
    var cut := TakeCuts(queue, pending, n);
    SelectedAt(queue, pending, cut, b);
    forall i: nat | i < |queue| && queue[i] == b && b !in pending
      ensures i < cut <==> AmongFirst(queue, pending, n, b, i)
    {
      CutIsByCount(queue, pending, n, cut, i);
    }
  }

  lemma DiscardedExactly<B, Id, P>(c: Cache<B, Id, P>, change: Change<B, Id, P>, b: B)
    ensures b in Discarded(c, change) <==> Loses(c, change, b)
  {
    match change
    case Hand(pending, n) => TakenAreTheFirst(c.pool.queue, pending, n, b);
    case Evict(pending, n) =>
      var end := if n < |c.pool.queue| then n else |c.pool.queue|;
      HashedMembers(Select(c.pool.queue[..end], pending, false), c.hashes, b);
      SelectedAt(c.pool.queue, pending, end, b);
    case Reclaim(x) => OnlyMember(x);
    case Invalidate(x) => OnlyMember(x);
    case _ =>
  }

  /** What a block carries after a step. */
  ghost function PayloadLeft<B, Id, P>(c: Cache<B, Id, P>, change: Change<B, Id, P>, b: B): Option<P> {
    if Loses(c, change, b) then None
    else
      match change
      case Publish(x, _, p) => if x == b && p.Some? then p else Carried(c, b)
      case Copy(x, from) => if x == b then Carried(c, from) else Carried(c, b)
      case Unload(x) => if x == b then None else Carried(c, b)
      case Load(x, p) => if x == b then Some(p) else Carried(c, b)
      case _ => Carried(c, b)
  }

  ghost function HashOf<B, Id, P>(c: Cache<B, Id, P>, b: B): Option<Id> {
    if b in c.hashes then Some(c.hashes[b]) else None
  }

  /** Its hash after a step. */
  ghost function HashLeft<B, Id, P>(c: Cache<B, Id, P>, change: Change<B, Id, P>, b: B): Option<Id> {
    if Loses(c, change, b) then None
    else if change.Publish? && change.block == b then Some(change.id)
    else HashOf(c, b)
  }

  /** One block was registered under the hash before another. */
  ghost predicate Before<B>(s: seq<B>, x: B, y: B) {
    exists i, j :: 0 <= i < j < |s| && s[i] == x && s[j] == y
  }

  /** The step registers this block under this hash. */
  ghost predicate Registers<B, Id, P>(change: Change<B, Id, P>, b: B, id: Id) {
    change.Publish? && change.block == b && change.id == id
  }

  /** The step takes this block out from under this hash. */
  ghost predicate Unregisters<B, Id, P>(c: Cache<B, Id, P>, change: Change<B, Id, P>, b: B, id: Id) {
    Loses(c, change, b) || change == Retire(id)
  }

  lemma {:induction false} WithoutOrder<B>(s: seq<B>, gone: seq<B>, x: B, y: B)
    ensures Before(Without(s, gone), x, y) <==> Before(s, x, y) && x !in gone && y !in gone
  {
    if s != [] {
      var front, last := s[..|s| - 1], s[|s| - 1];
      WithoutOrder(front, gone, x, y);
      assert s == front + [last];
      OneMoreInOrder(front, last, x, y);
      OneMoreInOrder(Without(front, gone), last, x, y);
      WithoutMember(front, gone, x);
      NothingAdded(Without(front, gone));
    }
  }

  lemma OneMoreInOrder<B>(s: seq<B>, last: B, x: B, y: B)
    ensures Before(s + [last], x, y) <==> Before(s, x, y) || (x in s && y == last)
  {
    var all := s + [last];
    if Before(s, x, y) {
      var i, j :| 0 <= i < j < |s| && s[i] == x && s[j] == y;
      assert all[i] == x && all[j] == y;
    }
    if x in s && y == last {
      var i :| 0 <= i < |s| && s[i] == x;
      assert all[i] == x && all[|s|] == y;
    }
  }

  lemma OrderedAreMembers<B>(s: seq<B>, x: B, y: B)
    requires Before(s, x, y)
    ensures x in s && y in s && (Distinct(s) ==> x != y)
  {
  }

  lemma RecycleOrder<B, Id, P>(c: Cache<B, Id, P>, b: B, x: B, y: B, id: Id)
    requires Coherent(c)
    ensures Before(At(Recycle(c, b).index, id), x, y) <==> Before(At(c.index, id), x, y) && x != b && y != b
    ensures x in At(Recycle(c, b).index, id) <==> x in At(c.index, id) && x != b
  {
    if b in c.hashes {
      PoppedAt(c.index, c.hashes[b], b);
      OnlyMember(b);
      if id == c.hashes[b] && id in c.index { WithoutOrder(c.index[id], [b], x, y); }
    }
    if Before(At(c.index, id), x, y) { OrderedAreMembers(At(c.index, id), x, y); }
  }

  lemma {:induction false} RecycledOrder<B, Id, P>(c: Cache<B, Id, P>, bs: seq<B>, x: B, y: B, id: Id)
    requires Coherent(c)
    ensures Before(At(RecycleAll(c, bs).index, id), x, y) <==>
      Before(At(c.index, id), x, y) && x !in bs && y !in bs
    ensures x in At(RecycleAll(c, bs).index, id) <==> x in At(c.index, id) && x !in bs
  {
    if bs != [] {
      var front, last := bs[..|bs| - 1], bs[|bs| - 1];
      RecycledOrder(c, front, x, y, id);
      RecycledAll(c, front);
      RecycleOrder(RecycleAll(c, front), last, x, y, id);
      assert bs == front + [last];
    }
  }

  lemma RegisteredLeft<B, Id, P>(c: Cache<B, Id, P>, change: Change<B, Id, P>, b: B, id: Id)
    requires Coherent(c) && Allowed(c, change)
    ensures b in At(Changed(c, change).index, id) <==>
      Registers(change, b, id) || (b in At(c.index, id) && !Unregisters(c, change, b, id))
  {
    DiscardedExactly(c, change, b);
    RecycledOrder(c, Discarded(c, change), b, b, id);
    if change.Publish? { InsertedAt(c.index, change.id, change.block); }
  }

  lemma OrderLeft<B, Id, P>(c: Cache<B, Id, P>, change: Change<B, Id, P>, x: B, y: B, id: Id)
    requires Coherent(c) && Allowed(c, change)
    ensures var after := Changed(c, change);
      Before(At(after.index, id), x, y) <==>
        && x in At(after.index, id) && y in At(after.index, id) && x != y
        && (Before(At(c.index, id), x, y) || Registers(change, y, id))
  {
    var after := Changed(c, change);
    RecycledOrder(c, Discarded(c, change), x, y, id);
    RecycledOrder(c, Discarded(c, change), y, x, id);
    ChangeKeepsCoherent(c, change);
    if Before(At(after.index, id), x, y) { OrderedAreMembers(At(after.index, id), x, y); }
    if change.Publish? && change.id == id {
      PublishedOrder(c, change.block, id, x, y);
    }
  }

  lemma PublishedOrder<B, Id, P>(c: Cache<B, Id, P>, b: B, id: Id, x: B, y: B)
    requires Coherent(c) && b !in c.hashes
    ensures var all := At(Inserted(c.index, id, b), id);
      && (Before(all, x, y) <==> Before(At(c.index, id), x, y) || (x in At(c.index, id) && y == b))
      && (forall z :: z in all <==> z in At(c.index, id) || z == b)
  {
    InsertedAt(c.index, id, b);
    assert b !in At(c.index, id);
    OneMoreInOrder(At(c.index, id), b, x, y);
  }

  /**
   What a step does to any block and any hash: what the block carries, its hash, whether it is
   found under the hash, and that those found keep their order while a new one comes last.
   */
  lemma WhatAStepLeaves<B, Id, P>(c: Cache<B, Id, P>, change: Change<B, Id, P>, b: B, id: Id)
    requires Coherent(c) && Allowed(c, change)
    ensures var after := Changed(c, change);
      && Carried(after, b) == PayloadLeft(c, change, b)
      && HashOf(after, b) == HashLeft(c, change, b)
      && (b in At(after.index, id) <==>
            Registers(change, b, id) || (b in At(c.index, id) && !Unregisters(c, change, b, id)))
      && (forall x :: Before(At(after.index, id), x, b) <==>
            && x in At(after.index, id) && b in At(after.index, id) && x != b
            && (Before(At(c.index, id), x, b) || Registers(change, b, id)))
  {
    DiscardedExactly(c, change, b);
    RecycledAll(c, Discarded(c, change));
    forall x
      ensures Before(At(Changed(c, change).index, id), x, b) <==>
        && x in At(Changed(c, change).index, id) && b in At(Changed(c, change).index, id) && x != b
        && (Before(At(c.index, id), x, b) || Registers(change, b, id))
    {
      OrderLeft(c, change, x, b, id);
    }
    RegisteredLeft(c, change, b, id);
  }

  /** References to a block after a step; the placeholder's are never released. */
  ghost function RefsLeft<B, Id, P>(c: Cache<B, Id, P>, change: Change<B, Id, P>, b: B): nat
    requires b in c.pool.refs
  {
    var before, queue := c.pool.refs[b], c.pool.queue;
    match change
    case Share(bs) => before + multiset(bs)[b]
    case Drop(bs) =>
      if b == c.pool.placeholder then before
      else if before < multiset(bs)[b] then 0 else before - multiset(bs)[b]
    case Hand(pending, n) =>
      if Loses(c, change, b) && n <= |RecyclableBefore(queue, pending, |queue|)| then 1 else before
    case _ => before
  }

  /** What a step does to the references; all or none of the blocks asked for are handed out. */
  lemma WhatAStepCounts<B, Id, P>(c: Cache<B, Id, P>, change: Change<B, Id, P>, b: B)
    requires Coherent(c) && Allowed(c, change) && b in c.pool.refs
    ensures var after := Changed(c, change);
      && after.pool.refs.Keys == c.pool.refs.Keys && after.pool.placeholder == c.pool.placeholder
      && after.pool.refs[b] == RefsLeft(c, change, b)
      && after.written == c.written
           + if change.Publish? && change.payload.Some? then {(change.id, change.payload.value)} else {}
  {
    RecycledAll(c, Discarded(c, change));
    match change
    case Share(bs) => TouchesAddUp(c.pool, bs, b);
    case Drop(bs) => ReleasesAddUp(c.pool, bs, b);
    case Hand(pending, n) => HandingCounts(c.pool, pending, n, b);
    case _ =>
  }

  lemma HandingCounts<B>(p: Pool<B>, pending: set<B>, n: nat, b: B)
    requires Sound(p) && b in p.refs
    ensures var q := AllocateFrom(p, pending, n);
      && q.refs.Keys == p.refs.Keys && q.placeholder == p.placeholder
      && q.refs[b] ==
           if && n <= |RecyclableBefore(p.queue, pending, |p.queue|)|
              && exists i: nat :: AmongFirst(p.queue, pending, n, b, i)
           then 1 else p.refs[b]
  {
    AllocationIsFresh(p, pending, n);
    TakenAreTheFirst(p.queue, pending, n, b);
    TakesTheLeastRecentlyUsed(p.queue, pending, n);
    SelectCounts(p.queue, pending, |p.queue|);
    assert p.queue[..|p.queue|] == p.queue;
  }

  // ---------------------------------------------------------------------------
  // Runs
  // ---------------------------------------------------------------------------

  /** The caches that steps lead to, one after the other; a lookup is a step that shares. */
  ghost predicate IsRun<B, Id, P>(states: seq<Cache<B, Id, P>>, changes: seq<Change<B, Id, P>>) {
    && |states| == |changes| + 1
    && forall i :: 0 <= i < |changes| ==>
         Allowed(states[i], changes[i]) && states[i + 1] == Changed(states[i], changes[i])
  }

  lemma {:induction false} RunsStayCoherent<B, Id, P>(
    states: seq<Cache<B, Id, P>>, changes: seq<Change<B, Id, P>>)
    requires IsRun(states, changes) && Coherent(states[0])
    ensures Coherent(states[|changes|])
    decreases |changes|
  {
    if changes != [] {
      var n := |changes| - 1;
      RunsStayCoherent(states[..n + 1], changes[..n]);
      assert states[..n + 1][n] == states[n] && states[..n + 1][0] == states[0];
      ChangeKeepsCoherent(states[n], changes[n]);
    }
  }

  lemma CoherentAt<B, Id, P>(
    states: seq<Cache<B, Id, P>>, changes: seq<Change<B, Id, P>>, k: nat)
    requires IsRun(states, changes) && Coherent(states[0]) && k <= |changes|
    ensures Coherent(states[k])
  {
    assert states[..k + 1][k] == states[k] && states[..k + 1][0] == states[0];
    RunsStayCoherent(states[..k + 1], changes[..k]);
  }

  /** No step releases the block or invalidates it. */
  ghost predicate HeldThroughout<B, Id, P>(changes: seq<Change<B, Id, P>>, b: B) {
    forall i :: 0 <= i < |changes| ==>
      (changes[i].Drop? ==> b !in changes[i].blocks) && changes[i] != Invalidate(b)
  }

  /** No step drops the block's payload or reads one. */
  ghost predicate Untouched<B, Id, P>(changes: seq<Change<B, Id, P>>, b: B) {
    forall i :: 0 <= i < |changes| ==>
      changes[i] != Unload(b) && !(changes[i].Load? && changes[i].block == b)
  }

  /**
   From a lookup on, as long as nobody releases or invalidates the block, it keeps its hash and
   its references; whatever payload it carries later was stored under the hash that was asked
   for; and it carries the same unless it is dropped or read from disk in between.
   */
  lemma {:induction false} ServedBlocksStayJustified<B, Id, P>(
    states: seq<Cache<B, Id, P>>, changes: seq<Change<B, Id, P>>, b: B)
    requires IsRun(states, changes) && Coherent(states[0]) && HeldThroughout(changes, b)
    requires b in states[0].hashes && states[0].pool.refs[b] > 0
    ensures var first, last := states[0], states[|changes|];
      && b in last.pool.refs && last.pool.refs[b] > 0
      && b in last.hashes && last.hashes[b] == first.hashes[b]
      && (b in last.payloads ==> (first.hashes[b], last.payloads[b]) in last.written)
      && (Untouched(changes, b) ==> Carried(last, b) == Carried(first, b))
    decreases |changes|
  {
    RunsStayCoherent(states, changes);
    if changes != [] {
      var n := |changes| - 1;
      ServedBlocksStayJustified(states[..n + 1], changes[..n], b);
      CoherentAt(states, changes, n);
      assert states[..n + 1][n] == states[n] && states[..n + 1][0] == states[0];
      UsedBlocksKeepTheirContents(states[n], changes[n], b);
    }
  }

  /** No step takes the block's payload or replaces it. */
  ghost predicate KeptThroughout<B, Id, P>(
    states: seq<Cache<B, Id, P>>, changes: seq<Change<B, Id, P>>, b: B)
    requires |states| == |changes| + 1
  {
    forall i :: 0 <= i < |changes| ==>
      && !Loses(states[i], changes[i], b) && changes[i] != Unload(b)
      && !(changes[i].Load? && changes[i].block == b)
  }

  /** Something is published under the hash. */
  ghost predicate PublishesUnder<B, Id, P>(changes: seq<Change<B, Id, P>>, id: Id) {
    exists i :: 0 <= i < |changes| && changes[i].Publish? && changes[i].id == id
  }

  /** A lookup of the hash finds this block. */
  ghost predicate IsFound<B, Id, P>(c: Cache<B, Id, P>, id: Id, b: B) {
    (forall x :: x in At(c.index, id) ==> x in c.pool.refs) && Lookup(c, id).0 == Some(b)
  }

  lemma StillPublished<B, Id, P>(changes: seq<Change<B, Id, P>>, id: Id)
    requires changes != []
    ensures var n := |changes| - 1;
      && (Retire(id) in changes <==> Retire(id) in changes[..n] || changes[n] == Retire(id))
      && (PublishesUnder(changes, id) <==>
            PublishesUnder(changes[..n], id) || (changes[n].Publish? && changes[n].id == id))
  {
    var n := |changes| - 1;
    assert changes == changes[..n] + [changes[n]];
    if PublishesUnder(changes[..n], id) {
      var i :| 0 <= i < n && changes[..n][i].Publish? && changes[..n][i].id == id;
      assert changes[i].Publish? && changes[i].id == id;
    }
    if PublishesUnder(changes, id) {
      var i :| 0 <= i < |changes| && changes[i].Publish? && changes[i].id == id;
      assert i < n ==> changes[..n][i] == changes[i];
    }
  }

  lemma NothingComesAfterTheLast<B>(s: seq<B>, b: B)
    requires s != [] && Distinct(s)
    ensures !Before(s, s[|s| - 1], b)
  {
  }

  /** The block that is found first is the one registered last. */
  lemma FoundIsLast<B, Id, P>(c: Cache<B, Id, P>, id: Id, b: B)
    requires Coherent(c)
    ensures IsFound(c, id, b) <==>
      b in At(c.index, id) && forall x :: x in At(c.index, id) && x != b ==> Before(At(c.index, id), x, b)
  {
    var s := At(c.index, id);
    LookupServesWhatWasStored(c, id);
    if s != [] {
      var last := s[|s| - 1];
      if b == last {
        forall x | x in s && x != b ensures Before(s, x, b) {
          var i :| 0 <= i < |s| && s[i] == x;
          assert s[|s| - 1] == b;
        }
      } else {
        NothingComesAfterTheLast(s, b);
      }
    }
  }

  lemma StaysFound<B, Id, P>(c: Cache<B, Id, P>, change: Change<B, Id, P>, b: B, id: Id)
    requires Coherent(c) && Allowed(c, change) && IsFound(c, id, b)
    requires !Unregisters(c, change, b, id) && !(change.Publish? && change.id == id)
    ensures IsFound(Changed(c, change), id, b)
  {
    var after := Changed(c, change);
    ChangeKeepsCoherent(c, change);
    FoundIsLast(c, id, b);
    FoundIsLast(after, id, b);
    WhatAStepLeaves(c, change, b, id);
    forall x | x in At(after.index, id) && x != b ensures Before(At(after.index, id), x, b) {
      RegisteredLeft(c, change, x, id);
    }
  }

  /**
   A block that carries a payload under a hash carries the same one under the same hash after
   any run in which it is not handed out, evicted, reclaimed, invalidated, unloaded or loaded. It
   is found under the hash as long as that is not retired, and found first as long as nothing
   else is published under it.
   */
  lemma {:induction false} PayloadsStay<B, Id, P>(
    states: seq<Cache<B, Id, P>>, changes: seq<Change<B, Id, P>>, b: B, id: Id)
    requires IsRun(states, changes) && Coherent(states[0]) && KeptThroughout(states, changes, b)
    requires b in states[0].hashes && states[0].hashes[b] == id
    ensures var first, last := states[0], states[|changes|];
      && Carried(last, b) == Carried(first, b)
      && b in last.hashes && last.hashes[b] == id
      && (b in At(first.index, id) && Retire(id) !in changes ==> b in At(last.index, id))
      && (IsFound(first, id, b) && Retire(id) !in changes && !PublishesUnder(changes, id)
          ==> IsFound(last, id, b))
    decreases |changes|
  {
    if changes != [] {
      var n := |changes| - 1;
      var c, change := states[n], changes[n];
      PayloadsStay(states[..n + 1], changes[..n], b, id);
      CoherentAt(states, changes, n);
      assert states[..n + 1][n] == states[n] && states[..n + 1][0] == states[0];
      WhatAStepLeaves(c, change, b, id);
      StillPublished(changes, id);
      if IsFound(c, id, b) && change != Retire(id) && !(change.Publish? && change.id == id) {
        StaysFound(c, change, b, id);
      }
    }
  }

  lemma RunGoesOn<B, Id, P>(states: seq<Cache<B, Id, P>>, changes: seq<Change<B, Id, P>>, b: B)
    requires changes != [] && IsRun(states, changes) && KeptThroughout(states, changes, b)
    ensures IsRun(states[1..], changes[1..]) && KeptThroughout(states[1..], changes[1..], b)
    ensures states[1..][0] == states[1] && states[1..][|changes| - 1] == states[|changes|]
    ensures forall change :: change in changes[1..] ==> change in changes
  {
    assert forall change :: change in changes[1..] ==> change in changes;
  }

  /** Until then, what was published is what a lookup finds. */
  lemma PublishedPayloadIsServed<B, Id, P>(
    states: seq<Cache<B, Id, P>>, changes: seq<Change<B, Id, P>>, b: B, id: Id, p: P)
    requires changes != [] && changes[0] == Publish(b, id, Some(p))
    requires IsRun(states, changes) && Coherent(states[0]) && KeptThroughout(states, changes, b)
    requires Retire(id) !in changes && !PublishesUnder(changes[1..], id)
    ensures var last := states[|changes|];
      && (forall x :: x in At(last.index, id) ==> x in last.pool.refs)
      && Lookup(last, id).0 == Some(b) && b in last.payloads && last.payloads[b] == p
  {
    WhatAStepLeaves(states[0], changes[0], b, id);
    PublishedIsFound(states[0], b, id, Some(p));
    CoherentAt(states, changes, 1);
    RunGoesOn(states, changes, b);
    PayloadsStay(states[1..], changes[1..], b, id);
  }

  /** A payload may be lost although its block is in use: block 1 carries 9 under the hash 7. */
  lemma UsedBlocksMayLoseTheirPayload()
    ensures var c := Cache(
        Pool([], map[0 := 1, 1 := 1], 0), map[7 := [1]], map[1 := 7], map[1 := 9], {(7, 9)});
      && Coherent(c) && c.pool.refs[1] > 0 && 1 in c.payloads
      && Allowed(c, Unload(1)) && 1 !in Changed(c, Unload(1)).payloads
  {
  }
}
