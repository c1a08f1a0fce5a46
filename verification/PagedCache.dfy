/**
 The paged cache as its requests see it: the pool manager, the map from hashes to blocks, and
 what the blocks carry. Its methods are proved against the changes of `ContentIndex`.
 */
module PagedCache {
  import opened Common
  import opened Sequences
  import opened FreeQueue
  import opened BlockPool
  import opened PagedCacheManager
  import opened ContentIndex

  /** What the blocks carry, and the map that finds them. */
  class Contents<B(==), Id(==), P(==)> {
    const hashToBlock: BlockHashToBlockMap<Id, B>
    var hashes: map<B, Id>
    var payloads: map<B, P>
    /** Every payload that was ever stored, with its hash. */
    ghost var written: set<(Id, P)>

    /** The whole cache, if this is its pool. */
    ghost function With(pool: Pool<B>): Cache<B, Id, P>
      reads this, hashToBlock
    {
      Cache(pool, hashToBlock.cache, hashes, payloads, written)
    }

    constructor ()
      ensures fresh(hashToBlock) && hashToBlock.cache == map[]
      ensures hashes == map[] && payloads == map[] && written == {}
    {
      hashToBlock := new BlockHashToBlockMap();
      hashes, payloads, written := map[], map[], {};
    }

    /** Takes everything from a block. */
    method Clean(b: B, ghost pool: Pool<B>)
      requires Coherent(With(pool))
      modifies this`hashes, this`payloads, hashToBlock
      ensures With(pool) == Recycle(old(With(pool)), b) && Coherent(With(pool))
    {
      RecycleKeepsCoherent(With(pool), b);
      if b in hashes {
        var _ := hashToBlock.Pop(hashes[b], b);
      }
      hashes := hashes - {b};
      payloads := payloads - {b};
    }

    method CleanAll(bs: seq<B>, ghost pool: Pool<B>)
      requires Coherent(With(pool))
      modifies this`hashes, this`payloads, hashToBlock
      ensures With(pool) == RecycleAll(old(With(pool)), bs) && Coherent(With(pool))
    {
      ghost var before := With(pool);
      for i := 0 to |bs|
        invariant With(pool) == RecycleAll(before, bs[..i]) && Coherent(With(pool))
      {
        assert bs[..i + 1][..i] == bs[..i];
        Clean(bs[i], pool);
      }
      assert bs[..|bs|] == bs;
    }

    /** Gives a block its hash, and its payload if it has one in memory. */
    method Publish(b: B, id: Id, payload: Option<P>, ghost pool: Pool<B>)
      requires Coherent(With(pool)) && Allowed(With(pool), Change.Publish(b, id, payload))
      modifies this, hashToBlock
      ensures With(pool) == Changed(old(With(pool)), Change.Publish(b, id, payload))
      ensures Coherent(With(pool))
    {
      ChangeKeepsCoherent(With(pool), Change.Publish(b, id, payload));
      hashes := hashes[b := id];
      if payload.Some? {
        payloads := payloads[b := payload.value];
        written := written + {(id, payload.value)};
      }
      hashToBlock.Insert(id, b);
    }

    /** A hash is no longer found. */
    method Retire(id: Id, ghost pool: Pool<B>) returns (blocks: seq<B>)
      requires Coherent(With(pool))
      modifies hashToBlock
      ensures With(pool) == Changed(old(With(pool)), Change.Retire(id)) && Coherent(With(pool))
      ensures blocks == At(old(hashToBlock.cache), id)
    {
      ChangeKeepsCoherent(With(pool), Change.Retire(id));
      blocks := hashToBlock.PopAll(id);
    }

    /** Drops a payload from memory. */
    method Unload(b: B, ghost pool: Pool<B>)
      requires Coherent(With(pool))
      modifies this`payloads
      ensures With(pool) == Changed(old(With(pool)), Change.Unload(b)) && Coherent(With(pool))
    {
      ChangeKeepsCoherent(With(pool), Change.Unload(b));
      payloads := payloads - {b};
    }

    /** Reads a payload from disk. */
    method Load(b: B, content: P, ghost pool: Pool<B>)
      requires Coherent(With(pool)) && Allowed(With(pool), Change.Load(b, content))
      modifies this`payloads
      ensures With(pool) == Changed(old(With(pool)), Change.Load(b, content)) && Coherent(With(pool))
    {
      ChangeKeepsCoherent(With(pool), Change.Load(b, content));
      payloads := payloads[b := content];
    }

    /** Drops several payloads from memory. */
    method UnloadAll(bs: set<B>, ghost pool: Pool<B>)
      requires Coherent(With(pool))
      modifies this`payloads
      ensures Coherent(With(pool))
      ensures With(pool) == old(With(pool)).(payloads := old(payloads) - bs)
    {
      payloads := payloads - bs;
    }

    /** The block found under a hash. */
    method Find(id: Id, ghost pool: Pool<B>) returns (found: Option<B>)
      requires Coherent(With(pool))
      ensures forall b :: b in At(hashToBlock.cache, id) ==> b in pool.refs
      ensures found == Lookup(With(pool), id).0
      ensures found.Some? ==> found.value in pool.refs
    {
      LookupServesWhatWasStored(With(pool), id);
      NonEmptyHasMember(At(hashToBlock.cache, id));
      found := hashToBlock.GetBlock(id);
    }
  }

  /** Cleaning blocks and changing the pool do not meet. */
  lemma {:induction false} RecyclingLeavesThePool<B, Id, P>(c: Cache<B, Id, P>, pool: Pool<B>, bs: seq<B>)
    ensures RecycleAll(c.(pool := pool), bs) == RecycleAll(c, bs).(pool := pool)
  {
    if bs != [] { RecyclingLeavesThePool(c, pool, bs[..|bs| - 1]); }
  }

  lemma HandingOneCleans<B, Id, P>(c: Cache<B, Id, P>, pending: set<B>)
    requires Coherent(c)
    ensures var taken, pool := Take(c.pool.queue, pending, 1).0, AllocateFrom(c.pool, pending, 1);
      && Changed(c, Hand(pending, 1)) == RecycleAll(c, taken).(pool := pool)
      && Coherent(Changed(c, Hand(pending, 1)))
      && pool.refs.Keys == c.pool.refs.Keys && pool.placeholder == c.pool.placeholder
  {
    ChangeKeepsCoherent(c, Hand(pending, 1));
    AllocationIsFresh(c.pool, pending, 1);
    TakingSplits(c.pool.queue, pending, 1);
  }

  /** The blocks among `scratch` that lost their last reference. */
  function Unused<B(==)>(before: Pool<B>, after: Pool<B>, scratch: set<B>): set<B>
    requires before.refs.Keys == after.refs.Keys
  {
    set b | b in scratch && b in before.refs && before.refs[b] > 0 && after.refs[b] == 0
  }

  /** A release takes the payloads that were only read for the request with it. */
  function Released<B(==), Id(==), P(==)>(c: Cache<B, Id, P>, bs: seq<B>, scratch: set<B>): Cache<B, Id, P>
    requires Known(c.pool, bs)
  {
    var after := Changed(c, Drop(bs));
    after.(payloads := c.payloads - Unused(c.pool, after.pool, scratch))
  }

  lemma HandedOneIsClean<B, Id, P>(c: Cache<B, Id, P>, pending: set<B>, b: B)
    requires Coherent(c) && Take(c.pool.queue, pending, 1).0 == [b]
    ensures forall id, p :: Allowed(Changed(c, Hand(pending, 1)), Publish(b, id, p))
  {
    TakingSplits(c.pool.queue, pending, 1);
    OnlyMember(b);
    HandedBlocksAreClean(c, pending, 1, b);
    forall id: Id, p ensures Allowed(Changed(c, Hand(pending, 1)), Publish(b, id, p)) {
      assert Allowed(Changed(c, Hand(pending, 1)), Publish(b, id, None));
    }
  }

  /** Every block carries what it did, under the hash that it had. */
  ghost predicate CarriesTheSame<B, Id, P>(before: Cache<B, Id, P>, after: Cache<B, Id, P>) {
    after.payloads == before.payloads && after.hashes == before.hashes && after.index == before.index
  }

  /**
   A block carries exactly this payload under this hash, and is the one found there; every other
   block carries what it did, under the hash that it had.
   */
  ghost predicate PublishedAs<B, Id, P>(
    before: Cache<B, Id, P>, after: Cache<B, Id, P>, b: B, id: Id, payload: Option<P>)
  {
    && (payload.Some? ==> b in after.payloads && after.payloads[b] == payload.value)
    && (payload.None? ==> b !in after.payloads)
    && b in after.hashes && after.hashes[b] == id && IsFound(after, id, b)
    && after.payloads - {b} == before.payloads - {b}
    && after.hashes - {b} == before.hashes - {b}
  }

  lemma PublishingStores<B, Id, P>(c: Cache<B, Id, P>, b: B, id: Id, p: Option<P>)
    requires Coherent(c) && Allowed(c, Publish(b, id, p))
    ensures PublishedAs(c, Changed(c, Publish(b, id, p)), b, id, p)
  {
    PublishedIsFound(c, b, id, p);
  }

  /** When no block can be handed out, nothing is taken from any. */
  lemma NothingHanded<B, Id, P>(c: Cache<B, Id, P>, pending: set<B>)
    requires Coherent(c)
    ensures var taken := Take(c.pool.queue, pending, 1).0;
      && (taken == [] <==> forall b :: b in c.pool.queue ==> b in pending)
      && (taken == [] ==> CarriesTheSame(c, Changed(c, Hand(pending, 1))))
  {
    NoneToTake(c.pool.queue, pending);
    HandingOneCleans(c, pending);
  }

  /** A block that is handed out and published takes from no other block. */
  lemma HandedAndPublished<B, Id, P>(c: Cache<B, Id, P>, pending: set<B>, b: B, id: Id, p: Option<P>)
    requires Coherent(c) && Take(c.pool.queue, pending, 1).0 == [b]
    requires Allowed(Changed(c, Hand(pending, 1)), Publish(b, id, p))
    ensures PublishedAs(c, Changed(Changed(c, Hand(pending, 1)), Publish(b, id, p)), b, id, p)
  {
    var handed := Changed(c, Hand(pending, 1));
    HandingOneCleans(c, pending);
    PublishingStores(handed, b, id, p);
    assert [b][..0] == [] && RecycleAll(c, [b]) == Recycle(c, b);
    TakenTwice(c.payloads, b);
    TakenTwice(c.hashes, b);
  }

  lemma TakenTwice<K, V>(m: map<K, V>, k: K)
    ensures m - {k} - {k} == m - {k}
  {
  }

  lemma NoneToTake<B>(queue: seq<B>, pending: set<B>)
    ensures Take(queue, pending, 1).0 == [] <==> forall b :: b in queue ==> b in pending
  {
    assert Take(queue, pending, 0) == ([], queue);
    var k := FirstRecyclable(queue, pending);
    if k < |queue| { assert queue[k] in queue; }
  }

  /** What is promoted from disk was stored before. */
  lemma PromotedAgain<B, Id, P>(c: Cache<B, Id, P>, pending: set<B>, b: B, id: Id, p: P)
    requires Coherent(c) && Take(c.pool.queue, pending, 1).0 == [b] && (id, p) in c.written
    ensures var handed := Changed(c, Hand(pending, 1));
      && Allowed(handed, Publish(b, id, Some(p)))
      && Changed(handed, Publish(b, id, Some(p))).written == c.written
      && PublishedAs(c, Changed(handed, Publish(b, id, Some(p))), b, id, Some(p))
  {
    HandedOneIsClean(c, pending, b);
    RecycledAll(c, Discarded(c, Hand(pending, 1)));
    HandedAndPublished(c, pending, b, id, Some(p));
  }

  lemma DroppingOne<B, Id, P>(c: Cache<B, Id, P>, b: B)
    requires Coherent(c) && b in c.pool.refs
    ensures Known(c.pool, [b]) && Coherent(Changed(c, Drop([b])))
    ensures Changed(c, Drop([b])) == c.(pool := ReleaseOne(c.pool, b))
  {
    OnlyMember(b);
    ChangeKeepsCoherent(c, Drop([b]));
    assert [b][..0] == [] && ReleaseAll(c.pool, [b][..0]) == c.pool;
  }

  lemma EmptyIsCoherent<B, Id, P>(pool: Pool<B>)
    requires Sound(pool)
    ensures Coherent(Cache<B, Id, P>.Cache(pool, map[], map[], map[], {}))
  {
  }

  /** What a release leaves of any block. */
  lemma WhatAReleaseLeaves<B, Id, P>(c: Cache<B, Id, P>, bs: seq<B>, scratch: set<B>, b: B)
    requires Coherent(c) && Known(c.pool, bs)
    ensures var after := Released(c, bs, scratch);
      && after.hashes == c.hashes && after.index == c.index && after.written == c.written
      && (b in c.pool.refs ==> b in after.pool.refs && after.pool.refs[b] == RefsLeft(c, Drop(bs), b))
      && Carried(after, b) ==
           if b in scratch && b in c.pool.refs && c.pool.refs[b] > 0 && RefsLeft(c, Drop(bs), b) == 0
           then None else Carried(c, b)
  {
    assert Allowed(c, Drop(bs));
    if b in c.pool.refs { WhatAStepCounts(c, Drop(bs), b); }
    assert Changed(c, Drop(bs)).payloads == c.payloads;
  }

  class PagedCache<Id(==), P(==)> {
    const manager: PagedCacheManager
    const contents: Contents<Block, Id, P>

    ghost function State(): Cache<Block, Id, P>
      reads manager, manager.free`queue, contents, contents.hashToBlock
    {
      contents.With(manager.State())
    }

    ghost predicate Valid()
      reads manager, manager.free, manager.free.Nodes(), contents, contents.hashToBlock
    {
      manager.Valid() && Coherent(State())
    }

    constructor (maxBlocks: nat)
      requires maxBlocks >= 2
      ensures Valid() && State().hashes == map[] && State().payloads == map[] && State().written == {}
    {
      manager := new PagedCacheManager(maxBlocks);
      contents := new Contents();
      new;
      EmptyIsCoherent<Block, Id, P>(manager.State());
    }

    /** The blocks whose payload would be lost: not durable, and found under a hash. */
    function Fenced(durable: set<Block>): (fenced: set<Block>)
      reads contents
      ensures fenced <= contents.hashes.Keys && fenced <= contents.payloads.Keys && fenced !! durable
      ensures forall b :: b in contents.hashes && b in contents.payloads ==> b in fenced || b in durable
    {
      contents.hashes.Keys * contents.payloads.Keys - durable
    }

    /** What the blocks carry has changed, the pool and its queue have not. */
    twostate lemma QueueStays()
      requires old(manager.Valid()) && unchanged(manager, manager.free, manager.free.Nodes())
      ensures manager.Valid() && manager.State() == old(manager.State())
    {
      forall i | 0 <= i <= |manager.free.queue| ensures manager.free.Linked(i) {
        assert old(manager.free.Linked(i));
      }
    }

    // -------------------------------------------------------------------------
    // References
    // -------------------------------------------------------------------------

    /** The block of a hash, protected from being recycled. */
    method Find(id: Id) returns (found: Option<Block>)
      requires Valid()
      modifies manager, manager.free, manager.free.Nodes()
      ensures Valid()
      ensures forall b :: b in At(old(State()).index, id) ==> b in old(State()).pool.refs
      ensures (found, State()) == Lookup(old(State()), id)
    {
      LookupServesWhatWasStored(State(), id);
      found := contents.Find(id, manager.State());
      if found.Some? {
        Protect(found.value);
      }
    }

    method Protect(b: Block)
      requires Valid() && b in State().pool.refs
      modifies manager, manager.free, manager.free.Nodes()
      ensures Valid() && State() == old(State()).(pool := TouchOne(old(State()).pool, b))
    {
      ghost var before := State();
      TouchKeepsSound(before.pool, b);
      PoolChangeKeepsCoherent(before, TouchOne(before.pool, b));
      manager.TouchBlock(b);
    }

    /** The blocks among `scratch` that have a reference. */
    method InUse(scratch: set<Block>) returns (held: set<Block>)
      requires Valid() && scratch <= State().pool.refs.Keys
      ensures held == set b | b in scratch && State().pool.refs[b] > 0
    {
      held := set b | b in scratch && b.refCount > 0;
    }

    /** After a release, drops the payloads that no request needs any more. */
    method DropScratch(
      held: set<Block>, ghost before: Cache<Block, Id, P>, ghost bs: seq<Block>, ghost scratch: set<Block>)
      requires Valid() && scratch <= before.pool.refs.Keys && Known(before.pool, bs)
      requires State() == Changed(before, Drop(bs))
      requires held == set b | b in scratch && before.pool.refs[b] > 0
      modifies contents
      ensures Valid() && State() == Released(before, bs, scratch)
      ensures manager.State() == old(manager.State())
    {
      var gone := set b | b in held && b.refCount == 0;
      assert gone == Unused(before.pool, State().pool, scratch);
      contents.UnloadAll(gone, manager.State());
      QueueStays();
    }

    /** Releases a request's references, and with the last one what was read for it only. */
    method ReleaseRequestRefs(ids: seq<int>, scratch: set<Block>) returns (released: nat)
      requires Valid() && scratch <= State().pool.refs.Keys
      modifies manager, manager.free, manager.free.Nodes(), contents
      ensures Valid()
      ensures Known(old(State()).pool, old(manager.Find(ids)))
      ensures State() == Released(old(State()), old(manager.Find(ids)), scratch)
      ensures released == |State().pool.queue| - |old(State()).pool.queue|
    {
      ghost var before, bs := State(), manager.Find(ids);
      var held := InUse(scratch);
      released := DropRefs(ids);
      DropScratch(held, before, bs, scratch);
    }

    method DropRefs(ids: seq<int>) returns (released: nat)
      requires Valid()
      modifies manager, manager.free, manager.free.Nodes()
      ensures Valid()
      ensures Known(old(State()).pool, old(manager.Find(ids)))
      ensures State() == Changed(old(State()), Drop(old(manager.Find(ids))))
      ensures released == |State().pool.queue| - |old(State()).pool.queue|
    {
      ChangeKeepsCoherent(State(), Drop(manager.Find(ids)));
      released := manager.ReleaseRequestRefs(ids);
    }

    /** The same for one block, which is forgotten with its last reference. */
    method FreeBlock(id: int, scratch: set<Block>) returns (freed: bool)
      requires Valid() && scratch <= State().pool.refs.Keys
      modifies manager, manager.free, manager.free.Nodes(), contents
      ensures Valid()
      ensures id !in old(manager.table) ==> !freed && State() == old(State())
      ensures id in old(manager.table) ==>
        var b := old(manager.table[id]);
        && Known(old(State()).pool, [b]) && State() == Released(old(State()), [b], scratch)
        && (freed <==> b != manager.placeholder && old(State()).pool.refs[b] == 1)
    {
      if id !in manager.table {
        return false;
      }
      ghost var before, b := State(), manager.table[id];
      var held := InUse(scratch);
      freed := DropOne(id);
      DropScratch(held, before, [b], scratch);
    }

    method DropOne(id: int) returns (freed: bool)
      requires Valid() && id in manager.table
      modifies manager, manager.free, manager.free.Nodes()
      ensures Valid()
      ensures var b := old(manager.table[id]);
        && Known(old(State()).pool, [b]) && State() == Changed(old(State()), Drop([b]))
        && (freed <==> b != manager.placeholder && old(State()).pool.refs[b] == 1)
    {
      DroppingOne(State(), manager.table[id]);
      freed := manager.FreeBlock(id);
    }

    /** The same for a batch of blocks. */
    method FreeBlocks(bs: seq<Block>, scratch: set<Block>)
      requires Valid() && Known(State().pool, bs) && scratch <= State().pool.refs.Keys
      modifies manager, manager.free, manager.free.Nodes(), contents
      ensures Valid() && State() == Released(old(State()), bs, scratch)
    {
      ghost var before := State();
      var held := InUse(scratch);
      DropBatch(bs);
      DropScratch(held, before, bs, scratch);
    }

    method DropBatch(bs: seq<Block>)
      requires Valid() && Known(State().pool, bs)
      modifies manager, manager.free, manager.free.Nodes()
      ensures Valid() && State() == Changed(old(State()), Drop(bs))
    {
      ChangeKeepsCoherent(State(), Drop(bs));
      manager.FreeBlocks(bs);
    }

    // -------------------------------------------------------------------------
    // Handing out and evicting
    // -------------------------------------------------------------------------

    /** Allocates all the blocks or none, and takes from them what they carried. */
    method GetNewBlocks(n: nat, durable: set<Block>) returns (r: Result<seq<Block>, ()>)
      requires Valid()
      modifies manager, manager.free, manager.free.Nodes(), contents, contents.hashToBlock
      ensures Valid()
      ensures State() == Changed(old(State()), Hand(old(Fenced(durable)), n))
      ensures var taken := Take(old(State()).pool.queue, old(Fenced(durable)), n).0;
        (r.Ok? <==> |taken| == n) && (r.Ok? ==> r.value == taken)
    {
      ghost var before, pending := State(), Fenced(durable);
      ChangeKeepsCoherent(before, Hand(pending, n));
      var taken;
      r, taken := manager.GetNewBlocks(n, Fenced(durable));
      CleanTaken(taken, before);
    }

    /** Allocates one block for a request, or none. */
    method AllocateBlock(durable: set<Block>) returns (r: Option<Block>)
      requires Valid()
      modifies manager, manager.free, manager.free.Nodes(), contents, contents.hashToBlock
      ensures Valid()
      ensures State() == Changed(old(State()), Hand(old(Fenced(durable)), 1))
      ensures (if r.Some? then [r.value] else [])
        == Take(old(State()).pool.queue, old(Fenced(durable)), 1).0
    {
      ghost var before := State();
      var pending := Fenced(durable);
      HandingOneCleans(before, pending);
      var taken;
      r, taken := TakeBlock(pending);
      CleanTaken(taken, before);
    }

    method TakeBlock(pending: set<Block>) returns (r: Option<Block>, taken: seq<Block>)
      requires Valid()
      modifies manager, manager.free, manager.free.Nodes()
      ensures manager.Valid()
      ensures State() == old(State()).(pool := AllocateFrom(old(State()).pool, pending, 1))
      ensures taken == (if r.Some? then [r.value] else []) == Take(old(State()).pool.queue, pending, 1).0
    {
      r := manager.AllocateBlock(pending);
      taken := if r.Some? then [r.value] else [];
    }

    /** Evicts what the least recently used free blocks carry; returns how many could be. */
    method EvictLruBlocks(n: int, durable: set<Block>) returns (evicted: nat)
      requires Valid()
      modifies manager, manager.free, manager.free.Nodes(), contents, contents.hashToBlock
      ensures Valid()
      ensures var queue, pending := old(State()).pool.queue, old(Fenced(durable));
        var k := if n < 0 then 0 else if n < |queue| then n else |queue|;
        && State() == Changed(old(State()), Evict(pending, k))
        && State().pool.queue == queue[k..] + queue[..k]
        && evicted == |Select(queue[..k], pending, false)|
    {
      ghost var before, pending := State(), Fenced(durable);
      ghost var queue := before.pool.queue;
      ghost var k := if n < 0 then 0 else if n < |queue| then n else |queue|;
      ChangeKeepsCoherent(before, Evict(pending, k));
      StepKeepsSound(before.pool, Rotate(k));
      var blocks := manager.EvictLruBlocks(n, Fenced(durable));
      evicted := |blocks|;
      CleanTaken(Hashed(blocks, contents.hashes), before);
    }

    // -------------------------------------------------------------------------
    // What blocks carry
    // -------------------------------------------------------------------------

    /** A block in use gets a hash, with a payload or without. */
    method Publish(b: Block, id: Id, payload: Option<P>)
      requires Valid() && Allowed(State(), Change.Publish(b, id, payload))
      modifies contents, contents.hashToBlock
      ensures Valid() && State() == Changed(old(State()), Change.Publish(b, id, payload))
      ensures PublishedAs(old(State()), State(), b, id, payload)
    {
      PublishingStores(State(), b, id, payload);
      Store(b, id, payload);
    }

    method Store(b: Block, id: Id, payload: Option<P>)
      requires Valid() && Allowed(State(), Change.Publish(b, id, payload))
      modifies contents, contents.hashToBlock
      ensures Valid() && State() == Changed(old(State()), Change.Publish(b, id, payload))
    {
      contents.Publish(b, id, payload, manager.State());
      QueueStays();
    }

    /** A block gets the hash and the payload of a block on disk, if there is a free one. */
    method PromoteFromDisk(id: Id, payload: P, durable: set<Block>) returns (r: Option<Block>)
      requires Valid() && (id, payload) in State().written
      modifies manager, manager.free, manager.free.Nodes(), contents, contents.hashToBlock
      ensures Valid()
      ensures var handed := Changed(old(State()), Hand(old(Fenced(durable)), 1));
        if r.None? then State() == handed
        else
          && Allowed(handed, Change.Publish(r.value, id, Some(payload)))
          && State() == Changed(handed, Change.Publish(r.value, id, Some(payload)))
          && State().written == old(State()).written
      ensures r.None? <==> forall b :: b in old(State()).pool.queue ==> b in old(Fenced(durable))
      ensures r.None? ==> CarriesTheSame(old(State()), State())
      ensures r.Some? ==> PublishedAs(old(State()), State(), r.value, id, Some(payload))
    {
      ghost var before, pending := State(), Fenced(durable);
      NothingHanded(before, pending);
      r := AllocateBlock(durable);
      if r.Some? {
        PromotedAgain(before, pending, r.value, id, payload);
        Store(r.value, id, Some(payload));
      }
    }

    /** A hash is no longer found. */
    method Retire(id: Id) returns (blocks: seq<Block>)
      requires Valid()
      modifies contents.hashToBlock
      ensures Valid() && State() == Changed(old(State()), Change.Retire(id))
      ensures blocks == At(old(State()).index, id)
    {
      blocks := contents.Retire(id, manager.State());
      QueueStays();
    }

    /** Drops a payload from memory, whoever uses the block. */
    method ReleaseResidentPayload(b: Block)
      requires Valid()
      modifies contents
      ensures Valid() && State() == Changed(old(State()), Unload(b))
    {
      contents.Unload(b, manager.State());
      QueueStays();
    }

    /** Reads a payload from disk, for a block that has its hash. */
    method Rehydrate(b: Block, payload: P)
      requires Valid() && b in State().hashes && (State().hashes[b], payload) in State().written
      modifies contents
      ensures Valid() && State() == Changed(old(State()), Load(b, payload))
    {
      contents.Load(b, payload, manager.State());
      QueueStays();
    }

    /** Takes everything from a block whose payload did not reach the disk. */
    method DiscardNondurable(b: Block, id: Id) returns (retired: bool)
      requires Valid()
      modifies contents, contents.hashToBlock
      ensures Valid() && (retired <==> b in old(State()).hashes && old(State()).hashes[b] == id)
      ensures State() == if retired then Changed(old(State()), Invalidate(b)) else old(State())
    {
      if b !in contents.hashes || contents.hashes[b] != id {
        return false;
      }
      RecycledAll(State(), [b]);
      CleanTaken([b], State());
      retired := true;
    }

    /** Takes from blocks what they carry, after the pool has changed. */
    method CleanTaken(taken: seq<Block>, ghost before: Cache<Block, Id, P>)
      requires manager.Valid() && Coherent(before)
      requires State() == before.(pool := manager.State())
      requires manager.State().refs.Keys == before.pool.refs.Keys
      requires manager.State().placeholder == before.pool.placeholder
      modifies contents, contents.hashToBlock
      ensures Valid() && State() == RecycleAll(before, taken).(pool := manager.State())
      ensures manager.State() == old(manager.State())
    {
      PoolChangeKeepsCoherent(before, manager.State());
      RecyclingLeavesThePool(before, manager.State(), taken);
      contents.CleanAll(taken, manager.State());
      QueueStays();
    }
  }
}
