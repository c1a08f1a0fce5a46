/**
 The manager of the paged cache: it owns the blocks, their reference counts, the table of
 known blocks and the free queue. Its methods are proved against the steps of `BlockPool`.
 */
module PagedCacheManager {
  import opened Common
  import opened Sequences
  import opened FreeQueue
  import opened BlockPool

  ghost function InitialRefs<B>(all: seq<B>): (refs: map<B, nat>)
    requires all != []
    ensures refs.Keys == set b | b in all
    ensures forall b :: b in refs ==> refs[b] == if b == all[0] then 1 else 0
    ensures forall i :: 0 <= i < |all| ==> all[i] in refs
  {
    map b | b in all :: if b == all[0] then 1 else 0
  }

  lemma InitiallySound<B>(all: seq<B>)
    requires Distinct(all) && all != []
    ensures Sound(Pool(all[1..], InitialRefs(all), all[0]))
  {
    forall b ensures b in all[1..] <==> b in all && b != all[0] {
      if b in all && b != all[0] {
        var i :| 0 <= i < |all| && all[i] == b;
        assert all[1..][i - 1] == b;
      }
    }
  }

  method NewBlocks(n: nat) returns (blocks: seq<Block>)
    ensures |blocks| == n && Distinct(blocks)
    ensures forall i :: 0 <= i < n ==>
      && fresh(blocks[i]) && blocks[i].id == i && blocks[i].refCount == 0 && !blocks[i].isNull
      && blocks[i].prev == null && blocks[i].next == null
  {
    blocks := [];
    for i := 0 to n
      invariant |blocks| == i && Distinct(blocks)
      invariant forall k :: 0 <= k < i ==>
        && fresh(blocks[k]) && blocks[k].id == k && blocks[k].refCount == 0 && !blocks[k].isNull
        && blocks[k].prev == null && blocks[k].next == null
    {
      var b := new Block(i);
      blocks := blocks + [b];
    }
  }

  /** All blocks, and the queue of all but the first. */
  method NewQueue(n: nat) returns (blocks: seq<Block>, queue: FreeBlockQueue)
    requires n >= 2
    ensures |blocks| == n && Distinct(blocks)
    ensures forall i :: 0 <= i < n ==>
      fresh(blocks[i]) && blocks[i].id == i && blocks[i].refCount == 0 && !blocks[i].isNull
    ensures fresh(queue) && fresh(queue.Nodes()) && queue.Valid()
    ensures queue.pool == (set b | b in blocks) && queue.queue == blocks[1..]
  {
    blocks := NewBlocks(n);
    queue := new FreeBlockQueue(blocks);
    var first := queue.PopLeft();
    assert first.value == blocks[0];
  }

  /** The numbers of some blocks. */
  ghost function Numbers(bs: seq<Block>): set<int> {
    set b | b in bs :: b.id
  }

  lemma OneMoreNumber(table: map<int, Block>, bs: seq<Block>, b: Block)
    ensures table - Numbers(bs) - {b.id} == table - Numbers(bs + [b])
  {
    assert forall x :: x in bs + [b] <==> x in bs || x == b;
    forall id ensures id in Numbers(bs + [b]) <==> id in Numbers(bs) || id == b.id {
      if id in Numbers(bs) {
        var x :| x in bs && x.id == id;
        assert x in bs + [b];
      }
    }
  }

  /** The blocks that the table knows, in the order of the numbers. */
  ghost function LookedUp(table: map<int, Block>, ids: seq<int>): seq<Block> {
    if ids == [] then []
    else
      var id := ids[|ids| - 1];
      LookedUp(table, ids[..|ids| - 1]) + if id in table then [table[id]] else []
  }

  lemma {:induction false} LookedUpAreKnown(table: map<int, Block>, ids: seq<int>)
    ensures forall b :: b in LookedUp(table, ids) ==> exists id :: id in table && table[id] == b
  {
    if ids != [] { LookedUpAreKnown(table, ids[..|ids| - 1]); }
  }

  /** The numbers are looked up one after the other; unknown ones are passed over. */
  lemma {:induction false} FoundInTurn(table: map<int, Block>, ids: seq<int>, more: seq<int>, id: int)
    ensures LookedUp(table, ids + more) == LookedUp(table, ids) + LookedUp(table, more)
    ensures LookedUp(table, [id]) == if id in table then [table[id]] else []
    decreases |more|
  {
    assert [id][..0] == [];
    if more == [] {
      assert ids + more == ids;
    } else {
      var n := |more| - 1;
      assert (ids + more)[..|ids + more| - 1] == ids + more[..n];
      FoundInTurn(table, ids, more[..n], id);
      Regroup(LookedUp(table, ids), LookedUp(table, more[..n]),
              if more[n] in table then [table[more[n]]] else []);
    }
  }

  class PagedCacheManager {
    const blocks: seq<Block>
    const free: FreeBlockQueue
    const placeholder: Block
    /** The known blocks by number: those in use, and released ones that may be revived. */
    var table: map<int, Block>
    var allocatedCount: int
    var freeCount: int
    /** The reference counts of all blocks. */
    ghost var refs: map<Block, nat>

    ghost function State(): Pool<Block>
      reads this, free`queue
    {
      Pool(free.queue, refs, placeholder)
    }

    /** The counts are the blocks' own, and every block in use can be looked up. */
    ghost predicate Books()
      reads this`refs, this`table, free.pool`refCount, free.pool`isNull
    {
      && free.pool == refs.Keys && placeholder in refs
      && (forall i :: 0 <= i < |blocks| ==> blocks[i].id == i && blocks[i] in refs)
      && (forall b :: b in refs ==>
            && 0 <= b.id < |blocks| && blocks[b.id] == b
            && b.refCount == refs[b] && (b.isNull <==> b == placeholder)
            && (refs[b] > 0 ==> b.id in table))
      && (forall id :: id in table ==> 0 <= id < |blocks| && table[id] == blocks[id])
    }

    /** The queue is well linked, the books are right, and the statistics count the queue. */
    ghost predicate Valid()
      reads this, free, free.Nodes()
    {
      && free.Valid() && Books() && Sound(State())
      && freeCount == |free.queue| && allocatedCount + freeCount == |blocks|
    }

    /** The first block is the placeholder: in use from the start and never free. */
    constructor (maxBlocks: nat)
      requires maxBlocks >= 2
      ensures Valid() && fresh(free) && fresh(free.Nodes())
      ensures |blocks| == maxBlocks && placeholder == blocks[0]
      ensures State().queue == blocks[1..] && refs[placeholder] == 1
    {
      var all, queue := NewQueue(maxBlocks);
      all[0].isNull := true;
      all[0].refCount := 1;
      blocks, free, placeholder := all, queue, all[0];
      table := map[0 := all[0]];
      allocatedCount, freeCount := 1, maxBlocks - 1;
      refs := InitialRefs(all);
      InitiallySound(all);
    }

    // -------------------------------------------------------------------------
    // Bookkeeping that leaves the queue alone
    // -------------------------------------------------------------------------

    method SetRefs(b: Block, n: int)
      requires free.Valid() && Books() && b in refs && n >= 0 && (n > 0 ==> b.id in table)
      modifies this`refs, b`refCount
      ensures free.Valid() && Books() && refs == old(refs)[b := n]
    {
      b.refCount := n;
      refs := refs[b := n];
      forall i | 0 <= i <= |free.queue| ensures free.Linked(i) {
        assert old(free.Linked(i));
      }
    }

    /** Makes a block of the pool known by its number. */
    method Enter(b: Block)
      requires free.Valid() && Books() && b in refs
      modifies this`table
      ensures free.Valid() && Books() && table == old(table)[b.id := b]
    {
      table := table[b.id := b];
      forall i | 0 <= i <= |free.queue| ensures free.Linked(i) {
        assert old(free.Linked(i));
      }
    }

    /** Takes an unused block out of the table. */
    method Leave(b: Block)
      requires free.Valid() && Books() && b in refs && refs[b] == 0
      modifies this`table
      ensures free.Valid() && Books() && table == old(table) - {b.id}
    {
      table := table - {b.id};
      forall i | 0 <= i <= |free.queue| ensures free.Linked(i) {
        assert old(free.Linked(i));
      }
    }

    /** Counts `n` more blocks as allocated. */
    method Count(n: int)
      requires free.Valid() && Books()
      modifies this`allocatedCount, this`freeCount
      ensures allocatedCount == old(allocatedCount) + n && freeCount == old(freeCount) - n
      ensures free.Valid() && Books()
    {
      allocatedCount := allocatedCount + n;
      freeCount := freeCount - n;
      forall i | 0 <= i <= |free.queue| ensures free.Linked(i) {
        assert old(free.Linked(i));
      }
    }

    // -------------------------------------------------------------------------
    // Touching
    // -------------------------------------------------------------------------

    /** Protects the blocks of a cache hit: one more reference each, and out of the queue. */
    method Touch(bs: seq<Block>)
      requires Valid() && Known(State(), bs)
      modifies this, free, free.Nodes()
      ensures Valid()
      ensures State() == TouchAll(old(State()), bs)
    {
      ghost var before := State();
      for i := 0 to |bs|
        invariant Valid() && Known(before, bs)
        invariant State() == TouchAll(before, bs[..i])
      {
        TouchAllNext(before, bs, i);
        TouchBlock(bs[i]);
      }
      assert bs[..|bs|] == bs;
    }

    method TouchBlock(b: Block)
      requires Valid() && b in refs
      modifies this, free, free.Nodes()
      ensures Valid()
      ensures State() == TouchOne(old(State()), b)
    {
      ghost var before := State();
      if b.refCount == 0 && !b.isNull {
        Revive(b);
        Enter(b);
      }
      AddReference(b, before);
    }

    /** Takes a free block out of the queue, before its first reference is counted. */
    method Revive(b: Block)
      requires Valid() && b in refs && refs[b] == 0
      modifies this`freeCount, this`allocatedCount
      modifies free, free.Nodes()`prev, free.Nodes()`next
      ensures free.Valid() && Books()
      ensures free.queue == Without(old(free.queue), [b])
      ensures freeCount == |free.queue| && allocatedCount + freeCount == |blocks|
    {
      ghost var before := free.queue;
      assert b in before by { assert State().queue == before; }
      var removed, k := free.Remove(b);
      WithoutAt(before, k);
      Count(1);
    }

    /** Counts one more reference, once the block is out of the queue. */
    method AddReference(b: Block, ghost before: Pool<Block>)
      requires free.Valid() && Books() && b in refs && b.id in table
      requires freeCount == |free.queue| && allocatedCount + freeCount == |blocks|
      requires Sound(before) && before.refs == refs && before.placeholder == placeholder
      requires free.queue == TouchOne(before, b).queue
      modifies this`refs, b`refCount
      ensures Valid() && State() == TouchOne(before, b)
    {
      TouchKeepsSound(before, b);
      SetRefs(b, b.refCount + 1);
    }

    /** Revives a block that a request found by its number. */
    method IncrementRef(id: int) returns (known: bool)
      requires Valid()
      modifies this`refs, this`freeCount, this`allocatedCount, free, free.Nodes()
      ensures Valid()
      ensures known <==> id in old(table)
      ensures State() == if known then TouchOne(old(State()), old(table)[id]) else old(State())
    {
      if id !in table {
        return false;
      }
      var b := table[id];
      ghost var before := State();
      if b.refCount == 0 && !b.isNull {
        Revive(b);
      }
      AddReference(b, before);
      known := true;
    }

    // -------------------------------------------------------------------------
    // Releasing
    // -------------------------------------------------------------------------

    /** Drops one reference of a block that is in use; a block that is not is left alone. */
    method DropReference(b: Block) returns (freed: bool)
      requires Valid() && b in refs
      modifies this`refs, this`freeCount, this`allocatedCount, free, free.Nodes()
      ensures Valid() && State() == ReleaseOne(old(State()), b)
      ensures freed <==> b != placeholder && old(refs)[b] == 1
      ensures |free.queue| == old(|free.queue|) + if freed then 1 else 0
    {
      if b.isNull || b.refCount <= 0 {
        return false;
      }
      ghost var before := State();
      ReleaseKeepsSound(before, b);
      SetRefs(b, b.refCount - 1);
      freed := b.refCount == 0;
      if freed {
        Requeue(b, before);
      }
    }

    /** Puts a block back in the queue, once its last reference is gone. */
    method Requeue(b: Block, ghost before: Pool<Block>)
      requires free.Valid() && Books() && b in refs && b != placeholder
      requires Sound(before) && before.placeholder == placeholder && before.queue == free.queue
      requires b in before.refs && before.refs[b] == 1 && refs == before.refs[b := 0]
      requires freeCount == |free.queue| && allocatedCount + freeCount == |blocks|
      modifies this`freeCount, this`allocatedCount
      modifies free, free.Nodes()`prev, free.Nodes()`next
      ensures Valid() && State() == ReleaseOne(before, b)
    {
      ReleaseKeepsSound(before, b);
      assert b !in free.queue;
      if b.prev == null && b.next == null {
        free.Append(b);
        freeCount := freeCount + 1;
      }
      allocatedCount := allocatedCount - 1;
    }

    /** Frees one reference of a block; the block is forgotten with its last one. */
    method FreeBlock(id: int) returns (freed: bool)
      requires Valid()
      modifies this, free, free.Nodes()
      ensures Valid()
      ensures State() ==
        if id in old(table) then ReleaseOne(old(State()), old(table)[id]) else old(State())
      ensures freed <==>
        id in old(table) && old(table)[id] != placeholder && old(refs)[old(table)[id]] == 1
      ensures table == if freed then old(table) - {id} else old(table)
    {
      if id !in table {
        return false;
      }
      var b := table[id];
      freed := DropReference(b);
      if freed {
        Leave(b);
      }
    }

    /** The blocks that the table knows, in the order of the numbers. */
    ghost function Find(ids: seq<int>): (bs: seq<Block>)
      requires Books()
      reads this`refs, this`table, free.pool`refCount, free.pool`isNull
      ensures bs == LookedUp(table, ids) && forall b :: b in bs ==> b in refs
    {
      LookedUpAreKnown(table, ids);
      LookedUp(table, ids)
    }

    /** Releases a request's references; unused blocks stay known, and can be revived. */
    method ReleaseRequestRefs(ids: seq<int>) returns (released: nat)
      requires Valid()
      modifies this`refs, this`freeCount, this`allocatedCount, free, free.Nodes()
      ensures Valid()
      ensures State() == ReleaseAll(old(State()), old(Find(ids)))
      ensures released == |free.queue| - old(|free.queue|)
    {
      released := 0;
      ghost var before, found := State(), [];
      for i := 0 to |ids|
        invariant Valid() && found == old(Find(ids[..i])) && Known(before, found)
        invariant State() == ReleaseAll(before, found)
        invariant released == |free.queue| - |before.queue|
      {
        assert ids[..i + 1][..i] == ids[..i];
        if ids[i] in table {
          var b := table[ids[i]];
          assert b == blocks[ids[i]] && b in before.refs;
          assert (found + [b])[..|found|] == found;
          var freed := DropReference(b);
          released := released + if freed then 1 else 0;
          found := found + [b];
        }
      }
      assert ids[..|ids|] == ids;
    }

    /**
     Part of a batch is released: the pool should be `p`, but the queue is still what it was, and
     the blocks that became free wait outside.
     */
    ghost predicate Releasing(p: Pool<Block>, waiting: seq<Block>)
      reads this, free, free.Nodes()
    {
      && free.Valid() && Books() && p == Pool(free.queue + waiting, refs, placeholder)
      && freeCount == |p.queue| && allocatedCount + freeCount == |blocks|
    }

    /** One block of a batch: its count, and the statistics, but not the queue. */
    method DropInBatch(b: Block) returns (freed: bool)
      requires free.Valid() && Books() && b in refs
      modifies this`refs, this`table, this`freeCount, this`allocatedCount, b`refCount
      ensures free.Valid() && Books()
      ensures freed <==> b != placeholder && old(refs)[b] == 1
      ensures table == if freed then old(table) - {b.id} else old(table)
      ensures refs ==
        if b == placeholder || old(refs)[b] == 0 then old(refs) else old(refs)[b := old(refs)[b] - 1]
      ensures freeCount == old(freeCount) + if freed then 1 else 0
      ensures allocatedCount == old(allocatedCount) - if freed then 1 else 0
    {
      if b.isNull || b.refCount <= 0 {
        return false;
      }
      SetRefs(b, b.refCount - 1);
      freed := b.refCount <= 0;
      if freed {
        Leave(b);
        Count(-1);
      }
    }

    /** The next block of a batch. */
    method ReleaseNext(b: Block, waiting: seq<Block>, ghost p: Pool<Block>)
      returns (more: seq<Block>)
      requires Releasing(p, waiting) && b in refs
      modifies this`refs, this`table, this`freeCount, this`allocatedCount, b`refCount
      ensures Releasing(ReleaseOne(p, b), more) && free.queue == old(free.queue)
      ensures (more == waiting && table == old(table)) ||
        (more == waiting + [b] && table == old(table) - {b.id})
    {
      Regroup(free.queue, waiting, [b]);
      var freed := DropInBatch(b);
      more := if freed then waiting + [b] else waiting;
    }

    /** Releases a batch: the same as one after the other, though the queue is updated once. */
    method FreeBlocks(bs: seq<Block>)
      requires Valid() && Known(State(), bs)
      modifies this, free, free.Nodes()
      ensures Valid()
      ensures State() == ReleaseAll(old(State()), bs)
      ensures old(free.queue) <= free.queue
      ensures table == old(table) - Numbers(free.queue[|old(free.queue)|..])
    {
      ghost var before, known := State(), table;
      var waiting := [];
      NothingAdded(free.queue);
      for i := 0 to |bs|
        invariant Known(before, bs) && Releasing(ReleaseAll(before, bs[..i]), waiting)
        invariant free.queue == before.queue && table == known - Numbers(waiting)
      {
        assert bs[i] in bs && bs[..i + 1][..i] == bs[..i];
        OneMoreNumber(known, waiting, bs[i]);
        waiting := ReleaseNext(bs[i], waiting, ReleaseAll(before, bs[..i]));
      }
      assert bs[..|bs|] == bs;
      ReleaseAllKeepsSound(before, bs);
      Flush(waiting, ReleaseAll(before, bs));
      assert free.queue == before.queue + waiting;
    }

    /** Queues what a batch set free. */
    method Flush(waiting: seq<Block>, ghost p: Pool<Block>)
      requires Sound(p) && Releasing(p, waiting)
      modifies free, free.Nodes()`prev, free.Nodes()`next
      ensures Valid() && State() == p && free.queue == old(free.queue) + waiting
    {
      SplitDistinct(free.queue, waiting);
      free.AppendN(waiting);
    }

    // -------------------------------------------------------------------------
    // Allocating
    // -------------------------------------------------------------------------

    /**
     Scans the queue at most once for a block whose payload may be dropped; `pending` are the
     blocks whose payload is not durable yet. What is passed over goes to the end.
     */
    method PopRecyclable(pending: set<Block>) returns (r: Option<Block>)
      requires free.Valid()
      modifies free, free.Nodes()`prev, free.Nodes()`next
      ensures free.Valid()
      ensures var found := if r.Some? then [r.value] else [];
        (found, free.queue) == TakeOne(([], old(free.queue)), pending)
    {
      ghost var queue := free.queue;
      for i := 0 to free.numFree
        invariant free.Valid() && free.numFree == |queue|
        invariant free.queue == queue[i..] + queue[..i]
        invariant FirstRecyclable(queue, pending) >= i
      {
        var popped := free.PopLeft();
        var b := popped.value;
        Turned(queue, i, b, free.queue);
        if b !in pending {
          assert FirstRecyclable(queue, pending) == i && [] + [queue[i]] == [b];
          return Some(b);
        }
        free.Append(b);
      }
      assert queue[|queue|..] + queue[..|queue|] == queue;
      r := None;
    }

    method AllocateBlock(pending: set<Block>) returns (r: Option<Block>)
      requires Valid()
      modifies this, free, free.Nodes()
      ensures Valid()
      ensures State() == AllocateFrom(old(State()), pending, 1)
      ensures (if r.Some? then [r.value] else []) == Take(old(free.queue), pending, 1).0
    {
      ghost var before := State();
      AllocationKeepsSound(before, pending, 1);
      AllocatingOne(before, pending);
      if free.numFree == 0 {
        return None;
      }
      r := PopRecyclable(pending);
      if r.None? {
        return;
      }
      GiveOne(r.value, AllocateFrom(before, pending, 1));
    }

    /** Counts a handed-out block's first reference. */
    method Give(b: Block)
      requires free.Valid() && Books() && b in refs
      modifies this`refs, this`table, b`refCount
      ensures free.Valid() && Books() && refs == old(refs)[b := 1]
    {
      Enter(b);
      SetRefs(b, 1);
    }

    method GiveOne(b: Block, ghost after: Pool<Block>)
      requires free.Valid() && Books() && b in refs
      requires Sound(after) && after == Pool(free.queue, refs[b := 1], placeholder)
      requires freeCount == |free.queue| + 1 && allocatedCount + freeCount == |blocks|
      modifies this`refs, this`table, this`allocatedCount, this`freeCount, b`refCount
      ensures Valid() && State() == after
    {
      Give(b);
      Count(1);
    }

    /** Takes recyclable blocks until there are `n` or none is left. */
    method TakeBlocks(n: nat, pending: set<Block>) returns (taken: seq<Block>)
      requires free.Valid()
      modifies free, free.Nodes()`prev, free.Nodes()`next
      ensures free.Valid()
      ensures (taken, free.queue) == Take(old(free.queue), pending, n)
    {
      ghost var queue := free.queue;
      taken := [];
      for i := 0 to n
        invariant free.Valid() && |taken| == i
        invariant (taken, free.queue) == Take(queue, pending, i)
      {
        ghost var rest := free.queue;
        var b := PopRecyclable(pending);
        TakeOneAdds(taken, rest, pending);
        if b.None? {
          NothingAdded(taken);
          TakeStops(queue, pending, i, n);
          return;
        }
        taken := taken + [b.value];
      }
    }

    /** Takes all the blocks or none: too few are put back at the end. */
    method TakeAllOrNone(n: nat, pending: set<Block>) returns (taken: seq<Block>, enough: bool)
      requires free.Valid()
      modifies free, free.Nodes()`prev, free.Nodes()`next
      ensures free.Valid()
      ensures taken == Take(old(free.queue), pending, n).0 && (enough <==> |taken| == n)
      ensures var rest := Take(old(free.queue), pending, n).1;
        free.queue == if enough then rest else rest + taken
    {
      ghost var queue := free.queue;
      taken := TakeBlocks(n, pending);
      enough := |taken| == n;
      if !enough {
        TakingSplits(queue, pending, n);
        free.AppendN(taken);
      }
    }

    /** Allocates all the blocks or none; `taken` are those that lost their contents on the way. */
    method GetNewBlocks(n: nat, pending: set<Block>)
      returns (r: Result<seq<Block>, ()>, taken: seq<Block>)
      requires Valid()
      modifies this, free, free.Nodes()
      ensures Valid()
      ensures State() == AllocateFrom(old(State()), pending, n)
      ensures r.Ok? <==> |Take(old(free.queue), pending, n).0| == n
      ensures r.Ok? ==> r.value == taken == Take(old(free.queue), pending, n).0
      ensures taken ==
        if n > |old(free.queue)| then [] else Take(old(free.queue), pending, n).0
    {
      ghost var before := State();
      AllocationIsFresh(before, pending, n);
      TakingSplits(before.queue, pending, n);
      if n > free.numFree {
        return Err(()), [];
      }
      var enough;
      taken, enough := TakeAllOrNone(n, pending);
      if !enough {
        return Err(()), taken;
      }
      GiveMany(taken, AllocateFrom(before, pending, n));
      r := Ok(taken);
    }

    method GiveMany(bs: seq<Block>, ghost after: Pool<Block>)
      requires free.Valid() && Books() && forall b :: b in bs ==> b in refs
      requires Sound(after) && after == Pool(free.queue, Hand(refs, bs), placeholder)
      requires freeCount == |free.queue| + |bs| && allocatedCount + freeCount == |blocks|
      modifies this`refs, this`table, this`allocatedCount, this`freeCount, free.pool`refCount
      ensures Valid() && State() == after
    {
      GiveAll(bs);
      Count(|bs|);
    }

    method GiveAll(bs: seq<Block>)
      requires free.Valid() && Books() && forall b :: b in bs ==> b in refs
      modifies this`refs, this`table, free.pool`refCount
      ensures free.Valid() && Books() && refs == Hand(old(refs), bs)
    {
      for i := 0 to |bs|
        invariant free.Valid() && Books() && refs.Keys == old(refs).Keys
        invariant refs == Hand(old(refs), bs[..i])
      {
        assert bs[i] in bs && bs[..i + 1][..i] == bs[..i];
        Give(bs[i]);
      }
      assert bs[..|bs|] == bs;
    }

    // -------------------------------------------------------------------------
    // Evicting
    // -------------------------------------------------------------------------

    /** Moves the `k` least recently used free blocks to the other end; some may be evicted. */
    method Turn(k: nat, pending: set<Block>) returns (evicted: seq<Block>)
      requires free.Valid() && k <= |free.queue|
      modifies free, free.Nodes()`prev, free.Nodes()`next
      ensures free.Valid() && free.queue == old(free.queue)[k..] + old(free.queue)[..k]
      ensures evicted == Select(old(free.queue)[..k], pending, false)
    {
      ghost var queue := free.queue;
      evicted := [];
      assert queue[0..] + queue[..0] == queue;
      for i := 0 to k
        invariant free.Valid() && free.queue == queue[i..] + queue[..i]
        invariant evicted == Select(queue[..i], pending, false)
      {
        var popped := free.PopLeft();
        var b := popped.value;
        Turned(queue, i, b, free.queue);
        free.Append(b);
        assert queue[..i + 1][..i] == queue[..i];
        if b !in pending {
          evicted := evicted + [b];
        }
      }
    }

    /** Evicts what the least recently used free blocks hold, as far as it is durable. */
    method EvictLruBlocks(n: int, pending: set<Block>) returns (evicted: seq<Block>)
      requires Valid()
      modifies this, free, free.Nodes()
      ensures Valid()
      ensures var k := if n < 0 then 0 else if n < |old(free.queue)| then n else |old(free.queue)|;
        && State() == Step(old(State()), Rotate(k))
        && free.queue == old(free.queue)[k..] + old(free.queue)[..k]
        && refs == old(refs) && table == old(table)
        && evicted == Select(old(free.queue)[..k], pending, false)
    {
      var k := if n < 0 then 0 else if n < free.numFree then n else free.numFree;
      ghost var before := State();
      StepKeepsSound(before, Rotate(k));
      evicted := Turn(k, pending);
      assert State() == Step(before, Rotate(k));
    }
  }

  /** Taking the front of a queue that was turned `i` times. */
  lemma Turned<B>(queue: seq<B>, i: nat, b: B, rest: seq<B>)
    requires i < |queue| && queue[i..] + queue[..i] == [b] + rest
    ensures b == queue[i] && rest == queue[i + 1..] + queue[..i]
    ensures rest + [b] == queue[i + 1..] + queue[..i + 1]
  {
    var turned := queue[i..] + queue[..i];
    assert turned[0] == b && turned[1..] == rest;
    assert turned[0] == queue[i] && turned[1..] == queue[i + 1..] + queue[..i];
    assert queue[..i] + [queue[i]] == queue[..i + 1];
    Regroup(queue[i + 1..], queue[..i], [queue[i]]);
  }
}
