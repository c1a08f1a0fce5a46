/**
 The intrusive free list of the paged cache: a doubly linked list through the blocks
 themselves, between two sentinels, from the least to the most recently used free block.
 */
module FreeQueue {
  import opened Common
  import opened Sequences

  class Block {
    const id: int
    var prev: Block?
    var next: Block?
    var refCount: int
    var isNull: bool

    constructor (id: int)
      ensures this.id == id && prev == null && next == null && refCount == 0 && !isNull
    {
      this.id, prev, next, refCount, isNull := id, null, null, 0, false;
    }
  }

  ghost predicate Joined(a: Block, b: Block)
    reads a`next, b`prev
  {
    a.next == b && b.prev == a
  }

  /** Element `i` of the first, then the middle, then the last. */
  function Place<T>(first: T, middle: seq<T>, last: T, i: nat): T
    requires i <= |middle| + 1
  {
    if i == 0 then first else if i <= |middle| then middle[i - 1] else last
  }

  lemma PlacesDiffer<T>(first: T, middle: seq<T>, last: T, i: nat, j: nat)
    requires first != last && first !in middle && last !in middle && Distinct(middle)
    requires i < j <= |middle| + 1
    ensures Place(first, middle, last, i) != Place(first, middle, last, j)
  {
    if 0 < i { assert middle[i - 1] in middle; }
    if j <= |middle| { assert middle[j - 1] in middle; }
  }

  lemma PlaceWithout<T>(first: T, middle: seq<T>, last: T, k: nat, i: nat)
    requires k < |middle| && i <= |middle|
    ensures Place(first, middle[..k] + middle[k + 1..], last, i)
      == Place(first, middle, last, if i <= k then i else i + 1)
  {
  }

  /** Blocks `i` and `i + 1` point to each other. */
  ghost predicate Adjacent(blocks: seq<Block>, i: nat)
    requires i + 1 < |blocks|
    reads blocks[i], blocks[i + 1]
  {
    blocks[i].next == blocks[i + 1] && blocks[i + 1].prev == blocks[i]
  }

  method LinkInOrder(blocks: seq<Block>)
    requires Distinct(blocks)
    modifies (set b | b in blocks)`prev, (set b | b in blocks)`next
    ensures forall i :: 0 <= i < |blocks| - 1 ==> Adjacent(blocks, i)
  {
    for i := 0 to |blocks|
      invariant forall k :: 0 <= k < i - 1 ==> Adjacent(blocks, k)
      invariant 0 < i < |blocks| ==> blocks[i - 1].next == blocks[i]
    {
      label before:
      if i > 0 {
        blocks[i].prev := blocks[i - 1];
      }
      if i < |blocks| - 1 {
        blocks[i].next := blocks[i + 1];
      }
      forall k | 0 <= k < i ensures Adjacent(blocks, k) {
        if k < i - 1 { assert old@before(Adjacent(blocks, k)); }
      }
    }
  }

  /** Joins the block's neighbours and clears its links. */
  method Bypass(block: Block)
    requires block.prev != null && block.next != null
    requires block.prev != block && block.next != block
    modifies block.prev`next, block.next`prev, block`prev, block`next
    ensures old(block.prev).next == old(block.next) && old(block.next).prev == old(block.prev)
    ensures block.prev == null && block.next == null
  {
    block.prev.next := block.next;
    block.next.prev := block.prev;
    block.prev := null;
    block.next := null;
  }

  class FreeBlockQueue {
    var numFree: int
    const head: Block
    const tail: Block
    /** The free blocks, least recently used first. */
    ghost var queue: seq<Block>
    /** Every block that may be in the queue. */
    ghost const pool: set<Block>

    ghost function Nodes(): set<Block> {
      pool + {head, tail}
    }

    /** The head, the queue, the tail. */
    ghost function At(i: nat): Block
      reads `queue
      requires i <= |queue| + 1
    {
      Place(head, queue, tail, i)
    }

    ghost predicate Placed()
      reads `queue
    {
      && head != tail && head !in pool && tail !in pool
      && Distinct(queue) && (forall b :: b in queue ==> b in pool)
    }

    /** Neighbours `i` and `i + 1` point to each other. */
    ghost predicate Linked(i: nat)
      reads `queue, Nodes()`prev, Nodes()`next
      requires i <= |queue| && Placed()
    {
      assert 0 < i ==> queue[i - 1] in queue;
      assert i < |queue| ==> queue[i] in queue;
      Joined(At(i), At(i + 1))
    }

    /** The links spell out the queue in both directions; a block outside has no links. */
    ghost predicate Valid()
      reads this, Nodes()`prev, Nodes()`next
    {
      && Placed() && numFree == |queue|
      && (forall i :: 0 <= i <= |queue| ==> Linked(i))
      && (forall b :: b in pool && b !in queue ==> b.prev == null && b.next == null)
    }

    lemma PlacesAreDistinct()
      requires Placed()
      ensures forall i, j :: 0 <= i < j <= |queue| + 1 ==> At(i) != At(j)
    {
      forall i, j | 0 <= i < j <= |queue| + 1 ensures At(i) != At(j) {
        PlacesDiffer(head, queue, tail, i, j);
      }
    }

    constructor (blocks: seq<Block>)
      requires Distinct(blocks)
      requires forall b :: b in blocks ==> b.prev == null && b.next == null
      modifies (set b | b in blocks)`prev, (set b | b in blocks)`next
      ensures Valid() && queue == blocks && pool == (set b | b in blocks)
      ensures fresh(head) && fresh(tail)
    {
      numFree := |blocks|;
      head := new Block(-1);
      tail := new Block(-2);
      queue := blocks;
      pool := set b | b in blocks;
      new;
      LinkInOrder(blocks);
      PlacesAreDistinct();
      label linked:
      if blocks != [] {
        head.next := blocks[0];
        blocks[0].prev := head;
        tail.prev := blocks[|blocks| - 1];
        blocks[|blocks| - 1].next := tail;
      } else {
        head.next := tail;
        tail.prev := head;
      }
      forall k | 0 < k < |blocks| ensures Linked(k) {
        assert old@linked(Adjacent(blocks, k - 1));
        assert At(k) == blocks[k - 1] && At(k + 1) == blocks[k];
      }
      assert Linked(0) && Linked(|blocks|);
    }

    /** Takes the least recently used free block. */
    method PopLeft() returns (r: Result<Block, ()>)
      requires Valid()
      modifies this, Nodes()`prev, Nodes()`next
      ensures Valid()
      ensures r.Err? <==> old(queue) == []
      ensures r.Err? ==> queue == old(queue)
      ensures r.Ok? ==> old(queue) == [r.value] + queue
    {
      assert Linked(0);
      if head.next == tail {
        assert queue == [] by { PlacesAreDistinct(); }
        return Err(());
      }
      PlacesAreDistinct();
      ghost var before := queue;
      var block: Block := head.next;
      assert block == At(1) && block in queue;
      assert Linked(1) && block.next == At(2);
      head.next := block.next;
      if block.next != null {
        block.next.prev := head;
      }
      block.prev := null;
      block.next := null;
      numFree := numFree - 1;
      queue := queue[1..];
      forall i | 0 < i <= |queue| ensures Linked(i) {
        assert old(Linked(i + 1));
      }
      r := Ok(block);
    }

    /** Takes a block out of the middle, when a cache hit revives it. */
    method Remove(block: Block) returns (removed: bool, ghost k: nat)
      requires Valid() && block in pool
      modifies this, Nodes()`prev, Nodes()`next
      ensures Valid()
      ensures removed <==> block in old(queue)
      ensures !removed ==> queue == old(queue)
      ensures removed ==>
        k < |old(queue)| && old(queue)[k] == block && queue == old(queue)[..k] + old(queue)[k + 1..]
    {
      k := 0;
      if block in queue {
        k :| k < |queue| && queue[k] == block;
        assert At(k + 1) == block && Linked(k) && Linked(k + 1);
      }
      if block.prev == null || block.next == null {
        return false, 0;
      }
      Unlink(block, k);
      removed := true;
    }

    method Unlink(block: Block, ghost k: nat)
      requires Valid() && k < |queue| && queue[k] == block
      modifies this, Nodes()`prev, Nodes()`next
      ensures Valid()
      ensures queue == old(queue)[..k] + old(queue)[k + 1..]
    {
      assert At(k + 1) == block && block in queue;
      assert block.prev == At(k) && block.next == At(k + 2) by { assert Linked(k) && Linked(k + 1); }
      PlacesAreDistinct();
      Bypass(block);
      forall i | 0 <= i <= |queue| && i != k && i != k + 1 ensures Linked(i) {
        assert old(Linked(i));
      }
      Forget(k);
    }

    /** Takes a bypassed block off the books. */
    method Forget(ghost k: nat)
      requires Placed() && k < |queue| && numFree == |queue|
      requires forall i :: 0 <= i <= |queue| && i != k && i != k + 1 ==> Linked(i)
      requires At(k) in Nodes() && At(k + 2) in Nodes() && queue[k] in Nodes()
      requires At(k).next == At(k + 2) && At(k + 2).prev == At(k)
      requires queue[k].prev == null && queue[k].next == null
      requires forall b :: b in pool && b !in queue ==> b.prev == null && b.next == null
      modifies this`numFree, this`queue
      ensures Valid()
      ensures queue == old(queue)[..k] + old(queue)[k + 1..]
    {
      WithoutOne(queue, k);
      forall i | 0 <= i < |queue| ensures JoinedWithout(k, i) {
        PlaceWithout(head, queue, tail, k, i);
        PlaceWithout(head, queue, tail, k, i + 1);
        assert i != k ==> Linked(if i < k then i else i + 1);
      }
      numFree, queue := numFree - 1, queue[..k] + queue[k + 1..];
      forall i | 0 <= i <= |queue| ensures Linked(i) {
        assert old(JoinedWithout(k, i));
      }
    }

    /** Neighbours `i` and `i + 1` of the queue without its block `k` point to each other. */
    ghost predicate JoinedWithout(k: nat, i: nat)
      reads `queue, Nodes()`prev, Nodes()`next
      requires k < |queue| && i < |queue| && Placed()
    {
      var rest := queue[..k] + queue[k + 1..];
      var a, b := Place(head, rest, tail, i), Place(head, rest, tail, i + 1);
      a in Nodes() && b in Nodes() && Joined(a, b)
    }

    /** Puts a block at the most recently used end. */
    method Append(block: Block)
      requires Valid() && block in pool && block !in queue
      modifies this, Nodes()`prev, Nodes()`next
      ensures Valid()
      ensures queue == old(queue) + [block]
    {
      assert Linked(|queue|);
      PlacesAreDistinct();
      var last := tail.prev;
      last.next := block;
      block.prev := last;
      block.next := tail;
      tail.prev := block;
      numFree := numFree + 1;
      queue := queue + [block];
      forall i | 0 <= i < |queue| - 1 ensures Linked(i) {
        assert old(Linked(i));
      }
      assert Linked(|queue| - 1) && Linked(|queue|);
    }

    /** As `Valid`, but the last link to the tail is not made yet. */
    ghost predicate OpenEnded()
      reads `queue, Nodes()`prev, Nodes()`next
    {
      && Placed()
      && (forall i :: 0 <= i < |queue| ==> Linked(i))
      && (forall b :: b in pool && b !in queue ==> b.prev == null && b.next == null)
    }

    method Extend(last: Block, block: Block)
      requires OpenEnded() && last == At(|queue|) && block in pool && block !in queue
      modifies this`queue, Nodes()`prev, Nodes()`next
      ensures OpenEnded() && queue == old(queue) + [block]
    {
      PlacesAreDistinct();
      assert last in Nodes() by { assert queue != [] ==> last in queue; }
      block.prev := last;
      last.next := block;
      queue := queue + [block];
      forall i | 0 <= i < |queue| - 1 ensures Linked(i) {
        assert old(Linked(i));
      }
      assert Linked(|queue| - 1);
    }

    method Close(last: Block)
      requires OpenEnded() && last == At(|queue|)
      modifies Nodes()`prev, Nodes()`next
      ensures forall i :: 0 <= i <= |queue| ==> Linked(i)
      ensures forall b :: b in pool && b !in queue ==> b.prev == null && b.next == null
    {
      assert queue != [] ==> last in queue;
      PlacesAreDistinct();
      last.next := tail;
      tail.prev := last;
      forall i | 0 <= i < |queue| ensures Linked(i) {
        assert old(Linked(i));
      }
      assert Linked(|queue|);
    }

    /** Puts blocks at the most recently used end, in their order. */
    method AppendN(blocks: seq<Block>)
      requires Valid() && Distinct(blocks)
      requires forall b :: b in blocks ==> b in pool && b !in queue
      modifies this, Nodes()`prev, Nodes()`next
      ensures Valid()
      ensures queue == old(queue) + blocks
    {
      if blocks == [] {
        return;
      }
      assert Linked(|queue|);
      var last: Block := tail.prev;
      for i := 0 to |blocks|
        invariant OpenEnded() && queue == old(queue) + blocks[..i]
        invariant last == At(|queue|) && numFree == old(numFree)
      {
        assert blocks[i] in blocks && blocks[i] !in blocks[..i];
        Extend(last, blocks[i]);
        last := blocks[i];
      }
      assert blocks[..|blocks|] == blocks;
      Close(last);
      numFree := numFree + |blocks|;
    }

    /** Walking the links from the head finds exactly the counted blocks, in order. */
    method GetAllFreeBlocks() returns (result: seq<Block>)
      requires Valid()
      ensures result == queue && |result| == numFree
    {
      result := [];
      assert Linked(0);
      var curr := head.next;
      while curr != null && curr != tail
        invariant Valid() && |result| <= |queue| && result == queue[..|result|]
        invariant curr == At(|result| + 1)
        decreases |queue| - |result|
      {
        PlacesAreDistinct();
        assert Linked(|result| + 1);
        result := result + [curr];
        curr := curr.next;
      }
      assert |result| == |queue| by { PlacesAreDistinct(); }
    }
  }
}
