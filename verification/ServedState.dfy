/**
 The block index and the chain of identities together: what a request is given was computed
 from the request's own tokens and discriminators, whatever happened to the cache.
 */
module ServedState {
  import opened Common
  import opened BlockPool
  import opened Json
  import opened CacheKey
  import opened BlockChain
  import opened ContentIndex
  import FreeQueue
  import PagedCache

  /** A payload, with the tokens and the discriminators that it was computed from. */
  datatype State = State(tokens: seq<int>, extra: Value)

  function StateOf(r: Request, numerals: Numerals, end: nat): State
    requires end <= |r.tokens|
  {
    State(r.tokens[..end], Resolve(r.extra, numerals, end))
  }

  /** Some request computed the state for the block with this identity. */
  ghost predicate Computed(id: Chain, state: State, block: nat, numerals: Numerals)
    requires block > 0
  {
    exists r: Request, end: nat :: 0 < end <= |r.tokens|
      && id == PrefixId(r, block, numerals, end) && state == StateOf(r, numerals, end)
  }

  ghost predicate AllComputed(written: set<(Chain, State)>, block: nat, numerals: Numerals)
    requires block > 0
  {
    forall id, state :: (id, state) in written ==> Computed(id, state, block, numerals)
  }

  /** What requests publish, they computed. */
  ghost predicate Honest<B>(changes: seq<Change<B, Chain, State>>, block: nat, numerals: Numerals)
    requires block > 0
  {
    forall i :: 0 <= i < |changes| && changes[i].Publish? && changes[i].payload.Some? ==>
      Computed(changes[i].id, changes[i].payload.value, block, numerals)
  }

  /** The identity determines the state: two requests with the same block computed the same. */
  lemma IdentityDeterminesState(id: Chain, state: State, r: Request, block: nat, numerals: Numerals, end: nat)
    requires block > 0 && 0 < end <= |r.tokens|
    requires id == PrefixId(r, block, numerals, end) && Computed(id, state, block, numerals)
    ensures state == StateOf(r, numerals, end)
  {
    var h: Request, e: nat :| 0 < e <= |h.tokens|
      && id == PrefixId(h, block, numerals, e) && state == StateOf(h, numerals, e);
    SpanIsEnd(r, block, numerals, end);
    SpanIsEnd(h, block, numerals, e);
    PrefixIdentity(h, r, block, numerals, end);
    assert h.tokens[..end] == r.tokens[..end];
  }

  lemma {:induction false} RunsStayComputed<B>(
    states: seq<Cache<B, Chain, State>>, changes: seq<Change<B, Chain, State>>, block: nat,
    numerals: Numerals)
    requires block > 0 && IsRun(states, changes) && Honest(changes, block, numerals)
    requires Coherent(states[0]) && AllComputed(states[0].written, block, numerals)
    ensures AllComputed(states[|changes|].written, block, numerals)
    decreases |changes|
  {
    if changes != [] {
      var n := |changes| - 1;
      RunsStayComputed(states[..n + 1], changes[..n], block, numerals);
      CoherentAt(states, changes, n);
      assert states[..n + 1][n] == states[n] && states[..n + 1][0] == states[0];
      ChangeWrites(states[n], changes[n]);
    }
  }

  lemma ChangeWrites<B>(c: Cache<B, Chain, State>, change: Change<B, Chain, State>)
    requires Coherent(c) && Allowed(c, change)
    ensures Changed(c, change).written ==
      c.written
      + if change.Publish? && change.payload.Some? then {(change.id, change.payload.value)} else {}
  {
    RecycledAll(c, Discarded(c, change));
  }

  /**
   The lookup of a request finds a block for every identity at which it stops, and whatever
   payload the block carries is the state after the request's own tokens and discriminators.
   */
  lemma LookupServesTheRequestsState<B>(
    c: Cache<B, Chain, State>, r: Request, block: nat, numerals: Numerals, sizes: set<nat>,
    start: nat, tail: nat, end: nat)
    requires block > 0 && Coherent(c) && AllComputed(c.written, block, numerals)
    requires StopsAt(r, c.index.Keys, block, numerals, sizes, start, tail)
    requires Returned(block, start, tail, end)
    ensures end <= |r.tokens|
    ensures forall b :: b in At(c.index, PrefixId(r, block, numerals, end)) ==> b in c.pool.refs
    ensures var (found, after) := Lookup(c, PrefixId(r, block, numerals, end));
      && found.Some? && after.pool.refs[found.value] > 0
      && (found.value in after.payloads ==>
            after.payloads[found.value] == StateOf(r, numerals, end))
  {
    var id := PrefixId(r, block, numerals, end);
    assert id in c.index.Keys;
    LookupServesWhatWasStored(c, id);
    var (found, after) := Lookup(c, id);
    if found.value in after.payloads {
      IdentityDeterminesState(id, after.payloads[found.value], r, block, numerals, end);
    }
  }

  /** The engine's cache: a request that looks its block up is given its own state, or none. */
  method Serve(
    cache: PagedCache.PagedCache<Chain, State>, r: Request, block: nat, numerals: Numerals,
    ghost end: nat, id: Chain)
    returns (found: Option<FreeQueue.Block>, state: Option<State>)
    requires cache.Valid() && block > 0 && AllComputed(cache.State().written, block, numerals)
    requires 0 < end <= |r.tokens| && id == PrefixId(r, block, numerals, end)
    modifies cache.manager, cache.manager.free, cache.manager.free.Nodes()
    ensures cache.Valid() && AllComputed(cache.State().written, block, numerals)
    ensures found.Some? <==> id in cache.State().index
    ensures found.Some? ==> found.value in cache.State().pool.refs
    ensures found.Some? ==> cache.State().pool.refs[found.value] > 0
    ensures found == ContentIndex.Lookup(old(cache.State()), id).0
    ensures state.Some? <==> found.Some? && found.value in old(cache.State()).payloads
    ensures state.Some? ==>
      state.value == old(cache.State()).payloads[found.value] == StateOf(r, numerals, end)
  {
    LookupServesWhatWasStored(cache.State(), id);
    found := cache.Find(id);
    state := None;
    if found.Some? && found.value in cache.contents.payloads {
      state := Some(cache.contents.payloads[found.value]);
      IdentityDeterminesState(id, state.value, r, block, numerals, end);
    }
  }

  /**
   Over any run of the cache: once a request was given the block of its identity, and until the
   block is released or invalidated, whatever payload it carries is the request's own state.
   */
  lemma ServedStateStaysTheRequests<B>(
    states: seq<Cache<B, Chain, State>>, changes: seq<Change<B, Chain, State>>, k: nat, b: B,
    r: Request, block: nat, numerals: Numerals, end: nat)
    requires block > 0 && 0 < end <= |r.tokens|
    requires IsRun(states, changes) && Honest(changes, block, numerals)
    requires Coherent(states[0]) && AllComputed(states[0].written, block, numerals)
    requires k < |changes| && changes[k] == Share([b])
    requires var blocks := At(states[k].index, PrefixId(r, block, numerals, end));
      blocks != [] && blocks[|blocks| - 1] == b
    requires HeldThroughout(changes[k + 1..], b)
    ensures var last := states[|changes|];
      && b in last.pool.refs && last.pool.refs[b] > 0
      && (b in last.payloads ==> last.payloads[b] == StateOf(r, numerals, end))
  {
    var id := PrefixId(r, block, numerals, end);
    ServedAt(states, changes, k, b, id);
    var rest := states[k + 1..];
    assert rest[0] == states[k + 1] && rest[|changes| - k - 1] == states[|changes|];
    ServedBlocksStayJustified(rest, changes[k + 1..], b);
    RunsStayComputed(states, changes, block, numerals);
    var last := states[|changes|];
    if b in last.payloads {
      IdentityDeterminesState(id, last.payloads[b], r, block, numerals, end);
    }
  }

  /**
   What one request computed and published reaches every request with the same identity: until
   the block loses it or its hash is retired or published again, a lookup finds the block, and
   it carries the other request's own state.
   */
  lemma PublishedStateIsServed<B>(
    states: seq<Cache<B, Chain, State>>, changes: seq<Change<B, Chain, State>>, b: B,
    h: Request, e: nat, r: Request, end: nat, block: nat, numerals: Numerals)
    requires block > 0 && 0 < e <= |h.tokens| && 0 < end <= |r.tokens|
    requires PrefixId(h, block, numerals, e) == PrefixId(r, block, numerals, end)
    requires IsRun(states, changes) && Coherent(states[0]) && KeptThroughout(states, changes, b)
    requires changes != []
      && changes[0] == Publish(b, PrefixId(h, block, numerals, e), Some(StateOf(h, numerals, e)))
    requires Retire(PrefixId(r, block, numerals, end)) !in changes
      && !PublishesUnder(changes[1..], PrefixId(r, block, numerals, end))
    ensures var last, id := states[|changes|], PrefixId(r, block, numerals, end);
      && (forall x :: x in At(last.index, id) ==> x in last.pool.refs)
      && Lookup(last, id).0 == Some(b)
      && b in last.payloads && last.payloads[b] == StateOf(r, numerals, end)
  {
    var id, state := PrefixId(r, block, numerals, end), StateOf(h, numerals, e);
    PublishedPayloadIsServed(states, changes, b, id, state);
    assert Computed(id, state, block, numerals);
    IdentityDeterminesState(id, state, r, block, numerals, end);
  }

  /** A block is served in the step that shares it after it was found. */
  lemma ServedAt<B, Id, P>(
    states: seq<Cache<B, Id, P>>, changes: seq<Change<B, Id, P>>, k: nat, b: B, id: Id)
    requires IsRun(states, changes) && Coherent(states[0])
    requires k < |changes| && changes[k] == Share([b])
    requires var blocks := At(states[k].index, id); blocks != [] && blocks[|blocks| - 1] == b
    ensures var after := states[k + 1];
      && Coherent(after) && b in after.pool.refs && after.pool.refs[b] > 0
      && b in after.hashes && after.hashes[b] == id
  {
    CoherentAt(states, changes, k);
    LookupServesWhatWasStored(states[k], id);
  }
}
