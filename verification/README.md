# A model of the vMLX engine's cache identity and of its benchmark harnesses

vMLX is a local inference server. Its prefix cache reuses the state of earlier prompts, its
speculative decoder accepts drafted tokens, and its harnesses judge both. This project models the
logic behind those claims in Dafny and proves what it promises for all inputs and all runs:

- **Cache identity** (`CacheKey`, `Json`, `JsonText`, `BlockChain`): a discriminator such as image
  bytes enters the chain of block identities only from its boundary token on, equal canonical
  markers are exactly equal discriminators, and a lookup of the block index restores the longest
  prefix, terminal partial blocks included, that ends with a block of a stored request.
- **The block pool** (`FreeQueue`, `BlockPool`, `PagedCacheManager`): the intrusive doubly linked
  free list, the reference counts over it, and the manager whose methods move blocks between them.
- **What blocks carry** (`ContentIndex`, `PagedCache`, `ServedState`): the map from hashes to blocks
  and the payloads, together with the pool, and joined with the chain of identities: whatever
  happens to the cache, a request is never given another request's state.
- **The prefix-reuse oracle and the connected scenario** (`PrefixReuse`, `StreamAssembly`, `Wires`,
  `Scenario`, `ScenarioProperties`, `ScenarioVerdicts`): how many tokens an earlier render lets the
  engine restore, how streamed deltas become a message, what every run of the turn loop keeps,
  whatever the server answers, and exactly when a run passes.
- **Speculative drafts** (`Speculative`): the acceptance counter is agreement with greedy decoding.
- **Prompt sizing** (`Filler`, `PromptSizing`, `ExactFit`): words that never repeat, bracketing and
  bisection with a memo table, and padding to an exact token count.
- **Judging runs** (`StreamChecker`, `ReplayProbe`, `RestoreProbe`, `MtpLog`, `DepthSelection`): a
  one-pass stream checker, two replay probes, a log folder and a depth selection.
- **Attestations** (`Attestation`, `Acceleration`): merging runtime facts on a model object and
  reporting them without ever calling a request an installation.

The outside world is a parameter: a server is a function of what was sent, a tokenizer a function
from text to a count, a chat template a function from messages to tokens, a target model a
deterministic function of the token history. Block hashes are an injective pairing of parent,
tokens and discriminators. Where the source updates something in place (a list of messages, a memo
table, a linked list, an attested model) the model is a class or a method with loops, proved against
a function; where it computes with expressions, the model is a function.

What the proofs brought to light, besides confirming the design:

- No cache finding can fail a scenario. Renders are always graded as unconfirmed, so
  `VerdictIgnoresCaching` shows that servers differing only in the cached widths they report lead to
  the same verdict, although the module's documentation speaks of renders the server confirms.
- The two wire dialects agree message for message exactly when every assistant turn was text alone
  or one call alone (`ProjectionIsFaithfulIffAligned`).
- A depth is selected as "output-equivalent" without any verification exactly when no comparison
  carries a label (`CandidatesAreVerifiedIffAnythingWasCompared`); one depth and no comparison is
  such an input (`UnverifiedDepthIsSelected`).
- A payload may disappear from a block that a request still holds, because another request's
  reconstruction drops it or its write to disk fails. What a request can rely on is that a payload
  it does find is its own (`UsedBlocksMayLoseTheirPayload`, `ServedStateStaysTheRequests`).
- The map from hashes to blocks prefers the block inserted last, by its own comment. The bare map
  does so only for blocks that are new to it or last already; in the cache a block is published only
  while it has no hash, so that the comment holds (`PublishedIsFound`).
- The engine's second lookup, one token shorter, restores more in exactly one case: the request was
  stored without its last token, and the length of its last block is not among those known
  (`SecondLookupWinsIffLengthUnknown`).
- The restart probe and the same-process probe disagree exactly on runs that have a cached width but
  no evidence beyond it (`RestartIsStricter`). The restart probe's documentation counts cached widths
  as further evidence; its code does not, and the model follows the code.
- Touching the placeholder block is never undone by a release, so a touch and its release restore the
  counts exactly when the placeholder is not among the blocks (`TouchThenRelease`).
- Bisection keeps its bracket for any tokenizer; only being the largest fit needs a monotone one.

## Model

| member | source | states |
|---|---|---|
| CacheKey.ScopeCacheExtraKey | vmlx_engine/cache_key.py:20-36 | the returned dict holds the clamped boundary of the key beside every boundary and entry that was there; a missing input gives an empty dict, any other value is kept under `request` |
| CacheKey.BoundariesAreRead | vmlx_engine/cache_key.py:62-73 | a boundary that is missing or null scopes nothing, a number, boolean or numeral counts from zero up, and anything else is malformed |
| CacheKey.RangesSeeWhatTheyPassed | vmlx_engine/cache_key.py:39-81 | a range sees exactly the entries whose boundary is missing, malformed or before its end, beside exactly the boundaries it has passed, or nothing if none is left |
| CacheKey.ScopingCommutes | vmlx_engine/cache_key.py:20-36 | scoping two different keys gives the same dict in either order |
| CacheKey.LastScopeWins | vmlx_engine/cache_key.py:20-36 | scoping a key again is as if it had only been scoped the second time |
| CacheKey.CacheExtraKeysForTokenRange | vmlx_engine/cache_key.py:39-81 | visiting the dict in any order gives the same result, which depends on the range only through its end |
| CacheKey.AssembleIsInjective | vmlx_engine/cache_key.py:76-81 | resolved discriminators are equal exactly when the same keys are in force and the same boundaries were passed |
| CacheKey.ResolvingTwice | vmlx_engine/cache_key.py:39-81 | resolving at one end and then at another is resolving once at the smaller end |
| CacheKey.LongerRangesKeepKeys | vmlx_engine/cache_key.py:39-81 | a longer range keeps every key, value and boundary in force for a shorter one |
| CacheKey.ValueIsHiddenBeforeItsBoundary | vmlx_engine/cache_key.py:39-81 | two values of one key resolve alike exactly on ranges that end at or before its boundary, and nowhere if it is unscoped or its boundary is malformed |
| CacheKey.BoundariesAreHiddenBeforeTheFirst | vmlx_engine/cache_key.py:39-81 | two boundaries of one key resolve alike exactly on ranges that end at or before the smaller one |
| CacheKey.MarkersDecideEquality | vmlx_engine/cache_key.py:84-96 | two discriminators have the same marker exactly when they are equal, whatever the insertion order of their keys; a missing one alone has none |
| Json.OrderIsByCodePoint | vmlx_engine/cache_key.py:92-96 | keys are ordered by the code point where they first differ, a prefix first |
| Json.SortSorts | vmlx_engine/cache_key.py:92-96 | sorting entries yields ascending keys and keeps the keys, the entries and the value they mean |
| Json.SortKeysIsCanonical | vmlx_engine/cache_key.py:92-96 | the sorted form is sorted at every depth and means the same value |
| Json.CanonicalIsUnique | vmlx_engine/cache_key.py:92-96 | a value has one sorted form only |
| Json.SortedFormDecidesEquality | vmlx_engine/cache_key.py:92-96 | values are equal up to key order exactly when their sorted forms are identical |
| JsonText.EscapeRoundTrip | vmlx_engine/cache_key.py:92-96 | every character survives ASCII escaping and reading back, two-unit escapes included (section 7 of RFC 8259) |
| JsonText.StringRoundTrip | vmlx_engine/cache_key.py:92-96 | every string survives, whatever text follows it (section 7 of RFC 8259) |
| JsonText.ValueRoundTrip | vmlx_engine/cache_key.py:92-96 | every nested value survives, whatever text follows it that does not prolong a number (sections 3 to 6 of RFC 8259) |
| JsonText.ParseInvertsPrint | vmlx_engine/cache_key.py:92-96 | the compact text determines the value, entry order included |
| JsonText.TextIsPlain | vmlx_engine/cache_key.py:92-96 | whatever the value, its text is printable ASCII |
| JsonText.TextIsCompact | vmlx_engine/cache_key.py:92-96 | items are separated by a comma alone, and a key from its value by a colon alone |
| BlockChain.IdentityIsPrefixAndDiscriminators | vmlx_engine/paged_cache.py:114-215 | two requests give a block the same chain identity exactly when they agree on all tokens through its end and on the discriminators in force there |
| BlockChain.AgreementReachesBack | vmlx_engine/cache_key.py:39-81 | requests whose discriminators agree at an end agree at every earlier end |
| BlockChain.ValueSplitsTheChainAtItsBoundary | vmlx_engine/cache_key.py:39-81 | for any partition into blocks, two values of one scoped key share exactly the blocks that end at or before its boundary, and none if it is unscoped or malformed |
| BlockChain.ScopedMediaShareTheTextBeforeThem | vmlx_engine/cache_key.py:20-81 | the same for discriminators scoped by the library's own call: the text before the media is shared, nothing after it |
| BlockChain.BoundariesSplitTheChainAtTheFirst | vmlx_engine/cache_key.py:39-81 | two boundaries of one key share exactly the blocks that end at or before the smaller one |
| BlockChain.PrefixIdentity | vmlx_engine/paged_cache.py:114-215 | with blocks of one size from the start and a shorter one at the end, the identities at an end agree exactly when the tokens through it and the discriminators in force there do |
| BlockChain.StoredIffShared | vmlx_engine/paged_cache.py:1730-1792 | a block of a request is indexed exactly when some stored request has a block ending there and the same tokens and discriminators through it |
| BlockChain.NextBlock | vmlx_engine/paged_cache.py:1755-1785 | an identity computed from its parent's is the identity of the block in the whole chain, full or not |
| BlockChain.BlockCache.Store | vmlx_engine/prefix_cache.py:5351-5376 | storing a request indexes exactly its full blocks and the shorter one at its end, and adds exactly that one's length to those known |
| BlockChain.BlockCache.Evict | vmlx_engine/paged_cache.py:1124-1164 | any block may leave the index, and whatever is left was stored |
| BlockChain.BlockCache.TryPartials | vmlx_engine/paged_cache.py:1890-1945 | trying the known lengths from the largest down finds the largest whose block is indexed, or none |
| BlockChain.BlockCache.GetComputedBlocks | vmlx_engine/paged_cache.py:1794-2021 | a lookup returns the leading indexed full blocks and, behind the first that is missing or the last, the longest shorter block among those tried; if all lengths are known, the longest that is indexed |
| BlockChain.ServedBlocksAreJustified | vmlx_engine/paged_cache.py:1794-2021 | whatever was evicted, each block a lookup returns, full or not, was stored by a request with the same tokens and discriminators through it |
| BlockChain.LookupFindsTheLongestStoredPrefix | vmlx_engine/paged_cache.py:1794-2021 | with nothing evicted the lookup restores exactly the longest prefix of the request that ends with a block shared with a stored request |
| BlockChain.ShorterLookupNeverWins | vmlx_engine/prefix_cache.py:3388-3430 | evictions or not, the second lookup without the last token restores no more than the first while the lengths of all shorter blocks are known |
| BlockChain.SecondLookupWinsIffLengthUnknown | vmlx_engine/prefix_cache.py:3392-3430 | whatever is indexed and whichever lengths are known, the second lookup restores more exactly if the request was stored without its last token and the length of its last block is unknown, and then it restores all but the last token |
| BlockChain.RestartNeedsTheSecondLookup | vmlx_engine/paged_cache.py:866-884 | a request stored without its last token is such a case for any known lengths that do not include its last block's |
| BlockChain.OracleCountsSharedBlocks | bench/api_agentic_scenarios.py:542-544 | the oracle's block count is the number of full blocks whose identities two plain requests share |
| BlockChain.OraclePredictsTheLookup | bench/api_agentic_scenarios.py:517-568 | for every history and current render, continued or diverging, the best extent of the oracle is exactly what the engine's lookup restores once the earlier renders are stored without their last tokens |
| BlockChain.RestoredTokens | bench/api_agentic_scenarios.py:551-568 | the same of the engine's methods: storing the renders one after the other and looking up the current one restores the oracle's best extent |
| FreeQueue.FreeBlockQueue.constructor | vmlx_engine/paged_cache.py:422-449 | the blocks become a list that is linked consistently in both directions, in their order |
| FreeQueue.FreeBlockQueue.PopLeft | vmlx_engine/paged_cache.py:451-473 | takes the least recently used block, or fails exactly on an empty queue |
| FreeQueue.FreeBlockQueue.Remove | vmlx_engine/paged_cache.py:515-536 | succeeds exactly for a queued block and takes out that one place, the rest in order |
| FreeQueue.FreeBlockQueue.Append | vmlx_engine/paged_cache.py:538-553 | the block becomes the most recently used one |
| FreeQueue.FreeBlockQueue.AppendN | vmlx_engine/paged_cache.py:555-576 | the blocks become the most recently used ones, in order |
| FreeQueue.FreeBlockQueue.GetAllFreeBlocks | vmlx_engine/paged_cache.py:578-585 | walking the links reaches exactly the queued blocks, as many as the counter says |
| BlockPool.TakeCuts | vmlx_engine/paged_cache.py:908-943 | scanning takes every recyclable block before some cut of the queue and leaves what is behind the cut, then what was passed over |
| BlockPool.TakesTheLeastRecentlyUsed | vmlx_engine/paged_cache.py:908-943 | the blocks taken are the least recently used recyclable ones in order, as many as asked for or as there are, and no block is lost |
| BlockPool.AllocationIsFresh | vmlx_engine/paged_cache.py:945-1013 | allocation gives out only unreferenced blocks, each once, never the placeholder or a pending one, and changes no other count; a failed one changes none |
| BlockPool.AllocationTurnsTheQueue | vmlx_engine/paged_cache.py:945-1013 | the queue is scanned up to the last block taken, and what was passed over goes to the end; if there are too few, all that were found follow it, free again |
| BlockPool.TouchAllKeepsSound | vmlx_engine/paged_cache.py:1647-1669 | after touching any blocks, in use or free, a block is queued exactly when it has no reference |
| BlockPool.ReleaseAllKeepsSound | vmlx_engine/paged_cache.py:1613-1645 | the same after releasing any blocks, repeated or unreferenced ones included |
| BlockPool.TouchesAddUp | vmlx_engine/paged_cache.py:1647-1669 | a block gains one reference for every time it is touched |
| BlockPool.ReleasesAddUp | vmlx_engine/paged_cache.py:1613-1645 | a block loses one reference for every release, never below zero; the placeholder loses none |
| BlockPool.ReleasesInTurn | vmlx_engine/paged_cache.py:1613-1645 | releasing two lists is releasing one after the other |
| BlockPool.ReleasedLast | vmlx_engine/paged_cache.py:1558-1611 | the last reference, and no other, puts a block at the end of the queue |
| BlockPool.TouchThenRelease | vmlx_engine/paged_cache.py:1613-1669 | releasing what was touched restores all counts exactly when the placeholder is not among it, and untouched free blocks keep their order and stay first |
| BlockPool.BlocksAreConserved | vmlx_engine/paged_cache.py:735-755 | free blocks and blocks in use add up to the pool |
| BlockPool.StepKeepsSound | vmlx_engine/paged_cache.py:945-1013 | every operation keeps the pool sound and its set of blocks unchanged |
| BlockPool.KeptUntilReleased | vmlx_engine/paged_cache.py:908-1013 | over any run, a referenced block that nobody releases keeps its references, gains one per touch, and is never handed out again |
| PagedCacheManager.PagedCacheManager.constructor | vmlx_engine/paged_cache.py:840-884 | all blocks but the reserved first one start free, in order |
| PagedCacheManager.PagedCacheManager.Touch | vmlx_engine/paged_cache.py:1647-1669 | refines touching on the abstract pool, with the links, the table and the statistics consistent |
| PagedCacheManager.PagedCacheManager.IncrementRef | vmlx_engine/paged_cache.py:1675-1699 | a known number is touched once, an unknown one changes nothing |
| PagedCacheManager.PagedCacheManager.FreeBlock | vmlx_engine/paged_cache.py:1558-1611 | releases one reference; reports a free exactly for the last reference of a known block, which it forgets; never frees twice |
| PagedCacheManager.PagedCacheManager.FreeBlocks | vmlx_engine/paged_cache.py:1613-1645 | a batch, queued once at the end, leaves the same pool as releasing one block after the other, and forgets exactly the blocks that became free |
| PagedCacheManager.PagedCacheManager.ReleaseRequestRefs | vmlx_engine/paged_cache.py:2201-2264 | releases the known blocks of a request one after the other and reports how many became free |
| PagedCacheManager.FoundInTurn | vmlx_engine/paged_cache.py:2216-2236 | the numbers of a request are looked up one after the other, and unknown ones passed over |
| PagedCacheManager.PagedCacheManager.PopRecyclable | vmlx_engine/paged_cache.py:908-943 | one scan finds the first recyclable block and rotates what it passed; with none the queue is as before |
| PagedCacheManager.PagedCacheManager.AllocateBlock | vmlx_engine/paged_cache.py:945-972 | allocates the least recently used recyclable block, or nothing |
| PagedCacheManager.PagedCacheManager.GetNewBlocks | vmlx_engine/paged_cache.py:974-1013 | allocates the least recently used recyclable blocks or fails as a whole, with every block still free, and names those visited |
| PagedCacheManager.PagedCacheManager.EvictLruBlocks | vmlx_engine/paged_cache.py:2414-2440 | the blocks visited, the least recently used ones, go behind all others in their order, no count changes, and those that could be evicted are named |
| ContentIndex.BlockHashToBlockMap.GetBlock | vmlx_engine/paged_cache.py:606-625 | finds a block exactly when one is registered under the hash, and of several the last in order of first insertion |
| ContentIndex.BlockHashToBlockMap.Insert | vmlx_engine/paged_cache.py:627-638 | adds the block to its hash, keeping the place of one that is there already |
| ContentIndex.BlockHashToBlockMap.Pop | vmlx_engine/paged_cache.py:640-654 | takes out this block alone, the others in order, and reports whether it was there |
| ContentIndex.BlockHashToBlockMap.PopAll | vmlx_engine/paged_cache.py:656-670 | takes out and returns every block of the hash, in order |
| ContentIndex.LastInsertedIsFoundIffNewOrLast | vmlx_engine/paged_cache.py:606-638 | in the bare map, the block inserted last is found exactly when it was not registered before or was the last one already |
| ContentIndex.PublishedIsFound | vmlx_engine/paged_cache.py:606-625 | in the cache, a block that was just published is the one found under its hash, whatever else is registered there |
| ContentIndex.ChangeKeepsCoherent | vmlx_engine/paged_cache.py:904-943 | no step (sharing, releasing, handing out, evicting, reclaiming, publishing, copying, retiring, dropping and reading payloads, invalidating) breaks this: a block is found only under its own hash, and a payload it carries was stored under that hash |
| ContentIndex.LookupServesWhatWasStored | vmlx_engine/paged_cache.py:1840-1851 | a lookup returns a block of exactly this hash, whose payload, if it carries one, was stored under this hash, and leaves it referenced and out of the free queue |
| ContentIndex.HandedBlocksAreClean | vmlx_engine/paged_cache.py:908-943 | blocks handed out carry no hash, no entry in the map and no payload, whatever they carried before, so publishing one without a payload serves nobody else's |
| ContentIndex.DiscardedAreFree | vmlx_engine/paged_cache.py:1124-1164 | a block that loses all it carries has no reference, unless it is invalidated |
| ContentIndex.DiscardedExactly | vmlx_engine/paged_cache.py:908-943 | a block loses what it carries exactly if it is among the first to be handed out, is hashed and durable and visited by an eviction, or is reclaimed or invalidated |
| ContentIndex.WhatAStepLeaves | vmlx_engine/paged_cache.py:904-1241 | for every step, block and hash: which payload and which hash the block has afterwards, whether it is found under the hash, and that those found keep their order while one just published comes last |
| ContentIndex.WhatAStepCounts | vmlx_engine/paged_cache.py:945-1013 | for every step and block: its references afterwards, all blocks asked for or none being handed out, and what was stored |
| ContentIndex.UsedBlocksKeepTheirContents | vmlx_engine/paged_cache.py:1188-1241 | a hashed block in use keeps its hash exactly if it is not invalidated, stays in use unless a release names it, and keeps what it carries exactly if its payload is neither dropped nor replaced nor invalidated |
| ContentIndex.UsedBlocksMayLoseTheirPayload | vmlx_engine/prefix_cache.py:8503-8529 | the payload of a block in use may be dropped: a cache in which one step does |
| ContentIndex.RunsStayCoherent | vmlx_engine/paged_cache.py:904-943 | the same after every run of steps |
| ContentIndex.PayloadsStay | vmlx_engine/paged_cache.py:1124-1241 | over any run in which it is not handed out, evicted, reclaimed, invalidated, unloaded or loaded, a block keeps its payload and its hash; it stays found while the hash is not retired, and found first while nothing else is published under it |
| ContentIndex.PublishedPayloadIsServed | vmlx_engine/paged_cache.py:1755-1851 | until then, a lookup of the hash finds the block that was published, carrying exactly the payload that it was published with |
| ContentIndex.ServedBlocksStayJustified | vmlx_engine/paged_cache.py:1840-1851 | from a lookup on, over any run in which nobody releases or invalidates the block, it keeps its hash and its references, and whatever payload it carries later was stored under the hash that was asked for; it is the same one unless it is dropped or read from disk in between |
| PagedCache.PagedCache.Find | vmlx_engine/paged_cache.py:1840-1851 | the lookup of the map and the touch of what it found are one lookup of the whole cache |
| PagedCache.PagedCache.GetNewBlocks | vmlx_engine/paged_cache.py:974-1013 | handing out many blocks, refined with links, counts, map and payloads: all or none, and what was visited on the way lost what it carried |
| PagedCache.PagedCache.AllocateBlock | vmlx_engine/paged_cache.py:945-972 | handing out one block, which lost its hash, its entry in the map and its payload |
| PagedCache.PagedCache.PromoteFromDisk | vmlx_engine/paged_cache.py:2029-2110 | unless every free block is fenced, a block handed out carries exactly the payload from disk under its hash and is the one found there, while every other block carries what it did; otherwise nothing changes for any block |
| PagedCache.PagedCache.EvictLruBlocks | vmlx_engine/paged_cache.py:2414-2440 | the least recently used free blocks go behind all others in their order, and those with a hash whose payload is durable lose what they carry |
| PagedCache.PagedCache.Publish | vmlx_engine/paged_cache.py:1780-1785 | the block carries exactly its payload, or none, under its hash and is the one found there, while every other block carries what it did |
| PagedCache.PagedCache.Retire | vmlx_engine/paged_cache.py:656-670 | a hash is no longer found, and the blocks keep what they carry |
| PagedCache.PagedCache.ReleaseResidentPayload | vmlx_engine/paged_cache.py:1188-1198 | a payload is dropped, whoever uses the block |
| PagedCache.PagedCache.Rehydrate | vmlx_engine/prefix_cache.py:7095-7143 | a block in use gets the payload back that is on disk under its hash |
| PagedCache.PagedCache.DiscardNondurable | vmlx_engine/paged_cache.py:1200-1241 | a block that still has the hash named loses everything, whoever uses it; another is left alone |
| PagedCache.PagedCache.ReleaseRequestRefs | vmlx_engine/paged_cache.py:2201-2252 | releases one after the other, and the last reference takes a payload that was read for the request only with it, but not the hash |
| PagedCache.WhatAReleaseLeaves | vmlx_engine/paged_cache.py:2201-2252 | a release takes a payload exactly if it was read for the request only and the last reference went; hashes and the map stay |
| PagedCache.PagedCache.FreeBlock | vmlx_engine/paged_cache.py:1558-1611 | the same for one block |
| PagedCache.PagedCache.FreeBlocks | vmlx_engine/paged_cache.py:1613-1645 | the same for a batch |
| ServedState.IdentityDeterminesState | vmlx_engine/paged_cache.py:114-215 | what was computed for an identity is determined by it: the state after these tokens and discriminators |
| ServedState.LookupServesTheRequestsState | vmlx_engine/paged_cache.py:1794-2021 | for every identity at which a request's lookup stops a block is found, and whatever payload it carries is the state after the request's own tokens and discriminators |
| ServedState.RunsStayComputed | vmlx_engine/paged_cache.py:904-943 | if requests publish only what they computed, then after every run all that was stored is what its identity says |
| ServedState.ServedStateStaysTheRequests | vmlx_engine/paged_cache.py:1840-1851 | over any run, once a request was given the block of its identity and until that is released or invalidated, whatever payload it carries is the request's own state |
| ServedState.PublishedStateIsServed | vmlx_engine/paged_cache.py:1755-1851 | over any run, what one request computed and published reaches another with the same identity as that one's own state, until the block loses it or its hash is retired or published again |
| ServedState.Serve | vmlx_engine/paged_cache.py:1840-1851 | the same of the cache's methods: a request that looks a block up is given its own state exactly if the block found carries a payload, and nothing otherwise |
| PrefixReuse.TokenizedLcp | bench/api_agentic_scenarios.py:509-514 | the result is the largest length on which both renders agree |
| PrefixReuse.LcpDecidesAgreement | bench/api_agentic_scenarios.py:509-514 | renders agree on exactly the lengths up to their common prefix |
| PrefixReuse.LcpInBlocks | bench/api_agentic_scenarios.py:542-544 | dividing the common prefix by the block size counts the leading whole blocks that agree |
| PrefixReuse.ClassifyIsSound | bench/api_agentic_scenarios.py:517-548 | a candidate's extent is agreed by both renders; it is the N-1 extent exactly when they agree that far, and otherwise block size times the agreeing blocks, with no match exactly if that is zero |
| PrefixReuse.CandidatesAreDescribed | bench/api_agentic_scenarios.py:517-548 | a candidate notes exactly how far the renders agree, and its own length |
| PrefixReuse.BestCacheMatch | bench/api_agentic_scenarios.py:551-568 | the loop returns the match that the history determines (see the rows below for what that is) |
| PrefixReuse.BestIsEarliestMaximum | bench/api_agentic_scenarios.py:551-568 | the chosen extent is the maximum over the history at the earliest render reaching it, agreed by that render; no source exactly when all extents are zero |
| PrefixReuse.MoreHistoryNeverLowers | bench/api_agentic_scenarios.py:551-568 | a history containing all renders of another never predicts less |
| PrefixReuse.ContinuedRenderWins | bench/api_agentic_scenarios.py:517-568 | a render continued through its N-1 token wins over every other that diverges earlier or is shorter |
| PrefixReuse.AppendOnlyMatchesLastRender | bench/api_agentic_scenarios.py:551-568 | an append-only conversation matches its last render at N-1 |
| PrefixReuse.DetoursNeverDisplaceTheChain | bench/api_agentic_scenarios.py:554-558 | renders that leave the chain, such as tools-on turns, may stand anywhere in the history and change nothing about the match |
| PrefixReuse.OneTokenRendersHaveNoSource | bench/api_agentic_scenarios.py:534-541 | a history of renders of at most one token, whatever the tokens, gives no source, so the N-1 results need two tokens |
| PrefixReuse.SplitLosesNothing | bench/api_agentic_scenarios.py:646-659 | errors and notes partition the findings, and only the unconfirmed finding is a note |
| PrefixReuse.GradingIsExact | bench/api_agentic_scenarios.py:596-659 | a confirmed restore blocks exactly when it is not the predicted extent, as too short or as too long, the latter by family; an unconfirmed one never blocks and is always noted |
| StreamAssembly.Assemble | bench/api_agentic_scenarios.py:206-246 | the loops leave the state that the events determine and return its calls in order of first appearance |
| StreamAssembly.AssembleChoices | bench/api_agentic_scenarios.py:219-246 | the same for the choices of one event |
| StreamAssembly.AssembleChoice | bench/api_agentic_scenarios.py:219-246 | the same for one choice |
| StreamAssembly.AssembleCalls | bench/api_agentic_scenarios.py:226-242 | the same for the call deltas of one choice |
| StreamAssembly.AssemblyReadsTheStream | bench/api_agentic_scenarios.py:206-246 | for every stream: texts are the concatenated pieces, each call is built from its own deltas, calls come in order of first appearance, and there is an error exactly when an event was damaged or a call changed its id |
| StreamAssembly.UsageAndFinishesAreRead | bench/api_agentic_scenarios.py:219-246 | for every stream: the usage is the last that a chunk carries, and the finish reasons are all that are not empty, in order |
| StreamAssembly.ErrorsAreRead | bench/api_agentic_scenarios.py:206-246 | for every stream: the errors are the damaged events and the changed ids, in stream order |
| StreamAssembly.SlotIsReadOff | bench/api_agentic_scenarios.py:226-242 | a call has the last id and the last name that its deltas give, and all pieces of its arguments |
| StreamAssembly.CutFolds | bench/api_agentic_scenarios.py:226-242 | a call cut into pieces has its arguments concatenated and its id and name as sent |
| StreamAssembly.StreamingRoundTrip | bench/api_agentic_scenarios.py:206-246 | a message cut in any way, its calls interleaved in any order that keeps each call's own, is reassembled without errors; the returned list holds each call once, in order of first appearance |
| StreamAssembly.InterleavingIsImmaterial | bench/api_agentic_scenarios.py:206-246 | streams, damaged or not, with the same text and the same deltas per call return the same calls, in the same order if they first appear in the same order; if both are damaged or neither is, they agree on errors |
| Wires.ChatWire.AddUser | bench/api_agentic_scenarios.py:136-137 | one user message is added and nothing else changes |
| Wires.ChatWire.CommitAssistant | bench/api_agentic_scenarios.py:248-259 | one assistant message is added, with null content for an empty text |
| Wires.ChatWire.CommitToolResult | bench/api_agentic_scenarios.py:261-262 | one tool message with the call's id is added |
| Wires.ResponsesWire.AddUser | bench/api_agentic_scenarios.py:277-278 | one user item is added |
| Wires.ResponsesWire.CommitAssistant | bench/api_agentic_scenarios.py:363-378 | the reasoning items, then one item per call, then the text if there is one |
| Wires.ResponsesWire.CommitToolResult | bench/api_agentic_scenarios.py:380-383 | one output item with the call's id is added |
| Wires.ChatProjection | bench/api_agentic_scenarios.py:685-704 | the loop returns the projection of all items, in order |
| Wires.AlignedHistoriesAgree | bench/api_agentic_scenarios.py:685-704 | if every assistant turn is text alone or one call alone, the projected history is the chat history |
| Wires.ProjectionIsFaithfulIffAligned | bench/api_agentic_scenarios.py:685-704 | and only then, whatever reasoning is replayed |
| Wires.ProjectedMessagesAreThin | bench/api_agentic_scenarios.py:685-704 | a projected message never carries two calls, nor a call and a text |
| Wires.TwoCallsAreNotAligned | bench/api_agentic_scenarios.py:685-704 | a turn with two calls is one chat message and two projected ones |
| Scenario.GradingAcceptsExactlyTheRightCall | bench/api_agentic_scenarios.py:485-506 | a call is accepted, and graded without errors, exactly when it is the only one, has the right name, an id and arguments naming the expected city |
| Scenario.RunTurn | bench/api_agentic_scenarios.py:139-205 | a request carries the whole history so far, and a reported prompt size is remembered |
| Scenario.OpenTurn | bench/api_agentic_scenarios.py:794-869 | refines the first half of a turn, with the wire's history kept in step |
| Scenario.CloseTextTurn | bench/api_agentic_scenarios.py:935-941 | refines the end of a growth or probe turn; `TextTurnsReport` says what it reports |
| Scenario.CloseToolTurn | bench/api_agentic_scenarios.py:870-934 | refines the end of a tool turn, both the rejected and the accepted one |
| Scenario.RunScenario | bench/api_agentic_scenarios.py:707-961 | the turn loop ends in the state that turns and server determine, with the wire holding its messages; `PassesIffEveryTurnIsSatisfied` says when it passes |
| Scenario.RequestsOnlyExtend | bench/api_agentic_scenarios.py:707-961 | in every run each request's messages properly extend every earlier request's |
| ScenarioProperties.ErrorsAreAccountedFor | bench/api_agentic_scenarios.py:779-961 | one record per turn in order, and the scenario's errors are the records' errors and the unknown turns, in order |
| ScenarioProperties.PassesIffNoRecordFails | bench/api_agentic_scenarios.py:779-961 | a run has no error exactly when no record has one and every turn's kind was known |
| ScenarioProperties.TextTurnIsClean | bench/api_agentic_scenarios.py:935-941 | a growth or probe turn leaves one request and its render, and without errors one complete exchange |
| ScenarioProperties.AcceptedToolTurnIsClean | bench/api_agentic_scenarios.py:870-934 | an accepted tool turn leaves two requests and their renders, and without errors one call, its result with the same id, and the answer |
| ScenarioProperties.RejectedToolTurn | bench/api_agentic_scenarios.py:870-872 | a rejected call leaves a request without a render, and always an error |
| ScenarioProperties.HistoryOfEveryRun | bench/api_agentic_scenarios.py:707-961 | in every run there is a render for every request but the rejected ones |
| ScenarioProperties.ErrorFreeRunsAreConversations | bench/api_agentic_scenarios.py:707-961 | in an error-free run the history is a repetition of complete exchanges, with one render per request, in order |
| ScenarioProperties.RendersHaveSources | bench/api_agentic_scenarios.py:751-766 | in every run the renders are those of ever longer parts of the history, each followed by an answer in the history and in every later one |
| ScenarioProperties.TurnsReuseTheLastRenderOfTheirKind | bench/api_agentic_scenarios.py:751-766 | in every run and against every server, a turn is predicted to reuse the last render with tools, or the last without, as its own is, to the N-1 token, however many of the other kind came since |
| ScenarioProperties.ContinuationsReuseTheirQuestion | bench/api_agentic_scenarios.py:878-885 | in every run the continuation of a tool turn is predicted to reuse the render of its own question to the N-1 token |
| ScenarioProperties.PlainConversationsReuseTheLastRender | bench/api_agentic_scenarios.py:751-766 | without tool turns every turn is predicted to reuse the previous request to its N-1 token, if the template only appends answers; nothing is asked where no answer follows |
| ScenarioProperties.ChatMlOnlyAppendsAnswers | bench/api_agentic_scenarios.py:764-771 | ChatML, whose generation prompt has two tokens, meets the condition on templates, with tools and without |
| ScenarioProperties.ChatMlToolsChangeTheHead | bench/api_agentic_scenarios.py:752-771 | ChatML with the tool schema in a system message meets the condition on tools |
| ScenarioProperties.CacheGradeIgnoresTheObservation | bench/api_agentic_scenarios.py:578-659 | the grade of a turn is the same for every observed width and never blocks |
| ScenarioProperties.VerdictIgnoresCaching | bench/api_agentic_scenarios.py:578-593 | servers that differ only in reported cached widths lead to the same requests, history, renders and errors |
| Text.SpacesAreThese | bench/api_agentic_scenarios.py:936-937 | a text is blank if only characters that Python strips are in it, which are these 29 |
| ScenarioVerdicts.ErrorsGrowTurnByTurn | bench/api_agentic_scenarios.py:779-961 | a turn adds to the scenario's errors those of its record, in order and with its number, or that its kind is unknown |
| ScenarioVerdicts.WidthsAreRemembered | bench/api_agentic_scenarios.py:855-856 | what is remembered between turns is the prompt width that the server reported last, continuations included |
| ScenarioVerdicts.WhatATurnAsks | bench/api_agentic_scenarios.py:795-841 | in every run a turn sends the whole history and its own words, with the tool exactly if it is a tool turn; a growth turn is sized by the width reported last, or by the client's count if none was |
| ScenarioVerdicts.TextTurnsReport | bench/api_agentic_scenarios.py:842-959 | in every run, for growth and probe turns: the question and the reply's text are left in the history, and each kind of error is reported exactly under its own condition on the turn, the reply and the memory |
| ScenarioVerdicts.ToolTurnsReport | bench/api_agentic_scenarios.py:842-959 | in every run, for tool turns: exactly the right call is accepted, answered under its own id and asked about again, and each kind of error is reported exactly under its own condition on both replies and the memory |
| ScenarioVerdicts.QuietTurnsReport | bench/api_agentic_scenarios.py:787-793 | a sleeping or unknown turn says nothing, and reports exactly what the sleep reported |
| ScenarioVerdicts.PassesIffEveryTurnIsSatisfied | bench/api_agentic_scenarios.py:707-961 | a run passes exactly when every turn got what it was for: a visible answer with the wanted text in it, a prompt near its target, the right call and an answer with the tool's result, one healthy engine throughout |
| Speculative.TargetCache.constructor | bench/native_mtp_chunk_equivalence_probe.py:188-195 | a new cache has seen nothing |
| Speculative.TargetCache.Forward | bench/native_mtp_chunk_equivalence_probe.py:188-195 | row by row the greedy token after what the cache has seen, which grows by the tokens fed |
| Speculative.CacheAfterPromptAndFirst | bench/native_mtp_chunk_equivalence_probe.py:188-195 | the fresh cache has seen the prompt and the first token |
| Speculative.Prefill | bench/native_mtp_chunk_equivalence_probe.py:261-271 | the first two tokens are the target's greedy ones |
| Speculative.Draft | bench/native_mtp_chunk_equivalence_probe.py:273-294 | at least one draft, each from all drafts before it |
| Speculative.ReplaySequentially | bench/native_mtp_chunk_equivalence_probe.py:298-303 | row by row the greedy token after the tokens forced so far |
| Speculative.Compare | bench/native_mtp_chunk_equivalence_probe.py:319-349 | the report repeats both row lists, and the counter is the common prefix of drafts and rows |
| Speculative.RunProbe | bench/native_mtp_chunk_equivalence_probe.py:258-370 | the accepted count is the common prefix of the drafts and the target's own greedy continuation, and prompt, first, main and accepted tokens are the greedy output; an error exactly for an empty prompt |
| Speculative.GreedyIsGreedyEverywhere | bench/native_mtp_chunk_equivalence_probe.py:261-271 | greedy decoding picks the target's token at every position |
| Speculative.GreedyIsUnique | bench/native_mtp_chunk_equivalence_probe.py:261-271 | and is the only sequence that does |
| Speculative.AcceptedIsGreedyAgreement | bench/native_mtp_chunk_equivalence_probe.py:296-329 | rows computed from wrong drafts agree with the drafts exactly as far as greedy decoding does |
| Speculative.AcceptedIsGreedyOutput | bench/native_mtp_chunk_equivalence_probe.py:296-329 | the accepted drafts, and the row after them, continue the prompt greedily |
| Speculative.ChunkedAcceptance | bench/native_mtp_chunk_equivalence_probe.py:305-370 | chunked rows accept the same count exactly when they repeat the accepted rows and miss the first rejected draft; in particular when all rows are equal |
| Filler.MultiplierIsInvertible | bench/api_context_acceptance.py:319-325 | multiplying by the constant loses nothing modulo 2^32 |
| Filler.WordsAreEqualIff | bench/api_context_acceptance.py:319-325 | words are equal exactly when their scrambled numbers are congruent modulo 2^32 |
| Filler.WordsNeverRepeat | bench/api_context_acceptance.py:319-325 | under one seed the first 2^32 words are pairwise different |
| Filler.FillerDeterminesCountAndSeed | bench/api_context_acceptance.py:319-325 | fillers are equal exactly when their word counts are and, if there is a word, their seeds are congruent |
| Filler.ProbeDeterminesFiller | bench/api_context_acceptance.py:328-336 | the same for whole probe texts |
| Filler.ProbesFrameTheFiller | bench/api_context_acceptance.py:328-336 | a probe is the preamble, the filler on its own line, and the question |
| Filler.WordsAreHexadecimal | bench/api_context_acceptance.py:319-325 | a word is `ctx` and the index times the constant plus the seed, modulo 2^32, in eight hexadecimal digits |
| Filler.WordsStandInOrder | bench/api_context_acceptance.py:319-325 | the words stand in order with one blank between two |
| PromptSizing.Memo.Rendered | bench/api_context_acceptance.py:351-357 | returns the tokenizer's count, calls it at most once per word count, and keeps the table true |
| PromptSizing.BuildTargetPrompt | bench/api_context_acceptance.py:339-384 | a returned prompt fits, one word more does not, and it is within tolerance; the errors before the search have their exact conditions for any tokenizer, and missing the tolerance has its for a monotone one; the number of tokenizations is logarithmic in the target |
| PromptSizing.Bracket | bench/api_context_acceptance.py:365-371 | succeeds exactly when some tried count is too long, after at most four tries |
| PromptSizing.Bisect | bench/api_context_acceptance.py:372-377 | ends at a fitting count whose successor does not fit, for any tokenizer |
| PromptSizing.BoundaryIsLargestFit | bench/api_context_acceptance.py:339-384 | for a monotone tokenizer that count is the largest that fits |
| PromptSizing.BracketingCannotFail | bench/api_context_acceptance.py:365-371 | the bracketing error is unreachable if every word costs a token |
| PromptSizing.ProbesAreFew | bench/api_context_acceptance.py:365-371 | the doubling search leaves its range after four probes |
| PromptSizing.ProbesDouble | bench/api_context_acceptance.py:365-371 | the counts tried are half the target, at least one, times the powers of two |
| PromptSizing.MemoKeysAreTexts | bench/api_context_acceptance.py:351-357 | different word counts never render to the same text, so one entry per count is one per text |
| ExactFit.Prompt | bench/qwen4_speed_gate.py:81-112 | the loops terminate with the fit that counter and length determine |
| ExactFit.BisectionFindsABoundary | bench/qwen4_speed_gate.py:92-98 | the bisection ends where one copy more is too long, monotone counter or not |
| ExactFit.FitIsExact | bench/qwen4_speed_gate.py:81-112 | the search ends at a boundary of the counter, or one copy before it if a single token is missing; a returned prompt has exactly the target and the least padding within eight of the missing tokens, and each error holds exactly under its own condition there |
| ExactFit.AdditiveSearch | bench/qwen4_speed_gate.py:92-100 | for an additive counter the search finds the largest number of copies that fits |
| ExactFit.AdditiveCountersAlwaysFit | bench/qwen4_speed_gate.py:81-112 | for an additive counter it succeeds exactly when the bare text fits, with at most one padding word more than a copy costs |
| StreamChecker.CheckStream | bench/qwen4_speed_gate.py:169-259 | the one-pass checker accepts exactly the traces that satisfy the whole-trace predicate, and its report counts them |
| StreamChecker.ValidTracesFollowTheProtocol | bench/qwen4_speed_gate.py:169-256 | that predicate, line by line: every line acceptable, one end with no data behind it, one finish reason that is stop or length, one request id, positive last counts, something visible |
| StreamChecker.ReadInOrder | bench/qwen4_speed_gate.py:219-237 | the visible text and the finish reasons of two traces in a row are those of one, then those of the other |
| StreamChecker.CheckLine | bench/qwen4_speed_gate.py:169-192 | one line changes the report by what that line contributes to the trace |
| StreamChecker.CheckEvent | bench/qwen4_speed_gate.py:193-243 | an event keeps the report clean exactly when it is well-formed and repeats the known request id |
| StreamChecker.CheckChoices | bench/qwen4_speed_gate.py:215-243 | the choices of an event add their text and finish, and an error exactly when they are malformed |
| StreamChecker.FinalErrors | bench/qwen4_speed_gate.py:244-256 | no error exactly when the stream is clean, has one end and one valid finish, an id, positive usage and visible text |
| StreamChecker.OneMoreLine | bench/qwen4_speed_gate.py:169-243 | when one more line keeps a good trace good |
| StreamChecker.StepKeepsKnowledge | bench/qwen4_speed_gate.py:169-243 | the report always knows exactly what the lines so far determine |
| ReplayProbe.RunConversation | bench/parser_boundary_variation_probe.py:262-322 | the run sends its prompts in order and stops exactly at the first failed answer |
| ReplayProbe.WhatATurnAsks | bench/parser_boundary_variation_probe.py:244-322 | each request holds the user's words after all earlier words and answers, an answer with its reasoning exactly if the next turn keeps it, and tools and effort exactly if the turn names some |
| ReplayProbe.WarmPromptsAreColdPrompts | bench/parser_boundary_variation_probe.py:262-322 | every prompt both arms reach is identical, whatever the warm server answers and wherever either stops |
| ReplayProbe.ComputeVerdict | bench/parser_boundary_variation_probe.py:325-368 | a pass exactly when both arms completed, reuse is proven and equal widths gave equal texts; and each turn's report says exactly what is equal and how wide |
| ReplayProbe.ComparableArmsSawTheSamePrompts | bench/parser_boundary_variation_probe.py:262-368 | a verdict other than incomplete means that both arms asked the whole script with identical prompts |
| ReplayProbe.SameServerRepeatsItself | bench/parser_boundary_variation_probe.py:262-322 | against one server the warm arm repeats the cold arm |
| RestoreProbe.RunConversation | bench/dsv4_cold_vs_restored_sameproc.py:316-359 | a run answers every turn, with the replayed texts as history |
| RestoreProbe.PromptsAlternate | bench/dsv4_cold_vs_restored_sameproc.py:316-359 | a prompt is the user's words and the answers to them by turns |
| RestoreProbe.ReplayedPromptsAreIdentical | bench/dsv4_cold_vs_restored_sameproc.py:316-359 | the restored run asks exactly what the cold run asked |
| RestoreProbe.BuildTurnRecords | bench/dsv4_cold_vs_restored_sameproc.py:362-388 | one record for every turn that both runs have, with the cold and the restored code, text and cached width each in its own place |
| RestoreProbe.ComputeVerdictSameProcess | bench/dsv4_cold_vs_restored_sameproc.py:391-422 | a table hit or any cached width counts as proof of reuse |
| RestoreProbe.ComputeVerdictAfterRestart | bench/dsv4_cold_vs_restored_restart_l2.py:415-443 | only evidence from the disk counts as proof of reuse |
| RestoreProbe.ProbeSameProcess | bench/dsv4_cold_vs_restored_sameproc.py:316-422 | of the two runs themselves: a pass exactly if every turn of both was answered, all texts are equal, and there is a table hit or a cached width in the restored run; inconclusive exactly if all were answered and there is neither |
| RestoreProbe.ProbeAfterRestart | bench/dsv4_cold_vs_restored_restart_l2.py:340-443 | the same with evidence from the disk alone |
| RestoreProbe.PassMeansIdenticalRuns | bench/dsv4_cold_vs_restored_sameproc.py:316-422 | a pass exactly when reuse is proven and every turn of both runs was answered with identical texts to identical prompts |
| RestoreProbe.RestartIsStricter | bench/dsv4_cold_vs_restored_restart_l2.py:415-443 | the two probes disagree exactly when a completed run has a cached width and no evidence beyond it |
| MtpLog.ParseMtpLog | bench/native_mtp_speed_ab.py:370-498 | an error exactly when a line contradicts itself, otherwise the rows and totals of all lines |
| MtpLog.SumLists | bench/native_mtp_speed_ab.py:348-353 | every column is the sum over all lists, short ones counting zero |
| MtpLog.AddUp | bench/native_mtp_speed_ab.py:465-467 | a total is the sum over the requests in order |
| MtpLog.RowsDependOnOwnLines | bench/native_mtp_speed_ab.py:370-463 | a request's row is the fold of its own lines, whatever lies between; requests are distinct and none is invented |
| MtpLog.RowHoldsLastWritten | bench/native_mtp_speed_ab.py:370-463 | a field has the value of the last line that writes it |
| MtpLog.RowsAreReadOff | bench/native_mtp_speed_ab.py:370-463 | in a log of any interleaving, every entry of a request's row, counted or not, is what the request's last line of the right kind says, and is missing if there is none |
| MtpLog.RequestsAppearInOrder | bench/native_mtp_speed_ab.py:370-463 | rows come in the order in which the requests first appear |
| MtpLog.TotalsAddUpLastWrittenFields | bench/native_mtp_speed_ab.py:465-498 | a total, in its own place, is the sum over distinct requests of their last-written values |
| MtpLog.TotalsOfPermutations | bench/native_mtp_speed_ab.py:465-498 | the order of the requests does not matter |
| MtpLog.InterleavingIsImmaterial | bench/native_mtp_speed_ab.py:370-498 | logs with the same lines per request are rejected alike and give the same rows and totals |
| DepthSelection.Tabulate | bench/native_mtp_speed_ab.py:654-663 | a label's entry is true exactly when it was compared and never found to differ |
| DepthSelection.SelectBestDepth | bench/native_mtp_speed_ab.py:645-731 | the first fastest of the rows that qualify is selected, and none exactly if none qualifies; every other row with a depth is refused, in order, with the reason that applies; a speedup over a positive baseline exceeds one |
| DepthSelection.RefusalIsExact | bench/native_mtp_speed_ab.py:674-707 | each reason is given exactly under its own condition on rows and comparisons, in the source's order |
| DepthSelection.CandidatesAreTheQualifying | bench/native_mtp_speed_ab.py:665-707 | the candidates are the rows with a depth, the baseline's output and a higher speed, in order |
| DepthSelection.RejectionsAreTheRest | bench/native_mtp_speed_ab.py:665-707 | the rejections are all other rows with a depth, in order |
| DepthSelection.BaselineIsTheFirst | bench/native_mtp_speed_ab.py:645-653 | the baseline speed is that of the first baseline row |
| DepthSelection.DepthsAreAccountedFor | bench/native_mtp_speed_ab.py:665-707 | every benchmarked depth is a candidate or refused with one reason |
| DepthSelection.CandidatesAreVerifiedIffAnythingWasCompared | bench/native_mtp_speed_ab.py:645-707 | a candidate beat the baseline, and its output was verified exactly when some comparison carries a label |
| DepthSelection.UnverifiedDepthIsSelected | bench/native_mtp_speed_ab.py:645-731 | one benchmarked depth without any comparison is selected, and nothing verified it |
| Attestation.MergeFeatures | vmlx_engine/acceleration_contract.py:556-570 | the merged features hold, per feature, the field-wise merge, in new dicts where something was added |
| Attestation.RecordAttestation | vmlx_engine/acceleration_contract.py:546-578 | the returned record merges what was on the model with what was added, and becomes the model's unless it refuses attributes |
| Attestation.RecordTwice | vmlx_engine/acceleration_contract.py:546-578 | recording twice leaves the merge of both with what was there |
| Attestation.MergeIsAssociative | vmlx_engine/acceleration_contract.py:556-570 | two recordings are one recording of their merge |
| Attestation.MergeKeepsEverything | vmlx_engine/acceleration_contract.py:556-570 | no feature or field is dropped, and an added field has the added value |
| Attestation.CopyFeatures | vmlx_engine/acceleration_contract.py:586-594 | the copy has equal facts in new dicts |
| Attestation.FindAttestation | vmlx_engine/acceleration_contract.py:581-595 | a copy of the first attestation among the candidates that shares no object with a model, or nothing if none is attested |
| Attestation.RecordThenFind | vmlx_engine/acceleration_contract.py:546-595 | what was recorded is found again, as another object |
| Acceleration.FirstSettingDecides | vmlx_engine/acceleration_contract.py:437-450 | the first variable that is set decides, is named as the source and gives the selected value; otherwise the default does |
| Acceleration.InstalledNeedsAttestation | vmlx_engine/acceleration_contract.py:453-474 | when a feature is in which state: disabled exactly if not requested, installed and observed exactly as attested with a flag or a positive count, refused exactly if a reason was attested instead |
| Acceleration.BuildContract | vmlx_engine/acceleration_contract.py:477-543 | an unknown family has no rows; a known one has a row per feature in order, with its specification and a copy of what was attested, and a summary that counts the rows by state |
| Acceleration.RowsShowTheirFeature | vmlx_engine/acceleration_contract.py:497-531 | a row shows its specification, what was requested and from where, and what was attested |
| Acceleration.TallyCounts | vmlx_engine/acceleration_contract.py:532-541 | a tally is the number of rows in one of the states |
| Acceleration.RequestedFeaturesAreConserved | vmlx_engine/acceleration_contract.py:532-541 | requested features are installed, unattested or refused, each once, and no more are observed than installed |
| Acceleration.NothingAttestedNothingInstalled | vmlx_engine/acceleration_contract.py:453-541 | without attestations nothing counts as installed and everything requested is unattested |

## Left out

- HTTP, subprocesses, health polling, sleeps, memory samplers, wall clocks and artifact files: replaced by parameters or absent.
- MLX tensors, kernels, logits and their gates: only "the greedy token of a deterministic function of the history" remains.
- SHA-256 and the tagged byte encoding of tokens and discriminators in `compute_block_hash`: an injective pairing instead.
- CacheKey.MarkersDecideEquality: speaks of string keys, integers, booleans, null, strings, arrays and objects; floats, `default=str` and non-string keys are not modelled, and `True` and `1`, which Python's `==` identifies, count as different.
- CacheKey.ScopeCacheExtraKey: dicts are values, so that the caller's dict is left alone is true by construction.
- BlockChain.BlockCache.GetComputedBlocks: the disk tier and the hit statistics; that returned blocks are protected, and which of several under one hash is returned, is in `ContentIndex`.
- BlockChain.BlockCache.Store: stores a request as a whole and from its first token, where the source continues behind the blocks it has, knows their numbers, and stops when the pool is full.
- BlockChain.BlockCache.Evict: a block leaves the index whether or not its payload is on disk; which one may leave is in `ContentIndex`.
- BlockChain.ShorterLookupNeverWins: nothing is read from disk between the two lookups; unknown lengths are in `SecondLookupWinsIffLengthUnknown`.
- BlockChain.OraclePredictsTheLookup: renders are stored without their last token, which the engine feeds again, and nothing is evicted.
- ContentIndex.ChangeKeepsCoherent: the legacy map of content-only hashes, which also gives a chain hash to blocks without tensor data, is not among the steps.
- PagedCache.PagedCache.ReleaseRequestRefs: which payloads were read for a request only is a set given per call, and the eviction down to the byte budget afterwards is the step `Reclaim`.
- ContentIndex.BlockHashToBlockMap.GetBlock: one block and a dict of one block are the same list here.
- PagedCacheManager.PagedCacheManager.constructor: fewer than two blocks are an error in the source, a precondition here.
- PagedCache.PagedCache.AllocateBlock: which payloads are durable is a set given per call; writing to disk and the lock are not modelled.
- PagedCacheManager.PagedCacheManager.PopRecyclable: what the block carried, here and in the next four lines, is in `PagedCache`.
- PagedCacheManager.PagedCacheManager.AllocateBlock: see `PagedCache.AllocateBlock`.
- PagedCacheManager.PagedCacheManager.EvictLruBlocks: see `PagedCache.EvictLruBlocks`.
- PagedCacheManager.PagedCacheManager.FreeBlock: see `PagedCache.FreeBlock`.
- PagedCacheManager.PagedCacheManager.FreeBlocks: see `PagedCache.FreeBlocks`.
- PagedCacheManager.PagedCacheManager.IncrementRef: the `shared_blocks` statistic.
- PagedCacheManager.PagedCacheManager.ReleaseRequestRefs: the payloads dropped with the last reference are in `PagedCache`.
- PagedCacheManager.PagedCacheManager.GetNewBlocks: a negative number of blocks, which no caller passes, is not modelled.
- `popleft_n`, which nothing calls.
- Scenario.RunTurn: status codes, stream parsing and leak checks are part of an arbitrary reply.
- ScenarioProperties.TurnsReuseTheLastRenderOfTheirKind: templates that rewrite earlier messages, for instance by dropping their reasoning, do not meet its condition.
- Scenario.RunScenario: the chat wire only; the Responses wire is covered by the projection results. Tool arguments that are JSON but not an object, which the source cannot read, count as unreadable.
- StreamAssembly.Assemble: usage values that are not numbers, and the server statistics in a stream.
- ReplayProbe.ComputeVerdict: text normalization is a parameter.
- MtpLog.ParseMtpLog: lines are taken as matched; timing sums and acceptance rates are floating-point measurements and left out.
- DepthSelection.SelectBestDepth: speeds are exact reals.
- Acceleration.BuildContract: aliases of family names, and the display name and native state of a family.
- Acceleration.InstalledNeedsAttestation: counts given as numeric strings are not modelled.
- `parse_depth_sweep`, `restart_serve_commands`, `summarize_repeat_output_equivalence`, `fit_filler_to_target`, `coerce_native_mtp_depth`.
- Keyword classifiers, probe tables, panel code, import hooks and micro-benchmarks.
