/**
 The chunked-verifier probe: draft tokens, replay them one by one and as one chunk
 against the target model, and count how many drafts the target accepts.

 The target model is an arbitrary deterministic function from the token history to its
 greedy token, and a cache is the history it was fed. The chunked forward and the draft
 head are arbitrary functions too: nothing is assumed about their quality.
 */
module Speculative {
  import opened Common
  import opened PrefixReuse

  type Target = seq<int> -> int

  /** Row `i` of one chunked forward over `chunk`, after `history` is in the cache. */
  type ChunkForward = (seq<int>, seq<int>, nat) -> int

  /** The next draft, from the main history and the draft head's own inputs so far. */
  type DraftHead = (seq<int>, seq<int>) -> int

  /** What plain greedy decoding appends to `history`. */
  function Greedy(target: Target, history: seq<int>, n: nat): (tokens: seq<int>)
    ensures |tokens| == n
    decreases n
  {
    if n == 0 then []
    else
      var token := target(history);
      [token] + Greedy(target, history + [token], n - 1)
  }

  lemma {:induction false} GreedyIsGreedyEverywhere(
    target: Target, history: seq<int>, n: nat, i: nat)
    requires i < n
    ensures Greedy(target, history, n)[i] == target(history + Greedy(target, history, n)[..i])
    decreases n
  {
    var token := target(history);
    var rest := Greedy(target, history + [token], n - 1);
    if i == 0 {
      assert history + Greedy(target, history, n)[..0] == history;
    } else {
      GreedyIsGreedyEverywhere(target, history + [token], n - 1, i - 1);
      assert Greedy(target, history, n)[..i] == [token] + rest[..i - 1];
      assert history + [token] + rest[..i - 1] == history + ([token] + rest[..i - 1]);
    }
  }

  /** Any sequence that is greedy at every position is the greedy continuation. */
  lemma {:induction false} GreedyIsUnique(target: Target, history: seq<int>, tokens: seq<int>)
    requires forall i :: 0 <= i < |tokens| ==> tokens[i] == target(history + tokens[..i])
    ensures tokens == Greedy(target, history, |tokens|)
    decreases |tokens|
  {
    if tokens != [] {
      assert history + tokens[..0] == history;
      var rest := tokens[1..];
      forall i | 0 <= i < |rest| ensures rest[i] == target(history + [tokens[0]] + rest[..i]) {
        assert history + [tokens[0]] + rest[..i] == history + tokens[..i + 1];
      }
      GreedyIsUnique(target, history + [tokens[0]], rest);
    }
  }

  // ---------------------------------------------------------------------------
  // The cache and the probe
  // ---------------------------------------------------------------------------

  class TargetCache {
    var history: seq<int>

    constructor ()
      ensures history == []
    {
      history := [];
    }

    /** Feeds `tokens`; row `i` is the greedy token after the first `i + 1` of them. */
    method Forward(target: Target, tokens: seq<int>) returns (rows: seq<int>)
      modifies this
      ensures history == old(history) + tokens
      ensures |rows| == |tokens|
      ensures forall i :: 0 <= i < |rows| ==>
        rows[i] == target(old(history) + tokens[..i + 1])
    {
      rows := [];
      for i := 0 to |tokens|
        invariant history == old(history) + tokens[..i]
        invariant |rows| == i
        invariant forall j :: 0 <= j < i ==> rows[j] == target(old(history) + tokens[..j + 1])
      {
        assert old(history) + tokens[..i + 1] == history + [tokens[i]];
        history := history + [tokens[i]];
        rows := rows + [target(history)];
      }
      assert tokens[..|tokens|] == tokens;
    }
  }

  method CacheAfterPromptAndFirst(target: Target, prompt: seq<int>, first: int)
    returns (cache: TargetCache)
    ensures fresh(cache)
    ensures cache.history == prompt + [first]
  {
    cache := new TargetCache();
    var _ := cache.Forward(target, prompt);
    var _ := cache.Forward(target, [first]);
  }

  datatype Row = Row(
    position: nat, forcedInput: int, draft: Option<int>, draftMatches: bool,
    sequentialArgmax: int, chunkArgmax: int)

  datatype Probe = Probe(
    first: int, nextMain: int, drafts: seq<int>, rows: seq<Row>,
    acceptedPrefix: nat, allArgmaxEqual: bool)

  /** The verifier's rows when `forced` is fed one token at a time after `history`. */
  ghost predicate SequentialRows(
    target: Target, history: seq<int>, forced: seq<int>, rows: seq<int>)
  {
    |rows| == |forced|
    && forall i :: 0 <= i < |rows| ==> rows[i] == target(history + forced[..i + 1])
  }

  function Sequential(rows: seq<Row>): seq<int> {
    seq(|rows|, i requires 0 <= i < |rows| => rows[i].sequentialArgmax)
  }

  function Chunked(rows: seq<Row>): seq<int> {
    seq(|rows|, i requires 0 <= i < |rows| => rows[i].chunkArgmax)
  }

  /** Drafts `depth` tokens, and at least one, each from all drafts before it. */
  method Draft(draftHead: DraftHead, history: seq<int>, nextMain: int, depth: int)
    returns (drafts: seq<int>)
    ensures |drafts| == if depth < 1 then 1 else depth
    ensures forall i :: 0 <= i < |drafts| ==>
      drafts[i] == draftHead(history, [nextMain] + drafts[..i])
  {
    drafts := [];
    var inputs := [nextMain];
    for level := 0 to if depth < 1 then 1 else depth
      invariant |drafts| == level
      invariant inputs == [nextMain] + drafts
      invariant forall i :: 0 <= i < level ==> drafts[i] == draftHead(history, [nextMain] + drafts[..i])
    {
      ghost var before := drafts;
      drafts := drafts + [draftHead(history, inputs)];
      inputs := inputs + [drafts[level]];
      assert drafts[..level] == before;
      assert forall i :: 0 <= i < level ==> drafts[..i] == before[..i];
    }
  }

  /** Feeds `forced` token by token to a fresh cache that holds the prompt and `first`. */
  method ReplaySequentially(target: Target, prompt: seq<int>, first: int, forced: seq<int>)
    returns (rows: seq<int>)
    ensures SequentialRows(target, prompt + [first], forced, rows)
  {
    var cache := CacheAfterPromptAndFirst(target, prompt, first);
    ghost var history := prompt + [first];
    rows := [];
    for i := 0 to |forced|
      invariant cache.history == history + forced[..i]
      invariant |rows| == i
      invariant forall j :: 0 <= j < i ==> rows[j] == target(history + forced[..j + 1])
    {
      assert history + forced[..i + 1] == cache.history + [forced[i]];
      var out := cache.Forward(target, [forced[i]]);
      assert [forced[i]][..1] == [forced[i]];
      rows := rows + [out[0]];
    }
  }

  /** The report over both row lists, with the acceptance counter run beside it. */
  method Compare(forced: seq<int>, drafts: seq<int>, sequential: seq<int>, chunked: seq<int>)
    returns (rows: seq<Row>, accepted: nat, allEqual: bool)
    requires |forced| == |sequential| == |chunked| == |drafts| + 1
    ensures Sequential(rows) == sequential && Chunked(rows) == chunked
    ensures forall i :: 0 <= i < |rows| ==>
      && rows[i].position == i && rows[i].forcedInput == forced[i]
      && rows[i].draft == (if i < |drafts| then Some(drafts[i]) else None)
      && rows[i].draftMatches == (rows[i].draft == Some(rows[i].sequentialArgmax))
    ensures accepted == Lcp(drafts, sequential)
    ensures allEqual <==> sequential == chunked
  {
    rows, accepted, allEqual := [], 0, true;
    for i := 0 to |forced|
      invariant |rows| == i
      invariant accepted <= i && Agree(drafts, sequential, accepted)
      invariant accepted < i && accepted < |drafts| ==> drafts[accepted] != sequential[accepted]
      invariant forall j :: 0 <= j < i ==>
        && rows[j].sequentialArgmax == sequential[j]
        && rows[j].chunkArgmax == chunked[j]
        && rows[j].position == j && rows[j].forcedInput == forced[j]
        && rows[j].draft == (if j < |drafts| then Some(drafts[j]) else None)
        && rows[j].draftMatches == (rows[j].draft == Some(rows[j].sequentialArgmax))
      invariant allEqual <==> sequential[..i] == chunked[..i]
    {
      var draft := if i < |drafts| then Some(drafts[i]) else None;
      var matches := draft == Some(sequential[i]);
      if i < |drafts| && accepted == i && matches {
        accepted := accepted + 1;
      }
      assert sequential[..i + 1] == sequential[..i] + [sequential[i]];
      assert chunked[..i + 1] == chunked[..i] + [chunked[i]];
      allEqual := allEqual && sequential[i] == chunked[i];
      rows := rows + [Row(i, forced[i], draft, matches, sequential[i], chunked[i])];
    }
    assert sequential[..|forced|] == sequential && chunked[..|forced|] == chunked;
    FirstMismatchIsLcp(drafts, sequential, accepted);
  }

  /** The first two greedy tokens, and the history the cache holds after the first. */
  method Prefill(target: Target, prompt: seq<int>)
    returns (first: int, nextMain: int, history: seq<int>)
    requires prompt != []
    ensures first == target(prompt) && nextMain == target(prompt + [first])
    ensures history == prompt + [first]
  {
    var cache := new TargetCache();
    var promptRows := cache.Forward(target, prompt);
    first := promptRows[|prompt| - 1];
    assert [] + prompt[..|prompt|] == prompt && cache.history == prompt;
    assert [first][..1] == [first];
    var firstRows := cache.Forward(target, [first]);
    nextMain := firstRows[0];
    history := cache.history;
  }

  method RunProbe(
    target: Target, chunkForward: ChunkForward, draftHead: DraftHead, prompt: seq<int>, depth: int)
    returns (result: Result<Probe, ()>)
    ensures result.Err? <==> prompt == []
    ensures result.Ok? ==>
      var p := result.value;
      var history := prompt + [p.first];
      var forced := [p.nextMain] + p.drafts;
      && [p.first, p.nextMain] == Greedy(target, prompt, 2)
      && |p.drafts| == (if depth < 1 then 1 else depth)
      && (forall i :: 0 <= i < |p.drafts| ==>
            p.drafts[i] == draftHead(history, [p.nextMain] + p.drafts[..i]))
      && SequentialRows(target, history, forced, Sequential(p.rows))
      && |p.rows| == |forced|
      && (forall i :: 0 <= i < |p.rows| ==>
            && p.rows[i].position == i && p.rows[i].forcedInput == forced[i]
            && p.rows[i].chunkArgmax == chunkForward(history, forced, i)
            && p.rows[i].draft == (if i < |p.drafts| then Some(p.drafts[i]) else None)
            && (p.rows[i].draftMatches <==> p.rows[i].draft == Some(p.rows[i].sequentialArgmax)))
      && p.acceptedPrefix
           == Lcp(p.drafts, Greedy(target, history + [p.nextMain], |p.drafts|))
      && [p.first, p.nextMain] + p.drafts[..p.acceptedPrefix]
           == Greedy(target, prompt, p.acceptedPrefix + 2)
      && (p.allArgmaxEqual <==> Sequential(p.rows) == Chunked(p.rows))
  {
    if prompt == [] {
      return Err(());
    }
    var first, nextMain, history := Prefill(target, prompt);
    var drafts := Draft(draftHead, history, nextMain, depth);
    var forced := [nextMain] + drafts;
    var sequential := ReplaySequentially(target, prompt, first, forced);
    var chunkCache := CacheAfterPromptAndFirst(target, prompt, first);
    var chunkHistory := chunkCache.history;
    var chunked := seq(|forced|, i requires 0 <= i => chunkForward(chunkHistory, forced, i));
    var rows, accepted, allEqual := Compare(forced, drafts, sequential, chunked);

    AcceptedIsGreedyAgreement(target, history, nextMain, drafts, sequential);
    AcceptedIsGreedyOutput(target, prompt, first, nextMain, drafts, sequential);
    forall i | 0 <= i < |rows| ensures rows[i].chunkArgmax == chunkForward(history, forced, i) {
      assert Chunked(rows)[i] == chunked[i];
    }
    result := Ok(Probe(first, nextMain, drafts, rows, accepted, allEqual));
  }

  // ---------------------------------------------------------------------------
  // What the acceptance counter means
  // ---------------------------------------------------------------------------

  lemma FirstMismatchIsLcp(a: seq<int>, b: seq<int>, n: nat)
    requires Agree(a, b, n)
    requires n < |a| && n < |b| ==> a[n] != b[n]
    ensures Lcp(a, b) == n
  {
    LcpDecidesAgreement(a, b, n);
    LcpDecidesAgreement(a, b, n + 1);
  }

  /**
   The drafts agree with the verifier's rows exactly as far as with the target's own greedy
   continuation, although every row after the first mismatch sees a wrong history.
   */
  lemma AcceptedIsGreedyAgreement(
    target: Target, history: seq<int>, nextMain: int, drafts: seq<int>, rows: seq<int>)
    requires SequentialRows(target, history, [nextMain] + drafts, rows)
    ensures Lcp(drafts, rows) == Lcp(drafts, Greedy(target, history + [nextMain], |drafts|))
  {
    var start, greedy := history + [nextMain], Greedy(target, history + [nextMain], |drafts|);
    var n := Lcp(drafts, greedy);
    LcpDecidesAgreement(drafts, greedy, n);
    LcpDecidesAgreement(drafts, greedy, n + 1);
    forall i | 0 <= i <= n && i < |drafts| ensures rows[i] == greedy[i] {
      GreedyIsGreedyEverywhere(target, start, |drafts|, i);
      assert drafts[..i] == greedy[..i];
      MoveFirst(history, nextMain, drafts, i);
    }
    FirstMismatchIsLcp(drafts, rows, n);
  }

  lemma MoveFirst(history: seq<int>, first: int, rest: seq<int>, i: nat)
    requires i <= |rest|
    ensures history + ([first] + rest)[..i + 1] == history + [first] + rest[..i]
  {
  }

  lemma EmittedPrefix(
    prompt: seq<int>, first: int, nextMain: int, drafts: seq<int>, n: nat, next: int, i: nat)
    requires n <= |drafts| && 2 <= i <= n + 2
    ensures prompt + ([first, nextMain] + drafts[..n] + [next])[..i]
      == prompt + [first] + ([nextMain] + drafts)[..i - 1]
  {
    assert ([first, nextMain] + drafts[..n] + [next])[..i] == [first] + ([nextMain] + drafts)[..i - 1];
  }

  /**
   The accepted drafts continue the prompt, the first token and the main token greedily, and
   the verifier's row after them is the next greedy token: one more token for free.
   */
  lemma AcceptedIsGreedyOutput(
    target: Target, prompt: seq<int>, first: int, nextMain: int, drafts: seq<int>, rows: seq<int>)
    requires first == target(prompt) && nextMain == target(prompt + [first])
    requires SequentialRows(target, prompt + [first], [nextMain] + drafts, rows)
    ensures var n := Lcp(drafts, rows);
      && Greedy(target, prompt, 2) == [first, nextMain]
      && Greedy(target, prompt, n + 2) == [first, nextMain] + drafts[..n]
      && Greedy(target, prompt, n + 3) == [first, nextMain] + drafts[..n] + [rows[n]]
  {
    var n := Lcp(drafts, rows);
    LcpDecidesAgreement(drafts, rows, n);
    var emitted := [first, nextMain] + drafts[..n] + [rows[n]];
    forall i | 0 <= i < |emitted| ensures emitted[i] == target(prompt + emitted[..i]) {
      if i == 0 {
        assert prompt + emitted[..0] == prompt;
      } else if i == 1 {
        assert prompt + emitted[..1] == prompt + [first];
      } else {
        assert emitted[i] == rows[i - 2];
        EmittedPrefix(prompt, first, nextMain, drafts, n, rows[n], i);
      }
    }
    GreedyIsUnique(target, prompt, emitted);
    var shorter := [first, nextMain] + drafts[..n];
    forall i | 0 <= i < |shorter| ensures shorter[i] == target(prompt + shorter[..i]) {
      assert shorter[i] == emitted[i] && shorter[..i] == emitted[..i];
    }
    GreedyIsUnique(target, prompt, shorter);
    forall i | 0 <= i < 2 ensures [first, nextMain][i] == target(prompt + [first, nextMain][..i]) {
      assert [first, nextMain][i] == emitted[i] && [first, nextMain][..i] == emitted[..i];
    }
    GreedyIsUnique(target, prompt, [first, nextMain]);
  }

  /**
   Accepting by the chunked rows gives the probe's count exactly when the chunked rows repeat
   the accepted drafts and do not also repeat the first rejected one.
   */
  lemma ChunkedAcceptance(drafts: seq<int>, sequential: seq<int>, chunked: seq<int>)
    requires |sequential| == |chunked| == |drafts| + 1
    ensures var n := Lcp(drafts, sequential);
      Lcp(drafts, chunked) == n
      <==> (forall i :: 0 <= i < n ==> chunked[i] == sequential[i])
           && (n < |drafts| ==> chunked[n] != drafts[n])
    ensures sequential == chunked ==> Lcp(drafts, chunked) == Lcp(drafts, sequential)
  {
    var n, m := Lcp(drafts, sequential), Lcp(drafts, chunked);
    LcpDecidesAgreement(drafts, sequential, n);
    LcpDecidesAgreement(drafts, chunked, m);
    LcpDecidesAgreement(drafts, chunked, n);
    LcpDecidesAgreement(drafts, chunked, n + 1);
  }
}
