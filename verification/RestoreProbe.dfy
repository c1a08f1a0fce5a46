/**
 The cold-versus-restored probes: the same questions are asked twice, the second time with the
 first run's answers in the history, and the answers are compared turn by turn. One probe
 restores within the process, the other after a restart; they differ in what proves reuse.
 A run never stops early: a failed turn is recorded and the conversation goes on.
 */
module RestoreProbe {
  import opened Common

  datatype Message = User(content: string) | Assistant(content: string)

  datatype Response = Response(code: int, text: string, cachedTokens: nat)

  type Server = seq<seq<Message>> -> Response

  /** The messages of the `i`-th request, given the answers that enter the history. */
  function Prompt(turns: seq<string>, answers: seq<string>, i: nat): (p: seq<Message>)
    requires i < |turns| && i <= |answers|
    ensures |p| == 2 * i + 1
  {
    seq(2 * i + 1, k requires 0 <= k < 2 * i + 1 =>
      if k % 2 == 0 then User(turns[k / 2]) else Assistant(answers[k / 2]))
  }

  function Texts(results: seq<Response>): seq<string> {
    seq(|results|, i requires 0 <= i < |results| => results[i].text)
  }

  /** The answer to the `i`-th request, given everything sent until then. */
  function Answer(server: Server, prompts: seq<seq<Message>>, i: nat): Response
    requires i < |prompts|
  {
    server(prompts[..i + 1])
  }

  ghost predicate IsRun(
    turns: seq<string>, server: Server, replay: Option<seq<string>>, results: seq<Response>,
    prompts: seq<seq<Message>>)
  {
    && |results| == |prompts| == |turns|
    && (replay.Some? ==> |replay.value| >= |turns|)
    && (forall i :: 0 <= i < |turns| ==> results[i] == Answer(server, prompts, i))
    && var answers := if replay.Some? then replay.value else Texts(results);
       forall i :: 0 <= i < |turns| ==> prompts[i] == Prompt(turns, answers, i)
  }

  /** The probe indexes the replayed answers by turn, so there must be one for each. */
  method RunConversation(turns: seq<string>, server: Server, replay: Option<seq<string>>)
    returns (results: seq<Response>, prompts: seq<seq<Message>>)
    requires replay.Some? ==> |replay.value| >= |turns|
    ensures IsRun(turns, server, replay, results, prompts)
    ensures forall i :: 0 <= i < |turns| ==> results[i] == server(prompts[..i + 1])
  {
    results, prompts := [], [];
    var messages: seq<Message> := [];
    ghost var answers: seq<string> := [];
    for index := 0 to |turns|
      invariant |results| == |prompts| == |answers| == index
      invariant replay.Some? ==> answers == replay.value[..index]
      invariant replay.None? ==> answers == Texts(results)
      invariant forall i :: 0 <= i < index ==> results[i] == Answer(server, prompts, i)
      invariant forall i :: 0 <= i < index ==> prompts[i] == Prompt(turns, answers, i)
      invariant index < |turns| ==> messages + [User(turns[index])] == Prompt(turns, answers, index)
    {
      messages := messages + [User(turns[index])];
      ghost var before := prompts;
      prompts := prompts + [messages];
      assert prompts[..index + 1] == prompts;
      forall i | 0 <= i < index ensures Answer(server, prompts, i) == Answer(server, before, i) {
        assert prompts[..i + 1] == before[..i + 1];
      }
      var response := server(prompts);
      results := results + [response];
      var answer := if replay.None? then response.text else replay.value[index];
      messages := messages + [Assistant(answer)];
      forall i | 0 <= i <= index
        ensures Prompt(turns, answers + [answer], i) == Prompt(turns, answers, i)
      {
      }
      answers := answers + [answer];
      NextPrompt(turns, answers, index);
    }
    forall i | 0 <= i < |turns| && replay.Some?
      ensures Prompt(turns, replay.value, i) == Prompt(turns, answers, i)
    {
    }
  }

  /** Prompts alternate: the turns in order, and between them the answers. */
  lemma PromptsAlternate(turns: seq<string>, answers: seq<string>, i: nat, k: nat)
    requires i < |turns| && i <= |answers| && k <= i
    ensures var p := Prompt(turns, answers, i);
      && |p| == 2 * i + 1 && p[2 * k] == User(turns[k])
      && (k < i ==> p[2 * k + 1] == Assistant(answers[k]))
  {
  }

  lemma NextPrompt(turns: seq<string>, answers: seq<string>, i: nat)
    requires i < |turns| && i < |answers|
    ensures i + 1 < |turns| ==>
      Prompt(turns, answers, i + 1)
      == Prompt(turns, answers, i) + [Assistant(answers[i])] + [User(turns[i + 1])]
  {
  }

  /** The restored run asks exactly what the cold run asked, whatever its server answers. */
  lemma {:induction false} ReplayedPromptsAreIdentical(
    turns: seq<string>, coldServer: Server, restoredServer: Server,
    cold: seq<Response>, coldPrompts: seq<seq<Message>>,
    restored: seq<Response>, restoredPrompts: seq<seq<Message>>)
    requires IsRun(turns, coldServer, None, cold, coldPrompts)
    requires IsRun(turns, restoredServer, Some(Texts(cold)), restored, restoredPrompts)
    ensures restoredPrompts == coldPrompts
  {
  }

  // ---------------------------------------------------------------------------
  // The verdicts
  // ---------------------------------------------------------------------------

  datatype TurnRecord = TurnRecord(
    byteEqual: bool, coldCode: int, restoredCode: int, cachedTokens: nat, coldCachedTokens: nat)

  /** What a record says of the cold and the restored answer to one turn. */
  ghost predicate Compares(t: TurnRecord, cold: Response, restored: Response) {
    && (t.byteEqual <==> cold.text == restored.text)
    && t.coldCode == cold.code && t.restoredCode == restored.code
    && t.cachedTokens == restored.cachedTokens && t.coldCachedTokens == cold.cachedTokens
  }

  /** One record per turn that both runs have. */
  method BuildTurnRecords(cold: seq<Response>, restored: seq<Response>)
    returns (records: seq<TurnRecord>)
    ensures |records| == if |cold| < |restored| then |cold| else |restored|
    ensures forall i :: 0 <= i < |records| ==> Compares(records[i], cold[i], restored[i])
  {
    records := [];
    for i := 0 to if |cold| < |restored| then |cold| else |restored|
      invariant |records| == i
      invariant forall j :: 0 <= j < i ==> Compares(records[j], cold[j], restored[j])
    {
      var c, r := cold[i], restored[i];
      records := records
        + [TurnRecord(c.text == r.text, c.code, r.code, r.cachedTokens, c.cachedTokens)];
    }
  }

  datatype Verdict = Pass | Fail | InconclusiveNoReuse

  ghost predicate Completed(records: seq<TurnRecord>) {
    records != []
    && forall i :: 0 <= i < |records| ==> records[i].coldCode == 200 && records[i].restoredCode == 200
  }

  ghost predicate AllEqual(records: seq<TurnRecord>) {
    forall i :: 0 <= i < |records| ==> records[i].byteEqual
  }

  ghost predicate SomeCached(records: seq<TurnRecord>) {
    exists i :: 0 <= i < |records| && records[i].cachedTokens > 0
  }

  method Scan(records: seq<TurnRecord>) returns (completed: bool, equal: bool, cached: bool)
    ensures completed <==> Completed(records)
    ensures completed ==> (equal <==> AllEqual(records)) && (cached <==> SomeCached(records))
  {
    completed, equal, cached := records != [], true, false;
    for i := 0 to |records|
      invariant completed <==> records != []
      invariant forall j :: 0 <= j < i ==> records[j].coldCode == 200 && records[j].restoredCode == 200
      invariant equal <==> forall j :: 0 <= j < i ==> records[j].byteEqual
      invariant cached <==> exists j :: 0 <= j < i && records[j].cachedTokens > 0
    {
      if records[i].coldCode != 200 || records[i].restoredCode != 200 {
        return false, equal, cached;
      }
      equal := equal && records[i].byteEqual;
      cached := cached || records[i].cachedTokens > 0;
    }
  }

  ghost function Judge(records: seq<TurnRecord>, reuse: bool): Verdict {
    if !Completed(records) then Fail
    else if !reuse then InconclusiveNoReuse
    else if AllEqual(records) then Pass else Fail
  }

  /** Within one process a prefix-table hit or a cached width proves reuse. */
  method ComputeVerdictSameProcess(records: seq<TurnRecord>, tableHits: bool) returns (v: Verdict)
    ensures v == Judge(records, tableHits || SomeCached(records))
  {
    var completed, equal, cached := Scan(records);
    v := if !completed then Fail
         else if !(tableHits || cached) then InconclusiveNoReuse
         else if equal then Pass else Fail;
  }

  /** After a restart only evidence from the disk does. */
  method ComputeVerdictAfterRestart(records: seq<TurnRecord>, diskEvidence: bool) returns (v: Verdict)
    ensures v == Judge(records, diskEvidence)
  {
    var completed, equal, _ := Scan(records);
    v := if !completed then Fail
         else if !diskEvidence then InconclusiveNoReuse
         else if equal then Pass else Fail;
  }

  /**
   A pass means that every turn of both runs was answered, to identical prompts, with identical
   texts; without proof of reuse there is never a pass, however equal the texts.
   */
  lemma PassMeansIdenticalRuns(
    turns: seq<string>, coldServer: Server, restoredServer: Server,
    cold: seq<Response>, coldPrompts: seq<seq<Message>>,
    restored: seq<Response>, restoredPrompts: seq<seq<Message>>,
    records: seq<TurnRecord>, reuse: bool)
    requires IsRun(turns, coldServer, None, cold, coldPrompts)
    requires IsRun(turns, restoredServer, Some(Texts(cold)), restored, restoredPrompts)
    requires |records| == |turns|
    requires forall i :: 0 <= i < |records| ==> Compares(records[i], cold[i], restored[i])
    ensures Judge(records, reuse) == Pass <==>
      && turns != [] && reuse
      && (forall i :: 0 <= i < |turns| ==> cold[i].code == 200 && restored[i].code == 200)
      && restoredPrompts == coldPrompts
      && Texts(restored) == Texts(cold)
  {
    ReplayedPromptsAreIdentical(
      turns, coldServer, restoredServer, cold, coldPrompts, restored, restoredPrompts);
    if Texts(restored) == Texts(cold) {
      forall i | 0 <= i < |records| ensures records[i].byteEqual {
        assert Texts(restored)[i] == Texts(cold)[i];
      }
    }
  }

  // ---------------------------------------------------------------------------
  // The probes
  // ---------------------------------------------------------------------------

  /** Every turn of both runs was answered, and there was one. */
  ghost predicate AllAnswered(cold: seq<Response>, restored: seq<Response>)
    requires |cold| == |restored|
  {
    cold != [] && forall i :: 0 <= i < |cold| ==> cold[i].code == 200 && restored[i].code == 200
  }

  /** What a verdict says of the two runs, if `reuse` is what proves reuse. */
  ghost predicate Says(v: Verdict, cold: seq<Response>, restored: seq<Response>, reuse: bool)
    requires |cold| == |restored|
  {
    match v
    case InconclusiveNoReuse => AllAnswered(cold, restored) && !reuse
    case Pass =>
      && AllAnswered(cold, restored) && reuse
      && forall i :: 0 <= i < |cold| ==> cold[i].text == restored[i].text
    case Fail =>
      !AllAnswered(cold, restored)
      || (reuse && exists i :: 0 <= i < |cold| && cold[i].text != restored[i].text)
  }

  /** Cold run, restored run and verdict of the probe within one process. */
  method ProbeSameProcess(turns: seq<string>, coldServer: Server, restoredServer: Server, tableHits: bool)
    returns (v: Verdict, cold: seq<Response>, restored: seq<Response>, prompts: seq<seq<Message>>)
    ensures IsRun(turns, coldServer, None, cold, prompts)
    ensures IsRun(turns, restoredServer, Some(Texts(cold)), restored, prompts)
    ensures Says(v, cold, restored,
                 tableHits || exists i :: 0 <= i < |restored| && restored[i].cachedTokens > 0)
  {
    var records;
    cold, restored, prompts, records := RunBoth(turns, coldServer, restoredServer);
    v := ComputeVerdictSameProcess(records, tableHits);
    assert SomeCached(records) <==> exists i :: 0 <= i < |restored| && restored[i].cachedTokens > 0 by {
      assert forall i :: 0 <= i < |records| ==> records[i].cachedTokens == restored[i].cachedTokens;
    }
    JudgmentSays(records, cold, restored, tableHits || SomeCached(records));
  }

  /** The same after a restart; cached widths prove nothing there. */
  method ProbeAfterRestart(turns: seq<string>, coldServer: Server, restoredServer: Server, diskEvidence: bool)
    returns (v: Verdict, cold: seq<Response>, restored: seq<Response>, prompts: seq<seq<Message>>)
    ensures IsRun(turns, coldServer, None, cold, prompts)
    ensures IsRun(turns, restoredServer, Some(Texts(cold)), restored, prompts)
    ensures Says(v, cold, restored, diskEvidence)
  {
    var records;
    cold, restored, prompts, records := RunBoth(turns, coldServer, restoredServer);
    v := ComputeVerdictAfterRestart(records, diskEvidence);
    JudgmentSays(records, cold, restored, diskEvidence);
  }

  method RunBoth(turns: seq<string>, coldServer: Server, restoredServer: Server)
    returns (cold: seq<Response>, restored: seq<Response>, prompts: seq<seq<Message>>,
             records: seq<TurnRecord>)
    ensures IsRun(turns, coldServer, None, cold, prompts)
    ensures IsRun(turns, restoredServer, Some(Texts(cold)), restored, prompts)
    ensures |records| == |turns|
    ensures forall i :: 0 <= i < |records| ==> Compares(records[i], cold[i], restored[i])
  {
    cold, prompts := RunConversation(turns, coldServer, None);
    var again;
    restored, again := RunConversation(turns, restoredServer, Some(Texts(cold)));
    ReplayedPromptsAreIdentical(turns, coldServer, restoredServer, cold, prompts, restored, again);
    records := BuildTurnRecords(cold, restored);
  }

  lemma JudgmentSays(records: seq<TurnRecord>, cold: seq<Response>, restored: seq<Response>, reuse: bool)
    requires |records| == |cold| == |restored|
    requires forall i :: 0 <= i < |records| ==> Compares(records[i], cold[i], restored[i])
    ensures Says(Judge(records, reuse), cold, restored, reuse)
  {
    if AllEqual(records) {
      assert forall i :: 0 <= i < |cold| ==> records[i].byteEqual && cold[i].text == restored[i].text;
    } else {
      var i :| 0 <= i < |records| && !records[i].byteEqual;
      assert cold[i].text != restored[i].text;
    }
    assert forall i :: 0 <= i < |records| ==>
      records[i].coldCode == cold[i].code && records[i].restoredCode == restored[i].code;
  }

  /**
   The restart probe is the stricter one: on the same records and evidence they disagree
   exactly when a completed run has a cached width but no evidence beyond it.
   */
  lemma RestartIsStricter(records: seq<TurnRecord>, evidence: bool)
    ensures Judge(records, evidence) == Pass ==> Judge(records, evidence || SomeCached(records)) == Pass
    ensures Judge(records, evidence) != Judge(records, evidence || SomeCached(records)) <==>
      Completed(records) && !evidence && SomeCached(records)
  {
  }
}
