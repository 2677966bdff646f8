/**
 * The resolver node: it chooses a query, searches the knowledge base, turns the top score
 * into a confidence, decides whether the ticket is likely resolvable and returns one of two
 * fixed-shape resolution records. Tools and the language model are parameters; every call
 * the node makes is recorded in a trace of `Call`s.
 */
module Resolving {
  import opened Wrappers
  import opened Tickets

  /** One knowledge-base hit, as far as the resolver reads it. */
  datatype Hit = Hit(articleId: Option<string>, score: Option<real>)

  /** Which of the MCP tools were discovered at start-up. */
  datatype Tools = Tools(
    kbSearch: bool,
    accountGetUser: bool,
    accountGetReservations: bool,
    memorySearch: bool,
    memoryWrite: bool)

  /**
   * The resolver's environment: the tools present, the knowledge-base search
   * (query, limit) -> hits, and the answer the language model writes for an issue and its hits.
   */
  datatype ResolverEnv = ResolverEnv(
    tools: Tools,
    kbSearch: (string, int) -> seq<Hit>,
    answer: (string, seq<Hit>) -> string)

  /** The long-term memory record written after an automatic resolution. */
  datatype MemoryEntry = MemoryEntry(
    externalUserId: string,
    ticketId: Option<string>,
    content: string,
    issueType: Option<string>,
    kbArticles: seq<string>,
    confidence: real)

  /** A call the resolver makes to a tool or to the language model. */
  datatype Call =
    | KbSearchCall(query: string, limit: int)
    | AccountGetUserCall(userId: string)
    | AccountGetReservationsCall(userId: string)
    | MemorySearchCall(userId: string, query: string, limit: int)
    | AnswerCall(issue: string)
    | MemoryWriteCall(entry: MemoryEntry, failed: bool)

  const KbLimit: int := 5
  const MemorySearchLimit: int := 5

  const HandoffAnswer: string :=
    "I'm not fully confident I can resolve this automatically based on the "
    + "available knowledge. A human support agent should review this ticket."
  const HandoffNotes: string :=
    "KB search returned no strong matches or low scores. "
    + "Please manually review the issue and consider updating the KB."
  const ResolvedNotes: string :=
    "Resolved automatically using KB content. "
    + "If the user replies that this didn't help, escalate."

  /** Python truthiness of an optional string. */
  predicate Truthy(o: Option<string>) {
    o.Some? && o.value != ""
  }

  /** The resolver dereferences the intake and classification records. */
  predicate Ready(s: TicketState) {
    s.intake.Some? && s.classification.Some?
  }

  /** `intake.get("normalized_issue") or ticket.get("content", "")`. */
  function IssueQuery(s: TicketState): (q: string)
    requires Ready(s)
    ensures Truthy(s.intake.value.normalizedIssue) ==> q == s.intake.value.normalizedIssue.value
    ensures !Truthy(s.intake.value.normalizedIssue) ==> q == s.ticket.content.GetOr("")
    ensures q == "" <==> !Truthy(s.intake.value.normalizedIssue) && !Truthy(s.ticket.content)
  {
    var normalized := s.intake.value.normalizedIssue;
    if Truthy(normalized) then normalized.value else s.ticket.content.GetOr("")
  }

  /** The knowledge base is searched only when the tool exists and the query is non-empty. */
  predicate SearchesKb(s: TicketState, env: ResolverEnv)
    requires Ready(s)
  {
    env.tools.kbSearch && IssueQuery(s) != ""
  }

  function KbHits(s: TicketState, env: ResolverEnv): seq<Hit>
    requires Ready(s)
  {
    if SearchesKb(s, env) then env.kbSearch(IssueQuery(s), KbLimit) else []
  }

  /** `float(kb_results[0].get("score", 0.0) or 0.0)`; 0.0 without hits. */
  function TopScore(hits: seq<Hit>): real {
    if hits == [] then 0.0 else hits[0].score.GetOr(0.0)
  }

  function Min(x: real, y: real): real { if x <= y then x else y }
  function Max(x: real, y: real): real { if x >= y then x else y }

  /** 0.2 without hits, else the top score mapped into [0.3, 0.95]. */
  function Confidence(hits: seq<Hit>): (c: real)
    ensures hits == [] ==> c == 0.2
    ensures hits != [] ==> 0.3 <= c <= 0.95
    ensures hits != [] ==> (c >= 0.5 <==> TopScore(hits) >= 0.4)
    ensures hits != [] ==> (c >= 0.7 <==> TopScore(hits) >= 0.8)
  {
    if hits == [] then 0.2 else Max(0.3, Min(0.95, TopScore(hits) / 2.0 + 0.3))
  }

  lemma ConfidenceMonotone(h1: seq<Hit>, h2: seq<Hit>)
    requires h1 != [] && h2 != []
    requires TopScore(h1) <= TopScore(h2)
    ensures Confidence(h1) <= Confidence(h2)
  {
  }

  function LikelyResolvable(hits: seq<Hit>, confidence: real): bool {
    hits != [] && confidence >= 0.5
  }

  /** Hit `k` carries the non-empty article id `x`. */
  predicate CarriesId(hits: seq<Hit>, k: int, x: string) {
    0 <= k < |hits| && hits[k].articleId == Some(x) && x != ""
  }

  /** The truthy article ids of the hits, in hit order. */
  function UsedArticleIds(hits: seq<Hit>): (ids: seq<string>)
    ensures |ids| <= |hits|
    ensures forall x :: x in ids <==> exists k :: CarriesId(hits, k, x)
  {
    if hits == [] then []
    else
      var n := |hits| - 1;
      var init := UsedArticleIds(hits[..n]);
      var last := hits[n];
      var ids := if Truthy(last.articleId) then init + [last.articleId.value] else init;
      assert forall x :: x in ids <==> exists k :: CarriesId(hits, k, x) by {
        forall x
          ensures x in ids <==> exists k :: CarriesId(hits, k, x)
        {
          if x in ids {
            if x in init {
              var k :| CarriesId(hits[..n], k, x);
              assert CarriesId(hits, k, x);
            } else {
              assert CarriesId(hits, n, x);
            }
          }
          if exists k :: CarriesId(hits, k, x) {
            var k :| CarriesId(hits, k, x);
            if k < n {
              assert CarriesId(hits[..n], k, x);
            }
          }
        }
      }
      ids
  }

  /** The ids keep hit order: the ids of a concatenation concatenate. */
  lemma {:induction false} UsedArticleIdsAppend(a: seq<Hit>, b: seq<Hit>)
    ensures UsedArticleIds(a + b) == UsedArticleIds(a) + UsedArticleIds(b)
    decreases |b|
  {
    if b == [] {
      assert a + b == a;
    } else {
      var b' := b[..|b| - 1];
      assert (a + b)[..|a + b| - 1] == a + b';
      UsedArticleIdsAppend(a, b');
    }
  }

  /** A hit of its own contributes its id exactly when the id is truthy. */
  lemma UsedArticleIdsSingle(h: Hit)
    ensures UsedArticleIds([h]) == if Truthy(h.articleId) then [h.articleId.value] else []
  {
    assert [h][..0] == [];
  }

  /** The resolution record `resolver_node` returns. */
  function ResolutionFor(s: TicketState, env: ResolverEnv): (r: Resolution)
    requires Ready(s)
    ensures r.confidence == Confidence(KbHits(s, env))
    ensures r.usedKbArticles == UsedArticleIds(KbHits(s, env))
    ensures r.status == Resolved <==> LikelyResolvable(KbHits(s, env), r.confidence)
    ensures r.status == Resolved ==>
              r.answer == env.answer(IssueQuery(s), KbHits(s, env)) && r.notesForHuman == ResolvedNotes
    ensures r.status == NeedsEscalation ==> r.answer == HandoffAnswer && r.notesForHuman == HandoffNotes
  {
    var hits := KbHits(s, env);
    var confidence := Confidence(hits);
    var ids := UsedArticleIds(hits);
    if !LikelyResolvable(hits, confidence) then
      Resolution(NeedsEscalation, HandoffAnswer, confidence, ids, HandoffNotes)
    else
      Resolution(Resolved, env.answer(IssueQuery(s), hits), confidence, ids, ResolvedNotes)
  }

  /** The memory entry written after an automatic resolution. */
  function MemoryEntryFor(s: TicketState, env: ResolverEnv): MemoryEntry
    requires Ready(s) && Truthy(s.ticket.ownerId)
  {
    var r := ResolutionFor(s, env);
    MemoryEntry(
      s.ticket.ownerId.value,
      s.ticket.ticketId,
      "Resolved issue: " + IssueQuery(s) + "\nAnswer: " + r.answer,
      s.classification.value.issueType,
      r.usedKbArticles,
      r.confidence)
  }

  /** The lookups made before the verdict: KB search, account profile and bookings, memory search. */
  function LookupCalls(s: TicketState, env: ResolverEnv): seq<Call>
    requires Ready(s)
  {
    var q := IssueQuery(s);
    var uid := s.ticket.ownerId;
    (if SearchesKb(s, env) then [KbSearchCall(q, KbLimit)] else [])
    + (if Truthy(uid) && env.tools.accountGetUser then [AccountGetUserCall(uid.value)] else [])
    + (if Truthy(uid) && env.tools.accountGetReservations then [AccountGetReservationsCall(uid.value)] else [])
    + (if Truthy(uid) && env.tools.memorySearch then [MemorySearchCall(uid.value, q, MemorySearchLimit)] else [])
  }

  /** The calls made after the verdict: none on handoff; the answer and maybe a memory write otherwise. */
  function VerdictCalls(s: TicketState, env: ResolverEnv, writeFails: bool): seq<Call>
    requires Ready(s)
  {
    if ResolutionFor(s, env).status == NeedsEscalation then []
    else
      [AnswerCall(IssueQuery(s))]
      + (if Truthy(s.ticket.ownerId) && env.tools.memoryWrite
         then [MemoryWriteCall(MemoryEntryFor(s, env), writeFails)] else [])
  }

  function ResolverCalls(s: TicketState, env: ResolverEnv, writeFails: bool): seq<Call>
    requires Ready(s)
  {
    LookupCalls(s, env) + VerdictCalls(s, env, writeFails)
  }

  /** The truthy article ids of the hits, collected by a loop as the list comprehension does. */
  method CollectArticleIds(hits: seq<Hit>) returns (ids: seq<string>)
    ensures ids == UsedArticleIds(hits)
  {
    ids := [];
    for i := 0 to |hits|
      invariant ids == UsedArticleIds(hits[..i])
    {
      var id := hits[i].articleId;
      assert hits[..i + 1][..i] == hits[..i];
      if Truthy(id) {
        ids := ids + [id.value];
      }
    }
    assert hits[..|hits|] == hits;
  }

  /** The lookup phase: the hits, the computed ids and top score, and the calls made. */
  method Lookup(s: TicketState, env: ResolverEnv)
      returns (kbResults: seq<Hit>, usedKbArticles: seq<string>, topScore: real, calls: seq<Call>)
    requires Ready(s)
    ensures kbResults == KbHits(s, env)
    ensures usedKbArticles == UsedArticleIds(kbResults)
    ensures topScore == TopScore(kbResults)
    ensures calls == LookupCalls(s, env)
  {
    var userIssue := IssueQuery(s);
    var externalUserId := s.ticket.ownerId;
    calls := [];
    usedKbArticles := [];
    kbResults := [];
    topScore := 0.0;
    if env.tools.kbSearch && userIssue != "" {
      kbResults := env.kbSearch(userIssue, KbLimit);
      calls := calls + [KbSearchCall(userIssue, KbLimit)];
      if kbResults != [] {
        usedKbArticles := CollectArticleIds(kbResults);
        topScore := kbResults[0].score.GetOr(0.0);
      }
    }
    if Truthy(externalUserId) && env.tools.accountGetUser {
      calls := calls + [AccountGetUserCall(externalUserId.value)];
    }
    if Truthy(externalUserId) && env.tools.accountGetReservations {
      calls := calls + [AccountGetReservationsCall(externalUserId.value)];
    }
    if Truthy(externalUserId) && env.tools.memorySearch {
      calls := calls + [MemorySearchCall(externalUserId.value, userIssue, MemorySearchLimit)];
    }
  }

  /**
   * `resolver_node`. The memory write's outcome is a parameter: a failing write is swallowed,
   * so the resolution is the same whatever `writeFails` is.
   */
  method Resolve(s: TicketState, env: ResolverEnv, writeFails: bool)
      returns (resolution: Resolution, calls: seq<Call>)
    requires Ready(s)
    ensures resolution == ResolutionFor(s, env)
    ensures calls == ResolverCalls(s, env, writeFails)
  {
    var kbResults, usedKbArticles, topScore;
    kbResults, usedKbArticles, topScore, calls := Lookup(s, env);
    var confidence := if kbResults == [] then 0.2 else Max(0.3, Min(0.95, topScore / 2.0 + 0.3));
    var likelyResolvable := kbResults != [] && confidence >= 0.5;
    if !likelyResolvable {
      resolution := Resolution(NeedsEscalation, HandoffAnswer, confidence, usedKbArticles, HandoffNotes);
      return;
    }
    var userIssue := IssueQuery(s);
    var answerText := env.answer(userIssue, kbResults);
    calls := calls + [AnswerCall(userIssue)];
    resolution := Resolution(Resolved, answerText, confidence, usedKbArticles, ResolvedNotes);
    var externalUserId := s.ticket.ownerId;
    if Truthy(externalUserId) && env.tools.memoryWrite {
      var entry := MemoryEntry(
        externalUserId.value,
        s.ticket.ticketId,
        "Resolved issue: " + userIssue + "\nAnswer: " + answerText,
        s.classification.value.issueType,
        usedKbArticles,
        confidence);
      calls := calls + [MemoryWriteCall(entry, writeFails)];
    }
  }

  // Properties of the resolver.

  /** An empty query: the knowledge base is not called, there are no hits and the ticket is handed off. */
  lemma EmptyQueryMeansHandoff(s: TicketState, env: ResolverEnv, writeFails: bool)
    requires Ready(s) && IssueQuery(s) == ""
    ensures KbHits(s, env) == []
    ensures forall k :: 0 <= k < |ResolverCalls(s, env, writeFails)| ==> !ResolverCalls(s, env, writeFails)[k].KbSearchCall?
    ensures ResolutionFor(s, env).status == NeedsEscalation
  {
    var calls := ResolverCalls(s, env, writeFails);
    forall k | 0 <= k < |calls| ensures !calls[k].KbSearchCall? {
      assert calls[k] in LookupCalls(s, env) + VerdictCalls(s, env, writeFails);
    }
  }

  /** Without hits the confidence is exactly 0.2 and the fixed handoff record is returned. */
  lemma NoHitsMeansHandoff(s: TicketState, env: ResolverEnv)
    requires Ready(s) && KbHits(s, env) == []
    ensures ResolutionFor(s, env) == Resolution(NeedsEscalation, HandoffAnswer, 0.2, [], HandoffNotes)
  {
  }

  /** The verdict: resolved exactly when the search found hits whose top score is at least 0.4. */
  lemma ResolvedIffStrongTopHit(s: TicketState, env: ResolverEnv)
    requires Ready(s)
    ensures ResolutionFor(s, env).status == Resolved <==> KbHits(s, env) != [] && TopScore(KbHits(s, env)) >= 0.4
  {
  }

  /** The language model is called exactly when the ticket is resolved, never on a handoff. */
  lemma AnswerCallIffResolved(s: TicketState, env: ResolverEnv, writeFails: bool)
    requires Ready(s)
    ensures (exists k :: 0 <= k < |ResolverCalls(s, env, writeFails)| && ResolverCalls(s, env, writeFails)[k].AnswerCall?)
            <==> ResolutionFor(s, env).status == Resolved
  {
    var pre := LookupCalls(s, env);
    var calls := ResolverCalls(s, env, writeFails);
    assert forall k :: 0 <= k < |pre| ==> !pre[k].AnswerCall?;
    if ResolutionFor(s, env).status == Resolved {
      assert calls[|pre|].AnswerCall?;
    } else {
      assert calls == pre;
    }
  }

  /** Memory is written exactly when the ticket is resolved for a known user and the tool exists. */
  lemma MemoryWriteIffResolvedForUser(s: TicketState, env: ResolverEnv, writeFails: bool)
    requires Ready(s)
    ensures (exists k :: 0 <= k < |ResolverCalls(s, env, writeFails)| && ResolverCalls(s, env, writeFails)[k].MemoryWriteCall?)
            <==> ResolutionFor(s, env).status == Resolved && Truthy(s.ticket.ownerId) && env.tools.memoryWrite
  {
    var pre := LookupCalls(s, env);
    var calls := ResolverCalls(s, env, writeFails);
    assert forall k :: 0 <= k < |pre| ==> !pre[k].MemoryWriteCall?;
    if ResolutionFor(s, env).status == Resolved && Truthy(s.ticket.ownerId) && env.tools.memoryWrite {
      assert calls[|pre| + 1].MemoryWriteCall?;
    } else if ResolutionFor(s, env).status == Resolved {
      assert calls == pre + [AnswerCall(IssueQuery(s))];
    } else {
      assert calls == pre;
    }
  }

  /** A score without a fractional part, as the knowledge base's hit counts are. */
  predicate IsWhole(x: real) {
    x.Floor as real == x
  }

  /** With a whole top score, a confidence of at least 0.5 is in fact at least 0.8. */
  lemma WholeScoreConfidence(hits: seq<Hit>)
    requires hits != [] && IsWhole(TopScore(hits))
    ensures Confidence(hits) >= 0.5 ==> Confidence(hits) >= 0.8
  {
    var t := TopScore(hits);
    if t >= 0.4 {
      assert t.Floor >= 1;
    }
  }

  /** With a whole top score, a resolved ticket carries a confidence of at least 0.8. */
  lemma ResolvedConfidenceWithWholeScores(s: TicketState, env: ResolverEnv)
    requires Ready(s)
    requires KbHits(s, env) != [] ==> IsWhole(TopScore(KbHits(s, env)))
    ensures ResolutionFor(s, env).status == Resolved ==> ResolutionFor(s, env).confidence >= 0.8
  {
    if KbHits(s, env) != [] {
      WholeScoreConfidence(KbHits(s, env));
    }
  }

  /** The resolution depends on the ticket, the intake and the classification only. */
  lemma ResolutionReadsInputsOnly(s: TicketState, s': TicketState, env: ResolverEnv)
    requires Ready(s) && s'.ticket == s.ticket && s'.intake == s.intake && s'.classification == s.classification
    ensures ResolutionFor(s', env) == ResolutionFor(s, env)
  {
  }
}
