/**
 * The resolver wired to the knowledge-base server: the search tool returns `kb_search`'s
 * result over fixed candidate rows. Because that search scores by counting words, every score
 * is whole, which bounds the workflow under the documented supervisor policy.
 */
module EndToEnd {
  import opened Wrappers
  import KbServer
  import Resolving
  import Tickets
  import Workflow
  import Text

  /** A result dictionary of `kb_search`, as the resolver reads it. */
  function ToHit(d: KbServer.ArticleDict): (h: Resolving.Hit)
    ensures h.articleId == Some(d.articleId) && h.score == d.score
  {
    Resolving.Hit(Some(d.articleId), d.score)
  }

  function ToHits(ds: seq<KbServer.ArticleDict>): (hits: seq<Resolving.Hit>)
    ensures |hits| == |ds|
    ensures forall i :: 0 <= i < |ds| ==> hits[i] == ToHit(ds[i])
  {
    seq(|ds|, i requires 0 <= i < |ds| => ToHit(ds[i]))
  }

  /** The resolver's environment whose search tool is `kb_search` over the rows `rows`. */
  function KbBackedEnv(
    tools: Resolving.Tools, rows: seq<KbServer.Article>, answer: (string, seq<Resolving.Hit>) -> string
  ): Resolving.ResolverEnv {
    Resolving.ResolverEnv(tools, (q: string, l: int) => ToHits(KbServer.KbSearchResult(q, rows, l)), answer)
  }

  /** Every hit from `kb_search` carries a whole score. */
  lemma KbSearchScoresAreWhole(q: string, rows: seq<KbServer.Article>, limit: int)
    ensures var hits := ToHits(KbServer.KbSearchResult(q, rows, limit));
      forall i :: 0 <= i < |hits| ==> hits[i].score.Some? && Resolving.IsWhole(hits[i].score.value)
  {
    KbServer.KbSearchIsRanking(q, rows, limit);
    if !Text.IsBlank(q) {
      KbServer.RankingScores(KbServer.QueryWords(Text.Strip(q)), rows, limit);
    }
  }

  lemma KbBackedEnvHasWholeScores(tools: Resolving.Tools, rows: seq<KbServer.Article>, answer: (string, seq<Resolving.Hit>) -> string)
    ensures Workflow.WholeScores(KbBackedEnv(tools, rows, answer))
  {
    var env := KbBackedEnv(tools, rows, answer);
    forall q, l | env.kbSearch(q, l) != []
      ensures Resolving.IsWhole(Resolving.TopScore(env.kbSearch(q, l)))
    {
      KbSearchScoresAreWhole(q, rows, l);
    }
  }

  /** A ticket the resolver marks resolved from the knowledge base carries confidence at least 0.8. */
  lemma KbResolvedConfidence(s: Tickets.TicketState, env: Resolving.ResolverEnv, rows: seq<KbServer.Article>)
    requires Resolving.Ready(s) && env == KbBackedEnv(env.tools, rows, env.answer)
    ensures Resolving.ResolutionFor(s, env).status == Tickets.Resolved ==> Resolving.ResolutionFor(s, env).confidence >= 0.8
  {
    KbBackedEnvHasWholeScores(env.tools, rows, env.answer);
    Resolving.ResolvedConfidenceWithWholeScores(s, env);
  }

  /**
   * With the knowledge-base server behind the resolver and the documented supervisor policy,
   * every ticket visits the resolver exactly once, resolved tickets end at "done" and handed-off
   * tickets are escalated.
   */
  lemma KbBackedTicketRunsResolverOnce(ag: Workflow.Agents, t: Tickets.Ticket, rows: seq<KbServer.Article>, fuel: nat)
    requires Workflow.FollowsPolicy(ag)
    requires ag.resolver == KbBackedEnv(ag.resolver.tools, rows, ag.resolver.answer)
    requires fuel >= 6
    ensures var r := Workflow.RunTicket(ag, t, fuel);
      && r.finished
      && multiset(r.trace)[Workflow.ResolverNode] == 1
      && r.state.resolution.Some? && r.state.supervisor.Some?
      && (r.state.resolution.value.status == Tickets.Resolved <==> r.state.supervisor.value.nextStep == Some("done"))
      && (r.state.resolution.value.status == Tickets.NeedsEscalation <==> r.state.escalation.Some?)
  {
    KbBackedEnvHasWholeScores(ag.resolver.tools, rows, ag.resolver.answer);
    Workflow.PolicyRunsResolverOnce(ag, t, fuel);
    Workflow.PopulatedIffVisited(ag, t, fuel);
    var r := Workflow.RunTicket(ag, t, fuel);
    assert Workflow.Owner(Tickets.EscalationKey) == Workflow.EscalationNode;
    if r.state.resolution.value.status == Tickets.Resolved {
      assert Workflow.EscalationNode !in r.trace;
    }
  }
}
