# UDA-Hub ticket routing, modelled in Dafny

UDA-Hub is a customer-support decision agent. A ticket passes through a LangGraph workflow:

- an intake agent normalises the ticket;
- a classifier agent labels its type, urgency and complexity;
- a supervisor agent decides the next step;
- a resolver drafts an answer from knowledge-base articles;
- an escalation agent writes a handoff summary for a human.

The nodes share one `TicketState` dictionary. Each node returns a one-key partial update.

This project models the deterministic core of that system and proves properties about it:

- **Knowledge-base service** (`KbServer`, over the string operations in `Text`):
  - `kb_get`, a lookup by article id.
  - `kb_search`, which proceeds in four steps:
    - it splits and lower-cases the query, on whitespace as Python's `str.isspace` defines it;
    - it scores every candidate article by how many query words occur in its text;
    - it sorts the articles in place;
    - it truncates the list to `limit`.
  - The sort is done with an array and a stable insertion sort. It is proved equal to a functional specification, which is proved sorted, a permutation and stable.
- **Supervisor policy** (`SupervisorAgent`): the documented decision policy is an ordered rule table, stated as a pure function. The deployed supervisor is a language model told to follow it.
- **Ticket state** (`Tickets`): the ticket state, the partial updates and the engine's merge.
- **Resolver node** (`Resolving`):
  - query choice, the knowledge-base call, the confidence formula and the verdict;
  - the two fixed-shape resolution records and the swallowed memory write;
  - the trace of tool and model calls the node makes.
  - It is an imperative method proved equal to specification functions.
- **Workflow graph** (`Workflow`): the nodes, the fixed and conditional edges, `route_from_supervisor` and the engine run from the initial state, with the agents as parameters.
- **End to end** (`EndToEnd`): the resolver wired to `kb_search`. Knowledge-base scores are whole numbers, so under the documented policy every ticket visits the resolver exactly once.

The language models and the MCP tools are parameters of the model: opaque functions of their inputs.

## Model

| member | source | states |
|---|---|---|
| Text.LStripSpec | mcp_services/kb/server.py:86 | The result is a suffix of the input that does not start with whitespace, and everything removed is whitespace. |
| Text.RStripSpec | mcp_services/kb/server.py:86 | The result is a prefix of the input that does not end with whitespace, and everything removed is whitespace. |
| Text.StripEmptyIffBlank | mcp_services/kb/server.py:86-88 | `query.strip()` is empty exactly when the query is empty or all whitespace. |
| Text.WordsAreWords | mcp_services/kb/server.py:104 | Every word `split()` yields is non-empty and contains no whitespace. |
| Text.WordsKeepNonSpace | mcp_services/kb/server.py:104 | The words laid end to end are exactly the non-whitespace characters of the text, in order. |
| Text.WordLenSpec | mcp_services/kb/server.py:104 | A word ends at the first whitespace character or at the end of the text, and contains no whitespace. |
| Text.WordsEmptyIffBlank | mcp_services/kb/server.py:104 | `split()` yields no word exactly when the text is blank. |
| Text.Strip | mcp_services/kb/server.py:86 | `str.strip()`: removes leading, then trailing whitespace. Its properties are stated by Text.LStripSpec, Text.RStripSpec and Text.StripEmptyIffBlank. |
| Text.Words | mcp_services/kb/server.py:104 | `str.split()`: the maximal runs of non-whitespace, in order. Its properties are stated by Text.WordsAreWords, Text.WordsKeepNonSpace, Text.WordsEmptyIffBlank, Text.WordsOfStrip and Text.WordsUnique. |
| Text.WordsUnique | mcp_services/kb/server.py:104 | For any text made of words separated by non-empty whitespace runs, with optional whitespace at both ends, `split()` yields exactly those words. So `split()` neither cuts a word nor joins two. |
| Text.WordsOfStrip | mcp_services/kb/server.py:86-104 | Splitting the stripped query gives the same words as splitting the raw query. |
| Text.LowerAppend | mcp_services/kb/server.py:104-108 | Lower-casing a concatenation lower-cases each part. |
| Text.LowerIdempotent | mcp_services/kb/server.py:104-108 | Lower-casing twice is lower-casing once. |
| Text.LowerHasNoCapital | mcp_services/kb/server.py:104-108 | Lower-cased text holds no capital letter A–Z. |
| Text.LowerKeepsSpace | mcp_services/kb/server.py:104 | Lower-casing keeps the length and changes no character from or to whitespace. |
| Text.Contains | mcp_services/kb/server.py:109 | `w in text` holds exactly when `w` occurs in `text` at some position. |
| Text.LessTotal | mcp_services/kb/server.py:112 | Distinct titles are always ordered one way or the other, so the tie-break is total. |
| Text.LessTransitive | mcp_services/kb/server.py:112 | Title order is transitive. |
| Text.LessIrreflexive | mcp_services/kb/server.py:112 | No title sorts before itself. |
| KbServer.SearchTextSplits | mcp_services/kb/server.py:104-108 | The searched text is the title, content and tags (empty when null), each lower-cased, joined by newlines. |
| KbServer.SearchTextIgnoresCase | mcp_services/kb/server.py:104-110 | An article's searched text, and so its score, equals that of its lower-cased copy. |
| KbServer.ArticleToDict | mcp_services/kb/server.py:39-50 | The five columns are copied. The "score" key is present exactly when a score is given, and it holds that score. |
| KbServer.KbGet | mcp_services/kb/server.py:55-71 | None when no row has the id. Otherwise the first row with that id, as a dictionary without a score. |
| KbServer.QueryWordsAreSplitWords | mcp_services/kb/server.py:104 | The `if w.strip()` filter never drops a word: the query words are the lower-cased `split()` words. |
| KbServer.CountHits | mcp_services/kb/server.py:109 | The score is between 0 and the number of query words. It is 0 exactly when no word occurs, and it is the maximum exactly when every word occurs. |
| KbServer.CountHitsAppend | mcp_services/kb/server.py:109 | Counts over concatenated word lists add up, so a repeated query word counts each time. |
| KbServer.ScoreAll | mcp_services/kb/server.py:106-110 | One scored dictionary per candidate, in candidate order, holding that candidate's hit count. |
| KbServer.ScoreCandidates | mcp_services/kb/server.py:106-110 | The scoring loop builds exactly `ScoreAll`. |
| KbServer.InsertionSortSorted | mcp_services/kb/server.py:112 | The sorted list is ordered by score descending, then by title ascending. |
| KbServer.InsertionSortPermutes | mcp_services/kb/server.py:112 | The sorted list is a permutation of its input. |
| KbServer.InsertionSortStable | mcp_services/kb/server.py:112 | Elements with equal keys keep their input order, as in Python's stable sort. |
| KbServer.RankedTransitive | mcp_services/kb/server.py:112 | The sort order is transitive. |
| KbServer.SortInPlace | mcp_services/kb/server.py:112 | Sorting the array in place leaves the stable sort of its old contents. |
| KbServer.InsertNext | mcp_services/kb/server.py:112 | One pass inserts `a[i]` into the sorted prefix and leaves the rest of the array unchanged. |
| KbServer.PyPrefix | mcp_services/kb/server.py:114 | `s[:limit]` is a prefix of `s` of length `min(limit, len(s))`, with Python's meaning for a negative `limit`. |
| KbServer.KbSearch | mcp_services/kb/server.py:74-114 | The imperative search returns exactly `KbSearchResult`. |
| KbServer.KbSearchIsRanking | mcp_services/kb/server.py:86-104 | A blank query returns []. Any other query returns the ranking for its lower-cased `split()` words. |
| KbServer.RankingLength | mcp_services/kb/server.py:114 | With `limit >= 0` the result holds `min(limit, number of candidates)` articles. |
| KbServer.RankingSorted | mcp_services/kb/server.py:112-114 | Results come by score descending, ties by title ascending. |
| KbServer.RankingFromCandidates | mcp_services/kb/server.py:106-114 | The result is a prefix of a permutation of the scored candidates: nothing is invented or duplicated. |
| KbServer.RankingScores | mcp_services/kb/server.py:104-110 | Every result is a scored candidate. Its score is a whole number between 0 and the number of query words. |
| SupervisorAgent.StepName | agentic/agents/supervisor_agent.py:33-36 | A step is written as one of "resolver", "escalation" or "done". |
| SupervisorAgent.NextStep | agentic/agents/supervisor_agent.py:23-46 | No resolver attempt gives resolver. "done" exactly when the status is "resolved" with confidence at least 0.7. Escalation exactly on "needs_escalation", or on high urgency with high complexity when not confidently resolved. Otherwise resolver. |
| SupervisorAgent.Decide | agentic/agents/supervisor_agent.py:47-48 | `next_step` is always one of the three names, and "done" only for a resolved ticket. |
| Tickets.StatusName | agentic/workflow.py:201-215 | The resolution status is written "resolved" or "needs_escalation", one for each verdict. |
| Tickets.InitialState | agentic/workflow.py:409-416 | The initial state holds the ticket, and no other key is present. |
| Tickets.Merge | agentic/workflow.py:89 | Merging a node's one-key update stores the update's value under its key and leaves the ticket and every other key unchanged. |
| Resolving.IssueQuery | agentic/workflow.py:131 | The query is `normalized_issue` when non-empty, else the ticket content. It is empty only when both are. |
| Resolving.Confidence | agentic/workflow.py:151-155 | 0.2 without hits. With hits the value lies in [0.3, 0.95], is at least 0.5 exactly when the top score is at least 0.4, and at least 0.7 exactly when the top score is at least 0.8. |
| Resolving.TopScore | agentic/workflow.py:149 | The first hit's score, 0.0 when it is missing or there are no hits. Its use is stated by Resolving.Confidence and Resolving.ResolvedIffStrongTopHit. |
| Resolving.LikelyResolvable | agentic/workflow.py:199 | There are hits and the confidence is at least 0.5. Its meaning in terms of the top score is stated by Resolving.ResolvedIffStrongTopHit, and its effect by Resolving.ResolutionFor. |
| Resolving.ConfidenceMonotone | agentic/workflow.py:155 | A higher top score never lowers the confidence. |
| Resolving.UsedArticleIds | agentic/workflow.py:146-148 | The ids are exactly the hits' non-empty article ids, and no more of them than hits. |
| Resolving.UsedArticleIdsAppend | agentic/workflow.py:146-148 | The ids keep hit order: the ids of concatenated hit lists concatenate. |
| Resolving.CollectArticleIds | agentic/workflow.py:146-148 | The collecting loop yields exactly `UsedArticleIds`. |
| Resolving.ResolutionFor | agentic/workflow.py:199-259 | The status is "resolved" exactly when the ticket is likely resolvable. The confidence and the used ids are the computed ones. Resolved tickets carry the model's answer and the fixed notes. Handed-off tickets carry the fixed handoff answer and notes. |
| Resolving.Lookup | agentic/workflow.py:137-186 | Records the hits, the used ids, the top score and the lookup calls made. The search is called only when the tool exists and the query is non-empty. The account and memory lookups are made only for a known user. |
| Resolving.Resolve | agentic/workflow.py:114-280 | `resolver_node` returns `ResolutionFor` and makes exactly the calls `ResolverCalls` lists, whatever the memory write's outcome. |
| Resolving.EmptyQueryMeansHandoff | agentic/workflow.py:137-152 | An empty query: no knowledge-base call, no hits, and a handoff. |
| Resolving.NoHitsMeansHandoff | agentic/workflow.py:151-215 | Without hits the result is the fixed handoff record, with confidence 0.2 and no article ids. |
| Resolving.ResolvedIffStrongTopHit | agentic/workflow.py:149-199 | Resolved exactly when there are hits and the top score is at least 0.4. |
| Resolving.AnswerCallIffResolved | agentic/workflow.py:199-245 | The language model is called exactly when the ticket is resolved, never on a handoff. |
| Resolving.MemoryWriteIffResolvedForUser | agentic/workflow.py:261-278 | Memory is written exactly when the ticket is resolved, the owner id is non-empty and the write tool exists. |
| Resolving.WholeScoreConfidence | agentic/workflow.py:155-199 | With a whole top score, a confidence of at least 0.5 is at least 0.8. |
| Resolving.ResolvedConfidenceWithWholeScores | agentic/workflow.py:155-199 | With a whole top score, a resolved ticket has confidence at least 0.8. |
| Resolving.ResolutionReadsInputsOnly | agentic/workflow.py:128-133 | The resolution depends only on the ticket, the intake and the classification. |
| Workflow.Owner | agentic/workflow.py:89-325 | Each key has exactly one node that writes it. |
| Workflow.ExecNode | agentic/workflow.py:74-325 | Each node's update has exactly the node's own key: intake, classification, supervisor, resolution or escalation. |
| Workflow.RouteFromSupervisor | agentic/workflow.py:330-342 | "resolver" routes to the resolver and "escalation" to escalation. Any other value, a missing key or a missing record ends the run. |
| Workflow.Successor | agentic/workflow.py:374-389 | The engine always moves along an edge of the graph. From the supervisor it follows the router. |
| Workflow.GraphShape | agentic/workflow.py:374-389 | The edges are exactly the five `add_edge` edges and the supervisor's three conditional ones. Only the supervisor branches, to resolver, escalation or the end. Nothing leaves the end, and nothing enters the start. |
| Workflow.RunFrom | agentic/workflow.py:364-394 | The compiled graph's run from a node: run it, merge its update, follow the edge, until the end is reached or the fuel is spent. Its properties are stated by Workflow.RunFromHead, Workflow.RunFromShape, Workflow.RunFromFollowsEdges and Workflow.RunFromPopulates. |
| Workflow.RunTicket | agentic/workflow.py:401-424 | `run_ticket`: the run from intake on Tickets.InitialState. Its properties are stated by Workflow.RunTicketIsWalk, Workflow.EscalationIsLast, Workflow.PopulatedIffVisited and Workflow.PolicyRunsResolverOnce. |
| Workflow.RunFromFollowsEdges | agentic/workflow.py:374-389 | The nodes a run executes, followed by the end marker when it is reached, form a path in the graph. |
| Workflow.RunFromHead | agentic/workflow.py:374-389 | A run begins with the node it starts from, and runs nothing only when it starts at the end marker or has no fuel left. |
| Workflow.RunFromShape | agentic/workflow.py:374-389 | A run executes neither the start nor the end marker, and executes escalation only when it then finishes. |
| Workflow.RunTicketIsWalk | agentic/workflow.py:374-416 | A ticket's run is a walk from the start node and begins with intake. |
| Workflow.EscalationIsLast | agentic/workflow.py:378 | Escalation runs at most once, as the last node, and then the run has ended. |
| Workflow.WalkShape | agentic/workflow.py:374-389 | In a walk from the start, intake and classifier each run once, as the first two nodes. Every supervisor turn after the first comes straight after a resolver pass. |
| Workflow.RunFromPopulates | agentic/workflow.py:409-416 | A run leaves the ticket unchanged. A key is present afterwards exactly when it was present before or its owning node ran. |
| Workflow.PopulatedIffVisited | agentic/workflow.py:409-416 | From the initial state, a key is present after the run exactly when its node ran. |
| Workflow.SecondTurnSettles | agentic/workflow.py:306-342 | Under the policy, a supervisor turn that sees a verdict ends the run ("done") or escalates once; resolved verdicts need confidence at least 0.8. |
| Workflow.FirstTurnResolvesOnce | agentic/workflow.py:306-389 | Under the policy with whole scores, the first supervisor turn leads to exactly one resolver pass, then done or escalation. |
| Workflow.PolicyRunsResolverOnce | agentic/workflow.py:374-389 | Under the policy with whole scores, the run finishes with trace intake, classifier, supervisor, resolver, supervisor, plus escalation exactly on a handoff. The final `next_step` is "done" for resolved tickets and "escalation" otherwise. |
| Workflow.MidConfidenceCycles | agentic/workflow.py:330-342 | A resolved verdict below 0.7 confidence on a ticket that is not both urgent and complex is routed back to the resolver forever. |
| Workflow.FractionalResolverPass | agentic/workflow.py:149-199 | A resolver pass whose only hit scores 0.5 yields a resolved verdict at confidence 0.55, and from there the run never ends. |
| Workflow.FractionalFirstTurn | agentic/workflow.py:155-199 | From the supervisor's first turn, with the only hit scoring 0.5 and a ticket that is not both urgent and complex, the run never ends. |
| Workflow.FractionalScoreNeverFinishes | agentic/workflow.py:155-199 | A knowledge base whose top score were 0.5 would keep a ticket cycling between supervisor and resolver: the bound above rests on whole scores. |
| EndToEnd.ToHits | agentic/workflow.py:146-149 | Each result dictionary becomes a hit with the same article id and score. |
| EndToEnd.KbSearchScoresAreWhole | mcp_services/kb/server.py:109-110 | Every hit from `kb_search` carries a whole-number score. |
| EndToEnd.KbBackedEnvHasWholeScores | mcp_services/kb/server.py:109-110 | A resolver backed by `kb_search` always sees a whole top score. |
| EndToEnd.KbResolvedConfidence | agentic/workflow.py:155-199 | A ticket resolved from the knowledge base has confidence at least 0.8. |
| EndToEnd.KbBackedTicketRunsResolverOnce | agentic/workflow.py:374-389 | With `kb_search` behind the resolver and the documented policy, every ticket finishes and visits the resolver exactly once. Resolved tickets end with "done", and escalation is populated exactly for handed-off tickets. |

## Left out

- **Language models.** The intake, classifier, escalation and supervisor chains and the resolver's `LLM.invoke` are opaque functions. Their prompt text is not modelled; `SupervisorAgent.Decide` is the policy their prompt documents, assumed where a lemma requires `FollowsPolicy`. The supervisor's "reason" field is not modelled.
- **Resolver prompt.** The account, reservation and memory lookups are recorded as calls, but their results are not fed to the answer. The answer is a function of the issue and the hits only. The knowledge-base, account and memory snippet text is not modelled.
- **MCP transport and tool discovery.** The tools are present or absent flags, and their results are inputs.
- **Search payload as a string.** The model's search results are lists of hit records. The comment at `tests/test_kb_tool.py:23-24` says the search tool may answer with a JSON string instead, and an empty string when nothing is found. An empty string becomes no hits (`or []`, `agentic/workflow.py:142-144`). A non-empty string would reach `a.get` at `agentic/workflow.py:147` and raise, aborting the run. That reading of the code has not been executed. The model's hits, and the whole-score argument built on them, treat the results as records.
- **Exceptions from tools and agents.** Only the memory write is wrapped in `try`/`except` (`agentic/workflow.py:263-278`). An exception anywhere else propagates and aborts `run_ticket`: in the knowledge-base search (142), the account lookups (162, 169), the memory search (178) and `LLM.invoke` (239), and in the intake, classifier, supervisor and escalation chains. In the model, every tool and agent is a total function, so a run never aborts.
- **Account and memory services.** These are database queries and are not part of this model. The memory write is recorded with its outcome, and its failure is swallowed.
- **SQL candidate filter.** The `ilike` filter of `kb_search` is not modelled: the candidate rows are an input, in database order. A database row is modelled with text columns, and only `tags` may be null.
- **Asynchrony and checkpointing.** `asyncio`, awaits, `MemorySaver` and thread ids are runtime concerns and are not modelled.
- **Front end and tooling.** The CLI, logging, debug scripts and `agentic/agents/resolver_agent.py` are not part of this model.
- **Text.Lower:** maps only A–Z. Python's `lower()` also maps non-ASCII letters.
- **Floating point.** Scores and confidences are exact reals, not IEEE doubles.
- **Workflow.RunFrom:** a fuel bound on the number of nodes run is a device of the model. The source has no iteration cap; LangGraph's own recursion limit is not modelled.
- **Resolving.Resolve:** requires the classification to be present even on the handoff path, where the source does not read it. The workflow always populates it before the resolver runs.
- **Confidence and loop bounds.** With hits, the confidence is clamped below at 0.3. The verdict reads only the hits and the confidence. The supervisor-resolver loop has no cap. The bound in `Workflow.PolicyRunsResolverOnce` comes from whole scores and the documented policy, and `Workflow.FractionalScoreNeverFinishes` shows that without whole scores the loop need not end.
