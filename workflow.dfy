/**
 * The LangGraph workflow as a small state machine: the node set, the fixed edges, the
 * supervisor's conditional edge, the one-key update each node writes, and the engine that
 * runs the nodes from the initial state. The language-model agents are parameters.
 */
module Workflow {
  import opened Wrappers
  import Tickets
  import SupervisorAgent
  import Resolving

  datatype Node = Start | IntakeNode | ClassifierNode | SupervisorNode | ResolverNode | EscalationNode | End

  /** A node that runs code; `Start` and `End` are markers. */
  predicate IsTask(n: Node) {
    n != Start && n != End
  }

  // The prompt variables each agent is invoked with.

  datatype IntakeInput = IntakeInput(ticketContent: string, channel: string, tags: string, ownerName: string)

  datatype ClassifierInput = ClassifierInput(
    ticketContent: string, normalizedIssue: string, sentiment: string, channel: string, tags: string)

  datatype EscalationInput = EscalationInput(
    ticketContent: string,
    intakeSummary: string,
    sentiment: string,
    classification: Option<Tickets.Classification>,
    resolverNotes: string)

  /** The agent chains, each an opaque function of its prompt variables, and the resolver's tools. */
  datatype Agents = Agents(
    intake: IntakeInput -> Tickets.Intake,
    classifier: ClassifierInput -> Tickets.Classification,
    supervisor: SupervisorAgent.SupervisorInput -> SupervisorAgent.SupervisorOut,
    escalation: EscalationInput -> Tickets.Escalation,
    resolver: Resolving.ResolverEnv)

  function IntakeInputOf(s: Tickets.TicketState): IntakeInput {
    var t := s.ticket;
    IntakeInput(t.content.GetOr(""), t.channel.GetOr("unknown"), t.tags.GetOr(""), t.ownerName.GetOr(""))
  }

  function ClassifierInputOf(s: Tickets.TicketState): ClassifierInput
    requires s.intake.Some?
  {
    var t := s.ticket;
    var i := s.intake.value;
    ClassifierInput(
      t.content.GetOr(""), i.normalizedIssue.GetOr(""), i.sentiment.GetOr("neutral"),
      t.channel.GetOr("unknown"), t.tags.GetOr(""))
  }

  function SupervisorInputOf(s: Tickets.TicketState): SupervisorAgent.SupervisorInput
    requires s.intake.Some? && s.classification.Some?
  {
    var c := s.classification.value;
    SupervisorAgent.SupervisorInput(
      s.intake.value.summary.GetOr(""),
      c.issueType.GetOr("other"),
      c.urgency.GetOr("low"),
      c.complexity.GetOr("low"),
      if s.resolution.Some? then Some(Tickets.StatusName(s.resolution.value.status)) else None,
      if s.resolution.Some? then Some(s.resolution.value.confidence) else None)
  }

  function EscalationInputOf(s: Tickets.TicketState): EscalationInput
    requires s.intake.Some?
  {
    var i := s.intake.value;
    EscalationInput(
      s.ticket.content.GetOr(""),
      i.summary.GetOr(""),
      i.sentiment.GetOr("neutral"),
      s.classification,
      if s.resolution.Some? then s.resolution.value.notesForHuman else "")
  }

  /** The entries a node dereferences are present. */
  predicate Ready(n: Node, s: Tickets.TicketState) {
    match n
    case IntakeNode => true
    case ClassifierNode => s.intake.Some?
    case EscalationNode => s.intake.Some?
    case SupervisorNode => s.intake.Some? && s.classification.Some?
    case ResolverNode => Resolving.Ready(s)
    case _ => false
  }

  /** The key a node writes. */
  function OwnKey(n: Node): Tickets.Key
    requires IsTask(n)
  {
    match n
    case IntakeNode => Tickets.IntakeKey
    case ClassifierNode => Tickets.ClassificationKey
    case SupervisorNode => Tickets.SupervisorKey
    case ResolverNode => Tickets.ResolutionKey
    case EscalationNode => Tickets.EscalationKey
  }

  /** The node that writes a key. */
  function Owner(k: Tickets.Key): (n: Node)
    ensures IsTask(n) && OwnKey(n) == k
    ensures forall m :: IsTask(m) && OwnKey(m) == k ==> m == n
  {
    match k
    case IntakeKey => IntakeNode
    case ClassificationKey => ClassifierNode
    case SupervisorKey => SupervisorNode
    case ResolutionKey => ResolverNode
    case EscalationKey => EscalationNode
  }

  /** One node's run: the one-key partial update it returns. */
  function ExecNode(ag: Agents, n: Node, s: Tickets.TicketState): (u: Tickets.Update)
    requires Ready(n, s)
    ensures IsTask(n) && Tickets.KeyOf(u) == OwnKey(n)
  {
    match n
    case IntakeNode => Tickets.IntakeUpdate(ag.intake(IntakeInputOf(s)))
    case ClassifierNode => Tickets.ClassificationUpdate(ag.classifier(ClassifierInputOf(s)))
    case SupervisorNode => Tickets.SupervisorUpdate(ag.supervisor(SupervisorInputOf(s)))
    case ResolverNode => Tickets.ResolutionUpdate(Resolving.ResolutionFor(s, ag.resolver))
    case EscalationNode => Tickets.EscalationUpdate(ag.escalation(EscalationInputOf(s)))
  }

  /** `route_from_supervisor`: a missing record or key reads as "done"; anything unknown ends the run. */
  function RouteFromSupervisor(s: Tickets.TicketState): (n: Node)
    ensures n in {ResolverNode, EscalationNode, End}
    ensures n == ResolverNode <==> s.supervisor.Some? && s.supervisor.value.nextStep == Some("resolver")
    ensures n == EscalationNode <==> s.supervisor.Some? && s.supervisor.value.nextStep == Some("escalation")
  {
    var nextStep := if s.supervisor.Some? then s.supervisor.value.nextStep.GetOr("done") else "done";
    if nextStep == "resolver" then ResolverNode
    else if nextStep == "escalation" then EscalationNode
    else End
  }

  /** The edges added with `add_edge`. */
  const FixedEdges: set<(Node, Node)> := {
    (Start, IntakeNode), (IntakeNode, ClassifierNode), (ClassifierNode, SupervisorNode),
    (ResolverNode, SupervisorNode), (EscalationNode, End)
  }

  /** The targets of the supervisor's conditional edge. */
  const SupervisorTargets: set<Node> := {ResolverNode, EscalationNode, End}

  /** The graph's edges, node by node. */
  predicate IsEdge(a: Node, b: Node) {
    match a
    case Start => b == IntakeNode
    case IntakeNode => b == ClassifierNode
    case ClassifierNode => b == SupervisorNode
    case SupervisorNode => b == ResolverNode || b == EscalationNode || b == End
    case ResolverNode => b == SupervisorNode
    case EscalationNode => b == End
    case End => false
  }

  /** The node the engine moves to after `n` has written `s`. */
  function Successor(n: Node, s: Tickets.TicketState): (m: Node)
    requires IsTask(n)
    ensures IsEdge(n, m)
    ensures n == SupervisorNode ==> m == RouteFromSupervisor(s)
  {
    match n
    case IntakeNode => ClassifierNode
    case ClassifierNode => SupervisorNode
    case SupervisorNode => RouteFromSupervisor(s)
    case ResolverNode => SupervisorNode
    case EscalationNode => End
  }

  /**
   * The edges are exactly the `add_edge` edges and the supervisor's conditional ones. Only the
   * supervisor branches; nothing leaves `End`; nothing enters `Start`.
   */
  lemma GraphShape()
    ensures forall a, b :: IsEdge(a, b) <==> (a, b) in FixedEdges || (a == SupervisorNode && b in SupervisorTargets)
    ensures forall a, b, c :: a != SupervisorNode && IsEdge(a, b) && IsEdge(a, c) ==> b == c
    ensures forall b :: !IsEdge(End, b) && !IsEdge(b, Start)
    ensures forall b :: IsEdge(SupervisorNode, b) <==> b in SupervisorTargets
  {
  }

  /** The result of running the engine: the final state, the nodes run in order, and whether `End` was reached. */
  datatype Run = Run(state: Tickets.TicketState, trace: seq<Node>, finished: bool)

  /**
   * The engine from node `n`: run it, merge its update, follow the edge. The fuel bounds the
   * number of nodes run; it is a device of the model, not part of the workflow.
   */
  function RunFrom(ag: Agents, n: Node, s: Tickets.TicketState, fuel: nat): Run
    requires n == End || Ready(n, s)
    decreases fuel
  {
    if n == End then Run(s, [], true)
    else if fuel == 0 then Run(s, [], false)
    else
      var s' := Tickets.Merge(s, ExecNode(ag, n, s));
      var r := RunFrom(ag, Successor(n, s'), s', fuel - 1);
      Run(r.state, [n] + r.trace, r.finished)
  }

  /** `run_ticket`: the engine from `intake` on the initial state. */
  function RunTicket(ag: Agents, t: Tickets.Ticket, fuel: nat): Run {
    RunFrom(ag, IntakeNode, Tickets.InitialState(t), fuel)
  }

  // The run is a walk of the graph.

  predicate IsPath(p: seq<Node>) {
    forall i :: 0 <= i < |p| - 1 ==> IsEdge(p[i], p[i + 1])
  }

  /** The visited nodes, with `End` appended when it was reached. */
  function Closed(r: Run): seq<Node> {
    r.trace + (if r.finished then [End] else [])
  }

  /** One step of the engine: run `n`, merge, and continue from its successor. */
  lemma RunFromUnfold(ag: Agents, n: Node, s: Tickets.TicketState, fuel: nat)
    requires n != End && Ready(n, s) && fuel > 0
    ensures var s' := Tickets.Merge(s, ExecNode(ag, n, s));
      var r' := RunFrom(ag, Successor(n, s'), s', fuel - 1);
      RunFrom(ag, n, s, fuel) == Run(r'.state, [n] + r'.trace, r'.finished)
  {
  }

  lemma PathCons(a: Node, p: seq<Node>)
    requires IsPath(p) && (p != [] ==> IsEdge(a, p[0]))
    ensures IsPath([a] + p)
  {
    var q := [a] + p;
    forall i | 0 <= i < |q| - 1
      ensures IsEdge(q[i], q[i + 1])
    {
      if i > 0 {
        assert q[i] == p[i - 1] && q[i + 1] == p[i];
      }
    }
  }

  /** A run starts at its first node, and runs nothing only when it starts at `End` or has no fuel. */
  lemma RunFromHead(ag: Agents, n: Node, s: Tickets.TicketState, fuel: nat)
    requires n == End || Ready(n, s)
    ensures var r := RunFrom(ag, n, s, fuel);
      && (r.trace != [] ==> r.trace[0] == n)
      && (r.trace == [] ==> (r.finished <==> n == End))
      && (r.trace == [] <==> (n == End || fuel == 0))
  {
    if n != End && fuel > 0 {
      RunFromUnfold(ag, n, s, fuel);
    }
  }

  /** A run runs only task nodes, and escalates only if it finishes. */
  lemma {:induction false} RunFromShape(ag: Agents, n: Node, s: Tickets.TicketState, fuel: nat)
    requires n == End || Ready(n, s)
    ensures var r := RunFrom(ag, n, s, fuel);
      && (forall i :: 0 <= i < |r.trace| ==> IsTask(r.trace[i]))
      && (!r.finished ==> forall i :: 0 <= i < |r.trace| ==> r.trace[i] != EscalationNode)
    decreases fuel
  {
    if n != End && fuel > 0 {
      var s' := Tickets.Merge(s, ExecNode(ag, n, s));
      var m := Successor(n, s');
      RunFromShape(ag, m, s', fuel - 1);
      RunFromUnfold(ag, n, s, fuel);
      ShapeCons(n, RunFrom(ag, m, s', fuel - 1));
    }
  }

  /** Running a task node first keeps the shape stated by `RunFromShape`. */
  lemma ShapeCons(n: Node, r': Run)
    requires IsTask(n) && (n == EscalationNode ==> r'.finished)
    requires forall i :: 0 <= i < |r'.trace| ==> IsTask(r'.trace[i])
    requires !r'.finished ==> forall i :: 0 <= i < |r'.trace| ==> r'.trace[i] != EscalationNode
    ensures var r := Run(r'.state, [n] + r'.trace, r'.finished);
      && (forall i :: 0 <= i < |r.trace| ==> IsTask(r.trace[i]))
      && (!r.finished ==> forall i :: 0 <= i < |r.trace| ==> r.trace[i] != EscalationNode)
  {
    var t := [n] + r'.trace;
    assert forall i :: 0 < i < |t| ==> t[i] == r'.trace[i - 1];
  }

  /** One step of the visited nodes: `n`, then those of the run from its successor, which starts there. */
  lemma ClosedUnfold(ag: Agents, n: Node, s: Tickets.TicketState, fuel: nat)
    requires n != End && Ready(n, s) && fuel > 0
    ensures var s' := Tickets.Merge(s, ExecNode(ag, n, s));
      var m := Successor(n, s');
      var c' := Closed(RunFrom(ag, m, s', fuel - 1));
      && Closed(RunFrom(ag, n, s, fuel)) == [n] + c'
      && IsEdge(n, m)
      && (c' != [] ==> c'[0] == m)
  {
    var s' := Tickets.Merge(s, ExecNode(ag, n, s));
    var r' := RunFrom(ag, Successor(n, s'), s', fuel - 1);
    RunFromHead(ag, Successor(n, s'), s', fuel - 1);
    RunFromUnfold(ag, n, s, fuel);
    ClosedCons(n, r');
  }

  /** Running `n` first puts `n` in front of the visited nodes. */
  lemma ClosedCons(n: Node, r': Run)
    ensures Closed(Run(r'.state, [n] + r'.trace, r'.finished)) == [n] + Closed(r')
    ensures Closed(r') != [] && r'.trace != [] ==> Closed(r')[0] == r'.trace[0]
    ensures r'.trace == [] ==> Closed(r') == (if r'.finished then [End] else [])
  {
  }

  /** The nodes a run visits, followed by `End` if it gets there, form a path of the graph. */
  lemma {:induction false} RunFromFollowsEdges(ag: Agents, n: Node, s: Tickets.TicketState, fuel: nat)
    requires n == End || Ready(n, s)
    ensures IsPath(Closed(RunFrom(ag, n, s, fuel)))
    decreases fuel
  {
    if n != End && fuel > 0 {
      var s' := Tickets.Merge(s, ExecNode(ag, n, s));
      var m := Successor(n, s');
      RunFromFollowsEdges(ag, m, s', fuel - 1);
      ClosedUnfold(ag, n, s, fuel);
      PathCons(n, Closed(RunFrom(ag, m, s', fuel - 1)));
    }
  }

  /** A run of a ticket walks the graph from `Start`; it runs `intake` first whenever it runs anything. */
  lemma RunTicketIsWalk(ag: Agents, t: Tickets.Ticket, fuel: nat)
    ensures var r := RunTicket(ag, t, fuel);
      && IsPath([Start] + Closed(r))
      && (fuel > 0 ==> r.trace != [] && r.trace[0] == IntakeNode)
  {
    RunFromFollowsEdges(ag, IntakeNode, Tickets.InitialState(t), fuel);
    RunFromHead(ag, IntakeNode, Tickets.InitialState(t), fuel);
    PathCons(Start, Closed(RunTicket(ag, t, fuel)));
  }

  /** Escalation runs at most once, as the last node, and the run then ends. */
  lemma EscalationIsLast(ag: Agents, t: Tickets.Ticket, fuel: nat)
    ensures var r := RunTicket(ag, t, fuel);
      forall i :: 0 <= i < |r.trace| && r.trace[i] == EscalationNode ==> i == |r.trace| - 1 && r.finished
  {
    var r := RunTicket(ag, t, fuel);
    RunFromFollowsEdges(ag, IntakeNode, Tickets.InitialState(t), fuel);
    RunFromShape(ag, IntakeNode, Tickets.InitialState(t), fuel);
    forall i | 0 <= i < |r.trace| - 1
      ensures r.trace[i] != EscalationNode
    {
      assert Closed(r)[i] == r.trace[i];
      assert Closed(r)[i + 1] == r.trace[i + 1];
    }
  }

  /**
   * In a walk from `Start`, intake and classifier are the first two nodes and occur once, and
   * every supervisor turn other than the first comes straight after a resolver pass.
   */
  lemma WalkShape(p: seq<Node>)
    requires IsPath(p) && p != [] && p[0] == Start
    ensures forall i :: 0 <= i < |p| && p[i] == IntakeNode ==> i == 1
    ensures forall i :: 0 <= i < |p| && p[i] == ClassifierNode ==> i == 2
    ensures forall i :: 0 <= i < |p| && p[i] == SupervisorNode && i != 3 ==> 0 < i && p[i - 1] == ResolverNode
    ensures forall i :: 0 <= i < |p| && p[i] == ResolverNode ==> 0 < i && p[i - 1] == SupervisorNode
  {
    assert forall i :: 0 < i < |p| ==> p[i] != Start by {
      forall i | 0 < i < |p| ensures p[i] != Start {
        assert IsEdge(p[i - 1], p[i]);
      }
    }
    forall i | 0 <= i < |p| && p[i] == IntakeNode ensures i == 1 {
      assert IsEdge(p[i - 1], p[i]);
    }
    forall i | 0 <= i < |p| && p[i] == ClassifierNode ensures i == 2 {
      assert IsEdge(p[i - 1], p[i]);
      assert p[i - 1] == IntakeNode;
    }
    forall i | 0 <= i < |p| && p[i] == SupervisorNode && i != 3 ensures 0 < i && p[i - 1] == ResolverNode {
      assert IsEdge(p[i - 1], p[i]);
    }
    forall i | 0 <= i < |p| && p[i] == ResolverNode ensures 0 < i && p[i - 1] == SupervisorNode {
      assert IsEdge(p[i - 1], p[i]);
    }
  }

  // Each node writes only its own key.

  lemma {:induction false} RunFromPopulates(ag: Agents, n: Node, s: Tickets.TicketState, fuel: nat)
    requires n == End || Ready(n, s)
    ensures var r := RunFrom(ag, n, s, fuel);
      && r.state.ticket == s.ticket
      && forall k :: Tickets.Populated(r.state, k) <==> Tickets.Populated(s, k) || Owner(k) in r.trace
    decreases fuel
  {
    if n != End && fuel > 0 {
      var s' := Tickets.Merge(s, ExecNode(ag, n, s));
      RunFromPopulates(ag, Successor(n, s'), s', fuel - 1);
    }
  }

  /** After a run, an entry is present exactly when the node owning it has run; the ticket is untouched. */
  lemma PopulatedIffVisited(ag: Agents, t: Tickets.Ticket, fuel: nat)
    ensures var r := RunTicket(ag, t, fuel);
      && r.state.ticket == t
      && forall k :: Tickets.Populated(r.state, k) <==> Owner(k) in r.trace
  {
    RunFromPopulates(ag, IntakeNode, Tickets.InitialState(t), fuel);
  }

  // Under the documented supervisor policy.

  /** The supervisor agent applies the documented decision table. */
  ghost predicate FollowsPolicy(ag: Agents) {
    forall i :: ag.supervisor(i) == SupervisorAgent.Decide(i)
  }

  /** Every non-empty hit list the search returns starts with a whole score. */
  ghost predicate WholeScores(env: Resolving.ResolverEnv) {
    forall q, l :: env.kbSearch(q, l) != [] ==> Resolving.IsWhole(Resolving.TopScore(env.kbSearch(q, l)))
  }

  /** The supervisor's second turn, after one resolver pass, either ends the run or escalates. */
  lemma {:induction false} SecondTurnSettles(ag: Agents, s: Tickets.TicketState, fuel: nat)
    requires FollowsPolicy(ag) && Ready(SupervisorNode, s) && s.resolution.Some?
    requires s.resolution.value.status == Tickets.Resolved ==> s.resolution.value.confidence >= 0.8
    requires fuel >= 2
    ensures var r := RunFrom(ag, SupervisorNode, s, fuel);
      && r.finished
      && r.state.resolution == s.resolution
      && r.state.supervisor == Some(FinalStep(s.resolution.value.status))
      && r.trace == Settled(s.resolution.value.status)
      && (s.resolution.value.status == Tickets.NeedsEscalation ==> r.state.escalation.Some?)
  {
    var s' := Tickets.Merge(s, ExecNode(ag, SupervisorNode, s));
    assert s'.supervisor == Some(SupervisorAgent.Decide(SupervisorInputOf(s)));
    if s.resolution.value.status == Tickets.Resolved {
      assert RouteFromSupervisor(s') == End;
    } else {
      assert RouteFromSupervisor(s') == EscalationNode;
      var s'' := Tickets.Merge(s', ExecNode(ag, EscalationNode, s'));
      assert RunFrom(ag, EscalationNode, s', fuel - 1) == Run(s'', [EscalationNode], true);
    }
  }

  /** The supervisor's final decision for a resolver verdict under the documented policy. */
  function FinalStep(status: Tickets.Status): SupervisorAgent.SupervisorOut {
    SupervisorAgent.SupervisorOut(Some(if status == Tickets.Resolved then "done" else "escalation"))
  }

  /** The last node the supervisor's second turn leads to: escalation on a handoff, nothing otherwise. */
  function Settled(status: Tickets.Status): seq<Node> {
    if status == Tickets.NeedsEscalation then [SupervisorNode, EscalationNode] else [SupervisorNode]
  }

  /** The supervisor's first turn, with no resolution yet, sends the ticket to the resolver once. */
  lemma {:induction false} FirstTurnResolvesOnce(ag: Agents, s: Tickets.TicketState, fuel: nat)
    requires FollowsPolicy(ag) && WholeScores(ag.resolver)
    requires Ready(SupervisorNode, s) && s.resolution.None? && fuel >= 4
    ensures var r := RunFrom(ag, SupervisorNode, s, fuel);
      && r.finished
      && r.state.resolution.Some?
      && r.trace == [SupervisorNode, ResolverNode] + Settled(r.state.resolution.value.status)
      && r.state.supervisor == Some(FinalStep(r.state.resolution.value.status))
      && (r.state.resolution.value.status == Tickets.NeedsEscalation ==> r.state.escalation.Some?)
  {
    var s3 := Tickets.Merge(s, ExecNode(ag, SupervisorNode, s));
    assert s3.supervisor == Some(SupervisorAgent.Decide(SupervisorInputOf(s)));
    assert RouteFromSupervisor(s3) == ResolverNode;
    var s4 := Tickets.Merge(s3, ExecNode(ag, ResolverNode, s3));
    assert s4.resolution == Some(Resolving.ResolutionFor(s3, ag.resolver));
    Resolving.ResolvedConfidenceWithWholeScores(s3, ag.resolver);
    SecondTurnSettles(ag, s4, fuel - 2);
    RunFromUnfold(ag, SupervisorNode, s, fuel);
    RunFromUnfold(ag, ResolverNode, s3, fuel - 1);
  }

  /**
   * With whole knowledge-base scores and the documented policy, a ticket runs intake,
   * classifier, supervisor, resolver, supervisor, and then escalation exactly when the
   * resolver handed off: the resolver runs once and the run ends.
   */
  lemma PolicyRunsResolverOnce(ag: Agents, t: Tickets.Ticket, fuel: nat)
    requires FollowsPolicy(ag) && WholeScores(ag.resolver) && fuel >= 6
    ensures var r := RunTicket(ag, t, fuel);
      && r.finished
      && r.state.resolution.Some?
      && r.trace == [IntakeNode, ClassifierNode, SupervisorNode, ResolverNode]
                    + Settled(r.state.resolution.value.status)
      && r.state.supervisor == Some(FinalStep(r.state.resolution.value.status))
      && (r.state.resolution.value.status == Tickets.NeedsEscalation ==> r.state.escalation.Some?)
  {
    var s0 := Tickets.InitialState(t);
    var s1 := Tickets.Merge(s0, ExecNode(ag, IntakeNode, s0));
    var s2 := Tickets.Merge(s1, ExecNode(ag, ClassifierNode, s1));
    FirstTurnResolvesOnce(ag, s2, fuel - 2);
    RunFromUnfold(ag, IntakeNode, s0, fuel);
    RunFromUnfold(ag, ClassifierNode, s1, fuel - 1);
  }

  /**
   * The bound above needs whole scores: a resolved record below 0.7 confidence on a ticket that
   * is not both urgent and complex is sent back to the resolver, which produces it again.
   */
  lemma {:induction false} MidConfidenceCycles(ag: Agents, s: Tickets.TicketState, fuel: nat)
    requires FollowsPolicy(ag) && Ready(SupervisorNode, s)
    requires s.resolution == Some(Resolving.ResolutionFor(s, ag.resolver))
    requires s.resolution.value.status == Tickets.Resolved && s.resolution.value.confidence < 0.7
    requires !SupervisorAgent.HighUrgencyAndComplexity(SupervisorInputOf(s))
    ensures !RunFrom(ag, SupervisorNode, s, fuel).finished
    decreases fuel
  {
    if fuel > 0 {
      var s' := Tickets.Merge(s, ExecNode(ag, SupervisorNode, s));
      assert s'.supervisor == Some(SupervisorAgent.Decide(SupervisorInputOf(s)));
      assert RouteFromSupervisor(s') == ResolverNode;
      if fuel > 1 {
        var s'' := Tickets.Merge(s', ExecNode(ag, ResolverNode, s'));
        Resolving.ResolutionReadsInputsOnly(s, s', ag.resolver);
        Resolving.ResolutionReadsInputsOnly(s, s'', ag.resolver);
        MidConfidenceCycles(ag, s'', fuel - 2);
      }
    }
  }

  /** A resolver pass on a ticket whose only hit scores 0.5 produces a verdict that cycles forever. */
  lemma FractionalResolverPass(ag: Agents, s: Tickets.TicketState, fuel: nat)
    requires FollowsPolicy(ag) && ag.resolver.tools.kbSearch && Resolving.Truthy(s.ticket.content)
    requires forall q, l :: ag.resolver.kbSearch(q, l) == [Resolving.Hit(None, Some(0.5))]
    requires Ready(SupervisorNode, s)
    requires !SupervisorAgent.HighUrgencyAndComplexity(SupervisorInputOf(s))
    ensures !RunFrom(ag, ResolverNode, s, fuel).finished
  {
    if fuel > 0 {
      var s' := Tickets.Merge(s, ExecNode(ag, ResolverNode, s));
      assert Resolving.KbHits(s, ag.resolver) == [Resolving.Hit(None, Some(0.5))];
      assert Resolving.Confidence(Resolving.KbHits(s, ag.resolver)) == 0.55;
      Resolving.ResolutionReadsInputsOnly(s, s', ag.resolver);
      MidConfidenceCycles(ag, s', fuel - 1);
      RunFromUnfold(ag, ResolverNode, s, fuel);
    }
  }

  /** The supervisor's first turn on a ticket whose only hit scores 0.5 starts a cycle that never ends. */
  lemma FractionalFirstTurn(ag: Agents, s: Tickets.TicketState, fuel: nat)
    requires FollowsPolicy(ag) && ag.resolver.tools.kbSearch && Resolving.Truthy(s.ticket.content)
    requires forall q, l :: ag.resolver.kbSearch(q, l) == [Resolving.Hit(None, Some(0.5))]
    requires Ready(SupervisorNode, s) && s.resolution.None?
    requires !SupervisorAgent.HighUrgencyAndComplexity(SupervisorInputOf(s))
    ensures !RunFrom(ag, SupervisorNode, s, fuel).finished
  {
    if fuel > 0 {
      var s' := Tickets.Merge(s, ExecNode(ag, SupervisorNode, s));
      assert s'.supervisor == Some(SupervisorAgent.Decide(SupervisorInputOf(s)));
      assert RouteFromSupervisor(s') == ResolverNode;
      assert SupervisorInputOf(s').urgency == SupervisorInputOf(s).urgency;
      assert SupervisorInputOf(s').complexity == SupervisorInputOf(s).complexity;
      FractionalResolverPass(ag, s', fuel - 1);
      RunFromUnfold(ag, SupervisorNode, s, fuel);
    }
  }

  /**
   * A knowledge base whose top hit scores 0.5, under the documented policy and a low-urgency
   * classification, never lets a ticket with content reach the end.
   */
  lemma FractionalScoreNeverFinishes(ag: Agents, t: Tickets.Ticket, fuel: nat)
    requires FollowsPolicy(ag) && ag.resolver.tools.kbSearch && Resolving.Truthy(t.content)
    requires forall q, l :: ag.resolver.kbSearch(q, l) == [Resolving.Hit(None, Some(0.5))]
    requires forall i :: ag.classifier(i).urgency == Some("low")
    ensures !RunTicket(ag, t, fuel).finished
  {
    var s0 := Tickets.InitialState(t);
    if fuel > 0 {
      var s1 := Tickets.Merge(s0, ExecNode(ag, IntakeNode, s0));
      RunFromUnfold(ag, IntakeNode, s0, fuel);
      if fuel > 1 {
        var s2 := Tickets.Merge(s1, ExecNode(ag, ClassifierNode, s1));
        RunFromUnfold(ag, ClassifierNode, s1, fuel - 1);
        FractionalFirstTurn(ag, s2, fuel - 2);
      }
    }
  }
}
