/**
 * The shared ticket state threaded through the workflow, and the one-key partial updates
 * the nodes return, merged into it by field name.
 */
module Tickets {
  import opened Wrappers
  import SupervisorAgent

  /** The ticket dictionary the caller submits; `None` stands for a missing key. */
  datatype Ticket = Ticket(
    content: Option<string>,
    ownerId: Option<string>,
    ownerName: Option<string>,
    channel: Option<string>,
    tags: Option<string>,
    ticketId: Option<string>)

  /** The intake agent's output, as far as later nodes read it. */
  datatype Intake = Intake(
    summary: Option<string>,
    normalizedIssue: Option<string>,
    sentiment: Option<string>)

  /** The classifier agent's output, as far as later nodes read it. */
  datatype Classification = Classification(
    issueType: Option<string>,
    urgency: Option<string>,
    complexity: Option<string>)

  datatype Status = Resolved | NeedsEscalation

  /** The string stored under "status". */
  function StatusName(status: Status): (name: string)
    ensures name == "resolved" <==> status == Resolved
    ensures name == "needs_escalation" <==> status == NeedsEscalation
  {
    match status
    case Resolved => "resolved"
    case NeedsEscalation => "needs_escalation"
  }

  /** The resolver's record: both of its shapes have these five keys. */
  datatype Resolution = Resolution(
    status: Status,
    answer: string,
    confidence: real,
    usedKbArticles: seq<string>,
    notesForHuman: string)

  /** The escalation agent's handoff record, as far as callers inspect it. */
  datatype Escalation = Escalation(summaryForHuman: Option<string>)

  /** `TicketState`: one optional entry per key; `None` is an absent or `None` value. */
  datatype TicketState = TicketState(
    ticket: Ticket,
    intake: Option<Intake>,
    classification: Option<Classification>,
    resolution: Option<Resolution>,
    escalation: Option<Escalation>,
    supervisor: Option<SupervisorAgent.SupervisorOut>)

  /** The state `run_ticket` starts from: the ticket, and every other key `None`. */
  function InitialState(t: Ticket): (s: TicketState)
    ensures s.ticket == t
    ensures forall k :: !Populated(s, k)
  {
    TicketState(t, None, None, None, None, None)
  }

  /** The keys a node may write. */
  datatype Key = IntakeKey | ClassificationKey | ResolutionKey | EscalationKey | SupervisorKey

  /** A node's return value: a dictionary with exactly one key. */
  datatype Update =
    | IntakeUpdate(intake: Intake)
    | ClassificationUpdate(classification: Classification)
    | ResolutionUpdate(resolution: Resolution)
    | EscalationUpdate(escalation: Escalation)
    | SupervisorUpdate(supervisor: SupervisorAgent.SupervisorOut)

  function KeyOf(u: Update): Key {
    match u
    case IntakeUpdate(_) => IntakeKey
    case ClassificationUpdate(_) => ClassificationKey
    case ResolutionUpdate(_) => ResolutionKey
    case EscalationUpdate(_) => EscalationKey
    case SupervisorUpdate(_) => SupervisorKey
  }

  /** The entry under key `k` is present. */
  predicate Populated(s: TicketState, k: Key) {
    match k
    case IntakeKey => s.intake.Some?
    case ClassificationKey => s.classification.Some?
    case ResolutionKey => s.resolution.Some?
    case EscalationKey => s.escalation.Some?
    case SupervisorKey => s.supervisor.Some?
  }

  /** `s` and `r` hold the same ticket and the same entry under every key but `k`. */
  predicate AgreeExcept(s: TicketState, r: TicketState, k: Key) {
    && r.ticket == s.ticket
    && (k != IntakeKey ==> r.intake == s.intake)
    && (k != ClassificationKey ==> r.classification == s.classification)
    && (k != ResolutionKey ==> r.resolution == s.resolution)
    && (k != EscalationKey ==> r.escalation == s.escalation)
    && (k != SupervisorKey ==> r.supervisor == s.supervisor)
  }

  /** The engine's shallow merge of a partial update: it overwrites one key and keeps the rest. */
  function Merge(s: TicketState, u: Update): (r: TicketState)
    ensures AgreeExcept(s, r, KeyOf(u))
    ensures Populated(r, KeyOf(u))
    ensures forall k :: k != KeyOf(u) ==> (Populated(r, k) <==> Populated(s, k))
    ensures u.IntakeUpdate? ==> r.intake == Some(u.intake)
    ensures u.ClassificationUpdate? ==> r.classification == Some(u.classification)
    ensures u.ResolutionUpdate? ==> r.resolution == Some(u.resolution)
    ensures u.EscalationUpdate? ==> r.escalation == Some(u.escalation)
    ensures u.SupervisorUpdate? ==> r.supervisor == Some(u.supervisor)
  {
    match u
    case IntakeUpdate(x) => s.(intake := Some(x))
    case ClassificationUpdate(x) => s.(classification := Some(x))
    case ResolutionUpdate(x) => s.(resolution := Some(x))
    case EscalationUpdate(x) => s.(escalation := Some(x))
    case SupervisorUpdate(x) => s.(supervisor := Some(x))
  }
}
