/**
 * The supervisor's documented decision policy. The source hands the decision to a language
 * model instructed with a fixed, ordered rule list; this module states that rule list as a
 * pure function of the prompt's inputs.
 */
module SupervisorAgent {
  import opened Wrappers

  /** The variables the supervisor prompt is filled with. */
  datatype SupervisorInput = SupervisorInput(
    summary: string,
    issueType: string,
    urgency: string,
    complexity: string,
    resolverStatus: Option<string>,
    resolverConfidence: Option<real>)

  /** The three values `next_step` may take. */
  datatype Step = ResolverStep | EscalationStep | DoneStep

  /** The string the supervisor writes for a step. */
  function StepName(step: Step): (name: string)
    ensures name in {"resolver", "escalation", "done"}
    ensures name == "done" <==> step == DoneStep
    ensures name == "resolver" <==> step == ResolverStep
    ensures name == "escalation" <==> step == EscalationStep
  {
    match step
    case ResolverStep => "resolver"
    case EscalationStep => "escalation"
    case DoneStep => "done"
  }

  /** The supervisor's output record; `nextStep` is `None` when the "next_step" key is missing. */
  datatype SupervisorOut = SupervisorOut(nextStep: Option<string>)

  /** Rule 3's condition: a resolved attempt whose confidence is at least 0.7. */
  predicate ConfidentlyResolved(i: SupervisorInput) {
    i.resolverStatus == Some("resolved") && i.resolverConfidence.Some? && i.resolverConfidence.value >= 0.7
  }

  /** Rule 4's escalation condition. */
  predicate HighUrgencyAndComplexity(i: SupervisorInput) {
    i.urgency == "high" && i.complexity == "high"
  }

  /**
   * The decision policy, rules applied in order: no resolver attempt yet -> resolver;
   * "needs_escalation" -> escalation; "resolved" with confidence >= 0.7 -> done;
   * otherwise escalation when urgency and complexity are both high, else resolver.
   */
  function NextStep(i: SupervisorInput): (step: Step)
    ensures i.resolverStatus.None? ==> step == ResolverStep
    ensures step == DoneStep <==> ConfidentlyResolved(i)
    ensures step == EscalationStep <==>
              i.resolverStatus == Some("needs_escalation")
              || (i.resolverStatus.Some? && !ConfidentlyResolved(i) && HighUrgencyAndComplexity(i))
    ensures step == ResolverStep <==>
              i.resolverStatus.None?
              || (i.resolverStatus != Some("needs_escalation") && !ConfidentlyResolved(i)
                  && !HighUrgencyAndComplexity(i))
  {
    if i.resolverStatus.None? then ResolverStep
    else if i.resolverStatus == Some("needs_escalation") then EscalationStep
    else if ConfidentlyResolved(i) then DoneStep
    else if HighUrgencyAndComplexity(i) then EscalationStep
    else ResolverStep
  }

  /** The supervisor following its policy: `next_step` is always one of the three names. */
  function Decide(i: SupervisorInput): (out: SupervisorOut)
    ensures out.nextStep.Some? && out.nextStep.value in {"resolver", "escalation", "done"}
    ensures out.nextStep == Some("done") ==> i.resolverStatus == Some("resolved")
  {
    SupervisorOut(Some(StepName(NextStep(i))))
  }
}
