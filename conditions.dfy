/** The Available and Progressing conditions a sync reports for the
    Deployment that the server returned. */
module Conditions {
  import opened Api

  const ControllerName := "CSISnapshotWebhookController"
  const AvailableType := ControllerName + "Available"
  const ProgressingType := ControllerName + "Progressing"

  /** `Unset` is the empty status a condition keeps when no branch sets it. */
  datatype ConditionStatus = Unset | ConditionTrue | ConditionFalse

  datatype Reason = NoReason | Deploying

  /** Condition messages, kept as the values they are formatted from. */
  datatype Message =
    | NoMessage
    | WaitingForPod                               // no webhook pod has started yet
    | GenerationSkew(desired: int, current: int)  // the Deployment's generation, then the observed one
    | PodsRunning(updated: int, total: int)       // updated replicas out of the desired count

  datatype Condition = Condition(
    conditionType: string,
    status: ConditionStatus,
    reason: Reason,
    message: Message)

  /** Available: set on every sync, from the available replica count alone. */
  function AvailableCondition(d: Deployment): (c: Condition)
    ensures c.conditionType == AvailableType && c.status != Unset
    ensures c.status == ConditionTrue <==> d.status.availableReplicas > 0
    ensures Explained(c, ConditionFalse)
  {
    if d.status.availableReplicas > 0 then
      Condition(AvailableType, ConditionTrue, NoReason, NoMessage)
    else
      Condition(AvailableType, ConditionFalse, Deploying, WaitingForPod)
  }

  /** Progressing: a generation the server has not observed yet comes first;
      otherwise the updated replicas are compared with `Spec.Replicas`, and
      with no `Spec.Replicas` the status is left unset. */
  function ProgressingCondition(d: Deployment): (c: Condition)
    ensures c.conditionType == ProgressingType
    ensures c.status == ConditionFalse <==> RolledOut(d)
    ensures Explained(c, ConditionTrue)
  {
    if d.status.observedGeneration != d.generation then
      Condition(ProgressingType, ConditionTrue, Deploying,
                GenerationSkew(d.generation, d.status.observedGeneration))
    else if d.replicas.Some? then
      if d.status.updatedReplicas == d.replicas.value then
        Condition(ProgressingType, ConditionFalse, NoReason, NoMessage)
      else
        Condition(ProgressingType, ConditionTrue, Deploying,
                  PodsRunning(d.status.updatedReplicas, d.replicas.value))
    else
      Condition(ProgressingType, Unset, NoReason, NoMessage)
  }

  /** The rollout is finished: the server has observed the latest generation
      and every desired replica runs the latest pod template. */
  predicate RolledOut(d: Deployment)
  {
    && d.status.observedGeneration == d.generation
    && d.replicas.Some?
    && d.status.updatedReplicas == d.replicas.value
  }

  /** A condition is in a "still deploying" state exactly when it carries the
      Deploying reason, and it carries a message exactly then. */
  predicate Explained(c: Condition, pending: ConditionStatus)
  {
    && (c.reason == Deploying <==> c.status == pending)
    && (c.message != NoMessage <==> c.reason == Deploying)
  }

  /** Without an available pod the condition always says why. */
  lemma AvailableFalseWaitsForPod(d: Deployment)
    ensures AvailableCondition(d).status != ConditionTrue ==>
      AvailableCondition(d) == Condition(AvailableType, ConditionFalse, Deploying, WaitingForPod)
  {
  }

  /** One available pod is enough, whatever the generations and the desired
      replica count say. */
  lemma AvailableIgnoresRollout(d1: Deployment, d2: Deployment)
    requires d1.status.availableReplicas == d2.status.availableReplicas
    ensures AvailableCondition(d1) == AvailableCondition(d2)
  {
  }

  lemma ProgressingWhileGenerationUnobserved(d: Deployment)
    requires d.status.observedGeneration != d.generation
    ensures ProgressingCondition(d) ==
      Condition(ProgressingType, ConditionTrue, Deploying,
                GenerationSkew(d.generation, d.status.observedGeneration))
  {
  }

  /** While the generations differ, neither replica count is consulted. */
  lemma ProgressingSkewIgnoresReplicas(d1: Deployment, d2: Deployment)
    requires d1.generation == d2.generation
    requires d1.status.observedGeneration == d2.status.observedGeneration
    requires d1.status.observedGeneration != d1.generation
    ensures ProgressingCondition(d1) == ProgressingCondition(d2)
  {
  }

  lemma ProgressingWhileReplicasDiffer(d: Deployment)
    requires d.status.observedGeneration == d.generation
    requires d.replicas.Some? && d.status.updatedReplicas != d.replicas.value
    ensures ProgressingCondition(d) ==
      Condition(ProgressingType, ConditionTrue, Deploying,
                PodsRunning(d.status.updatedReplicas, d.replicas.value))
  {
  }

  lemma ProgressingUnsetIffNoDesiredReplicas(d: Deployment)
    ensures ProgressingCondition(d).status == Unset <==>
      d.status.observedGeneration == d.generation && d.replicas.None?
    ensures ProgressingCondition(d).status == Unset ==>
      ProgressingCondition(d).reason == NoReason && ProgressingCondition(d).message == NoMessage
  {
  }
}
