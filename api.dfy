/** The slice of the Kubernetes and OpenShift API objects that the webhook
    controller reads and writes, reduced to the fields it uses. Generations
    (int64) and replica counts (int32) are only compared and copied, never
    computed with, so they are plain integers here. */
module Api {

  datatype Option<T> = None | Some(value: T)

  /** Errors a step of the controller can end with. `NotFound` is the one
      `apierrors.IsNotFound` recognises; the others are opaque to the
      controller and are passed on unchanged. */
  datatype Error =
    | NotFound
    | ServerError(code: nat)
    | DecodeError(code: nat)
    | InvalidLogLevel(logLevel: string)

  datatype Result<T> = Ok(value: T) | Err(error: Error)

  datatype ManagementState = Managed | Unmanaged | Removed | Force

  /** The operator spec fields that the controller reads. */
  datatype OperatorSpec = OperatorSpec(managementState: ManagementState, logLevel: string)

  datatype ObjectKind = DeploymentKind | ValidatingWebhookConfigurationKind

  /** Identity of a managed object, as a generation record keys it. */
  datatype ObjectRef = ObjectRef(kind: ObjectKind, namespace: string, name: string)

  /** One entry of the operator status' generation list. */
  datatype GenerationRecord = GenerationRecord(ref: ObjectRef, lastGeneration: int)

  /** The operator status fields that the controller reads: the generations
      recorded by earlier syncs, keyed by object. */
  datatype OperatorStatus = OperatorStatus(generations: map<ObjectRef, int>)

  datatype OperatorState = OperatorState(spec: OperatorSpec, status: OperatorStatus)

  datatype DeploymentStatus = DeploymentStatus(
    observedGeneration: int,
    availableReplicas: int,
    updatedReplicas: int)

  /** A Deployment: metadata, `Spec.Replicas` (a nil pointer is `None`), the
      pod template's node selector, and the status the server reports. */
  datatype Deployment = Deployment(
    namespace: string,
    name: string,
    generation: int,
    replicas: Option<int>,
    nodeSelector: map<string, string>,
    status: DeploymentStatus)

  /** A cluster-scoped ValidatingWebhookConfiguration. */
  datatype WebhookConfig = WebhookConfig(name: string, generation: int)

  datatype Node = Node(name: string, labels: map<string, string>)

  function DeploymentRef(d: Deployment): ObjectRef
  {
    ObjectRef(DeploymentKind, d.namespace, d.name)
  }

  function WebhookRef(w: WebhookConfig): ObjectRef
  {
    ObjectRef(ValidatingWebhookConfigurationKind, "", w.name)
  }

  /** The generation recorded for `ref` by an earlier sync, if any. */
  function LastGeneration(generations: map<ObjectRef, int>, ref: ObjectRef): (g: Option<int>)
    ensures g.Some? <==> ref in generations
    ensures g.Some? ==> g.value == generations[ref]
  {
    if ref in generations then Some(generations[ref]) else None
  }
}
