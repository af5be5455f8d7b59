/** The CSI snapshot webhook controller's sync: read the operator state,
    render the webhook Deployment, size it from the matching nodes, apply it
    and the ValidatingWebhookConfiguration, and write the Available and
    Progressing conditions with the applied objects' generations.

    The operator state is a `Result` value of `Cluster`; the node list and
    the two applies are fields that answer with a `Result`, and the status
    write is a field that answers with an optional error. A sync reports the
    calls it makes, in order, as its effects. */
module Webhook {
  import opened Api
  import opened Conditions
  import opened Render

  /** The log-level helpers of the operator library: which levels are valid
      and the klog verbosity each maps to. Their tables are not modelled. */
  datatype LogLevels = LogLevels(valid: string -> bool, verbosity: string -> int)

  /** The controller's static assets: the Deployment manifest template, its
      decoder (which panics rather than fail), and the outcome of decoding
      the webhook configuration asset and stamping its hash annotation. */
  datatype Assets = Assets(
    deploymentTemplate: string,
    readDeployment: string -> Deployment,
    webhookConfig: Result<WebhookConfig>)

  /** The controller's configuration; a sync never changes it. */
  datatype Controller = Controller(webhookImage: string, assets: Assets, logLevels: LogLevels)

  /** What a status write sets: the two conditions, then the generations of
      the two applied objects. */
  datatype StatusUpdate = StatusUpdate(
    available: Condition,
    progressing: Condition,
    generations: seq<GenerationRecord>)

  /** The answers of the cluster to each call a sync can make. */
  datatype Cluster = Cluster(
    operatorState: Result<OperatorState>,
    listNodes: map<string, string> -> Result<seq<Node>>,
    applyDeployment: (Deployment, Option<int>) -> Result<Deployment>,
    applyWebhookConfig: (WebhookConfig, Option<int>) -> Result<WebhookConfig>,
    updateStatus: StatusUpdate -> Option<Error>)

  /** The calls a sync makes, with their arguments. */
  datatype Action =
    | ReadOperatorState
    | ListNodes(selector: map<string, string>)
    | ApplyDeployment(deployment: Deployment, lastGeneration: Option<int>)
    | ApplyWebhookConfig(webhook: WebhookConfig, lastGeneration: Option<int>)
    | UpdateStatus(update: StatusUpdate)

  datatype SyncResult = SyncResult(err: Option<Error>, effects: seq<Action>)

  /** The position of each kind of call in the fixed order of a sync. */
  function StepOf(a: Action): nat
  {
    match a
    case ReadOperatorState => 0
    case ListNodes(_) => 1
    case ApplyDeployment(_, _) => 2
    case ApplyWebhookConfig(_, _) => 3
    case UpdateStatus(_) => 4
  }

  /** Rendering of the Deployment: an invalid log level is an error naming
      it; otherwise the manifest with both placeholders substituted is
      decoded. */
  function GetDeployment(c: Controller, spec: OperatorSpec): (r: Result<Deployment>)
    ensures r.Err? <==> !c.logLevels.valid(spec.logLevel)
    ensures r.Err? ==> r.error == InvalidLogLevel(spec.logLevel)
    ensures r.Ok? ==> r.value == c.assets.readDeployment(
      RenderManifest(c.assets.deploymentTemplate, c.webhookImage, c.logLevels.verbosity(spec.logLevel)))
  {
    if !c.logLevels.valid(spec.logLevel) then
      Err(InvalidLogLevel(spec.logLevel))
    else
      var text := RenderManifest(c.assets.deploymentTemplate, c.webhookImage,
                                 c.logLevels.verbosity(spec.logLevel));
      Ok(c.assets.readDeployment(text))
  }

  /** Replica sizing: one webhook pod while at most one node matches the
      selector, two as soon as a second one does, and never more. */
  function ReplicasForNodes(nodeCount: nat): (replicas: int)
    ensures replicas == 1 <==> nodeCount <= 1
    ensures replicas == 2 <==> nodeCount >= 2
  {
    if nodeCount > 1 then 2 else 1
  }

  /** The rendered Deployment with `Spec.Replicas` set from the node count;
      nothing else of it changes. */
  function SizedDeployment(rendered: Deployment, nodeCount: nat): (d: Deployment)
    ensures d.replicas == Some(1) <==> nodeCount <= 1
    ensures d.replicas == Some(2) <==> nodeCount >= 2
    ensures d.(replicas := rendered.replicas) == rendered
  {
    rendered.(replicas := Some(ReplicasForNodes(nodeCount)))
  }

  /** The status write computed from the objects the two applies returned. */
  function StatusFor(deployment: Deployment, webhook: WebhookConfig): (u: StatusUpdate)
    ensures u.available.status == ConditionTrue <==> deployment.status.availableReplicas > 0
    ensures u.progressing.status == ConditionFalse <==> RolledOut(deployment)
    ensures |u.generations| == 2
    ensures u.generations[0].ref == DeploymentRef(deployment)
    ensures u.generations[0].lastGeneration == deployment.generation
    ensures u.generations[1].ref == WebhookRef(webhook)
    ensures u.generations[1].lastGeneration == webhook.generation
  {
    StatusUpdate(
      AvailableCondition(deployment),
      ProgressingCondition(deployment),
      [GenerationRecord(DeploymentRef(deployment), deployment.generation),
       GenerationRecord(WebhookRef(webhook), webhook.generation)])
  }

  /** Specification of a sync: the error it returns and the calls it makes. */
  function Reconcile(c: Controller, cluster: Cluster): (r: SyncResult)
    ensures 1 <= |r.effects| <= 5 && r.effects[0] == ReadOperatorState
  {
    match cluster.operatorState {
      case Err(e) =>
        SyncResult(if e.NotFound? then None else Some(e), [ReadOperatorState])
      case Ok(state) =>
        if state.spec.managementState != Managed then
          SyncResult(None, [ReadOperatorState])
        else
          match GetDeployment(c, state.spec) {
            case Err(e) => SyncResult(Some(e), [ReadOperatorState])
            case Ok(rendered) => ApplyAndReport(c, cluster, state.status, rendered)
          }
    }
  }

  /** The part of a sync after rendering: list nodes, apply both objects,
      write the status. */
  function ApplyAndReport(c: Controller, cluster: Cluster, status: OperatorStatus, rendered: Deployment): (r: SyncResult)
    ensures 2 <= |r.effects| <= 5
    ensures r.effects[..2] == [ReadOperatorState, ListNodes(rendered.nodeSelector)]
  {
    var listed := [ReadOperatorState, ListNodes(rendered.nodeSelector)];
    match cluster.listNodes(rendered.nodeSelector) {
      case Err(e) => SyncResult(Some(e), listed)
      case Ok(nodes) =>
        var required := SizedDeployment(rendered, |nodes|);
        var applyDeployment :=
          ApplyDeployment(required, LastGeneration(status.generations, DeploymentRef(required)));
        match cluster.applyDeployment(applyDeployment.deployment, applyDeployment.lastGeneration) {
          case Err(e) => SyncResult(Some(e), listed + [applyDeployment])
          case Ok(deployment) =>
            match c.assets.webhookConfig {
              case Err(e) => SyncResult(Some(e), listed + [applyDeployment])
              case Ok(webhook) =>
                var applyWebhook :=
                  ApplyWebhookConfig(webhook, LastGeneration(status.generations, WebhookRef(webhook)));
                match cluster.applyWebhookConfig(applyWebhook.webhook, applyWebhook.lastGeneration) {
                  case Err(e) => SyncResult(Some(e), listed + [applyDeployment, applyWebhook])
                  case Ok(appliedWebhook) =>
                    var update := StatusFor(deployment, appliedWebhook);
                    SyncResult(cluster.updateStatus(update),
                               listed + [applyDeployment, applyWebhook, UpdateStatus(update)])
                }
            }
        }
    }
  }

  /** One sync, step by step, returning at the first failure. */
  method Sync(c: Controller, cluster: Cluster) returns (err: Option<Error>, effects: seq<Action>)
    ensures SyncResult(err, effects) == Reconcile(c, cluster)
  {
    effects := [ReadOperatorState];
    var state := cluster.operatorState;
    if state.Err? {
      if state.error.NotFound? {
        return None, effects;
      }
      return Some(state.error), effects;
    }
    var opSpec, opStatus := state.value.spec, state.value.status;
    if opSpec.managementState != Managed {
      return None, effects;
    }

    var rendered := GetDeployment(c, opSpec);
    if rendered.Err? {
      return Some(rendered.error), effects;
    }
    var deployment := rendered.value;

    var nodeSelector := deployment.nodeSelector;
    effects := effects + [ListNodes(nodeSelector)];
    var nodes := cluster.listNodes(nodeSelector);
    if nodes.Err? {
      return Some(nodes.error), effects;
    }
    deployment := SizedDeployment(deployment, |nodes.value|);

    var lastGeneration := LastGeneration(opStatus.generations, DeploymentRef(deployment));
    effects := effects + [ApplyDeployment(deployment, lastGeneration)];
    var appliedDeployment := cluster.applyDeployment(deployment, lastGeneration);
    if appliedDeployment.Err? {
      return Some(appliedDeployment.error), effects;
    }
    deployment := appliedDeployment.value;

    var built := c.assets.webhookConfig;
    if built.Err? {
      return Some(built.error), effects;
    }
    var webhookConfig := built.value;
    var lastWebhookGeneration := LastGeneration(opStatus.generations, WebhookRef(webhookConfig));
    effects := effects + [ApplyWebhookConfig(webhookConfig, lastWebhookGeneration)];
    var appliedWebhook := cluster.applyWebhookConfig(webhookConfig, lastWebhookGeneration);
    if appliedWebhook.Err? {
      return Some(appliedWebhook.error), effects;
    }
    webhookConfig := appliedWebhook.value;

    var update := StatusFor(deployment, webhookConfig);
    effects := effects + [UpdateStatus(update)];
    err := cluster.updateStatus(update);
  }

  // ---------------------------------------------------------------------
  // Properties of a sync

  /** The calls are a prefix of the fixed order read, list, apply
      Deployment, apply webhook, write status: none is repeated or skipped
      over. */
  lemma StepsFollowFixedOrder(c: Controller, cluster: Cluster)
    ensures |Reconcile(c, cluster).effects| >= 1
    ensures forall k :: 0 <= k < |Reconcile(c, cluster).effects| ==>
      StepOf(Reconcile(c, cluster).effects[k]) == k
  {
  }

  lemma QuietWhenStateNotFound(c: Controller, cluster: Cluster)
    requires cluster.operatorState == Err(NotFound)
    ensures Reconcile(c, cluster) == SyncResult(None, [ReadOperatorState])
  {
  }

  lemma ReadErrorReturnedUnchanged(c: Controller, cluster: Cluster, e: Error)
    requires cluster.operatorState == Err(e) && e != NotFound
    ensures Reconcile(c, cluster) == SyncResult(Some(e), [ReadOperatorState])
  {
  }

  lemma QuietWhenNotManaged(c: Controller, cluster: Cluster, state: OperatorState)
    requires cluster.operatorState == Ok(state)
    requires state.spec.managementState != Managed
    ensures Reconcile(c, cluster) == SyncResult(None, [ReadOperatorState])
  {
  }

  /** An invalid log level is reported before any node is listed. */
  lemma InvalidLogLevelStopsBeforeListing(c: Controller, cluster: Cluster, state: OperatorState)
    requires cluster.operatorState == Ok(state)
    requires state.spec.managementState == Managed
    requires !c.logLevels.valid(state.spec.logLevel)
    ensures Reconcile(c, cluster) ==
      SyncResult(Some(InvalidLogLevel(state.spec.logLevel)), [ReadOperatorState])
  {
  }

  lemma NodeListFailureStopsBeforeApply(c: Controller, cluster: Cluster, state: OperatorState,
                                        rendered: Deployment, e: Error)
    requires cluster.operatorState == Ok(state)
    requires state.spec.managementState == Managed
    requires GetDeployment(c, state.spec) == Ok(rendered)
    requires cluster.listNodes(rendered.nodeSelector) == Err(e)
    ensures Reconcile(c, cluster) ==
      SyncResult(Some(e), [ReadOperatorState, ListNodes(rendered.nodeSelector)])
  {
  }

  /** The Deployment sent to the cluster is the rendered one with one replica
      for at most one matching node and two otherwise; a failed apply is
      reported and nothing else is applied or written. */
  lemma DeploymentApplyFailureStops(c: Controller, cluster: Cluster, state: OperatorState,
                                    rendered: Deployment, nodes: seq<Node>, e: Error)
    requires cluster.operatorState == Ok(state)
    requires state.spec.managementState == Managed
    requires GetDeployment(c, state.spec) == Ok(rendered)
    requires cluster.listNodes(rendered.nodeSelector) == Ok(nodes)
    requires cluster.applyDeployment(SizedDeployment(rendered, |nodes|),
      LastGeneration(state.status.generations, DeploymentRef(rendered))) == Err(e)
    ensures Reconcile(c, cluster) ==
      SyncResult(Some(e), [ReadOperatorState, ListNodes(rendered.nodeSelector),
        ApplyDeployment(SizedDeployment(rendered, |nodes|),
                        LastGeneration(state.status.generations, DeploymentRef(rendered)))])
  {
  }

  lemma WebhookBuildFailureStops(c: Controller, cluster: Cluster, state: OperatorState,
                                 rendered: Deployment, nodes: seq<Node>, live: Deployment, e: Error)
    requires cluster.operatorState == Ok(state)
    requires state.spec.managementState == Managed
    requires GetDeployment(c, state.spec) == Ok(rendered)
    requires cluster.listNodes(rendered.nodeSelector) == Ok(nodes)
    requires cluster.applyDeployment(SizedDeployment(rendered, |nodes|),
      LastGeneration(state.status.generations, DeploymentRef(rendered))) == Ok(live)
    requires c.assets.webhookConfig == Err(e)
    ensures Reconcile(c, cluster).err == Some(e)
    ensures |Reconcile(c, cluster).effects| == 3
  {
  }

  /** A failed webhook apply after a successful Deployment apply is reported,
      and no status (hence no generation record) is written. */
  lemma WebhookApplyFailureStops(c: Controller, cluster: Cluster, state: OperatorState,
                                 rendered: Deployment, nodes: seq<Node>, live: Deployment,
                                 webhook: WebhookConfig, e: Error)
    requires cluster.operatorState == Ok(state)
    requires state.spec.managementState == Managed
    requires GetDeployment(c, state.spec) == Ok(rendered)
    requires cluster.listNodes(rendered.nodeSelector) == Ok(nodes)
    requires cluster.applyDeployment(SizedDeployment(rendered, |nodes|),
      LastGeneration(state.status.generations, DeploymentRef(rendered))) == Ok(live)
    requires c.assets.webhookConfig == Ok(webhook)
    requires cluster.applyWebhookConfig(webhook,
      LastGeneration(state.status.generations, WebhookRef(webhook))) == Err(e)
    ensures Reconcile(c, cluster).err == Some(e)
    ensures |Reconcile(c, cluster).effects| == 4
    ensures Reconcile(c, cluster).effects[3] ==
      ApplyWebhookConfig(webhook, LastGeneration(state.status.generations, WebhookRef(webhook)))
  {
  }

  /** When every step succeeds, the status is written from the objects the
      two applies returned, and the write's own error is the result. */
  lemma CompleteSyncReportsAppliedObjects(c: Controller, cluster: Cluster, state: OperatorState,
                                          rendered: Deployment, nodes: seq<Node>, live: Deployment,
                                          webhook: WebhookConfig, liveWebhook: WebhookConfig)
    requires cluster.operatorState == Ok(state)
    requires state.spec.managementState == Managed
    requires GetDeployment(c, state.spec) == Ok(rendered)
    requires cluster.listNodes(rendered.nodeSelector) == Ok(nodes)
    requires cluster.applyDeployment(SizedDeployment(rendered, |nodes|),
      LastGeneration(state.status.generations, DeploymentRef(rendered))) == Ok(live)
    requires c.assets.webhookConfig == Ok(webhook)
    requires cluster.applyWebhookConfig(webhook,
      LastGeneration(state.status.generations, WebhookRef(webhook))) == Ok(liveWebhook)
    ensures Reconcile(c, cluster).err == cluster.updateStatus(StatusFor(live, liveWebhook))
    ensures |Reconcile(c, cluster).effects| == 5
    ensures Reconcile(c, cluster).effects[4] == UpdateStatus(StatusFor(live, liveWebhook))
    ensures StatusFor(live, liveWebhook).available == AvailableCondition(live)
    ensures StatusFor(live, liveWebhook).progressing == ProgressingCondition(live)
    ensures StatusFor(live, liveWebhook).generations ==
      [GenerationRecord(DeploymentRef(live), live.generation),
       GenerationRecord(WebhookRef(liveWebhook), liveWebhook.generation)]
  {
  }

  /** A sync that returns no error either did nothing but read the operator
      state, or went through every step including the status write. */
  lemma SuccessIsQuietOrComplete(c: Controller, cluster: Cluster)
    ensures Reconcile(c, cluster).err.None? ==>
      Reconcile(c, cluster).effects == [ReadOperatorState] ||
      |Reconcile(c, cluster).effects| == 5
  {
  }

  /** Anything beyond reading the state requires a Managed operator with a
      valid log level. */
  lemma EffectsOnlyWhenManagedAndValid(c: Controller, cluster: Cluster)
    requires |Reconcile(c, cluster).effects| > 1
    ensures cluster.operatorState.Ok?
    ensures cluster.operatorState.value.spec.managementState == Managed
    ensures c.logLevels.valid(cluster.operatorState.value.spec.logLevel)
  {
  }

  /** Every Deployment the sync applies asks for one replica when at most one
      node matches its selector and two otherwise. */
  lemma AppliedReplicasFollowNodeCount(c: Controller, cluster: Cluster)
    requires |Reconcile(c, cluster).effects| > 2
    ensures Reconcile(c, cluster).effects[2].ApplyDeployment?
    ensures var d := Reconcile(c, cluster).effects[2].deployment;
      && cluster.listNodes(d.nodeSelector).Ok?
      && d.replicas == Some(ReplicasForNodes(|cluster.listNodes(d.nodeSelector).value|))
  {
  }

  /** The status write carries what the cluster answered to the two applies
      recorded before it, never the objects as rendered. */
  lemma StatusComesFromApplyAnswers(c: Controller, cluster: Cluster)
    requires |Reconcile(c, cluster).effects| == 5
    ensures var e := Reconcile(c, cluster).effects;
      && e[2].ApplyDeployment? && e[3].ApplyWebhookConfig? && e[4].UpdateStatus?
      && cluster.applyDeployment(e[2].deployment, e[2].lastGeneration).Ok?
      && cluster.applyWebhookConfig(e[3].webhook, e[3].lastGeneration).Ok?
      && e[4].update == StatusFor(cluster.applyDeployment(e[2].deployment, e[2].lastGeneration).value,
                                  cluster.applyWebhookConfig(e[3].webhook, e[3].lastGeneration).value)
      && Reconcile(c, cluster).err == cluster.updateStatus(e[4].update)
  {
  }
}
