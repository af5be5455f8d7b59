# CSI snapshot webhook controller: a verified model of its sync

This project models the sync of the cluster-csi-snapshot-controller-operator's
webhook controller (`pkg/operator/webhookdeployment/webhook.go`). On every
trigger the controller does the following, returning at the first failure:

1. It reads the operator state. If the state is not found, or it is not
   `Managed`, the sync ends quietly.
2. It renders the webhook Deployment from a manifest template, substituting
   `${WEBHOOK_IMAGE}` and then `${LOG_LEVEL}`. An invalid log level is an error.
3. It lists the nodes that match the Deployment's node selector. It asks for
   one replica when at most one node matches and for two otherwise.
4. It applies the Deployment and then the ValidatingWebhookConfiguration.
5. It writes the Available and Progressing conditions, computed from the
   applied Deployment, together with the generations of both applied objects.

Modules:

- `Text` (text.dfy): `strings.ReplaceAll` as a left-to-right, non-overlapping
  replace over `seq<char>`. `Split` and `Join` are its reference description:
  joining the pieces with the separator gives the text back, and no piece
  contains the separator. `strconv.Itoa` is `DecimalText`, with a parser as
  its inverse.
- `Api` (api.dfy): the fields of the Deployment, the webhook configuration,
  the operator spec and the operator status that the controller uses.
  Every failure is an `Error`, and `NotFound` is the one that
  `apierrors.IsNotFound` recognises.
- `Conditions` (conditions.dfy): the Available and Progressing conditions.
  A condition status can be true, false or unset. Messages are constructors
  that carry their integers.
- `Render` (render.dfy): the placeholder substitution and what it guarantees.
- `Webhook` (webhook.dfy): replica sizing, the controller, the `Cluster` environment, the
  function `Reconcile` that specifies a sync, the imperative `Sync` method
  proved equal to it, and the properties of each path through a sync.

The cluster is the `Cluster` datatype. The operator-state read is a value,
`Ok(state)` or `Err(error)`. The node list and the two applies are
function-valued fields that answer `Ok(value)` or `Err(error)`. The status
write is a function-valued field that answers `Some(error)` or `None`. A
sync returns its error together with the list of calls it made (`effects`). Three things
are parameters of the controller and are not modelled:
`loglevel.ValidLogLevel`, `loglevel.LogLevelToVerbosity` and the manifest
decoder. The decoder is a total function because `ReadDeploymentV1OrDie`
panics rather than failing.

Three facts about the code shape the model:
- With no `Spec.Replicas`, the code leaves the Progressing status, reason and
  message unset.
- Condition statuses are three-valued: true, false or unset.
- A manifest that does not decode is a panic, not a returned error.

## Model

| member | source | states |
|---|---|---|
| `Text.ReplaceAll` | pkg/operator/webhookdeployment/webhook.go:195 | replacing a placeholder by itself leaves any text unchanged |
| `Text.Split` | pkg/operator/webhookdeployment/webhook.go:195 | cutting a text at the occurrences of the placeholder found left to right gives at least one piece. The first piece is a prefix of the text. Joining the pieces with the placeholder gives the text back, and no piece contains the placeholder. `SplitUnique` shows these are the only such pieces when the placeholder cannot overlap itself |
| `Text.SplitUnique` | pkg/operator/webhookdeployment/webhook.go:195 | for a separator that cannot overlap itself, any separator-free pieces that join with it to a text are exactly the pieces `Split` gives, so `Split` cuts at every occurrence |
| `Text.ReplaceAllIsJoinOfSplit` | pkg/operator/webhookdeployment/webhook.go:195 | ReplaceAll equals cutting at every non-overlapping occurrence, found left to right, and joining with the replacement. `Render.ReplacesEveryPlaceholder` turns this into every occurrence for both placeholders |
| `Text.ReplaceAllWithoutOccurrence` | pkg/operator/webhookdeployment/webhook.go:195 | a text that holds no occurrence of the placeholder comes back unchanged |
| `Text.JoinAvoids` | pkg/operator/webhookdeployment/webhook.go:201 | suppose no piece contains a pattern, and the glue is non-empty and shares no character with the pattern. Then the pieces joined by the glue do not contain the pattern either |
| `Text.SplitPiecesAvoid` | pkg/operator/webhookdeployment/webhook.go:201 | if a text does not contain a pattern, none of its pieces after cutting contains it either |
| `Text.NatText` | pkg/operator/webhookdeployment/webhook.go:201 | the text of a natural number is non-empty and all digits. It starts with '0' exactly when the number is 0, and a number below 10 is a single digit, so 0 is "0" and no other text has a leading zero |
| `Text.DecimalText` | pkg/operator/webhookdeployment/webhook.go:201 | the text of an integer is non-empty and uses only digits and '-'. It starts with '-' exactly when the number is negative, and the rest is digits. 0 is "0", and a negative number has no zero after its sign, so the text is in `strconv.Itoa`'s standard form |
| `Text.DecimalTextRoundTrip` | pkg/operator/webhookdeployment/webhook.go:201 | parsing the decimal text of any integer gives that integer back |
| `Render.RenderManifestReplacesEveryPlaceholder` | pkg/operator/webhookdeployment/webhook.go:194-201 | the rendered text is the template cut at every image placeholder and joined with the image. That text is then cut at every log-level placeholder and joined with the verbosity's decimal text |
| `Render.RenderManifest` | pkg/operator/webhookdeployment/webhook.go:194-201 | no `${LOG_LEVEL}` is left in the rendered text, whatever the template and the image are. Its other properties are `RenderManifestReplacesEveryPlaceholder`, `NoImagePlaceholderLeft`, `TemplateWithoutPlaceholdersUnchanged` and `ImageSubstitutedBeforeLogLevel` |
| `Render.NoImagePlaceholderLeft` | pkg/operator/webhookdeployment/webhook.go:194-201 | no `${WEBHOOK_IMAGE}` is left in the rendered text, provided the image is non-empty and shares no character with the placeholder |
| `Render.TemplateWithoutPlaceholdersUnchanged` | pkg/operator/webhookdeployment/webhook.go:192-201 | a template with neither placeholder is rendered unchanged |
| `Render.ImageSubstitutedBeforeLogLevel` | pkg/operator/webhookdeployment/webhook.go:194-201 | the image is substituted first: a template that is just the image placeholder renders as the image with each of its `${LOG_LEVEL}` replaced by the verbosity's text |
| `Render.PlaceholdersDoNotOverlapThemselves` | pkg/operator/webhookdeployment/webhook.go:195-201 | no proper suffix of either placeholder is also its prefix, so two occurrences of a placeholder never overlap. `ReplacesEveryPlaceholder` uses this |
| `Render.ReplacesEveryPlaceholder` | pkg/operator/webhookdeployment/webhook.go:195-201 | for either placeholder, take any placeholder-free pieces that joined by the placeholder make up a text. Substituting the placeholder gives those same pieces joined by the replacement, so every occurrence is replaced and nothing else changes |
| `Render.DecimalTextAvoidsPlaceholders` | pkg/operator/webhookdeployment/webhook.go:201 | the decimal text of a verbosity shares no character with either placeholder |
| `Webhook.GetDeployment` | pkg/operator/webhookdeployment/webhook.go:191-206 | rendering fails exactly when the log level is invalid, with an error that names that level. Otherwise the result is the decoded manifest with both placeholders substituted |
| `Webhook.ReplicasForNodes` | pkg/operator/webhookdeployment/webhook.go:116-123 | the replica count is 1 exactly when at most one node matches and 2 exactly when two or more match, so no other value is possible |
| `Webhook.SizedDeployment` | pkg/operator/webhookdeployment/webhook.go:119-123 | the rendered Deployment gets `Spec.Replicas` 1 exactly when at most one node matches and 2 exactly when two or more do. Nothing else in it changes. `AppliedReplicasFollowNodeCount` ties it to the apply |
| `Api.LastGeneration` | pkg/operator/webhookdeployment/webhook.go:125-136 | the expected generation of an object is present exactly when the status records one for that object, and it is then the recorded value |
| `Conditions.AvailableCondition` | pkg/operator/webhookdeployment/webhook.go:143-153 | the Available condition has the Available type and is never unset. It is true exactly when some replica is available. It carries reason Deploying exactly when it is false, and a message exactly when it has that reason. `AvailableFalseWaitsForPod` and `AvailableIgnoresRollout` state the rest |
| `Conditions.AvailableFalseWaitsForPod` | pkg/operator/webhookdeployment/webhook.go:149-153 | when no replica is available, Available is false with reason Deploying and the waiting-for-a-pod message |
| `Conditions.AvailableIgnoresRollout` | pkg/operator/webhookdeployment/webhook.go:147-153 | two Deployments with the same available replica count get the same Available condition, whatever their generations and desired replica counts |
| `Conditions.ProgressingWhileGenerationUnobserved` | pkg/operator/webhookdeployment/webhook.go:159-163 | while the observed generation differs from the generation, Progressing is true with reason Deploying. Its message carries the generation as desired and the observed generation as current |
| `Conditions.ProgressingSkewIgnoresReplicas` | pkg/operator/webhookdeployment/webhook.go:159-163 | under a generation skew, the replica counts do not affect Progressing |
| `Conditions.ProgressingCondition` | pkg/operator/webhookdeployment/webhook.go:155-175 | the Progressing condition has the Progressing type. It is false exactly when the generation is observed, `Spec.Replicas` is set and all of those replicas are updated. It carries reason Deploying exactly when it is true, and a message exactly when it has that reason. `ProgressingWhileGenerationUnobserved`, `ProgressingSkewIgnoresReplicas`, `ProgressingWhileReplicasDiffer` and `ProgressingUnsetIffNoDesiredReplicas` state each branch |
| `Conditions.ProgressingWhileReplicasDiffer` | pkg/operator/webhookdeployment/webhook.go:164-173 | when the generations match and the updated replica count differs from `Spec.Replicas` (fewer during a rollout, more during a scale-down), Progressing is true. Its message carries the updated count out of the desired count |
| `Conditions.ProgressingUnsetIffNoDesiredReplicas` | pkg/operator/webhookdeployment/webhook.go:164-175 | the Progressing status is left unset exactly when the generations match and `Spec.Replicas` is absent. Its reason and message are then unset too |
| `Webhook.StatusFor` | pkg/operator/webhookdeployment/webhook.go:177-187 | the status write's Available condition is true exactly when the Deployment has an available replica. Its Progressing condition is false exactly when the Deployment is rolled out. It records two generations: the Deployment's under the Deployment's identity, then the webhook configuration's under its identity |
| `Webhook.Reconcile` | pkg/operator/webhookdeployment/webhook.go:90-189 | a sync always starts with the operator-state read and makes at most five calls. `StepsFollowFixedOrder` and the path lemmas below state the rest |
| `Webhook.ApplyAndReport` | pkg/operator/webhookdeployment/webhook.go:108-189 | once the Deployment is rendered, the read and the node list with the rendered node selector come first, and at most three calls follow. `NodeListFailureStopsBeforeApply` through `StatusComesFromApplyAnswers` state each path |
| `Webhook.Sync` | pkg/operator/webhookdeployment/webhook.go:90-189 | the step-by-step sync returns the error and makes the calls that the specification `Reconcile` gives |
| `Webhook.StepsFollowFixedOrder` | pkg/operator/webhookdeployment/webhook.go:90-189 | the calls of a sync are a non-empty prefix of the fixed order: read, list nodes, apply Deployment, apply webhook, write status |
| `Webhook.QuietWhenStateNotFound` | pkg/operator/webhookdeployment/webhook.go:91-95 | a not-found operator state gives no error and no call after the read |
| `Webhook.ReadErrorReturnedUnchanged` | pkg/operator/webhookdeployment/webhook.go:91-97 | any other read error is returned unchanged, and no other call is made |
| `Webhook.QuietWhenNotManaged` | pkg/operator/webhookdeployment/webhook.go:98-100 | a state that is not Managed gives no error and no call after the read |
| `Webhook.InvalidLogLevelStopsBeforeListing` | pkg/operator/webhookdeployment/webhook.go:102-106 | an invalid log level is returned as an error that names it, before any node list, apply or status write |
| `Webhook.NodeListFailureStopsBeforeApply` | pkg/operator/webhookdeployment/webhook.go:108-114 | a failed node list (with the rendered node selector) is returned, and nothing is applied or written |
| `Webhook.DeploymentApplyFailureStops` | pkg/operator/webhookdeployment/webhook.go:116-130 | the sized Deployment is applied with its recorded generation. A failed apply is returned, and nothing else is applied or written |
| `Webhook.WebhookBuildFailureStops` | pkg/operator/webhookdeployment/webhook.go:132-135 | a failed webhook build is returned after the Deployment apply, and no webhook apply or status write follows |
| `Webhook.WebhookApplyFailureStops` | pkg/operator/webhookdeployment/webhook.go:136-140 | a failed webhook apply is returned, and no status (so no generation record) is written |
| `Webhook.CompleteSyncReportsAppliedObjects` | pkg/operator/webhookdeployment/webhook.go:142-188 | when every step succeeds, the status is written with conditions and generations from the objects the two applies returned. The write's own error is the result of the sync |
| `Webhook.SuccessIsQuietOrComplete` | pkg/operator/webhookdeployment/webhook.go:90-189 | a sync without error either stopped after the read or made all five calls |
| `Webhook.EffectsOnlyWhenManagedAndValid` | pkg/operator/webhookdeployment/webhook.go:91-106 | any call after the read implies that the state was read, is Managed and has a valid log level |
| `Webhook.AppliedReplicasFollowNodeCount` | pkg/operator/webhookdeployment/webhook.go:108-126 | the applied Deployment asks for the replica count that `ReplicasForNodes` gives for the nodes listed with its own selector |
| `Webhook.StatusComesFromApplyAnswers` | pkg/operator/webhookdeployment/webhook.go:125-188 | the status write is computed from the cluster's answers to the two recorded applies, and its error is the sync's result |

## Left out

- Controller construction, informer wiring and the rate-limited queue, which is created but never used (webhook.go:33-42, 63-88). This is framework plumbing.
- Scheme registration in `init` and the codec globals (webhook.go:51-61). This is process set-up.
- `getWebhookConfig` (webhook.go:208-219) is an abstract outcome, `Assets.webhookConfig`. Its YAML decode and `SetSpecHashAnnotation` are library code.
- `generated.MustAsset` is left out. The template is an input string, and `ReadDeploymentV1OrDie` is an abstract total decoder, so the panic on a bad manifest is not modelled.
- The internals of `ApplyDeployment` and `ApplyValidatingWebhookConfiguration` are left out: comparing with the live object, creating or updating, and recording events. The applier's idempotence is library behaviour. The `changed` flag that the sync ignores is not modelled either.
- `Expected*Generation` is a lookup in a map from object identity to generation, with `None` for a missing record. The library keeps a list and returns -1 when no record matches.
- `Set*Generation` becomes the two generation records in the status write. `UpdateStatus` is an abstract answer to the whole update.
- Node selection by `labels.SelectorFromSet` and the lister is left out. The cluster answers the node list for a selector, and only the length of that list is used.
- The table of valid log levels and their verbosities in the operator library is left out. Both are parameters.
- Event recording and context cancellation are left out.
- The model checks the log level before it substitutes the image, while the code substitutes first. Substitution has no side effects, so the two orders give the same result.
- Generations are int64 and replica counts are int32. They are only compared and copied, so they are modelled as unbounded integers.
