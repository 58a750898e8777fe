# Spot-eligibility rule engine

A Dafny model of the scan in `spotableworkloads.py` that decides which
Kubernetes deployments may run on spot instances.

- Six rules look at one deployment: the replica count, Karpenter's
  do-not-evict annotation, the cluster-autoscaler safe-to-evict label,
  Spot.io's restrict-scale-down label, the termination grace period and
  ephemeral-storage requests.
- An evaluator runs the rules in a fixed order and stops at the first
  failure. That rule's message is the deployment's verdict.
- A seventh rule, readiness, checks how quickly a deployment's pods became
  ready. The source defines it but leaves it out of the active list.
- The scan skips `kube-system` and the excluded namespaces. It lists the
  suitable deployments and collects the unsuitable ones in buckets keyed by
  message. It adds up the CPU and memory requests of the suitable ones
  (container requests times replicas). It also flags the pod disruption
  budgets that currently allow no disruption.

Modules, one per component:

- `Outcomes`: `Option` and the rule verdict `Outcome` (`Pass` or
  `Fail(reason)`). The source's pairs `(True, "")` and `(False, message)`
  become these.
- `Deployments`: the descriptors (deployment, container, pod condition, pod,
  disruption budget) and Python's `dict.get`.
- `Predicates`: the six rules as functions. The ephemeral-storage rule also
  has a method that runs the source's loop with its early return.
- `Readiness`: the readiness rule over a pod list that is passed in. One
  method runs the source's nested loops.
- `Engine`: rules as values of `Check`, the ordered list `SpotChecks`, the
  short-circuit `Evaluate`, and the evaluator method, which also returns the
  ghost list of rules it actually ran.
- `Requests`: the per-deployment CPU and memory totals. Quantity parsing is
  a parameter `parse: string -> int` (milli-cores, bytes).
- `Scan`: the classification loop, its specification functions, and the
  partition and exclusion lemmas. It also holds the disruption-budget
  filter.

Three behaviours of the code are easy to misread; the model follows the
code:

- The do-not-evict rule tests whether the deployment has *labels*, not
  annotations, before it reads the annotation. Without labels the rule
  passes even when the annotation is `"true"`.
- The request totals multiply by 1 when the replica count is absent *or
  zero*.
- The readiness rule is not in the evaluator's rule list.

## Model

| member | source | states |
|---|---|---|
| `Deployments.RequestsResource` | spotableworkloads.py:63 | the test `requests and key in requests`: requests present, non-empty and holding the key; used by the ephemeral-storage rule and the request sums |
| `Predicates.HasReplicaSet` | spotableworkloads.py:4-8 | definition of `has_replica_set`; its meaning is stated by `Predicates.ReplicaRule` |
| `Predicates.HasDoNotEvict` | spotableworkloads.py:33-37 | definition of `has_do_not_evict`, including the labels guard; stated by `Predicates.LabelRulesPassWithoutLabels` and `Predicates.LabelRulesExactMatch` |
| `Predicates.IsSafeToEvict` | spotableworkloads.py:39-43 | definition of `is_safe_to_evict`; stated by the same two lemmas |
| `Predicates.HasRestrictScaleDown` | spotableworkloads.py:45-49 | definition of `has_restrict_scale_down`; stated by the same two lemmas |
| `Predicates.HasTerminationGracePeriodSeconds` | spotableworkloads.py:51-55 | definition of `has_terminationGracePeriodSeconds`; stated by `Predicates.GracePeriodRule` |
| `Predicates.NoEphemeralStorage` | spotableworkloads.py:57-65 | declarative form of `uses_no_ephemeral_storage` (no container requests ephemeral storage), against which `Predicates.UsesNoEphemeralStorage` is proved |
| `Predicates.ReplicaRule` | spotableworkloads.py:4-8 | the replica rule passes exactly when a replica count is present and at least 2; a failure carries the replica message |
| `Predicates.LabelRulesPassWithoutLabels` | spotableworkloads.py:33-49 | without labels, the do-not-evict, safe-to-evict and restrict-scale-down rules all pass, even with the do-not-evict annotation set to "true" |
| `Predicates.LabelRulesExactMatch` | spotableworkloads.py:33-49 | with labels present, each of the three rules fails exactly when its key is present with the one exact value ("true", "false", "true"), and a failure carries that rule's own message; a missing key passes |
| `Predicates.GracePeriodRule` | spotableworkloads.py:51-55 | the grace-period rule passes exactly when the period is at most 600 seconds, and a failure carries the grace-period message |
| `Predicates.UsesNoEphemeralStorage` | spotableworkloads.py:57-65 | the loop with early return fails exactly when some container's requests are present, non-empty and contain "ephemeral-storage"; no containers means it passes |
| `Predicates.EphemeralStorageIgnoresEmptyRequests` | spotableworkloads.py:61-63 | containers with absent or empty requests never make the ephemeral-storage rule fail |
| `Readiness.LastTransition` | spotableworkloads.py:20-26 | the time kept for one condition kind by the inner loop; stated by `Readiness.LastTransitionAt` and `Readiness.LastTransitionAbsent` |
| `Readiness.PodReadiness` | spotableworkloads.py:19-30 | the verdict on one pod; stated by `Readiness.PodReadinessBound`, `Readiness.PodMissingCondition` and `Readiness.PodTimelessCondition` |
| `Readiness.ReadyQuickly` | spotableworkloads.py:17-31 | the readiness rule over a pod list, against which `Readiness.GetsReadyQuickly` is proved; stated by `Readiness.ReadyQuicklyIsFirstFailingPod` |
| `Readiness.GetsReadyQuickly` | spotableworkloads.py:17-31 | the nested loops compute the readiness verdict: fail on no pods, otherwise the verdict of the first failing pod, otherwise pass |
| `Readiness.FirstFailureAt` | spotableworkloads.py:19-30 | when every earlier verdict passes, the first failing verdict is the overall result |
| `Readiness.FirstFailureAllPass` | spotableworkloads.py:19-31 | when every verdict passes, the overall result is a pass |
| `Readiness.FirstFailureIsFirst` | spotableworkloads.py:19-31 | the combination passes exactly when all verdicts pass; a failure is the verdict at a position before which all pass |
| `Readiness.LastTransitionAt` | spotableworkloads.py:22-26 | among duplicate conditions of one kind, the last one's time is kept, including a missing time that overrides an earlier one |
| `Readiness.LastTransitionAbsent` | spotableworkloads.py:20-27 | a kind with no condition has no time, and a time found is carried by a condition of that kind |
| `Readiness.PodReadinessBound` | spotableworkloads.py:29-30 | a pod whose last conditions of both kinds carry times passes exactly when ready minus scheduled is at most 600 seconds (exactly ten minutes passes), and otherwise fails with the slow-readiness message |
| `Readiness.PodMissingCondition` | spotableworkloads.py:27-28 | a pod without a "PodScheduled" or without a "Ready" condition fails with the missing-time message |
| `Readiness.PodTimelessCondition` | spotableworkloads.py:23-28 | a pod whose last condition of either kind carries no time fails with the missing-time message, whatever an earlier condition of that kind held |
| `Readiness.ReadyQuicklyIsFirstFailingPod` | spotableworkloads.py:17-31 | an empty pod list fails; otherwise the rule passes exactly when every pod passes, and a failure is the first failing pod's verdict |
| `Engine.Apply` | spotableworkloads.py:68-71 | the rule function each entry of the rule list stands for |
| `Engine.Evaluate` | spotableworkloads.py:70-74 | the short-circuit over a rule list; stated by `Engine.EvaluateFailsAt`, `Engine.EvaluatePassesAll` and `Engine.EvaluateIsFirstFailure` |
| `Engine.SpotVerdict` | spotableworkloads.py:67-74 | `is_suitable_for_spot_instances` as a function, against which `Engine.IsSuitableForSpotInstances` is proved; stated by `Engine.SpotVerdictPassIff` and `Engine.SpotVerdictReason` |
| `Engine.RunCheck` | spotableworkloads.py:68-71 | running one rule gives that rule's verdict; the ephemeral-storage rule runs its loop |
| `Engine.IsSuitableForSpotInstances` | spotableworkloads.py:67-74 | the evaluator returns the verdict of the rule list; the rules it ran are a prefix of the list, all of them pass except possibly the last one run, a failure is that last rule's own verdict, and on a pass it ran every rule |
| `Engine.AllApplicableDefined` | spotableworkloads.py:70-71 | a rule list whose rules can all run on the deployment is evaluable |
| `Engine.SpotChecksDefined` | spotableworkloads.py:35 | evaluating the source's list never crashes, provided the annotations are readable whenever the replica rule passes (the do-not-evict rule is reached only then) |
| `Engine.EvaluateFailsAt` | spotableworkloads.py:70-73 | if rule k fails and all rules before it pass, the evaluation returns rule k's failure, so later rules do not matter |
| `Engine.EvaluatePassesAll` | spotableworkloads.py:70-74 | if every rule passes, the evaluation passes |
| `Engine.EvaluateIsFirstFailure` | spotableworkloads.py:70-74 | for any rule list, the evaluation passes exactly when all rules pass; a failure is that of a rule before which all pass |
| `Engine.ReplicaFailureWins` | spotableworkloads.py:67-74 | a deployment with no replica count, or fewer than 2, is always unsuitable with the replica message |
| `Engine.SpotVerdictPassIff` | spotableworkloads.py:67-74 | the rule list passes exactly on deployments that meet all six conditions |
| `Engine.SpotVerdictReason` | spotableworkloads.py:67-74 | every failure message of the rule list is the message of a rule that does fail, with the replica rule passing unless it is that rule |
| `Requests.ContainerRequest` | spotableworkloads.py:81-83 | one container's contribution: its parsed request when the requests are present, non-empty and hold the resource, else 0 |
| `Requests.RequestSum` | spotableworkloads.py:79-83 | the in-order container sum of one resource; stated by `Requests.RequestSumConcat`, `Requests.RequestSumWithoutResource` and `Requests.RequestSumOnlyReadsResource` |
| `Requests.ReplicaFactor` | spotableworkloads.py:84 | the multiplier `replicas if replicas else 1`: the count when present and non-zero, else 1 |
| `Requests.DeploymentRequest` | spotableworkloads.py:76-84 | a deployment's total for one resource, against which `Requests.GetCpuRequests` and `Requests.GetMemRequests` are proved |
| `Requests.SumRequests` | spotableworkloads.py:78-83 | the accumulation loop gives the sum of the resource's requests over the containers |
| `Requests.GetCpuRequests` | spotableworkloads.py:76-84 | the CPU total is the container CPU sum times the replica count, or times 1 when the count is absent or 0 |
| `Requests.GetMemRequests` | spotableworkloads.py:86-94 | the memory total is the container memory sum times the replica count, or times 1 when the count is absent or 0 |
| `Requests.RequestSumConcat` | spotableworkloads.py:80-83 | the container sum splits over concatenation, so containers are added in a fixed order |
| `Requests.RequestSumWithoutResource` | spotableworkloads.py:81-83 | containers lacking the key, or with absent or empty requests, contribute 0 |
| `Requests.RequestSumOnlyReadsResource` | spotableworkloads.py:81-83 | the sum depends only on each container's entry for that resource, not on other request keys |
| `Requests.SuitableRequestUsesReplicas` | spotableworkloads.py:84 | a suitable deployment has at least 2 replicas, so its total is its container sum times its replica count |
| `Scan.InScope` | spotableworkloads.py:149-152 | a namespace is scanned when it is neither "kube-system" nor excluded |
| `Scan.Considered` | spotableworkloads.py:148-152 | the scanned deployments are exactly those outside "kube-system" and the excluded namespaces |
| `Scan.SuitableOf` | spotableworkloads.py:154-155 | the suitable list holds exactly the scanned deployments whose verdict passes |
| `Scan.FailingWith` | spotableworkloads.py:158-161 | a bucket holds exactly the scanned deployments that failed with its message |
| `Scan.FailureReasons` | spotableworkloads.py:158-160 | the messages that key the unsuitable buckets: the failure reasons of the scanned deployments; stated by `Scan.ReasonsAreNonEmptyBuckets` |
| `Scan.RequestTotal` | spotableworkloads.py:137-157 | the running CPU or memory total: the sum of the per-deployment totals, in order; `Scan.ScanDeployments` ties its outputs to it |
| `Scan.ScanDeployments` | spotableworkloads.py:148-161 | the loop yields the suitable ids in input order, one bucket per message that occurred holding those ids in order, and CPU and memory totals over the suitable deployments only |
| `Scan.Classify` | spotableworkloads.py:153-161 | one loop step extends the suitable list and the totals, or the bucket of the failure message |
| `Scan.AddToBucket` | spotableworkloads.py:159-161 | the bucket of the message is created if new and the id is appended to it; other buckets are unchanged |
| `Scan.ConsideredSnoc` | spotableworkloads.py:149-152 | one more deployment is scanned exactly when its namespace is in scope |
| `Scan.SnocSuitable` | spotableworkloads.py:154-157 | a suitable deployment extends the suitable list and the totals, and leaves the buckets alone |
| `Scan.SnocUnsuitable` | spotableworkloads.py:158-161 | an unsuitable deployment extends only its own message's bucket |
| `Scan.StepSuitable` | spotableworkloads.py:154-157 | the scan state is kept after recording a suitable deployment |
| `Scan.StepUnsuitable` | spotableworkloads.py:158-161 | the scan state is kept after recording an unsuitable deployment |
| `Scan.BucketsAfterSuitable` | spotableworkloads.py:154-157 | recording a suitable deployment leaves the buckets correct |
| `Scan.BucketsAfterUnsuitable` | spotableworkloads.py:158-161 | creating the bucket if needed and appending keeps every bucket correct |
| `Scan.ReasonsAreNonEmptyBuckets` | spotableworkloads.py:159-161 | the bucket keys are exactly the messages with a non-empty bucket |
| `Scan.ConsideredKeepsUniqueIds` | spotableworkloads.py:148-152 | skipping namespaces keeps (namespace, name) pairs unique |
| `Scan.IdsSnoc` | spotableworkloads.py:155 | adding a deployment adds its id at the end |
| `Scan.IdAbsent` | spotableworkloads.py:153-161 | an id no deployment has appears in no output list |
| `Scan.UniqueInit` | spotableworkloads.py:148 | dropping the last deployment keeps ids unique, and the last id differs from all earlier ones |
| `Scan.OnceInSuitable` | spotableworkloads.py:154-155 | with unique ids, a deployment's id occurs once in the suitable list if it passes and not at all otherwise |
| `Scan.OnceInBucket` | spotableworkloads.py:158-161 | with unique ids, a deployment's id occurs once in the bucket of its own failure message and in no other bucket |
| `Scan.ExactlyOnce` | spotableworkloads.py:153-161 | with unique ids, each deployment's id occurs once in the suitable list if it passes, else once in its own message's bucket, and in no other list |
| `Scan.ScanPartition` | spotableworkloads.py:148-161 | every scanned deployment appears exactly once across the suitable list and the buckets: never both, never neither, never twice |
| `Scan.ScanReportsOnlyScannedNamespaces` | spotableworkloads.py:148-152 | no reported id belongs to "kube-system" or an excluded namespace |
| `Scan.ConsideredConcat` | spotableworkloads.py:148-152 | namespace skipping works element by element over concatenation |
| `Scan.ExcludedDeploymentIgnored` | spotableworkloads.py:148-152 | inserting a deployment of an excluded namespace anywhere changes neither the scanned list, nor the lists, buckets and totals built from it |
| `Scan.CpuDeploymentSuitable` | spotableworkloads.py:76-84 | the fixture `CpuDeployment` (namespace "apps", no labels or annotations, a 30-second grace period, one container requesting only `cpu`) is suitable for every replica count of at least 2, and for any parser its CPU total is the parsed request times the count |
| `Scan.CpuTotalExample` | spotableworkloads.py:154-157 | two suitable deployments of 2 x 500 and 3 x 250 milli-cores total 1750 milli-cores |
| `Scan.Blocking` | spotableworkloads.py:198-204 | a budget is flagged when its namespace is in scope and it allows at most 0 disruptions |
| `Scan.FlaggedPdbs` | spotableworkloads.py:191-204 | a budget is flagged exactly when its namespace is scanned and it allows at most 0 disruptions |
| `Scan.AuditPdbs` | spotableworkloads.py:191-204 | the budget loop reports exactly the flagged budgets, in input order |
| `Scan.PdbFlagBoundary` | spotableworkloads.py:204 | a scanned budget allowing 0 disruptions is flagged; one allowing 1 is not |

## Left out

- Cluster configuration, the API clients and the list calls (lines 98-130) are I/O. Deployments and budgets are parameters.
- The pod fetch by label selector in `gets_ready_quickly` (lines 13-15) is I/O. The pods are a parameter.
- The interactive prompt and its whitespace split (line 143): the excluded namespaces are given as a `seq<string>`.
- All printing and report formatting (lines 111-116, 144-146, 164-207), including the division to MiB (line 176).
- `utils.parse_quantity` (lines 83, 93) is a foreign library. It is the parameter `parse: string -> int` into integer canonical units. Its suffix parsing, its decimal results and its errors on malformed input are not modelled.
- Timestamps are integer seconds, not `datetime`/`timedelta`. The ten-minute bound is 600 seconds. A condition's missing transition time is modelled (`None`), and it overrides an earlier time of the same kind as in the source.
- Crash paths are not modelled:
  - a missing grace period (line 53), missing pod conditions (line 22) and a missing `disruptions_allowed` (line 204) cannot be represented, because those fields are not optional here;
  - a container whose `resources` is `None` (lines 62, 81, 91) cannot be represented: a container carries only its optional requests;
  - a budget whose `status` is `None` crashes at line 196, before the namespace skips, so even a `kube-system` budget would crash; a budget here always has its allowed-disruptions count, so that crash is not represented;
  - missing annotations on a deployment with labels (line 35) are excluded by the `Engine.Evaluable` precondition. It applies only when the replica rule passes, because only then is the annotation read.
- Bucket order: the source's dictionary keeps messages in first-seen order, which only the report uses. Here the buckets are a `map`. The ids inside each bucket stay in input order.
- The stricter two-minute readiness threshold and the restart-policy check belong to a second script, which is not part of this model.
- A budget's spec and status are only printed, so a budget carries just its namespace, name and allowed-disruptions count.
- Scan.ExactlyOnce: assumes (namespace, name) pairs are unique, as the cluster guarantees; without that, "exactly once" cannot be told apart by id.
- Scan.ScanPartition: makes the same uniqueness assumption as `Scan.ExactlyOnce`.
