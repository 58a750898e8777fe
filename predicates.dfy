/** The six eligibility rules the scan applies to a deployment. Each is a
    pure function to an `Outcome`; the one with a loop in the source,
    the ephemeral-storage rule, also has a method that runs that loop. */
module Predicates {
  import opened Outcomes
  import opened Deployments

  const ReplicaMessage := "The deployment does not have more than one replica"
  const DoNotEvictMessage := "The deployment has the annotation karpenter.sh/do-not-evict set to \"true\""
  const SafeToEvictMessage := "The deployment has the label cluster-autoscaler.kubernetes.io/safe-to-evict set to \"false\""
  const RestrictScaleDownMessage := "The deployment has the label spotinst.io/restrict-scale-down set to \"true\""
  const GracePeriodMessage := "The deployment has terminationGracePeriod greater than 10 minutes"
  const EphemeralStorageMessage := "The deployment's pods request ephemeral storage"

  const DoNotEvictKey := "karpenter.sh/do-not-evict"
  const SafeToEvictKey := "cluster-autoscaler.kubernetes.io/safe-to-evict"
  const RestrictScaleDownKey := "spotinst.io/restrict-scale-down"
  const EphemeralStorage := "ephemeral-storage"

  /** The longest termination grace period a spot workload may have. */
  const MaxGracePeriodSeconds := 600

  function HasReplicaSet(d: Deployment): Outcome
  {
    if d.replicas.None? || d.replicas.value < 2 then Fail(ReplicaMessage) else Pass
  }

  /** Note the guard: it tests `labels`, not `annotations`, as the source does. */
  function HasDoNotEvict(d: Deployment): Outcome
    requires AnnotationsReadable(d)
  {
    if d.labels.Some? && Get(d.annotations.value, DoNotEvictKey) == Some("true")
    then Fail(DoNotEvictMessage)
    else Pass
  }

  function IsSafeToEvict(d: Deployment): Outcome
  {
    if d.labels.Some? && Get(d.labels.value, SafeToEvictKey) == Some("false")
    then Fail(SafeToEvictMessage)
    else Pass
  }

  function HasRestrictScaleDown(d: Deployment): Outcome
  {
    if d.labels.Some? && Get(d.labels.value, RestrictScaleDownKey) == Some("true")
    then Fail(RestrictScaleDownMessage)
    else Pass
  }

  function HasTerminationGracePeriodSeconds(d: Deployment): Outcome
  {
    if d.terminationGracePeriodSeconds > MaxGracePeriodSeconds then Fail(GracePeriodMessage) else Pass
  }

  /** The ephemeral-storage rule, stated over all containers at once. */
  function NoEphemeralStorage(d: Deployment): Outcome
  {
    if exists i :: 0 <= i < |d.containers| && RequestsResource(d.containers[i], EphemeralStorage)
    then Fail(EphemeralStorageMessage)
    else Pass
  }

  /** The source's loop over the containers, returning at the first one
      that requests ephemeral storage. */
  method UsesNoEphemeralStorage(d: Deployment) returns (r: Outcome)
    ensures r == NoEphemeralStorage(d)
  {
    var containers := d.containers;
    for i := 0 to |containers|
      invariant forall j :: 0 <= j < i ==> !RequestsResource(containers[j], EphemeralStorage)
    {
      var requests := containers[i].requests;
      if requests.Some? && requests.value != map[] && EphemeralStorage in requests.value {
        return Fail(EphemeralStorageMessage);
      }
    }
    return Pass;
  }

  // Properties of the individual rules.

  /** The replica rule fails, with its message, exactly when the replica
      count is absent or below two. */
  lemma ReplicaRule(d: Deployment)
    ensures HasReplicaSet(d).Pass? <==> d.replicas.Some? && d.replicas.value >= 2
    ensures HasReplicaSet(d).Fail? ==> HasReplicaSet(d).reason == ReplicaMessage
  {
  }

  /** Without labels the three label and annotation rules pass, whatever the
      annotations say; in particular the do-not-evict annotation is then
      ignored even when it is "true". */
  lemma LabelRulesPassWithoutLabels(d: Deployment)
    requires d.labels.None?
    ensures HasDoNotEvict(d) == Pass && IsSafeToEvict(d) == Pass && HasRestrictScaleDown(d) == Pass
  {
  }

  /** With labels present each rule fails exactly on its one string value,
      with its own message; a missing key or any other value passes. */
  lemma LabelRulesExactMatch(d: Deployment)
    requires d.labels.Some? && d.annotations.Some?
    ensures HasDoNotEvict(d).Fail? <==>
      DoNotEvictKey in d.annotations.value && d.annotations.value[DoNotEvictKey] == "true"
    ensures IsSafeToEvict(d).Fail? <==>
      SafeToEvictKey in d.labels.value && d.labels.value[SafeToEvictKey] == "false"
    ensures HasRestrictScaleDown(d).Fail? <==>
      RestrictScaleDownKey in d.labels.value && d.labels.value[RestrictScaleDownKey] == "true"
    ensures HasDoNotEvict(d).Fail? ==> HasDoNotEvict(d) == Fail(DoNotEvictMessage)
    ensures IsSafeToEvict(d).Fail? ==> IsSafeToEvict(d) == Fail(SafeToEvictMessage)
    ensures HasRestrictScaleDown(d).Fail? ==> HasRestrictScaleDown(d) == Fail(RestrictScaleDownMessage)
  {
  }

  /** The grace-period rule fails, with its message, exactly above 600
      seconds; 600 passes. */
  lemma GracePeriodRule(d: Deployment)
    ensures HasTerminationGracePeriodSeconds(d).Pass? <==> d.terminationGracePeriodSeconds <= 600
    ensures HasTerminationGracePeriodSeconds(d).Fail? ==>
      HasTerminationGracePeriodSeconds(d) == Fail(GracePeriodMessage)
  {
  }

  /** No containers, or containers whose requests are absent or empty,
      pass the ephemeral-storage rule. */
  lemma EphemeralStorageIgnoresEmptyRequests(d: Deployment)
    requires forall i :: 0 <= i < |d.containers| ==>
      d.containers[i].requests.None? || d.containers[i].requests.value == map[]
    ensures NoEphemeralStorage(d) == Pass
  {
  }
}
