/** The evaluator: runs the rules in a fixed order and stops at the first
    failure, whose message becomes the deployment's verdict. */
module Engine {
  import opened Outcomes
  import opened Deployments
  import opened Predicates

  /** The rules, by name. */
  datatype Check =
    | ReplicaSet
    | DoNotEvict
    | SafeToEvict
    | RestrictScaleDown
    | TerminationGracePeriod
    | EphemeralStorageRequests

  /** The rules the source runs, in the order it runs them. */
  const SpotChecks: seq<Check> :=
    [ReplicaSet, DoNotEvict, SafeToEvict, RestrictScaleDown, TerminationGracePeriod, EphemeralStorageRequests]

  /** Whether a rule can be run on a deployment without the source crashing. */
  predicate CanApply(c: Check, d: Deployment)
  {
    c == DoNotEvict ==> AnnotationsReadable(d)
  }

  function Apply(c: Check, d: Deployment): Outcome
    requires CanApply(c, d)
  {
    match c
    case ReplicaSet => HasReplicaSet(d)
    case DoNotEvict => HasDoNotEvict(d)
    case SafeToEvict => IsSafeToEvict(d)
    case RestrictScaleDown => HasRestrictScaleDown(d)
    case TerminationGracePeriod => HasTerminationGracePeriodSeconds(d)
    case EphemeralStorageRequests => NoEphemeralStorage(d)
  }

  /** Every rule the short-circuiting evaluation reaches can be run. */
  predicate Defined(checks: seq<Check>, d: Deployment)
  {
    checks == [] || (CanApply(checks[0], d) && (Apply(checks[0], d).Pass? ==> Defined(checks[1..], d)))
  }

  /** Runs `checks` in order and returns the first failure, or `Pass`.
      Unlike `Readiness.FirstFailure`, a rule after the first failure is
      never applied, which is what keeps the evaluation free of the
      annotation crash. */
  function Evaluate(checks: seq<Check>, d: Deployment): Outcome
    requires Defined(checks, d)
  {
    if checks == [] then Pass
    else
      var o := Apply(checks[0], d);
      if o.Fail? then o else Evaluate(checks[1..], d)
  }

  /** The source's evaluation is well defined: it reads the annotations only
      after the replica rule has passed. */
  predicate Evaluable(d: Deployment)
  {
    HasReplicaSet(d).Pass? ==> AnnotationsReadable(d)
  }

  /** The verdict of the source's rule list on a deployment. */
  function SpotVerdict(d: Deployment): Outcome
    requires Evaluable(d)
  {
    SpotChecksDefined(d);
    Evaluate(SpotChecks, d)
  }

  /** The declarative reading of eligibility: enough replicas, no do-not-evict
      annotation (looked at only when there are labels), no safe-to-evict
      label "false", no restrict-scale-down label "true", a grace period of at
      most 600 seconds and no container requesting ephemeral storage. */
  predicate SpotEligible(d: Deployment)
  {
    && d.replicas.Some? && d.replicas.value >= 2
    && AnnotationsReadable(d)
    && !(d.labels.Some? && DoNotEvictKey in d.annotations.value && d.annotations.value[DoNotEvictKey] == "true")
    && !(d.labels.Some? && SafeToEvictKey in d.labels.value && d.labels.value[SafeToEvictKey] == "false")
    && !(d.labels.Some? && RestrictScaleDownKey in d.labels.value && d.labels.value[RestrictScaleDownKey] == "true")
    && d.terminationGracePeriodSeconds <= MaxGracePeriodSeconds
    && forall i :: 0 <= i < |d.containers| ==> !RequestsResource(d.containers[i], EphemeralStorage)
  }

  /** Runs one rule; the ephemeral-storage rule runs the source's loop. */
  method RunCheck(c: Check, d: Deployment) returns (r: Outcome)
    requires CanApply(c, d)
    ensures r == Apply(c, d)
  {
    match c
    case ReplicaSet => r := HasReplicaSet(d);
    case DoNotEvict => r := HasDoNotEvict(d);
    case SafeToEvict => r := IsSafeToEvict(d);
    case RestrictScaleDown => r := HasRestrictScaleDown(d);
    case TerminationGracePeriod => r := HasTerminationGracePeriodSeconds(d);
    case EphemeralStorageRequests => r := UsesNoEphemeralStorage(d);
  }

  /** The source's evaluator. `ran` records the rules actually run: the
      evaluation stops at the first failing rule, so `ran` is a prefix of the
      rule list ending at that rule, and is the whole list when all pass. */
  method IsSuitableForSpotInstances(d: Deployment) returns (r: Outcome, ghost ran: seq<Check>)
    requires Evaluable(d)
    ensures r == SpotVerdict(d)
    ensures ran <= SpotChecks
    ensures r.Pass? ==> ran == SpotChecks
    ensures r.Fail? ==> ran != [] && CanApply(ran[|ran| - 1], d) && Apply(ran[|ran| - 1], d) == r
    ensures forall j :: 0 <= j < |ran| - 1 ==> CanApply(ran[j], d) && Apply(ran[j], d).Pass?
  {
    ran := [];
    for i := 0 to |SpotChecks|
      invariant ran == SpotChecks[..i]
      invariant forall j :: 0 <= j < i ==> CanApply(SpotChecks[j], d) && Apply(SpotChecks[j], d).Pass?
    {
      var check := SpotChecks[i];
      if i > 0 {
        assert Apply(SpotChecks[0], d).Pass?;
      }
      var o := RunCheck(check, d);
      ran := ran + [check];
      if o.Fail? {
        EvaluateFailsAt(SpotChecks, d, i);
        return o, ran;
      }
    }
    EvaluatePassesAll(SpotChecks, d);
    return Pass, ran;
  }

  lemma {:induction false} AllApplicableDefined(checks: seq<Check>, d: Deployment)
    requires forall k :: 0 <= k < |checks| ==> CanApply(checks[k], d)
    ensures Defined(checks, d)
  {
    if checks != [] {
      AllApplicableDefined(checks[1..], d);
    }
  }

  lemma SpotChecksDefined(d: Deployment)
    requires Evaluable(d)
    ensures Defined(SpotChecks, d)
  {
    if HasReplicaSet(d).Pass? {
      AllApplicableDefined(SpotChecks[1..], d);
    }
  }

  /** When rule `k` fails and all before it pass, the evaluation returns the
      failure of rule `k`. */
  lemma {:induction false} EvaluateFailsAt(checks: seq<Check>, d: Deployment, k: nat)
    requires k < |checks|
    requires forall j :: 0 <= j < k ==> CanApply(checks[j], d) && Apply(checks[j], d).Pass?
    requires CanApply(checks[k], d) && Apply(checks[k], d).Fail?
    ensures Defined(checks, d) && Evaluate(checks, d) == Apply(checks[k], d)
  {
    if k > 0 {
      EvaluateFailsAt(checks[1..], d, k - 1);
    }
  }

  lemma {:induction false} EvaluatePassesAll(checks: seq<Check>, d: Deployment)
    requires forall j :: 0 <= j < |checks| ==> CanApply(checks[j], d) && Apply(checks[j], d).Pass?
    ensures Defined(checks, d) && Evaluate(checks, d) == Pass
  {
    if checks != [] {
      EvaluatePassesAll(checks[1..], d);
    }
  }

  /** Short-circuit semantics for any rule list: the evaluation passes exactly
      when every rule passes, and a failure it returns is that of the first
      failing rule, all rules before which pass. */
  lemma {:induction false} EvaluateIsFirstFailure(checks: seq<Check>, d: Deployment)
    requires Defined(checks, d)
    ensures Evaluate(checks, d).Pass? <==>
      forall j :: 0 <= j < |checks| ==> CanApply(checks[j], d) && Apply(checks[j], d).Pass?
    ensures Evaluate(checks, d).Fail? ==>
      exists k :: 0 <= k < |checks| && CanApply(checks[k], d) && Apply(checks[k], d) == Evaluate(checks, d)
        && forall j :: 0 <= j < k ==> CanApply(checks[j], d) && Apply(checks[j], d).Pass?
  {
    if checks != [] && Apply(checks[0], d).Pass? {
      var rest := checks[1..];
      EvaluateIsFirstFailure(rest, d);
      if Evaluate(checks, d).Fail? {
        var k :| 0 <= k < |rest| && CanApply(rest[k], d) && Apply(rest[k], d) == Evaluate(rest, d)
          && forall j :: 0 <= j < k ==> CanApply(rest[j], d) && Apply(rest[j], d).Pass?;
        assert checks[k + 1] == rest[k];
      }
    }
  }

  /** A deployment with no replica count, or fewer than two replicas, is
      unsuitable with the replica message, whatever else it declares. */
  lemma ReplicaFailureWins(d: Deployment)
    requires d.replicas.None? || d.replicas.value < 2
    ensures Evaluable(d) && SpotVerdict(d) == Fail(ReplicaMessage)
  {
    SpotChecksDefined(d);
  }

  /** The rule list passes exactly on the eligible deployments. */
  lemma SpotVerdictPassIff(d: Deployment)
    requires Evaluable(d)
    ensures SpotVerdict(d).Pass? <==> SpotEligible(d)
  {
    SpotChecksDefined(d);
    EvaluateIsFirstFailure(SpotChecks, d);
    assert SpotVerdict(d).Pass? <==> forall j :: 0 <= j < 6 ==> CanApply(SpotChecks[j], d) && Apply(SpotChecks[j], d).Pass?;
    if SpotVerdict(d).Pass? {
      assert Apply(SpotChecks[0], d).Pass?;
      assert Apply(SpotChecks[1], d).Pass?;
      assert Apply(SpotChecks[2], d).Pass?;
      assert Apply(SpotChecks[3], d).Pass?;
      assert Apply(SpotChecks[4], d).Pass?;
      assert Apply(SpotChecks[5], d).Pass?;
    }
  }

  /** Every failure message of the rule list is the message of one of its rules,
      and that rule does fail on the deployment. */
  lemma SpotVerdictReason(d: Deployment)
    requires Evaluable(d) && SpotVerdict(d).Fail?
    ensures var m := SpotVerdict(d).reason;
      || (m == ReplicaMessage && HasReplicaSet(d).Fail?)
      || (m == DoNotEvictMessage && HasReplicaSet(d).Pass? && HasDoNotEvict(d).Fail?)
      || (m == SafeToEvictMessage && HasReplicaSet(d).Pass? && IsSafeToEvict(d).Fail?)
      || (m == RestrictScaleDownMessage && HasReplicaSet(d).Pass? && HasRestrictScaleDown(d).Fail?)
      || (m == GracePeriodMessage && HasReplicaSet(d).Pass? && HasTerminationGracePeriodSeconds(d).Fail?)
      || (m == EphemeralStorageMessage && HasReplicaSet(d).Pass? && NoEphemeralStorage(d).Fail?)
  {
    SpotChecksDefined(d);
    EvaluateIsFirstFailure(SpotChecks, d);
    var k :| 0 <= k < |SpotChecks| && CanApply(SpotChecks[k], d) && Apply(SpotChecks[k], d) == Evaluate(SpotChecks, d)
      && forall j :: 0 <= j < k ==> CanApply(SpotChecks[j], d) && Apply(SpotChecks[j], d).Pass?;
    if k > 0 {
      assert Apply(SpotChecks[0], d).Pass?;
    }
  }
}
