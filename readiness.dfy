/** The readiness rule: every pod of the deployment must have been scheduled
    and become ready, and must have become ready within ten minutes of being
    scheduled. The pods are passed in already fetched. */
module Readiness {
  import opened Outcomes
  import opened Deployments

  const NoPodsMessage := "The deployment has no pods"
  const MissingTimeMessage := "Pod schedule time or ready time is missing"
  const SlowReadyMessage := "The deployment's pods take longer than 10 minutes to become ready"

  const PodScheduled := "PodScheduled"
  const Ready := "Ready"

  /** Ten minutes, in seconds. */
  const ReadyThresholdSeconds := 600

  /** The transition time of the last condition of the given kind, if any:
      a later condition of a kind overrides an earlier one, even when the
      later one carries no time. */
  function LastTransition(conditions: seq<Condition>, kind: string): Option<int>
  {
    if conditions == [] then None
    else if conditions[|conditions| - 1].kind == kind then conditions[|conditions| - 1].lastTransitionTime
    else LastTransition(conditions[..|conditions| - 1], kind)
  }

  /** The verdict on one pod. */
  function PodReadiness(p: Pod): Outcome
  {
    var scheduled := LastTransition(p.conditions, PodScheduled);
    var ready := LastTransition(p.conditions, Ready);
    if scheduled.None? || ready.None? then Fail(MissingTimeMessage)
    else if ready.value - scheduled.value > ReadyThresholdSeconds then Fail(SlowReadyMessage)
    else Pass
  }

  /** The first failing verdict of a sequence, or `Pass` when none fails.
      This is the first-failure-wins rule of `Engine.Evaluate`, over pod
      verdicts instead of rules; `FirstFailureAt`, `FirstFailureAllPass` and
      `FirstFailureIsFirst` mirror `Engine.EvaluateFailsAt`,
      `Engine.EvaluatePassesAll` and `Engine.EvaluateIsFirstFailure`. */
  function FirstFailure(outs: seq<Outcome>): Outcome
  {
    if outs == [] then Pass
    else if outs[0].Fail? then outs[0]
    else FirstFailure(outs[1..])
  }

  function PodVerdicts(pods: seq<Pod>): (r: seq<Outcome>)
    ensures |r| == |pods| && forall i :: 0 <= i < |pods| ==> r[i] == PodReadiness(pods[i])
  {
    seq(|pods|, i requires 0 <= i < |pods| => PodReadiness(pods[i]))
  }

  /** The rule over the whole pod list: an empty list fails, otherwise the
      first pod that fails decides. */
  function ReadyQuickly(pods: seq<Pod>): Outcome
  {
    if pods == [] then Fail(NoPodsMessage) else FirstFailure(PodVerdicts(pods))
  }

  /** The source's scan: for every pod, the loop over its conditions keeps
      the latest scheduled and ready times; the first pod missing one, or
      taking too long, ends the scan. */
  method GetsReadyQuickly(pods: seq<Pod>) returns (r: Outcome)
    ensures r == ReadyQuickly(pods)
  {
    if |pods| == 0 {
      return Fail(NoPodsMessage);
    }
    for i := 0 to |pods|
      invariant forall j :: 0 <= j < i ==> PodReadiness(pods[j]).Pass?
    {
      var conditions := pods[i].conditions;
      var scheduledTime: Option<int> := None;
      var readyTime: Option<int> := None;
      for k := 0 to |conditions|
        invariant scheduledTime == LastTransition(conditions[..k], PodScheduled)
        invariant readyTime == LastTransition(conditions[..k], Ready)
      {
        assert conditions[..k + 1][..k] == conditions[..k];
        if conditions[k].kind == PodScheduled {
          scheduledTime := conditions[k].lastTransitionTime;
        } else if conditions[k].kind == Ready {
          readyTime := conditions[k].lastTransitionTime;
        }
      }
      assert conditions[..|conditions|] == conditions;
      if scheduledTime.None? || readyTime.None? {
        FirstFailureAt(PodVerdicts(pods), i);
        return Fail(MissingTimeMessage);
      }
      if readyTime.value - scheduledTime.value > ReadyThresholdSeconds {
        FirstFailureAt(PodVerdicts(pods), i);
        return Fail(SlowReadyMessage);
      }
    }
    FirstFailureAllPass(PodVerdicts(pods));
    return Pass;
  }

  lemma {:induction false} FirstFailureAt(outs: seq<Outcome>, k: nat)
    requires k < |outs| && outs[k].Fail?
    requires forall j :: 0 <= j < k ==> outs[j].Pass?
    ensures FirstFailure(outs) == outs[k]
  {
    if k > 0 {
      FirstFailureAt(outs[1..], k - 1);
    }
  }

  lemma {:induction false} FirstFailureAllPass(outs: seq<Outcome>)
    requires forall j :: 0 <= j < |outs| ==> outs[j].Pass?
    ensures FirstFailure(outs) == Pass
  {
    if outs != [] {
      FirstFailureAllPass(outs[1..]);
    }
  }

  /** `FirstFailure` passes exactly when every verdict passes, and a failure
      it returns is the verdict at the first failing position. */
  lemma {:induction false} FirstFailureIsFirst(outs: seq<Outcome>)
    ensures FirstFailure(outs).Pass? <==> forall j :: 0 <= j < |outs| ==> outs[j].Pass?
    ensures FirstFailure(outs).Fail? ==>
      exists k :: 0 <= k < |outs| && outs[k] == FirstFailure(outs) && forall j :: 0 <= j < k ==> outs[j].Pass?
  {
    if outs != [] && outs[0].Pass? {
      FirstFailureIsFirst(outs[1..]);
      if FirstFailure(outs).Fail? {
        var k :| 0 <= k < |outs[1..]| && outs[1..][k] == FirstFailure(outs[1..])
          && forall j :: 0 <= j < k ==> outs[1..][j].Pass?;
        assert outs[k + 1] == FirstFailure(outs);
      }
    }
  }

  /** The last condition of a kind wins over earlier duplicates, whether or
      not it carries a time. */
  lemma {:induction false} LastTransitionAt(conditions: seq<Condition>, kind: string, i: nat)
    requires i < |conditions| && conditions[i].kind == kind
    requires forall j :: i < j < |conditions| ==> conditions[j].kind != kind
    ensures LastTransition(conditions, kind) == conditions[i].lastTransitionTime
  {
    if i < |conditions| - 1 {
      LastTransitionAt(conditions[..|conditions| - 1], kind, i);
    }
  }

  /** A kind no condition has gets no transition time, and a time that is
      found is carried by some condition of that kind. */
  lemma {:induction false} LastTransitionAbsent(conditions: seq<Condition>, kind: string)
    ensures (forall j :: 0 <= j < |conditions| ==> conditions[j].kind != kind) ==>
      LastTransition(conditions, kind).None?
    ensures LastTransition(conditions, kind).Some? ==>
      exists j :: 0 <= j < |conditions| && conditions[j].kind == kind
        && conditions[j].lastTransitionTime == LastTransition(conditions, kind)
  {
    if conditions != [] {
      var init := conditions[..|conditions| - 1];
      LastTransitionAbsent(init, kind);
      assert forall j :: 0 <= j < |init| ==> init[j] == conditions[j];
    }
  }

  /** With the last condition of each kind carrying a time, a pod passes
      exactly when the ready time is at most ten minutes after the scheduled
      time (exactly ten passes); a slower pod fails with the slow-readiness
      message. */
  lemma PodReadinessBound(p: Pod, i: nat, j: nat)
    requires i < |p.conditions| && p.conditions[i].kind == PodScheduled
    requires forall k :: i < k < |p.conditions| ==> p.conditions[k].kind != PodScheduled
    requires j < |p.conditions| && p.conditions[j].kind == Ready
    requires forall k :: j < k < |p.conditions| ==> p.conditions[k].kind != Ready
    requires p.conditions[i].lastTransitionTime.Some? && p.conditions[j].lastTransitionTime.Some?
    ensures PodReadiness(p).Pass? <==>
      p.conditions[j].lastTransitionTime.value - p.conditions[i].lastTransitionTime.value <= ReadyThresholdSeconds
    ensures PodReadiness(p).Fail? ==> PodReadiness(p) == Fail(SlowReadyMessage)
  {
    LastTransitionAt(p.conditions, PodScheduled, i);
    LastTransitionAt(p.conditions, Ready, j);
  }

  /** A pod with no condition of one of the two kinds fails with the
      missing-time message. */
  lemma PodMissingCondition(p: Pod, kind: string)
    requires kind == PodScheduled || kind == Ready
    requires forall k :: 0 <= k < |p.conditions| ==> p.conditions[k].kind != kind
    ensures PodReadiness(p) == Fail(MissingTimeMessage)
  {
    LastTransitionAbsent(p.conditions, kind);
  }

  /** A pod whose last condition of one of the two kinds carries no time
      fails with the missing-time message, even if an earlier condition of
      that kind had one. */
  lemma PodTimelessCondition(p: Pod, kind: string, i: nat)
    requires kind == PodScheduled || kind == Ready
    requires i < |p.conditions| && p.conditions[i].kind == kind
    requires forall k :: i < k < |p.conditions| ==> p.conditions[k].kind != kind
    requires p.conditions[i].lastTransitionTime.None?
    ensures PodReadiness(p) == Fail(MissingTimeMessage)
  {
    LastTransitionAt(p.conditions, kind, i);
  }

  /** The rule over a pod list: it fails on an empty list; otherwise it
      passes exactly when every pod passes, and a failure is the verdict
      of the first failing pod. */
  lemma ReadyQuicklyIsFirstFailingPod(pods: seq<Pod>)
    ensures pods == [] ==> ReadyQuickly(pods) == Fail(NoPodsMessage)
    ensures ReadyQuickly(pods).Pass? <==>
      pods != [] && forall j :: 0 <= j < |pods| ==> PodReadiness(pods[j]).Pass?
    ensures pods != [] && ReadyQuickly(pods).Fail? ==>
      exists k :: 0 <= k < |pods| && PodReadiness(pods[k]) == ReadyQuickly(pods)
        && forall j :: 0 <= j < k ==> PodReadiness(pods[j]).Pass?
  {
    if pods != [] {
      var outs := PodVerdicts(pods);
      FirstFailureIsFirst(outs);
      if ReadyQuickly(pods).Fail? {
        var k :| 0 <= k < |outs| && outs[k] == FirstFailure(outs) && forall j :: 0 <= j < k ==> outs[j].Pass?;
        assert PodReadiness(pods[k]) == ReadyQuickly(pods);
      }
    }
  }
}
