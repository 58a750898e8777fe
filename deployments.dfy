/** The descriptors the scan reads: deployments, their containers, pods and
    pod disruption budgets, as the cluster reports them. */
module Deployments {
  import opened Outcomes

  /** A container's resource requests: resource name to quantity text. */
  type Requests = map<string, string>

  datatype Container = Container(requests: Option<Requests>)

  /** A deployment with the fields the rules read. The termination grace
      period is always present (see README, "Left out"). */
  datatype Deployment = Deployment(
    namespace: string,
    name: string,
    replicas: Option<int>,
    labels: Option<map<string, string>>,
    annotations: Option<map<string, string>>,
    terminationGracePeriodSeconds: int,
    containers: seq<Container>)

  /** A pod status condition; the transition time, when the cluster reports
      one, is in whole seconds. */
  datatype Condition = Condition(kind: string, lastTransitionTime: Option<int>)

  datatype Pod = Pod(conditions: seq<Condition>)

  /** A pod disruption budget and its current headroom. */
  datatype Pdb = Pdb(namespace: string, name: string, disruptionsAllowed: int)

  /** The (namespace, name) pair the scan reports. */
  type Id = (string, string)

  function IdOf(d: Deployment): Id
  {
    (d.namespace, d.name)
  }

  /** Python's `dict.get`: the value at `key`, or `None`. */
  function Get(m: map<string, string>, key: string): Option<string>
  {
    if key in m then Some(m[key]) else None
  }

  /** The test `requests and resource in requests`: the requests mapping is
      present, non-empty, and has the key. */
  predicate RequestsResource(c: Container, resource: string)
  {
    c.requests.Some? && c.requests.value != map[] && resource in c.requests.value
  }

  /** An annotation lookup cannot fail: when labels are present the source
      looks into the annotations without checking them for `None`. */
  predicate AnnotationsReadable(d: Deployment)
  {
    d.labels.Some? ==> d.annotations.Some?
  }
}
