/** CPU and memory requests of a deployment: the sum over its containers of
    one resource's request, times the replica count. Quantity text is turned
    into an integer (milli-cores, bytes) by a parser the caller supplies. */
module Requests {
  import opened Deployments
  import opened Engine

  const Cpu := "cpu"
  const Memory := "memory"

  /** A container's request for `resource`, or zero when it declares none. */
  function ContainerRequest(c: Container, resource: string, parse: string -> int): int
  {
    if RequestsResource(c, resource) then parse(c.requests.value[resource]) else 0
  }

  /** The requests for `resource` summed over the containers, in order. */
  function RequestSum(cs: seq<Container>, resource: string, parse: string -> int): int
  {
    if cs == [] then 0
    else RequestSum(cs[..|cs| - 1], resource, parse) + ContainerRequest(cs[|cs| - 1], resource, parse)
  }

  /** The multiplier: the replica count, or 1 when it is absent or zero. */
  function ReplicaFactor(d: Deployment): int
  {
    if d.replicas.Some? && d.replicas.value != 0 then d.replicas.value else 1
  }

  /** A deployment's total request for `resource`. */
  function DeploymentRequest(d: Deployment, resource: string, parse: string -> int): int
  {
    RequestSum(d.containers, resource, parse) * ReplicaFactor(d)
  }

  /** The source's accumulation loop over the containers. */
  method SumRequests(cs: seq<Container>, resource: string, parse: string -> int) returns (total: int)
    ensures total == RequestSum(cs, resource, parse)
  {
    total := 0;
    for i := 0 to |cs|
      invariant total == RequestSum(cs[..i], resource, parse)
    {
      assert cs[..i + 1][..i] == cs[..i];
      var requests := cs[i].requests;
      if requests.Some? && requests.value != map[] && resource in requests.value {
        total := total + parse(requests.value[resource]);
      }
    }
    assert cs[..|cs|] == cs;
  }

  method GetCpuRequests(d: Deployment, parse: string -> int) returns (cpu: int)
    ensures cpu == DeploymentRequest(d, Cpu, parse)
  {
    var sum := SumRequests(d.containers, Cpu, parse);
    cpu := sum * (if d.replicas.Some? && d.replicas.value != 0 then d.replicas.value else 1);
  }

  method GetMemRequests(d: Deployment, parse: string -> int) returns (memory: int)
    ensures memory == DeploymentRequest(d, Memory, parse)
  {
    var sum := SumRequests(d.containers, Memory, parse);
    memory := sum * (if d.replicas.Some? && d.replicas.value != 0 then d.replicas.value else 1);
  }

  /** The sum splits over concatenation: containers are added one after the
      other, in a fixed order. */
  lemma {:induction false} RequestSumConcat(a: seq<Container>, b: seq<Container>, resource: string, parse: string -> int)
    ensures RequestSum(a + b, resource, parse) == RequestSum(a, resource, parse) + RequestSum(b, resource, parse)
  {
    if b != [] {
      var b' := b[..|b| - 1];
      assert (a + b)[..|a + b| - 1] == a + b';
      assert (a + b)[|a + b| - 1] == b[|b| - 1];
      RequestSumConcat(a, b', resource, parse);
    } else {
      assert a + b == a;
    }
  }

  /** The sum is the sum of the containers that declare the resource: a
      container that does not, including one whose requests are absent or
      empty, contributes nothing. */
  lemma {:induction false} RequestSumWithoutResource(cs: seq<Container>, resource: string, parse: string -> int)
    requires forall i :: 0 <= i < |cs| ==> !RequestsResource(cs[i], resource)
    ensures RequestSum(cs, resource, parse) == 0
  {
    if cs != [] {
      RequestSumWithoutResource(cs[..|cs| - 1], resource, parse);
    }
  }

  /** The sum depends only on each container's request for that one
      resource, not on any other request key. */
  lemma {:induction false} RequestSumOnlyReadsResource(cs: seq<Container>, cs': seq<Container>, resource: string, parse: string -> int)
    requires |cs| == |cs'|
    requires forall i :: 0 <= i < |cs| ==> RequestsResource(cs[i], resource) == RequestsResource(cs'[i], resource)
    requires forall i :: 0 <= i < |cs| && RequestsResource(cs[i], resource) && RequestsResource(cs'[i], resource) ==>
      cs[i].requests.value[resource] == cs'[i].requests.value[resource]
    ensures RequestSum(cs, resource, parse) == RequestSum(cs', resource, parse)
  {
    if cs != [] {
      RequestSumOnlyReadsResource(cs[..|cs| - 1], cs'[..|cs'| - 1], resource, parse);
    }
  }

  /** A suitable deployment has at least two replicas, so its totals are
      its container sums times its replica count. */
  lemma SuitableRequestUsesReplicas(d: Deployment, resource: string, parse: string -> int)
    requires Evaluable(d) && SpotVerdict(d).Pass?
    ensures d.replicas.Some? && d.replicas.value >= 2
    ensures DeploymentRequest(d, resource, parse) == RequestSum(d.containers, resource, parse) * d.replicas.value
  {
    SpotVerdictPassIff(d);
  }
}
