/** The scan over all deployments and the audit of pod disruption budgets:
    namespace exclusion, the split into suitable deployments and failure
    buckets keyed by message, the totals over suitable deployments, and the
    budgets that currently allow no disruption. */
module Scan {
  import opened Outcomes
  import opened Deployments
  import opened Engine
  import opened Requests
  import Predicates

  const KubeSystem := "kube-system"

  /** A namespace is scanned unless it is "kube-system" or excluded. */
  predicate InScope(namespace: string, exclude: seq<string>)
  {
    namespace != KubeSystem && namespace !in exclude
  }

  /** Every scanned deployment can be evaluated without a crash. */
  predicate ScanEvaluable(ds: seq<Deployment>, exclude: seq<string>)
  {
    forall d :: d in ds && InScope(d.namespace, exclude) ==> Evaluable(d)
  }

  predicate AllEvaluable(ds: seq<Deployment>)
  {
    forall d :: d in ds ==> Evaluable(d)
  }

  /** No two deployments share a (namespace, name) pair. */
  predicate UniqueIds(ds: seq<Deployment>)
  {
    forall i, j :: 0 <= i < j < |ds| ==> IdOf(ds[i]) != IdOf(ds[j])
  }

  /** The scanned deployments, in input order. */
  function Considered(ds: seq<Deployment>, exclude: seq<string>): (r: seq<Deployment>)
    ensures forall d :: d in r <==> d in ds && InScope(d.namespace, exclude)
  {
    if ds == [] then []
    else
      assert ds == ds[..|ds| - 1] + [ds[|ds| - 1]];
      var init := Considered(ds[..|ds| - 1], exclude);
      if InScope(ds[|ds| - 1].namespace, exclude) then init + [ds[|ds| - 1]] else init
  }

  /** The suitable deployments, in input order. */
  function SuitableOf(ds: seq<Deployment>): (r: seq<Deployment>)
    requires AllEvaluable(ds)
    ensures forall d :: d in r <==> d in ds && SpotVerdict(d).Pass?
  {
    if ds == [] then []
    else
      assert ds == ds[..|ds| - 1] + [ds[|ds| - 1]];
      var init := SuitableOf(ds[..|ds| - 1]);
      if SpotVerdict(ds[|ds| - 1]).Pass? then init + [ds[|ds| - 1]] else init
  }

  /** The deployments that failed with message `m`, in input order. */
  function FailingWith(ds: seq<Deployment>, m: string): (r: seq<Deployment>)
    requires AllEvaluable(ds)
    ensures forall d :: d in r <==> d in ds && SpotVerdict(d) == Fail(m)
  {
    if ds == [] then []
    else
      assert ds == ds[..|ds| - 1] + [ds[|ds| - 1]];
      var init := FailingWith(ds[..|ds| - 1], m);
      if SpotVerdict(ds[|ds| - 1]) == Fail(m) then init + [ds[|ds| - 1]] else init
  }

  /** The messages some deployment failed with. */
  function FailureReasons(ds: seq<Deployment>): set<string>
    requires AllEvaluable(ds)
  {
    if ds == [] then {}
    else
      var init := FailureReasons(ds[..|ds| - 1]);
      var v := SpotVerdict(ds[|ds| - 1]);
      if v.Fail? then init + {v.reason} else init
  }

  /** The (namespace, name) pairs of the deployments, in order. */
  function Ids(ds: seq<Deployment>): seq<Id>
  {
    seq(|ds|, i requires 0 <= i < |ds| => IdOf(ds[i]))
  }

  /** The total request for `resource` over the deployments, in order. */
  function RequestTotal(ds: seq<Deployment>, resource: string, parse: string -> int): int
  {
    if ds == [] then 0
    else RequestTotal(ds[..|ds| - 1], resource, parse) + DeploymentRequest(ds[|ds| - 1], resource, parse)
  }

  /** The source's scan loop. Deployments in "kube-system" or in `exclude` are
      skipped; every other one is evaluated and its id appended either to
      `suitable` or to the bucket of its failure message; the totals add up
      the requests of the suitable ones only. */
  method ScanDeployments(ds: seq<Deployment>, exclude: seq<string>, parse: string -> int)
    returns (suitable: seq<Id>, unsuitable: map<string, seq<Id>>, totalCpu: int, totalMem: int)
    requires ScanEvaluable(ds, exclude)
    ensures AllEvaluable(Considered(ds, exclude))
    ensures suitable == Ids(SuitableOf(Considered(ds, exclude)))
    ensures unsuitable.Keys == FailureReasons(Considered(ds, exclude))
    ensures forall m :: m in unsuitable ==> unsuitable[m] == Ids(FailingWith(Considered(ds, exclude), m))
    ensures totalCpu == RequestTotal(SuitableOf(Considered(ds, exclude)), Cpu, parse)
    ensures totalMem == RequestTotal(SuitableOf(Considered(ds, exclude)), Memory, parse)
  {
    suitable, unsuitable, totalCpu, totalMem := [], map[], 0, 0;
    ghost var c: seq<Deployment> := [];
    for i := 0 to |ds|
      invariant c == Considered(ds[..i], exclude)
      invariant ScanState(c, suitable, unsuitable, totalCpu, totalMem, parse)
    {
      var d := ds[i];
      ConsideredSnoc(ds, i, exclude);
      if d.namespace == KubeSystem {
        continue;
      }
      if d.namespace in exclude {
        continue;
      }
      assert d in ds;
      suitable, unsuitable, totalCpu, totalMem :=
        Classify(c, d, parse, suitable, unsuitable, totalCpu, totalMem);
      c := c + [d];
    }
    assert ds[..|ds|] == ds;
  }

  /** What the scan has built after reading the scanned deployments `c`. */
  predicate ScanState(c: seq<Deployment>, suitable: seq<Id>, unsuitable: map<string, seq<Id>>,
                      totalCpu: int, totalMem: int, parse: string -> int)
  {
    && AllEvaluable(c)
    && suitable == Ids(SuitableOf(c))
    && IsBuckets(unsuitable, c)
    && totalCpu == RequestTotal(SuitableOf(c), Cpu, parse)
    && totalMem == RequestTotal(SuitableOf(c), Memory, parse)
  }

  lemma StepSuitable(c: seq<Deployment>, d: Deployment, suitable: seq<Id>, unsuitable: map<string, seq<Id>>,
                     totalCpu: int, totalMem: int, parse: string -> int)
    requires ScanState(c, suitable, unsuitable, totalCpu, totalMem, parse)
    requires Evaluable(d) && SpotVerdict(d).Pass?
    ensures ScanState(c + [d], suitable + [IdOf(d)], unsuitable,
                      totalCpu + DeploymentRequest(d, Cpu, parse), totalMem + DeploymentRequest(d, Memory, parse), parse)
  {
    SnocSuitable(c, d, parse);
    BucketsAfterSuitable(unsuitable, c, d);
  }

  lemma StepUnsuitable(c: seq<Deployment>, d: Deployment, suitable: seq<Id>, unsuitable: map<string, seq<Id>>,
                       unsuitable': map<string, seq<Id>>, totalCpu: int, totalMem: int, parse: string -> int)
    requires ScanState(c, suitable, unsuitable, totalCpu, totalMem, parse)
    requires Evaluable(d) && SpotVerdict(d).Fail?
    requires BucketAppended(unsuitable', unsuitable, SpotVerdict(d).reason, IdOf(d))
    ensures ScanState(c + [d], suitable, unsuitable', totalCpu, totalMem, parse)
  {
    SnocUnsuitable(c, d);
    BucketsAfterUnsuitable(unsuitable, unsuitable', c, d);
  }

  /** `u` holds exactly the failure buckets of `c`. */
  predicate IsBuckets(u: map<string, seq<Id>>, c: seq<Deployment>)
    requires AllEvaluable(c)
  {
    u.Keys == FailureReasons(c) && forall m :: m in u ==> u[m] == Ids(FailingWith(c, m))
  }

  lemma BucketsAfterSuitable(u: map<string, seq<Id>>, c: seq<Deployment>, d: Deployment)
    requires AllEvaluable(c) && Evaluable(d) && SpotVerdict(d).Pass? && IsBuckets(u, c)
    ensures AllEvaluable(c + [d]) && IsBuckets(u, c + [d])
  {
    SnocSuitable(c, d, s => 0);
  }

  /** The bucket update of the source: create the bucket of a new message,
      then append the id to it. */
  lemma BucketsAfterUnsuitable(u: map<string, seq<Id>>, u': map<string, seq<Id>>, c: seq<Deployment>, d: Deployment)
    requires AllEvaluable(c) && Evaluable(d) && SpotVerdict(d).Fail? && IsBuckets(u, c)
    requires BucketAppended(u', u, SpotVerdict(d).reason, IdOf(d))
    ensures AllEvaluable(c + [d]) && IsBuckets(u', c + [d])
  {
    var m := SpotVerdict(d).reason;
    SnocUnsuitable(c, d);
    ReasonsAreNonEmptyBuckets(c, m);
  }

  /** The body of the scan loop for a scanned deployment: evaluate it, then
      either record it as suitable and add its requests to the totals, or
      append it to the bucket of its failure message, creating the bucket
      for a new message. */
  method Classify(ghost c: seq<Deployment>, d: Deployment, parse: string -> int,
                  suitable: seq<Id>, unsuitable: map<string, seq<Id>>, totalCpu: int, totalMem: int)
    returns (suitable': seq<Id>, unsuitable': map<string, seq<Id>>, totalCpu': int, totalMem': int)
    requires Evaluable(d)
    requires ScanState(c, suitable, unsuitable, totalCpu, totalMem, parse)
    ensures ScanState(c + [d], suitable', unsuitable', totalCpu', totalMem', parse)
  {
    var verdict, _ := IsSuitableForSpotInstances(d);
    if verdict.Pass? {
      StepSuitable(c, d, suitable, unsuitable, totalCpu, totalMem, parse);
      var cpu := GetCpuRequests(d, parse);
      var memory := GetMemRequests(d, parse);
      suitable', unsuitable', totalCpu', totalMem' := suitable + [IdOf(d)], unsuitable, totalCpu + cpu, totalMem + memory;
    } else {
      unsuitable' := AddToBucket(unsuitable, verdict.reason, IdOf(d));
      StepUnsuitable(c, d, suitable, unsuitable, unsuitable', totalCpu, totalMem, parse);
      suitable', totalCpu', totalMem' := suitable, totalCpu, totalMem;
    }
  }

  /** `r` is `u` with `id` appended to the bucket of `message`. */
  predicate BucketAppended(r: map<string, seq<Id>>, u: map<string, seq<Id>>, message: string, id: Id)
  {
    && r.Keys == u.Keys + {message}
    && r[message] == (if message in u then u[message] else []) + [id]
    && forall m :: m in u && m != message ==> r[m] == u[m]
  }

  /** Appends `id` to the bucket of `message`, creating the bucket first
      when the message is new. */
  method AddToBucket(unsuitable: map<string, seq<Id>>, message: string, id: Id) returns (r: map<string, seq<Id>>)
    ensures BucketAppended(r, unsuitable, message, id)
  {
    r := unsuitable;
    if message !in r {
      r := r[message := []];
    }
    r := r[message := r[message] + [id]];
  }

  lemma ConsideredSnoc(ds: seq<Deployment>, i: nat, exclude: seq<string>)
    requires i < |ds|
    ensures Considered(ds[..i + 1], exclude) ==
      if InScope(ds[i].namespace, exclude) then Considered(ds[..i], exclude) + [ds[i]] else Considered(ds[..i], exclude)
  {
    assert ds[..i + 1][..i] == ds[..i];
  }

  /** Appending a suitable deployment extends the suitable list by it, adds
      its requests to the totals and leaves the buckets alone. */
  lemma SnocSuitable(c: seq<Deployment>, d: Deployment, parse: string -> int)
    requires AllEvaluable(c) && Evaluable(d) && SpotVerdict(d).Pass?
    ensures AllEvaluable(c + [d])
    ensures SuitableOf(c + [d]) == SuitableOf(c) + [d]
    ensures Ids(SuitableOf(c + [d])) == Ids(SuitableOf(c)) + [IdOf(d)]
    ensures FailureReasons(c + [d]) == FailureReasons(c)
    ensures forall m :: FailingWith(c + [d], m) == FailingWith(c, m)
    ensures RequestTotal(SuitableOf(c + [d]), Cpu, parse) == RequestTotal(SuitableOf(c), Cpu, parse) + DeploymentRequest(d, Cpu, parse)
    ensures RequestTotal(SuitableOf(c + [d]), Memory, parse) == RequestTotal(SuitableOf(c), Memory, parse) + DeploymentRequest(d, Memory, parse)
  {
    assert (c + [d])[..|c|] == c;
    var s := SuitableOf(c);
    assert (s + [d])[..|s|] == s;
    IdsSnoc(s, d);
  }

  /** Appending an unsuitable deployment extends the bucket of its message by
      it and leaves everything else alone. */
  lemma SnocUnsuitable(c: seq<Deployment>, d: Deployment)
    requires AllEvaluable(c) && Evaluable(d) && SpotVerdict(d).Fail?
    ensures AllEvaluable(c + [d])
    ensures SuitableOf(c + [d]) == SuitableOf(c)
    ensures FailureReasons(c + [d]) == FailureReasons(c) + {SpotVerdict(d).reason}
    ensures Ids(FailingWith(c + [d], SpotVerdict(d).reason)) == Ids(FailingWith(c, SpotVerdict(d).reason)) + [IdOf(d)]
    ensures forall m :: m != SpotVerdict(d).reason ==> FailingWith(c + [d], m) == FailingWith(c, m)
  {
    assert (c + [d])[..|c|] == c;
    IdsSnoc(FailingWith(c, SpotVerdict(d).reason), d);
  }

  /** A budget is flagged when its namespace is scanned and it currently
      allows no disruption. */
  predicate Blocking(p: Pdb, exclude: seq<string>)
  {
    InScope(p.namespace, exclude) && p.disruptionsAllowed <= 0
  }

  /** The flagged budgets, in input order. */
  function FlaggedPdbs(pdbs: seq<Pdb>, exclude: seq<string>): (r: seq<Pdb>)
    ensures forall p :: p in r <==> p in pdbs && Blocking(p, exclude)
  {
    if pdbs == [] then []
    else
      assert pdbs == pdbs[..|pdbs| - 1] + [pdbs[|pdbs| - 1]];
      var init := FlaggedPdbs(pdbs[..|pdbs| - 1], exclude);
      if Blocking(pdbs[|pdbs| - 1], exclude) then init + [pdbs[|pdbs| - 1]] else init
  }

  /** The source's budget loop; it reports each flagged budget in turn. */
  method AuditPdbs(pdbs: seq<Pdb>, exclude: seq<string>) returns (flagged: seq<Pdb>)
    ensures flagged == FlaggedPdbs(pdbs, exclude)
  {
    flagged := [];
    for i := 0 to |pdbs|
      invariant flagged == FlaggedPdbs(pdbs[..i], exclude)
    {
      var pdb := pdbs[i];
      assert pdbs[..i + 1][..i] == pdbs[..i];
      if pdb.namespace == KubeSystem {
        continue;
      }
      if pdb.namespace in exclude {
        continue;
      }
      if pdb.disruptionsAllowed <= 0 {
        flagged := flagged + [pdb];
      }
    }
    assert pdbs[..|pdbs|] == pdbs;
  }

  // Properties of the scan.

  /** The bucket keys are exactly the messages with a non-empty bucket. */
  lemma {:induction false} ReasonsAreNonEmptyBuckets(ds: seq<Deployment>, m: string)
    requires AllEvaluable(ds)
    ensures m in FailureReasons(ds) <==> FailingWith(ds, m) != []
  {
    if ds != [] {
      ReasonsAreNonEmptyBuckets(ds[..|ds| - 1], m);
    }
  }

  /** Filtering by namespace keeps ids unique. */
  lemma {:induction false} ConsideredKeepsUniqueIds(ds: seq<Deployment>, exclude: seq<string>)
    requires UniqueIds(ds)
    ensures UniqueIds(Considered(ds, exclude))
  {
    if ds != [] {
      var init := ds[..|ds| - 1];
      var last := ds[|ds| - 1];
      assert UniqueIds(init) by {
        forall i, j | 0 <= i < j < |init| ensures IdOf(init[i]) != IdOf(init[j]) {
          assert init[i] == ds[i] && init[j] == ds[j];
        }
      }
      ConsideredKeepsUniqueIds(init, exclude);
      var c := Considered(init, exclude);
      if InScope(last.namespace, exclude) {
        forall k | 0 <= k < |c| ensures IdOf(c[k]) != IdOf(last) {
          assert c[k] in init;
          var j :| 0 <= j < |init| && init[j] == c[k];
          assert ds[j] == c[k];
        }
        assert UniqueIds(c + [last]) by {
          forall i, j | 0 <= i < j < |c + [last]| ensures IdOf((c + [last])[i]) != IdOf((c + [last])[j]) {
            if j == |c| {
              assert (c + [last])[j] == last;
            } else {
              assert (c + [last])[i] == c[i] && (c + [last])[j] == c[j];
            }
          }
        }
      }
    }
  }

  /** An id that no deployment carries is in no output list. */
  lemma IdAbsent(ds: seq<Deployment>, x: Id, m: string)
    requires AllEvaluable(ds)
    requires forall j :: 0 <= j < |ds| ==> IdOf(ds[j]) != x
    ensures x !in Ids(SuitableOf(ds)) && x !in Ids(FailingWith(ds, m))
  {
    var s := SuitableOf(ds);
    forall k | 0 <= k < |s| ensures Ids(s)[k] != x {
      assert s[k] in ds;
    }
    var f := FailingWith(ds, m);
    forall k | 0 <= k < |f| ensures Ids(f)[k] != x {
      assert f[k] in ds;
    }
  }

  /** Partition: when ids are unique, each deployment's id occurs exactly
      once in the outputs: once in the suitable list if it passes, otherwise
      once in the bucket of its own message, and nowhere else. */
  lemma {:induction false} ExactlyOnce(ds: seq<Deployment>, i: nat)
    requires AllEvaluable(ds) && UniqueIds(ds) && i < |ds|
    ensures multiset(Ids(SuitableOf(ds)))[IdOf(ds[i])] == if SpotVerdict(ds[i]).Pass? then 1 else 0
    ensures forall m :: multiset(Ids(FailingWith(ds, m)))[IdOf(ds[i])] == if SpotVerdict(ds[i]) == Fail(m) then 1 else 0
  {
    OnceInSuitable(ds, i);
    forall m ensures multiset(Ids(FailingWith(ds, m)))[IdOf(ds[i])] == if SpotVerdict(ds[i]) == Fail(m) then 1 else 0 {
      OnceInBucket(ds, i, m);
    }
  }

  /** Dropping the last deployment keeps ids unique, and the last one's id
      differs from every earlier one. */
  lemma UniqueInit(ds: seq<Deployment>)
    requires UniqueIds(ds) && ds != []
    ensures UniqueIds(ds[..|ds| - 1])
    ensures forall j :: 0 <= j < |ds| - 1 ==> IdOf(ds[j]) != IdOf(ds[|ds| - 1])
  {
    var init := ds[..|ds| - 1];
    forall a, b | 0 <= a < b < |init| ensures IdOf(init[a]) != IdOf(init[b]) {
      assert init[a] == ds[a] && init[b] == ds[b];
    }
  }

  lemma {:induction false} OnceInSuitable(ds: seq<Deployment>, i: nat)
    requires AllEvaluable(ds) && UniqueIds(ds) && i < |ds|
    ensures multiset(Ids(SuitableOf(ds)))[IdOf(ds[i])] == if SpotVerdict(ds[i]).Pass? then 1 else 0
  {
    var n := |ds| - 1;
    var init, last := ds[..n], ds[n];
    assert ds == init + [last];
    assert AllEvaluable(init);
    UniqueInit(ds);
    IdsSnoc(SuitableOf(init), last);
    if i == n {
      IdAbsent(init, IdOf(last), "");
    } else {
      assert init[i] == ds[i];
      OnceInSuitable(init, i);
    }
  }

  lemma {:induction false} OnceInBucket(ds: seq<Deployment>, i: nat, m: string)
    requires AllEvaluable(ds) && UniqueIds(ds) && i < |ds|
    ensures multiset(Ids(FailingWith(ds, m)))[IdOf(ds[i])] == if SpotVerdict(ds[i]) == Fail(m) then 1 else 0
  {
    var n := |ds| - 1;
    var init, last := ds[..n], ds[n];
    assert ds == init + [last];
    assert AllEvaluable(init);
    UniqueInit(ds);
    IdsSnoc(FailingWith(init, m), last);
    if i == n {
      IdAbsent(init, IdOf(last), m);
    } else {
      assert init[i] == ds[i];
      OnceInBucket(init, i, m);
    }
  }

  lemma IdsSnoc(ds: seq<Deployment>, d: Deployment)
    ensures Ids(ds + [d]) == Ids(ds) + [IdOf(d)]
  {
  }

  /** The partition stated over the scan: every scanned deployment's id
      occurs exactly once among the suitable list and the buckets. */
  lemma ScanPartition(ds: seq<Deployment>, exclude: seq<string>, d: Deployment)
    requires ScanEvaluable(ds, exclude) && UniqueIds(ds)
    requires d in ds && InScope(d.namespace, exclude)
    ensures AllEvaluable(Considered(ds, exclude)) && Evaluable(d)
    ensures multiset(Ids(SuitableOf(Considered(ds, exclude))))[IdOf(d)] == if SpotVerdict(d).Pass? then 1 else 0
    ensures forall m :: multiset(Ids(FailingWith(Considered(ds, exclude), m)))[IdOf(d)] ==
                        if SpotVerdict(d) == Fail(m) then 1 else 0
  {
    var c := Considered(ds, exclude);
    ConsideredKeepsUniqueIds(ds, exclude);
    var i :| 0 <= i < |c| && c[i] == d;
    ExactlyOnce(c, i);
  }

  /** Every id the scan reports belongs to a scanned namespace. */
  lemma ScanReportsOnlyScannedNamespaces(ds: seq<Deployment>, exclude: seq<string>, x: Id, m: string)
    requires ScanEvaluable(ds, exclude)
    ensures AllEvaluable(Considered(ds, exclude))
    ensures x in Ids(SuitableOf(Considered(ds, exclude))) ==> InScope(x.0, exclude)
    ensures x in Ids(FailingWith(Considered(ds, exclude), m)) ==> InScope(x.0, exclude)
  {
    var c := Considered(ds, exclude);
    var s := SuitableOf(c);
    if x in Ids(s) {
      var k :| 0 <= k < |s| && Ids(s)[k] == x;
      assert s[k] in c;
    }
    var f := FailingWith(c, m);
    if x in Ids(f) {
      var k :| 0 <= k < |f| && Ids(f)[k] == x;
      assert f[k] in c;
    }
  }

  lemma {:induction false} ConsideredConcat(a: seq<Deployment>, b: seq<Deployment>, exclude: seq<string>)
    ensures Considered(a + b, exclude) == Considered(a, exclude) + Considered(b, exclude)
  {
    if b == [] {
      assert a + b == a;
    } else {
      var b' := b[..|b| - 1];
      assert (a + b)[..|a + b| - 1] == a + b';
      assert (a + b)[|a + b| - 1] == b[|b| - 1];
      ConsideredConcat(a, b', exclude);
    }
  }

  /** A deployment in an excluded namespace changes nothing: inserting it
      anywhere leaves the scanned list, and so the suitable list, every
      bucket and both totals, as they were. */
  lemma ExcludedDeploymentIgnored(a: seq<Deployment>, d: Deployment, b: seq<Deployment>, exclude: seq<string>)
    requires !InScope(d.namespace, exclude)
    ensures Considered(a + [d] + b, exclude) == Considered(a + b, exclude)
  {
    ConsideredConcat(a + [d], b, exclude);
    ConsideredConcat(a, [d], exclude);
    ConsideredConcat(a, b, exclude);
    assert [d][..0] == [];
  }

  /** The budget filter: flagged exactly when scanned and allowing no
      disruption; a budget allowing zero is flagged, one allowing one is not. */
  lemma PdbFlagBoundary(ns: string, name: string, exclude: seq<string>)
    requires InScope(ns, exclude)
    ensures FlaggedPdbs([Pdb(ns, name, 0)], exclude) == [Pdb(ns, name, 0)]
    ensures FlaggedPdbs([Pdb(ns, name, 1)], exclude) == []
  {
  }

  /** A deployment of `n` replicas, no labels or annotations, a 30-second
      grace period and one container requesting `q` of CPU. */
  function CpuDeployment(name: string, n: int, q: string): Deployment
  {
    Deployment("apps", name, Some(n), None, None, 30, [Container(Some(map[Cpu := q]))])
  }

  /** The fixture `CpuDeployment` is suitable for every replica count of at
      least two, and its CPU total is its one request times that count, for
      any quantity parser. */
  lemma CpuDeploymentSuitable(name: string, n: int, q: string, parse: string -> int)
    requires n >= 2
    ensures Evaluable(CpuDeployment(name, n, q)) && SpotVerdict(CpuDeployment(name, n, q)).Pass?
    ensures DeploymentRequest(CpuDeployment(name, n, q), Cpu, parse) == parse(q) * n
  {
    var d := CpuDeployment(name, n, q);
    assert RequestsResource(d.containers[0], Cpu);
    assert d.containers[..0] == [];
    assert RequestSum(d.containers, Cpu, parse) == parse(q);
    assert ReplicaFactor(d) == n;
    assert !RequestsResource(d.containers[0], Predicates.EphemeralStorage);
    SpotVerdictPassIff(d);
  }

  /** Two suitable deployments, one of 2 replicas requesting 500 milli-cores
      and one of 3 replicas requesting 250, total 1750 milli-cores. */
  lemma CpuTotalExample()
    ensures var a, b := CpuDeployment("a", 2, "500m"), CpuDeployment("b", 3, "250m");
      && AllEvaluable([a, b])
      && SuitableOf([a, b]) == [a, b]
      && RequestTotal(SuitableOf([a, b]), Cpu, ExampleQuantity) == 1750
  {
    var a, b := CpuDeployment("a", 2, "500m"), CpuDeployment("b", 3, "250m");
    CpuDeploymentSuitable("a", 2, "500m", ExampleQuantity);
    CpuDeploymentSuitable("b", 3, "250m", ExampleQuantity);
    assert [a, b][..1] == [a] && [a][..0] == [];
    assert SuitableOf([a]) == [a];
    assert RequestTotal([a], Cpu, ExampleQuantity) == 1000;
  }

  /** The two quantities of the example, in milli-cores. */
  function ExampleQuantity(q: string): int
  {
    if q == "500m" then 500 else if q == "250m" then 250 else 0
  }
}
