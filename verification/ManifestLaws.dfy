/**
 What an accepted manifest guarantees: names resolve, the two lookup orders agree, static
 machines are not shared, and the API server role is used as intended.
 */
module ManifestLaws {
  import opened Sequences
  import opened Manifests
  import Spec
  import PoolValues
  import Naming

  // ---------------------------------------------------------------- providers

  lemma HasName(ps: seq<Provider>, name: string)
    ensures Has(ps, name) <==> name in ProviderNames(ps)
  {
    var names := ProviderNames(ps);
    if Has(ps, name) {
      var i :| 0 <= i < |ps| && ps[i] == FindBy(ps, (p: Provider) => p.name == name).value;
      assert names[i] == name;
    }
    if name in names {
      var i :| 0 <= i < |names| && names[i] == name;
      assert ps[i] in ps && ps[i].name == name;
    }
  }

  lemma {:induction false} SearchAppend(p: Providers, a: seq<Kind>, b: seq<Kind>, name: string)
    ensures Search(p, a + b, name) == if Search(p, a, name).Some? then Search(p, a, name) else Search(p, b, name)
  {
    if a == [] {
      assert a + b == b;
    } else {
      assert (a + b)[1..] == a[1..] + b;
      SearchAppend(p, a[1..], b, name);
    }
  }

  lemma SearchTwo(p: Providers, a: Kind, b: Kind, name: string)
    ensures Search(p, [a, b], name) ==
            if Has(ListOf(p, a), name) then Some(a) else if Has(ListOf(p, b), name) then Some(b) else None
  {
    assert [b][1..] == [] && Search(p, [], name) == None;
    assert [a, b][1..] == [b] && Search(p, [b], name) == if Has(ListOf(p, b), name) then Some(b) else None;
  }

  lemma SearchLeading(p: Providers, name: string)
    ensures Search(p, LEADING, name).Some? <==> Has(p.gcp, name) || Has(p.hetzner, name) || Has(p.oci, name)
  {
    assert LEADING == [Gcp] + [Hetzner, Oci];
    SearchAppend(p, [Gcp], [Hetzner, Oci], name);
    SearchTwo(p, Hetzner, Oci, name);
    assert [Gcp][1..] == [];
  }

  lemma SearchOrder(p: Providers, a: Kind, b: Kind, name: string)
    ensures Search(p, LEADING + [a, b] + TRAILING, name) ==
            if Search(p, LEADING, name).Some? then Search(p, LEADING, name)
            else if Has(ListOf(p, a), name) then Some(a)
            else if Has(ListOf(p, b), name) then Some(b)
            else Search(p, TRAILING, name)
  {
    SearchAppend(p, LEADING + [a, b], TRAILING, name);
    SearchAppend(p, LEADING, [a, b], name);
    SearchTwo(p, a, b, name);
  }

  lemma TypeNamesDiffer(a: Kind, b: Kind)
    ensures TypeName(a) == TypeName(b) <==> a == b
  {
  }

  /**
   The two lookups find a provider under the same names always, and of the same type except
   when a name is taken by both an AWS and an Azure provider and by no earlier list.
   */
  lemma LookupsAgree(p: Providers, name: string)
    ensures GetProvider(p, name).Some? <==> GetProviderType(p, name).Some?
    ensures GetProvider(p, name) == GetProviderType(p, name) <==>
            !(Has(p.aws, name) && Has(p.azure, name)
              && !Has(p.gcp, name) && !Has(p.hetzner, name) && !Has(p.oci, name))
  {
    SearchLeading(p, name);
    SearchOrder(p, Aws, Azure, name);
    SearchOrder(p, Azure, Aws, name);
    TypeNamesDiffer(Aws, Azure);
  }

  lemma NamesAppend(a: seq<Provider>, b: seq<Provider>)
    ensures ProviderNames(a + b) == ProviderNames(a) + ProviderNames(b)
  {
  }

  /** Two different lists of distinct names share none. */
  lemma ListsApart(before: seq<Provider>, a: seq<Provider>, b: seq<Provider>, after: seq<Provider>, name: string)
    requires Distinct(ProviderNames(before + (a + (b + after))))
    ensures !(Has(a, name) && Has(b, name))
  {
    NamesAppend(before, a + (b + after));
    NamesAppend(a, b + after);
    NamesAppend(b, after);
    var all := ProviderNames(before + (a + (b + after)));
    HasName(a, name);
    HasName(b, name);
    if Has(a, name) {
      var i :| 0 <= i < |a| && ProviderNames(a)[i] == name;
      forall j | 0 <= j < |b| ensures ProviderNames(b)[j] != name {
        assert all[|before| + i] != all[|before| + |a| + j];
      }
    }
  }

  /** Providers that passed their own validation are found under one type only. */
  lemma ValidProvidersAgree(p: Providers, name: string)
    requires ProvidersOk(p)
    ensures GetProvider(p, name) == GetProviderType(p, name)
  {
    LookupsAgree(p, name);
    var before := p.gcp + p.hetzner + p.oci;
    var after := p.cloudflare + p.openstack + p.exoscale + p.cloudRift + p.verda + p.ovh;
    ListsApart(before, p.aws, p.azure, after, name);
  }

  // --------------------------------------------------------------- resolution

  datatype Failure = NotDefined(pool: string) | NoProvider(name: string) | TooManyNodes(pool: string)

  datatype Resolved =
    | DynamicResolved(pool: Spec.NodePool, provider: string, spot: bool)
    | StaticResolved(pool: Spec.NodePool)

  datatype Resolution = Success(pool: Resolved) | Failed(why: Failure)

  /** Node names carry the pool's name and a one-byte index in hexadecimal. */
  function StaticNodeName(pool: string, i: nat): string
  {
    pool + "-" + Naming.Hex2((i + 1) % 256)
  }

  function StaticNodesOf(s: StaticPool, isControl: bool): (r: seq<Spec.Node>)
    ensures |r| == |s.nodes|
    ensures forall i :: 0 <= i < |r| ==> r[i].name == StaticNodeName(s.name, i) && r[i].publicIp == s.nodes[i].endpoint
  {
    seq(|s.nodes|, i requires 0 <= i < |s.nodes| =>
      Spec.Node(StaticNodeName(s.name, i), s.nodes[i].endpoint, "",
                if isControl then Spec.Master else Spec.Worker, s.nodes[i].username))
  }

  /** Endpoint to key; of equal endpoints the last one counts. */
  function NodeKeysOf(nodes: seq<StaticNode>): map<string, string>
  {
    if nodes == [] then map[]
    else NodeKeysOf(nodes[..|nodes| - 1])[nodes[|nodes| - 1].endpoint := nodes[|nodes| - 1].key]
  }

  function StaticPoolOf(s: StaticPool, isControl: bool): Spec.NodePool
  {
    Spec.NodePool(s.name, StaticNodesOf(s, isControl), Spec.Static(NodeKeysOf(s.nodes)), isControl, map[],
                  if s.sshPort.Some? then s.sshPort.value else 22)
  }

  /** A new dynamic pool announces its number of nodes but holds none yet. */
  function DynamicPoolOf(d: DynamicPool, isControl: bool): Spec.NodePool
  {
    var scaler := if Autoscaled(d) then Some(Spec.AutoscalerConf(d.scaleMin, d.scaleMax, d.scaleMin)) else None;
    Spec.NodePool(d.name, [], Spec.Dynamic(StartCount(d), scaler, d.region), isControl, map[], 0)
  }

  /** The announced number: the configured count, or the lower end of the autoscaler's range. */
  function StartCount(d: DynamicPool): Spec.Int32
  {
    if Autoscaled(d) then d.scaleMin else d.count
  }

  /** Resolves one name: dynamic pools first, then static ones. */
  function Resolve(m: Manifest, pool: string, isControl: bool): Resolution
  {
    match FindDynamic(m, pool)
    case Some(d) =>
      (match GetProvider(m.providers, d.provider)
       case None => Failed(NoProvider(d.provider))
       case Some(t) => Success(DynamicResolved(DynamicPoolOf(d, isControl), t, d.spot)))
    case None =>
      match FindStatic(m, pool)
      case None => Failed(NotDefined(pool))
      case Some(s) =>
        if |s.nodes| > 255 then Failed(TooManyNodes(pool)) else Success(StaticResolved(StaticPoolOf(s, isControl)))
  }

  method StaticNodes(s: StaticPool, isControl: bool) returns (nodes: seq<Spec.Node>)
    ensures nodes == StaticNodesOf(s, isControl)
  {
    nodes := [];
    var nodeType := if isControl then Spec.Master else Spec.Worker;
    for i := 0 to |s.nodes|
      invariant nodes == StaticNodesOf(s, isControl)[..i]
    {
      nodes := nodes + [Spec.Node(StaticNodeName(s.name, i), s.nodes[i].endpoint, "", nodeType, s.nodes[i].username)];
    }
  }

  method GetNodeKeys(s: StaticPool) returns (keys: map<string, string>)
    ensures keys == NodeKeysOf(s.nodes)
  {
    keys := map[];
    for i := 0 to |s.nodes|
      invariant keys == NodeKeysOf(s.nodes[..i])
    {
      assert s.nodes[..i + 1][..i] == s.nodes[..i];
      keys := keys[s.nodes[i].endpoint := s.nodes[i].key];
    }
    assert s.nodes[..|s.nodes|] == s.nodes;
  }

  method ResolveOne(m: Manifest, name: string, isControl: bool) returns (r: Resolution)
    ensures r == Resolve(m, name, isControl)
  {
    var dynamicPool := FindDynamic(m, name);
    if dynamicPool.Some? {
      var d := dynamicPool.value;
      var provider := GetProvider(m.providers, d.provider);
      if provider.None? {
        return Failed(NoProvider(d.provider));
      }
      var scaler, count := None, d.count;
      if Autoscaled(d) {
        scaler := Some(Spec.AutoscalerConf(d.scaleMin, d.scaleMax, d.scaleMin));
        count := d.scaleMin;
      }
      var pool := Spec.NodePool(d.name, [], Spec.Dynamic(count, scaler, d.region), isControl, map[], 0);
      return Success(DynamicResolved(pool, provider.value, d.spot));
    }
    var staticPool := FindStatic(m, name);
    if staticPool.None? {
      return Failed(NotDefined(name));
    }
    var s := staticPool.value;
    if |s.nodes| > 255 {
      return Failed(TooManyNodes(name));
    }
    var nodes := StaticNodes(s, isControl);
    var keys := GetNodeKeys(s);
    var port := if s.sshPort.Some? then s.sshPort.value else 22;
    r := Success(StaticResolved(Spec.NodePool(s.name, nodes, Spec.Static(keys), isControl, map[], port)));
  }

  /** The first `n` of these resolutions succeeded, with the given pools. */
  predicate Succeeded(rs: seq<Resolution>, n: nat, out: seq<Resolved>)
  {
    n <= |rs| && |out| == n && forall i :: 0 <= i < n ==> rs[i].Success? && rs[i].pool == out[i]
  }

  /** How the names resolve, each for itself. */
  ghost function ResolveAll(m: Manifest, pools: seq<string>, isControl: bool): (rs: seq<Resolution>)
    ensures |rs| == |pools|
  {
    if pools == [] then []
    else ResolveAll(m, pools[..|pools| - 1], isControl) + [Resolve(m, pools[|pools| - 1], isControl)]
  }

  lemma {:induction false} ResolveAllAt(m: Manifest, pools: seq<string>, isControl: bool, i: nat)
    requires i < |pools|
    ensures ResolveAll(m, pools, isControl)[i] == Resolve(m, pools[i], isControl)
  {
    if i < |pools| - 1 {
      ResolveAllAt(m, pools[..|pools| - 1], isControl, i);
    }
  }

  /** The pool at a position, resolved by the loops. */
  method ResolveAt(m: Manifest, pools: seq<string>, isControl: bool, i: nat) returns (r: Resolution)
    requires i < |pools|
    ensures r == ResolveAll(m, pools, isControl)[i]
  {
    r := ResolveOne(m, pools[i], isControl);
    ResolveAllAt(m, pools, isControl, i);
  }

  /** Resolves all pools of a cluster in order, or reports the first failure. */
  method CreateNodepools(m: Manifest, pools: seq<string>, isControl: bool)
    returns (out: seq<Resolved>, failure: Option<Failure>)
    ensures var rs := ResolveAll(m, pools, isControl);
            && Succeeded(rs, |out|, out)
            && (failure.None? ==> |out| == |pools|)
            && (failure.Some? ==> |out| < |pools| && rs[|out|] == Failed(failure.value))
  {
    ghost var rs := ResolveAll(m, pools, isControl);
    out, failure := [], None;
    for i := 0 to |pools|
      invariant Succeeded(rs, i, out)
    {
      var r := ResolveAt(m, pools, isControl, i);
      if r.Failed? {
        return out, Some(r.why);
      }
      out := out + [r.pool];
    }
  }

  /** A new dynamic pool is in sync exactly when it announces no nodes. */
  lemma DynamicPoolStarts(d: DynamicPool, isControl: bool)
    ensures PoolValues.InSync(DynamicPoolOf(d, isControl)) <==> StartCount(d) == 0
    ensures PoolValues.Drift(DynamicPoolOf(d, isControl)) == StartCount(d)
  {
  }

  /** Until its nodes are generated, counted operations keep it as many nodes short as it announced. */
  lemma DynamicPoolRuns(d: DynamicPool, isControl: bool, ops: seq<PoolValues.PoolOp>)
    requires forall op :: op in ops ==> PoolValues.Counted(op)
    ensures var p := PoolValues.Run(DynamicPoolOf(d, isControl), ops);
            && p.kind.Dynamic?
            && p.kind.count == PoolValues.ToInt32(|p.nodes| + StartCount(d))
            && (PoolValues.InSync(p) <==> StartCount(d) == 0)
  {
    DynamicPoolStarts(d, isControl);
    PoolValues.RunKeepsDrift(DynamicPoolOf(d, isControl), ops);
    PoolValues.DriftSync(PoolValues.Run(DynamicPoolOf(d, isControl), ops));
  }

  lemma DynamicNamed(m: Manifest, name: string)
    requires FindDynamic(m, name).Some?
    ensures name in DynamicNames(m)
  {
    var i :| 0 <= i < |m.dynamicPools| && m.dynamicPools[i] == FindDynamic(m, name).value;
    assert DynamicNames(m)[i] == name;
  }

  lemma StaticNamed(m: Manifest, name: string)
    requires FindStatic(m, name).Some?
    ensures name in StaticNames(m)
  {
    var i :| 0 <= i < |m.staticPools| && m.staticPools[i] == FindStatic(m, name).value;
    assert StaticNames(m)[i] == name;
  }

  /** Dynamic and static pools never share a name. */
  lemma KindsApart(m: Manifest, name: string)
    requires Distinct(DynamicNames(m) + StaticNames(m)) && FindDynamic(m, name).Some?
    ensures FindStatic(m, name).None?
  {
    DynamicNamed(m, name);
    DistinctConcat(DynamicNames(m), StaticNames(m), name);
    if FindStatic(m, name).Some? {
      StaticNamed(m, name);
    }
  }

  /**
   In an accepted manifest every listed pool resolves, unless a static pool holds more than
   255 nodes, and it resolves to the kind that the validation saw.
   */
  lemma ListedPoolsResolve(m: Manifest, pool: string, isControl: bool)
    requires Accepted(m) && Referenced(m, pool)
    ensures var r := Resolve(m, pool, isControl);
            && (r.Failed? <==> IsStatic(m, pool) && |FindStatic(m, pool).value.nodes| > 255)
            && (r.Failed? ==> r.why.TooManyNodes?)
            && (r.Success? ==> (r.pool.StaticResolved? <==> IsStatic(m, pool)))
  {
    assert Defined(m, pool) by {
      if c :| c in m.clusters && (pool in c.control || pool in c.compute) {
        assert ClusterPoolsOk(m, c);
      } else {
        var lb :| lb in m.lbs && pool in lb.pools;
        assert LbOk(m, lb);
      }
    }
    if FindDynamic(m, pool).Some? {
      KindsApart(m, pool);
      var d := FindDynamic(m, pool).value;
      assert DynamicOk(m, d);
      LookupsAgree(m.providers, d.provider);
    }
  }

  /** No control plane pool of an accepted manifest runs on spot instances. */
  lemma ControlNeverSpot(m: Manifest, c: Cluster, pool: string)
    requires Accepted(m) && c in m.clusters && pool in c.control
    ensures var r := Resolve(m, pool, true);
            r.Success? && r.pool.DynamicResolved? ==> r.pool.pool.isControl && !r.pool.spot
  {
    if FindDynamic(m, pool).Some? {
      var d := FindDynamic(m, pool).value;
      assert DynamicOk(m, d);
      assert ControlPlane(m, d.name);
    }
  }

  // ----------------------------------------------------------- static machines

  lemma {:induction false} EndpointPlace(pools: seq<StaticPool>, i: nat, k: nat) returns (at: nat)
    requires i < |pools| && k < |pools[i].nodes|
    ensures at < |AllEndpoints(pools)| && AllEndpoints(pools)[at] == pools[i].nodes[k].endpoint
    ensures i + 1 < |pools| ==> at < |AllEndpoints(pools[..|pools| - 1])|
    ensures i + 1 == |pools| ==> at == |AllEndpoints(pools[..|pools| - 1])| + k
    decreases |pools|
  {
    var front, last := pools[..|pools| - 1], pools[|pools| - 1];
    if i + 1 < |pools| {
      at := EndpointPlace(front, i, k);
    } else {
      at := |AllEndpoints(front)| + k;
    }
  }

  /** One endpoint belongs to one static pool, at one position. */
  lemma {:induction false} EndpointHome(pools: seq<StaticPool>, i: nat, k: nat, j: nat, l: nat)
    requires Distinct(AllEndpoints(pools))
    requires i < |pools| && k < |pools[i].nodes| && j < |pools| && l < |pools[j].nodes|
    requires pools[i].nodes[k].endpoint == pools[j].nodes[l].endpoint
    ensures i == j && k == l
    decreases |pools|
  {
    var front := pools[..|pools| - 1];
    var a := EndpointPlace(pools, i, k);
    var b := EndpointPlace(pools, j, l);
    assert a == b;
    if i + 1 < |pools| && j + 1 < |pools| {
      var all := AllEndpoints(pools);
      assert AllEndpoints(front) == all[..|AllEndpoints(front)|];
      EndpointHome(front, i, k, j, l);
    }
  }

  /** A place in the manifest where a pool is listed for a Kubernetes cluster. */
  datatype Place = Place(cluster: nat, control: bool, index: nat)

  predicate IsPlace(m: Manifest, p: Place)
  {
    && p.cluster < |m.clusters|
    && p.index < |if p.control then m.clusters[p.cluster].control else m.clusters[p.cluster].compute|
  }

  function PoolAt(m: Manifest, p: Place): string
    requires IsPlace(m, p)
  {
    if p.control then m.clusters[p.cluster].control[p.index] else m.clusters[p.cluster].compute[p.index]
  }

  /** The static pool of this name holds the machine with this endpoint. */
  predicate Holds(m: Manifest, pool: string, endpoint: string)
  {
    exists s :: s in m.staticPools && s.name == pool && exists n :: n in s.nodes && n.endpoint == endpoint
  }

  lemma HolderUnique(m: Manifest, a: string, b: string, endpoint: string)
    requires NodePoolsOk(m) && Holds(m, a, endpoint) && Holds(m, b, endpoint)
    ensures a == b && IsStatic(m, a)
  {
    var s, n :| s in m.staticPools && s.name == a && n in s.nodes && n.endpoint == endpoint;
    var t, o :| t in m.staticPools && t.name == b && o in t.nodes && o.endpoint == endpoint;
    var i :| 0 <= i < |m.staticPools| && m.staticPools[i] == s;
    var j :| 0 <= j < |m.staticPools| && m.staticPools[j] == t;
    var k :| 0 <= k < |s.nodes| && s.nodes[k] == n;
    var l :| 0 <= l < |t.nodes| && t.nodes[l] == o;
    EndpointHome(m.staticPools, i, k, j, l);
  }

  /**
   In an accepted manifest a static machine occurs at one place of one Kubernetes cluster,
   and no machine of a Kubernetes cluster occurs in a load balancer.
   */
  lemma MachineUsedOnce(m: Manifest, p: Place, q: Place, endpoint: string)
    requires Accepted(m) && IsPlace(m, p) && IsPlace(m, q)
    requires Holds(m, PoolAt(m, p), endpoint) && Holds(m, PoolAt(m, q), endpoint)
    ensures p == q
    ensures forall lb, pool :: lb in m.lbs && pool in lb.pools ==> !Holds(m, pool, endpoint)
  {
    var pool := PoolAt(m, p);
    HolderUnique(m, pool, PoolAt(m, q), endpoint);
    var a, b := m.clusters[p.cluster], m.clusters[q.cluster];
    assert a in m.clusters && b in m.clusters;
    assert UsesStatic(m, a, pool) && UsesStatic(m, b, pool);
    assert a.name == b.name;
    assert ClusterNames(m.clusters)[p.cluster] == ClusterNames(m.clusters)[q.cluster];
    assert p.cluster == q.cluster;
    assert ClusterPoolsOk(m, a);
    forall lb, other | lb in m.lbs && other in lb.pools ensures !Holds(m, other, endpoint) {
      assert !UsesStatic(m, a, other);
      if Holds(m, other, endpoint) {
        HolderUnique(m, pool, other, endpoint);
      }
    }
  }

  // -------------------------------------------- machines of several load balancers

  /** Two load balancers hold the same static machine exactly through one pool that both list. */
  lemma SharedThrough(m: Manifest, x: string, y: string, endpoint: string)
    requires NodePoolsOk(m)
    ensures Holds(m, x, endpoint) && Holds(m, y, endpoint) <==> x == y && Holds(m, x, endpoint)
  {
    if Holds(m, x, endpoint) && Holds(m, y, endpoint) {
      HolderUnique(m, x, y, endpoint);
    }
  }

  /** No static machine is in two load balancers. */
  ghost predicate MachinesApart(m: Manifest)
  {
    forall i, j, x, y, endpoint ::
      0 <= i < j < |m.lbs| && x in m.lbs[i].pools && y in m.lbs[j].pools ==>
      !(Holds(m, x, endpoint) && Holds(m, y, endpoint))
  }

  /** The static pool of this name has machines. */
  predicate HasMachines(m: Manifest, pool: string)
  {
    exists s :: s in m.staticPools && s.name == pool && s.nodes != []
  }

  lemma MachinesHeld(m: Manifest, pool: string)
    ensures HasMachines(m, pool) <==> exists endpoint :: Holds(m, pool, endpoint)
  {
    if HasMachines(m, pool) {
      var s :| s in m.staticPools && s.name == pool && s.nodes != [];
      assert s.nodes[0] in s.nodes;
      assert Holds(m, pool, s.nodes[0].endpoint);
    }
  }

  /**
   In an accepted manifest no static machine is in two load balancers exactly when no static
   pool with machines is listed by two of them.  The validation does not ask for that.
   */
  lemma BalancersApart(m: Manifest)
    requires Accepted(m)
    ensures MachinesApart(m) <==>
            forall i, j, x :: 0 <= i < j < |m.lbs| && x in m.lbs[i].pools && x in m.lbs[j].pools ==> !HasMachines(m, x)
  {
    if MachinesApart(m) {
      forall i, j, x | 0 <= i < j < |m.lbs| && x in m.lbs[i].pools && x in m.lbs[j].pools ensures !HasMachines(m, x) {
        MachinesHeld(m, x);
        assert forall endpoint :: !(Holds(m, x, endpoint) && Holds(m, x, endpoint));
      }
    } else {
      var i, j, x, y, endpoint :| 0 <= i < j < |m.lbs| && x in m.lbs[i].pools && y in m.lbs[j].pools
                                  && Holds(m, x, endpoint) && Holds(m, y, endpoint);
      SharedThrough(m, x, y, endpoint);
      MachinesHeld(m, x);
    }
  }

  lemma {:induction false} KeysOfNodes(nodes: seq<StaticNode>)
    ensures NodeKeysOf(nodes).Keys == set n | n in nodes :: n.endpoint
  {
    if nodes != [] {
      var k := |nodes| - 1;
      KeysOfNodes(nodes[..k]);
      assert nodes == nodes[..k] + [nodes[k]];
    }
  }

  lemma {:induction false} EndpointsWithin(pools: seq<StaticPool>, i: nat)
    requires i < |pools| && Distinct(AllEndpoints(pools))
    ensures Distinct(EndpointsOf(pools[i].nodes))
  {
    forall k, l | 0 <= k < l < |pools[i].nodes| ensures EndpointsOf(pools[i].nodes)[k] != EndpointsOf(pools[i].nodes)[l] {
      if pools[i].nodes[k].endpoint == pools[i].nodes[l].endpoint {
        EndpointHome(pools, i, k, i, l);
      }
    }
  }

  /** Every static pool built from an accepted manifest starts in sync, one key for each node. */
  lemma StaticPoolStartsInSync(m: Manifest, s: StaticPool, isControl: bool)
    requires Accepted(m) && s in m.staticPools
    ensures PoolValues.WellFormed(StaticPoolOf(s, isControl))
    ensures |NodeKeysOf(s.nodes)| == |s.nodes|
  {
    var i :| 0 <= i < |m.staticPools| && m.staticPools[i] == s;
    EndpointsWithin(m.staticPools, i);
    KeysOfNodes(s.nodes);
    var p := StaticPoolOf(s, isControl);
    assert PoolValues.EndpointList(p.nodes) == EndpointsOf(s.nodes);
    SameEndpoints(s, p.nodes);
    PoolValues.PoolCountExact(p);
  }

  lemma SameEndpoints(s: StaticPool, nodes: seq<Spec.Node>)
    requires |nodes| == |s.nodes| && forall i :: 0 <= i < |nodes| ==> nodes[i].publicIp == s.nodes[i].endpoint
    ensures PoolValues.Endpoints(nodes) == set n | n in s.nodes :: n.endpoint
  {
    forall n | n in nodes ensures exists o :: o in s.nodes && o.endpoint == n.publicIp {
      var i :| 0 <= i < |nodes| && nodes[i] == n;
      assert s.nodes[i] in s.nodes;
    }
    forall o | o in s.nodes ensures exists n :: n in nodes && n.publicIp == o.endpoint {
      var i :| 0 <= i < |s.nodes| && s.nodes[i] == o;
      assert nodes[i] in nodes;
    }
  }

  lemma StaticNameShape(pool: string, i: nat)
    requires i < 255
    ensures StaticNodeName(pool, i) == pool + ['-', Naming.HexDigit((i + 1) / 16), Naming.HexDigit((i + 1) % 16)]
  {
    Naming.Hex2Digits(i + 1);
  }

  lemma SuffixesApart(a: string, b: string, x: string, y: string)
    requires |x| == |y|
    ensures a + x == b + y <==> a == b && x == y
  {
    if a + x == b + y {
      assert a == (a + x)[..|a|] && b == (b + y)[..|b|];
      assert x == (a + x)[|a|..] && y == (b + y)[|b|..];
    }
  }

  /** Node names of static pools of at most 255 nodes determine the pool and the position. */
  lemma StaticNamesInjective(a: string, i: nat, b: string, j: nat)
    requires i < 255 && j < 255
    ensures StaticNodeName(a, i) == StaticNodeName(b, j) <==> a == b && i == j
  {
    StaticNameShape(a, i);
    StaticNameShape(b, j);
    var x := ['-', Naming.HexDigit((i + 1) / 16), Naming.HexDigit((i + 1) % 16)];
    var y := ['-', Naming.HexDigit((j + 1) / 16), Naming.HexDigit((j + 1) % 16)];
    SuffixesApart(a, b, x, y);
    HexDigitInjective((i + 1) / 16, (j + 1) / 16);
    HexDigitInjective((i + 1) % 16, (j + 1) % 16);
    assert x == y ==> x[1] == y[1] && x[2] == y[2];
  }

  lemma HexDigitInjective(d: nat, e: nat)
    requires d < 16 && e < 16
    ensures Naming.HexDigit(d) == Naming.HexDigit(e) <==> d == e
  {
    Naming.HexDigitValue(d);
    Naming.HexDigitValue(e);
  }

  // ---------------------------------------------------------- API server role

  /** How often the role is used by the load balancers of the given cluster. */
  function UseCount(lbs: seq<LbCluster>, role: string, k8s: string): nat
  {
    multiset(AllUses(lbs, role))[k8s]
  }

  lemma {:induction false} CountDistinct(s: seq<string>, x: string)
    requires Distinct(s)
    ensures multiset(s)[x] <= 1
  {
    if s != [] {
      DistinctTail(s);
      CountDistinct(s[1..], x);
      assert s == [s[0]] + s[1..];
    }
  }

  /**
   In an accepted manifest the API server role is used at most once for each Kubernetes
   cluster; where it is used it targets control pools of an existing cluster only; and every
   role in use targets pools of its cluster only.
   */
  lemma ApiRoleUse(m: Manifest, lb: LbCluster, role: string, k8s: string)
    requires Accepted(m) && lb in m.lbs && role in lb.roles
    ensures UseCount(m.lbs, ApiRole(m.roles).name, k8s) <= 1
    ensures FindRole(m, role).Some? && exists c :: c in m.clusters && c.name == lb.targetedK8s
    ensures forall c, p :: c in m.clusters && c.name == lb.targetedK8s && p in FindRole(m, role).value.targetPools ==>
              p in c.control || p in c.compute
    ensures role == ApiRole(m.roles).name ==>
              forall c, p :: c in m.clusters && c.name == lb.targetedK8s && p in ApiRole(m.roles).targetPools ==> p in c.control
  {
    CountDistinct(AllUses(m.lbs, ApiRole(m.roles).name), k8s);
    assert LbOk(m, lb);
    assert RoleUseOk(m, lb, role);
  }

  // ---------------------------------------------------------------- host names

  lemma {:induction false} LastZoneAt(cs: seq<Claim>, name: string, zone: string)
    ensures LastZone(cs, name) == Some(zone) <==>
            exists i :: 0 <= i < |cs| && cs[i] == Claim(name, zone)
                        && forall j :: i < j < |cs| ==> cs[j].name != name
  {
    if cs != [] {
      var n := |cs| - 1;
      var front := cs[..n];
      LastZoneAt(front, name, zone);
      if cs[n].name == name {
        if cs[n].zone == zone {
          assert cs[n] == Claim(name, zone);
        }
      } else {
        if LastZone(front, name) == Some(zone) {
          var i :| 0 <= i < |front| && front[i] == Claim(name, zone) && forall j :: i < j < |front| ==> front[j].name != name;
          assert cs[i] == Claim(name, zone);
          assert forall j :: i < j < |cs| ==> j == n || cs[j] == front[j];
        }
        if i :| 0 <= i < |cs| && cs[i] == Claim(name, zone) && forall j :: i < j < |cs| ==> cs[j].name != name {
          assert front[i] == Claim(name, zone);
          assert forall j :: i < j < |front| ==> front[j] == cs[j];
        }
      }
    }
  }

  /** A claim is repeated without its name being claimed in another zone in between. */
  ghost predicate Repeats(cs: seq<Claim>, i: nat, k: nat)
  {
    && i < k < |cs| && cs[i] == cs[k]
    && forall j :: i < j < k ==> cs[j].name != cs[k].name || cs[j].zone == cs[k].zone
  }

  lemma {:induction false} RepeatAtLast(cs: seq<Claim>, i: nat)
    requires cs != [] && Repeats(cs, i, |cs| - 1)
    ensures var c := cs[|cs| - 1]; LastZone(cs[..|cs| - 1], c.name) == Some(c.zone)
    decreases |cs| - i
  {
    var n, c := |cs| - 1, cs[|cs| - 1];
    if j :| i < j < n && cs[j].name == c.name {
      assert cs[j] == c;
      RepeatAtLast(cs, j);
    } else {
      assert cs[..n][i] == Claim(c.name, c.zone);
      LastZoneAt(cs[..n], c.name, c.zone);
    }
  }

  /**
   What the map of host names really checks: a pair of name and zone may be claimed again
   exactly when the name was claimed in another zone in between.
   */
  lemma {:induction false} FreshClaimsExactly(cs: seq<Claim>)
    ensures FreshClaims(cs) <==> forall i: nat, k: nat :: !Repeats(cs, i, k)
  {
    if cs != [] {
      var n, front, c := |cs| - 1, cs[..|cs| - 1], cs[|cs| - 1];
      FreshClaimsExactly(front);
      forall i: nat, k: nat | k < n ensures Repeats(cs, i, k) <==> Repeats(front, i, k) {
        assert forall j :: 0 <= j < n ==> front[j] == cs[j];
      }
      LastZoneAt(front, c.name, c.zone);
      if LastZone(front, c.name) == Some(c.zone) {
        var i :| 0 <= i < |front| && front[i] == c && forall j :: i < j < |front| ==> front[j].name != c.name;
        assert Repeats(cs, i, n);
      } else {
        forall i: nat ensures !Repeats(cs, i, n) {
          if Repeats(cs, i, n) {
            RepeatAtLast(cs, i);
          }
        }
      }
    }
  }

  /** It holds when every name is claimed in a single zone. */
  lemma HostNamesUnique(cs: seq<Claim>)
    requires forall i, k :: 0 <= i < |cs| && 0 <= k < |cs| && cs[i].name == cs[k].name ==> cs[i].zone == cs[k].zone
    ensures FreshClaims(cs) <==> Distinct(cs)
  {
    FreshClaimsExactly(cs);
    if !Distinct(cs) {
      var i, k :| 0 <= i < k < |cs| && cs[i] == cs[k];
      assert Repeats(cs, i, k);
    }
  }

  // ----------------------------------------------------------------- witnesses

  const HOST: string := "192.168.0.1"

  /** One cluster on a machine of its own, and load balancers on the given machines. */
  function Example(nodes: seq<StaticNode>, lbs: seq<LbCluster>): Manifest
  {
    Manifest(
      Providers([Provider("g", true)], [], [], [], [], [], [], [], [], [], []),
      [],
      [StaticPool("k", [StaticNode(HOST, "key", "root")], None, true), StaticPool("l", nodes, None, true)],
      [Cluster("c", ["k"], [], true)],
      [],
      lbs)
  }

  function ExampleLb(name: string, zone: string, hostname: string): LbCluster
  {
    LbCluster(name, [], Dns(zone, "g", hostname, []), "c", ["l"], true)
  }

  predicate ExampleLbs(lbs: seq<LbCluster>)
  {
    forall lb :: lb in lbs ==> lb == ExampleLb(lb.name, lb.dns.zone, lb.dns.hostname)
  }

  lemma ExamplePools(nodes: seq<StaticNode>, lbs: seq<LbCluster>)
    requires Distinct(EndpointsOf(nodes)) && HOST !in EndpointsOf(nodes) && lbs != [] && ExampleLbs(lbs)
    ensures NodePoolsOk(Example(nodes, lbs))
  {
    var m := Example(nodes, lbs);
    assert m.clusters[0] in m.clusters && "k" in m.clusters[0].control;
    assert lbs[0] in m.lbs && "l" in lbs[0].pools;
    var names := DynamicNames(m) + StaticNames(m);
    assert |names| == 2 && names[0] == "k" && names[1] == "l";
    ExampleEndpoints(m.staticPools[0], m.staticPools[1]);
  }

  lemma ExampleEndpoints(a: StaticPool, b: StaticPool)
    requires |a.nodes| == 1 && Distinct(EndpointsOf(b.nodes)) && a.nodes[0].endpoint !in EndpointsOf(b.nodes)
    ensures Distinct(AllEndpoints([a, b]))
  {
    assert [a, b][..1] == [a] && [a][..0] == [] && AllEndpoints([]) == [];
    assert AllEndpoints([a]) == EndpointsOf(a.nodes);
    assert AllEndpoints([a, b]) == EndpointsOf(a.nodes) + EndpointsOf(b.nodes);
  }

  lemma ExampleStatic(nodes: seq<StaticNode>, lbs: seq<LbCluster>)
    ensures IsStatic(Example(nodes, lbs), "k") && IsStatic(Example(nodes, lbs), "l")
    ensures FindStatic(Example(nodes, lbs), "l").value.nodes == nodes
  {
    var pools := Example(nodes, lbs).staticPools;
    assert pools[0] in pools && pools[0].name == "k";
    assert pools[1] in pools && pools[1].name == "l";
  }

  lemma ExampleCluster(nodes: seq<StaticNode>, lbs: seq<LbCluster>)
    ensures KubernetesOk(Example(nodes, lbs))
  {
    var m := Example(nodes, lbs);
    ExampleStatic(nodes, lbs);
    assert ClusterNames(m.clusters) == ["c"];
    assert forall c :: c in m.clusters ==> c == m.clusters[0];
  }

  lemma ExampleBalancer(nodes: seq<StaticNode>, lbs: seq<LbCluster>, lb: LbCluster)
    requires ExampleLbs(lbs) && lb in lbs
    ensures LbOk(Example(nodes, lbs), lb)
  {
    var m := Example(nodes, lbs);
    ExampleStatic(nodes, lbs);
    assert m.providers.gcp[0] in m.providers.gcp && m.providers.gcp[0].name == "g";
    assert TYPE_ORDER[0] == Gcp;
    assert m.clusters[0] in m.clusters && m.clusters[0].name == lb.targetedK8s;
  }

  lemma {:induction false} NoUses(lbs: seq<LbCluster>)
    requires ExampleLbs(lbs)
    ensures AllUses(lbs, "") == []
  {
    if lbs != [] {
      assert lbs[|lbs| - 1] in lbs;
      NoUses(lbs[..|lbs| - 1]);
    }
  }

  /** Load balancers without roles clash in nothing but their names, host names and machines. */
  lemma PlainBalancers(m: Manifest)
    requires m.roles == [] && Distinct(LbNames(m.lbs)) && forall lb :: lb in m.lbs ==> LbOk(m, lb)
    requires AllUses(m.lbs, "") == [] && FreshClaims(AllClaims(m.lbs))
    requires forall lb, c, pool :: lb in m.lbs && pool in lb.pools && c in m.clusters ==> !UsesStatic(m, c, pool)
    ensures LoadBalancersOk(m)
  {
    assert ApiRole(m.roles).name == "";
  }

  lemma ExampleApart(nodes: seq<StaticNode>, lbs: seq<LbCluster>, lb: LbCluster, c: Cluster, pool: string)
    requires ExampleLbs(lbs) && lb in lbs && pool in lb.pools && c in Example(nodes, lbs).clusters
    ensures !UsesStatic(Example(nodes, lbs), c, pool)
  {
    assert c == Example(nodes, lbs).clusters[0] && pool == "l";
  }

  lemma ExampleBalancers(m: Manifest, nodes: seq<StaticNode>, lbs: seq<LbCluster>)
    requires m == Example(nodes, lbs)
    requires ExampleLbs(lbs) && Distinct(LbNames(lbs)) && FreshClaims(AllClaims(lbs))
    ensures LoadBalancersOk(m)
  {
    NoUses(lbs);
    forall lb | lb in m.lbs ensures LbOk(m, lb) {
      ExampleBalancer(nodes, lbs, lb);
    }
    forall lb, c, pool | lb in m.lbs && pool in lb.pools && c in m.clusters ensures !UsesStatic(m, c, pool) {
      ExampleApart(nodes, lbs, lb, c, pool);
    }
    PlainBalancers(m);
  }

  lemma ExampleAccepted(m: Manifest, nodes: seq<StaticNode>, lbs: seq<LbCluster>)
    requires m == Example(nodes, lbs) && Distinct(EndpointsOf(nodes)) && HOST !in EndpointsOf(nodes)
    requires lbs != [] && ExampleLbs(lbs) && Distinct(LbNames(lbs)) && FreshClaims(AllClaims(lbs))
    ensures Accepted(m)
  {
    ExamplePools(nodes, lbs);
    ExampleCluster(nodes, lbs);
    ExampleBalancers(m, nodes, lbs);
  }

  lemma ListedTwice(m: Manifest, i: nat, j: nat, pool: string)
    requires Accepted(m) && i < j < |m.lbs| && pool in m.lbs[i].pools && pool in m.lbs[j].pools && HasMachines(m, pool)
    ensures !MachinesApart(m)
  {
    BalancersApart(m);
  }

  /** Two load balancers, unlike two clusters, may be given the same static machine. */
  lemma BalancersMayShareMachine() returns (m: Manifest)
    ensures Accepted(m) && !MachinesApart(m)
  {
    var nodes := [StaticNode("10.0.0.1", "key", "root")];
    var lbs := [ExampleLb("a", "example.org", ""), ExampleLb("b", "example.org", "")];
    m := Example(nodes, lbs);
    NoClaims(lbs);
    assert EndpointsOf(nodes) == ["10.0.0.1"] && LbNames(lbs) == ["a", "b"];
    ExampleAccepted(m, nodes, lbs);
    assert m.staticPools[1] in m.staticPools;
    ListedTwice(m, 0, 1, "l");
  }

  lemma {:induction false} NoClaims(lbs: seq<LbCluster>)
    requires ExampleLbs(lbs) && forall lb :: lb in lbs ==> lb.dns.hostname == ""
    ensures AllClaims(lbs) == []
  {
    if lbs != [] {
      assert lbs[|lbs| - 1] in lbs;
      NoClaims(lbs[..|lbs| - 1]);
    }
  }

  /** The promised uniqueness of host names within a zone can fail: another zone comes in between. */
  lemma HostNameReused() returns (m: Manifest)
    ensures Accepted(m) && !Distinct(AllClaims(m.lbs))
  {
    var lbs := [ExampleLb("a", "x.org", "www"), ExampleLb("b", "y.org", "www"), ExampleLb("c", "x.org", "www")];
    m := Example([], lbs);
    var claims := [Claim("www", "x.org"), Claim("www", "y.org"), Claim("www", "x.org")];
    ThreeClaims(lbs[0], lbs[1], lbs[2]);
    assert AllClaims(lbs) == claims;
    forall i: nat, k: nat ensures !Repeats(claims, i, k) {
      assert claims[1].name == "www" && claims[1].zone != claims[0].zone && claims[1].zone != claims[2].zone;
    }
    FreshClaimsExactly(claims);
    assert claims[0] == claims[2];
    assert LbNames(lbs) == ["a", "b", "c"];
    ExampleAccepted(m, [], lbs);
  }

  lemma ThreeClaims(a: LbCluster, b: LbCluster, c: LbCluster)
    ensures AllClaims([a, b, c]) == ClaimsOf(a) + ClaimsOf(b) + ClaimsOf(c)
  {
    assert [a, b, c][..2] == [a, b] && [a, b][..1] == [a] && [a][..0] == [] && AllClaims([]) == [];
    assert AllClaims([a]) == ClaimsOf(a);
    assert AllClaims([a, b]) == ClaimsOf(a) + ClaimsOf(b);
  }

  function Digit(d: nat): char
    requires d < 10
  {
    '0' + d as char
  }

  /** The addresses 10.0.0.0 to 10.9.9.9. */
  function Address(i: nat): (r: string)
    requires i < 1000
    ensures |r| == 8 && r[3] == Digit(i / 100) && r[5] == Digit(i / 10 % 10) && r[7] == Digit(i % 10)
  {
    ['1', '0', '.', Digit(i / 100), '.', Digit(i / 10 % 10), '.', Digit(i % 10)]
  }

  lemma AddressesDiffer(i: nat, j: nat)
    requires i < 1000 && j < 1000 && Address(i) == Address(j)
    ensures i == j
  {
    assert Digit(i / 100) == Digit(j / 100) ==> i / 100 == j / 100;
    assert Digit(i / 10 % 10) == Digit(j / 10 % 10) ==> i / 10 % 10 == j / 10 % 10;
    assert Digit(i % 10) == Digit(j % 10) ==> i % 10 == j % 10;
    assert i / 10 == 10 * (i / 100) + i / 10 % 10 && j / 10 == 10 * (j / 100) + j / 10 % 10;
  }

  function Machines(n: nat): (r: seq<StaticNode>)
    requires n <= 1000
    ensures |r| == n && forall i :: 0 <= i < n ==> r[i].endpoint == Address(i)
  {
    seq(n, i requires 0 <= i < n => StaticNode(Address(i), "key", "root"))
  }

  lemma MachinesDiffer(n: nat)
    requires n <= 1000
    ensures Distinct(EndpointsOf(Machines(n))) && HOST !in EndpointsOf(Machines(n))
  {
    var eps := EndpointsOf(Machines(n));
    forall i, j | 0 <= i < j < n ensures eps[i] != eps[j] {
      if Address(i) == Address(j) {
        AddressesDiffer(i, j);
      }
    }
    assert forall i :: 0 <= i < n ==> eps[i] == Address(i) && |eps[i]| == 8;
    assert |HOST| == 11;
  }

  /** A static pool that passes validation can be too large to resolve. */
  lemma AcceptedTooLarge() returns (m: Manifest, pool: string)
    ensures Accepted(m) && Referenced(m, pool) && Resolve(m, pool, false) == Failed(TooManyNodes(pool))
  {
    var lbs := [ExampleLb("a", "example.org", "")];
    var nodes := Machines(256);
    m, pool := Example(nodes, lbs), "l";
    MachinesDiffer(256);
    NoClaims(lbs);
    assert LbNames(lbs) == ["a"];
    ExampleAccepted(m, nodes, lbs);
    ExampleStatic(nodes, lbs);
    assert lbs[0] in m.lbs && pool in lbs[0].pools;
  }
}
