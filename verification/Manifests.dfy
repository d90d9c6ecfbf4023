/**
 The input manifest: what a user writes, how its names are looked up, and what the
 validation of each section accepts, stated without reference to the loops that check it.

 `fieldsOk` stands for the checks that look at one entry alone: struct tags, taints, labels
 and annotations, disk size and GPU settings.
 */
module Manifests {
  import opened Sequences
  import Spec

  datatype Provider = Provider(name: string, fieldsOk: bool)

  datatype Providers = Providers(
    gcp: seq<Provider>, hetzner: seq<Provider>, aws: seq<Provider>, oci: seq<Provider>, azure: seq<Provider>,
    cloudflare: seq<Provider>, openstack: seq<Provider>, exoscale: seq<Provider>, cloudRift: seq<Provider>,
    verda: seq<Provider>, ovh: seq<Provider>)

  datatype DynamicPool = DynamicPool(
    name: string, provider: string, region: string, count: Spec.Int32, scaleMin: Spec.Int32, scaleMax: Spec.Int32,
    spot: bool, fieldsOk: bool)

  datatype StaticNode = StaticNode(endpoint: string, key: string, username: string)

  datatype StaticPool = StaticPool(name: string, nodes: seq<StaticNode>, sshPort: Option<int>, fieldsOk: bool)

  datatype Cluster = Cluster(name: string, control: seq<string>, compute: seq<string>, fieldsOk: bool)

  datatype RoleDef = RoleDef(name: string, port: int, targetPort: int, targetPools: seq<string>, fieldsOk: bool)

  datatype Dns = Dns(zone: string, provider: string, hostname: string, alternatives: seq<string>)

  datatype LbCluster = LbCluster(
    name: string, roles: seq<string>, dns: Dns, targetedK8s: string, pools: seq<string>, fieldsOk: bool)

  datatype Manifest = Manifest(
    providers: Providers,
    dynamicPools: seq<DynamicPool>,
    staticPools: seq<StaticPool>,
    clusters: seq<Cluster>,
    roles: seq<RoleDef>,
    lbs: seq<LbCluster>)

  // ---------------------------------------------------------------- providers

  datatype Kind = Gcp | Hetzner | Oci | Aws | Azure | Cloudflare | Openstack | Exoscale | CloudRift | Verda | Ovh

  function ListOf(p: Providers, k: Kind): seq<Provider>
  {
    match k
    case Gcp => p.gcp
    case Hetzner => p.hetzner
    case Oci => p.oci
    case Aws => p.aws
    case Azure => p.azure
    case Cloudflare => p.cloudflare
    case Openstack => p.openstack
    case Exoscale => p.exoscale
    case CloudRift => p.cloudRift
    case Verda => p.verda
    case Ovh => p.ovh
  }

  function TypeName(k: Kind): string
  {
    match k
    case Gcp => "gcp"
    case Hetzner => "hetzner"
    case Oci => "oci"
    case Aws => "aws"
    case Azure => "azure"
    case Cloudflare => "cloudflare"
    case Openstack => "openstack"
    case Exoscale => "exoscale"
    case CloudRift => "cloudrift"
    case Verda => "verda"
    case Ovh => "ovh"
  }

  predicate Has(ps: seq<Provider>, name: string)
  {
    FindBy(ps, (p: Provider) => p.name == name).Some?
  }

  /** The first list, in the given order, that holds a provider of the given name. */
  function Search(p: Providers, order: seq<Kind>, name: string): Option<Kind>
  {
    if order == [] then None
    else if Has(ListOf(p, order[0]), name) then Some(order[0])
    else Search(p, order[1..], name)
  }

  const LEADING: seq<Kind> := [Gcp, Hetzner, Oci]
  const TRAILING: seq<Kind> := [Cloudflare, Openstack, Exoscale, CloudRift, Verda, Ovh]

  /** The order in which provider types are looked up. */
  const TYPE_ORDER: seq<Kind> := LEADING + [Aws, Azure] + TRAILING

  /** The order in which providers themselves are looked up: Azure before AWS. */
  const PROVIDER_ORDER: seq<Kind> := LEADING + [Azure, Aws] + TRAILING

  function NameOf(k: Option<Kind>): Option<string>
  {
    match k
    case Some(x) => Some(TypeName(x))
    case None => None
  }

  function GetProviderType(p: Providers, name: string): Option<string>
  {
    NameOf(Search(p, TYPE_ORDER, name))
  }

  /** The provider found under a name, represented by the type of the list it was found in. */
  function GetProvider(p: Providers, name: string): Option<string>
  {
    NameOf(Search(p, PROVIDER_ORDER, name))
  }

  /** All providers in the order in which their names are checked. */
  function Listing(p: Providers): seq<Provider>
  {
    p.gcp + p.hetzner + p.oci
    + (p.aws + (p.azure + (p.cloudflare + p.openstack + p.exoscale + p.cloudRift + p.verda + p.ovh)))
  }

  function ProviderNames(ps: seq<Provider>): seq<string>
  {
    Map(ps, (p: Provider) => p.name)
  }

  predicate ProvidersOk(p: Providers)
  {
    (forall x :: x in Listing(p) ==> x.fieldsOk) && Distinct(ProviderNames(Listing(p)))
  }

  // -------------------------------------------------------------------- pools

  function FindDynamic(m: Manifest, name: string): Option<DynamicPool>
  {
    FindBy(m.dynamicPools, (p: DynamicPool) => p.name == name)
  }

  function FindStatic(m: Manifest, name: string): Option<StaticPool>
  {
    FindBy(m.staticPools, (p: StaticPool) => p.name == name)
  }

  predicate IsStatic(m: Manifest, name: string)
  {
    FindStatic(m, name).Some?
  }

  predicate Defined(m: Manifest, name: string)
  {
    FindStatic(m, name).Some? || FindDynamic(m, name).Some?
  }

  /** A cluster or load balancer of the manifest lists the pool. */
  predicate Referenced(m: Manifest, name: string)
  {
    || (exists c :: c in m.clusters && (name in c.control || name in c.compute))
    || (exists lb :: lb in m.lbs && name in lb.pools)
  }

  predicate ControlPlane(m: Manifest, name: string)
  {
    exists c :: c in m.clusters && name in c.control
  }

  predicate Autoscaled(d: DynamicPool)
  {
    d.scaleMin >= 0 && d.scaleMax > 0
  }

  predicate SpotOk(m: Manifest, d: DynamicPool)
  {
    d.spot ==>
      match GetProviderType(m.providers, d.provider)
      case None => true
      case Some(t) => t in ["gcp", "verda", "aws", "azure", "oci"] && !ControlPlane(m, d.name)
  }

  predicate DynamicOk(m: Manifest, d: DynamicPool)
  {
    && Referenced(m, d.name)
    && GetProviderType(m.providers, d.provider).Some?
    && d.count <= 255 && SpotOk(m, d) && d.fieldsOk
    && !(d.count != 0 && Autoscaled(d))
  }

  predicate StaticOk(m: Manifest, s: StaticPool)
  {
    Referenced(m, s.name) && s.fieldsOk
  }

  function DynamicNames(m: Manifest): seq<string>
  {
    Map(m.dynamicPools, (d: DynamicPool) => d.name)
  }

  function StaticNames(m: Manifest): seq<string>
  {
    Map(m.staticPools, (s: StaticPool) => s.name)
  }

  function EndpointsOf(nodes: seq<StaticNode>): seq<string>
  {
    Map(nodes, (n: StaticNode) => n.endpoint)
  }

  /** The endpoints of all static pools, pool after pool. */
  function AllEndpoints(pools: seq<StaticPool>): seq<string>
  {
    if pools == [] then []
    else AllEndpoints(pools[..|pools| - 1]) + EndpointsOf(pools[|pools| - 1].nodes)
  }

  predicate NodePoolsOk(m: Manifest)
  {
    && (forall d :: d in m.dynamicPools ==> DynamicOk(m, d))
    && (forall s :: s in m.staticPools ==> StaticOk(m, s))
    && Distinct(DynamicNames(m) + StaticNames(m))
    && Distinct(AllEndpoints(m.staticPools))
  }

  // --------------------------------------------------------------- kubernetes

  predicate ClusterPoolsOk(m: Manifest, c: Cluster)
  {
    && (forall p :: p in c.control ==> Defined(m, p))
    && (forall p :: p in c.compute ==> Defined(m, p))
    && Distinct(c.control) && Distinct(c.compute)
    && forall p :: p in c.control && p in c.compute ==> !IsStatic(m, p)
  }

  /** The cluster lists this static pool. */
  predicate UsesStatic(m: Manifest, c: Cluster, pool: string)
  {
    IsStatic(m, pool) && (pool in c.control || pool in c.compute)
  }

  /** No static pool is listed by two clusters of different names. */
  ghost predicate StaticExclusive(m: Manifest, cs: seq<Cluster>)
  {
    forall a, b, pool :: a in cs && b in cs && UsesStatic(m, a, pool) && UsesStatic(m, b, pool) ==> a.name == b.name
  }

  function ClusterNames(cs: seq<Cluster>): seq<string>
  {
    Map(cs, (c: Cluster) => c.name)
  }

  ghost predicate KubernetesOk(m: Manifest)
  {
    && (forall c :: c in m.clusters ==> c.fieldsOk && ClusterPoolsOk(m, c))
    && Distinct(ClusterNames(m.clusters))
    && StaticExclusive(m, m.clusters)
  }

  // ----------------------------------------------------------- load balancers

  const API_SERVER_PORT: int := 6443
  const MAX_ROLES: int := 1018
  const RESERVED_PORTS_END: int := 65536
  const RESERVED_PORTS_START: int := RESERVED_PORTS_END - (MAX_ROLES + 6)

  predicate RoleOk(m: Manifest, r: RoleDef)
  {
    && r.fieldsOk
    && (r.targetPort == API_SERVER_PORT ==> r.port == API_SERVER_PORT)
    && !(RESERVED_PORTS_START <= r.port < RESERVED_PORTS_END)
    && (forall p :: p in r.targetPools ==> Defined(m, p))
    && Distinct(r.targetPools)
  }

  function RoleNames(rs: seq<RoleDef>): seq<string>
  {
    Map(rs, (r: RoleDef) => r.name)
  }

  predicate RolesOk(m: Manifest)
  {
    (forall r :: r in m.roles ==> RoleOk(m, r)) && Distinct(RoleNames(m.roles))
  }

  function FindRole(m: Manifest, name: string): Option<RoleDef>
  {
    FindBy(m.roles, (r: RoleDef) => r.name == name)
  }

  /** The last role with the API server's target port; the zero role if there is none. */
  function ApiRole(rs: seq<RoleDef>): RoleDef
  {
    if rs == [] then RoleDef("", 0, 0, [], false)
    else if rs[|rs| - 1].targetPort == API_SERVER_PORT then rs[|rs| - 1]
    else ApiRole(rs[..|rs| - 1])
  }

  predicate TargetsWithin(m: Manifest, pools: seq<string>, k8s: string, controlOnly: bool)
  {
    forall c, p :: c in m.clusters && c.name == k8s && p in pools ==>
      p in c.control || (!controlOnly && p in c.compute)
  }

  predicate RoleUseOk(m: Manifest, lb: LbCluster, role: string)
  {
    match FindRole(m, role)
    case None => false
    case Some(def) =>
      && TargetsWithin(m, def.targetPools, lb.targetedK8s, false)
      && (role == ApiRole(m.roles).name ==>
            lb.dns.alternatives == [] && TargetsWithin(m, ApiRole(m.roles).targetPools, lb.targetedK8s, true))
  }

  predicate LbFieldsOk(lb: LbCluster)
  {
    lb.fieldsOk && "" !in lb.dns.alternatives
  }

  predicate LbOk(m: Manifest, lb: LbCluster)
  {
    && |lb.roles| <= MAX_ROLES
    && LbFieldsOk(lb)
    && (forall r :: r in lb.roles ==> RoleUseOk(m, lb, r))
    && (match GetProviderType(m.providers, lb.dns.provider)
        case None => false
        case Some(t) => t in ["gcp", "aws", "azure", "oci", "cloudflare", "hetzner", "exoscale", "ovh"])
    && (exists c :: c in m.clusters && c.name == lb.targetedK8s)
    && (forall p :: p in lb.pools ==> Defined(m, p))
    && Distinct(lb.pools)
  }

  /** The clusters targeted by the uses of the given role, one entry for each use. */
  function UsesOf(roles: seq<string>, role: string, k8s: string): seq<string>
  {
    if roles == [] then []
    else UsesOf(roles[..|roles| - 1], role, k8s) + (if roles[|roles| - 1] == role then [k8s] else [])
  }

  function AllUses(lbs: seq<LbCluster>, role: string): seq<string>
  {
    if lbs == [] then []
    else
      var lb := lbs[|lbs| - 1];
      AllUses(lbs[..|lbs| - 1], role) + UsesOf(lb.roles, role, lb.targetedK8s)
  }

  /** A host name claimed in a DNS zone. */
  datatype Claim = Claim(name: string, zone: string)

  /** The claims of one load balancer: its alternative names, then its host name if it has one. */
  function ClaimsOf(lb: LbCluster): seq<Claim>
  {
    Map(lb.dns.alternatives, (n: string) => Claim(n, lb.dns.zone))
    + (if lb.dns.hostname == "" then [] else [Claim(lb.dns.hostname, lb.dns.zone)])
  }

  function AllClaims(lbs: seq<LbCluster>): seq<Claim>
  {
    if lbs == [] then [] else AllClaims(lbs[..|lbs| - 1]) + ClaimsOf(lbs[|lbs| - 1])
  }

  /** The zone in which a name was claimed last. */
  function LastZone(cs: seq<Claim>, name: string): Option<string>
  {
    if cs == [] then None
    else if cs[|cs| - 1].name == name then Some(cs[|cs| - 1].zone)
    else LastZone(cs[..|cs| - 1], name)
  }

  /** No claim repeats the zone of the latest earlier claim of the same name. */
  predicate FreshClaims(cs: seq<Claim>)
  {
    cs == [] ||
    var c := cs[|cs| - 1];
    FreshClaims(cs[..|cs| - 1]) && LastZone(cs[..|cs| - 1], c.name) != Some(c.zone)
  }

  /** No load balancer lists a static pool of a Kubernetes cluster; moot if those clash among themselves. */
  ghost predicate LbStaticOk(m: Manifest)
  {
    StaticExclusive(m, m.clusters) ==>
      forall lb, c, pool :: lb in m.lbs && pool in lb.pools && c in m.clusters ==> !UsesStatic(m, c, pool)
  }

  function LbNames(lbs: seq<LbCluster>): seq<string>
  {
    Map(lbs, (lb: LbCluster) => lb.name)
  }

  ghost predicate LoadBalancersOk(m: Manifest)
  {
    && RolesOk(m)
    && Distinct(LbNames(m.lbs))
    && (forall lb :: lb in m.lbs ==> LbOk(m, lb))
    && Distinct(AllUses(m.lbs, ApiRole(m.roles).name))
    && FreshClaims(AllClaims(m.lbs))
    && LbStaticOk(m)
  }

  /** What the validation of a manifest accepts. */
  ghost predicate Accepted(m: Manifest)
  {
    NodePoolsOk(m) && KubernetesOk(m) && LoadBalancersOk(m)
  }
}
