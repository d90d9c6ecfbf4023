/**
 What the names of a manifest resolve to, field by field, and under which type a provider is
 found.
 */
module ResolutionLaws {
  import opened Sequences
  import opened Manifests
  import opened ManifestLaws
  import Spec

  // ---------------------------------------------------------------- providers

  /** The order in which names of providers are checked, by kind. */
  const CHECK_ORDER: seq<Kind> :=
    [Gcp, Hetzner, Oci, Aws, Azure, Cloudflare, Openstack, Exoscale, CloudRift, Verda, Ovh]

  function Rank(k: Kind): (i: nat)
    ensures i < |CHECK_ORDER| && CHECK_ORDER[i] == k
  {
    match k
    case Gcp => 0
    case Hetzner => 1
    case Oci => 2
    case Aws => 3
    case Azure => 4
    case Cloudflare => 5
    case Openstack => 6
    case Exoscale => 7
    case CloudRift => 8
    case Verda => 9
    case Ovh => 10
  }

  /** The names of the given lists, one list after the other. */
  function NamesBy(p: Providers, ks: seq<Kind>): seq<string>
  {
    if ks == [] then [] else ProviderNames(ListOf(p, ks[0])) + NamesBy(p, ks[1..])
  }

  lemma {:induction false} NamesByAppend(p: Providers, a: seq<Kind>, b: seq<Kind>)
    ensures NamesBy(p, a + b) == NamesBy(p, a) + NamesBy(p, b)
  {
    if a == [] {
      assert a + b == b;
    } else {
      assert (a + b)[1..] == a[1..] + b;
      NamesByAppend(p, a[1..], b);
    }
  }

  lemma NamesOfThree(p: Providers, a: Kind, b: Kind, c: Kind)
    ensures NamesBy(p, [a, b, c]) == ProviderNames(ListOf(p, a) + ListOf(p, b) + ListOf(p, c))
  {
    assert [a, b, c][1..] == [b, c] && [b, c][1..] == [c] && [c][1..] == [] && NamesBy(p, []) == [];
    assert NamesBy(p, [c]) == ProviderNames(ListOf(p, c));
    assert NamesBy(p, [b, c]) == ProviderNames(ListOf(p, b)) + NamesBy(p, [c]);
    NamesAppend(ListOf(p, a) + ListOf(p, b), ListOf(p, c));
    NamesAppend(ListOf(p, a), ListOf(p, b));
  }

  lemma NamesOfTwo(p: Providers, a: Kind, b: Kind)
    ensures NamesBy(p, [a, b]) == ProviderNames(ListOf(p, a)) + ProviderNames(ListOf(p, b))
  {
    assert [a, b][1..] == [b] && [b][1..] == [] && NamesBy(p, []) == [];
    assert NamesBy(p, [b]) == ProviderNames(ListOf(p, b));
  }

  lemma NamesInParts(x: seq<Provider>, a: seq<Provider>, b: seq<Provider>, y: seq<Provider>, z: seq<Provider>)
    ensures ProviderNames(x + (a + (b + (y + z)))) ==
            ProviderNames(x) + ((ProviderNames(a) + ProviderNames(b)) + (ProviderNames(y) + ProviderNames(z)))
  {
    NamesAppend(x, a + (b + (y + z)));
    NamesAppend(a, b + (y + z));
    NamesAppend(b, y + z);
    NamesAppend(y, z);
    Associate(ProviderNames(a), ProviderNames(b), ProviderNames(y + z));
  }

  lemma Associate(a: seq<string>, b: seq<string>, c: seq<string>)
    ensures a + b + c == a + (b + c)
  {
  }

  lemma SixLists(a: seq<Provider>, b: seq<Provider>, c: seq<Provider>, d: seq<Provider>, e: seq<Provider>, f: seq<Provider>)
    ensures a + b + c + d + e + f == (a + b + c) + (d + e + f)
  {
  }

  lemma OrderInParts(p: Providers)
    ensures NamesBy(p, CHECK_ORDER) ==
            NamesBy(p, [Gcp, Hetzner, Oci])
            + (NamesBy(p, [Aws, Azure])
               + (NamesBy(p, [Cloudflare, Openstack, Exoscale]) + NamesBy(p, [CloudRift, Verda, Ovh])))
  {
    var a, b, c, d := [Gcp, Hetzner, Oci], [Aws, Azure], [Cloudflare, Openstack, Exoscale], [CloudRift, Verda, Ovh];
    assert CHECK_ORDER == a + (b + (c + d));
    NamesByAppend(p, a, b + (c + d));
    NamesByAppend(p, b, c + d);
    NamesByAppend(p, c, d);
  }

  /** The listing as five parts. */
  lemma ListingInParts(p: Providers)
    ensures Listing(p) == p.gcp + p.hetzner + p.oci
                          + (p.aws + (p.azure + ((p.cloudflare + p.openstack + p.exoscale) + (p.cloudRift + p.verda + p.ovh))))
  {
    SixLists(p.cloudflare, p.openstack, p.exoscale, p.cloudRift, p.verda, p.ovh);
  }

  lemma NamesOfParts(p: Providers)
    ensures NamesBy(p, [Gcp, Hetzner, Oci]) == ProviderNames(p.gcp + p.hetzner + p.oci)
    ensures NamesBy(p, [Aws, Azure]) == ProviderNames(p.aws) + ProviderNames(p.azure)
    ensures NamesBy(p, [Cloudflare, Openstack, Exoscale]) == ProviderNames(p.cloudflare + p.openstack + p.exoscale)
    ensures NamesBy(p, [CloudRift, Verda, Ovh]) == ProviderNames(p.cloudRift + p.verda + p.ovh)
  {
    NamesOfThree(p, Gcp, Hetzner, Oci);
    NamesOfTwo(p, Aws, Azure);
    NamesOfThree(p, Cloudflare, Openstack, Exoscale);
    NamesOfThree(p, CloudRift, Verda, Ovh);
  }

  /** The listing that the validation goes through holds all eleven lists. */
  lemma ListingIsComplete(p: Providers)
    ensures ProviderNames(Listing(p)) == NamesBy(p, CHECK_ORDER)
  {
    calc {
      ProviderNames(Listing(p));
      { ListingInParts(p); }
      ProviderNames(p.gcp + p.hetzner + p.oci
                    + (p.aws + (p.azure + ((p.cloudflare + p.openstack + p.exoscale) + (p.cloudRift + p.verda + p.ovh)))));
      { NamesInParts(p.gcp + p.hetzner + p.oci, p.aws, p.azure,
                     p.cloudflare + p.openstack + p.exoscale, p.cloudRift + p.verda + p.ovh); }
      ProviderNames(p.gcp + p.hetzner + p.oci)
      + ((ProviderNames(p.aws) + ProviderNames(p.azure))
         + (ProviderNames(p.cloudflare + p.openstack + p.exoscale) + ProviderNames(p.cloudRift + p.verda + p.ovh)));
      { NamesOfParts(p); OrderInParts(p); }
      NamesBy(p, CHECK_ORDER);
    }
  }

  lemma {:induction false} NamedBy(p: Providers, ks: seq<Kind>, i: nat, name: string)
    requires i < |ks| && name in ProviderNames(ListOf(p, ks[i]))
    ensures name in NamesBy(p, ks)
  {
    if i > 0 {
      NamedBy(p, ks[1..], i - 1, name);
    }
  }

  lemma DistinctRest(a: seq<string>, b: seq<string>)
    requires Distinct(a + b)
    ensures Distinct(b)
  {
    assert forall k :: 0 <= k < |b| ==> b[k] == (a + b)[|a| + k];
  }

  lemma {:induction false} KindsShareNone(p: Providers, ks: seq<Kind>, i: nat, j: nat, name: string)
    requires Distinct(NamesBy(p, ks)) && i < j < |ks| && name in ProviderNames(ListOf(p, ks[i]))
    ensures name !in ProviderNames(ListOf(p, ks[j]))
  {
    var head, rest := ProviderNames(ListOf(p, ks[0])), NamesBy(p, ks[1..]);
    if i > 0 {
      DistinctRest(head, rest);
      KindsShareNone(p, ks[1..], i - 1, j - 1, name);
    } else {
      DistinctConcat(head, rest, name);
      if name in ProviderNames(ListOf(p, ks[j])) {
        NamedBy(p, ks[1..], j - 1, name);
      }
    }
  }

  /** Valid providers of different types never share a name. */
  lemma ProvidersApart(p: Providers, a: Kind, b: Kind, name: string)
    requires ProvidersOk(p) && Has(ListOf(p, a), name) && Has(ListOf(p, b), name)
    ensures a == b
  {
    ListingIsComplete(p);
    HasName(ListOf(p, a), name);
    HasName(ListOf(p, b), name);
    if Rank(a) < Rank(b) {
      KindsShareNone(p, CHECK_ORDER, Rank(a), Rank(b), name);
    } else if Rank(b) < Rank(a) {
      KindsShareNone(p, CHECK_ORDER, Rank(b), Rank(a), name);
    }
  }

  lemma {:induction false} SearchFinds(p: Providers, order: seq<Kind>, name: string)
    ensures var r := Search(p, order, name);
            && (r.Some? ==> r.value in order && Has(ListOf(p, r.value), name))
            && (r.None? <==> forall k :: k in order ==> !Has(ListOf(p, k), name))
  {
    if order != [] {
      assert order == [order[0]] + order[1..];
      SearchFinds(p, order[1..], name);
    }
  }

  lemma OrdersComplete(k: Kind)
    ensures k in TYPE_ORDER && k in PROVIDER_ORDER
  {
    assert k in LEADING || k in [Aws, Azure] || k in TRAILING by {
      assert LEADING[0] == Gcp && LEADING[1] == Hetzner && LEADING[2] == Oci;
      assert TRAILING[0] == Cloudflare && TRAILING[1] == Openstack && TRAILING[2] == Exoscale;
      assert TRAILING[3] == CloudRift && TRAILING[4] == Verda && TRAILING[5] == Ovh;
    }
  }

  /** Both lookups find a name exactly when one of the eleven lists has it, and valid providers under their type. */
  lemma ProviderFound(p: Providers, k: Kind, name: string)
    ensures GetProviderType(p, name).Some? <==> exists x :: Has(ListOf(p, x), name)
    ensures GetProvider(p, name).Some? <==> exists x :: Has(ListOf(p, x), name)
    ensures ProvidersOk(p) && Has(ListOf(p, k), name) ==>
              GetProviderType(p, name) == Some(TypeName(k)) && GetProvider(p, name) == Some(TypeName(k))
  {
    SearchFinds(p, TYPE_ORDER, name);
    SearchFinds(p, PROVIDER_ORDER, name);
    forall x: Kind ensures x in TYPE_ORDER && x in PROVIDER_ORDER {
      OrdersComplete(x);
    }
    if ProvidersOk(p) && Has(ListOf(p, k), name) {
      ProvidersApart(p, k, Search(p, TYPE_ORDER, name).value, name);
      ProvidersApart(p, k, Search(p, PROVIDER_ORDER, name).value, name);
    }
  }

  // ------------------------------------------------------------- dynamic pools

  /** With distinct names every pool is found under its own. */
  lemma OwnDynamic(m: Manifest, d: DynamicPool)
    requires NodePoolsOk(m) && d in m.dynamicPools
    ensures FindDynamic(m, d.name) == Some(d)
  {
    var names := DynamicNames(m) + StaticNames(m);
    var e := FindDynamic(m, d.name).value;
    var i :| 0 <= i < |m.dynamicPools| && m.dynamicPools[i] == d;
    var j :| 0 <= j < |m.dynamicPools| && m.dynamicPools[j] == e;
    assert names[i] == d.name && names[j] == e.name;
  }

  lemma OwnStatic(m: Manifest, s: StaticPool)
    requires NodePoolsOk(m) && s in m.staticPools
    ensures FindDynamic(m, s.name) == None && FindStatic(m, s.name) == Some(s)
  {
    var names, n := DynamicNames(m) + StaticNames(m), |m.dynamicPools|;
    var t := FindStatic(m, s.name).value;
    var i :| 0 <= i < |m.staticPools| && m.staticPools[i] == s;
    var j :| 0 <= j < |m.staticPools| && m.staticPools[j] == t;
    assert names[n + i] == s.name && names[n + j] == t.name;
    if FindDynamic(m, s.name).Some? {
      KindsApart(m, s.name);
    }
  }

  /** A dynamic pool of an accepted manifest resolves to what the manifest says about it. */
  lemma DynamicResolves(m: Manifest, d: DynamicPool, k: Kind, isControl: bool)
    requires Accepted(m) && d in m.dynamicPools
    ensures var r := Resolve(m, d.name, isControl);
            && r.Success? && r.pool.DynamicResolved? && r.pool.spot == d.spot
            && (ProvidersOk(m.providers) && Has(ListOf(m.providers, k), d.provider) ==>
                  r.pool.provider == TypeName(k) && (d.spot ==> k in {Gcp, Verda, Aws, Azure, Oci}))
            && var p := r.pool.pool;
            && p.name == d.name && p.isControl == isControl && p.nodes == [] && p.sshPort == 0
            && p.kind.Dynamic? && p.kind.region == d.region
            && (d.scaleMin >= 0 && d.scaleMax > 0 ==>
                  p.kind.count == d.scaleMin
                  && p.kind.autoscaler == Some(Spec.AutoscalerConf(d.scaleMin, d.scaleMax, d.scaleMin)))
            && (d.scaleMin < 0 || d.scaleMax <= 0 ==> p.kind.count == d.count && p.kind.autoscaler == None)
  {
    OwnDynamic(m, d);
    assert DynamicOk(m, d);
    LookupsAgree(m.providers, d.provider);
    ProviderFound(m.providers, k, d.provider);
    SpotTypes(k);
  }

  lemma SpotTypes(k: Kind)
    ensures TypeName(k) in ["gcp", "verda", "aws", "azure", "oci"] <==> k in {Gcp, Verda, Aws, Azure, Oci}
  {
  }

  // -------------------------------------------------------------- static pools

  /** Of several machines with an endpoint the last one gives the key. */
  lemma {:induction false} KeysOwn(nodes: seq<StaticNode>, i: nat)
    requires i < |nodes| && forall k :: i < k < |nodes| ==> nodes[k].endpoint != nodes[i].endpoint
    ensures nodes[i].endpoint in NodeKeysOf(nodes) && NodeKeysOf(nodes)[nodes[i].endpoint] == nodes[i].key
    decreases |nodes|
  {
    if i < |nodes| - 1 {
      KeysOwn(nodes[..|nodes| - 1], i);
    }
  }

  /** A machine of an accepted static pool resolves to a node with its name, endpoint, user, type and key. */
  lemma StaticResolves(m: Manifest, s: StaticPool, isControl: bool, i: nat)
    requires Accepted(m) && s in m.staticPools && i < |s.nodes| <= 255
    ensures var r := Resolve(m, s.name, isControl);
            && r.Success? && r.pool.StaticResolved?
            && var p, n := r.pool.pool, s.nodes[i];
            && p.name == s.name && p.isControl == isControl && |p.nodes| == |s.nodes|
            && p.sshPort == (if s.sshPort.Some? then s.sshPort.value else 22)
            && p.nodes[i].name == StaticNodeName(s.name, i)
            && p.nodes[i].publicIp == n.endpoint && p.nodes[i].username == n.username
            && p.nodes[i].nodeType == (if isControl then Spec.Master else Spec.Worker)
            && p.kind.Static? && n.endpoint in p.kind.nodeKeys && p.kind.nodeKeys[n.endpoint] == n.key
  {
    OwnStatic(m, s);
    var at :| 0 <= at < |m.staticPools| && m.staticPools[at] == s;
    EndpointsWithin(m.staticPools, at);
    forall k | i < k < |s.nodes| ensures s.nodes[k].endpoint != s.nodes[i].endpoint {
      assert EndpointsOf(s.nodes)[i] != EndpointsOf(s.nodes)[k];
    }
    KeysOwn(s.nodes, i);
  }

  // ------------------------------------------------- roles and load balancers

  /** In an accepted manifest every defined pool resolves, if a static one has at most 255 machines. */
  lemma DefinedResolves(m: Manifest, pool: string, isControl: bool)
    requires Accepted(m) && Defined(m, pool)
    ensures Resolve(m, pool, isControl).Failed? <==>
            exists s :: s in m.staticPools && s.name == pool && |s.nodes| > 255
  {
    if FindStatic(m, pool).Some? {
      var s := FindStatic(m, pool).value;
      assert StaticOk(m, s);
      ListedPoolsResolve(m, pool, isControl);
      if t :| t in m.staticPools && t.name == pool && |t.nodes| > 255 {
        OwnStatic(m, t);
      }
    } else {
      assert DynamicOk(m, FindDynamic(m, pool).value);
      ListedPoolsResolve(m, pool, isControl);
    }
  }

  /** The target pools of an accepted role resolve, and its port is neither reserved nor a strange API server port. */
  lemma RoleResolves(m: Manifest, r: RoleDef, pool: string)
    requires Accepted(m) && r in m.roles && pool in r.targetPools
    ensures Resolve(m, pool, false).Failed? <==> exists s :: s in m.staticPools && s.name == pool && |s.nodes| > 255
    ensures !(64512 <= r.port <= 65535) && (r.targetPort == 6443 ==> r.port == 6443)
  {
    assert RoleOk(m, r);
    DefinedResolves(m, pool, false);
  }

  lemma DnsTypes(k: Kind)
    ensures TypeName(k) in ["gcp", "aws", "azure", "oci", "cloudflare", "hetzner", "exoscale", "ovh"] <==>
            k !in {Openstack, CloudRift, Verda}
  {
  }

  /** The DNS provider of an accepted load balancer is of a type that keeps records. */
  lemma DnsSupported(m: Manifest, lb: LbCluster, k: Kind)
    requires Accepted(m) && lb in m.lbs && ProvidersOk(m.providers) && Has(ListOf(m.providers, k), lb.dns.provider)
    ensures k !in {Openstack, CloudRift, Verda}
  {
    assert LbOk(m, lb);
    ProviderFound(m.providers, k, lb.dns.provider);
    DnsTypes(k);
  }

  /** The pools of an accepted load balancer resolve, each is listed once, and its target exists. */
  lemma BalancerResolves(m: Manifest, lb: LbCluster, i: nat)
    requires Accepted(m) && lb in m.lbs && i < |lb.pools|
    ensures Resolve(m, lb.pools[i], false).Failed? <==>
            exists s :: s in m.staticPools && s.name == lb.pools[i] && |s.nodes| > 255
    ensures forall j :: 0 <= j < |lb.pools| && lb.pools[j] == lb.pools[i] ==> j == i
    ensures |lb.roles| <= 1018 && exists c :: c in m.clusters && c.name == lb.targetedK8s
  {
    assert LbOk(m, lb);
    DefinedResolves(m, lb.pools[i], false);
  }

  // ---------------------------------------------------------------- host names

  /** The claims of a manifest are exactly its host names and alternative names, in their zones. */
  lemma {:induction false} ClaimsExactly(lbs: seq<LbCluster>, name: string, zone: string)
    ensures Claim(name, zone) in AllClaims(lbs) <==>
            exists lb :: lb in lbs && lb.dns.zone == zone
                         && (name in lb.dns.alternatives || (name == lb.dns.hostname && name != ""))
  {
    if lbs != [] {
      var k := |lbs| - 1;
      ClaimsExactly(lbs[..k], name, zone);
      ClaimOf(lbs[k], name, zone);
      assert lbs == lbs[..k] + [lbs[k]];
      assert lbs[k] in lbs;
    }
  }

  lemma ClaimOf(lb: LbCluster, name: string, zone: string)
    ensures Claim(name, zone) in ClaimsOf(lb) <==>
            lb.dns.zone == zone && (name in lb.dns.alternatives || (name == lb.dns.hostname && name != ""))
  {
    var alts := Map(lb.dns.alternatives, (n: string) => Claim(n, lb.dns.zone));
    if name in lb.dns.alternatives {
      var i :| 0 <= i < |lb.dns.alternatives| && lb.dns.alternatives[i] == name;
      assert alts[i] == Claim(name, lb.dns.zone);
    }
    if Claim(name, zone) in alts {
      var i :| 0 <= i < |alts| && alts[i] == Claim(name, zone);
      assert lb.dns.alternatives[i] == name;
    }
  }
}
