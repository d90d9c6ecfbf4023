/**
 The validation of a manifest as the loops that perform it, each proved to accept exactly
 what the section's specification says.
 */
module ManifestValidation {
  import opened Sequences
  import opened Manifests
  import ManifestLaws

  function Elements<T>(s: seq<T>): set<T>
  {
    set x | x in s
  }

  lemma DistinctPrefix<T>(s: seq<T>, t: seq<T>)
    requires t <= s && Distinct(s)
    ensures Distinct(t)
  {
    assert forall i :: 0 <= i < |t| ==> t[i] == s[i];
  }

  /** One round of a uniqueness check: the set of seen elements decides. */
  lemma SeenStep<T>(all: seq<T>, i: nat, seen: set<T>)
    requires i < |all| && Distinct(all[..i]) && seen == Elements(all[..i])
    ensures Distinct(all[..i + 1]) <==> all[i] !in seen
    ensures Elements(all[..i + 1]) == seen + {all[i]}
    ensures all[i] in seen ==> !Distinct(all)
  {
    DistinctSnoc(all, i);
    if Distinct(all) {
      DistinctPrefix(all, all[..i + 1]);
    }
  }

  /** The loop every named section starts with: each entry is good, and no name is used twice. */
  method CheckEach<T>(items: seq<T>, good: T -> bool, name: T -> string) returns (ok: bool, names: set<string>)
    ensures ok <==> (forall x :: x in items ==> good(x)) && Distinct(Map(items, name))
    ensures ok ==> names == Elements(Map(items, name))
  {
    ghost var all := Map(items, name);
    ok, names := false, {};
    for i := 0 to |items|
      invariant forall k :: 0 <= k < i ==> good(items[k])
      invariant Distinct(all[..i]) && names == Elements(all[..i])
    {
      SeenStep(all, i, names);
      if !good(items[i]) || name(items[i]) in names {
        return;
      }
      names := names + {name(items[i])};
    }
    assert all[..|items|] == all;
    ok := true;
  }

  // ---------------------------------------------------------------- providers

  method ValidateProviders(p: Providers) returns (ok: bool)
    ensures ok <==> ProvidersOk(p)
  {
    var names;
    ok, names := CheckEach(Listing(p), (x: Provider) => x.fieldsOk, (x: Provider) => x.name);
  }

  // --------------------------------------------------------------- node pools

  /** A list of pool names is in order: each is defined and none is repeated. */
  method CheckPools(m: Manifest, pools: seq<string>) returns (ok: bool)
    ensures ok <==> (forall p :: p in pools ==> Defined(m, p)) && Distinct(pools)
  {
    var names := {};
    for i := 0 to |pools|
      invariant forall k :: 0 <= k < i ==> Defined(m, pools[k])
      invariant Distinct(pools[..i]) && names == Elements(pools[..i])
    {
      SeenStep(pools, i, names);
      if !Defined(m, pools[i]) || pools[i] in names {
        return false;
      }
      names := names + {pools[i]};
    }
    assert pools[..|pools|] == pools;
    ok := true;
  }

  /** The innermost loop of many checks: compares one name after the other. */
  method Lists(names: seq<string>, name: string) returns (found: bool)
    ensures found <==> name in names
  {
    found := false;
    for i := 0 to |names|
      invariant found <==> name in names[..i]
    {
      found := found || name == names[i];
    }
  }

  method IsReferenced(m: Manifest, name: string) returns (r: bool)
    ensures r <==> Referenced(m, name)
  {
    for i := 0 to |m.clusters|
      invariant forall k :: 0 <= k < i ==> name !in m.clusters[k].control && name !in m.clusters[k].compute
    {
      var c := m.clusters[i];
      assert c in m.clusters;
      r := Lists(c.control, name);
      if r {
        return;
      }
      r := Lists(c.compute, name);
      if r {
        return;
      }
    }
    for i := 0 to |m.lbs|
      invariant forall k :: 0 <= k < i ==> name !in m.lbs[k].pools
    {
      assert m.lbs[i] in m.lbs;
      r := Lists(m.lbs[i].pools, name);
      if r {
        return;
      }
    }
    r := false;
  }

  method IsControlPlane(m: Manifest, name: string) returns (r: bool)
    ensures r <==> ControlPlane(m, name)
  {
    for i := 0 to |m.clusters|
      invariant forall k :: 0 <= k < i ==> name !in m.clusters[k].control
    {
      assert m.clusters[i] in m.clusters;
      r := Lists(m.clusters[i].control, name);
      if r {
        return;
      }
    }
    r := false;
  }

  method ValidateSpot(m: Manifest, d: DynamicPool) returns (ok: bool)
    ensures ok <==> SpotOk(m, d)
  {
    if !d.spot {
      return true;
    }
    var typ := GetProviderType(m.providers, d.provider);
    if typ.None? {
      return true;
    }
    if typ.value !in ["gcp", "verda", "aws", "azure", "oci"] {
      return false;
    }
    var control := IsControlPlane(m, d.name);
    ok := !control;
  }

  /** The checks of one dynamic pool, apart from its name. */
  method ValidateDynamicPool(m: Manifest, d: DynamicPool) returns (ok: bool)
    ensures ok <==> DynamicOk(m, d)
  {
    ok := IsReferenced(m, d.name);
    if !ok {
      return;
    }
    if GetProviderType(m.providers, d.provider).None? || d.count > 255 {
      return false;
    }
    ok := ValidateSpot(m, d);
    if ok {
      ok := d.fieldsOk && !(d.count != 0 && Autoscaled(d));
    }
  }

  /** The first `i` dynamic pools are in order. */
  ghost predicate FirstDynamicOk(m: Manifest, i: nat)
    requires i <= |m.dynamicPools|
  {
    i == 0 || (FirstDynamicOk(m, i - 1) && DynamicOk(m, m.dynamicPools[i - 1]))
  }

  lemma {:induction false} FirstDynamic(m: Manifest, i: nat)
    requires i <= |m.dynamicPools|
    ensures FirstDynamicOk(m, i) <==> forall d :: d in m.dynamicPools[..i] ==> DynamicOk(m, d)
  {
    if i > 0 {
      FirstDynamic(m, i - 1);
      assert m.dynamicPools[..i] == m.dynamicPools[..i - 1] + [m.dynamicPools[i - 1]];
    }
  }

  lemma BadDynamic(m: Manifest, i: nat)
    requires i < |m.dynamicPools| && !DynamicOk(m, m.dynamicPools[i])
    ensures !forall d :: d in m.dynamicPools ==> DynamicOk(m, d)
  {
    assert m.dynamicPools[i] in m.dynamicPools;
  }

  method ValidateDynamicPools(m: Manifest) returns (ok: bool, names: set<string>)
    ensures ok <==> (forall d :: d in m.dynamicPools ==> DynamicOk(m, d)) && Distinct(DynamicNames(m))
    ensures ok ==> names == Elements(DynamicNames(m))
  {
    ghost var all := DynamicNames(m);
    names := {};
    for i := 0 to |m.dynamicPools|
      invariant FirstDynamicOk(m, i)
      invariant Distinct(all[..i]) && names == Elements(all[..i])
    {
      SeenStep(all, i, names);
      ok := ValidateDynamicPool(m, m.dynamicPools[i]);
      if !ok {
        BadDynamic(m, i);
        return;
      }
      if m.dynamicPools[i].name in names {
        return false, names;
      }
      names := names + {m.dynamicPools[i].name};
    }
    FirstDynamic(m, |m.dynamicPools|);
    assert all[..|all|] == all && m.dynamicPools[..|m.dynamicPools|] == m.dynamicPools;
    ok := true;
  }

  /** Adds the endpoints of one pool to those already taken. */
  method CheckEndpoints(nodes: seq<StaticNode>, taken: set<string>, ghost before: seq<string>)
    returns (ok: bool, all: set<string>)
    requires Distinct(before) && taken == Elements(before)
    ensures ok <==> Distinct(before + EndpointsOf(nodes))
    ensures ok ==> all == Elements(before + EndpointsOf(nodes))
  {
    ghost var eps := before + EndpointsOf(nodes);
    ok, all := false, taken;
    assert eps[..|before|] == before;
    for i := 0 to |nodes|
      invariant Distinct(eps[..|before| + i]) && all == Elements(eps[..|before| + i])
    {
      SeenStep(eps, |before| + i, all);
      assert eps[|before| + i] == nodes[i].endpoint;
      if nodes[i].endpoint in all {
        return;
      }
      all := all + {nodes[i].endpoint};
    }
    assert eps[..|before| + |nodes|] == eps;
    ok := true;
  }

  lemma {:induction false} EndpointsPrefix(pools: seq<StaticPool>, i: nat)
    requires i <= |pools|
    ensures AllEndpoints(pools[..i]) <= AllEndpoints(pools)
    decreases |pools|
  {
    if i < |pools| {
      var front := pools[..|pools| - 1];
      EndpointsPrefix(front, i);
      assert front[..i] == pools[..i];
    } else {
      assert pools[..i] == pools;
    }
  }

  /** What the static section accepts, for its first `i` pools. */
  ghost predicate StaticPoolsOk(m: Manifest, i: nat)
    requires i <= |m.staticPools|
  {
    && (forall k :: 0 <= k < i ==> StaticOk(m, m.staticPools[k]))
    && Distinct(DynamicNames(m) + StaticNames(m)[..i])
    && Distinct(AllEndpoints(m.staticPools[..i]))
  }

  lemma StaticNamesStep(m: Manifest, i: nat)
    requires i < |m.staticPools|
    ensures var names, next := DynamicNames(m) + StaticNames(m)[..i], DynamicNames(m) + StaticNames(m)[..i + 1];
            && (Distinct(next) <==> Distinct(names) && m.staticPools[i].name !in names)
            && Elements(next) == Elements(names) + {m.staticPools[i].name}
  {
    var names, next := DynamicNames(m) + StaticNames(m)[..i], DynamicNames(m) + StaticNames(m)[..i + 1];
    assert next == names + [m.staticPools[i].name];
    assert next[..|names|] == names && next[..|names| + 1] == next;
    DistinctSnoc(next, |names|);
  }

  lemma StaticPoolsStep(m: Manifest, i: nat)
    requires i < |m.staticPools| && StaticPoolsOk(m, i)
    ensures var s := m.staticPools[i];
            && AllEndpoints(m.staticPools[..i + 1]) == AllEndpoints(m.staticPools[..i]) + EndpointsOf(s.nodes)
            && (StaticPoolsOk(m, i + 1) <==>
                  && StaticOk(m, s)
                  && Distinct(AllEndpoints(m.staticPools[..i]) + EndpointsOf(s.nodes))
                  && s.name !in DynamicNames(m) + StaticNames(m)[..i])
            && Elements(DynamicNames(m) + StaticNames(m)[..i + 1]) == Elements(DynamicNames(m) + StaticNames(m)[..i]) + {s.name}
  {
    assert m.staticPools[..i + 1][..i] == m.staticPools[..i];
    StaticNamesStep(m, i);
  }

  lemma StaticPoolsPrefix(m: Manifest, i: nat)
    requires i <= |m.staticPools| && StaticPoolsOk(m, |m.staticPools|)
    ensures StaticPoolsOk(m, i)
  {
    var dyn, st := DynamicNames(m), StaticNames(m);
    assert st[..|st|] == st && m.staticPools[..|m.staticPools|] == m.staticPools;
    DistinctPrefix(dyn + st, dyn + st[..i]);
    EndpointsPrefix(m.staticPools, i);
    DistinctPrefix(AllEndpoints(m.staticPools), AllEndpoints(m.staticPools[..i]));
  }

  method ValidateStaticPools(m: Manifest, dynamicNames: set<string>) returns (ok: bool)
    requires dynamicNames == Elements(DynamicNames(m)) && Distinct(DynamicNames(m))
    ensures ok <==> StaticPoolsOk(m, |m.staticPools|)
  {
    var names, endpoints := dynamicNames, {};
    assert DynamicNames(m) + StaticNames(m)[..0] == DynamicNames(m);
    for i := 0 to |m.staticPools|
      invariant StaticPoolsOk(m, i)
      invariant names == Elements(DynamicNames(m) + StaticNames(m)[..i])
      invariant endpoints == Elements(AllEndpoints(m.staticPools[..i]))
    {
      var s := m.staticPools[i];
      StaticPoolsStep(m, i);
      if StaticPoolsOk(m, |m.staticPools|) {
        StaticPoolsPrefix(m, i + 1);
      }
      var used := IsReferenced(m, s.name);
      if !used || !s.fieldsOk {
        return false;
      }
      var unused, more := CheckEndpoints(s.nodes, endpoints, AllEndpoints(m.staticPools[..i]));
      if !unused {
        return false;
      }
      endpoints := more;
      if s.name in names {
        return false;
      }
      names := names + {s.name};
    }
    ok := true;
  }

  method ValidateNodePools(m: Manifest) returns (ok: bool)
    ensures ok <==> NodePoolsOk(m)
  {
    var names;
    ok, names := ValidateDynamicPools(m);
    if !ok {
      if Distinct(DynamicNames(m) + StaticNames(m)) {
        DistinctPrefix(DynamicNames(m) + StaticNames(m), DynamicNames(m));
      }
      return;
    }
    ok := ValidateStaticPools(m, names);
    assert StaticNames(m)[..|m.staticPools|] == StaticNames(m);
    assert m.staticPools[..|m.staticPools|] == m.staticPools;
  }

  // --------------------------------------------------------------- kubernetes

  method ValidateClusterPools(m: Manifest, c: Cluster) returns (ok: bool)
    ensures ok <==> ClusterPoolsOk(m, c)
  {
    ok := CheckPools(m, c.control);
    if !ok {
      return;
    }
    ok := CheckPools(m, c.compute);
    if !ok {
      return;
    }
    for i := 0 to |c.compute|
      invariant forall k :: 0 <= k < i ==> !(IsStatic(m, c.compute[k]) && c.compute[k] in c.control)
    {
      if IsStatic(m, c.compute[i]) && c.compute[i] in c.control {
        return false;
      }
    }
  }

  /** The static pools of a list, under the cluster's name. */
  function StaticAmong(pools: seq<string>, isStatic: string -> bool, name: string): map<string, string>
  {
    map p | p in pools && isStatic(p) :: name
  }

  lemma StaticAmongStep(pools: seq<string>, i: nat, isStatic: string -> bool, name: string)
    requires i < |pools|
    ensures StaticAmong(pools[..i + 1], isStatic, name) ==
            if isStatic(pools[i]) then StaticAmong(pools[..i], isStatic, name)[pools[i] := name]
            else StaticAmong(pools[..i], isStatic, name)
  {
    assert pools[..i + 1] == pools[..i] + [pools[i]];
  }

  lemma UpdateSum(a: map<string, string>, b: map<string, string>, k: string, v: string)
    ensures a + b[k := v] == (a + b)[k := v]
  {
  }

  /** Records the static pools of one list under the cluster's name, unless another cluster has them. */
  method RecordStatic(pools: seq<string>, isStatic: string -> bool, name: string, used: map<string, string>)
    returns (r: Option<map<string, string>>)
    ensures r.Some? <==> forall p :: p in pools && isStatic(p) && p in used ==> used[p] == name
    ensures r.Some? ==> r.value == used + StaticAmong(pools, isStatic, name)
  {
    var out := used;
    assert out == used + StaticAmong(pools[..0], isStatic, name);
    for i := 0 to |pools|
      invariant out == used + StaticAmong(pools[..i], isStatic, name)
      invariant forall k :: 0 <= k < i && isStatic(pools[k]) && pools[k] in used ==> used[pools[k]] == name
    {
      StaticAmongStep(pools, i, isStatic, name);
      if isStatic(pools[i]) {
        UpdateSum(used, StaticAmong(pools[..i], isStatic, name), pools[i], name);
        if pools[i] in out && out[pools[i]] != name {
          assert pools[i] in pools;
          return None;
        }
        out := out[pools[i] := name];
      }
    }
    assert pools[..|pools|] == pools;
    r := Some(out);
  }

  /** The map built so far: exactly the static pools of the clusters visited, under their names. */
  ghost predicate Recorded(m: Manifest, cs: seq<Cluster>, used: map<string, string>)
  {
    && (forall c, p :: c in cs && UsesStatic(m, c, p) ==> p in used && used[p] == c.name)
    && (forall p :: p in used ==> exists c :: c in cs && UsesStatic(m, c, p))
  }

  /** The next map: the pools of cluster `c` under its name, everything else as before. */
  lemma NextMap(m: Manifest, c: Cluster, used: map<string, string>, isStatic: string -> bool, p: string)
    requires isStatic(p) == IsStatic(m, p)
    ensures var next := used + StaticAmong(c.control, isStatic, c.name) + StaticAmong(c.compute, isStatic, c.name);
            && (p in next <==> p in used || UsesStatic(m, c, p))
            && (p in next ==> next[p] == if UsesStatic(m, c, p) then c.name else used[p])
  {
  }

  lemma RecordedStep(m: Manifest, cs: seq<Cluster>, c: Cluster, used: map<string, string>, isStatic: string -> bool)
    requires Recorded(m, cs, used) && forall p :: isStatic(p) == IsStatic(m, p)
    requires forall p :: p in used && UsesStatic(m, c, p) ==> used[p] == c.name
    ensures Recorded(m, cs + [c], used + StaticAmong(c.control, isStatic, c.name) + StaticAmong(c.compute, isStatic, c.name))
  {
    var next := used + StaticAmong(c.control, isStatic, c.name) + StaticAmong(c.compute, isStatic, c.name);
    forall x, p | x in cs + [c] && UsesStatic(m, x, p) ensures p in next && next[p] == x.name {
      NextMap(m, c, used, isStatic, p);
      assert x in cs || x == c;
    }
    forall p | p in next ensures exists x :: x in cs + [c] && UsesStatic(m, x, p) {
      NextMap(m, c, used, isStatic, p);
      if UsesStatic(m, c, p) {
        assert c in cs + [c];
      } else {
        var x :| x in cs && UsesStatic(m, x, p);
        assert x in cs + [c];
      }
    }
  }

  lemma ClashBreaks(m: Manifest, cs: seq<Cluster>, i: nat, used: map<string, string>, p: string)
    requires i < |cs| && Recorded(m, cs[..i], used)
    requires UsesStatic(m, cs[i], p) && p in used && used[p] != cs[i].name
    ensures !StaticExclusive(m, cs)
  {
    var x :| x in cs[..i] && UsesStatic(m, x, p);
    assert x in cs && cs[i] in cs && x.name != cs[i].name;
  }

  method CollectStaticPools(m: Manifest, cs: seq<Cluster>) returns (r: Option<map<string, string>>)
    ensures r.Some? <==> StaticExclusive(m, cs)
    ensures r.Some? ==> Recorded(m, cs, r.value)
  {
    var used := map[];
    var isStatic := (p: string) => IsStatic(m, p);
    for i := 0 to |cs|
      invariant Recorded(m, cs[..i], used)
    {
      var c := cs[i];
      r := RecordStatic(c.control, isStatic, c.name, used);
      if r.None? {
        ghost var p :| p in c.control && IsStatic(m, p) && p in used && used[p] != c.name;
        ClashBreaks(m, cs, i, used, p);
        return;
      }
      ghost var before := used;
      used := r.value;
      r := RecordStatic(c.compute, isStatic, c.name, used);
      if r.None? {
        ghost var p :| p in c.compute && IsStatic(m, p) && p in used && used[p] != c.name;
        ClashBreaks(m, cs, i, before, p);
        return;
      }
      used := r.value;
      RecordedStep(m, cs[..i], c, before, isStatic);
      assert cs[..i + 1] == cs[..i] + [c];
    }
    assert cs[..|cs|] == cs;
    r := Some(used);
  }

  method ValidateKubernetes(m: Manifest) returns (ok: bool)
    ensures ok <==> KubernetesOk(m)
  {
    ghost var all := ClusterNames(m.clusters);
    var names := {};
    for i := 0 to |m.clusters|
      invariant forall k :: 0 <= k < i ==> m.clusters[k].fieldsOk && ClusterPoolsOk(m, m.clusters[k])
      invariant Distinct(all[..i]) && names == Elements(all[..i])
    {
      var c := m.clusters[i];
      SeenStep(all, i, names);
      if !c.fieldsOk || c.name in names {
        return false;
      }
      names := names + {c.name};
      var poolsOk := ValidateClusterPools(m, c);
      if !poolsOk {
        return false;
      }
    }
    assert all[..|m.clusters|] == all;
    var r := CollectStaticPools(m, m.clusters);
    ok := r.Some?;
  }

  // ----------------------------------------------------------- load balancers

  method ValidateRoles(m: Manifest) returns (ok: bool, api: RoleDef)
    ensures ok <==> RolesOk(m)
    ensures ok ==> api == ApiRole(m.roles)
  {
    ghost var all := RoleNames(m.roles);
    var names := {};
    ok, api := false, ApiRole([]);
    for i := 0 to |m.roles|
      invariant forall k :: 0 <= k < i ==> RoleOk(m, m.roles[k])
      invariant Distinct(all[..i]) && names == Elements(all[..i])
      invariant api == ApiRole(m.roles[..i])
    {
      var r := m.roles[i];
      assert r in m.roles;
      SeenStep(all, i, names);
      assert m.roles[..i + 1][..i] == m.roles[..i];
      if !r.fieldsOk {
        return;
      }
      if r.targetPort == API_SERVER_PORT {
        if r.port != API_SERVER_PORT {
          return;
        }
        api := r;
      }
      if r.name in names || RESERVED_PORTS_START <= r.port < RESERVED_PORTS_END {
        return;
      }
      var poolsOk := CheckPools(m, r.targetPools);
      if !poolsOk {
        return;
      }
      names := names + {r.name};
    }
    assert all[..|m.roles|] == all && m.roles[..|m.roles|] == m.roles;
    ok := true;
  }

  lemma UsesStep(roles: seq<string>, i: nat, role: string, k8s: string, before: seq<string>, now: set<string>)
    requires i < |roles|
    requires Distinct(before + UsesOf(roles[..i], role, k8s)) && now == Elements(before + UsesOf(roles[..i], role, k8s))
    ensures var next := before + UsesOf(roles[..i + 1], role, k8s);
            && (Distinct(next) <==> !(roles[i] == role && k8s in now))
            && Elements(next) == (if roles[i] == role then now + {k8s} else now)
    ensures roles[i] == role && k8s in now ==> !Distinct(before + UsesOf(roles, role, k8s))
  {
    var uses, next := before + UsesOf(roles[..i], role, k8s), before + UsesOf(roles[..i + 1], role, k8s);
    assert roles[..i + 1][..i] == roles[..i];
    if roles[i] == role {
      assert next == uses + [k8s] && next[..|uses|] == uses && next[..|uses| + 1] == next;
      SeenStep(next, |uses|, now);
      UsesPrefix(roles, i + 1, role, k8s, before);
    } else {
      assert next == uses;
    }
  }

  /** Every target pool is listed by the cluster, under control if `controlOnly` is set. */
  method CheckTargetsIn(c: Cluster, pools: seq<string>, controlOnly: bool) returns (ok: bool)
    ensures ok <==> forall p :: p in pools ==> p in c.control || (!controlOnly && p in c.compute)
  {
    for i := 0 to |pools|
      invariant forall k :: 0 <= k < i ==> pools[k] in c.control || (!controlOnly && pools[k] in c.compute)
    {
      var found := Lists(c.control, pools[i]);
      if !controlOnly {
        var more := Lists(c.compute, pools[i]);
        found := found || more;
      }
      if !found {
        assert pools[i] in pools;
        return false;
      }
    }
    ok := true;
  }

  /** The target pools of a role against the clusters that the load balancer targets. */
  method CheckTargets(m: Manifest, pools: seq<string>, k8s: string, controlOnly: bool) returns (ok: bool)
    ensures ok <==> TargetsWithin(m, pools, k8s, controlOnly)
  {
    for i := 0 to |m.clusters|
      invariant forall k, p :: 0 <= k < i && m.clusters[k].name == k8s && p in pools ==>
                  p in m.clusters[k].control || (!controlOnly && p in m.clusters[k].compute)
    {
      var c := m.clusters[i];
      assert c in m.clusters;
      if c.name == k8s {
        ok := CheckTargetsIn(c, pools, controlOnly);
        if !ok {
          return;
        }
      }
    }
    ok := true;
  }

  /** One use of a role, apart from other uses of the API server role. */
  method CheckRoleUse(m: Manifest, lb: LbCluster, role: string, api: RoleDef) returns (ok: bool)
    requires api == ApiRole(m.roles)
    ensures ok <==> RoleUseOk(m, lb, role)
  {
    var def := FindRole(m, role);
    if def.None? {
      return false;
    }
    ok := CheckTargets(m, def.value.targetPools, lb.targetedK8s, false);
    if ok && role == api.name {
      if lb.dns.alternatives != [] {
        return false;
      }
      ok := CheckTargets(m, api.targetPools, lb.targetedK8s, true);
    }
  }

  method IsKubernetesClusterPresent(m: Manifest, name: string) returns (r: bool)
    ensures r <==> exists c :: c in m.clusters && c.name == name
  {
    for i := 0 to |m.clusters|
      invariant forall k :: 0 <= k < i ==> m.clusters[k].name != name
    {
      assert m.clusters[i] in m.clusters;
      if m.clusters[i].name == name {
        return true;
      }
    }
    r := false;
  }

  /** Checks the roles of one load balancer, given the clusters that have an API server balancer already. */
  method CheckRoleUses(m: Manifest, lb: LbCluster, api: RoleDef, served: set<string>, ghost before: seq<string>)
    returns (ok: bool, now: set<string>)
    requires api == ApiRole(m.roles) && Distinct(before) && served == Elements(before)
    ensures var uses := before + UsesOf(lb.roles, api.name, lb.targetedK8s);
            && (ok <==> (forall r :: r in lb.roles ==> RoleUseOk(m, lb, r)) && Distinct(uses))
            && (ok ==> now == Elements(uses))
  {
    ok, now := false, served;
    assert before + UsesOf(lb.roles[..0], api.name, lb.targetedK8s) == before;
    for i := 0 to |lb.roles|
      invariant forall k :: 0 <= k < i ==> RoleUseOk(m, lb, lb.roles[k])
      invariant Distinct(before + UsesOf(lb.roles[..i], api.name, lb.targetedK8s))
      invariant now == Elements(before + UsesOf(lb.roles[..i], api.name, lb.targetedK8s))
    {
      var role := lb.roles[i];
      assert role in lb.roles;
      UsesStep(lb.roles, i, api.name, lb.targetedK8s, before, now);
      var useOk := CheckRoleUse(m, lb, role, api);
      if !useOk {
        return;
      }
      if role == api.name {
        if lb.targetedK8s in now {
          return;
        }
        now := now + {lb.targetedK8s};
      }
    }
    assert lb.roles[..|lb.roles|] == lb.roles;
    ok := true;
  }

  lemma {:induction false} UsesPrefix(roles: seq<string>, i: nat, role: string, k8s: string, before: seq<string>)
    requires i <= |roles|
    ensures before + UsesOf(roles[..i], role, k8s) <= before + UsesOf(roles, role, k8s)
    ensures Distinct(before + UsesOf(roles, role, k8s)) ==> Distinct(before + UsesOf(roles[..i], role, k8s))
    decreases |roles|
  {
    if i < |roles| {
      var front := roles[..|roles| - 1];
      UsesPrefix(front, i, role, k8s, before);
      assert front[..i] == roles[..i];
    } else {
      assert roles[..i] == roles;
    }
    if Distinct(before + UsesOf(roles, role, k8s)) {
      DistinctPrefix(before + UsesOf(roles, role, k8s), before + UsesOf(roles[..i], role, k8s));
    }
  }

  lemma {:induction false} AllUsesPrefix(lbs: seq<LbCluster>, i: nat, role: string)
    requires i <= |lbs|
    ensures AllUses(lbs[..i], role) <= AllUses(lbs, role)
    decreases |lbs|
  {
    if i < |lbs| {
      var front := lbs[..|lbs| - 1];
      AllUsesPrefix(front, i, role);
      assert front[..i] == lbs[..i];
    } else {
      assert lbs[..i] == lbs;
    }
  }

  // ---------------------------------------------------------------- host names

  /** The map holds, for each name, the zone of its latest claim. */
  ghost predicate Tracks(zones: map<string, string>, cs: seq<Claim>)
  {
    forall n :: (if n in zones then Some(zones[n]) else None) == LastZone(cs, n)
  }

  lemma {:induction false} FreshPrefix(cs: seq<Claim>, t: seq<Claim>)
    requires t <= cs && FreshClaims(cs)
    ensures FreshClaims(t)
    decreases |cs|
  {
    if |t| < |cs| {
      FreshPrefix(cs[..|cs| - 1], t);
    } else {
      assert t == cs;
    }
  }

  lemma TracksStep(zones: map<string, string>, cs: seq<Claim>, c: Claim)
    requires Tracks(zones, cs) && FreshClaims(cs)
    ensures Tracks(zones[c.name := c.zone], cs + [c])
    ensures FreshClaims(cs + [c]) <==> !(c.name in zones && zones[c.name] == c.zone)
  {
    assert (cs + [c])[..|cs|] == cs;
  }

  /** The claims of a load balancer up to its `i`-th alternative name. */
  function Claimed(lb: LbCluster, before: seq<Claim>, i: nat): seq<Claim>
    requires i <= |lb.dns.alternatives|
  {
    before + ClaimsOf(lb)[..i]
  }

  lemma ClaimedStep(lb: LbCluster, before: seq<Claim>, i: nat, zones: map<string, string>)
    requires i < |lb.dns.alternatives|
    requires Tracks(zones, Claimed(lb, before, i)) && FreshClaims(Claimed(lb, before, i))
    ensures var n := lb.dns.alternatives[i];
            && Tracks(zones[n := lb.dns.zone], Claimed(lb, before, i + 1))
            && (FreshClaims(Claimed(lb, before, i + 1)) <==> !(n in zones && zones[n] == lb.dns.zone))
            && (n in zones && zones[n] == lb.dns.zone ==> !FreshClaims(before + ClaimsOf(lb)))
  {
    var c, cs := Claim(lb.dns.alternatives[i], lb.dns.zone), Claimed(lb, before, i);
    assert Claimed(lb, before, i + 1) == cs + [c];
    TracksStep(zones, cs, c);
    if FreshClaims(before + ClaimsOf(lb)) {
      FreshPrefix(before + ClaimsOf(lb), Claimed(lb, before, i + 1));
    }
  }

  /** Checks the alternative names, which are claimed before the host name. */
  method CheckAlternatives(lb: LbCluster, zones: map<string, string>, ghost before: seq<Claim>)
    returns (ok: bool, now: map<string, string>)
    requires Tracks(zones, before) && FreshClaims(before)
    ensures !ok ==> !FreshClaims(before + ClaimsOf(lb))
    ensures ok ==> FreshClaims(Claimed(lb, before, |lb.dns.alternatives|)) && Tracks(now, Claimed(lb, before, |lb.dns.alternatives|))
  {
    var zone, host, alts := lb.dns.zone, lb.dns.hostname, lb.dns.alternatives;
    ok, now := false, zones;
    var seen := {};
    assert Claimed(lb, before, 0) == before;
    for i := 0 to |alts|
      invariant FreshClaims(Claimed(lb, before, i)) && Tracks(now, Claimed(lb, before, i))
      invariant forall x :: x in seen ==> x in now && now[x] == zone
    {
      var n := alts[i];
      ClaimedStep(lb, before, i, now);
      if n in seen {
        return;
      }
      if host != "" && n == host {
        HostRepeated(lb, before, i);
        return;
      }
      if n in now && now[n] == zone {
        return;
      }
      seen := seen + {n};
      now := now[n := zone];
    }
    ok := true;
  }

  method CheckClaims(lb: LbCluster, zones: map<string, string>, ghost before: seq<Claim>)
    returns (ok: bool, now: map<string, string>)
    requires LbFieldsOk(lb) && Tracks(zones, before) && FreshClaims(before)
    requires forall c :: c in before ==> c.name != ""
    ensures ok <==> FreshClaims(before + ClaimsOf(lb))
    ensures ok ==> Tracks(now, before + ClaimsOf(lb))
  {
    var zone, host := lb.dns.zone, lb.dns.hostname;
    ghost var cs := Claimed(lb, before, |lb.dns.alternatives|);
    ok, now := CheckAlternatives(lb, zones, before);
    if !ok {
      return;
    }
    if host == "" {
      NoEmptyName(lb, before);
      assert cs == before + ClaimsOf(lb);
      assert host !in now;
    } else {
      assert before + ClaimsOf(lb) == cs + [Claim(host, zone)];
      TracksStep(now, cs, Claim(host, zone));
    }
    if host in now && now[host] == zone {
      ok := false;
    } else if host != "" {
      now := now[host := zone];
    }
  }

  lemma HostRepeated(lb: LbCluster, before: seq<Claim>, i: nat)
    requires i < |lb.dns.alternatives| && lb.dns.hostname != "" && lb.dns.alternatives[i] == lb.dns.hostname
    ensures !FreshClaims(before + ClaimsOf(lb))
  {
    var all, k := before + ClaimsOf(lb), |before|;
    ManifestLaws.FreshClaimsExactly(all);
    assert forall j :: k <= j < |all| ==> all[j].zone == lb.dns.zone;
    assert ManifestLaws.Repeats(all, k + i, |all| - 1);
  }

  lemma {:induction false} LastZoneMember(cs: seq<Claim>, name: string)
    requires forall c :: c in cs ==> c.name != name
    ensures LastZone(cs, name) == None
  {
    if cs != [] {
      assert cs[|cs| - 1] in cs;
      LastZoneMember(cs[..|cs| - 1], name);
    }
  }

  lemma NoEmptyName(lb: LbCluster, before: seq<Claim>)
    requires LbFieldsOk(lb) && forall c :: c in before ==> c.name != ""
    ensures LastZone(before + ClaimsOf(lb), "") == None
    ensures forall c :: c in before + ClaimsOf(lb) ==> c.name != ""
  {
    forall c | c in before + ClaimsOf(lb) ensures c.name != "" {
      if c in ClaimsOf(lb) {
        var i :| 0 <= i < |ClaimsOf(lb)| && ClaimsOf(lb)[i] == c;
      }
    }
    LastZoneMember(before + ClaimsOf(lb), "");
  }

  lemma {:induction false} AllClaimsPrefix(lbs: seq<LbCluster>, i: nat)
    requires i <= |lbs|
    ensures AllClaims(lbs[..i]) <= AllClaims(lbs)
    decreases |lbs|
  {
    if i < |lbs| {
      var front := lbs[..|lbs| - 1];
      AllClaimsPrefix(front, i);
      assert front[..i] == lbs[..i];
    } else {
      assert lbs[..i] == lbs;
    }
  }

  // -------------------------------------------------------------- whole section

  /** The checks of one load balancer, apart from its name and its claims. */
  method CheckLb(m: Manifest, lb: LbCluster, api: RoleDef, served: set<string>, ghost before: seq<string>)
    returns (ok: bool, now: set<string>)
    requires api == ApiRole(m.roles) && Distinct(before) && served == Elements(before)
    ensures var uses := before + UsesOf(lb.roles, api.name, lb.targetedK8s);
            && (ok <==> LbOk(m, lb) && Distinct(uses))
            && (ok ==> now == Elements(uses))
  {
    now := served;
    if |lb.roles| > MAX_ROLES || !LbFieldsOk(lb) {
      return false, now;
    }
    ok, now := CheckRoleUses(m, lb, api, served, before);
    if !ok {
      return;
    }
    var typ := GetProviderType(m.providers, lb.dns.provider);
    if typ.None? || typ.value !in ["gcp", "aws", "azure", "oci", "cloudflare", "hetzner", "exoscale", "ovh"] {
      return false, now;
    }
    var present := IsKubernetesClusterPresent(m, lb.targetedK8s);
    if !present {
      return false, now;
    }
    ok := CheckPools(m, lb.pools);
  }

  /** No pool of the list is a static pool that some cluster uses. */
  method CheckUnused(pools: seq<string>, isStatic: string -> bool, used: map<string, string>) returns (ok: bool)
    ensures ok <==> forall p :: p in pools && isStatic(p) ==> p !in used
  {
    for i := 0 to |pools|
      invariant forall k :: 0 <= k < i && isStatic(pools[k]) ==> pools[k] !in used
    {
      if isStatic(pools[i]) && pools[i] in used {
        assert pools[i] in pools;
        return false;
      }
    }
    ok := true;
  }

  method ValidateLbStatic(m: Manifest) returns (ok: bool)
    ensures ok <==> LbStaticOk(m)
  {
    var isStatic := (p: string) => IsStatic(m, p);
    var used := CollectStaticPools(m, m.clusters);
    if used.None? {
      return true;
    }
    for i := 0 to |m.lbs|
      invariant forall k, p :: 0 <= k < i && p in m.lbs[k].pools && isStatic(p) ==> p !in used.value
    {
      var unused := CheckUnused(m.lbs[i].pools, isStatic, used.value);
      if !unused {
        assert m.lbs[i] in m.lbs;
        return false;
      }
    }
    ok := true;
  }

  method ValidateLoadBalancers(m: Manifest) returns (ok: bool)
    ensures ok <==> LoadBalancersOk(m)
  {
    var api;
    ok, api := ValidateRoles(m);
    if !ok {
      return;
    }
    ok := ValidateLbClusters(m, api);
    if !ok {
      return;
    }
    ok := ValidateLbStatic(m);
  }

  ghost predicate LbClustersOk(m: Manifest, lbs: seq<LbCluster>)
  {
    && Distinct(LbNames(lbs))
    && (forall lb :: lb in lbs ==> LbOk(m, lb))
    && Distinct(AllUses(lbs, ApiRole(m.roles).name))
    && FreshClaims(AllClaims(lbs))
  }

  lemma LbClustersPrefix(m: Manifest, lbs: seq<LbCluster>, i: nat)
    requires i <= |lbs| && LbClustersOk(m, lbs)
    ensures LbClustersOk(m, lbs[..i])
  {
    assert LbNames(lbs[..i]) == LbNames(lbs)[..i];
    DistinctPrefix(LbNames(lbs), LbNames(lbs[..i]));
    AllUsesPrefix(lbs, i, ApiRole(m.roles).name);
    DistinctPrefix(AllUses(lbs, ApiRole(m.roles).name), AllUses(lbs[..i], ApiRole(m.roles).name));
    AllClaimsPrefix(lbs, i);
    FreshPrefix(AllClaims(lbs), AllClaims(lbs[..i]));
  }

  /** The next load balancer is acceptable after the first `i`. */
  ghost predicate NextOk(m: Manifest, lbs: seq<LbCluster>, i: nat)
    requires i < |lbs|
  {
    && lbs[i].name !in LbNames(lbs[..i])
    && LbOk(m, lbs[i])
    && Distinct(AllUses(lbs[..i], ApiRole(m.roles).name) + UsesOf(lbs[i].roles, ApiRole(m.roles).name, lbs[i].targetedK8s))
    && FreshClaims(AllClaims(lbs[..i]) + ClaimsOf(lbs[i]))
  }

  lemma LbClustersStep(m: Manifest, lbs: seq<LbCluster>, i: nat)
    requires i < |lbs| && LbClustersOk(m, lbs[..i])
    ensures LbClustersOk(m, lbs[..i + 1]) <==> NextOk(m, lbs, i)
  {
    var next := lbs[..i + 1];
    assert next[..i] == lbs[..i] && next[|next| - 1] == lbs[i];
    assert next == lbs[..i] + [lbs[i]];
    assert LbNames(next)[..i] == LbNames(lbs[..i]);
    DistinctSnoc(LbNames(next), i);
    assert LbNames(next)[..i + 1] == LbNames(next);
  }

  /** What the loop remembers about the load balancers it has visited. */
  datatype Memory = Memory(names: set<string>, served: set<string>, zones: map<string, string>)

  ghost predicate Remembers(mem: Memory, lbs: seq<LbCluster>, api: string)
  {
    && mem.names == Elements(LbNames(lbs))
    && mem.served == Elements(AllUses(lbs, api))
    && Tracks(mem.zones, AllClaims(lbs))
    && forall c :: c in AllClaims(lbs) ==> c.name != ""
  }

  lemma RemembersStep(mem: Memory, next: Memory, lbs: seq<LbCluster>, i: nat, api: string)
    requires i < |lbs| && Remembers(mem, lbs[..i], api) && LbFieldsOk(lbs[i])
    requires next.names == mem.names + {lbs[i].name}
    requires next.served == Elements(AllUses(lbs[..i], api) + UsesOf(lbs[i].roles, api, lbs[i].targetedK8s))
    requires Tracks(next.zones, AllClaims(lbs[..i]) + ClaimsOf(lbs[i]))
    ensures Remembers(next, lbs[..i + 1], api)
  {
    assert lbs[..i + 1] == lbs[..i] + [lbs[i]] && lbs[..i + 1][..i] == lbs[..i];
    assert LbNames(lbs[..i + 1]) == LbNames(lbs[..i]) + [lbs[i].name];
    NoEmptyName(lbs[i], AllClaims(lbs[..i]));
  }

  method CheckNext(m: Manifest, i: nat, api: RoleDef, mem: Memory) returns (ok: bool, next: Memory)
    requires i < |m.lbs| && api == ApiRole(m.roles)
    requires LbClustersOk(m, m.lbs[..i]) && Remembers(mem, m.lbs[..i], api.name)
    ensures ok <==> NextOk(m, m.lbs, i)
    ensures ok ==> Remembers(next, m.lbs[..i + 1], api.name)
  {
    var lb := m.lbs[i];
    ok, next := false, mem;
    if lb.name in mem.names {
      return;
    }
    var lbOk, served := CheckLb(m, lb, api, mem.served, AllUses(m.lbs[..i], api.name));
    if !lbOk {
      return;
    }
    var claimsOk, zones := CheckClaims(lb, mem.zones, AllClaims(m.lbs[..i]));
    if !claimsOk {
      return;
    }
    ok, next := true, Memory(mem.names + {lb.name}, served, zones);
    RemembersStep(mem, next, m.lbs, i, api.name);
  }

  lemma Rejected(m: Manifest, i: nat)
    requires i <= |m.lbs| && !LbClustersOk(m, m.lbs[..i])
    ensures !LbClustersOk(m, m.lbs)
  {
    if LbClustersOk(m, m.lbs) {
      LbClustersPrefix(m, m.lbs, i);
    }
  }

  /** One more load balancer. */
  method ExtendLbs(m: Manifest, i: nat, api: RoleDef, mem: Memory) returns (ok: bool, next: Memory)
    requires i < |m.lbs| && api == ApiRole(m.roles)
    requires LbClustersOk(m, m.lbs[..i]) && Remembers(mem, m.lbs[..i], api.name)
    ensures ok <==> LbClustersOk(m, m.lbs[..i + 1])
    ensures ok ==> Remembers(next, m.lbs[..i + 1], api.name)
  {
    LbClustersStep(m, m.lbs, i);
    ok, next := CheckNext(m, i, api, mem);
  }

  lemma NoLbs(m: Manifest, api: string)
    ensures LbClustersOk(m, []) && Remembers(Memory({}, {}, map[]), [], api)
  {
  }

  method ValidateLbClusters(m: Manifest, api: RoleDef) returns (ok: bool)
    requires api == ApiRole(m.roles)
    ensures ok <==> LbClustersOk(m, m.lbs)
  {
    var mem := Memory({}, {}, map[]);
    assert m.lbs[..0] == [];
    NoLbs(m, api.name);
    for i := 0 to |m.lbs|
      invariant LbClustersOk(m, m.lbs[..i]) && Remembers(mem, m.lbs[..i], api.name)
    {
      ok, mem := ExtendLbs(m, i, api, mem);
      if !ok {
        Rejected(m, i + 1);
        return;
      }
    }
    assert m.lbs[..|m.lbs|] == m.lbs;
    ok := true;
  }

  /** Validates the sections in the order in which later ones rely on earlier ones. */
  method ValidateManifest(m: Manifest) returns (ok: bool)
    ensures ok <==> Accepted(m)
  {
    ok := ValidateNodePools(m);
    if ok {
      ok := ValidateKubernetes(m);
    }
    if ok {
      ok := ValidateLoadBalancers(m);
    }
  }
}
