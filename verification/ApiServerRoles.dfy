/**
 Load balancers in front of API servers.  A Kubernetes cluster is meant to have one of them,
 in front of control pools only; the validation checks that for the last role with the API
 server's target port.
 */
module ApiServerRoles {
  import opened Sequences
  import opened Manifests
  import ManifestLaws

  predicate IsApi(r: RoleDef)
  {
    r.targetPort == API_SERVER_PORT
  }

  /** A role of this name forwards to the API server. */
  predicate ApiName(rs: seq<RoleDef>, name: string)
  {
    exists r :: r in rs && IsApi(r) && r.name == name
  }

  /** How often roles satisfying `p` are used by the load balancers of a cluster. */
  function Uses(lbs: seq<LbCluster>, p: string -> bool, k8s: string): nat
  {
    if lbs == [] then 0
    else
      var lb := lbs[|lbs| - 1];
      Uses(lbs[..|lbs| - 1], p, k8s) + (if lb.targetedK8s == k8s then |Filter(lb.roles, p)| else 0)
  }

  /** How often API server roles are used for a cluster. */
  function ApiUses(m: Manifest, k8s: string): nat
  {
    Uses(m.lbs, x => ApiName(m.roles, x), k8s)
  }

  /** At most one use over all API server roles for each cluster. */
  ghost predicate OneApiBalancer(m: Manifest)
  {
    forall k8s :: ApiUses(m, k8s) <= 1
  }

  /** Every API server role in use targets control pools only. */
  ghost predicate ApiOnControl(m: Manifest)
  {
    forall lb, r, c, p :: lb in m.lbs && r in m.roles && c in m.clusters && p in r.targetPools ==>
      IsApi(r) && r.name in lb.roles && c.name == lb.targetedK8s ==> p in c.control
  }

  // --------------------------------------------------------------- counting uses

  lemma {:induction false} FilterSplit(s: seq<string>, p: string -> bool, q: string -> bool, pq: string -> bool)
    requires forall x :: !(p(x) && q(x)) && pq(x) == (p(x) || q(x))
    ensures |Filter(s, pq)| == |Filter(s, p)| + |Filter(s, q)|
  {
    if s != [] {
      FilterSplit(s[1..], p, q, pq);
    }
  }

  lemma {:induction false} UsesSplit(lbs: seq<LbCluster>, p: string -> bool, q: string -> bool, pq: string -> bool, k8s: string)
    requires forall x :: !(p(x) && q(x)) && pq(x) == (p(x) || q(x))
    ensures Uses(lbs, pq, k8s) == Uses(lbs, p, k8s) + Uses(lbs, q, k8s)
  {
    if lbs != [] {
      UsesSplit(lbs[..|lbs| - 1], p, q, pq, k8s);
      FilterSplit(lbs[|lbs| - 1].roles, p, q, pq);
    }
  }

  lemma {:induction false} UsesOfCount(roles: seq<string>, role: string, k8s: string, at: string)
    ensures multiset(UsesOf(roles, role, k8s))[at] == if at == k8s then |Filter(roles, x => x == role)| else 0
  {
    if roles != [] {
      var n := |roles| - 1;
      UsesOfCount(roles[..n], role, k8s, at);
      FilterSnoc(roles, n, x => x == role);
      assert roles[..n + 1] == roles;
    }
  }

  /** For one role this is what the validation counts. */
  lemma {:induction false} UsesOfRole(lbs: seq<LbCluster>, role: string, k8s: string)
    ensures Uses(lbs, x => x == role, k8s) == multiset(AllUses(lbs, role))[k8s]
  {
    if lbs != [] {
      var lb := lbs[|lbs| - 1];
      UsesOfRole(lbs[..|lbs| - 1], role, k8s);
      UsesOfCount(lb.roles, role, lb.targetedK8s, k8s);
    }
  }

  /** How often the role that the validation remembers is used for a cluster. */
  function LastUses(m: Manifest, k8s: string): nat
  {
    Uses(m.lbs, x => x == ApiRole(m.roles).name, k8s)
  }

  lemma LastUsedOnce(m: Manifest, k8s: string)
    requires Accepted(m)
    ensures LastUses(m, k8s) <= 1
  {
    UsesOfRole(m.lbs, ApiRole(m.roles).name, k8s);
    ManifestLaws.CountDistinct(AllUses(m.lbs, ApiRole(m.roles).name), k8s);
  }

  lemma {:induction false} ApiRoleMember(rs: seq<RoleDef>, r: RoleDef)
    requires r in rs && IsApi(r)
    ensures ApiRole(rs) in rs && IsApi(ApiRole(rs))
  {
    var n := |rs| - 1;
    assert rs == rs[..n] + [rs[n]];
    if !IsApi(rs[n]) {
      ApiRoleMember(rs[..n], r);
    }
  }

  /** The role that the validation remembers is the last one with the target port 6443. */
  lemma {:induction false} ApiRoleIsLast(rs: seq<RoleDef>, i: nat)
    requires i < |rs| && rs[i].targetPort == 6443 && forall k :: i < k < |rs| ==> rs[k].targetPort != 6443
    ensures ApiRole(rs) == rs[i]
  {
    if i < |rs| - 1 {
      ApiRoleIsLast(rs[..|rs| - 1], i);
    }
  }

  // ----------------------------------------------------------- for one manifest

  /** The API server roles that the validation does not remember. */
  predicate EarlierApi(rs: seq<RoleDef>, name: string)
  {
    ApiName(rs, name) && name != ApiRole(rs).name
  }

  function EarlierUses(m: Manifest, k8s: string): nat
  {
    Uses(m.lbs, x => EarlierApi(m.roles, x), k8s)
  }

  lemma ApiUsesSplit(m: Manifest, k8s: string)
    requires ApiName(m.roles, ApiRole(m.roles).name)
    ensures ApiUses(m, k8s) == LastUses(m, k8s) + EarlierUses(m, k8s)
  {
    UsesSplit(m.lbs, x => x == ApiRole(m.roles).name, x => EarlierApi(m.roles, x), x => ApiName(m.roles, x), k8s);
  }

  /**
   In an accepted manifest only the earlier API server roles can spoil the count: it is right
   exactly when no cluster uses two of them, or one of them beside the last one.
   */
  lemma EarlierRolesDecide(m: Manifest)
    requires Accepted(m) && ApiName(m.roles, ApiRole(m.roles).name)
    ensures OneApiBalancer(m) <==>
            forall k8s :: EarlierUses(m, k8s) == 0 || (EarlierUses(m, k8s) == 1 && LastUses(m, k8s) == 0)
  {
    forall k8s ensures ApiUses(m, k8s) <= 1 <==>
                       EarlierUses(m, k8s) == 0 || (EarlierUses(m, k8s) == 1 && LastUses(m, k8s) == 0)
    {
      ApiUsesSplit(m, k8s);
      LastUsedOnce(m, k8s);
    }
  }

  // ------------------------------------------------------- for a list of roles

  /** The roles are acceptable apart from the pools they name. */
  predicate RolesFine(rs: seq<RoleDef>)
  {
    && (forall r :: r in rs ==>
          && r.fieldsOk && (IsApi(r) ==> r.port == API_SERVER_PORT)
          && !(RESERVED_PORTS_START <= r.port < RESERVED_PORTS_END)
          && Distinct(r.targetPools))
    && Distinct(RoleNames(rs))
  }

  predicate AtMostOneApi(rs: seq<RoleDef>)
  {
    forall i, j :: 0 <= i < j < |rs| ==> !(IsApi(rs[i]) && IsApi(rs[j]))
  }

  /** With one such role the validation checks all there is to check. */
  lemma OneRoleSuffices(m: Manifest)
    requires Accepted(m) && AtMostOneApi(m.roles)
    ensures OneApiBalancer(m) && ApiOnControl(m)
  {
    var all, last := (x: string) => ApiName(m.roles, x), (x: string) => x == ApiRole(m.roles).name;
    forall r | r in m.roles && IsApi(r) ensures r == ApiRole(m.roles) {
      ApiRoleMember(m.roles, r);
      var i :| 0 <= i < |m.roles| && m.roles[i] == r;
      var j :| 0 <= j < |m.roles| && m.roles[j] == ApiRole(m.roles);
      assert i == j;
    }
    forall k8s ensures ApiUses(m, k8s) <= 1 {
      LastUsedOnce(m, k8s);
      UsesMonotone(m.lbs, all, last, k8s);
    }
    forall lb, r, c, p | lb in m.lbs && r in m.roles && IsApi(r) && r.name in lb.roles
                         && c in m.clusters && c.name == lb.targetedK8s && p in r.targetPools
      ensures p in c.control
    {
      assert LbOk(m, lb) && RoleUseOk(m, lb, r.name);
    }
  }

  lemma {:induction false} FilterMonotone(s: seq<string>, p: string -> bool, q: string -> bool)
    requires forall x :: p(x) ==> q(x)
    ensures |Filter(s, p)| <= |Filter(s, q)|
  {
    if s != [] {
      FilterMonotone(s[1..], p, q);
    }
  }

  lemma {:induction false} UsesMonotone(lbs: seq<LbCluster>, p: string -> bool, q: string -> bool, k8s: string)
    requires forall x :: p(x) ==> q(x)
    ensures Uses(lbs, p, k8s) <= Uses(lbs, q, k8s)
  {
    if lbs != [] {
      UsesMonotone(lbs[..|lbs| - 1], p, q, k8s);
      FilterMonotone(lbs[|lbs| - 1].roles, p, q);
    }
  }

  // ------------------------------------------------- a manifest with two of them

  /** The names that the roles target, each once. */
  function Targets(rs: seq<RoleDef>): seq<string>
  {
    if rs == [] then [] else AddAll(Targets(rs[1..]), rs[0].targetPools)
  }

  function AddAll(s: seq<string>, more: seq<string>): seq<string>
    decreases |more|
  {
    if more == [] then s
    else AddAll(if more[0] in s then s else s + [more[0]], more[1..])
  }

  lemma {:induction false} AddAllKeeps(s: seq<string>, more: seq<string>)
    requires Distinct(s)
    ensures Distinct(AddAll(s, more)) && forall x :: x in AddAll(s, more) <==> x in s || x in more
    decreases |more|
  {
    if more != [] {
      assert more == [more[0]] + more[1..];
      AddAllKeeps(if more[0] in s then s else s + [more[0]], more[1..]);
    }
  }

  lemma {:induction false} TargetsComplete(rs: seq<RoleDef>)
    ensures Distinct(Targets(rs))
    ensures forall r, p :: r in rs && p in r.targetPools ==> p in Targets(rs)
  {
    if rs != [] {
      TargetsComplete(rs[1..]);
      AddAllKeeps(Targets(rs[1..]), rs[0].targetPools);
      assert rs == [rs[0]] + rs[1..];
    }
  }

  function EmptyPool(name: string): StaticPool
  {
    StaticPool(name, [], None, true)
  }

  function Balancer(name: string, role: string): LbCluster
  {
    LbCluster(name, [role], Dns("example.org", "g", "", []), "c", [], true)
  }

  /** One cluster with all the pools, and two load balancers with one role each. */
  function Crowded(rs: seq<RoleDef>, a: string, b: string): Manifest
  {
    Manifest(
      Providers([Provider("g", true)], [], [], [], [], [], [], [], [], [], []),
      [],
      Map(Targets(rs), EmptyPool),
      [Cluster("c", Targets(rs), [], true)],
      rs,
      [Balancer("a", a), Balancer("b", b)])
  }

  lemma CrowdedStatic(rs: seq<RoleDef>, a: string, b: string, pool: string)
    requires pool in Targets(rs)
    ensures IsStatic(Crowded(rs, a, b), pool) && Referenced(Crowded(rs, a, b), pool)
  {
    var m := Crowded(rs, a, b);
    var i :| 0 <= i < |Targets(rs)| && Targets(rs)[i] == pool;
    assert m.staticPools[i] in m.staticPools && m.staticPools[i].name == pool;
    assert m.clusters[0] in m.clusters && pool in m.clusters[0].control;
  }

  lemma {:induction false} NoEndpoints(pools: seq<StaticPool>)
    requires forall s :: s in pools ==> s.nodes == []
    ensures AllEndpoints(pools) == []
  {
    if pools != [] {
      assert pools[|pools| - 1] in pools;
      NoEndpoints(pools[..|pools| - 1]);
    }
  }

  lemma CrowdedPools(rs: seq<RoleDef>, a: string, b: string)
    ensures NodePoolsOk(Crowded(rs, a, b))
  {
    var m := Crowded(rs, a, b);
    TargetsComplete(rs);
    forall s | s in m.staticPools ensures StaticOk(m, s) && s.nodes == [] {
      var i :| 0 <= i < |m.staticPools| && m.staticPools[i] == s;
      CrowdedStatic(rs, a, b, Targets(rs)[i]);
    }
    NoEndpoints(m.staticPools);
    assert DynamicNames(m) + StaticNames(m) == Targets(rs);
  }

  lemma CrowdedCluster(rs: seq<RoleDef>, a: string, b: string)
    ensures KubernetesOk(Crowded(rs, a, b))
  {
    var m := Crowded(rs, a, b);
    TargetsComplete(rs);
    forall p | p in Targets(rs) ensures Defined(m, p) {
      CrowdedStatic(rs, a, b, p);
    }
    assert ClusterNames(m.clusters) == ["c"];
    assert forall c :: c in m.clusters ==> c == m.clusters[0];
  }

  lemma CrowdedRoles(rs: seq<RoleDef>, a: string, b: string)
    requires RolesFine(rs)
    ensures RolesOk(Crowded(rs, a, b))
  {
    var m := Crowded(rs, a, b);
    TargetsComplete(rs);
    forall r, p | r in rs && p in r.targetPools ensures Defined(m, p) {
      CrowdedStatic(rs, a, b, p);
    }
  }

  /** With distinct names a role is found under its own. */
  lemma RoleFound(m: Manifest, r: RoleDef)
    requires Distinct(RoleNames(m.roles)) && r in m.roles
    ensures FindRole(m, r.name) == Some(r)
  {
    var i :| 0 <= i < |m.roles| && m.roles[i] == r;
    var s := FindRole(m, r.name).value;
    var j :| 0 <= j < |m.roles| && m.roles[j] == s;
    assert RoleNames(m.roles)[i] == RoleNames(m.roles)[j];
  }

  lemma CrowdedUse(rs: seq<RoleDef>, a: RoleDef, b: RoleDef, r: RoleDef, lb: LbCluster)
    requires RolesFine(rs) && r in rs && IsApi(r)
    requires lb in Crowded(rs, a.name, b.name).lbs && lb.roles == [r.name]
    ensures LbOk(Crowded(rs, a.name, b.name), lb)
  {
    var m := Crowded(rs, a.name, b.name);
    TargetsComplete(rs);
    ApiRoleMember(rs, r);
    RoleFound(m, r);
    assert lb == m.lbs[0] || lb == m.lbs[1];
    assert forall c :: c in m.clusters ==> c == m.clusters[0] && c.control == Targets(rs);
    assert RoleUseOk(m, lb, r.name);
    assert m.clusters[0] in m.clusters && m.clusters[0].name == lb.targetedK8s;
    assert m.providers.gcp[0] in m.providers.gcp && TYPE_ORDER[0] == Gcp;
  }

  lemma TwoBalancers(a: string, b: string, role: string)
    requires a != b
    ensures var lbs := [Balancer("a", a), Balancer("b", b)];
            Distinct(AllUses(lbs, role)) && AllClaims(lbs) == [] && Distinct(LbNames(lbs))
  {
    var x, y := Balancer("a", a), Balancer("b", b);
    var lbs := [x, y];
    assert lbs[..1] == [x] && [x][..0] == [] && AllUses([], role) == [] && AllClaims([]) == [];
    assert [a][..0] == [] && [b][..0] == [];
    assert AllUses([x], role) == UsesOf([a], role, "c") && AllClaims([x]) == [];
    assert AllUses(lbs, role) == UsesOf([a], role, "c") + UsesOf([b], role, "c");
    assert UsesOf([a], role, "c") == (if a == role then ["c"] else []);
    assert UsesOf([b], role, "c") == (if b == role then ["c"] else []);
    assert LbNames(lbs) == ["a", "b"];
  }

  lemma CrowdedAccepted(rs: seq<RoleDef>, a: RoleDef, b: RoleDef)
    requires RolesFine(rs) && a in rs && b in rs && IsApi(a) && IsApi(b) && a.name != b.name
    ensures Accepted(Crowded(rs, a.name, b.name))
  {
    var m := Crowded(rs, a.name, b.name);
    CrowdedPools(rs, a.name, b.name);
    CrowdedCluster(rs, a.name, b.name);
    CrowdedRoles(rs, a.name, b.name);
    CrowdedUse(rs, a, b, a, m.lbs[0]);
    CrowdedUse(rs, a, b, b, m.lbs[1]);
    TwoBalancers(a.name, b.name, ApiRole(rs).name);
  }

  lemma CrowdedTwice(rs: seq<RoleDef>, a: RoleDef, b: RoleDef)
    requires a in rs && b in rs && IsApi(a) && IsApi(b)
    ensures ApiUses(Crowded(rs, a.name, b.name), "c") == 2
  {
    var x, y, p := Balancer("a", a.name), Balancer("b", b.name), (n: string) => ApiName(rs, n);
    assert [x, y][..1] == [x] && [x][..0] == [];
    FilterAll([a.name], p);
    FilterAll([b.name], p);
    assert Uses([], p, "c") == 0;
    assert Uses([x], p, "c") == 1;
  }

  /** What the validation guarantees whatever manifest these roles are used in. */
  ghost predicate Guaranteed(rs: seq<RoleDef>)
  {
    forall m :: Accepted(m) && m.roles == rs ==> OneApiBalancer(m) && ApiOnControl(m)
  }

  /**
   One API server load balancer for each cluster, in front of control pools only: for roles
   that are fine in themselves, acceptance guarantees that exactly when at most one of them
   has the API server's target port.
   */
  lemma ApiServerExactly(rs: seq<RoleDef>)
    requires RolesFine(rs)
    ensures Guaranteed(rs) <==> AtMostOneApi(rs)
  {
    if AtMostOneApi(rs) {
      forall m | Accepted(m) && m.roles == rs ensures OneApiBalancer(m) && ApiOnControl(m) {
        OneRoleSuffices(m);
      }
    } else {
      var i, j :| 0 <= i < j < |rs| && IsApi(rs[i]) && IsApi(rs[j]);
      assert RoleNames(rs)[i] != RoleNames(rs)[j];
      var m := Crowded(rs, rs[i].name, rs[j].name);
      CrowdedAccepted(rs, rs[i], rs[j]);
      CrowdedTwice(rs, rs[i], rs[j]);
      assert !OneApiBalancer(m);
    }
  }

  /** Two load balancers in front of the API server of one cluster. */
  lemma TwoApiBalancers() returns (m: Manifest)
    ensures Accepted(m) && !OneApiBalancer(m)
  {
    var a := RoleDef("x", API_SERVER_PORT, API_SERVER_PORT, ["k"], true);
    var b := a.(name := "y");
    var rs := [a, b];
    m := Crowded(rs, "x", "y");
    assert RoleNames(rs) == ["x", "y"];
    CrowdedAccepted(rs, a, b);
    CrowdedTwice(rs, a, b);
  }
}
