/**
 Attribution of unreachable addresses: the nodes of a cluster and of its load balancers
 are pinged together, and each failing address is filed under the node pool it came from.
 */
module PingNodes {
  import opened Sequences
  import opened Spec
  import opened Merging
  import PingPool

  type NodeMap = map<string, string>

  // -------------------------------------------------------------- node maps

  /** Address to pool name; a later entry overwrites an earlier one. */
  function NodesOfPool(m: NodeMap, nodes: seq<Node>, pool: string): NodeMap
  {
    if nodes == [] then m
    else NodesOfPool(m, nodes[..|nodes| - 1], pool)[nodes[|nodes| - 1].publicIp := pool]
  }

  function NodesOf(pools: seq<NodePool>): NodeMap
  {
    if pools == [] then map[]
    else
      var last := pools[|pools| - 1];
      NodesOfPool(NodesOf(pools[..|pools| - 1]), last.nodes, last.name)
  }

  method CollectNodes(pools: seq<NodePool>) returns (m: NodeMap)
    ensures m == NodesOf(pools)
  {
    m := map[];
    for i := 0 to |pools|
      invariant m == NodesOf(pools[..i])
    {
      var nodes := pools[i].nodes;
      ghost var before := m;
      for k := 0 to |nodes|
        invariant m == NodesOfPool(before, nodes[..k], pools[i].name)
      {
        assert nodes[..k + 1][..k] == nodes[..k];
        m := m[nodes[k].publicIp := pools[i].name];
      }
      assert nodes[..|nodes|] == nodes;
      assert pools[..i + 1][..i] == pools[..i];
    }
    assert pools[..|pools|] == pools;
  }

  /** The pool holds a node with this address. */
  predicate Hosts(p: NodePool, ip: string)
  {
    exists n :: n in p.nodes && n.publicIp == ip
  }

  /** Equal addresses are never found in differently named pools. */
  ghost predicate OneHome(pools: seq<NodePool>)
  {
    forall p, q, ip :: p in pools && q in pools && Hosts(p, ip) && Hosts(q, ip) ==> p.name == q.name
  }

  lemma {:induction false} NodesOfPoolAt(m: NodeMap, nodes: seq<Node>, pool: string, ip: string)
    ensures var r := NodesOfPool(m, nodes, pool);
            if exists n :: n in nodes && n.publicIp == ip
            then ip in r && r[ip] == pool
            else (ip in r <==> ip in m) && (ip in r ==> r[ip] == m[ip])
  {
    if nodes != [] {
      var k := |nodes| - 1;
      NodesOfPoolAt(m, nodes[..k], pool, ip);
      assert nodes == nodes[..k] + [nodes[k]];
      if nodes[k].publicIp == ip {
        assert nodes[k] in nodes;
      }
    }
  }

  /** With one home per address the map sends every address to its own pool, and knows no other. */
  lemma {:induction false} NodesOfExact(pools: seq<NodePool>, ip: string)
    requires OneHome(pools)
    ensures ip in NodesOf(pools) <==> exists p :: p in pools && Hosts(p, ip)
    ensures forall p :: p in pools && Hosts(p, ip) ==> ip in NodesOf(pools) && NodesOf(pools)[ip] == p.name
  {
    if pools != [] {
      var k := |pools| - 1;
      var front, last := pools[..k], pools[k];
      assert pools == front + [last];
      assert forall p :: p in front ==> p in pools;
      NodesOfExact(front, ip);
      NodesOfPoolAt(NodesOf(front), last.nodes, last.name, ip);
      assert last in pools;
    }
  }

  /** Of several pools with an address the last one counts. */
  lemma {:induction false} NodesOfLatest(pools: seq<NodePool>, i: nat, ip: string)
    requires i < |pools| && Hosts(pools[i], ip) && forall k :: i < k < |pools| ==> !Hosts(pools[k], ip)
    ensures ip in NodesOf(pools) && NodesOf(pools)[ip] == pools[i].name
  {
    var k := |pools| - 1;
    NodesOfPoolAt(NodesOf(pools[..k]), pools[k].nodes, pools[k].name, ip);
    if i < k {
      NodesOfLatest(pools[..k], i, ip);
      assert !Hosts(pools[k], ip);
    }
  }

  // ----------------------------------------------------------------- filing

  function Listed(m: map<string, seq<string>>, pool: string): seq<string>
  {
    if pool in m then m[pool] else []
  }

  function ListedLb(m: map<string, map<string, seq<string>>>, lb: string, pool: string): seq<string>
  {
    if lb in m then Listed(m[lb], pool) else []
  }

  predicate InPool(nodes: NodeMap, ip: string, pool: string)
  {
    ip in nodes && nodes[ip] == pool
  }

  /** The addresses that end up under a pool of the Kubernetes cluster. */
  function K8sFiled(bad: seq<string>, k8s: NodeMap, pool: string): seq<string>
  {
    Filter(bad, ip => InPool(k8s, ip, pool))
  }

  /** The addresses that end up under a pool of a load balancer: the Kubernetes cluster has priority. */
  function LbFiled(bad: seq<string>, k8s: NodeMap, nodes: NodeMap, pool: string): seq<string>
  {
    Filter(bad, ip => ip !in k8s && InPool(nodes, ip, pool))
  }

  /** Files one address under every load balancer that knows it, visiting them in any order. */
  method FileUnderLbs(ip: string, lbs: map<string, NodeMap>, filed: map<string, map<string, seq<string>>>)
    returns (out: map<string, map<string, seq<string>>>)
    ensures forall lb, pool :: lb in lbs ==>
              ListedLb(out, lb, pool) == ListedLb(filed, lb, pool) + (if InPool(lbs[lb], ip, pool) then [ip] else [])
    ensures forall lb :: lb !in lbs ==> (lb in out <==> lb in filed) && (lb in out ==> out[lb] == filed[lb])
  {
    out := filed;
    var todo := lbs.Keys;
    while todo != {}
      invariant todo <= lbs.Keys
      invariant forall lb :: lb in todo || lb !in lbs ==> (lb in out <==> lb in filed) && (lb in out ==> out[lb] == filed[lb])
      invariant forall lb, pool :: lb in lbs && lb !in todo ==>
                  ListedLb(out, lb, pool) == ListedLb(filed, lb, pool) + (if InPool(lbs[lb], ip, pool) then [ip] else [])
      decreases |todo|
    {
      var lb :| lb in todo;
      if ip in lbs[lb] {
        var pool := lbs[lb][ip];
        var inner := if lb in out then out[lb] else map[];
        out := out[lb := inner[pool := Listed(inner, pool) + [ip]]];
      }
      todo := todo - {lb};
    }
  }

  method FileUnreachable(bad: seq<string>, k8s: NodeMap, lbs: map<string, NodeMap>)
    returns (k8sip: map<string, seq<string>>, lbsip: map<string, map<string, seq<string>>>)
    ensures forall pool :: Listed(k8sip, pool) == K8sFiled(bad, k8s, pool)
    ensures forall lb, pool :: lb in lbs ==> ListedLb(lbsip, lb, pool) == LbFiled(bad, k8s, lbs[lb], pool)
    ensures lbsip.Keys <= lbs.Keys
  {
    k8sip, lbsip := map[], map[];
    for i := 0 to |bad|
      invariant forall pool :: Listed(k8sip, pool) == K8sFiled(bad[..i], k8s, pool)
      invariant forall lb, pool :: lb in lbs ==> ListedLb(lbsip, lb, pool) == LbFiled(bad[..i], k8s, lbs[lb], pool)
      invariant lbsip.Keys <= lbs.Keys
    {
      var ip := bad[i];
      forall pool ensures K8sFiled(bad[..i + 1], k8s, pool)
                          == K8sFiled(bad[..i], k8s, pool) + (if InPool(k8s, ip, pool) then [ip] else [])
      {
        FilterSnoc(bad, i, ip => InPool(k8s, ip, pool));
      }
      forall lb, pool | lb in lbs
        ensures LbFiled(bad[..i + 1], k8s, lbs[lb], pool)
                == LbFiled(bad[..i], k8s, lbs[lb], pool) + (if ip !in k8s && InPool(lbs[lb], ip, pool) then [ip] else [])
      {
        FilterSnoc(bad, i, ip => ip !in k8s && InPool(lbs[lb], ip, pool));
      }
      if ip in k8s {
        ghost var before := k8sip;
        k8sip := k8sip[k8s[ip] := Listed(k8sip, k8s[ip]) + [ip]];
        forall pool
          ensures Listed(k8sip, pool) == Listed(before, pool) + (if InPool(k8s, ip, pool) then [ip] else [])
        {
        }
      } else {
        var out := FileUnderLbs(ip, lbs, lbsip);
        lbsip := out;
      }
    }
    assert bad[..|bad|] == bad;
  }

  // -------------------------------------------------------------- addresses

  /** Appends the keys of a map in some order. */
  method AppendKeys(ips: seq<string>, nodes: NodeMap) returns (out: seq<string>)
    ensures ips <= out
    ensures forall x :: x in out <==> x in ips || x in nodes
    ensures Distinct(ips) && (forall x :: x in nodes ==> x !in ips) ==> Distinct(out)
  {
    out := ips;
    var todo := nodes.Keys;
    while todo != {}
      invariant todo <= nodes.Keys && ips <= out
      invariant forall x :: x in out <==> x in ips || (x in nodes && x !in todo)
      invariant Distinct(ips) && (forall x :: x in nodes ==> x !in ips) ==> Distinct(out)
      decreases |todo|
    {
      var x :| x in todo;
      out, todo := out + [x], todo - {x};
    }
  }

  /** No address belongs to two of the clusters. */
  ghost predicate Apart(k8s: NodeMap, lbs: map<string, NodeMap>)
  {
    && (forall lb, x :: lb in lbs && x in lbs[lb] ==> x !in k8s)
    && (forall a, b, x :: a in lbs && b in lbs && x in lbs[a] && x in lbs[b] ==> a == b)
  }

  /** The list that is pinged: all addresses, each once when the clusters share none. */
  method ListAddresses(k8s: NodeMap, lbs: map<string, NodeMap>) returns (ips: seq<string>)
    ensures forall x :: x in ips <==> x in k8s || exists lb :: lb in lbs && x in lbs[lb]
    ensures Apart(k8s, lbs) ==> Distinct(ips)
  {
    ips := AppendKeys([], k8s);
    var todo := lbs.Keys;
    while todo != {}
      invariant todo <= lbs.Keys
      invariant forall x :: x in ips <==> x in k8s || exists lb :: lb in lbs && lb !in todo && x in lbs[lb]
      invariant Apart(k8s, lbs) ==> Distinct(ips)
      decreases |todo|
    {
      var lb :| lb in todo;
      ips := AppendKeys(ips, lbs[lb]);
      todo := todo - {lb};
    }
  }

  // ------------------------------------------------------------ attribution

  lemma {:induction false} CountOfFilter(s: seq<string>, p: string -> bool, x: string)
    ensures multiset(Filter(s, p))[x] == if p(x) then multiset(s)[x] else 0
  {
    if s != [] {
      CountOfFilter(s[1..], p, x);
      assert s == [s[0]] + s[1..];
    }
  }

  lemma {:induction false} CountOfDistinct(s: seq<string>, x: string)
    requires Distinct(s)
    ensures multiset(s)[x] == if x in s then 1 else 0
  {
    if s != [] {
      DistinctTail(s);
      CountOfDistinct(s[1..], x);
      assert s == [s[0]] + s[1..];
    }
  }

  function At(ips: seq<string>, i: nat): string
  {
    if i < |ips| then ips[i] else ""
  }

  function Addresses(ips: seq<string>, items: seq<nat>): seq<string>
  {
    if items == [] then [] else [At(ips, items[0])] + Addresses(ips, items[1..])
  }

  lemma {:induction false} AddressesAppend(ips: seq<string>, a: seq<nat>, b: seq<nat>)
    ensures Addresses(ips, a + b) == Addresses(ips, a) + Addresses(ips, b)
  {
    if a == [] {
      assert a + b == b;
    } else {
      assert (a + b)[1..] == a[1..] + b;
      AddressesAppend(ips, a[1..], b);
    }
  }

  lemma AddressesHead(ips: seq<string>, a: seq<nat>)
    requires a != []
    ensures multiset(Addresses(ips, a)) == multiset{At(ips, a[0])} + multiset(Addresses(ips, a[1..]))
  {
  }

  lemma MoveFront(f: multiset<string>, x: string, b: multiset<string>)
    ensures f + (multiset{x} + b) == multiset{x} + (f + b)
  {
  }

  /** Taking one item out takes its address out. */
  lemma AddressesWithout(ips: seq<string>, b: seq<nat>, k: nat)
    requires k < |b|
    ensures multiset(Addresses(ips, b)) == multiset{At(ips, b[k])} + multiset(Addresses(ips, b[..k] + b[k + 1..]))
  {
    var front, back := b[..k], b[k + 1..];
    var f, g := Addresses(ips, front), Addresses(ips, back);
    AddressesAppend(ips, front, back);
    AddressesAppend(ips, front, b[k..]);
    assert b == front + b[k..] && b[k..][1..] == back;
    AddressesHead(ips, b[k..]);
    assert multiset(Addresses(ips, b)) == multiset(f) + (multiset{At(ips, b[k])} + multiset(g));
    MoveFront(multiset(f), At(ips, b[k]), multiset(g));
  }

  /** Two lists of the same items agree on the rest once the first item is taken out of both. */
  lemma TakeOut(a: seq<nat>, b: seq<nat>) returns (k: nat)
    requires a != [] && multiset(a) == multiset(b)
    ensures k < |b| && b[k] == a[0] && multiset(a[1..]) == multiset(b[..k] + b[k + 1..])
  {
    assert a[0] in multiset(b);
    k :| k < |b| && b[k] == a[0];
    assert a == [a[0]] + a[1..];
    assert b == b[..k] + [b[k]] + b[k + 1..];
    assert multiset(b) == multiset(b[..k] + b[k + 1..]) + multiset{a[0]};
    assert multiset(a) == multiset(a[1..]) + multiset{a[0]};
    PingPool.SameItem(multiset(b[..k] + b[k + 1..]), multiset(a[1..]), multiset{a[0]});
  }

  /** Reordering the items only reorders the addresses. */
  lemma {:induction false} AddressesPermute(ips: seq<string>, a: seq<nat>, b: seq<nat>)
    requires multiset(a) == multiset(b)
    ensures multiset(Addresses(ips, a)) == multiset(Addresses(ips, b))
  {
    if a == [] {
      assert |multiset(b)| == |b|;
    } else {
      var k := TakeOut(a, b);
      AddressesPermute(ips, a[1..], b[..k] + b[k + 1..]);
      AddressesHead(ips, a);
      AddressesWithout(ips, b, k);
    }
  }

  function JobOf(ips: seq<string>, fails: string -> bool): PingPool.Job
  {
    PingPool.Job(|ips|, (i: nat) => fails(At(ips, i)))
  }

  lemma {:induction false} AddressesOfFailing(ips: seq<string>, fails: string -> bool, n: nat)
    requires n <= |ips|
    ensures Addresses(ips, Filter(PingPool.Range(n), JobOf(ips, fails).fails)) == Filter(ips[..n], fails)
  {
    if n > 0 {
      var last: nat := n - 1;
      var r, g := PingPool.Range(n), JobOf(ips, fails).fails;
      AddressesOfFailing(ips, fails, last);
      assert r[..last] == PingPool.Range(last) && r[..last + 1] == r;
      FilterSnoc(r, last, g);
      FilterSnoc(ips, last, fails);
      assert r[last] == last;
      assert g(last) == fails(At(ips, last));
      if fails(ips[last]) {
        assert Filter(r, g) == Filter(r[..last], g) + [last];
        AddressesAppend(ips, Filter(r[..last], g), [last]);
        assert Addresses(ips, [last]) == [ips[last]];
      } else {
        assert Filter(r, g) == Filter(r[..last], g);
      }
    }
  }

  /** What pinging the listed addresses may bring back. */
  ghost predicate Pinged(ips: seq<string>, fails: string -> bool, workers: int, bad: seq<string>)
  {
    exists r :: PingPool.Returns(JobOf(ips, fails), workers, r) && bad == Addresses(ips, r)
  }

  lemma PingedFailing(ips: seq<string>, fails: string -> bool, workers: int, bad: seq<string>)
    requires workers >= 1 && Pinged(ips, fails, workers, bad)
    ensures multiset(bad) == multiset(Filter(ips, fails))
  {
    var j := JobOf(ips, fails);
    var r :| PingPool.Returns(j, workers, r) && bad == Addresses(ips, r);
    PingPool.ReturnsFailures(j, workers, r);
    AddressesPermute(ips, r, Filter(PingPool.Range(|ips|), j.fails));
    AddressesOfFailing(ips, fails, |ips|);
    assert ips[..|ips|] == ips;
  }

  /**
   With distinct addresses, every address of a Kubernetes pool is filed under that pool
   exactly once if it failed and nowhere if it answered.
   */
  lemma K8sAttribution(pools: seq<NodePool>, ips: seq<string>, fails: string -> bool, workers: int,
                       bad: seq<string>, p: NodePool, pool: string, ip: string)
    requires OneHome(pools) && p in pools && Hosts(p, ip)
    requires Distinct(ips) && forall x :: x in NodesOf(pools) ==> x in ips
    requires workers >= 1 && Pinged(ips, fails, workers, bad)
    ensures multiset(K8sFiled(bad, NodesOf(pools), pool))[ip] == if pool == p.name && fails(ip) then 1 else 0
  {
    NodesOfExact(pools, ip);
    PingedFailing(ips, fails, workers, bad);
    CountOfFilter(bad, x => InPool(NodesOf(pools), x, pool), ip);
    CountOfFilter(ips, fails, ip);
    CountOfDistinct(ips, ip);
  }

  /** The same for the nodes of a load balancer whose addresses the Kubernetes cluster does not use. */
  lemma LbAttribution(k8s: NodeMap, pools: seq<NodePool>, ips: seq<string>, fails: string -> bool,
                      workers: int, bad: seq<string>, p: NodePool, pool: string, ip: string)
    requires OneHome(pools) && p in pools && Hosts(p, ip)
    requires Distinct(ips) && forall x :: x in NodesOf(pools) ==> x in ips
    requires workers >= 1 && Pinged(ips, fails, workers, bad)
    ensures multiset(LbFiled(bad, k8s, NodesOf(pools), pool))[ip]
            == if ip !in k8s && pool == p.name && fails(ip) then 1 else 0
  {
    NodesOfExact(pools, ip);
    PingedFailing(ips, fails, workers, bad);
    CountOfFilter(bad, x => x !in k8s && InPool(NodesOf(pools), x, pool), ip);
    CountOfFilter(ips, fails, ip);
    CountOfDistinct(ips, ip);
  }

  // ------------------------------------------------------------------ end to end

  /** The node maps of the load balancers; a later one with the same ID replaces an earlier one. */
  function LbNodes(lbs: seq<Lb>): map<string, NodeMap>
  {
    if lbs == [] then map[]
    else LbNodes(lbs[..|lbs| - 1])[lbs[|lbs| - 1].Id() := NodesOf(lbs[|lbs| - 1].info.nodePools)]
  }

  method CollectLbNodes(lbs: seq<Lb>) returns (m: map<string, NodeMap>)
    ensures m == LbNodes(lbs)
  {
    m := map[];
    for i := 0 to |lbs|
      invariant m == LbNodes(lbs[..i])
    {
      assert lbs[..i + 1][..i] == lbs[..i];
      var nodes := CollectNodes(lbs[i].info.nodePools);
      m := m[lbs[i].Id() := nodes];
    }
    assert lbs[..|lbs|] == lbs;
  }

  /** No later load balancer has the ID of the one at this position. */
  predicate LastOfId(lbs: seq<Lb>, i: nat)
  {
    i < |lbs| && forall k :: i < k < |lbs| ==> Ids(lbs)[k] != lbs[i].Id()
  }

  lemma LastInFront(lbs: seq<Lb>, i: nat)
    requires LastOfId(lbs, i) && i < |lbs| - 1
    ensures LastOfId(lbs[..|lbs| - 1], i) && lbs[|lbs| - 1].Id() != lbs[i].Id()
  {
    var front := lbs[..|lbs| - 1];
    assert Ids(front) == Ids(lbs)[..|front|];
    assert Ids(lbs)[|lbs| - 1] == lbs[|lbs| - 1].Id();
  }

  /** Of several load balancers with an ID the last one counts. */
  lemma {:induction false} LbNodesLatest(lbs: seq<Lb>, i: nat)
    requires LastOfId(lbs, i)
    ensures lbs[i].Id() in LbNodes(lbs) && LbNodes(lbs)[lbs[i].Id()] == NodesOf(lbs[i].info.nodePools)
  {
    if i < |lbs| - 1 {
      LastInFront(lbs, i);
      LbNodesLatest(lbs[..|lbs| - 1], i);
    }
  }

  lemma {:induction false} LbNodesKeys(lbs: seq<Lb>)
    ensures forall id :: id in LbNodes(lbs) ==> id in Ids(lbs)
  {
    if lbs != [] {
      var k := |lbs| - 1;
      LbNodesKeys(lbs[..k]);
      assert Ids(lbs) == Ids(lbs[..k]) + [lbs[k].Id()];
    }
  }

  lemma DistinctIsLast(lbs: seq<Lb>, i: nat)
    requires Distinct(Ids(lbs)) && i < |lbs|
    ensures LastOfId(lbs, i)
  {
    var ids := Ids(lbs);
    assert ids[i] == lbs[i].Id();
  }

  lemma OwnNodes(lbs: seq<Lb>, i: nat)
    requires Distinct(Ids(lbs)) && i < |lbs|
    ensures lbs[i].Id() in LbNodes(lbs) && LbNodes(lbs)[lbs[i].Id()] == NodesOf(lbs[i].info.nodePools)
  {
    DistinctIsLast(lbs, i);
    LbNodesLatest(lbs, i);
  }

  /** With distinct IDs each load balancer has its own map, and there is no other. */
  lemma LbNodesExact(lbs: seq<Lb>)
    requires Distinct(Ids(lbs))
    ensures forall lb :: lb in lbs ==> lb.Id() in LbNodes(lbs) && LbNodes(lbs)[lb.Id()] == NodesOf(lb.info.nodePools)
    ensures forall id :: id in LbNodes(lbs) ==> exists lb :: lb in lbs && lb.Id() == id
  {
    forall lb | lb in lbs ensures lb.Id() in LbNodes(lbs) && LbNodes(lbs)[lb.Id()] == NodesOf(lb.info.nodePools) {
      var i :| 0 <= i < |lbs| && lbs[i] == lb;
      OwnNodes(lbs, i);
    }
    LbNodesKeys(lbs);
    forall id | id in LbNodes(lbs) ensures exists lb :: lb in lbs && lb.Id() == id {
      var i :| 0 <= i < |lbs| && Ids(lbs)[i] == id;
      assert lbs[i] in lbs;
    }
  }

  predicate HostsAny(pools: seq<NodePool>, ip: string)
  {
    exists p :: p in pools && Hosts(p, ip)
  }

  /** Every address belongs to one pool of one cluster, and the load balancers have distinct IDs. */
  ghost predicate WellPlaced(k8s: seq<NodePool>, lbs: seq<Lb>)
  {
    && Distinct(Ids(lbs)) && OneHome(k8s)
    && (forall lb :: lb in lbs ==> OneHome(lb.info.nodePools))
    && (forall lb, ip :: lb in lbs && HostsAny(lb.info.nodePools, ip) ==> !HostsAny(k8s, ip))
    && (forall a, b, ip :: a in lbs && b in lbs && HostsAny(a.info.nodePools, ip) && HostsAny(b.info.nodePools, ip) ==>
          a == b)
  }

  lemma KnownExactly(pools: seq<NodePool>)
    requires OneHome(pools)
    ensures forall ip :: ip in NodesOf(pools) <==> HostsAny(pools, ip)
  {
    forall ip ensures ip in NodesOf(pools) <==> HostsAny(pools, ip) {
      NodesOfExact(pools, ip);
    }
  }

  lemma PlacedApart(k8s: seq<NodePool>, lbs: seq<Lb>)
    requires WellPlaced(k8s, lbs)
    ensures Apart(NodesOf(k8s), LbNodes(lbs))
  {
    LbNodesExact(lbs);
    KnownExactly(k8s);
    forall lb | lb in lbs ensures forall ip :: ip in NodesOf(lb.info.nodePools) <==> HostsAny(lb.info.nodePools, ip) {
      KnownExactly(lb.info.nodePools);
    }
  }

  /** A pool of this name holds the address. */
  predicate HostedUnder(pools: seq<NodePool>, pool: string, ip: string)
  {
    exists p :: p in pools && p.name == pool && Hosts(p, ip)
  }

  /** The list of a Kubernetes pool holds each of its own failed addresses once, and nothing else. */
  ghost predicate K8sRight(k8s: seq<NodePool>, fails: string -> bool, k8sip: map<string, seq<string>>)
  {
    forall pool, ip :: multiset(Listed(k8sip, pool))[ip] == if HostedUnder(k8s, pool, ip) && fails(ip) then 1 else 0
  }

  ghost predicate LbRight(lb: Lb, fails: string -> bool, lbsip: map<string, map<string, seq<string>>>)
  {
    forall pool, ip :: multiset(ListedLb(lbsip, lb.Id(), pool))[ip] ==
                       if HostedUnder(lb.info.nodePools, pool, ip) && fails(ip) then 1 else 0
  }

  lemma K8sFiledRight(k8s: seq<NodePool>, ips: seq<string>, fails: string -> bool, workers: int, bad: seq<string>,
                      k8sip: map<string, seq<string>>)
    requires OneHome(k8s) && Distinct(ips) && forall x :: x in NodesOf(k8s) ==> x in ips
    requires workers >= 1 && Pinged(ips, fails, workers, bad)
    requires forall pool :: Listed(k8sip, pool) == K8sFiled(bad, NodesOf(k8s), pool)
    ensures K8sRight(k8s, fails, k8sip)
  {
    forall pool, ip
      ensures multiset(Listed(k8sip, pool))[ip] == if HostedUnder(k8s, pool, ip) && fails(ip) then 1 else 0
    {
      NodesOfExact(k8s, ip);
      if p :| p in k8s && Hosts(p, ip) {
        K8sAttribution(k8s, ips, fails, workers, bad, p, pool, ip);
      } else {
        CountOfFilter(bad, x => InPool(NodesOf(k8s), x, pool), ip);
      }
    }
  }

  lemma LbFiledRight(k8s: NodeMap, lb: Lb, ips: seq<string>, fails: string -> bool, workers: int, bad: seq<string>,
                     lbsip: map<string, map<string, seq<string>>>)
    requires OneHome(lb.info.nodePools) && Distinct(ips)
    requires forall x :: x in NodesOf(lb.info.nodePools) ==> x in ips && x !in k8s
    requires workers >= 1 && Pinged(ips, fails, workers, bad)
    requires forall pool :: ListedLb(lbsip, lb.Id(), pool) == LbFiled(bad, k8s, NodesOf(lb.info.nodePools), pool)
    ensures LbRight(lb, fails, lbsip)
  {
    var pools := lb.info.nodePools;
    forall pool, ip
      ensures multiset(ListedLb(lbsip, lb.Id(), pool))[ip] ==
              if HostedUnder(pools, pool, ip) && fails(ip) then 1 else 0
    {
      NodesOfExact(pools, ip);
      if p :| p in pools && Hosts(p, ip) {
        LbAttribution(k8s, pools, ips, fails, workers, bad, p, pool, ip);
      } else {
        CountOfFilter(bad, x => x !in k8s && InPool(NodesOf(pools), x, pool), ip);
      }
    }
  }

  /** There is always an answer that the pool of workers may give. */
  lemma SomethingPinged(ips: seq<string>, fails: string -> bool, workers: int) returns (bad: seq<string>)
    ensures Pinged(ips, fails, workers, bad)
  {
    var r := PingPool.SomethingReturned(JobOf(ips, fails), workers);
    bad := Addresses(ips, r);
  }

  /**
   Pings all nodes and files the failures.  `ping` is any way the pool of workers may answer
   for a list of addresses.
   */
  method PingNodes(k8s: seq<NodePool>, lbs: seq<Lb>, ping: seq<string> -> seq<string>,
                   ghost fails: string -> bool, ghost workers: int)
    returns (k8sip: map<string, seq<string>>, lbsip: map<string, map<string, seq<string>>>)
    requires workers >= 1 && forall ips :: Pinged(ips, fails, workers, ping(ips))
    ensures WellPlaced(k8s, lbs) ==> K8sRight(k8s, fails, k8sip) && forall lb :: lb in lbs ==> LbRight(lb, fails, lbsip)
    ensures forall id :: id in lbsip ==> id in Ids(lbs)
  {
    var k8sNodes := CollectNodes(k8s);
    var lbsNodes := CollectLbNodes(lbs);
    var ips := ListAddresses(k8sNodes, lbsNodes);
    var bad := ping(ips);
    k8sip, lbsip := FileUnreachable(bad, k8sNodes, lbsNodes);
    LbNodesKeys(lbs);
    if WellPlaced(k8s, lbs) {
      PlacedApart(k8s, lbs);
      LbNodesExact(lbs);
      K8sFiledRight(k8s, ips, fails, workers, bad, k8sip);
      forall lb | lb in lbs ensures LbRight(lb, fails, lbsip) {
        LbFiledRight(k8sNodes, lb, ips, fails, workers, bad, lbsip);
      }
    }
  }
}
