/**
 The nodes of dynamic pools.  A new pool announces a number of nodes; the manager then
 generates the missing ones, each under the lowest index that is still free.
 */
module Population {
  import opened Sequences
  import opened Spec
  import opened PoolValues
  import opened Manifests
  import Naming
  import NodePools
  import ManifestLaws

  /** No more names than a one-byte index can tell apart. */
  const MAX_NODES: nat := 255

  // -------------------------------------------------------------- unique names

  function Candidate(id: string, index: nat): string
  {
    id + "-" + Naming.Hex2(index)
  }

  lemma CandidatesDiffer(id: string, i: nat, j: nat)
    ensures Candidate(id, i) == Candidate(id, j) <==> i == j
  {
    var n := |id| + 1;
    assert Candidate(id, i)[n..] == Naming.Hex2(i) && Candidate(id, j)[n..] == Naming.Hex2(j);
    Naming.NumberOfHex(i);
    Naming.NumberOfHex(j);
  }

  /** The first index from `i` on whose name is free; 256 if there is none. */
  function FirstFree(id: string, names: set<string>, i: nat): (r: nat)
    requires i <= 256
    ensures i <= r <= 256
    ensures r < 256 ==> Candidate(id, r) !in names
    ensures forall k :: i <= k < r ==> Candidate(id, k) in names
    decreases 256 - i
  {
    if i == 256 || Candidate(id, i) !in names then i else FirstFree(id, names, i + 1)
  }

  function Candidates(id: string, n: nat): set<string>
  {
    if n == 0 then {} else Candidates(id, n - 1) + {Candidate(id, n)}
  }

  lemma {:induction false} CandidateMember(id: string, n: nat, x: string)
    requires x in Candidates(id, n)
    ensures exists k :: 1 <= k <= n && Candidate(id, k) == x
  {
    if x != Candidate(id, n) {
      CandidateMember(id, n - 1, x);
    }
  }

  lemma {:induction false} CandidatesCount(id: string, n: nat)
    ensures |Candidates(id, n)| == n
  {
    if n > 0 {
      CandidatesCount(id, n - 1);
      if Candidate(id, n) in Candidates(id, n - 1) {
        CandidateMember(id, n - 1, Candidate(id, n));
        var k :| 1 <= k <= n - 1 && Candidate(id, k) == Candidate(id, n);
        CandidatesDiffer(id, k, n);
      }
    }
  }

  lemma SubsetCount(a: set<string>, b: set<string>)
    requires a <= b
    ensures |a| <= |b|
  {
    assert b == a + (b - a);
  }

  /** With fewer names than indices one index is free, so the search ends before the index wraps. */
  lemma RoomLeft(id: string, names: set<string>)
    requires |names| < MAX_NODES
    ensures FirstFree(id, names, 1) <= MAX_NODES
  {
    if FirstFree(id, names, 1) == 256 {
      forall x | x in Candidates(id, MAX_NODES) ensures x in names {
        CandidateMember(id, MAX_NODES, x);
      }
      CandidatesCount(id, MAX_NODES);
      SubsetCount(Candidates(id, MAX_NODES), names);
    }
  }

  function NextName(id: string, names: set<string>): string
  {
    Candidate(id, FirstFree(id, names, 1))
  }

  /** Returns a free name and records it; gives up when all indices may be taken. */
  method UniqueNodeName(id: string, names: set<string>) returns (name: Option<string>, now: set<string>)
    ensures name.None? <==> |names| >= MAX_NODES
    ensures name.None? ==> now == names
    ensures name.Some? ==> name.value == NextName(id, names) && name.value !in names && now == names + {name.value}
  {
    if |names| + 1 > MAX_NODES {
      return None, names;
    }
    RoomLeft(id, names);
    var index := 1;
    while Candidate(id, index) in names
      invariant 1 <= index <= FirstFree(id, names, 1)
      decreases FirstFree(id, names, 1) - index
    {
      index := (index + 1) % 256;
    }
    name := Some(Candidate(id, index));
    now := names + {Candidate(id, index)};
  }

  // ------------------------------------------------------------------ one pool

  function NamesIn(nodes: seq<Node>): set<string>
  {
    set n | n in nodes :: n.name
  }

  function NewNode(id: string, names: set<string>, isControl: bool): Node
  {
    Node(NextName(id, names), "", "", if isControl then Master else Worker, "")
  }

  /** The node list after generating nodes up to the target, and whether the names sufficed. */
  function Grown(nodes: seq<Node>, target: int, id: string, isControl: bool): (seq<Node>, bool)
    decreases target - |nodes|
  {
    if |nodes| >= target then (nodes, true)
    else if |NamesIn(nodes)| >= MAX_NODES then (nodes, false)
    else Grown(nodes + [NewNode(id, NamesIn(nodes), isControl)], target, id, isControl)
  }

  function PoolId(clusterId: string, pool: string): string
  {
    clusterId + "-" + pool
  }

  function Populated(p: NodePool, clusterId: string): (NodePool, bool)
    requires p.kind.Dynamic?
  {
    var g := Grown(p.nodes, p.kind.count, PoolId(clusterId, p.name), p.isControl);
    (p.(nodes := g.0), g.1)
  }

  lemma NamesSnoc(nodes: seq<Node>, n: Node)
    ensures NamesIn(nodes + [n]) == NamesIn(nodes) + {n.name}
  {
    assert forall x :: x in nodes + [n] <==> x in nodes || x == n;
  }

  method CollectNames(nodes: seq<Node>) returns (names: set<string>)
    ensures names == NamesIn(nodes)
  {
    names := {};
    for i := 0 to |nodes|
      invariant names == NamesIn(nodes[..i])
    {
      assert nodes[..i + 1] == nodes[..i] + [nodes[i]];
      NamesSnoc(nodes[..i], nodes[i]);
      names := names + {nodes[i].name};
    }
    assert nodes[..|nodes|] == nodes;
  }

  /** Generates the missing nodes in place; the count stays.  The result tells whether the names sufficed. */
  method PopulateDynamicNodes(clusterId: string, pool: NodePools.Pool) returns (ok: bool)
    requires pool.kind.Dynamic?
    modifies pool
    ensures (pool.Value(), ok) == Populated(old(pool.Value()), clusterId)
  {
    var names := CollectNames(pool.nodes);
    var id := PoolId(clusterId, pool.name);
    ghost var all := Grown(pool.nodes, pool.kind.count, id, pool.isControl);
    while |pool.nodes| < pool.kind.count
      invariant pool.kind == old(pool.kind) && names == NamesIn(pool.nodes)
      invariant all == Grown(pool.nodes, pool.kind.count, id, pool.isControl)
      decreases pool.kind.count - |pool.nodes|
    {
      var next, now := UniqueNodeName(id, names);
      if next.None? {
        return false;
      }
      var n := Node(next.value, "", "", if pool.isControl then Master else Worker, "");
      NamesSnoc(pool.nodes, n);
      pool.nodes, names := pool.nodes + [n], now;
    }
    ok := true;
  }

  /** The position holds a generated node: its name is the lowest one free at that point. */
  predicate Generated(nodes: seq<Node>, k: nat, id: string, isControl: bool)
    requires k < |nodes|
  {
    nodes[k] == NewNode(id, NamesIn(nodes[..k]), isControl) && nodes[k].name !in NamesIn(nodes[..k])
  }

  /** From position `from` on the list was generated. */
  predicate GeneratedFrom(nodes: seq<Node>, from: nat, id: string, isControl: bool)
  {
    forall k :: from <= k < |nodes| ==> Generated(nodes, k, id, isControl)
  }

  lemma GeneratedOneMore(nodes: seq<Node>, r: seq<Node>, id: string, isControl: bool)
    requires nodes + [NewNode(id, NamesIn(nodes), isControl)] <= r
    requires NextName(id, NamesIn(nodes)) !in NamesIn(nodes)
    requires GeneratedFrom(r, |nodes| + 1, id, isControl)
    ensures nodes <= r && GeneratedFrom(r, |nodes|, id, isControl)
  {
    var n := NewNode(id, NamesIn(nodes), isControl);
    assert r[..|nodes|] == (nodes + [n])[..|nodes|] == nodes && r[|nodes|] == n;
  }

  /** What is there stays in front; the rest is generated; names run out exactly when there are too few. */
  lemma {:induction false} GrownShape(nodes: seq<Node>, target: int, id: string, isControl: bool)
    ensures var (r, ok) := Grown(nodes, target, id, isControl);
            && nodes <= r && GeneratedFrom(r, |nodes|, id, isControl)
            && (ok <==> |nodes| >= target || |NamesIn(nodes)| + target - |nodes| <= MAX_NODES)
            && |r| == (if |nodes| >= target then |nodes| else if ok then target else |nodes| + MaxMore(nodes))
            && (!ok ==> |r| < target)
    decreases target - |nodes|
  {
    if |nodes| < target && |NamesIn(nodes)| < MAX_NODES {
      var n := NewNode(id, NamesIn(nodes), isControl);
      RoomLeft(id, NamesIn(nodes));
      NamesSnoc(nodes, n);
      GrownShape(nodes + [n], target, id, isControl);
      GeneratedOneMore(nodes, Grown(nodes, target, id, isControl).0, id, isControl);
    }
  }

  /** How many more names there are to give. */
  function MaxMore(nodes: seq<Node>): nat
  {
    if |NamesIn(nodes)| >= MAX_NODES then 0 else MAX_NODES - |NamesIn(nodes)|
  }

  lemma NameMember(nodes: seq<Node>, x: string)
    ensures x in NamesIn(nodes) <==> x in NodeNames(nodes)
  {
    var l := NodeNames(nodes);
    if x in NamesIn(nodes) {
      var n :| n in nodes && n.name == x;
      var i :| 0 <= i < |nodes| && nodes[i] == n;
      assert l[i] == x;
    }
    if x in l {
      var i :| 0 <= i < |l| && l[i] == x;
      assert nodes[i] in nodes;
    }
  }

  /** Generating nodes neither removes nor adds a clash of names. */
  lemma {:induction false} GrownDistinct(nodes: seq<Node>, target: int, id: string, isControl: bool)
    ensures Distinct(NodeNames(Grown(nodes, target, id, isControl).0)) <==> Distinct(NodeNames(nodes))
    decreases target - |nodes|
  {
    if |nodes| < target && |NamesIn(nodes)| < MAX_NODES {
      var n := NewNode(id, NamesIn(nodes), isControl);
      RoomLeft(id, NamesIn(nodes));
      GrownDistinct(nodes + [n], target, id, isControl);
      NameMember(nodes, n.name);
      var l := NodeNames(nodes + [n]);
      assert l == NodeNames(nodes) + [n.name] && l[..|nodes|] == NodeNames(nodes) && l[..|nodes| + 1] == l;
      DistinctSnoc(l, |nodes|);
    }
  }

  lemma {:induction false} DistinctNames(nodes: seq<Node>)
    requires Distinct(NodeNames(nodes))
    ensures |NamesIn(nodes)| == |nodes|
  {
    if nodes != [] {
      var k := |nodes| - 1;
      var front := nodes[..k];
      assert NodeNames(front) == NodeNames(nodes)[..k];
      DistinctNames(front);
      assert nodes == front + [nodes[k]];
      NamesSnoc(front, nodes[k]);
      NameMember(front, nodes[k].name);
      assert forall i :: 0 <= i < k ==> NodeNames(nodes)[i] != NodeNames(nodes)[k];
    }
  }

  /** There is nothing to generate, or there are names enough for it. */
  predicate HasRoom(p: NodePool)
    requires p.kind.Dynamic?
  {
    |p.nodes| >= p.kind.count || |NamesIn(p.nodes)| + p.kind.count - |p.nodes| <= MAX_NODES
  }

  /**
   Populating a pool keeps everything but the list, which it only extends.  It succeeds exactly
   when there is room, and leaves the pool in sync exactly when it was before or when it had
   room and no more nodes than it announces.
   */
  lemma PopulatedExactly(p: NodePool, clusterId: string)
    requires p.kind.Dynamic?
    ensures var (q, ok) := Populated(p, clusterId);
            && q == p.(nodes := q.nodes) && p.nodes <= q.nodes
            && (ok <==> HasRoom(p))
            && (InSync(q) <==> InSync(p) || (HasRoom(p) && |p.nodes| <= p.kind.count))
            && (Distinct(NodeNames(q.nodes)) <==> Distinct(NodeNames(p.nodes)))
            && GeneratedFrom(q.nodes, |p.nodes|, PoolId(clusterId, p.name), p.isControl)
  {
    GrownShape(p.nodes, p.kind.count, PoolId(clusterId, p.name), p.isControl);
    GrownDistinct(p.nodes, p.kind.count, PoolId(clusterId, p.name), p.isControl);
  }

  /** A generated node has no address yet, and is a master exactly in control pools. */
  lemma NewNodesTyped(p: NodePool, clusterId: string, k: nat)
    requires p.kind.Dynamic? && |p.nodes| <= k < |Populated(p, clusterId).0.nodes|
    ensures var n := Populated(p, clusterId).0.nodes[k];
            && n.publicIp == "" && n.privateIp == "" && n.username == ""
            && n.nodeType == (if p.isControl then Master else Worker)
            && exists index :: 1 <= index <= MAX_NODES && n.name == clusterId + "-" + p.name + "-" + Naming.Hex2(index)
  {
    PopulatedExactly(p, clusterId);
    var nodes, id := Populated(p, clusterId).0.nodes, PoolId(clusterId, p.name);
    assert Generated(nodes, k, id, p.isControl);
    var index := FirstFree(id, NamesIn(nodes[..k]), 1);
    GeneratedIndex(p.nodes, p.kind.count, id, p.isControl, k);
    assert nodes[k].name == clusterId + "-" + p.name + "-" + Naming.Hex2(index);
  }

  /** Names never run past the last index. */
  lemma {:induction false} GeneratedIndex(nodes: seq<Node>, target: int, id: string, isControl: bool, k: nat)
    requires |nodes| <= k < |Grown(nodes, target, id, isControl).0|
    ensures FirstFree(id, NamesIn(Grown(nodes, target, id, isControl).0[..k]), 1) <= MAX_NODES
    decreases target - |nodes|
  {
    var r := Grown(nodes, target, id, isControl).0;
    GrownShape(nodes, target, id, isControl);
    RoomLeft(id, NamesIn(nodes));
    if k == |nodes| {
      assert r[..k] == nodes;
    } else {
      GeneratedIndex(nodes + [NewNode(id, NamesIn(nodes), isControl)], target, id, isControl, k);
    }
  }

  predicate Numbered(nodes: seq<Node>, id: string)
  {
    forall i :: 0 <= i < |nodes| ==> nodes[i].name == Candidate(id, i + 1)
  }

  lemma NextNumber(nodes: seq<Node>, id: string)
    requires Numbered(nodes, id) && |nodes| < MAX_NODES
    ensures FirstFree(id, NamesIn(nodes), 1) == |nodes| + 1
  {
    var used, next := NamesIn(nodes), |nodes| + 1;
    forall i | 1 <= i <= |nodes| ensures Candidate(id, i) in used {
      assert nodes[i - 1] in nodes && nodes[i - 1].name == Candidate(id, i);
    }
    if Candidate(id, next) in used {
      var n :| n in nodes && n.name == Candidate(id, next);
      var i :| 0 <= i < |nodes| && nodes[i] == n;
      CandidatesDiffer(id, i + 1, next);
    }
  }

  lemma NumberedNames(nodes: seq<Node>, id: string)
    requires Numbered(nodes, id)
    ensures Distinct(NodeNames(nodes)) && |NamesIn(nodes)| == |nodes|
  {
    forall i, j | 0 <= i < j < |nodes| ensures NodeNames(nodes)[i] != NodeNames(nodes)[j] {
      CandidatesDiffer(id, i + 1, j + 1);
    }
    DistinctNames(nodes);
  }

  lemma NumberedSnoc(nodes: seq<Node>, n: Node, id: string)
    requires Numbered(nodes, id) && n.name == Candidate(id, |nodes| + 1)
    ensures Numbered(nodes + [n], id)
  {
  }

  lemma NumberedOneMore(nodes: seq<Node>, id: string, isControl: bool)
    requires Numbered(nodes, id) && |nodes| < MAX_NODES
    ensures Numbered(nodes + [NewNode(id, NamesIn(nodes), isControl)], id)
  {
    NextNumber(nodes, id);
    NumberedSnoc(nodes, NewNode(id, NamesIn(nodes), isControl), id);
  }

  lemma {:induction false} GrownNumbered(nodes: seq<Node>, target: int, id: string, isControl: bool)
    requires Numbered(nodes, id)
    ensures Numbered(Grown(nodes, target, id, isControl).0, id)
    decreases target - |nodes|
  {
    NumberedNames(nodes, id);
    if |nodes| < target && |nodes| < MAX_NODES {
      NumberedOneMore(nodes, id, isControl);
      GrownNumbered(nodes + [NewNode(id, NamesIn(nodes), isControl)], target, id, isControl);
    }
  }

  /** The nodes of a new pool are numbered from one. */
  lemma NumberedFromOne(p: NodePool, clusterId: string)
    requires p.kind.Dynamic? && p.nodes == []
    ensures Numbered(Populated(p, clusterId).0.nodes, PoolId(clusterId, p.name))
  {
    GrownNumbered([], p.kind.count, PoolId(clusterId, p.name), p.isControl);
  }

  /** Once populated, a pool stays as it is. */
  lemma PopulatedAgain(p: NodePool, clusterId: string)
    requires p.kind.Dynamic? && Populated(p, clusterId).1
    ensures Populated(Populated(p, clusterId).0, clusterId) == Populated(p, clusterId)
  {
    GrownShape(p.nodes, p.kind.count, PoolId(clusterId, p.name), p.isControl);
  }

  // --------------------------------------------------------------- a whole cluster

  /** The value of any pool of a cluster after population. */
  function Settled(p: NodePool, clusterId: string): NodePool
  {
    if p.kind.Dynamic? then Populated(p, clusterId).0 else p
  }

  predicate Sufficient(p: NodePool)
  {
    p.kind.Dynamic? ==> HasRoom(p)
  }

  /** Populates the dynamic pools of a cluster in order, up to the first one without room. */
  method PopulatePools(clusterId: string, pools: seq<NodePools.Pool>) returns (ok: bool)
    modifies pools
    ensures ok <==> forall p :: p in pools ==> Sufficient(old(p.Value()))
    ensures ok ==> forall p :: p in pools ==> p.Value() == Settled(old(p.Value()), clusterId)
    ensures !ok ==> exists k :: 0 <= k < |pools| && !Sufficient(old(pools[k].Value()))
                                && forall i :: 0 <= i < k ==> pools[i].Value() == Settled(old(pools[i].Value()), clusterId)
  {
    for i := 0 to |pools|
      invariant forall p :: p in pools[..i] ==> Sufficient(old(p.Value())) && p.Value() == Settled(old(p.Value()), clusterId)
      invariant forall p :: p in pools && p !in pools[..i] ==> p.Value() == old(p.Value())
    {
      var pool := pools[i];
      assert pools[..i + 1] == pools[..i] + [pool];
      if pool.kind.Dynamic? {
        PopulatedExactly(old(pool.Value()), clusterId);
        if pool in pools[..i] {
          PopulatedAgain(old(pool.Value()), clusterId);
        }
        ok := PopulateDynamicNodes(clusterId, pool);
        if !ok {
          assert pool !in pools[..i];
          assert forall k :: 0 <= k < i ==> pools[k] in pools[..i];
          return;
        }
      }
    }
    assert pools[..|pools|] == pools;
    ok := true;
  }

  lemma PoolIdsDiffer(clusterId: string, a: string, b: string)
    ensures PoolId(clusterId, a) == PoolId(clusterId, b) <==> a == b
  {
    var n := |clusterId| + 1;
    assert PoolId(clusterId, a)[n..] == a && PoolId(clusterId, b)[n..] == b;
  }

  lemma CandidateIsIndexed(id: string, i: nat)
    requires 1 <= i <= MAX_NODES
    ensures Candidate(id, i) == ManifestLaws.StaticNodeName(id, i - 1)
  {
    assert (i - 1 + 1) % 256 == i;
  }

  lemma IdsAndIndices(a: string, i: nat, b: string, j: nat)
    requires 1 <= i <= MAX_NODES && 1 <= j <= MAX_NODES
    ensures Candidate(a, i) == Candidate(b, j) <==> a == b && i == j
  {
    CandidateIsIndexed(a, i);
    CandidateIsIndexed(b, j);
    ManifestLaws.StaticNamesInjective(a, i - 1, b, j - 1);
  }

  /** Generated names tell pools and indices of a cluster apart. */
  lemma NamesApart(clusterId: string, a: string, i: nat, b: string, j: nat)
    requires 1 <= i <= MAX_NODES && 1 <= j <= MAX_NODES
    ensures Candidate(PoolId(clusterId, a), i) == Candidate(PoolId(clusterId, b), j) <==> a == b && i == j
  {
    IdsAndIndices(PoolId(clusterId, a), i, PoolId(clusterId, b), j);
    PoolIdsDiffer(clusterId, a, b);
  }

  // ------------------------------------------------------- pools of a manifest

  /** The announced number of nodes is one that can be generated. */
  predicate CountInRange(d: DynamicPool)
  {
    0 <= ManifestLaws.StartCount(d) <= MAX_NODES
  }

  /**
   A pool of an accepted manifest runs out of names exactly when its autoscaler starts above
   255 nodes.  After population it is well formed exactly when the announced number is in
   range; then it has that many nodes, under different names.
   */
  lemma PoolReady(m: Manifest, d: DynamicPool, isControl: bool, clusterId: string)
    requires Accepted(m) && d in m.dynamicPools
    ensures var (p, ok) := Populated(ManifestLaws.DynamicPoolOf(d, isControl), clusterId);
            && (!ok <==> Autoscaled(d) && d.scaleMin > MAX_NODES)
            && (WellFormed(p) <==> CountInRange(d))
            && (CountInRange(d) ==> |p.nodes| == ManifestLaws.StartCount(d))
            && Distinct(NodeNames(p.nodes))
  {
    var start := ManifestLaws.DynamicPoolOf(d, isControl);
    assert DynamicOk(m, d);
    assert NamesIn([]) == {};
    PopulatedExactly(start, clusterId);
    GrownShape([], start.kind.count, PoolId(clusterId, start.name), isControl);
  }

  /**
   Whatever is done to such a pool afterwards, its count agrees with its nodes after every
   operation exactly when every operation counts the nodes it adds.
   */
  lemma PoolStaysReady(m: Manifest, d: DynamicPool, isControl: bool, clusterId: string, ops: seq<PoolOp>)
    requires Accepted(m) && d in m.dynamicPools && CountInRange(d)
    ensures var p := Populated(ManifestLaws.DynamicPoolOf(d, isControl), clusterId).0;
            (forall k :: 0 <= k <= |ops| ==> WellFormed(Run(p, ops[..k]))) <==> AllCounted(ops)
  {
    var p := Populated(ManifestLaws.DynamicPoolOf(d, isControl), clusterId).0;
    PoolReady(m, d, isControl, clusterId);
    RunKeepsWellFormed(p, ops);
    FreshIsCounted(p, ops);
  }

  predicate AllCounted(ops: seq<PoolOp>)
  {
    forall op :: op in ops ==> Counted(op)
  }

  lemma AllCountedHead(ops: seq<PoolOp>)
    requires ops != []
    ensures AllCounted(ops) <==> Counted(ops[0]) && AllCounted(ops[1..])
  {
    assert ops == [ops[0]] + ops[1..];
  }

  lemma {:induction false} FreshIsCounted(p: NodePool, ops: seq<PoolOp>)
    requires p.kind.Dynamic?
    ensures FreshRun(p, ops) <==> AllCounted(ops)
    decreases |ops|
  {
    if ops != [] {
      AllCountedHead(ops);
      StepKeepsDrift(p, ops[0]);
      FreshIsCounted(Apply(p, ops[0]), ops[1..]);
    }
  }

  // ----------------------------------------------------------------- witnesses

  /** A cluster with one static machine and one dynamic pool. */
  function Sample(d: DynamicPool): Manifest
  {
    Manifest(
      Providers([Provider("g", true)], [], [], [], [], [], [], [], [], [], []),
      [d],
      [StaticPool("k", [StaticNode("10.0.0.1", "key", "root")], None, true)],
      [Cluster("c", ["k"], ["w"], true)],
      [],
      [])
  }

  /** The pool of the sample, apart from its size. */
  function SamplePool(count: Int32, scaleMin: Int32, scaleMax: Int32): DynamicPool
  {
    DynamicPool("w", "g", "region", count, scaleMin, scaleMax, false, true)
  }

  lemma SampleDefined(d: DynamicPool)
    requires d.name == "w"
    ensures var m := Sample(d); Defined(m, "k") && Defined(m, "w") && Referenced(m, "k") && Referenced(m, "w")
  {
    var m := Sample(d);
    assert m.staticPools[0] in m.staticPools && m.dynamicPools[0] in m.dynamicPools;
    assert m.clusters[0] in m.clusters && "k" in m.clusters[0].control && "w" in m.clusters[0].compute;
  }

  lemma SamplePools(d: DynamicPool)
    requires d == SamplePool(d.count, d.scaleMin, d.scaleMax) && d.count <= 255 && !(d.count != 0 && Autoscaled(d))
    ensures NodePoolsOk(Sample(d))
  {
    var m := Sample(d);
    SampleDefined(d);
    assert m.providers.gcp[0] in m.providers.gcp && TYPE_ORDER[0] == Gcp;
    var names := DynamicNames(m) + StaticNames(m);
    assert |names| == 2 && names[0] == "w" && names[1] == "k";
    assert m.staticPools[..0] == [] && AllEndpoints([]) == [];
  }

  lemma SampleCluster(d: DynamicPool)
    requires d.name == "w"
    ensures KubernetesOk(Sample(d))
  {
    var m := Sample(d);
    SampleDefined(d);
    assert ClusterNames(m.clusters) == ["c"];
    assert forall c :: c in m.clusters ==> c == m.clusters[0];
  }

  lemma SampleAccepted(d: DynamicPool)
    requires d == SamplePool(d.count, d.scaleMin, d.scaleMax) && d.count <= 255 && !(d.count != 0 && Autoscaled(d))
    ensures Accepted(Sample(d))
  {
    SamplePools(d);
    SampleCluster(d);
  }

  /** An accepted pool with a negative count does not agree with its nodes once they are generated. */
  lemma NegativeCountAccepted() returns (m: Manifest, d: DynamicPool)
    ensures Accepted(m) && d in m.dynamicPools
    ensures forall id :: !InSync(Populated(ManifestLaws.DynamicPoolOf(d, false), id).0)
  {
    d := SamplePool(-1, 0, 0);
    m := Sample(d);
    SampleAccepted(d);
    assert m.dynamicPools[0] == d;
    forall id ensures !InSync(Populated(ManifestLaws.DynamicPoolOf(d, false), id).0) {
      PoolReady(m, d, false, id);
    }
  }

  /** An accepted pool whose autoscaler starts above 255 nodes runs out of names. */
  lemma LargeMinimumAccepted() returns (m: Manifest, d: DynamicPool)
    ensures Accepted(m) && d in m.dynamicPools
    ensures forall id :: !Populated(ManifestLaws.DynamicPoolOf(d, false), id).1
  {
    d := SamplePool(0, 256, 1);
    m := Sample(d);
    SampleAccepted(d);
    assert m.dynamicPools[0] == d;
    forall id ensures !Populated(ManifestLaws.DynamicPoolOf(d, false), id).1 {
      PoolReady(m, d, false, id);
    }
  }
}
