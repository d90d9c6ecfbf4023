/**
 Node pools as the mutable objects the services share: operations that change a pool
 in place, and operations that build a partial copy of it.
 */
module NodePools {
  import opened Sequences
  import opened Spec
  import opened PoolValues

  class Pool {
    const name: string
    const isControl: bool
    const labels: map<string, string>
    const sshPort: int
    var nodes: seq<Node>
    var kind: PoolKind

    constructor (value: NodePool)
      ensures Value() == value
    {
      name, isControl, labels, sshPort := value.name, value.isControl, value.labels, value.sshPort;
      nodes, kind := value.nodes, value.kind;
    }

    function Value(): NodePool
      reads this
    {
      NodePool(name, nodes, kind, isControl, labels, sshPort)
    }
  }

  /** Adds nodes to a dynamic pool; any other pool is left alone. */
  method AppendDynamicNodes(dst: Pool, nodes: seq<Node>)
    modifies dst
    ensures dst.Value() == AfterAppend(old(dst.Value()), nodes)
  {
    if !dst.kind.Dynamic? {
      return;
    }
    dst.nodes := dst.nodes + nodes;
    dst.kind := dst.kind.(count := ToInt32(dst.kind.count + |nodes|));
  }

  /** Drops the keys of the given nodes. */
  method DropKeys(keys: map<string, string>, nodes: seq<Node>) returns (left: map<string, string>)
    ensures left == keys - Endpoints(nodes)
  {
    left := keys;
    for i := 0 to |nodes|
      invariant left == keys - Endpoints(nodes[..i])
    {
      assert nodes[..i + 1] == nodes[..i] + [nodes[i]];
      EndpointsAppend(nodes[..i], [nodes[i]]);
      left := left - {nodes[i].publicIp};
    }
    assert nodes[..|nodes|] == nodes;
  }

  /** Looks up the key of every given node. */
  method CollectKeys(keys: map<string, string>, nodes: seq<Node>) returns (found: map<string, string>)
    ensures found == KeysFor(nodes, keys)
  {
    found := map[];
    for i := 0 to |nodes|
      invariant found == KeysFor(nodes[..i], keys)
    {
      assert nodes[..i + 1] == nodes[..i] + [nodes[i]];
      KeysForSnoc(nodes[..i], nodes[i], keys);
      found := found[nodes[i].publicIp := Lookup(keys, nodes[i].publicIp)];
    }
    assert nodes[..|nodes|] == nodes;
  }

  /** Deletes the listed nodes in place. */
  method DeleteNodes(pool: Pool?, names: seq<string>)
    modifies pool
    ensures pool != null ==> pool.Value() == AfterDelete(old(pool.Value()), names)
  {
    if pool == null {
      return;
    }
    var nodes := pool.nodes;
    var kept, deleted := [], [];
    for i := 0 to |nodes|
      invariant pool.Value() == old(pool.Value())
      invariant kept == Kept(nodes[..i], names)
      invariant deleted == Taken(nodes[..i], names)
    {
      FilterSnoc(nodes, i, (n: Node) => n.name !in names);
      FilterSnoc(nodes, i, (n: Node) => n.name in names);
      if nodes[i].name in names {
        deleted := deleted + [nodes[i]];
      } else {
        kept := kept + [nodes[i]];
      }
    }
    assert nodes[..|nodes|] == nodes;
    pool.nodes := kept;
    match pool.kind {
      case Dynamic(c, _, _) =>
        pool.kind := pool.kind.(count := ToInt32(c - |deleted|));
      case Static(keys) =>
        var left := DropKeys(keys, deleted);
        pool.kind := Static(left);
      case Untyped =>
    }
  }

  /** The second half of both partial copies: a clone of the pool's type, recounted. */
  method CopyWithNodes(np: Pool, nodes: seq<Node>) returns (cp: Pool)
    ensures fresh(cp)
    ensures cp.Value() == WithNodes(np.Value(), nodes)
  {
    var kind := np.kind;
    match np.kind {
      case Dynamic(_, _, _) =>
        kind := np.kind.(count := ToInt32(|nodes|));
      case Static(keys) =>
        var copied := CollectKeys(keys, nodes);
        kind := Static(copied);
      case Untyped =>
    }
    cp := new Pool(NodePool(np.name, nodes, kind, np.isControl, np.labels, np.sshPort));
  }

  method PartialCopyWithNodeExclusion(np: Pool, names: seq<string>) returns (cp: Pool)
    ensures fresh(cp)
    ensures cp.Value() == Exclusion(np.Value(), names)
  {
    var kept := [];
    for i := 0 to |np.nodes|
      invariant kept == Kept(np.nodes[..i], names)
    {
      FilterSnoc(np.nodes, i, (n: Node) => n.name !in names);
      if np.nodes[i].name !in names {
        kept := kept + [np.nodes[i]];
      }
    }
    assert np.nodes[..|np.nodes|] == np.nodes;
    cp := CopyWithNodes(np, kept);
  }

  method PartialCopyWithNodeFilter(np: Pool, names: seq<string>) returns (cp: Pool)
    ensures fresh(cp)
    ensures cp.Value() == Selection(np.Value(), names)
  {
    var taken := [];
    for i := 0 to |np.nodes|
      invariant taken == Taken(np.nodes[..i], names)
    {
      FilterSnoc(np.nodes, i, (n: Node) => n.name in names);
      if np.nodes[i].name in names {
        taken := taken + [np.nodes[i]];
      }
    }
    assert np.nodes[..|np.nodes|] == np.nodes;
    cp := CopyWithNodes(np, taken);
  }

  method PartialCopyWithReplacedNodes(np: Pool, nodes: seq<Node>, nodeKeys: map<string, string>) returns (cp: Pool)
    ensures fresh(cp)
    ensures cp.Value() == Replaced(np.Value(), nodes, nodeKeys)
  {
    var kind := np.kind;
    match np.kind {
      case Dynamic(_, _, _) => kind := np.kind.(count := ToInt32(|nodes|));
      case Static(_) => kind := Static(nodeKeys);
      case Untyped =>
    }
    cp := new Pool(NodePool(np.name, nodes, kind, np.isControl, np.labels, 0));
  }

  /** One round of the copying loop: the node is counted, or its key recorded. */
  function KindWith(dst: PoolKind, src: PoolKind, n: Node): PoolKind
    requires (src.Dynamic? ==> dst.Dynamic?) && (src.Static? ==> dst.Static?)
  {
    match src
    case Dynamic(_, _, _) => dst.(count := ToInt32(dst.count + 1))
    case Static(keys) => Static(dst.nodeKeys[n.publicIp := Lookup(keys, n.publicIp)])
    case Untyped => dst
  }

  lemma ExtendedKindStep(dst: PoolKind, src: PoolKind, more: seq<Node>, n: Node)
    requires (src.Dynamic? ==> dst.Dynamic?) && (src.Static? ==> dst.Static?)
    ensures ExtendedKind(dst, src, more + [n]) == KindWith(ExtendedKind(dst, src, more), src, n)
  {
    match src
    case Dynamic(_, _, _) =>
      Int32Add(dst.count + |more|, 1);
    case Static(keys) =>
      KeysForSnoc(more, n, keys);
      assert dst.nodeKeys + KeysFor(more, keys)[n.publicIp := Lookup(keys, n.publicIp)]
          == (dst.nodeKeys + KeysFor(more, keys))[n.publicIp := Lookup(keys, n.publicIp)];
    case Untyped =>
  }

  /** When a pool is copied into itself the keys it already recorded read the same. */
  lemma KindWithSelf(dst: PoolKind, src: PoolKind, more: seq<Node>, n: Node)
    requires (src.Dynamic? ==> dst.Dynamic?) && (src.Static? ==> dst.Static?) && dst == src
    ensures var now := ExtendedKind(dst, src, more);
            KindWith(now, now, n) == KindWith(now, src, n)
  {
  }

  /** Clones the listed nodes of `src` into `dst`; the two may be the same object. */
  method CopyNodes(dst: Pool, src: Pool, names: seq<string>)
    modifies dst
    ensures dst.Value() == AfterCopy(old(dst.Value()), old(src.Value()), names)
  {
    if CopyIsNoop(dst.Value(), src.Value()) {
      return;
    }
    var nodes := src.nodes;
    ghost var dk, sk, taken := dst.kind, src.kind, [];
    assert ExtendedKind(dk, sk, []) == dk;
    for i := 0 to |nodes|
      invariant taken == Taken(nodes[..i], names)
      invariant dst.nodes == old(dst.nodes) + taken
      invariant dst.kind == ExtendedKind(dk, sk, taken)
      invariant src.kind == if dst == src then dst.kind else sk
    {
      FilterSnoc(nodes, i, (n: Node) => n.name in names);
      if nodes[i].name in names {
        CopyOne(dst, src, nodes[i], dk, sk, taken);
        taken := taken + [nodes[i]];
      }
    }
    assert nodes[..|nodes|] == nodes;
  }

  /** The body of the copying loop. */
  method CopyOne(dst: Pool, src: Pool, n: Node, ghost dk: PoolKind, ghost sk: PoolKind, ghost taken: seq<Node>)
    requires (sk.Dynamic? ==> dk.Dynamic?) && (sk.Static? ==> dk.Static?)
    requires dst.kind == ExtendedKind(dk, sk, taken)
    requires src.kind == if dst == src then dst.kind else sk
    requires dst == src ==> dk == sk
    modifies dst
    ensures dst.nodes == old(dst.nodes) + [n]
    ensures dst.kind == ExtendedKind(dk, sk, taken + [n])
    ensures src.kind == if dst == src then dst.kind else sk
  {
    ExtendedKindStep(dk, sk, taken, n);
    if dst == src {
      KindWithSelf(dk, sk, taken, n);
    }
    dst.nodes := dst.nodes + [n];
    dst.kind := KindWith(dst.kind, src.kind, n);
  }

  function Values(pools: seq<Pool>): (r: seq<NodePool>)
    reads pools
    ensures |r| == |pools|
    ensures forall i :: 0 <= i < |pools| ==> r[i] == pools[i].Value()
  {
    seq(|pools|, i requires 0 <= i < |pools| reads pools => pools[i].Value())
  }

  method NodeCount(pools: seq<Pool>) returns (out: int)
    ensures out == TotalCount(Values(pools))
  {
    out := 0;
    ghost var vals := Values(pools);
    for i := 0 to |pools|
      invariant out == TotalCount(vals[..i])
    {
      assert vals[..i + 1] == vals[..i] + [vals[i]];
      TotalsAppend(vals[..i], [vals[i]]);
      assert [vals[i]][1..] == [];
      match pools[i].kind {
        case Dynamic(c, _, _) => out := out + c;
        case Static(keys) => out := out + |keys|;
        case Untyped =>
      }
    }
    assert vals[..|pools|] == vals;
  }

  /** The part of the deletion that happens inside the pool that holds the node. */
  method DeleteFirst(np: Pool, nodeName: string)
    modifies np
    ensures np.Value() == AfterDeleteOne(old(np.Value()), nodeName)
  {
    var j := IndexOfNode(np.nodes, nodeName);
    if j < |np.nodes| {
      match np.kind {
        case Dynamic(c, _, _) => np.kind := np.kind.(count := ToInt32(c - 1));
        case Static(keys) => np.kind := Static(keys - {np.nodes[j].publicIp});
        case Untyped =>
      }
      np.nodes := np.nodes[..j] + np.nodes[j + 1..];
    }
  }

  lemma ListAfterDelete(pools: seq<Pool>, vals: seq<NodePool>, r: seq<Pool>, i: nat, gone: bool)
    requires |vals| == |pools| && i < |pools|
    requires forall k :: 0 <= k < |pools| && k != i ==> pools[k].Value() == vals[k]
    requires r == if gone then pools[..i] + pools[i + 1..] else pools
    ensures Values(r) == if gone then vals[..i] + vals[i + 1..] else vals[i := pools[i].Value()]
  {
  }

  /** The first pool that holds a node of the given name, searched in order. */
  method FindPoolOf(pools: seq<Pool>, nodeName: string) returns (i: nat)
    ensures i == IndexOfPool(Values(pools), nodeName)
  {
    ghost var vals := Values(pools);
    i := 0;
    while i < |pools| && IndexOfNode(pools[i].nodes, nodeName) == |pools[i].nodes|
      invariant i <= IndexOfPool(vals, nodeName)
    {
      assert vals[i] == pools[i].Value();
      i := i + 1;
    }
    if i < |pools| {
      assert vals[i] == pools[i].Value();
    }
  }

  /**
   Removes the first node with the given name, wherever it is.  Only the pool that holds
   it changes; that pool leaves the list when it became empty and need not be kept.
   */
  method DeleteNodeByName(pools: seq<Pool>, nodeName: string, keep: set<string>) returns (r: seq<Pool>)
    modifies pools
    ensures var i := IndexOfPool(old(Values(pools)), nodeName);
            && (forall p :: p in pools && (i < |pools| ==> p != pools[i]) ==> p.Value() == old(p.Value()))
            && (i < |pools| ==> pools[i].Value() == AfterDeleteOne(old(Values(pools)[i]), nodeName))
            && r == if i < |pools| && pools[i].nodes == [] && pools[i].name !in keep
                    then pools[..i] + pools[i + 1..] else pools
    ensures Distinct(pools) ==> Values(r) == DeletedByName(old(Values(pools)), nodeName, keep)
  {
    ghost var vals := Values(pools);
    var i := FindPoolOf(pools, nodeName);
    r := pools;
    if i == |pools| {
      return;
    }
    var np := pools[i];
    assert vals[i] == np.Value();
    DeleteFirst(np, nodeName);
    var gone := np.nodes == [] && np.name !in keep;
    if gone {
      r := pools[..i] + pools[i + 1..];
    }
    if Distinct(pools) {
      ListAfterDelete(pools, vals, r, i, gone);
    }
  }
}
