/**
 The pending change of an update task.  Fourteen kinds of message say what a worker has
 to do; consuming its result rewrites such a message, once, into the form that says what
 was done.
 */
module Deltas {
  import opened Sequences
  import opened Spec
  import opened PoolValues
  import opened Merging
  import NodePools

  type Unreachable = map<string, seq<string>>

  datatype AddKind =
    | Existing(nodepool: string, nodes: seq<Node>)
    | New(pool: NodePool)
    | Unspecified

  datatype Deleted =
    | Whole(pool: NodePool)
    | Partial(nodepool: string, nodes: seq<Node>, staticNodeKeys: map<string, string>)

  datatype Delta =
    // messages to consume
    | TfAddLoadBalancer(lb: Lb)
    | TfAddLoadBalancerNodes(handle: string, kind: AddKind)
    | TfReplaceDns(handle: string, dns: string, oldApiEndpoint: Option<string>)
    | TfAddK8sNodes(kind: AddKind)
    | TfAddLoadBalancerRoles(handle: string, newRoles: seq<Role>)
    | TfDeleteLoadBalancerNodes(handle: string, withNodePool: bool, nodepool: string, names: seq<string>,
                                unreachable: Option<Unreachable>)
    | TfMoveNodePoolToAutoscaled(nodepool: string, scaler: AutoscalerConf)
    | TfMoveNodePoolFromAutoscaled(nodepool: string)
    | TfReplaceRoleExternalSettings(handle: string, role: string, protocol: string, port: int)
    | AnsReplaceProxy(proxy: string)
    | AnsReplaceTargetPools(handle: string, targets: map<string, seq<string>>)
    | AnsReplaceRoleInternalSettings(handle: string, role: string, targetPort: int)
    | KpatchNodes(patch: string)
    | KDeleteNodes(withNodePool: bool, nodepool: string, names: seq<string>, unreachable: Option<Unreachable>)
    // consumed messages
    | AddedLoadBalancer(handle: string)
    | AddedLoadBalancerNodes(handle: string, newNodePool: bool, nodepool: string, names: seq<string>)
    | ReplacedDns(handle: string, oldApiEndpoint: Option<string>)
    | AddedK8sNodes(newNodePool: bool, nodepool: string, names: seq<string>)
    | AddedLoadBalancerRoles(handle: string, names: seq<string>)
    | DeletedLoadBalancerNodes(unreachable: Option<Unreachable>, handle: string, deleted: Deleted)
    | MovedNodePoolToAutoscaled(nodepool: string)
    | MovedNodePoolFromAutoscaled(nodepool: string, config: Option<AutoscalerConf>)
    | ReplacedRoleExternalSettings(handle: string, role: string)
    | ReplacedProxy
    | ReplacedTargetPools(handle: string, targets: map<string, seq<string>>)
    | ReplacedRoleInternalSettings(handle: string, role: string)
    | PatchedNodes
    | DeletedK8sNodes(unreachable: Option<Unreachable>, deleted: Deleted)
    // messages that are never consumed
    | Unset
    | Nothing
    | DeleteLoadBalancer(handle: string, unreachable: Option<Unreachable>)
    | DeleteLoadBalancerRoles(handle: string, names: seq<string>)
    | ChangeApiEndpoint(state: int, currentId: string, desiredId: string)
    | ClusterApiPort(open: bool)
    | K8sApiEndpoint(nodepool: string, node: string)
    | UpgradeVersion(version: string)

  predicate IsDeletion(d: Delta)
  {
    d.KDeleteNodes? || d.TfDeleteLoadBalancerNodes?
  }

  predicate Consumable(d: Delta)
  {
    || d.TfAddLoadBalancer? || d.TfAddLoadBalancerNodes? || d.TfReplaceDns? || d.TfAddK8sNodes?
    || d.TfAddLoadBalancerRoles? || d.TfDeleteLoadBalancerNodes? || d.TfMoveNodePoolToAutoscaled?
    || d.TfMoveNodePoolFromAutoscaled? || d.TfReplaceRoleExternalSettings? || d.AnsReplaceProxy?
    || d.AnsReplaceTargetPools? || d.AnsReplaceRoleInternalSettings? || d.KpatchNodes? || d.KDeleteNodes?
  }

  // ------------------------------------------------ what a message speaks about

  function KindPool(k: AddKind): string
  {
    match k
    case Existing(p, _) => p
    case New(p) => p.name
    case Unspecified => ""
  }

  function KindNodes(k: AddKind): seq<Node>
  {
    match k
    case Existing(_, ns) => ns
    case New(p) => p.nodes
    case Unspecified => []
  }

  function RoleNames(roles: seq<Role>): (r: seq<string>)
    ensures |r| == |roles| && forall i :: 0 <= i < |r| ==> r[i] == roles[i].name
  {
    seq(|roles|, i requires 0 <= i < |roles| => roles[i].name)
  }

  /** The load balancer a message addresses. */
  function HandleOf(d: Delta): Option<string>
  {
    match d
    case TfAddLoadBalancer(lb) => Some(lb.Id())
    case TfAddLoadBalancerNodes(h, _) => Some(h)
    case TfReplaceDns(h, _, _) => Some(h)
    case TfAddLoadBalancerRoles(h, _) => Some(h)
    case TfDeleteLoadBalancerNodes(h, _, _, _, _) => Some(h)
    case TfReplaceRoleExternalSettings(h, _, _, _) => Some(h)
    case AnsReplaceTargetPools(h, _) => Some(h)
    case AnsReplaceRoleInternalSettings(h, _, _) => Some(h)
    case AddedLoadBalancer(h) => Some(h)
    case AddedLoadBalancerNodes(h, _, _, _) => Some(h)
    case ReplacedDns(h, _) => Some(h)
    case AddedLoadBalancerRoles(h, _) => Some(h)
    case DeletedLoadBalancerNodes(_, h, _) => Some(h)
    case ReplacedRoleExternalSettings(h, _) => Some(h)
    case ReplacedTargetPools(h, _) => Some(h)
    case ReplacedRoleInternalSettings(h, _) => Some(h)
    case DeleteLoadBalancer(h, _) => Some(h)
    case DeleteLoadBalancerRoles(h, _) => Some(h)
    case _ => None
  }

  function DeletedPool(d: Deleted): string
  {
    match d
    case Whole(p) => p.name
    case Partial(p, _, _) => p
  }

  /** The node pool a message addresses. */
  function PoolOf(d: Delta): Option<string>
  {
    match d
    case TfAddLoadBalancerNodes(_, k) => Some(KindPool(k))
    case TfAddK8sNodes(k) => Some(KindPool(k))
    case TfDeleteLoadBalancerNodes(_, _, p, _, _) => Some(p)
    case TfMoveNodePoolToAutoscaled(p, _) => Some(p)
    case TfMoveNodePoolFromAutoscaled(p) => Some(p)
    case KDeleteNodes(_, p, _, _) => Some(p)
    case AddedLoadBalancerNodes(_, _, p, _) => Some(p)
    case AddedK8sNodes(_, p, _) => Some(p)
    case DeletedLoadBalancerNodes(_, _, k) => Some(DeletedPool(k))
    case MovedNodePoolToAutoscaled(p) => Some(p)
    case MovedNodePoolFromAutoscaled(p, _) => Some(p)
    case DeletedK8sNodes(_, k) => Some(DeletedPool(k))
    case K8sApiEndpoint(p, _) => Some(p)
    case _ => None
  }

  /** The nodes or roles that a message adds or replaces, by name. */
  function NamesOf(d: Delta): Option<seq<string>>
  {
    match d
    case TfAddLoadBalancerNodes(_, k) => Some(NodeNames(KindNodes(k)))
    case TfAddK8sNodes(k) => Some(NodeNames(KindNodes(k)))
    case TfAddLoadBalancerRoles(_, roles) => Some(RoleNames(roles))
    case TfReplaceRoleExternalSettings(_, role, _, _) => Some([role])
    case AnsReplaceRoleInternalSettings(_, role, _) => Some([role])
    case AddedLoadBalancerNodes(_, _, _, names) => Some(names)
    case AddedK8sNodes(_, _, names) => Some(names)
    case AddedLoadBalancerRoles(_, names) => Some(names)
    case ReplacedRoleExternalSettings(_, role) => Some([role])
    case ReplacedRoleInternalSettings(_, role) => Some([role])
    case _ => None
  }

  /** What a message is about, whether it asks for the change or reports it. */
  datatype Topic =
    | AddingBalancer | AddingBalancerNodes | AddingNodes | AddingRoles
    | DeletingBalancerNodes | DeletingNodes
    | ChangingDns | ChangingProxy | ChangingTargets | ChangingRoleOutside | ChangingRoleInside
    | EnteringAutoscaling | LeavingAutoscaling
    | Patching
    | OtherTopic

  function TopicOf(d: Delta): Topic
  {
    match d
    case TfAddLoadBalancer(_) | AddedLoadBalancer(_) => AddingBalancer
    case TfAddLoadBalancerNodes(_, _) | AddedLoadBalancerNodes(_, _, _, _) => AddingBalancerNodes
    case TfAddK8sNodes(_) | AddedK8sNodes(_, _, _) => AddingNodes
    case TfAddLoadBalancerRoles(_, _) | AddedLoadBalancerRoles(_, _) => AddingRoles
    case TfDeleteLoadBalancerNodes(_, _, _, _, _) | DeletedLoadBalancerNodes(_, _, _) => DeletingBalancerNodes
    case KDeleteNodes(_, _, _, _) | DeletedK8sNodes(_, _) => DeletingNodes
    case TfReplaceDns(_, _, _) | ReplacedDns(_, _) => ChangingDns
    case AnsReplaceProxy(_) | ReplacedProxy => ChangingProxy
    case AnsReplaceTargetPools(_, _) | ReplacedTargetPools(_, _) => ChangingTargets
    case TfReplaceRoleExternalSettings(_, _, _, _) | ReplacedRoleExternalSettings(_, _) => ChangingRoleOutside
    case AnsReplaceRoleInternalSettings(_, _, _) | ReplacedRoleInternalSettings(_, _) => ChangingRoleInside
    case TfMoveNodePoolToAutoscaled(_, _) | MovedNodePoolToAutoscaled(_) => EnteringAutoscaling
    case TfMoveNodePoolFromAutoscaled(_) | MovedNodePoolFromAutoscaled(_, _) => LeavingAutoscaling
    case KpatchNodes(_) | PatchedNodes => Patching
    case _ => OtherTopic
  }

  /** Infrastructure that must not be connected to. */
  function UnreachableOf(d: Delta): Option<Unreachable>
  {
    match d
    case TfDeleteLoadBalancerNodes(_, _, _, _, u) => u
    case KDeleteNodes(_, _, _, u) => u
    case DeletedLoadBalancerNodes(u, _, _) => u
    case DeletedK8sNodes(u, _) => u
    case DeleteLoadBalancer(_, u) => u
    case _ => None
  }

  /** The remaining data that later stages read: target pools, the old endpoint, and whether a pool is new. */
  function DetailsOf(d: Delta): (map<string, seq<string>>, Option<string>, bool)
  {
    (match d case AnsReplaceTargetPools(_, t) => t case ReplacedTargetPools(_, t) => t case _ => map[],
     match d case TfReplaceDns(_, _, e) => e case ReplacedDns(_, e) => e case _ => None,
     match d
     case TfAddK8sNodes(k) => k.New?
     case TfAddLoadBalancerNodes(_, k) => k.New?
     case AddedK8sNodes(n, _, _) => n
     case AddedLoadBalancerNodes(_, n, _, _) => n
     case _ => false)
  }

  // ----------------------------------------------------------------- deletions

  /** The first pool with the given name. */
  function FindPool(pools: seq<NodePool>, name: string): (r: Option<NodePool>)
    ensures r.Some? ==> r.value in pools && r.value.name == name
    ensures r.None? <==> forall p :: p in pools ==> p.name != name
  {
    if pools == [] then None
    else if pools[0].name == name then Some(pools[0])
    else FindPool(pools[1..], name)
  }

  lemma {:induction false} FindPoolFirst(pools: seq<NodePool>, name: string, i: nat)
    requires i < |pools| && pools[i].name == name && forall k :: 0 <= k < i ==> pools[k].name != name
    ensures FindPool(pools, name) == Some(pools[i])
  {
    if i > 0 {
      FindPoolFirst(pools[1..], name, i - 1);
    }
  }

  function DeletedFrom(pool: NodePool, withNodePool: bool, names: seq<string>): Deleted
  {
    if withNodePool then Whole(pool)
    else
      var gone := Taken(pool.nodes, names);
      Partial(pool.name, gone, if pool.kind.Static? then KeysFor(gone, pool.kind.nodeKeys) else map[])
  }

  datatype Rewrite = Rewritten(delta: Delta) | UnknownPool(nodepool: string) | UnknownBalancer(handle: string)

  /** The rewrite that happens before the merge, against the clusters as they were. */
  function ConsumeDeletion(d: Delta, k8s: K8s, lbs: seq<Lb>): Rewrite
  {
    match d
    case KDeleteNodes(whole, pool, names, unreachable) =>
      (match FindPool(k8s.info.nodePools, pool)
       case None => UnknownPool(pool)
       case Some(np) => Rewritten(DeletedK8sNodes(unreachable, DeletedFrom(np, whole, names))))
    case TfDeleteLoadBalancerNodes(handle, whole, pool, names, unreachable) =>
      (match Find(lbs, handle)
       case None => UnknownBalancer(handle)
       case Some(lb) =>
         match FindPool(lb.info.nodePools, pool)
         case None => UnknownPool(pool)
         case Some(np) => Rewritten(DeletedLoadBalancerNodes(unreachable, handle, DeletedFrom(np, whole, names))))
    case _ => Rewritten(d)
  }

  // -------------------------------------------------------------- replacements

  /** The autoscaler setting of the last dynamic pool with the given name. */
  function ScalerOf(pools: seq<NodePool>, name: string): Option<AutoscalerConf>
  {
    if pools == [] then None
    else
      var p := pools[|pools| - 1];
      if p.name == name && p.kind.Dynamic? then p.kind.autoscaler
      else ScalerOf(pools[..|pools| - 1], name)
  }

  predicate LastDynamic(pools: seq<NodePool>, name: string, i: nat)
  {
    && i < |pools| && pools[i].name == name && pools[i].kind.Dynamic?
    && forall k :: i < k < |pools| && pools[k].name == name ==> !pools[k].kind.Dynamic?
  }

  lemma {:induction false} ScalerFound(pools: seq<NodePool>, name: string, i: nat)
    requires LastDynamic(pools, name, i)
    ensures ScalerOf(pools, name) == pools[i].kind.autoscaler
  {
    if i < |pools| - 1 {
      ScalerFound(pools[..|pools| - 1], name, i);
    }
  }

  lemma {:induction false} ScalerMissing(pools: seq<NodePool>, name: string)
    ensures (forall p :: p in pools && p.name == name ==> !p.kind.Dynamic?) ==> ScalerOf(pools, name) == None
  {
    if pools != [] {
      ScalerMissing(pools[..|pools| - 1], name);
    }
  }

  /** The rewrite that happens after the merge, against the clusters as they are now. */
  function ConsumeReplacement(d: Delta, k8s: K8s): Delta
  {
    match d
    case TfMoveNodePoolFromAutoscaled(p) => MovedNodePoolFromAutoscaled(p, ScalerOf(k8s.info.nodePools, p))
    case TfMoveNodePoolToAutoscaled(p, _) => MovedNodePoolToAutoscaled(p)
    case AnsReplaceRoleInternalSettings(h, role, _) => ReplacedRoleInternalSettings(h, role)
    case TfReplaceRoleExternalSettings(h, role, _, _) => ReplacedRoleExternalSettings(h, role)
    case AnsReplaceProxy(_) => ReplacedProxy
    case AnsReplaceTargetPools(h, targets) => ReplacedTargetPools(h, targets)
    case KpatchNodes(_) => PatchedNodes
    case TfAddK8sNodes(k) => AddedK8sNodes(k.New?, KindPool(k), NodeNames(KindNodes(k)))
    case TfAddLoadBalancer(lb) => AddedLoadBalancer(lb.Id())
    case TfAddLoadBalancerNodes(h, k) => AddedLoadBalancerNodes(h, k.New?, KindPool(k), NodeNames(KindNodes(k)))
    case TfAddLoadBalancerRoles(h, roles) => AddedLoadBalancerRoles(h, RoleNames(roles))
    case TfReplaceDns(h, _, old') => ReplacedDns(h, old')
    case _ => d
  }

  /** What an addition records: the pool that it adds or extends, and the new nodes by name. */
  predicate Records(k: AddKind, isNew: bool, pool: string, names: seq<string>)
  {
    match k
    case Existing(p, nodes) => !isNew && pool == p && |names| == |nodes| && forall i :: 0 <= i < |nodes| ==> names[i] == nodes[i].name
    case New(p) =>
      isNew && pool == p.name && |names| == |p.nodes| && forall i :: 0 <= i < |p.nodes| ==> names[i] == p.nodes[i].name
    case Unspecified => !isNew && pool == "" && names == []
  }

  lemma AdditionRecorded(d: Delta, k8s: K8s)
    requires d.TfAddK8sNodes? || d.TfAddLoadBalancerNodes?
    ensures match ConsumeReplacement(d, k8s)
            case AddedK8sNodes(isNew, pool, names) => d.TfAddK8sNodes? && Records(d.kind, isNew, pool, names)
            case AddedLoadBalancerNodes(handle, isNew, pool, names) =>
              d.TfAddLoadBalancerNodes? && handle == d.handle && Records(d.kind, isNew, pool, names)
            case _ => false
  {
  }

  /** The two messages have the same topic and speak about the same things. */
  predicate SameSubject(d: Delta, r: Delta)
  {
    TopicOf(r) == TopicOf(d) && HandleOf(r) == HandleOf(d) && PoolOf(r) == PoolOf(d)
  }

  /** A successful deletion rewrite leaves no deletion to do. */
  lemma DeletionFinal(d: Delta, k8s: K8s, lbs: seq<Lb>)
    requires ConsumeDeletion(d, k8s, lbs).Rewritten?
    ensures var r := ConsumeDeletion(d, k8s, lbs).delta;
            && SameSubject(d, r) && UnreachableOf(r) == UnreachableOf(d)
            && (!IsDeletion(d) ==> r == d)
            && (IsDeletion(d) ==> !Consumable(r))
  {
    if !IsDeletion(d) {
      assert ConsumeDeletion(d, k8s, lbs) == Rewritten(d);
    }
  }

  lemma ReplacementTopic(d: Delta, after: K8s)
    ensures TopicOf(ConsumeReplacement(d, after)) == TopicOf(d)
    ensures !IsDeletion(d) ==> !Consumable(ConsumeReplacement(d, after))
  {
  }

  lemma ReplacementSubject(d: Delta, after: K8s)
    requires !IsDeletion(d)
    ensures SameSubject(d, ConsumeReplacement(d, after))
    ensures !Consumable(d) <==> ConsumeReplacement(d, after) == d
  {
    ReplacementTopic(d, after);
  }

  lemma ReplacementDetails(d: Delta, after: K8s)
    ensures var r := ConsumeReplacement(d, after);
            NamesOf(r) == NamesOf(d) && DetailsOf(r) == DetailsOf(d) && UnreachableOf(r) == UnreachableOf(d)
  {
  }

  /** One successful rewrite leaves nothing consumable, and speaks about the same things as before. */
  lemma RewriteFinal(d: Delta, k8s: K8s, lbs: seq<Lb>, after: K8s)
    requires ConsumeDeletion(d, k8s, lbs).Rewritten?
    ensures var r := ConsumeReplacement(ConsumeDeletion(d, k8s, lbs).delta, after);
            && !Consumable(r)
            && SameSubject(d, r)
            && UnreachableOf(r) == UnreachableOf(d)
            && (!IsDeletion(d) ==> NamesOf(r) == NamesOf(d) && DetailsOf(r) == DetailsOf(d))
            && (!Consumable(d) <==> r == d)
  {
    DeletionFinal(d, k8s, lbs);
    ReplacementTopic(ConsumeDeletion(d, k8s, lbs).delta, after);
    ReplacementSubject(ConsumeDeletion(d, k8s, lbs).delta, after);
    ReplacementDetails(ConsumeDeletion(d, k8s, lbs).delta, after);
  }

  // --------------------------------------------------------------------- loops

  /** Collects the nodes that a deletion takes out of a pool, and their keys if it is static. */
  method RecordDeletion(pool: NodePool, withNodePool: bool, names: seq<string>) returns (d: Deleted)
    ensures d == DeletedFrom(pool, withNodePool, names)
  {
    if withNodePool {
      return Whole(pool);
    }
    var gone, keys := [], map[];
    for i := 0 to |pool.nodes|
      invariant gone == Taken(pool.nodes[..i], names)
    {
      FilterSnoc(pool.nodes, i, (n: Node) => n.name in names);
      if pool.nodes[i].name in names {
        gone := gone + [pool.nodes[i]];
      }
    }
    assert pool.nodes[..|pool.nodes|] == pool.nodes;
    if pool.kind.Static? {
      keys := NodePools.CollectKeys(pool.kind.nodeKeys, gone);
    }
    d := Partial(pool.name, gone, keys);
  }

  method CollectNames(nodes: seq<Node>) returns (names: seq<string>)
    ensures names == NodeNames(nodes)
  {
    names := [];
    for i := 0 to |nodes|
      invariant names == NodeNames(nodes[..i])
    {
      names := names + [nodes[i].name];
    }
  }

  method CollectRoleNames(roles: seq<Role>) returns (names: seq<string>)
    ensures names == RoleNames(roles)
  {
    names := [];
    for i := 0 to |roles|
      invariant names == RoleNames(roles[..i])
    {
      names := names + [roles[i].name];
    }
  }

  method LastScaler(pools: seq<NodePool>, name: string) returns (config: Option<AutoscalerConf>)
    ensures config == ScalerOf(pools, name)
  {
    config := None;
    for i := 0 to |pools|
      invariant config == ScalerOf(pools[..i], name)
    {
      assert pools[..i + 1][..i] == pools[..i];
      if pools[i].name == name && pools[i].kind.Dynamic? {
        config := pools[i].kind.autoscaler;
      }
    }
    assert pools[..|pools|] == pools;
  }
}
