/**
 What each node-pool operation computes, as functions on pool values, and the laws
 that tie the three views of a pool's membership together: the node list, the node
 count of a dynamic pool and the key map of a static pool.
 */
module PoolValues {
  import opened Sequences
  import opened Spec

  // ------------------------------------------------------ 32-bit arithmetic

  const WORD: int := 0x1_0000_0000

  /** Wrap-around of a signed 32-bit counter. */
  function ToInt32(x: int): (r: Int32)
    ensures (r - x) % WORD == 0
    ensures -0x8000_0000 <= x < 0x8000_0000 ==> r == x
  {
    (x + 0x8000_0000) % WORD - 0x8000_0000
  }

  lemma Int32Unique(a: int, b: int)
    ensures ToInt32(a) == ToInt32(b) <==> (a - b) % WORD == 0
  {
  }

  lemma Int32Add(a: int, b: int)
    ensures ToInt32(ToInt32(a) + b) == ToInt32(a + b)
  {
    Int32Unique(ToInt32(a) + b, a + b);
  }

  // --------------------------------------------------------------- selections

  /** Reading a missing key yields the empty string. */
  function Lookup(m: map<string, string>, key: string): string
  {
    if key in m then m[key] else ""
  }

  function Taken(nodes: seq<Node>, names: seq<string>): seq<Node>
  {
    Filter(nodes, (n: Node) => n.name in names)
  }

  function Kept(nodes: seq<Node>, names: seq<string>): seq<Node>
  {
    Filter(nodes, (n: Node) => n.name !in names)
  }

  function Endpoints(nodes: seq<Node>): set<string>
  {
    set n | n in nodes :: n.publicIp
  }

  function EndpointList(nodes: seq<Node>): (r: seq<string>)
    ensures |r| == |nodes|
    ensures forall i :: 0 <= i < |r| ==> r[i] == nodes[i].publicIp
  {
    seq(|nodes|, i requires 0 <= i < |nodes| => nodes[i].publicIp)
  }

  function KeysFor(nodes: seq<Node>, keys: map<string, string>): map<string, string>
  {
    map ip | ip in Endpoints(nodes) :: Lookup(keys, ip)
  }

  /** The position of the first node with the given name, or the length when there is none. */
  function IndexOfNode(nodes: seq<Node>, name: string): (i: nat)
    ensures i <= |nodes|
    ensures i < |nodes| ==> nodes[i].name == name
    ensures forall k :: 0 <= k < i ==> nodes[k].name != name
  {
    if nodes == [] || nodes[0].name == name then 0 else 1 + IndexOfNode(nodes[1..], name)
  }

  // --------------------------------------------------------------- operations

  /** The count or the key map without the given nodes. */
  function DeletedKind(kind: PoolKind, gone: seq<Node>): PoolKind
  {
    match kind
    case Dynamic(c, a, r) => Dynamic(ToInt32(c - |gone|), a, r)
    case Static(keys) => Static(keys - Endpoints(gone))
    case Untyped => Untyped
  }

  function AfterDelete(p: NodePool, names: seq<string>): NodePool
  {
    p.(nodes := Kept(p.nodes, names), kind := DeletedKind(p.kind, Taken(p.nodes, names)))
  }

  function WithNodes(p: NodePool, nodes: seq<Node>): NodePool
  {
    p.(nodes := nodes,
       kind := match p.kind
               case Dynamic(_, a, r) => Dynamic(ToInt32(|nodes|), a, r)
               case Static(keys) => Static(KeysFor(nodes, keys))
               case Untyped => Untyped)
  }

  function Exclusion(p: NodePool, names: seq<string>): NodePool
  {
    WithNodes(p, Kept(p.nodes, names))
  }

  function Selection(p: NodePool, names: seq<string>): NodePool
  {
    WithNodes(p, Taken(p.nodes, names))
  }

  /** The copy that swaps in other nodes leaves the SSH port unset. */
  function Replaced(p: NodePool, nodes: seq<Node>, nodeKeys: map<string, string>): NodePool
  {
    p.(nodes := nodes,
       sshPort := 0,
       kind := match p.kind
               case Dynamic(_, a, r) => Dynamic(ToInt32(|nodes|), a, r)
               case Static(_) => Static(nodeKeys)
               case Untyped => Untyped)
  }

  function AfterAppend(p: NodePool, nodes: seq<Node>): NodePool
  {
    match p.kind
    case Dynamic(c, a, r) => p.(nodes := p.nodes + nodes, kind := Dynamic(ToInt32(c + |nodes|), a, r))
    case _ => p
  }

  predicate CopyIsNoop(dst: NodePool, src: NodePool)
  {
    || (src.kind.Dynamic? && !dst.kind.Dynamic?)
    || (src.kind.Static? && !dst.kind.Static?)
  }

  /** The destination's count or key map after nodes of a source of the same type were added. */
  function ExtendedKind(dst: PoolKind, src: PoolKind, more: seq<Node>): PoolKind
    requires (src.Dynamic? ==> dst.Dynamic?) && (src.Static? ==> dst.Static?)
  {
    match src
    case Dynamic(_, _, _) => Dynamic(ToInt32(dst.count + |more|), dst.autoscaler, dst.region)
    case Static(keys) => Static(dst.nodeKeys + KeysFor(more, keys))
    case Untyped => dst
  }

  function AfterCopy(dst: NodePool, src: NodePool, names: seq<string>): NodePool
  {
    if CopyIsNoop(dst, src) then dst
    else
      var more := Taken(src.nodes, names);
      dst.(nodes := dst.nodes + more, kind := ExtendedKind(dst.kind, src.kind, more))
  }

  /** Deleting the first node with the given name from one pool. */
  function AfterDeleteOne(p: NodePool, name: string): NodePool
  {
    var j := IndexOfNode(p.nodes, name);
    if j == |p.nodes| then p
    else
      p.(nodes := p.nodes[..j] + p.nodes[j + 1..],
         kind := match p.kind
                 case Dynamic(c, a, r) => Dynamic(ToInt32(c - 1), a, r)
                 case Static(keys) => Static(keys - {p.nodes[j].publicIp})
                 case Untyped => Untyped)
  }

  // --------------------------------------------------------------- invariants

  /** The count or the key map says the same as the node list. */
  predicate InSync(p: NodePool)
  {
    match p.kind
    case Dynamic(c, _, _) => c == ToInt32(|p.nodes|)
    case Static(keys) => keys.Keys == Endpoints(p.nodes)
    case Untyped => true
  }

  /** Static pools additionally give every node its own endpoint. */
  predicate WellFormed(p: NodePool)
  {
    && !p.kind.Untyped?
    && InSync(p)
    && (p.kind.Static? ==> Distinct(EndpointList(p.nodes)))
  }

  /** No node that stays shares its endpoint with a node that goes. */
  predicate Separated(gone: seq<Node>, stay: seq<Node>)
  {
    Endpoints(gone) !! Endpoints(stay)
  }

  lemma NodePartition(nodes: seq<Node>, names: seq<string>)
    ensures multiset(Taken(nodes, names)) + multiset(Kept(nodes, names)) == multiset(nodes)
    ensures multiset(Taken(nodes, names)) !! multiset(Kept(nodes, names))
    ensures |Taken(nodes, names)| + |Kept(nodes, names)| == |nodes|
    ensures Endpoints(nodes) == Endpoints(Taken(nodes, names)) + Endpoints(Kept(nodes, names))
  {
    var p, q := (n: Node) => n.name in names, (n: Node) => n.name !in names;
    FilterPartition(nodes, p, q);
    FilterApart(nodes, p, q);
    forall n: Node ensures n in nodes <==> n in Taken(nodes, names) || n in Kept(nodes, names) {
      FilterMember(nodes, p, n);
      FilterMember(nodes, q, n);
    }
  }

  lemma EndpointsAppend(a: seq<Node>, b: seq<Node>)
    ensures Endpoints(a + b) == Endpoints(a) + Endpoints(b)
  {
    assert forall n :: n in a + b <==> n in a || n in b;
  }

  lemma KeysForSnoc(nodes: seq<Node>, n: Node, keys: map<string, string>)
    ensures KeysFor(nodes + [n], keys) == KeysFor(nodes, keys)[n.publicIp := Lookup(keys, n.publicIp)]
  {
    EndpointsAppend(nodes, [n]);
  }

  /**
   For a pool in sync, deleting in place and copying without the nodes give the same
   pool exactly when no remaining node shares an endpoint with a deleted one.
   */
  lemma DeleteRefinesExclusion(p: NodePool, names: seq<string>)
    requires InSync(p)
    ensures AfterDelete(p, names) == Exclusion(p, names) <==>
            (p.kind.Static? ==> Separated(Taken(p.nodes, names), Kept(p.nodes, names)))
  {
    NodePartition(p.nodes, names);
    var gone, stay := Taken(p.nodes, names), Kept(p.nodes, names);
    match p.kind
    case Dynamic(c, _, _) =>
      Int32Add(|p.nodes|, -|gone|);
    case Static(keys) =>
      var left, copied := keys - Endpoints(gone), KeysFor(stay, keys);
      assert left.Keys == Endpoints(p.nodes) - Endpoints(gone);
      assert copied.Keys == Endpoints(stay);
      if left == copied {
        assert Endpoints(stay) == Endpoints(p.nodes) - Endpoints(gone);
      }
    case Untyped =>
  }

  /** The two copies split the pool: nodes, counts and keys, with no node in both. */
  lemma CopiesPartition(p: NodePool, names: seq<string>)
    requires InSync(p)
    ensures var s, e := Selection(p, names), Exclusion(p, names);
            && InSync(s) && InSync(e)
            && multiset(s.nodes) + multiset(e.nodes) == multiset(p.nodes)
            && multiset(s.nodes) !! multiset(e.nodes)
            && (p.kind.Dynamic? ==> ToInt32(s.kind.count + e.kind.count) == p.kind.count)
            && (p.kind.Static? ==> s.kind.nodeKeys + e.kind.nodeKeys == p.kind.nodeKeys)
            && (p.kind.Static? ==>
                  (s.kind.nodeKeys.Keys !! e.kind.nodeKeys.Keys <==> Separated(s.nodes, e.nodes)))
  {
    NodePartition(p.nodes, names);
    if p.kind.Dynamic? {
      Int32Add(|Taken(p.nodes, names)|, ToInt32(|Kept(p.nodes, names)|));
      Int32Add(|Kept(p.nodes, names)|, |Taken(p.nodes, names)|);
    }
  }

  /** Swapping in the selected nodes equals selecting them exactly when no SSH port was set. */
  lemma ReplacedLosesPort(p: NodePool, names: seq<string>)
    ensures var nodes := Taken(p.nodes, names);
            var keys := if p.kind.Static? then KeysFor(nodes, p.kind.nodeKeys) else map[];
            Replaced(p, nodes, keys) == Selection(p, names) <==> p.sshPort == 0
  {
    var nodes := Taken(p.nodes, names);
    assert WithNodes(p, nodes).sshPort == p.sshPort;
  }

  // ------------------------------------------------------- what stays, what comes

  /** The pools differ in their membership at most. */
  predicate SameSettings(p: NodePool, q: NodePool)
  {
    && q.name == p.name && q.isControl == p.isControl && q.labels == p.labels && q.sshPort == p.sshPort
    && (p.kind.Dynamic? <==> q.kind.Dynamic?) && (p.kind.Static? <==> q.kind.Static?)
    && (p.kind.Dynamic? ==> q.kind.autoscaler == p.kind.autoscaler && q.kind.region == p.kind.region)
  }

  /** Copies differ from their original in the membership only, and replacing nodes in the SSH port too. */
  lemma CopiesKeepSettings(p: NodePool, names: seq<string>, nodes: seq<Node>, keys: map<string, string>)
    ensures SameSettings(p, Exclusion(p, names)) && SameSettings(p, Selection(p, names))
    ensures SameSettings(p, Replaced(p, nodes, keys).(sshPort := p.sshPort)) && Replaced(p, nodes, keys).sshPort == 0
    ensures Replaced(p, nodes, keys).nodes == nodes
    ensures InSync(Replaced(p, nodes, keys)) <==> (p.kind.Static? ==> keys.Keys == Endpoints(nodes))
    ensures p.kind.Static? ==> Replaced(p, nodes, keys).kind.nodeKeys == keys
  {
  }

  /** Appended nodes come last, in their order, and only into dynamic pools. */
  lemma AppendedLast(p: NodePool, nodes: seq<Node>, i: nat)
    ensures var q := AfterAppend(p, nodes);
            && |q.nodes| == |p.nodes| + (if p.kind.Dynamic? then |nodes| else 0)
            && (i < |p.nodes| ==> q.nodes[i] == p.nodes[i])
            && (p.kind.Dynamic? && i < |nodes| ==> q.nodes[|p.nodes| + i] == nodes[i])
  {
  }

  /** The key of an endpoint: copied with its node, and otherwise as before. */
  lemma CopiedKeys(dst: NodePool, src: NodePool, names: seq<string>, ip: string)
    requires dst.kind.Static? && src.kind.Static?
    ensures var q := AfterCopy(dst, src, names);
            && q.kind.Static?
            && (if exists n :: n in src.nodes && n.name in names && n.publicIp == ip
                then ip in q.kind.nodeKeys
                     && q.kind.nodeKeys[ip] == (if ip in src.kind.nodeKeys then src.kind.nodeKeys[ip] else "")
                else (ip in q.kind.nodeKeys <==> ip in dst.kind.nodeKeys)
                     && (ip in dst.kind.nodeKeys ==> q.kind.nodeKeys[ip] == dst.kind.nodeKeys[ip]))
  {
    TakenEndpoint(src.nodes, names, ip);
  }

  lemma TakenEndpoint(nodes: seq<Node>, names: seq<string>, ip: string)
    ensures ip in Endpoints(Taken(nodes, names)) <==> exists n :: n in nodes && n.name in names && n.publicIp == ip
  {
    var p := (n: Node) => n.name in names;
    if ip in Endpoints(Taken(nodes, names)) {
      var n :| n in Taken(nodes, names) && n.publicIp == ip;
      FilterMember(nodes, p, n);
    }
    if n :| n in nodes && n.name in names && n.publicIp == ip {
      FilterMember(nodes, p, n);
    }
  }

  /** The list without the node at the given position. */
  function WithoutAt(nodes: seq<Node>, j: nat): seq<Node>
  {
    if j < |nodes| then nodes[..j] + nodes[j + 1..] else nodes
  }

  lemma WithoutLater(nodes: seq<Node>, j: nat)
    requires nodes != []
    ensures WithoutAt(nodes, j + 1) == [nodes[0]] + WithoutAt(nodes[1..], j)
  {
    var tail := nodes[1..];
    if j < |tail| {
      assert nodes[..j + 1] == [nodes[0]] + tail[..j] && nodes[j + 2..] == tail[j + 1..];
    } else {
      assert nodes == [nodes[0]] + tail;
    }
  }

  lemma NameUnique(nodes: seq<Node>)
    requires nodes != [] && Distinct(NodeNames(nodes))
    ensures Distinct(NodeNames(nodes[1..])) && forall n :: n in nodes[1..] ==> n.name != nodes[0].name
  {
    DistinctTail(NodeNames(nodes));
    assert NodeNames(nodes)[1..] == NodeNames(nodes[1..]);
    NamesCover(nodes[1..]);
  }

  lemma WithoutFirst(nodes: seq<Node>)
    requires nodes != []
    ensures WithoutAt(nodes, 0) == nodes[1..]
  {
    assert nodes[..0] == [];
  }

  /** The search that the deletion makes, on the list without duplicates of the name. */
  lemma {:induction false} WithoutNamed(nodes: seq<Node>, name: string, keep: Node -> bool)
    requires Distinct(NodeNames(nodes)) && forall n :: n in nodes ==> keep(n) == (n.name != name)
    ensures WithoutAt(nodes, IndexOfNode(nodes, name)) == Filter(nodes, keep)
  {
    if nodes != [] {
      var tail := nodes[1..];
      NameUnique(nodes);
      assert nodes[0] in nodes;
      if nodes[0].name == name {
        FilterAll(tail, keep);
        WithoutFirst(nodes);
        assert IndexOfNode(nodes, name) == 0 && Filter(nodes, keep) == Filter(tail, keep);
      } else {
        WithoutNamed(tail, name, keep);
        WithoutLater(nodes, IndexOfNode(tail, name));
        assert IndexOfNode(nodes, name) == 1 + IndexOfNode(tail, name);
        assert Filter(nodes, keep) == [nodes[0]] + Filter(tail, keep);
      }
    }
  }

  /** With distinct names exactly the node of the given name goes. */
  lemma DeletesTheNamed(p: NodePool, name: string)
    requires Distinct(NodeNames(p.nodes))
    ensures AfterDeleteOne(p, name).nodes == Filter(p.nodes, (n: Node) => n.name != name)
  {
    WithoutNamed(p.nodes, name, (n: Node) => n.name != name);
  }

  // ----------------------------------------------------------- what undoes what

  function NodeNames(nodes: seq<Node>): (r: seq<string>)
    ensures |r| == |nodes| && forall i :: 0 <= i < |r| ==> r[i] == nodes[i].name
  {
    seq(|nodes|, i requires 0 <= i < |nodes| => nodes[i].name)
  }

  /** Deleting exactly the nodes of the second part leaves the first part. */
  lemma DeletedTail(a: seq<Node>, b: seq<Node>, names: seq<string>)
    requires forall n :: n in a ==> n.name !in names
    requires forall n :: n in b ==> n.name in names
    ensures Kept(a + b, names) == a && Taken(a + b, names) == b
  {
    var keep, take := (n: Node) => n.name !in names, (n: Node) => n.name in names;
    FilterAppend(a, b, keep);
    FilterAppend(a, b, take);
    FilterAll(a, keep);
    FilterNone(b, keep);
    FilterNone(a, take);
    FilterAll(b, take);
    assert a + [] == a && [] + b == b;
  }

  lemma NamesCover(nodes: seq<Node>)
    ensures forall n :: n in nodes ==> n.name in NodeNames(nodes)
  {
    forall n | n in nodes ensures n.name in NodeNames(nodes) {
      var i :| 0 <= i < |nodes| && nodes[i] == n;
      assert NodeNames(nodes)[i] == n.name;
    }
  }

  /** Deletion by these names finds nothing in the list. */
  predicate Untouched(nodes: seq<Node>, names: seq<string>)
  {
    forall n :: n in nodes ==> n.name !in names
  }

  /** What was in the list before and what was added, after deleting what was added. */
  lemma DeletedAgain(a: seq<Node>, b: seq<Node>, names: seq<string>)
    requires forall n :: n in b ==> n.name in names
    ensures Kept(a + b, names) == a <==> Untouched(a, names)
    ensures Untouched(a, names) ==> Taken(a + b, names) == b
  {
    if Untouched(a, names) {
      DeletedTail(a, b, names);
    } else {
      var n :| n in a && n.name in names;
      FilterMember(a + b, (n: Node) => n.name !in names, n);
    }
  }

  /** Deleting appended nodes again gives back the pool exactly when their names were new to it. */
  lemma AppendUndone(p: NodePool, nodes: seq<Node>)
    ensures AfterDelete(AfterAppend(p, nodes), NodeNames(nodes)) == p <==> Untouched(p.nodes, NodeNames(nodes))
  {
    NamesCover(nodes);
    DeletedAgain(p.nodes, nodes, NodeNames(nodes));
    DeletedAgain(p.nodes, [], NodeNames(nodes));
    assert p.nodes + [] == p.nodes;
    if p.kind.Dynamic? {
      Int32Add(p.kind.count + |nodes|, -|nodes|);
    }
  }

  lemma TakenNames(nodes: seq<Node>, names: seq<string>)
    ensures forall n :: n in Taken(nodes, names) ==> n.name in names
  {
    forall n | n in Taken(nodes, names) ensures n.name in names {
      FilterMember(nodes, (n: Node) => n.name in names, n);
    }
  }

  /** What the copied nodes must not disturb: known keys, and the count if the source has no type. */
  predicate CopyApart(dst: PoolKind, src: PoolKind, more: seq<Node>)
  {
    match dst
    case Dynamic(_, _, _) => src.Untyped? ==> |more| % WORD == 0
    case Static(keys) => keys.Keys !! Endpoints(more)
    case Untyped => true
  }

  lemma CountUndone(c: Int32, more: int, counted: int)
    ensures ToInt32(ToInt32(c + counted) - more) == c <==> (counted - more) % WORD == 0
  {
    Int32Add(c + counted, -more);
    Int32Unique(c + counted - more, c);
  }

  lemma KeysUndone(keys: map<string, string>, found: map<string, string>, gone: set<string>)
    requires found.Keys <= gone
    ensures (keys + found) - gone == keys <==> keys.Keys !! gone
  {
    var left := (keys + found) - gone;
    assert left.Keys == keys.Keys - gone;
    if keys.Keys !! gone {
      forall k | k in keys ensures k in left && left[k] == keys[k] {
      }
      assert left == keys;
    }
  }

  lemma StaticUndone(keys: map<string, string>, src: PoolKind, more: seq<Node>)
    requires !src.Dynamic?
    ensures DeletedKind(ExtendedKind(Static(keys), src, more), more) == Static(keys) <==> keys.Keys !! Endpoints(more)
  {
    if src.Static? {
      KeysUndone(keys, KeysFor(more, src.nodeKeys), Endpoints(more));
    } else {
      KeysUndone(keys, map[], Endpoints(more));
      assert keys + map[] == keys;
    }
  }

  lemma KindUndone(dst: PoolKind, src: PoolKind, more: seq<Node>)
    requires (src.Dynamic? ==> dst.Dynamic?) && (src.Static? ==> dst.Static?)
    ensures DeletedKind(ExtendedKind(dst, src, more), more) == dst <==> CopyApart(dst, src, more)
  {
    match dst
    case Dynamic(c, _, _) => CountUndone(c, |more|, if src.Dynamic? then |more| else 0);
    case Static(keys) => StaticUndone(keys, src, more);
    case Untyped =>
  }

  /**
   Deleting copied nodes again gives back the pool exactly when their names were new to it
   and, if the copy did anything, neither keys nor count were disturbed.
   */
  lemma CopyUndone(dst: NodePool, src: NodePool, names: seq<string>)
    ensures AfterDelete(AfterCopy(dst, src, names), names) == dst <==>
            && Untouched(dst.nodes, names)
            && (!CopyIsNoop(dst, src) ==> CopyApart(dst.kind, src.kind, Taken(src.nodes, names)))
  {
    var more := Taken(src.nodes, names);
    TakenNames(src.nodes, names);
    DeletedAgain(dst.nodes, more, names);
    DeletedAgain(dst.nodes, [], names);
    assert dst.nodes + [] == dst.nodes;
    if !CopyIsNoop(dst, src) {
      KindUndone(dst.kind, src.kind, more);
    }
  }

  /** Moving nodes, by copying them over and deleting them at their source, loses and duplicates none. */
  lemma MoveConserves(dst: NodePool, src: NodePool, names: seq<string>)
    requires !CopyIsNoop(dst, src)
    ensures multiset(AfterCopy(dst, src, names).nodes) + multiset(AfterDelete(src, names).nodes)
            == multiset(dst.nodes) + multiset(src.nodes)
  {
    NodePartition(src.nodes, names);
  }

  // ------------------------------------------------------------ operation runs

  datatype PoolOp =
    | Append(nodes: seq<Node>)
    | CopyFrom(src: NodePool, names: seq<string>)
    | DeleteListed(names: seq<string>)
    | DeleteNamed(name: string)

  function Apply(p: NodePool, op: PoolOp): NodePool
  {
    match op
    case Append(nodes) => AfterAppend(p, nodes)
    case CopyFrom(src, names) => AfterCopy(p, src, names)
    case DeleteListed(names) => AfterDelete(p, names)
    case DeleteNamed(name) => AfterDeleteOne(p, name)
  }

  /**
   What a caller can check beforehand: a deletion does not hit an endpoint that stays in use,
   and a copy from a pool without a type, which neither counts nor records keys, needs neither.
   */
  predicate SafeOp(p: NodePool, op: PoolOp)
  {
    match op
    case Append(_) => true
    case CopyFrom(src, names) =>
      var more := Taken(src.nodes, names);
      src.kind.Untyped? ==>
        && (p.kind.Dynamic? ==> |more| % WORD == 0)
        && (p.kind.Static? ==> Endpoints(more) <= p.kind.nodeKeys.Keys)
    case DeleteListed(names) => p.kind.Static? ==> Separated(Taken(p.nodes, names), Kept(p.nodes, names))
    case DeleteNamed(name) =>
      var j := IndexOfNode(p.nodes, name);
      p.kind.Static? && j < |p.nodes| ==> p.nodes[j].publicIp !in Endpoints(p.nodes[..j] + p.nodes[j + 1..])
  }

  lemma DeleteOneSplit(p: NodePool, name: string)
    requires IndexOfNode(p.nodes, name) < |p.nodes|
    ensures var j := IndexOfNode(p.nodes, name);
            Endpoints(p.nodes) == Endpoints(p.nodes[..j] + p.nodes[j + 1..]) + {p.nodes[j].publicIp}
  {
    var j := IndexOfNode(p.nodes, name);
    var rest := p.nodes[..j] + p.nodes[j + 1..];
    assert p.nodes == p.nodes[..j] + [p.nodes[j]] + p.nodes[j + 1..];
    assert forall n :: n in p.nodes <==> n in rest || n == p.nodes[j];
  }

  lemma SyncCopy(p: NodePool, src: NodePool, names: seq<string>)
    requires InSync(p)
    ensures InSync(AfterCopy(p, src, names)) <==> SafeOp(p, CopyFrom(src, names))
  {
    var more := Taken(src.nodes, names);
    Int32Add(|p.nodes|, |more|);
    Int32Unique(|p.nodes| + |more|, |p.nodes|);
    EndpointsAppend(p.nodes, more);
  }

  lemma SyncDelete(p: NodePool, names: seq<string>)
    requires InSync(p)
    ensures InSync(AfterDelete(p, names)) <==> SafeOp(p, DeleteListed(names))
  {
    var gone, stay := Taken(p.nodes, names), Kept(p.nodes, names);
    NodePartition(p.nodes, names);
    if p.kind.Dynamic? {
      Int32Add(|p.nodes|, -|gone|);
    }
  }

  lemma WithoutEndpoint(keys: map<string, string>, rest: set<string>, ip: string)
    requires keys.Keys == rest + {ip}
    ensures (keys - {ip}).Keys == rest <==> ip !in rest
  {
    assert (keys - {ip}).Keys == keys.Keys - {ip};
  }

  lemma SyncDeleteOneStatic(p: NodePool, name: string)
    requires p.kind.Static? && InSync(p) && IndexOfNode(p.nodes, name) < |p.nodes|
    ensures InSync(AfterDeleteOne(p, name)) <==> SafeOp(p, DeleteNamed(name))
  {
    var j := IndexOfNode(p.nodes, name);
    DeleteOneSplit(p, name);
    WithoutEndpoint(p.kind.nodeKeys, Endpoints(p.nodes[..j] + p.nodes[j + 1..]), p.nodes[j].publicIp);
  }

  lemma SyncDeleteOne(p: NodePool, name: string)
    requires InSync(p)
    ensures InSync(AfterDeleteOne(p, name)) <==> SafeOp(p, DeleteNamed(name))
  {
    if IndexOfNode(p.nodes, name) < |p.nodes| {
      if p.kind.Static? {
        SyncDeleteOneStatic(p, name);
      } else {
        Int32Add(|p.nodes|, -1);
      }
    }
  }

  /** No operation touches anything but the membership. */
  lemma StepKeepsSettings(p: NodePool, op: PoolOp)
    ensures SameSettings(p, Apply(p, op))
  {
  }

  /** One operation keeps a pool in sync exactly when it is safe. */
  lemma StepKeepsSync(p: NodePool, op: PoolOp)
    requires InSync(p)
    ensures InSync(Apply(p, op)) <==> SafeOp(p, op)
  {
    match op
    case Append(nodes) => Int32Add(|p.nodes|, |nodes|);
    case CopyFrom(src, names) => SyncCopy(p, src, names);
    case DeleteListed(names) => SyncDelete(p, names);
    case DeleteNamed(name) => SyncDeleteOne(p, name);
  }

  /** Two nodes on one endpoint: deleting one of them takes the other one's key away. */
  lemma DeletionCanBreakSync() returns (p: NodePool, op: PoolOp)
    ensures InSync(p) && !InSync(Apply(p, op))
  {
    var a := Node("a", "10.0.0.1", "", Worker, "root");
    var b := a.(name := "b");
    p := NodePool("p", [a, b], Static(map["10.0.0.1" := "key"]), false, map[], 0);
    op := DeleteNamed("a");
    assert a in p.nodes && b in [b];
    assert IndexOfNode(p.nodes, "a") == 0 && p.nodes[..0] + p.nodes[1..] == [b];
    StepKeepsSync(p, op);
  }

  /** A node copied from a pool without a type is not counted. */
  lemma CopyCanBreakSync() returns (p: NodePool, op: PoolOp)
    ensures InSync(p) && !InSync(Apply(p, op))
  {
    var a := Node("a", "10.0.0.1", "", Worker, "root");
    p := NodePool("p", [], Dynamic(0, None, ""), false, map[], 0);
    op := CopyFrom(NodePool("q", [a], Untyped, false, map[], 0), ["a"]);
    FilterAll([a], (n: Node) => n.name in ["a"]);
    StepKeepsSync(p, op);
  }

  // ----------------------------------------------------------- distance of a count

  /** How far the count of a dynamic pool is from its number of nodes. */
  function Drift(p: NodePool): Int32
    requires p.kind.Dynamic?
  {
    ToInt32(p.kind.count - |p.nodes|)
  }

  lemma Int32Distance(c: Int32, n: int)
    ensures c == ToInt32(n) <==> ToInt32(c - n) == 0
    ensures c == ToInt32(n + ToInt32(c - n))
  {
    Int32Unique(c, n);
    Int32Unique(c - n, 0);
    Int32Add(c - n, n);
  }

  lemma DriftSync(p: NodePool)
    requires p.kind.Dynamic?
    ensures InSync(p) <==> Drift(p) == 0
    ensures p.kind.count == ToInt32(|p.nodes| + Drift(p))
  {
    Int32Distance(p.kind.count, |p.nodes|);
  }

  lemma DriftMoves(c: int, n: int, more: int, counted: int)
    ensures ToInt32(ToInt32(c + counted) - (n + more)) == ToInt32(c - n) <==> (more - counted) % WORD == 0
  {
    Int32Add(c + counted, -(n + more));
    Int32Unique(c + counted - (n + more), c - n);
  }

  lemma DriftOf(p: NodePool, q: NodePool, more: int, counted: int)
    requires p.kind.Dynamic? && q.kind.Dynamic?
    requires |q.nodes| == |p.nodes| + more && q.kind.count == ToInt32(p.kind.count + counted)
    ensures Drift(q) == Drift(p) <==> (more - counted) % WORD == 0
  {
    DriftMoves(p.kind.count, |p.nodes|, more, counted);
  }

  lemma DriftCopy(p: NodePool, src: NodePool, names: seq<string>)
    requires p.kind.Dynamic?
    ensures var q := AfterCopy(p, src, names);
            q.kind.Dynamic? && (Drift(q) == Drift(p) <==> SafeOp(p, CopyFrom(src, names)))
  {
    if !CopyIsNoop(p, src) {
      var more := |Taken(src.nodes, names)|;
      DriftOf(p, AfterCopy(p, src, names), more, if src.kind.Dynamic? then more else 0);
    }
  }

  /** One operation keeps the distance of a count, right or wrong, exactly when it is safe. */
  lemma StepKeepsDrift(p: NodePool, op: PoolOp)
    requires p.kind.Dynamic?
    ensures Apply(p, op).kind.Dynamic? && (Drift(Apply(p, op)) == Drift(p) <==> SafeOp(p, op))
  {
    match op
    case Append(nodes) => DriftOf(p, AfterAppend(p, nodes), |nodes|, |nodes|);
    case CopyFrom(src, names) => DriftCopy(p, src, names);
    case DeleteListed(names) =>
      NodePartition(p.nodes, names);
      var gone := |Taken(p.nodes, names)|;
      DriftOf(p, AfterDelete(p, names), -gone, -gone);
    case DeleteNamed(name) =>
      if IndexOfNode(p.nodes, name) < |p.nodes| {
        DriftOf(p, AfterDeleteOne(p, name), -1, -1);
      }
  }

  /** The operation counts every node it adds to a dynamic pool. */
  predicate Counted(op: PoolOp)
  {
    op.CopyFrom? && op.src.kind.Untyped? ==> |Taken(op.src.nodes, op.names)| % WORD == 0
  }

  /** Any sequence of such operations keeps the distance that the pool started with. */
  lemma {:induction false} RunKeepsDrift(p: NodePool, ops: seq<PoolOp>)
    requires p.kind.Dynamic? && forall op :: op in ops ==> Counted(op)
    ensures Run(p, ops).kind.Dynamic? && Drift(Run(p, ops)) == Drift(p)
    ensures Run(p, ops).kind.count == ToInt32(|Run(p, ops).nodes| + Drift(p))
    decreases |ops|
  {
    if ops != [] {
      assert ops[0] in ops;
      StepKeepsDrift(p, ops[0]);
      RunKeepsDrift(Apply(p, ops[0]), ops[1..]);
    } else {
      DriftSync(p);
    }
  }

  // ------------------------------------------------------ one endpoint for each node

  /** A safe operation whose copies bring only endpoints that the pool does not hold yet, each once. */
  predicate FreshOp(p: NodePool, op: PoolOp)
  {
    && SafeOp(p, op)
    && (op.CopyFrom? && p.kind.Static? && !CopyIsNoop(p, op.src) ==>
          var more := Taken(op.src.nodes, op.names);
          Distinct(EndpointList(more)) && Endpoints(p.nodes) !! Endpoints(more))
  }

  lemma {:induction false} DistinctFilter(nodes: seq<Node>, p: Node -> bool)
    requires Distinct(EndpointList(nodes))
    ensures Distinct(EndpointList(Filter(nodes, p)))
  {
    if nodes != [] {
      assert EndpointList(nodes)[1..] == EndpointList(nodes[1..]);
      DistinctTail(EndpointList(nodes));
      DistinctFilter(nodes[1..], p);
      var rest := Filter(nodes[1..], p);
      assert EndpointList([nodes[0]] + rest) == [nodes[0].publicIp] + EndpointList(rest);
      forall k | 0 <= k < |rest| ensures rest[k].publicIp != nodes[0].publicIp {
        FilterMember(nodes[1..], p, rest[k]);
        var m :| 0 <= m < |nodes[1..]| && nodes[1..][m] == rest[k];
        assert EndpointList(nodes[1..])[m] == rest[k].publicIp;
      }
    }
  }

  /** With one endpoint per node every deletion is safe. */
  lemma DistinctIsSafe(p: NodePool, op: PoolOp)
    requires WellFormed(p) && !op.CopyFrom?
    ensures SafeOp(p, op)
  {
    if p.kind.Static? && op.DeleteListed? {
      var gone, stay := Taken(p.nodes, op.names), Kept(p.nodes, op.names);
      forall n, m | n in gone && m in stay ensures n.publicIp != m.publicIp {
        FilterMember(p.nodes, (n: Node) => n.name in op.names, n);
        FilterMember(p.nodes, (n: Node) => n.name !in op.names, m);
        var i :| 0 <= i < |p.nodes| && p.nodes[i] == n;
        var k :| 0 <= k < |p.nodes| && p.nodes[k] == m;
        assert EndpointList(p.nodes)[i] == n.publicIp && EndpointList(p.nodes)[k] == m.publicIp;
      }
    } else if p.kind.Static? && op.DeleteNamed? {
      var j := IndexOfNode(p.nodes, op.name);
      if j < |p.nodes| {
        forall m | m in p.nodes[..j] + p.nodes[j + 1..] ensures m.publicIp != p.nodes[j].publicIp {
          var k :| 0 <= k < |p.nodes| && k != j && p.nodes[k] == m;
          assert EndpointList(p.nodes)[k] == m.publicIp && EndpointList(p.nodes)[j] == p.nodes[j].publicIp;
        }
      }
    }
  }

  lemma DistinctAppend(a: seq<Node>, b: seq<Node>)
    requires Distinct(EndpointList(a))
    ensures Distinct(EndpointList(a + b)) <==> Distinct(EndpointList(b)) && Endpoints(a) !! Endpoints(b)
  {
    var l, la, lb := EndpointList(a + b), EndpointList(a), EndpointList(b);
    assert l == la + lb;
    if Distinct(l) {
      forall i, j | 0 <= i < j < |b| ensures lb[i] != lb[j] {
        assert l[|a| + i] != l[|a| + j];
      }
      forall ip | ip in Endpoints(a) ensures ip !in Endpoints(b) {
        EndpointMember(a, ip);
        EndpointMember(b, ip);
        DistinctConcat(la, lb, ip);
      }
    } else if Distinct(lb) && Endpoints(a) !! Endpoints(b) {
      var i, j :| 0 <= i < j < |l| && l[i] == l[j];
      EndpointMember(a, l[i]);
      EndpointMember(b, l[i]);
      assert false;
    }
  }

  lemma DistinctDeleteOne(p: NodePool, name: string)
    requires Distinct(EndpointList(p.nodes))
    ensures Distinct(EndpointList(AfterDeleteOne(p, name).nodes))
  {
    var j, l := IndexOfNode(p.nodes, name), EndpointList(p.nodes);
    if j < |p.nodes| {
      var rest := EndpointList(p.nodes[..j] + p.nodes[j + 1..]);
      assert rest == l[..j] + l[j + 1..];
    }
  }

  lemma StepKeepsDistinct(p: NodePool, op: PoolOp)
    requires WellFormed(p) && SafeOp(p, op) && p.kind.Static?
    ensures Distinct(EndpointList(Apply(p, op).nodes)) <==> FreshOp(p, op)
  {
    match op
    case Append(_) =>
    case CopyFrom(src, names) =>
      if !CopyIsNoop(p, src) {
        DistinctAppend(p.nodes, Taken(src.nodes, names));
      }
    case DeleteListed(names) => DistinctFilter(p.nodes, (n: Node) => n.name !in names);
    case DeleteNamed(name) => DistinctDeleteOne(p, name);
  }

  /** One operation keeps a well-formed pool well formed exactly when it is fresh. */
  lemma StepKeepsWellFormed(p: NodePool, op: PoolOp)
    requires WellFormed(p)
    ensures WellFormed(Apply(p, op)) <==> FreshOp(p, op)
  {
    StepKeepsSync(p, op);
    if p.kind.Static? && SafeOp(p, op) {
      StepKeepsDistinct(p, op);
    }
  }

  function Run(p: NodePool, ops: seq<PoolOp>): NodePool
    decreases |ops|
  {
    if ops == [] then p else Run(Apply(p, ops[0]), ops[1..])
  }

  /** Every operation is fresh when its turn comes. */
  predicate FreshRun(p: NodePool, ops: seq<PoolOp>)
    decreases |ops|
  {
    ops == [] || (FreshOp(p, ops[0]) && FreshRun(Apply(p, ops[0]), ops[1..]))
  }

  lemma {:induction false} RunPrefix(p: NodePool, ops: seq<PoolOp>, k: nat)
    requires 0 < k <= |ops|
    ensures Run(p, ops[..k]) == Run(Apply(p, ops[0]), ops[1..][..k - 1])
  {
    assert ops[..k][1..] == ops[1..][..k - 1];
  }

  /**
   The three views of the membership agree throughout a sequence of operations, after each
   of them, exactly when every operation is fresh when its turn comes.
   */
  lemma {:induction false} RunKeepsWellFormed(p: NodePool, ops: seq<PoolOp>)
    requires WellFormed(p)
    ensures FreshRun(p, ops) <==> forall k :: 0 <= k <= |ops| ==> WellFormed(Run(p, ops[..k]))
    decreases |ops|
  {
    if ops == [] {
      assert forall k :: 0 <= k <= |ops| ==> ops[..k] == [];
    } else {
      var q, rest := Apply(p, ops[0]), ops[1..];
      StepKeepsWellFormed(p, ops[0]);
      RunPrefix(p, ops, 1);
      assert rest[..0] == [] && ops[..0] == [];
      if FreshOp(p, ops[0]) {
        RunKeepsWellFormed(q, rest);
        forall k | 0 < k <= |ops| ensures Run(p, ops[..k]) == Run(q, rest[..k - 1]) {
          RunPrefix(p, ops, k);
        }
        if forall k :: 0 <= k <= |ops| ==> WellFormed(Run(p, ops[..k])) {
          forall k | 0 <= k <= |rest| ensures WellFormed(Run(q, rest[..k])) {
            RunPrefix(p, ops, k + 1);
          }
        }
      } else {
        assert !WellFormed(Run(p, ops[..1]));
      }
    }
  }

  // ------------------------------------------------------------------ counting

  /** What a pool contributes to the number of nodes of a cluster. */
  function PoolCount(p: NodePool): int
  {
    match p.kind
    case Dynamic(c, _, _) => c
    case Static(keys) => |keys|
    case Untyped => 0
  }

  function TotalCount(pools: seq<NodePool>): int
  {
    if pools == [] then 0 else PoolCount(pools[0]) + TotalCount(pools[1..])
  }

  function TotalNodes(pools: seq<NodePool>): nat
  {
    if pools == [] then 0 else |pools[0].nodes| + TotalNodes(pools[1..])
  }

  lemma EndpointMember(nodes: seq<Node>, ip: string)
    ensures ip in Endpoints(nodes) <==> ip in EndpointList(nodes)
  {
    var l := EndpointList(nodes);
    if ip in Endpoints(nodes) {
      var n :| n in nodes && n.publicIp == ip;
      var i :| 0 <= i < |nodes| && nodes[i] == n;
      assert l[i] == ip;
    }
    if ip in l {
      var i :| 0 <= i < |l| && l[i] == ip;
      assert nodes[i] in nodes;
    }
  }

  lemma EndpointsHead(nodes: seq<Node>)
    requires nodes != []
    ensures Endpoints(nodes) == {nodes[0].publicIp} + Endpoints(nodes[1..])
  {
    assert nodes == [nodes[0]] + nodes[1..];
    EndpointsAppend([nodes[0]], nodes[1..]);
  }

  lemma {:induction false} EndpointsSize(nodes: seq<Node>)
    ensures |Endpoints(nodes)| <= |nodes|
    ensures |Endpoints(nodes)| == |nodes| <==> Distinct(EndpointList(nodes))
  {
    if nodes == [] {
      assert Endpoints(nodes) == {};
    } else {
      var ip, rest := nodes[0].publicIp, Endpoints(nodes[1..]);
      EndpointsSize(nodes[1..]);
      EndpointsHead(nodes);
      assert |{ip} + rest| == |rest| + (if ip in rest then 0 else 1) by {
        if ip in rest {
          assert {ip} + rest == rest;
        }
      }
      DistinctHead(nodes);
    }
  }

  lemma DistinctHead(nodes: seq<Node>)
    requires nodes != []
    ensures Distinct(EndpointList(nodes)) <==>
            Distinct(EndpointList(nodes[1..])) && nodes[0].publicIp !in Endpoints(nodes[1..])
  {
    assert EndpointList(nodes)[1..] == EndpointList(nodes[1..]);
    EndpointMember(nodes[1..], nodes[0].publicIp);
    DistinctStep(EndpointList(nodes));
  }

  /** A pool in sync is counted correctly exactly under these conditions. */
  predicate Countable(p: NodePool)
  {
    match p.kind
    case Dynamic(_, _, _) => |p.nodes| < 0x8000_0000
    case Static(_) => Distinct(EndpointList(p.nodes))
    case Untyped => p.nodes == []
  }

  lemma PoolCountExact(p: NodePool)
    requires InSync(p)
    ensures PoolCount(p) <= |p.nodes|
    ensures PoolCount(p) == |p.nodes| <==> Countable(p)
  {
    EndpointsSize(p.nodes);
    if p.kind.Static? {
      assert |p.kind.nodeKeys| == |p.kind.nodeKeys.Keys|;
    }
  }

  /** The node count is never too high, and right exactly when every pool is counted correctly. */
  lemma {:induction false} TotalCountExact(pools: seq<NodePool>)
    requires forall p :: p in pools ==> InSync(p)
    ensures TotalCount(pools) <= TotalNodes(pools)
    ensures TotalCount(pools) == TotalNodes(pools) <==> forall p :: p in pools ==> Countable(p)
  {
    if pools != [] {
      assert pools == [pools[0]] + pools[1..];
      PoolCountExact(pools[0]);
      TotalCountExact(pools[1..]);
    }
  }

  // -------------------------------------------------- deleting across pools

  predicate ContainsNode(pools: seq<NodePool>, name: string)
  {
    exists p :: p in pools && exists n :: n in p.nodes && n.name == name
  }

  /** The position of the first pool that holds a node of the given name. */
  function IndexOfPool(pools: seq<NodePool>, name: string): (i: nat)
    ensures i <= |pools|
    ensures i < |pools| ==> IndexOfNode(pools[i].nodes, name) < |pools[i].nodes|
    ensures forall k :: 0 <= k < i ==> IndexOfNode(pools[k].nodes, name) == |pools[k].nodes|
  {
    if pools == [] || IndexOfNode(pools[0].nodes, name) < |pools[0].nodes| then 0
    else 1 + IndexOfPool(pools[1..], name)
  }

  function DeletedByName(pools: seq<NodePool>, name: string, keep: set<string>): seq<NodePool>
  {
    var i := IndexOfPool(pools, name);
    if i == |pools| then pools
    else
      var p := AfterDeleteOne(pools[i], name);
      if p.nodes == [] && p.name !in keep then pools[..i] + pools[i + 1..]
      else pools[i := p]
  }

  lemma ContainsIffFound(pools: seq<NodePool>, name: string)
    ensures ContainsNode(pools, name) <==> IndexOfPool(pools, name) < |pools|
  {
    var i := IndexOfPool(pools, name);
    if i < |pools| {
      var p := pools[i];
      var n := p.nodes[IndexOfNode(p.nodes, name)];
      assert p in pools && n in p.nodes && n.name == name;
    }
  }

  lemma {:induction false} TotalsAppend(a: seq<NodePool>, b: seq<NodePool>)
    ensures TotalCount(a + b) == TotalCount(a) + TotalCount(b)
    ensures TotalNodes(a + b) == TotalNodes(a) + TotalNodes(b)
  {
    if a == [] {
      assert a + b == b;
    } else {
      assert (a + b)[1..] == a[1..] + b;
      TotalsAppend(a[1..], b);
    }
  }

  lemma KeysWithout(keys: map<string, string>, ip: string)
    requires ip in keys
    ensures |keys - {ip}| == |keys| - 1
  {
    var left := keys - {ip};
    assert left.Keys == keys.Keys - {ip};
    assert |left| == |left.Keys| && |keys| == |keys.Keys|;
  }

  /** The count of the pool can go down: it is counted at all, and is not at its lowest value. */
  predicate CountsDown(p: NodePool)
  {
    match p.kind
    case Dynamic(c, _, _) => c > -0x8000_0000
    case Static(_) => true
    case Untyped => false
  }

  lemma DeleteOneCount(p: NodePool, name: string)
    requires InSync(p) && IndexOfNode(p.nodes, name) < |p.nodes|
    ensures PoolCount(AfterDeleteOne(p, name)) == PoolCount(p) - 1 <==> CountsDown(p)
    ensures |AfterDeleteOne(p, name).nodes| == |p.nodes| - 1
    ensures AfterDeleteOne(p, name).nodes == [] ==> PoolCount(AfterDeleteOne(p, name)) == 0
  {
    var n := p.nodes[IndexOfNode(p.nodes, name)];
    assert n in p.nodes;
    if p.kind.Static? {
      KeysWithout(p.kind.nodeKeys, n.publicIp);
      if |p.nodes| == 1 {
        EndpointsHead(p.nodes);
        assert |p.kind.nodeKeys| == |p.kind.nodeKeys.Keys|;
        assert Endpoints(p.nodes) == {n.publicIp};
      }
    }
  }

  lemma TotalsSplit(pools: seq<NodePool>, i: nat)
    requires i < |pools|
    ensures TotalCount(pools) == TotalCount(pools[..i]) + PoolCount(pools[i]) + TotalCount(pools[i + 1..])
    ensures TotalNodes(pools) == TotalNodes(pools[..i]) + |pools[i].nodes| + TotalNodes(pools[i + 1..])
  {
    assert pools == pools[..i] + pools[i..];
    TotalsAppend(pools[..i], pools[i..]);
    assert pools[i..][1..] == pools[i + 1..];
  }

  /**
   Deleting by name takes one node away exactly when the node exists, and lowers the count
   likewise exactly when the pool that holds it can count down.
   */
  lemma DeleteByNameCount(pools: seq<NodePool>, name: string, keep: set<string>)
    requires forall p :: p in pools ==> InSync(p)
    ensures var one, i := if ContainsNode(pools, name) then 1 else 0, IndexOfPool(pools, name);
            && TotalNodes(DeletedByName(pools, name, keep)) == TotalNodes(pools) - one
            && (TotalCount(DeletedByName(pools, name, keep)) == TotalCount(pools) - one <==>
                (i < |pools| ==> CountsDown(pools[i])))
  {
    ContainsIffFound(pools, name);
    var i := IndexOfPool(pools, name);
    if i < |pools| {
      var p := AfterDeleteOne(pools[i], name);
      assert pools[i] in pools;
      DeleteOneCount(pools[i], name);
      TotalsSplit(pools, i);
      var changed := pools[i := p];
      TotalsSplit(changed, i);
      assert changed[..i] == pools[..i] && changed[i + 1..] == pools[i + 1..];
      TotalsAppend(pools[..i], pools[i + 1..]);
    }
  }

  /** Deleting by name takes a pool off the list only if it is left without nodes and need not be kept. */
  lemma PoolsKept(pools: seq<NodePool>, name: string, keep: set<string>)
    ensures var i, r := IndexOfPool(pools, name), DeletedByName(pools, name, keep);
            && (forall k :: 0 <= k < i ==> k < |r| && r[k] == pools[k])
            && (i == |pools| ==> r == pools)
            && (i < |pools| && |r| == |pools| ==>
                  r[i].name == pools[i].name && (r[i].nodes != [] || pools[i].name in keep) && r[i + 1..] == pools[i + 1..])
            && (i < |pools| && |r| != |pools| ==>
                  |pools[i].nodes| == 1 && pools[i].name !in keep && r == pools[..i] + pools[i + 1..])
  {
  }
}
