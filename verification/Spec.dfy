/**
 The messages exchanged between the manager and its workers: nodes, node pools,
 clusters, and the state carried by tasks.  All of them are plain values.
 */
module Spec {
  import opened Sequences

  /** Number of characters in every hash that the system generates. */
  const HASH_LENGTH: nat := 7

  /** The range of the wire type that holds node counts. */
  type Int32 = x: int | -0x8000_0000 <= x < 0x8000_0000

  datatype NodeType = Worker | Master | ApiEndpoint

  datatype Node = Node(name: string, publicIp: string, privateIp: string, nodeType: NodeType, username: string)

  datatype AutoscalerConf = AutoscalerConf(min: int, max: int, targetSize: int)

  /** `count` and `nodeKeys` repeat, in another form, what the pool's node list says. */
  datatype PoolKind =
    | Dynamic(count: Int32, autoscaler: Option<AutoscalerConf>, region: string)
    | Static(nodeKeys: map<string, string>)
    | Untyped

  datatype NodePool = NodePool(
    name: string,
    nodes: seq<Node>,
    kind: PoolKind,
    isControl: bool,
    labels: map<string, string>,
    sshPort: int)

  datatype ClusterInfo = ClusterInfo(name: string, hash: string, nodePools: seq<NodePool>) {
    function Id(): string {
      name + "-" + hash
    }
  }

  datatype K8s = K8s(info: ClusterInfo, network: string, kubeconfig: string, version: string) {
    function Id(): string {
      info.Id()
    }
  }

  datatype Role = Role(name: string, port: int, targetPort: int, targetPools: seq<string>)

  datatype Lb = Lb(info: ClusterInfo, roles: seq<Role>, targetedK8s: string, usedApiEndpoint: bool) {
    function Id(): string {
      info.Id()
    }
  }

  predicate WellHashed(info: ClusterInfo)
  {
    |info.hash| == HASH_LENGTH
  }

  /** With hashes of the generated length an ID determines both the name and the hash. */
  lemma IdInjective(a: ClusterInfo, b: ClusterInfo)
    requires WellHashed(a) && WellHashed(b)
    ensures a.Id() == b.Id() <==> a.name == b.name && a.hash == b.hash
  {
    if a.Id() == b.Id() {
      var x, y := a.Id(), b.Id();
      assert |a.name| == |b.name|;
      assert a.name == x[..|a.name|] && b.name == y[..|b.name|];
      assert a.hash == x[|a.name| + 1..] && b.hash == y[|b.name| + 1..];
    }
  }

  /** Without that length two different clusters can carry the same ID. */
  lemma IdCollides()
    ensures exists a: ClusterInfo, b: ClusterInfo :: a.name != b.name && a.Id() == b.Id()
  {
    var a := ClusterInfo("a", "b-c", []);
    var b := ClusterInfo("a-b", "c", []);
    assert a.Id() == "a-b-c" == b.Id();
  }
}
