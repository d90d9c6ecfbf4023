/**
 Laws of result consumption: every run of results keeps the task sound, a delta is rewritten
 once and for all, and deletions lose no node.
 */
module TaskLaws {
  import opened Sequences
  import opened Spec
  import opened PoolValues
  import opened Merging
  import opened Deltas
  import opened Tasks

  // ------------------------------------------------------------------- one call

  /** A failed update never touches the clusters; it changes the task only in one way. */
  lemma FailedUpdate(job: Job, c: Change)
    requires TakesUpdates(job) && ConsumeUpdate(job, c).outcome != Ok
    ensures !job.NoJob?
    ensures var u := ConsumeUpdate(job, c);
            && !u.job.NoJob? && u.job.state == job.state && u.rest == c
            && (u.job != job <==> job.Update? && IsDeletion(job.delta) && PendingDeletion(job).Rewritten?)
            && (u.job != job ==> Mismatched(job, c))
  {
  }

  /** A deletion is rewritten although the result is for another cluster. */
  lemma RefusedButRewritten() returns (job: Job, c: Change)
    ensures TakesUpdates(job) && ConsumeUpdate(job, c).outcome.WrongCluster? && ConsumeUpdate(job, c).job != job
  {
    var p := NodePool("p", [], Untyped, false, map[], 0);
    var k := K8s(ClusterInfo("main", "0000000", [p]), "", "", "");
    job := Job.Update(Clusters(Some(k), []), KDeleteNodes(true, "p", [], None));
    c := Change(Some(k.(info := ClusterInfo("other", "0000000", []))), []);
    assert k.info.nodePools[0] == p && k.Id()[0] == 'm' && c.k8s.value.Id()[0] == 'o';
    assert FindPool([p], "p") == Some(p);
  }

  /** A successful update settles the delta, keeps its subject, and empties the result. */
  lemma UpdateSettles(job: Job, c: Change)
    requires job.Update? && TakesUpdates(job) && ConsumeUpdate(job, c).outcome == Ok
    ensures var u := ConsumeUpdate(job, c);
            && u.rest == Change(None, [])
            && u.job.Update? && !Consumable(u.job.delta)
            && SameSubject(job.delta, u.job.delta)
            && UnreachableOf(u.job.delta) == UnreachableOf(job.delta)
            && (!IsDeletion(job.delta) ==>
                  NamesOf(u.job.delta) == NamesOf(job.delta) && DetailsOf(u.job.delta) == DetailsOf(job.delta))
  {
    RewriteFinal(job.delta, job.state.k8s.value, job.state.lbs, NewK8s(job, c));
  }

  // ------------------------------------------------------ what the result brings

  lemma {:induction false} FindSelected(s: seq<Lb>, p: Lb -> bool, id: string)
    ensures Find(Filter(s, p), id) == FindBy(s, (u: Lb) => p(u) && u.Id() == id)
  {
    if s != [] {
      FindSelected(s[1..], p, id);
    }
  }

  /**
   An accepted update installs the whole cluster that it brings.  Looking up a load balancer
   afterwards gives the first update of it for this cluster, or else what was there before.
   */
  lemma UpdateBrings(job: Job, c: Change, id: string)
    requires TakesUpdates(job) && !job.NoJob? && ConsumeUpdate(job, c).outcome == Ok
    ensures var u, name := ConsumeUpdate(job, c).job, job.state.k8s.value.info.name;
            var brought := FindBy(c.lbs, (lb: Lb) => lb.targetedK8s == name && lb.Id() == id);
            && !u.NoJob? && u.Create? == job.Create? && u.Delete? == job.Delete? && u.Update? == job.Update?
            && u.state.k8s == (if c.k8s.Some? then c.k8s else job.state.k8s)
            && Find(u.state.lbs, id) == (if brought.Some? then brought else Find(job.state.lbs, id))
  {
    var name := job.state.k8s.value.info.name;
    var p := (lb: Lb) => lb.targetedK8s == name;
    FindSelected(c.lbs, p, id);
    FindCongruent(c.lbs, (u: Lb) => p(u) && u.Id() == id, (lb: Lb) => lb.targetedK8s == name && lb.Id() == id);
    FindMerge(job.state.lbs, Targeting(c.lbs, name), id);
  }

  lemma {:induction false} FindCongruent(s: seq<Lb>, p: Lb -> bool, q: Lb -> bool)
    requires forall u :: p(u) == q(u)
    ensures FindBy(s, p) == FindBy(s, q)
  {
    if s != [] {
      FindCongruent(s[1..], p, q);
    }
  }

  predicate HasPool(pools: seq<NodePool>, name: string)
  {
    exists p :: p in pools && p.name == name
  }

  /** The cluster that a pending deletion is about. */
  function DeletionPools(job: Job): Option<seq<NodePool>>
    requires job.Update? && job.state.k8s.Some? && IsDeletion(job.delta)
  {
    if job.delta.KDeleteNodes? then Some(job.state.k8s.value.info.nodePools)
    else
      match Find(job.state.lbs, job.delta.handle)
      case Some(lb) => Some(lb.info.nodePools)
      case None => None
  }

  /** Which update is refused, and with which words: unknown load balancer, unknown pool, wrong cluster. */
  lemma Refusals(job: Job, c: Change)
    requires !job.NoJob? && job.state.k8s.Some?
    ensures var deleting, o := job.Update? && IsDeletion(job.delta), ConsumeUpdate(job, c).outcome;
            && (o.NoSuchBalancer? <==> deleting && !job.delta.KDeleteNodes? && job.delta.handle !in Ids(job.state.lbs))
            && (o.NoSuchBalancer? ==> o.handle == job.delta.handle)
            && (o.NoSuchPool? <==> deleting && DeletionPools(job).Some?
                                   && !HasPool(DeletionPools(job).value, job.delta.nodepool))
            && (o.NoSuchPool? ==> o.nodepool == job.delta.nodepool)
            && (o.WrongCluster? ==> c.k8s.Some? && o.expected == job.state.k8s.value.Id() && o.got == c.k8s.value.Id()
                                    && o.expected != o.got)
            && !o.BalancersRemain?
  {
    if job.Update? && job.delta.TfDeleteLoadBalancerNodes? {
      FindSound(job.state.lbs, job.delta.handle);
    }
  }

  /** A clear takes away every load balancer that it lists and no other, whatever its outcome. */
  lemma ClearTakes(job: Job, c: Clearing, lb: Lb)
    requires !job.NoJob?
    ensures var (j, outcome) := ConsumeClear(job, c);
            && !j.NoJob? && j.Create? == job.Create? && j.Delete? == job.Delete? && j.Update? == job.Update?
            && (job.Update? ==> j.delta == job.delta)
            && multiset(j.state.lbs)[lb] == (if lb.Id() in c.lbIds then 0 else multiset(job.state.lbs)[lb])
            && (outcome == BalancersRemain <==>
                  c.k8s == Some(true) && exists x :: x in job.state.lbs && x.Id() !in c.lbIds)
            && (outcome != BalancersRemain ==> outcome == Ok)
            && j.state.k8s == (if c.k8s == Some(true) && outcome == Ok then None else job.state.k8s)
  {
    var left := Remaining(job.state.lbs, c.lbIds);
    SelectedCount(job.state.lbs, (x: Lb) => x.Id() !in c.lbIds, lb);
    if left != [] {
      FilterMember(job.state.lbs, (x: Lb) => x.Id() !in c.lbIds, left[0]);
      assert left[0] in job.state.lbs;
    } else {
      forall x | x in job.state.lbs ensures x.Id() in c.lbIds {
        FilterMember(job.state.lbs, (x: Lb) => x.Id() !in c.lbIds, x);
      }
    }
  }

  lemma {:induction false} SelectedCount(s: seq<Lb>, p: Lb -> bool, x: Lb)
    ensures multiset(Filter(s, p))[x] == if p(x) then multiset(s)[x] else 0
  {
    if s != [] {
      SelectedCount(s[1..], p, x);
      assert s == [s[0]] + s[1..];
    }
  }

  /** The setting recorded for a pool that leaves autoscaling is that of the last dynamic pool of its name. */
  lemma RecordedScaler(job: Job, c: Change, i: nat)
    requires TakesUpdates(job) && job.Update? && job.delta.TfMoveNodePoolFromAutoscaled?
    requires ConsumeUpdate(job, c).outcome == Ok
    ensures var u, name := ConsumeUpdate(job, c).job, job.delta.nodepool;
            var pools := (if c.k8s.Some? then c.k8s else job.state.k8s).value.info.nodePools;
            && u.Update? && u.delta.MovedNodePoolFromAutoscaled? && u.delta.nodepool == name
            && (LastDynamic(pools, name, i) ==> u.delta.config == pools[i].kind.autoscaler)
            && ((forall p :: p in pools && p.name == name ==> !p.kind.Dynamic?) ==> u.delta.config == None)
  {
    var pools := (if c.k8s.Some? then c.k8s else job.state.k8s).value.info.nodePools;
    ScalerMissing(pools, job.delta.nodepool);
    if LastDynamic(pools, job.delta.nodepool, i) {
      ScalerFound(pools, job.delta.nodepool, i);
    }
  }

  // ----------------------------------------------------------------- whole runs

  datatype Event = Updated(change: Change) | Cleared(clearing: Clearing)

  predicate Enabled(job: Job, e: Event)
  {
    e.Updated? ==> TakesUpdates(job)
  }

  function Next(job: Job, e: Event): Job
    requires Enabled(job, e)
  {
    match e
    case Updated(c) => ConsumeUpdate(job, c).job
    case Cleared(c) => ConsumeClear(job, c).0
  }

  /** What the builders produce: each load balancer once, and generated hashes. */
  predicate WellBuilt(e: Event)
  {
    e.Updated? ==>
      && Distinct(Ids(e.change.lbs))
      && (e.change.k8s.Some? ==> WellHashed(e.change.k8s.value.info))
  }

  lemma CombineWellBuilt(a: Change, b: Change)
    requires WellBuilt(Updated(a)) && WellBuilt(Updated(b))
    ensures WellBuilt(Updated(Combine(a, b)))
  {
    MergeKeepsDistinct(a.lbs, b.lbs);
  }

  /**
   The task still works on the cluster it was created for, or that cluster and all its load
   balancers are gone; the load balancers are distinct and all target that cluster.
   */
  ghost predicate Sound(job: Job, info: ClusterInfo)
  {
    !job.NoJob? ==>
      && (job.state.k8s.None? ==> job.state.lbs == [])
      && (job.state.k8s.Some? ==>
            job.state.k8s.value.info.name == info.name && job.state.k8s.value.info.hash == info.hash)
      && Distinct(Ids(job.state.lbs))
      && forall lb :: lb in job.state.lbs ==> lb.targetedK8s == info.name
  }

  lemma {:induction false} DistinctIdsFilter(s: seq<Lb>, p: Lb -> bool)
    requires Distinct(Ids(s))
    ensures Distinct(Ids(Filter(s, p)))
  {
    if s != [] {
      assert Ids(s)[1..] == Ids(s[1..]);
      DistinctTail(Ids(s));
      DistinctIdsFilter(s[1..], p);
      var f := Filter(s, p);
      if p(s[0]) {
        assert Ids(f)[1..] == Ids(Filter(s[1..], p));
        forall k | 0 <= k < |f[1..]| ensures f[1..][k].Id() != s[0].Id() {
          FilterMember(s[1..], p, f[1..][k]);
          var m :| 0 <= m < |s[1..]| && s[1..][m] == f[1..][k];
          assert Ids(s[1..])[m] == f[1..][k].Id();
        }
        DistinctStep(Ids(f));
      }
    }
  }

  lemma SoundUpdate(job: Job, c: Change, info: ClusterInfo)
    requires WellHashed(info) && Sound(job, info)
    requires TakesUpdates(job) && WellBuilt(Updated(c))
    ensures Sound(ConsumeUpdate(job, c).job, info)
  {
    var u := ConsumeUpdate(job, c);
    if !job.NoJob? && u.outcome == Ok {
      var p := (lb: Lb) => lb.targetedK8s == info.name;
      var ours := Filter(c.lbs, p);
      assert ours == Targeting(c.lbs, job.state.k8s.value.info.name);
      if c.k8s.Some? {
        IdInjective(c.k8s.value.info, job.state.k8s.value.info);
      }
      DistinctIdsFilter(c.lbs, p);
      MergeKeepsDistinct(job.state.lbs, ours);
      forall lb | lb in u.job.state.lbs ensures lb.targetedK8s == info.name {
        MergeMember(job.state.lbs, ours, lb);
        FilterMember(c.lbs, p, lb);
      }
    }
  }

  lemma SoundClear(job: Job, c: Clearing, info: ClusterInfo)
    requires Sound(job, info)
    ensures Sound(ConsumeClear(job, c).0, info)
  {
    if !job.NoJob? {
      var p := (lb: Lb) => lb.Id() !in c.lbIds;
      DistinctIdsFilter(job.state.lbs, p);
      forall lb | lb in Remaining(job.state.lbs, c.lbIds) ensures lb in job.state.lbs {
        FilterMember(job.state.lbs, p, lb);
      }
    }
  }

  function RunAll(job: Job, es: seq<Event>): Job
    requires Runnable(job, es)
    decreases |es|
  {
    if es == [] then job else RunAll(Next(job, es[0]), es[1..])
  }

  predicate Runnable(job: Job, es: seq<Event>)
    decreases |es|
  {
    es == [] || (Enabled(job, es[0]) && Runnable(Next(job, es[0]), es[1..]))
  }

  /** Soundness holds after every run of results, successful or refused. */
  lemma {:induction false} RunSound(job: Job, es: seq<Event>, info: ClusterInfo)
    requires WellHashed(info) && Sound(job, info) && Runnable(job, es)
    requires forall e :: e in es ==> WellBuilt(e)
    ensures Sound(RunAll(job, es), info)
    decreases |es|
  {
    if es != [] {
      assert es[0] in es;
      match es[0] {
        case Updated(c) => SoundUpdate(job, c, info);
        case Cleared(c) => SoundClear(job, c, info);
      }
      RunSound(Next(job, es[0]), es[1..], info);
    }
  }

  predicate Alive(job: Job)
  {
    !job.NoJob? && job.state.k8s.Some?
  }

  /** An event removes the cluster exactly when it is a clear that leaves no load balancer. */
  lemma RemovalStep(job: Job, e: Event)
    requires Alive(job) && Enabled(job, e)
    ensures !Alive(Next(job, e)) <==>
            e.Cleared? && e.clearing.k8s == Some(true)
            && forall lb :: lb in job.state.lbs ==> lb.Id() in e.clearing.lbIds
  {
    if e.Cleared? {
      var p := (lb: Lb) => lb.Id() !in e.clearing.lbIds;
      var left := Filter(job.state.lbs, p);
      if forall lb :: lb in job.state.lbs ==> lb.Id() in e.clearing.lbIds {
        FilterNone(job.state.lbs, p);
      }
      forall lb | lb in job.state.lbs && left == [] ensures lb.Id() in e.clearing.lbIds {
        FilterMember(job.state.lbs, p, lb);
      }
    }
  }

  lemma {:induction false} RunnablePrefix(job: Job, es: seq<Event>, n: nat)
    requires Runnable(job, es) && n < |es|
    ensures Runnable(job, es[..n]) && Enabled(RunAll(job, es[..n]), es[n])
    ensures n > 0 ==> Runnable(Next(job, es[0]), es[1..][..n - 1])
    ensures n > 0 ==> RunAll(job, es[..n]) == RunAll(Next(job, es[0]), es[1..][..n - 1])
    decreases n
  {
    if n > 0 {
      assert es[..n][0] == es[0] && es[..n][1..] == es[1..][..n - 1];
      RunnablePrefix(Next(job, es[0]), es[1..], n - 1);
    }
  }

  /** The event that clears the cluster: at its moment every remaining load balancer is listed. */
  ghost predicate ClearsAt(job: Job, es: seq<Event>, n: nat)
    requires Runnable(job, es) && n < |es|
  {
    RunnablePrefix(job, es, n);
    var before := RunAll(job, es[..n]);
    && Alive(before)
    && es[n].Cleared? && es[n].clearing.k8s == Some(true)
    && forall lb :: lb in before.state.lbs ==> lb.Id() in es[n].clearing.lbIds
  }

  /** In any run the cluster disappears only through a clear that left no load balancer behind. */
  lemma {:induction false} RemovedOnlyWhenEmpty(job: Job, es: seq<Event>)
    requires Alive(job) && Runnable(job, es) && !Alive(RunAll(job, es))
    ensures exists n: nat :: n < |es| && ClearsAt(job, es, n)
    decreases |es|
  {
    RemovalStep(job, es[0]);
    if Alive(Next(job, es[0])) {
      RemovedOnlyWhenEmpty(Next(job, es[0]), es[1..]);
      var n: nat :| n < |es[1..]| && ClearsAt(Next(job, es[0]), es[1..], n);
      RunnablePrefix(job, es, n + 1);
      RunnablePrefix(Next(job, es[0]), es[1..], n);
      assert es[1..][n] == es[n + 1];
      assert ClearsAt(job, es, n + 1);
    } else {
      assert es[..0] == [];
      assert ClearsAt(job, es, 0);
    }
  }

  predicate Lists(e: Event, id: string)
  {
    e.Cleared? && id in e.clearing.lbIds
  }

  lemma UpdateKeepsBalancer(job: Job, c: Change, id: string)
    requires TakesUpdates(job) && !job.NoJob? && id in Ids(job.state.lbs)
    ensures var j := ConsumeUpdate(job, c).job; !j.NoJob? && id in Ids(j.state.lbs)
  {
    var ours := Targeting(c.lbs, job.state.k8s.value.info.name);
    FindSound(job.state.lbs, id);
    FindMerge(job.state.lbs, ours, id);
    FindSound(Merge(job.state.lbs, ours), id);
  }

  lemma ClearKeepsBalancer(job: Job, c: Clearing, id: string)
    requires !job.NoJob? && id in Ids(job.state.lbs) && id !in c.lbIds
    ensures var j := ConsumeClear(job, c).0; !j.NoJob? && id in Ids(j.state.lbs)
  {
    FindSound(job.state.lbs, id);
    var lb, left := Find(job.state.lbs, id).value, Remaining(job.state.lbs, c.lbIds);
    FilterMember(job.state.lbs, (lb: Lb) => lb.Id() !in c.lbIds, lb);
    var m :| 0 <= m < |left| && left[m] == lb;
    assert Ids(left)[m] == id;
  }

  /** A load balancer is lost only by being listed in a clear. */
  lemma {:induction false} BalancerSurvives(job: Job, es: seq<Event>, id: string)
    requires Runnable(job, es) && !job.NoJob? && id in Ids(job.state.lbs)
    requires forall e :: e in es ==> !Lists(e, id)
    ensures !RunAll(job, es).NoJob? && id in Ids(RunAll(job, es).state.lbs)
    decreases |es|
  {
    if es != [] {
      assert es[0] in es;
      match es[0] {
        case Updated(c) => UpdateKeepsBalancer(job, c, id);
        case Cleared(c) => ClearKeepsBalancer(job, c, id);
      }
      BalancerSurvives(Next(job, es[0]), es[1..], id);
    }
  }

  /** Once settled, a delta is the same after every later run. */
  lemma {:induction false} DeltaStaysSettled(job: Job, es: seq<Event>)
    requires job.Update? && !Consumable(job.delta) && Runnable(job, es)
    ensures RunAll(job, es).Update? && RunAll(job, es).delta == job.delta
    decreases |es|
  {
    if es != [] {
      DeltaStaysSettled(Next(job, es[0]), es[1..]);
    }
  }

  // -------------------------------------------------------------- conservation

  /** What a partial deletion recorded and what the pool still holds make up the old pool. */
  ghost predicate Conserved(before: NodePool, recorded: Deleted, after: NodePool)
  {
    && recorded.Partial?
    && multiset(recorded.nodes) + multiset(after.nodes) == multiset(before.nodes)
    && multiset(recorded.nodes) !! multiset(after.nodes)
    && (before.kind.Static? ==>
          && after.kind.Static?
          && recorded.staticNodeKeys + after.kind.nodeKeys == before.kind.nodeKeys
          && recorded.staticNodeKeys.Keys !! after.kind.nodeKeys.Keys)
  }

  /** The pool has a key for every node that goes. */
  predicate KeysRecorded(pool: NodePool, names: seq<string>)
  {
    pool.kind.Static? ==> Endpoints(Taken(pool.nodes, names)) <= pool.kind.nodeKeys.Keys
  }

  lemma PoolConserved(pool: NodePool, names: seq<string>)
    ensures Conserved(pool, DeletedFrom(pool, false, names), AfterDelete(pool, names)) <==> KeysRecorded(pool, names)
  {
    NodePartition(pool.nodes, names);
    if pool.kind.Static? {
      var gone, keys := Endpoints(Taken(pool.nodes, names)), pool.kind.nodeKeys;
      var found := KeysFor(Taken(pool.nodes, names), keys);
      assert (found + (keys - gone)).Keys == gone + keys.Keys;
      if gone <= keys.Keys {
        assert found + (keys - gone) == keys;
      }
    }
  }

  /** A static node without a key leaves an empty key behind that the pool never had. */
  lemma DeletionInventsKey() returns (pool: NodePool, names: seq<string>)
    ensures !Conserved(pool, DeletedFrom(pool, false, names), AfterDelete(pool, names))
  {
    var n := Node("a", "10.0.0.1", "", Worker, "root");
    pool, names := NodePool("p", [n], Static(map[]), false, map[], 0), ["a"];
    FilterAll([n], (n: Node) => n.name in names);
    assert n in Taken(pool.nodes, names) && n.publicIp in Endpoints(Taken(pool.nodes, names));
    PoolConserved(pool, names);
  }

  /** Both kinds of partial deletion record what they take out of the pool as it was. */
  lemma DeletionRecords(job: Job, c: Change, before: NodePool)
    requires job.Update? && TakesUpdates(job) && IsDeletion(job.delta) && !job.delta.withNodePool && !Mismatched(job, c)
    requires PendingDeletion(job).Rewritten?
    requires if job.delta.KDeleteNodes?
             then FindPool(job.state.k8s.value.info.nodePools, job.delta.nodepool) == Some(before)
             else Find(job.state.lbs, job.delta.handle).Some?
                  && FindPool(Find(job.state.lbs, job.delta.handle).value.info.nodePools, job.delta.nodepool) == Some(before)
    ensures var u, d := ConsumeUpdate(job, c), DeletedFrom(before, false, job.delta.names);
            && u.outcome == Ok && u.job.Update? && u.job.state == NewState(job, c)
            && (job.delta.KDeleteNodes? ==> u.job.delta == DeletedK8sNodes(job.delta.unreachable, d))
            && (!job.delta.KDeleteNodes? ==>
                  u.job.delta == DeletedLoadBalancerNodes(job.delta.unreachable, job.delta.handle, d))
  {
  }

  /** Deleting nodes of the Kubernetes cluster loses nothing exactly when their keys were known. */
  lemma K8sDeletionConserves(job: Job, c: Change, before: NodePool, after: NodePool)
    requires job.Update? && TakesUpdates(job) && job.delta.KDeleteNodes? && !job.delta.withNodePool
    requires c.k8s.Some? && !Mismatched(job, c)
    requires FindPool(job.state.k8s.value.info.nodePools, job.delta.nodepool) == Some(before)
    requires FindPool(c.k8s.value.info.nodePools, job.delta.nodepool) == Some(after)
    requires after == AfterDelete(before, job.delta.names)
    ensures var u := ConsumeUpdate(job, c);
            && u.outcome == Ok
            && u.job.Update? && u.job.delta.DeletedK8sNodes?
            && FindPool(u.job.state.k8s.value.info.nodePools, job.delta.nodepool) == Some(after)
            && (Conserved(before, u.job.delta.deleted, after) <==> KeysRecorded(before, job.delta.names))
  {
    DeletionRecords(job, c, before);
    PoolConserved(before, job.delta.names);
  }

  /** The same for deleting nodes of a load balancer. */
  lemma LbDeletionConserves(job: Job, c: Change, lb: Lb, lb': Lb, before: NodePool, after: NodePool)
    requires job.Update? && TakesUpdates(job) && job.delta.TfDeleteLoadBalancerNodes? && !job.delta.withNodePool
    requires !Mismatched(job, c)
    requires Find(job.state.lbs, job.delta.handle) == Some(lb)
    requires Find(Targeting(c.lbs, job.state.k8s.value.info.name), job.delta.handle) == Some(lb')
    requires FindPool(lb.info.nodePools, job.delta.nodepool) == Some(before)
    requires FindPool(lb'.info.nodePools, job.delta.nodepool) == Some(after)
    requires after == AfterDelete(before, job.delta.names)
    ensures var u := ConsumeUpdate(job, c);
            && u.outcome == Ok
            && u.job.Update? && u.job.delta.DeletedLoadBalancerNodes?
            && u.job.delta.handle == job.delta.handle
            && Find(u.job.state.lbs, job.delta.handle) == Some(lb')
            && (Conserved(before, u.job.delta.deleted, after) <==> KeysRecorded(before, job.delta.names))
  {
    DeletionRecords(job, c, before);
    PoolConserved(before, job.delta.names);
    FindMerge(job.state.lbs, Targeting(c.lbs, job.state.k8s.value.info.name), job.delta.handle);
  }

  /** Deleting a whole pool records that pool as it was, whatever the result brings. */
  lemma WholeDeletionRecords(job: Job, c: Change)
    requires job.Update? && TakesUpdates(job) && IsDeletion(job.delta) && job.delta.withNodePool
    requires ConsumeUpdate(job, c).outcome == Ok
    ensures var u, pools := ConsumeUpdate(job, c).job,
                            if job.delta.KDeleteNodes? then job.state.k8s.value.info.nodePools
                            else if Find(job.state.lbs, job.delta.handle).Some?
                            then Find(job.state.lbs, job.delta.handle).value.info.nodePools else [];
            && u.Update? && (u.delta.DeletedK8sNodes? || u.delta.DeletedLoadBalancerNodes?)
            && u.delta.deleted.Whole? && Some(u.delta.deleted.pool) == FindPool(pools, job.delta.nodepool)
  {
  }
}
