/**
 Tasks, the results that workers build for them, and the consumption of a result by the
 manager.  A task owns a Kubernetes cluster and its load balancers; an update task also
 owns a pending change.
 */
module Tasks {
  import opened Sequences
  import opened Spec
  import opened Merging
  import opened Deltas

  datatype Clusters = Clusters(k8s: Option<K8s>, lbs: seq<Lb>)

  datatype Job =
    | Create(state: Clusters)
    | Delete(state: Clusters)
    | Update(state: Clusters, delta: Delta)
    | NoJob

  /** The contents of an update result. */
  datatype Change = Change(k8s: Option<K8s>, lbs: seq<Lb>)

  /** The contents of a clear result. */
  datatype Clearing = Clearing(k8s: Option<bool>, lbIds: seq<string>)

  datatype Outcome =
    | Ok
    | NoSuchPool(nodepool: string)
    | NoSuchBalancer(handle: string)
    | WrongCluster(expected: string, got: string)
    | BalancersRemain

  // ------------------------------------------------------------ specification

  datatype Consumed = Consumed(job: Job, rest: Change, outcome: Outcome)

  /** The source dereferences the cluster, so a task that was already cleared takes no update. */
  predicate TakesUpdates(job: Job)
  {
    job.NoJob? || job.state.k8s.Some?
  }

  function Targeting(lbs: seq<Lb>, name: string): seq<Lb>
  {
    Filter(lbs, (lb: Lb) => lb.targetedK8s == name)
  }

  function PendingDeletion(job: Job): Rewrite
    requires !job.NoJob? && job.state.k8s.Some?
  {
    if job.Update? then ConsumeDeletion(job.delta, job.state.k8s.value, job.state.lbs) else Rewritten(Unset)
  }

  function NewK8s(job: Job, c: Change): K8s
    requires !job.NoJob? && job.state.k8s.Some?
  {
    if c.k8s.Some? then c.k8s.value else job.state.k8s.value
  }

  function NewState(job: Job, c: Change): Clusters
    requires !job.NoJob? && job.state.k8s.Some?
  {
    Clusters(Some(NewK8s(job, c)), Merge(job.state.lbs, Targeting(c.lbs, job.state.k8s.value.info.name)))
  }

  predicate Mismatched(job: Job, c: Change)
    requires !job.NoJob? && job.state.k8s.Some?
  {
    c.k8s.Some? && c.k8s.value.Id() != job.state.k8s.value.Id()
  }

  function WithDelta(job: Job, d: Delta): Job
  {
    if job.Update? then job.(delta := d) else job
  }

  function ConsumeUpdate(job: Job, c: Change): Consumed
    requires TakesUpdates(job)
  {
    if job.NoJob? then Consumed(job, c, Ok)
    else
      match PendingDeletion(job)
      case UnknownPool(p) => Consumed(job, c, NoSuchPool(p))
      case UnknownBalancer(h) => Consumed(job, c, NoSuchBalancer(h))
      case Rewritten(d) =>
        if Mismatched(job, c) then
          Consumed(WithDelta(job, d), c, WrongCluster(job.state.k8s.value.Id(), c.k8s.value.Id()))
        else
          Consumed(WithDelta(job.(state := NewState(job, c)), ConsumeReplacement(d, NewK8s(job, c))),
                   Change(None, []), Ok)
  }

  function Remaining(lbs: seq<Lb>, ids: seq<string>): seq<Lb>
  {
    Filter(lbs, (lb: Lb) => lb.Id() !in ids)
  }

  function ConsumeClear(job: Job, c: Clearing): (Job, Outcome)
  {
    if job.NoJob? then (job, Ok)
    else
      var lbs := Remaining(job.state.lbs, c.lbIds);
      if c.k8s != Some(true) then (job.(state := job.state.(lbs := lbs)), Ok)
      else if lbs != [] then (job.(state := job.state.(lbs := lbs)), BalancersRemain)
      else (job.(state := Clusters(None, [])), Ok)
  }

  /** What committing a second in-flight update into a pending one yields. */
  function Combine(first: Change, second: Change): Change
  {
    Change(if second.k8s.Some? then second.k8s else first.k8s, Merge(first.lbs, second.lbs))
  }

  // ------------------------------------------------------------------ objects

  class UpdateState {
    var k8s: Option<K8s>
    var lbs: seq<Lb>

    constructor ()
      ensures Value() == Change(None, [])
    {
      k8s, lbs := None, [];
    }

    function Value(): Change
      reads this
    {
      Change(k8s, lbs)
    }
  }

  /** Clusters on their way from one owner to another. */
  class ClusterState {
    var k8s: Option<K8s>
    var lbs: seq<Lb>

    constructor (value: Clusters)
      ensures Value() == value
    {
      k8s, lbs := value.k8s, value.lbs;
    }

    function Value(): Clusters
      reads this
    {
      Clusters(k8s, lbs)
    }
  }

  datatype Result = NoResult | UpdateResult(update: UpdateState) | ClearResult(clear: Clearing)

  class TaskResult {
    var result: Result

    constructor ()
      ensures result == NoResult
    {
      result := NoResult;
    }

    /** Opens an in-flight update; nothing is visible in the result until it is committed. */
    method StartUpdate() returns (s: InFlightUpdate)
      ensures fresh(s) && s.r == this && s.state != null && fresh(s.state)
      ensures s.state.Value() == Change(None, [])
    {
      var state := new UpdateState();
      s := new InFlightUpdate(this, state);
    }

    method StartClear() returns (s: InFlightClear)
      ensures fresh(s) && s.r == this && s.state == Some(Clearing(None, []))
    {
      s := new InFlightClear(this);
    }
  }

  class InFlightUpdate {
    const r: TaskResult
    var state: UpdateState?

    constructor (r: TaskResult, state: UpdateState)
      ensures this.r == r && this.state == state
    {
      this.r, this.state := r, state;
    }

    method Kubernetes(c: Option<K8s>)
      requires state != null
      modifies state
      ensures state.Value() == old(state.Value()).(k8s := if c.Some? then c else old(state.k8s))
    {
      if c.Some? {
        state.k8s := c;
      }
    }

    /** Replaces the load balancers set so far, skipping absent ones; no argument is a no-op. */
    method Loadbalancers(lbs: seq<Option<Lb>>)
      requires state != null
      modifies state
      ensures state.k8s == old(state.k8s)
      ensures lbs == [] ==> state.lbs == old(state.lbs)
      ensures lbs != [] ==> state.lbs == Present(lbs)
    {
      if |lbs| > 0 {
        var out := [];
        for i := 0 to |lbs|
          invariant out == Present(lbs[..i])
          invariant state.k8s == old(state.k8s)
        {
          assert lbs[..i + 1][..i] == lbs[..i];
          if lbs[i].Some? {
            out := out + [lbs[i].value];
          }
        }
        assert lbs[..|lbs|] == lbs;
        state.lbs := out;
      }
    }

    /** Folds the in-flight update into a pending update result, or installs it as the result. */
    method Commit()
      requires state != null
      requires r.result.UpdateResult? ==> r.result.update != state
      modifies this, r, state, if r.result.UpdateResult? then {r.result.update} else {}
      ensures state == null
      ensures r.result.UpdateResult?
      ensures old(r.result.UpdateResult?) ==> r.result == old(r.result)
      ensures r.result.update.Value() ==
              if old(r.result.UpdateResult?)
              then Combine(old(r.result.update.Value()), old(state.Value()))
              else old(state.Value())
    {
      if r.result.UpdateResult? {
        var pending := r.result.update;
        if state.k8s.Some? {
          pending.k8s := state.k8s;
          state.k8s := None;
        }
        var merged := MergeInto(pending.lbs, state.lbs);
        pending.lbs := merged;
      } else {
        r.result := UpdateResult(state);
      }
      state := null;
    }
  }

  function Present(lbs: seq<Option<Lb>>): seq<Lb>
  {
    if lbs == [] then []
    else Present(lbs[..|lbs| - 1]) + (if lbs[|lbs| - 1].Some? then [lbs[|lbs| - 1].value] else [])
  }

  class InFlightClear {
    const r: TaskResult
    var state: Option<Clearing>

    constructor (r: TaskResult)
      ensures this.r == r && state == Some(Clearing(None, []))
    {
      this.r, state := r, Some(Clearing(None, []));
    }

    method Kubernetes()
      requires state.Some?
      modifies this
      ensures state == Some(old(state.value).(k8s := Some(true)))
    {
      state := Some(state.value.(k8s := Some(true)));
    }

    method LoadBalancers(ids: seq<string>)
      requires state.Some?
      modifies this
      ensures state == Some(if ids == [] then old(state.value) else old(state.value).(lbIds := ids))
    {
      if |ids| > 0 {
        state := Some(state.value.(lbIds := ids));
      }
    }

    /** A clear always takes the place of whatever the result held. */
    method Commit()
      requires state.Some?
      modifies this, r
      ensures state == None && r.result == ClearResult(old(state.value))
    {
      r.result := ClearResult(state.value);
      state := None;
    }
  }

  class Task {
    var job: Job

    constructor (job: Job)
      ensures this.job == job
    {
      this.job := job;
    }

    method ConsumeClearResult(c: Clearing) returns (outcome: Outcome)
      modifies this
      ensures (job, outcome) == ConsumeClear(old(job), c)
    {
      if job.NoJob? {
        return Ok;
      }
      job := job.(state := job.state.(lbs := Remaining(job.state.lbs, c.lbIds)));
      if c.k8s.Some? && c.k8s.value {
        if |job.state.lbs| > 0 {
          return BalancersRemain;
        }
        job := job.(state := Clusters(None, []));
      }
      outcome := Ok;
    }

    /** Consumes an update result: deletions first, then the merge, then the other rewrites. */
    method ConsumeUpdateResult(update: UpdateState) returns (outcome: Outcome)
      requires TakesUpdates(job)
      modifies this, update
      ensures Consumed(job, update.Value(), outcome) == ConsumeUpdate(old(job), old(update.Value()))
    {
      if job.NoJob? {
        return Ok;
      }
      var id, name := job.state.k8s.value.Id(), job.state.k8s.value.info.name;
      outcome := ConsumePendingDeletion();
      if outcome != Ok {
        return;
      }
      if update.k8s.Some? {
        if update.k8s.value.Id() != id {
          return WrongCluster(id, update.k8s.value.Id());
        }
        job := job.(state := job.state.(k8s := update.k8s));
        update.k8s := None;
      }
      var incoming := Targeting(update.lbs, name);
      update.lbs := [];
      var merged := MergeInto(job.state.lbs, incoming);
      job := job.(state := job.state.(lbs := merged));
      ConsumePendingReplacement();
    }

    method ConsumePendingDeletion() returns (outcome: Outcome)
      requires !job.NoJob? && job.state.k8s.Some?
      modifies this
      ensures match PendingDeletion(old(job))
              case UnknownPool(p) => outcome == NoSuchPool(p) && job == old(job)
              case UnknownBalancer(h) => outcome == NoSuchBalancer(h) && job == old(job)
              case Rewritten(d) => outcome == Ok && job == WithDelta(old(job), d)
    {
      outcome := Ok;
      if job.Update? {
        match job.delta
        case KDeleteNodes(whole, pool, names, unreachable) =>
          var affected := FindPool(job.state.k8s.value.info.nodePools, pool);
          if affected.None? {
            return NoSuchPool(pool);
          }
          var d := RecordDeletion(affected.value, whole, names);
          job := job.(delta := DeletedK8sNodes(unreachable, d));
        case TfDeleteLoadBalancerNodes(handle, whole, pool, names, unreachable) =>
          var lb := Find(job.state.lbs, handle);
          if lb.None? {
            return NoSuchBalancer(handle);
          }
          var affected := FindPool(lb.value.info.nodePools, pool);
          if affected.None? {
            return NoSuchPool(pool);
          }
          var d := RecordDeletion(affected.value, whole, names);
          job := job.(delta := DeletedLoadBalancerNodes(unreachable, handle, d));
        case _ =>
      }
    }

    method ConsumePendingReplacement()
      requires !job.NoJob? && job.state.k8s.Some?
      modifies this
      ensures job == if old(job).Update?
                     then old(job).(delta := ConsumeReplacement(old(job).delta, old(job).state.k8s.value))
                     else old(job)
    {
      if job.Update? {
        match job.delta
        case TfMoveNodePoolFromAutoscaled(p) =>
          var config := LastScaler(job.state.k8s.value.info.nodePools, p);
          job := job.(delta := MovedNodePoolFromAutoscaled(p, config));
        case TfMoveNodePoolToAutoscaled(p, _) =>
          job := job.(delta := MovedNodePoolToAutoscaled(p));
        case AnsReplaceRoleInternalSettings(h, role, _) =>
          job := job.(delta := ReplacedRoleInternalSettings(h, role));
        case TfReplaceRoleExternalSettings(h, role, _, _) =>
          job := job.(delta := ReplacedRoleExternalSettings(h, role));
        case AnsReplaceProxy(_) =>
          job := job.(delta := ReplacedProxy);
        case AnsReplaceTargetPools(h, targets) =>
          job := job.(delta := ReplacedTargetPools(h, targets));
        case KpatchNodes(_) =>
          job := job.(delta := PatchedNodes);
        case TfAddK8sNodes(kind) =>
          var names := CollectNames(KindNodes(kind));
          job := job.(delta := AddedK8sNodes(kind.New?, KindPool(kind), names));
        case TfAddLoadBalancer(lb) =>
          job := job.(delta := AddedLoadBalancer(lb.Id()));
        case TfAddLoadBalancerNodes(h, kind) =>
          var names := CollectNames(KindNodes(kind));
          job := job.(delta := AddedLoadBalancerNodes(h, kind.New?, KindPool(kind), names));
        case TfAddLoadBalancerRoles(h, roles) =>
          var names := CollectRoleNames(roles);
          job := job.(delta := AddedLoadBalancerRoles(h, names));
        case TfReplaceDns(h, _, oldEndpoint) =>
          job := job.(delta := ReplacedDns(h, oldEndpoint));
        case _ =>
      }
    }

    /** Takes over the given clusters in place of the task's own; the giver is left empty. */
    method ReplaceClusters(c: ClusterState)
      modifies this, c
      ensures job == if old(job).NoJob? then NoJob else old(job).(state := old(c.Value()))
      ensures c.Value() == Clusters(None, [])
    {
      if !job.NoJob? {
        job := job.(state := Clusters(c.k8s, c.lbs));
      }
      c.k8s, c.lbs := None, [];
    }
  }
}
