/**
 Committing several in-flight updates into one result and consuming it once, against
 consuming them one after the other: when the two agree, exactly.
 */
module Batching {
  import opened Sequences
  import opened Spec
  import opened Merging
  import opened Deltas
  import opened Tasks

  /** The result after committing the given in-flight updates one after the other. */
  function CommitAll(cs: seq<Change>): Change
    requires cs != []
  {
    if |cs| == 1 then cs[0] else Combine(CommitAll(cs[..|cs| - 1]), cs[|cs| - 1])
  }

  /** Consuming the updates separately, giving up at the first error. */
  function ConsumeEach(job: Job, cs: seq<Change>): Consumed
    requires cs != [] && TakesUpdates(job)
    decreases |cs|
  {
    var c := ConsumeUpdate(job, cs[0]);
    if |cs| == 1 || c.outcome != Ok then c else ConsumeEach(c.job, cs[1..])
  }

  lemma CombineAssociative(a: Change, b: Change, c: Change)
    ensures Combine(Combine(a, b), c) == Combine(a, Combine(b, c))
  {
    MergeAssociative(a.lbs, b.lbs, c.lbs);
  }

  lemma {:induction false} CommitAllHead(cs: seq<Change>)
    requires |cs| >= 2
    ensures CommitAll(cs) == Combine(cs[0], CommitAll(cs[1..]))
    decreases |cs|
  {
    var n, tail := |cs| - 1, cs[1..];
    assert CommitAll(cs) == Combine(CommitAll(cs[..n]), cs[n]);
    if n == 1 {
      assert tail == [cs[1]];
    } else {
      CommitAllHead(cs[..n]);
      assert cs[..n][1..] == tail[..n - 1] && tail[|tail| - 1] == cs[n];
      assert CommitAll(tail) == Combine(CommitAll(tail[..n - 1]), cs[n]);
      CombineAssociative(cs[0], CommitAll(tail[..n - 1]), cs[n]);
    }
  }

  // ---------------------------------------------------- outcome and settled task

  predicate Ready(job: Job)
  {
    !job.NoJob? && job.state.k8s.Some? && WellHashed(job.state.k8s.value.info)
  }

  /** The change brings no cluster, or the same one. */
  predicate Matches(k: K8s, c: Change)
  {
    c.k8s.Some? ==> WellHashed(c.k8s.value.info) && c.k8s.value.Id() == k.Id()
  }

  predicate AllMatch(k: K8s, cs: seq<Change>)
  {
    forall c :: c in cs ==> Matches(k, c)
  }

  lemma {:induction false} CommitAllMatches(k: K8s, cs: seq<Change>)
    requires cs != [] && AllMatch(k, cs)
    ensures Matches(k, CommitAll(cs))
    decreases |cs|
  {
    assert cs[|cs| - 1] in cs;
    if |cs| > 1 {
      CommitAllMatches(k, cs[..|cs| - 1]);
    }
  }

  lemma UpdateMatches(job: Job, c: Change)
    requires Ready(job) && Matches(job.state.k8s.value, c)
    ensures var u := ConsumeUpdate(job, c);
            && (u.outcome == Ok <==> PendingDeletion(job).Rewritten?)
            && (u.outcome != Ok ==> u.job == job)
            && (u.outcome == Ok ==>
                  && Ready(u.job) && u.job.state == NewState(job, c)
                  && u.job.Update? == job.Update? && u.job.Create? == job.Create?
                  && u.job.state.k8s.value.Id() == job.state.k8s.value.Id()
                  && (job.Update? ==>
                        && u.job.delta == ConsumeReplacement(PendingDeletion(job).delta, NewK8s(job, c))
                        && !Consumable(u.job.delta))
                  && PendingDeletion(u.job).Rewritten?)
  {
    if job.Update? && PendingDeletion(job).Rewritten? {
      RewriteFinal(job.delta, job.state.k8s.value, job.state.lbs, NewK8s(job, c));
    }
  }

  /** The load balancers after consuming the updates separately. */
  function EachLbs(lbs: seq<Lb>, cs: seq<Change>, name: string): seq<Lb>
    decreases |cs|
  {
    if cs == [] then lbs else EachLbs(Merge(lbs, Targeting(cs[0].lbs, name)), cs[1..], name)
  }

  lemma SettledDelta(job: Job, after: K8s)
    requires Ready(job) && job.Update? && !Consumable(job.delta)
    ensures PendingDeletion(job) == Rewritten(job.delta) && ConsumeReplacement(job.delta, after) == job.delta
  {
  }

  /** What consuming the updates separately leaves behind. */
  lemma {:induction false} EachResult(job: Job, cs: seq<Change>)
    requires Ready(job) && cs != [] && AllMatch(job.state.k8s.value, cs)
    ensures var e := ConsumeEach(job, cs);
            && (e.outcome == Ok <==> PendingDeletion(job).Rewritten?)
            && (e.outcome != Ok ==> e == ConsumeUpdate(job, cs[0]) && e.job == job)
            && (e.outcome == Ok ==>
                  && !e.job.NoJob? && e.job.Update? == job.Update? && e.job.Create? == job.Create?
                  && e.job.state.k8s == Some(NewK8s(job, CommitAll(cs)))
                  && e.job.state.lbs == EachLbs(job.state.lbs, cs, job.state.k8s.value.info.name)
                  && (job.Update? ==>
                        e.job.delta == ConsumeReplacement(PendingDeletion(job).delta, NewK8s(job, cs[0]))))
    decreases |cs|
  {
    UpdateMatches(job, cs[0]);
    var first := ConsumeUpdate(job, cs[0]);
    if |cs| == 1 {
      assert EachLbs(job.state.lbs, cs, job.state.k8s.value.info.name) == first.job.state.lbs || first.outcome != Ok;
    } else if first.outcome == Ok {
      IdInjective(job.state.k8s.value.info, first.job.state.k8s.value.info);
      forall c | c in cs[1..] ensures Matches(first.job.state.k8s.value, c) {
        assert c in cs;
      }
      EachResult(first.job, cs[1..]);
      CommitAllHead(cs);
      if job.Update? {
        SettledDelta(first.job, NewK8s(first.job, cs[1]));
      }
    }
  }

  lemma UpdateOutcome(job: Job, c: Change)
    requires !job.NoJob? && job.state.k8s.Some?
    ensures var u := ConsumeUpdate(job, c);
            && (u.outcome == Ok <==> PendingDeletion(job).Rewritten? && !Mismatched(job, c))
            && (u.outcome == Ok ==>
                  && !u.job.NoJob? && u.job.state.k8s.Some? && u.job.state.k8s.value.Id() == job.state.k8s.value.Id()
                  && PendingDeletion(u.job).Rewritten?)
  {
    if job.Update? && PendingDeletion(job).Rewritten? {
      RewriteFinal(job.delta, job.state.k8s.value, job.state.lbs, NewK8s(job, c));
    }
  }

  /** No change is for another cluster than this one. */
  predicate NoneForeign(k: K8s, cs: seq<Change>)
  {
    forall c :: c in cs && c.k8s.Some? ==> c.k8s.value.Id() == k.Id()
  }

  lemma NoneForeignHead(k: K8s, cs: seq<Change>)
    requires cs != []
    ensures NoneForeign(k, cs) <==> (cs[0].k8s.Some? ==> cs[0].k8s.value.Id() == k.Id()) && NoneForeign(k, cs[1..])
  {
    assert cs == [cs[0]] + cs[1..];
  }

  lemma {:induction false} EachOutcome(job: Job, cs: seq<Change>)
    requires !job.NoJob? && job.state.k8s.Some? && cs != []
    ensures ConsumeEach(job, cs).outcome == Ok <==>
            PendingDeletion(job).Rewritten? && NoneForeign(job.state.k8s.value, cs)
    decreases |cs|
  {
    NoneForeignHead(job.state.k8s.value, cs);
    UpdateOutcome(job, cs[0]);
    var first := ConsumeUpdate(job, cs[0]);
    if |cs| > 1 && first.outcome == Ok {
      EachOutcome(first.job, cs[1..]);
    }
  }

  /**
   Separately, a change for another cluster is refused wherever it comes; in a batch only the
   last cluster is compared, so an earlier one for another cluster goes unnoticed.
   */
  lemma BatchedOutcome(job: Job, cs: seq<Change>)
    requires !job.NoJob? && job.state.k8s.Some? && cs != []
    ensures ConsumeEach(job, cs).outcome == Ok <==>
            PendingDeletion(job).Rewritten? && NoneForeign(job.state.k8s.value, cs)
    ensures ConsumeUpdate(job, CommitAll(cs)).outcome == Ok <==>
            PendingDeletion(job).Rewritten? && NoneForeign(job.state.k8s.value, [CommitAll(cs)])
  {
    EachOutcome(job, cs);
    UpdateOutcome(job, CommitAll(cs));
  }

  /** The one rewrite that reads the merged cluster sees the same autoscaler either way. */
  predicate ScalerAgrees(job: Job, cs: seq<Change>)
    requires Ready(job) && cs != []
  {
    job.Update? && job.delta.TfMoveNodePoolFromAutoscaled? ==>
      ScalerOf(NewK8s(job, cs[0]).info.nodePools, job.delta.nodepool) ==
      ScalerOf(NewK8s(job, CommitAll(cs)).info.nodePools, job.delta.nodepool)
  }

  lemma ReplacementAgrees(d: Delta, k: K8s, k': K8s)
    ensures ConsumeReplacement(d, k) == ConsumeReplacement(d, k') <==>
            (d.TfMoveNodePoolFromAutoscaled? ==>
               ScalerOf(k.info.nodePools, d.nodepool) == ScalerOf(k'.info.nodePools, d.nodepool))
  {
  }

  lemma BatchResult(job: Job, cs: seq<Change>)
    requires Ready(job) && cs != [] && AllMatch(job.state.k8s.value, cs)
    ensures var b := ConsumeUpdate(job, CommitAll(cs));
            && (b.outcome == Ok <==> PendingDeletion(job).Rewritten?)
            && (b.outcome != Ok ==> b.outcome == ConsumeUpdate(job, cs[0]).outcome && b.job == job)
            && (b.outcome == Ok ==>
                  && b.job.Update? == job.Update? && b.job.Create? == job.Create? && !b.job.NoJob?
                  && b.job.state == NewState(job, CommitAll(cs))
                  && (job.Update? ==>
                        b.job.delta == ConsumeReplacement(PendingDeletion(job).delta, NewK8s(job, CommitAll(cs)))))
  {
    assert cs[0] in cs;
    CommitAllMatches(job.state.k8s.value, cs);
    UpdateMatches(job, CommitAll(cs));
    UpdateMatches(job, cs[0]);
  }

  /** The load balancers agree. */
  predicate LbsAgree(job: Job, cs: seq<Change>)
    requires Ready(job) && cs != []
  {
    var name := job.state.k8s.value.info.name;
    EachLbs(job.state.lbs, cs, name) == Merge(job.state.lbs, Targeting(CommitAll(cs).lbs, name))
  }

  lemma DeltasAgree(job: Job, cs: seq<Change>)
    requires Ready(job) && cs != [] && job.Update? && PendingDeletion(job).Rewritten?
    ensures var d := PendingDeletion(job).delta;
            ConsumeReplacement(d, NewK8s(job, cs[0])) == ConsumeReplacement(d, NewK8s(job, CommitAll(cs))) <==>
            ScalerAgrees(job, cs)
  {
    ReplacementAgrees(PendingDeletion(job).delta, NewK8s(job, cs[0]), NewK8s(job, CommitAll(cs)));
  }

  lemma SameJob(a: Job, b: Job)
    requires !a.NoJob? && !b.NoJob? && a.Update? == b.Update? && a.Create? == b.Create?
    ensures a == b <==> a.state == b.state && (a.Update? ==> a.delta == b.delta)
  {
  }

  /**
   Batch and parts have the same outcome and leave the same Kubernetes cluster.  The whole
   task agrees exactly when its load balancers do and, for a pool that leaves autoscaling,
   the first and the last cluster have the same setting.
   */
  lemma BatchedTask(job: Job, cs: seq<Change>)
    requires Ready(job) && cs != [] && AllMatch(job.state.k8s.value, cs)
    ensures var e, b := ConsumeEach(job, cs), ConsumeUpdate(job, CommitAll(cs));
            && e.outcome == b.outcome
            && !e.job.NoJob? && !b.job.NoJob? && e.job.state.k8s == b.job.state.k8s
            && (e.outcome != Ok ==> e.job == b.job)
            && (e.outcome == Ok ==>
                  && (e.job.state.lbs == b.job.state.lbs <==> LbsAgree(job, cs))
                  && (e.job == b.job <==> LbsAgree(job, cs) && ScalerAgrees(job, cs)))
  {
    EachResult(job, cs);
    BatchResult(job, cs);
    var e, b := ConsumeEach(job, cs), ConsumeUpdate(job, CommitAll(cs));
    if e.outcome == Ok {
      SameJob(e.job, b.job);
      if job.Update? {
        DeltasAgree(job, cs);
      }
    }
  }

  // ------------------------------------------------- updates that keep their target

  /** Whether a load balancer targets the cluster depends on its ID alone. */
  predicate Steady(cs: seq<Change>, name: string, ours: set<string>)
  {
    forall c :: c in cs ==> forall lb :: lb in c.lbs ==> (lb.targetedK8s == name <==> lb.Id() in ours)
  }

  lemma {:induction false} CommitAllSteady(cs: seq<Change>, name: string, ours: set<string>, lb: Lb)
    requires cs != [] && Steady(cs, name, ours) && lb in CommitAll(cs).lbs
    ensures lb.targetedK8s == name <==> lb.Id() in ours
    decreases |cs|
  {
    var n := |cs| - 1;
    assert cs[n] in cs;
    if n > 0 {
      MergeMember(CommitAll(cs[..n]).lbs, cs[n].lbs, lb);
      if lb !in cs[n].lbs {
        CommitAllSteady(cs[..n], name, ours, lb);
      }
    }
  }

  lemma {:induction false} SteadyLbs(lbs: seq<Lb>, cs: seq<Change>, name: string, ours: set<string>)
    requires cs != [] && Steady(cs, name, ours)
    ensures EachLbs(lbs, cs, name) == Merge(lbs, Targeting(CommitAll(cs).lbs, name))
    decreases |cs|
  {
    var here := Targeting(cs[0].lbs, name);
    if |cs| > 1 {
      var rest := CommitAll(cs[1..]);
      SteadyLbs(Merge(lbs, here), cs[1..], name, ours);
      CommitAllHead(cs);
      MergeAssociative(lbs, here, Targeting(rest.lbs, name));
      forall u | u in cs[0].lbs || u in rest.lbs ensures u.targetedK8s == name <==> u.Id() in ours {
        assert cs[0] in cs;
        if u in rest.lbs {
          CommitAllSteady(cs[1..], name, ours, u);
        }
      }
      FilterMerge(cs[0].lbs, rest.lbs, (lb: Lb) => lb.targetedK8s == name, ours);
    }
  }

  /**
   Consuming one batch equals consuming its parts in order: the same outcome, the same
   Kubernetes cluster and the same load balancers in the same order, duplicates included.
   */
  lemma BatchedState(job: Job, cs: seq<Change>, ours: set<string>)
    requires Ready(job) && cs != [] && AllMatch(job.state.k8s.value, cs)
    requires Steady(cs, job.state.k8s.value.info.name, ours)
    ensures var e, b := ConsumeEach(job, cs), ConsumeUpdate(job, CommitAll(cs));
            && e.outcome == b.outcome
            && !e.job.NoJob? && !b.job.NoJob?
            && e.job.state == b.job.state
  {
    BatchedTask(job, cs);
    SteadyLbs(job.state.lbs, cs, job.state.k8s.value.info.name, ours);
  }

  // ------------------------------------------------------ contents, in every case

  /** Every update lists a load balancer at most once. */
  predicate AllDistinct(cs: seq<Change>)
  {
    forall c :: c in cs ==> Distinct(Ids(c.lbs))
  }

  /** The latest entry for the ID among those that satisfy `p`. */
  function LatestUpdate(cs: seq<Change>, id: string, p: Lb -> bool): Option<Lb>
    decreases |cs|
  {
    if cs == [] then None
    else
      var later, here := LatestUpdate(cs[1..], id, p), Find(cs[0].lbs, id);
      if later.Some? then later else if here.Some? && p(here.value) then here else None
  }

  lemma {:induction false} FindFilter(s: seq<Lb>, p: Lb -> bool, id: string)
    requires Distinct(Ids(s))
    ensures Find(Filter(s, p), id) ==
            if Find(s, id).Some? && p(Find(s, id).value) then Find(s, id) else None
  {
    if s != [] {
      DistinctTail(Ids(s));
      assert Ids(s)[1..] == Ids(s[1..]);
      FindFilter(s[1..], p, id);
      FindSound(s[1..], s[0].Id());
    }
  }

  lemma {:induction false} EachFind(lbs: seq<Lb>, cs: seq<Change>, name: string, id: string)
    requires AllDistinct(cs)
    ensures var u := LatestUpdate(cs, id, (lb: Lb) => lb.targetedK8s == name);
            Find(EachLbs(lbs, cs, name), id) == if u.Some? then u else Find(lbs, id)
    decreases |cs|
  {
    if cs != [] {
      assert cs[0] in cs;
      var here := Targeting(cs[0].lbs, name);
      EachFind(Merge(lbs, here), cs[1..], name, id);
      FindMerge(lbs, here, id);
      FindFilter(cs[0].lbs, (lb: Lb) => lb.targetedK8s == name, id);
    }
  }

  lemma {:induction false} BatchFind(cs: seq<Change>, id: string)
    requires cs != [] && AllDistinct(cs)
    ensures Distinct(Ids(CommitAll(cs).lbs))
    ensures Find(CommitAll(cs).lbs, id) == LatestUpdate(cs, id, (lb: Lb) => true)
    decreases |cs|
  {
    assert cs[0] in cs;
    if |cs| > 1 {
      BatchFind(cs[1..], id);
      CommitAllHead(cs);
      FindMerge(cs[0].lbs, CommitAll(cs[1..]).lbs, id);
      MergeKeepsDistinct(cs[0].lbs, CommitAll(cs[1..]).lbs);
    } else {
      assert LatestUpdate(cs[1..], id, (lb: Lb) => true) == None;
    }
  }

  /** The latest update of the ID is for another cluster and hides an earlier one that made a difference. */
  predicate Hidden(lbs: seq<Lb>, cs: seq<Change>, name: string, id: string)
  {
    var last, ours := LatestUpdate(cs, id, (lb: Lb) => true), LatestUpdate(cs, id, (lb: Lb) => lb.targetedK8s == name);
    last.Some? && last.value.targetedK8s != name && ours.Some? && ours != Find(lbs, id)
  }

  lemma {:induction false} LatestOfAll(cs: seq<Change>, id: string, p: Lb -> bool)
    ensures var last, ours := LatestUpdate(cs, id, (lb: Lb) => true), LatestUpdate(cs, id, p);
            && (last.None? ==> ours.None?)
            && (last.Some? && p(last.value) ==> ours == last)
    decreases |cs|
  {
    if cs != [] {
      LatestOfAll(cs[1..], id, p);
    }
  }

  lemma LookupAgrees(lbs: seq<Lb>, cs: seq<Change>, name: string, id: string)
    requires cs != [] && AllDistinct(cs)
    ensures Find(EachLbs(lbs, cs, name), id) == Find(Merge(lbs, Targeting(CommitAll(cs).lbs, name)), id)
            <==> !Hidden(lbs, cs, name, id)
  {
    EachFind(lbs, cs, name, id);
    BatchFind(cs, id);
    var all := CommitAll(cs).lbs;
    FindMerge(lbs, Targeting(all, name), id);
    FindFilter(all, (lb: Lb) => lb.targetedK8s == name, id);
    LatestOfAll(cs, id, (lb: Lb) => lb.targetedK8s == name);
  }

  /**
   For any number of updates, a load balancer is the same after the batch as after its parts
   exactly when no earlier update of it is hidden.
   */
  lemma BatchedLookup(job: Job, cs: seq<Change>, id: string)
    requires Ready(job) && cs != [] && AllMatch(job.state.k8s.value, cs) && AllDistinct(cs)
    ensures var e, b := ConsumeEach(job, cs), ConsumeUpdate(job, CommitAll(cs));
            && !e.job.NoJob? && !b.job.NoJob?
            && (e.outcome == Ok ==>
                  (Find(e.job.state.lbs, id) == Find(b.job.state.lbs, id) <==>
                   !Hidden(job.state.lbs, cs, job.state.k8s.value.info.name, id)))
  {
    EachResult(job, cs);
    BatchResult(job, cs);
    LookupAgrees(job.state.lbs, cs, job.state.k8s.value.info.name, id);
  }

  // ---------------------------------------------------------- order, in every case

  /** The position of the first occurrence, or the length when there is none. */
  function Position(s: seq<string>, x: string): (i: nat)
    ensures i <= |s| && (i < |s| <==> x in s) && (i < |s| ==> s[i] == x)
    ensures forall k :: 0 <= k < i ==> s[k] != x
  {
    if s == [] || s[0] == x then 0 else 1 + Position(s[1..], x)
  }

  /** `x` comes up before `y`. */
  predicate Before(s: seq<string>, x: string, y: string)
  {
    Position(s, x) < Position(s, y)
  }

  lemma {:induction false} PositionAppend(a: seq<string>, b: seq<string>, x: string)
    ensures Position(a + b, x) == if x in a then Position(a, x) else |a| + Position(b, x)
  {
    if a == [] {
      assert a + b == b;
    } else {
      assert (a + b)[1..] == a[1..] + b;
      PositionAppend(a[1..], b, x);
    }
  }

  lemma {:induction false} BeforeInFilter(s: seq<string>, p: string -> bool, x: string, y: string)
    requires p(x) && p(y) && x in s && y in s
    ensures Before(Filter(s, p), x, y) <==> Before(s, x, y)
  {
    FilterMember(s, p, x);
    FilterMember(s, p, y);
    if s[0] != x && s[0] != y {
      BeforeInFilter(s[1..], p, x, y);
    }
  }

  lemma TailMembers(s: seq<string>, t: seq<string>, x: string)
    requires s != [] && t != [] && s[0] == t[0] && Distinct(s)
    requires x in s ==> x in t
    requires x in s[1..]
    ensures x in t[1..]
  {
    DistinctTail(s);
    assert t == [t[0]] + t[1..];
  }

  /** Two lists of the same distinct elements in the same order are equal. */
  lemma {:induction false} SameOrder(s: seq<string>, t: seq<string>)
    requires Distinct(s) && Distinct(t) && forall x :: x in s <==> x in t
    requires forall x, y :: x in s && y in s ==> (Before(s, x, y) <==> Before(t, x, y))
    ensures s == t
  {
    assert t != [] ==> t[0] in t;
    if s != [] {
      assert s[0] in t;
      assert t[0] in s && (t[0] != s[0] ==> Before(s, s[0], t[0]));
      assert t[0] == s[0];
      forall x ensures x in s[1..] <==> x in t[1..] {
        if x in s[1..] {
          TailMembers(s, t, x);
        }
        if x in t[1..] {
          TailMembers(t, s, x);
        }
      }
      forall x, y | x in s[1..] && y in s[1..] ensures Before(s[1..], x, y) <==> Before(t[1..], x, y) {
        DistinctTail(s);
        assert Before(s, x, y) <==> Before(t, x, y);
      }
      SameOrder(s[1..], t[1..]);
      assert s == [s[0]] + s[1..] && t == [t[0]] + t[1..];
    }
  }

  lemma IdsFilter(s: seq<Lb>, q: string -> bool)
    ensures Ids(Filter(s, (u: Lb) => q(u.Id()))) == Filter(Ids(s), q)
  {
    if s != [] {
      IdsFilter(s[1..], q);
      assert Ids(s) == [s[0].Id()] + Ids(s[1..]);
      assert Ids(s)[1..] == Ids(s[1..]);
    }
  }

  /** Whether the entry for the ID is there and targets the cluster. */
  predicate Aims(s: seq<Lb>, name: string, id: string)
  {
    Find(s, id).Some? && Find(s, id).value.targetedK8s == name
  }

  lemma IdsTargeting(s: seq<Lb>, name: string)
    requires Distinct(Ids(s))
    ensures Ids(Targeting(s, name)) == Filter(Ids(s), id => Aims(s, name, id))
    ensures Distinct(Ids(Targeting(s, name)))
    ensures forall id :: id in Ids(Targeting(s, name)) <==> Aims(s, name, id)
  {
    var p, q := (lb: Lb) => lb.targetedK8s == name, (id: string) => Aims(s, name, id);
    forall u | u in s ensures p(u) == q(u.Id()) {
      FindMember(s, u);
    }
    FilterCongruent(s, p, (u: Lb) => q(u.Id()));
    IdsFilter(s, q);
    DistinctFilter(Ids(s), q);
    forall id ensures id in Ids(Targeting(s, name)) <==> Aims(s, name, id) {
      FilterMember(Ids(s), q, id);
      FindSound(s, id);
    }
  }

  lemma {:induction false} FindMember(s: seq<Lb>, u: Lb)
    requires Distinct(Ids(s)) && u in s
    ensures Find(s, u.Id()) == Some(u)
  {
    if s[0] != u {
      DistinctTail(Ids(s));
      assert Ids(s)[1..] == Ids(s[1..]);
      FindMember(s[1..], u);
      FindSound(s[1..], u.Id());
    }
  }

  lemma {:induction false} DistinctFilter(s: seq<string>, p: string -> bool)
    requires Distinct(s)
    ensures Distinct(Filter(s, p))
  {
    if s != [] {
      DistinctTail(s);
      DistinctFilter(s[1..], p);
      FilterMember(s[1..], p, s[0]);
    }
  }

  lemma IdsUnmatched(updates: seq<Lb>, ids: seq<string>)
    ensures Ids(Unmatched(updates, ids)) == Filter(Ids(updates), id => id !in ids)
  {
    var other := (id: string) => id !in ids;
    IdsFilter(updates, other);
    FilterCongruent(updates, (u: Lb) => u.Id() !in ids, (u: Lb) => other(u.Id()));
  }

  lemma IdsOverridden(olds: seq<Lb>, updates: seq<Lb>)
    ensures Ids(Overridden(olds, updates)) == Ids(olds)
  {
    forall i | 0 <= i < |olds| ensures Pick(updates, olds[i]).Id() == olds[i].Id() {
      FindSound(updates, olds[i].Id());
    }
  }

  lemma IdsAppend(a: seq<Lb>, b: seq<Lb>)
    ensures Ids(a + b) == Ids(a) + Ids(b)
  {
  }

  lemma IdsOverride(olds: seq<Lb>, updates: seq<Lb>)
    ensures Ids(Override(olds, updates)) == Ids(olds) + Filter(Ids(updates), id => id !in Ids(olds))
  {
    IdsOverridden(olds, updates);
    IdsUnmatched(updates, Ids(olds));
    IdsAppend(Overridden(olds, updates), Unmatched(updates, Ids(olds)));
  }

  lemma IdsMerge(olds: seq<Lb>, updates: seq<Lb>)
    requires Distinct(Ids(olds)) && Distinct(Ids(updates))
    ensures Ids(Merge(olds, updates)) == Ids(olds) + Filter(Ids(updates), id => id !in Ids(olds))
  {
    MergeIsOverride(olds, updates);
    IdsOverride(olds, updates);
  }

  ghost predicate SameContents(x: seq<Lb>, y: seq<Lb>)
  {
    forall id :: Find(x, id) == Find(y, id)
  }

  /** Two lists of distinct IDs are equal when their IDs and their contents are. */
  lemma SameEntries(x: seq<Lb>, y: seq<Lb>)
    requires Distinct(Ids(x)) && Distinct(Ids(y)) && Ids(x) == Ids(y) && SameContents(x, y)
    ensures x == y
  {
    assert |x| == |Ids(x)| == |y|;
    forall i | 0 <= i < |x| ensures x[i] == y[i] {
      assert Ids(x)[i] == Ids(y)[i];
      FindMember(x, x[i]);
      FindMember(y, y[i]);
    }
  }

  lemma SamePrefix(a: seq<string>, b: seq<string>, c: seq<string>)
    ensures a + b == a + c <==> b == c
  {
    assert (a + b)[|a|..] == b && (a + c)[|a|..] == c;
  }

  lemma EqualByIds(x: seq<Lb>, y: seq<Lb>, l: seq<string>, nx: seq<string>, ny: seq<string>)
    requires Distinct(Ids(x)) && Distinct(Ids(y)) && Ids(x) == l + nx && Ids(y) == l + ny
    ensures x == y <==> nx == ny && SameContents(x, y)
  {
    SamePrefix(l, nx, ny);
    if nx == ny && SameContents(x, y) {
      SameEntries(x, y);
    }
  }

  /** Two merges into the same list are equal exactly when their contents and the appended IDs are. */
  lemma MergesAgree(lbs: seq<Lb>, u: seq<Lb>, v: seq<Lb>)
    requires Distinct(Ids(lbs)) && Distinct(Ids(u)) && Distinct(Ids(v))
    ensures Merge(lbs, u) == Merge(lbs, v) <==>
            && Filter(Ids(u), id => id !in Ids(lbs)) == Filter(Ids(v), id => id !in Ids(lbs))
            && SameContents(Merge(lbs, u), Merge(lbs, v))
  {
    IdsMerge(lbs, u);
    IdsMerge(lbs, v);
    MergeKeepsDistinct(lbs, u);
    MergeKeepsDistinct(lbs, v);
    EqualByIds(Merge(lbs, u), Merge(lbs, v), Ids(lbs),
               Filter(Ids(u), id => id !in Ids(lbs)), Filter(Ids(v), id => id !in Ids(lbs)));
  }

  /** All entries of the updates, one after the other. */
  function Mentions(cs: seq<Change>): seq<Lb>
  {
    if cs == [] then [] else cs[0].lbs + Mentions(cs[1..])
  }

  lemma {:induction false} MentionsKnown(cs: seq<Change>, id: string)
    requires cs != [] && AllDistinct(cs)
    ensures id in Ids(CommitAll(cs).lbs) <==> id in Ids(Mentions(cs))
    decreases |cs|
  {
    assert cs[0] in cs;
    IdsAppend(cs[0].lbs, Mentions(cs[1..]));
    if |cs| == 1 {
      assert Mentions(cs[1..]) == [] && Mentions(cs) == cs[0].lbs;
    } else {
      MentionsKnown(cs[1..], id);
      CommitAllHead(cs);
      BatchFind(cs[1..], id);
      IdsMerge(cs[0].lbs, CommitAll(cs[1..]).lbs);
      FilterMember(Ids(CommitAll(cs[1..]).lbs), x => x !in Ids(cs[0].lbs), id);
    }
  }

  /** Appending the unlisted part of `b`, or all of a list in the same order: `x` and `y` stay in order. */
  lemma BeforeAppend(a: seq<string>, b: seq<string>, c: seq<string>, x: string, y: string)
    requires x in a || (x in b && x in c)
    requires y in a || (y in b && y in c)
    requires x in b && y in b ==> (Before(b, x, y) <==> Before(c, x, y))
    ensures Before(a + Filter(b, id => id !in a), x, y) <==> Before(a + c, x, y)
  {
    var p := (id: string) => id !in a;
    PositionAppend(a, Filter(b, p), x);
    PositionAppend(a, Filter(b, p), y);
    PositionAppend(a, c, x);
    PositionAppend(a, c, y);
    if x !in a && y !in a {
      BeforeInFilter(b, p, x, y);
    }
  }

  /** A committed batch lists the load balancers in the order of their first mention. */
  lemma {:induction false} CommitOrder(cs: seq<Change>, x: string, y: string)
    requires cs != [] && AllDistinct(cs) && x in Ids(Mentions(cs)) && y in Ids(Mentions(cs))
    ensures Before(Ids(CommitAll(cs).lbs), x, y) <==> Before(Ids(Mentions(cs)), x, y)
    decreases |cs|
  {
    assert cs[0] in cs;
    var a, later := Ids(cs[0].lbs), Mentions(cs[1..]);
    IdsAppend(cs[0].lbs, later);
    if |cs| == 1 {
      assert later == [] && Mentions(cs) == cs[0].lbs;
    } else {
      var rest := CommitAll(cs[1..]).lbs;
      CommitAllHead(cs);
      BatchFind(cs[1..], x);
      IdsMerge(cs[0].lbs, rest);
      MentionsKnown(cs[1..], x);
      MentionsKnown(cs[1..], y);
      if x in Ids(later) && y in Ids(later) {
        CommitOrder(cs[1..], x, y);
      }
      BeforeAppend(a, Ids(rest), Ids(later), x, y);
    }
  }

  /** The updates without what is for other clusters. */
  function Narrowed(cs: seq<Change>, name: string): (r: seq<Change>)
    ensures |r| == |cs|
  {
    if cs == [] then [] else [cs[0].(lbs := Targeting(cs[0].lbs, name))] + Narrowed(cs[1..], name)
  }

  lemma {:induction false} NarrowedDistinct(cs: seq<Change>, name: string)
    requires AllDistinct(cs)
    ensures AllDistinct(Narrowed(cs, name))
  {
    if cs != [] {
      assert cs[0] in cs;
      IdsTargeting(cs[0].lbs, name);
      NarrowedDistinct(cs[1..], name);
    }
  }

  lemma {:induction false} NarrowedMentions(cs: seq<Change>, name: string)
    ensures Mentions(Narrowed(cs, name)) == Targeting(Mentions(cs), name)
  {
    if cs != [] {
      NarrowedMentions(cs[1..], name);
      FilterAppend(cs[0].lbs, Mentions(cs[1..]), (lb: Lb) => lb.targetedK8s == name);
      assert Narrowed(cs, name)[1..] == Narrowed(cs[1..], name);
    }
  }

  /** Consuming separately merges what the updates have for this cluster. */
  lemma {:induction false} EachIsMerge(lbs: seq<Lb>, cs: seq<Change>, name: string)
    requires cs != []
    ensures EachLbs(lbs, cs, name) == Merge(lbs, CommitAll(Narrowed(cs, name)).lbs)
    decreases |cs|
  {
    var here, ns := Targeting(cs[0].lbs, name), Narrowed(cs, name);
    assert ns[0].lbs == here && ns[1..] == Narrowed(cs[1..], name);
    if |cs| == 1 {
      assert EachLbs(Merge(lbs, here), cs[1..], name) == Merge(lbs, here);
    } else {
      EachIsMerge(Merge(lbs, here), cs[1..], name);
      CommitAllHead(ns);
      MergeAssociative(lbs, here, CommitAll(ns[1..]).lbs);
    }
  }

  ghost predicate NothingHidden(lbs: seq<Lb>, cs: seq<Change>, name: string)
  {
    forall id :: !Hidden(lbs, cs, name, id)
  }

  /** New to the task, and brought by an update for this cluster. */
  predicate Brought(lbs: seq<Lb>, cs: seq<Change>, name: string, id: string)
  {
    id !in Ids(lbs) && id in Ids(Targeting(Mentions(cs), name))
  }

  /** New load balancers that are mentioned in one order are also mentioned for this cluster in that order. */
  ghost predicate OrderKept(lbs: seq<Lb>, cs: seq<Change>, name: string)
  {
    forall x, y :: Brought(lbs, cs, name, x) && Brought(lbs, cs, name, y) ==>
      (Before(Ids(Targeting(Mentions(cs), name)), x, y) <==> Before(Ids(Mentions(cs)), x, y))
  }

  /** What consuming separately appends, and in which order. */
  lemma SeparateIds(lbs: seq<Lb>, cs: seq<Change>, name: string)
    requires cs != [] && AllDistinct(cs)
    ensures var s := Filter(Ids(CommitAll(Narrowed(cs, name)).lbs), id => id !in Ids(lbs));
            && Distinct(Ids(CommitAll(Narrowed(cs, name)).lbs)) && Distinct(s)
            && (forall id :: id in s <==> Brought(lbs, cs, name, id))
            && (forall x, y :: x in s && y in s ==> (Before(s, x, y) <==> Before(Ids(Targeting(Mentions(cs), name)), x, y)))
  {
    var ns, p := Narrowed(cs, name), (id: string) => id !in Ids(lbs);
    var ids := Ids(CommitAll(ns).lbs);
    NarrowedDistinct(cs, name);
    NarrowedMentions(cs, name);
    BatchFind(ns, "");
    DistinctFilter(ids, p);
    forall id ensures id in Filter(ids, p) <==> Brought(lbs, cs, name, id) {
      FilterMember(ids, p, id);
      MentionsKnown(ns, id);
    }
    forall x, y | x in Filter(ids, p) && y in Filter(ids, p)
      ensures Before(Filter(ids, p), x, y) <==> Before(Ids(Mentions(ns)), x, y)
    {
      FilterMember(ids, p, x);
      FilterMember(ids, p, y);
      BeforeInFilter(ids, p, x, y);
      CommitOrder(ns, x, y);
    }
  }

  /** What consuming the batch appends, in the order of first mention. */
  lemma BatchIds(lbs: seq<Lb>, cs: seq<Change>, name: string)
    requires cs != [] && AllDistinct(cs)
    ensures var all := CommitAll(cs).lbs;
            var s := Filter(Ids(Targeting(all, name)), id => id !in Ids(lbs));
            && Distinct(Ids(Targeting(all, name))) && Distinct(s)
            && (forall id :: id in s <==> Aims(all, name, id) && id !in Ids(lbs))
            && (forall x, y :: x in s && y in s ==> (Before(s, x, y) <==> Before(Ids(Mentions(cs)), x, y)))
  {
    var all, p, q := CommitAll(cs).lbs, (id: string) => id !in Ids(lbs), (id: string) => Aims(CommitAll(cs).lbs, name, id);
    BatchFind(cs, "");
    IdsTargeting(all, name);
    var ids := Ids(Targeting(all, name));
    DistinctFilter(ids, p);
    forall id ensures id in Filter(ids, p) <==> Aims(all, name, id) && id !in Ids(lbs) {
      FilterMember(ids, p, id);
    }
    forall x, y | x in Filter(ids, p) && y in Filter(ids, p)
      ensures Before(Filter(ids, p), x, y) <==> Before(Ids(Mentions(cs)), x, y)
    {
      FilterMember(ids, p, x);
      FilterMember(ids, p, y);
      BeforeInFilter(ids, p, x, y);
      FindSound(all, x);
      FindSound(all, y);
      FilterCongruent(Ids(all), q, id => Aims(all, name, id));
      BeforeInFilter(Ids(all), q, x, y);
      MentionsKnown(cs, x);
      MentionsKnown(cs, y);
      CommitOrder(cs, x, y);
    }
  }

  /** With nothing hidden both append the same load balancers. */
  lemma SameBrought(lbs: seq<Lb>, cs: seq<Change>, name: string, id: string)
    requires cs != [] && AllDistinct(cs) && !Hidden(lbs, cs, name, id) && id !in Ids(lbs)
    ensures Brought(lbs, cs, name, id) <==> Aims(CommitAll(cs).lbs, name, id)
  {
    var ns, all := Narrowed(cs, name), CommitAll(cs).lbs;
    FindSound(lbs, id);
    NarrowedDistinct(cs, name);
    NarrowedMentions(cs, name);
    MentionsKnown(ns, id);
    FindSound(CommitAll(ns).lbs, id);
    EachIsMerge(lbs, cs, name);
    FindMerge(lbs, CommitAll(ns).lbs, id);
    LookupAgrees(lbs, cs, name, id);
    FindMerge(lbs, Targeting(all, name), id);
    BatchFind(cs, id);
    FindFilter(all, (lb: Lb) => lb.targetedK8s == name, id);
  }

  lemma ContentsExactly(lbs: seq<Lb>, cs: seq<Change>, name: string)
    requires cs != [] && AllDistinct(cs)
    ensures SameContents(EachLbs(lbs, cs, name), Merge(lbs, Targeting(CommitAll(cs).lbs, name))) <==>
            NothingHidden(lbs, cs, name)
  {
    var x, y := EachLbs(lbs, cs, name), Merge(lbs, Targeting(CommitAll(cs).lbs, name));
    forall id ensures Find(x, id) == Find(y, id) <==> !Hidden(lbs, cs, name, id) {
      LookupAgrees(lbs, cs, name, id);
    }
    if id :| Hidden(lbs, cs, name, id) {
      assert Find(x, id) != Find(y, id);
    }
  }

  /** With nothing hidden the appended IDs are equal exactly when the order is kept. */
  lemma OrderExactly(lbs: seq<Lb>, cs: seq<Change>, name: string, s: seq<string>, t: seq<string>)
    requires cs != [] && Distinct(s) && Distinct(t)
    requires forall id :: id in s <==> Brought(lbs, cs, name, id)
    requires forall id :: id in t <==> Brought(lbs, cs, name, id)
    requires forall x, y :: x in s && y in s ==> (Before(s, x, y) <==> Before(Ids(Targeting(Mentions(cs), name)), x, y))
    requires forall x, y :: x in t && y in t ==> (Before(t, x, y) <==> Before(Ids(Mentions(cs)), x, y))
    ensures s == t <==> OrderKept(lbs, cs, name)
  {
    if OrderKept(lbs, cs, name) {
      forall x, y | x in s && y in s ensures Before(s, x, y) <==> Before(t, x, y) {
        assert Brought(lbs, cs, name, x) && Brought(lbs, cs, name, y);
      }
      SameOrder(s, t);
    }
    if s == t {
      forall x, y | Brought(lbs, cs, name, x) && Brought(lbs, cs, name, y)
        ensures Before(Ids(Targeting(Mentions(cs), name)), x, y) <==> Before(Ids(Mentions(cs)), x, y)
      {
        assert x in s && y in s && x in t && y in t;
      }
    }
  }

  /** The load balancers and their order agree exactly under these conditions. */
  lemma LbsExactly(lbs: seq<Lb>, cs: seq<Change>, name: string)
    requires cs != [] && AllDistinct(cs) && Distinct(Ids(lbs))
    ensures EachLbs(lbs, cs, name) == Merge(lbs, Targeting(CommitAll(cs).lbs, name)) <==>
            NothingHidden(lbs, cs, name) && OrderKept(lbs, cs, name)
  {
    var u, v := CommitAll(Narrowed(cs, name)).lbs, Targeting(CommitAll(cs).lbs, name);
    EachIsMerge(lbs, cs, name);
    SeparateIds(lbs, cs, name);
    BatchIds(lbs, cs, name);
    MergesAgree(lbs, u, v);
    ContentsExactly(lbs, cs, name);
    if NothingHidden(lbs, cs, name) {
      var s, t := Filter(Ids(u), id => id !in Ids(lbs)), Filter(Ids(v), id => id !in Ids(lbs));
      forall id ensures id in t <==> Brought(lbs, cs, name, id) {
        if id !in Ids(lbs) {
          SameBrought(lbs, cs, name, id);
        }
      }
      OrderExactly(lbs, cs, name, s, t);
    }
  }

  /**
   Any number of updates, in one batch or one by one, lead to the same task exactly when no
   update is hidden, new load balancers keep their order, and the autoscaler setting agrees.
   */
  lemma BatchedExactly(job: Job, cs: seq<Change>)
    requires Ready(job) && cs != [] && AllMatch(job.state.k8s.value, cs)
    requires Distinct(Ids(job.state.lbs)) && AllDistinct(cs)
    ensures var e, b := ConsumeEach(job, cs), ConsumeUpdate(job, CommitAll(cs));
            var lbs, name := job.state.lbs, job.state.k8s.value.info.name;
            && e.outcome == b.outcome
            && (e.outcome != Ok ==> e.job == b.job)
            && (e.outcome == Ok ==>
                  (e.job == b.job <==> NothingHidden(lbs, cs, name) && OrderKept(lbs, cs, name) && ScalerAgrees(job, cs)))
  {
    BatchedTask(job, cs);
    LbsExactly(job.state.lbs, cs, job.state.k8s.value.info.name);
  }

  lemma PairShape(lbs: seq<Lb>, a: Change, b: Change, name: string)
    ensures CommitAll([a, b]) == Combine(a, b)
    ensures EachLbs(lbs, [a, b], name) == Merge(lbs, Merge(Targeting(a.lbs, name), Targeting(b.lbs, name)))
  {
    var cs, mid := [a, b], Merge(lbs, Targeting(a.lbs, name));
    assert cs[..1] == [a] && cs[1..] == [b] && [b][1..] == [];
    assert CommitAll(cs) == Combine(CommitAll([a]), b);
    assert EachLbs(mid, [b], name) == EachLbs(Merge(mid, Targeting(b.lbs, name)), [], name);
    assert EachLbs(lbs, cs, name) == EachLbs(mid, [b], name);
    MergeAssociative(lbs, Targeting(a.lbs, name), Targeting(b.lbs, name));
  }

  // ---------------------------------------------------------------------- witnesses

  function SomeCluster(pools: seq<NodePool>): K8s
  {
    K8s(ClusterInfo("main", "0000000", pools), "", "", "")
  }

  /** Two updates of one load balancer that disagree on its target: the batch loses the first one. */
  lemma BatchingCanLoseUpdate() returns (job: Job, a: Change, b: Change, id: string)
    ensures Ready(job) && ConsumeEach(job, [a, b]).outcome == Ok
    ensures var e, c := ConsumeEach(job, [a, b]).job, ConsumeUpdate(job, Combine(a, b)).job;
            !e.NoJob? && !c.NoJob? && Find(e.state.lbs, id).Some? && Find(c.state.lbs, id).None?
  {
    job := Job.Create(Clusters(Some(SomeCluster([])), []));
    var x := Lb(ClusterInfo("lb", "1111111", []), [], "main", false);
    var y := x.(targetedK8s := "other");
    a, b, id := Change(None, [x]), Change(None, [y]), x.Id();
    assert y.Id() == id;
    PairShape([], a, b, "main");
    BatchedTask(job, [a, b]);
    EachResult(job, [a, b]);
    FilterAll([x], (lb: Lb) => lb.targetedK8s == "main");
    FilterNone([y], (lb: Lb) => lb.targetedK8s == "main");
    MergeUnit([x]);
    assert Merge([x], [y]) == [y] + Merge([], []);
  }

  lemma SwappedPositions(p: string, q: string)
    requires p != q
    ensures Before([p, q, p], p, q) && !Before([q, p], p, q)
  {
    assert [p, q, p][1..] == [q, p] && [q, p][1..] == [p];
  }

  lemma SwappedTargets(x: Lb, y: Lb, away: Lb, name: string)
    requires x.targetedK8s == name && y.targetedK8s == name && away.targetedK8s != name
    ensures Targeting([away, y, x], name) == [y, x]
  {
    var p := (lb: Lb) => lb.targetedK8s == name;
    assert [away, y, x] == [away] + [y, x];
    FilterAppend([away], [y, x], p);
    FilterNone([away], p);
    FilterAll([y, x], p);
  }

  lemma Reordered(a: Change, b: Change, x: Lb, y: Lb, away: Lb, name: string)
    requires a.lbs == [away, y] && b.lbs == [x] && away.Id() == x.Id() && x.Id() != y.Id()
    requires x.targetedK8s == name && y.targetedK8s == name && away.targetedK8s != name
    ensures !OrderKept([], [a, b], name)
  {
    PairMentions(a, b);
    assert Mentions([a, b]) == [away, y, x];
    SwappedTargets(x, y, away, name);
    SwappedPositions(x.Id(), y.Id());
    var all, ours := Ids([away, y, x]), Ids([y, x]);
    assert ours == [y.Id(), x.Id()] && all == [x.Id(), y.Id(), x.Id()];
    assert x.Id() in ours && y.Id() in ours;
    assert Brought([], [a, b], name, x.Id()) && Brought([], [a, b], name, y.Id());
  }

  lemma NoneHidden(a: Change, b: Change, name: string)
    requires forall lb :: lb in b.lbs ==> lb.targetedK8s == name
    requires forall lb :: lb in a.lbs && lb.targetedK8s != name ==> lb.Id() in Ids(b.lbs)
    ensures NothingHidden([], [a, b], name)
  {
    forall id ensures !Hidden([], [a, b], name, id) {
      PairLatest(a, b, id, (lb: Lb) => true);
      PairLatest(a, b, id, (lb: Lb) => lb.targetedK8s == name);
      FindSound(a.lbs, id);
      FindSound(b.lbs, id);
    }
  }

  /** A load balancer that the first update has for another cluster moves to the front in a batch. */
  lemma BatchingCanReorder() returns (job: Job, a: Change, b: Change)
    ensures Ready(job) && ConsumeEach(job, [a, b]).outcome == Ok
    ensures NothingHidden([], [a, b], "main") && job.Create? && job.state.lbs == []
    ensures ConsumeEach(job, [a, b]).job != ConsumeUpdate(job, Combine(a, b)).job
  {
    job := Job.Create(Clusters(Some(SomeCluster([])), []));
    var x := Lb(ClusterInfo("x", "1111111", []), [], "main", false);
    var y := Lb(ClusterInfo("y", "2222222", []), [], "main", false);
    var away := x.(targetedK8s := "other");
    a, b := Change(None, [away, y]), Change(None, [x]);
    assert x.Id()[0] == 'x' && y.Id()[0] == 'y' && away.Id() == x.Id();
    ReorderedPair(a, b, x, y, away, "main");
    ReorderedJob(job, a, b);
  }

  lemma ReorderedPair(a: Change, b: Change, x: Lb, y: Lb, away: Lb, name: string)
    requires a.lbs == [away, y] && b.lbs == [x] && away.Id() == x.Id() && x.Id() != y.Id()
    requires x.targetedK8s == name && y.targetedK8s == name && away.targetedK8s != name
    ensures Distinct(Ids(a.lbs)) && Distinct(Ids(b.lbs))
    ensures NothingHidden([], [a, b], name) && !OrderKept([], [a, b], name)
  {
    assert Ids(b.lbs)[0] == x.Id() && Ids(a.lbs) == [x.Id(), y.Id()];
    Reordered(a, b, x, y, away, name);
    NoneHidden(a, b, name);
  }

  lemma ReorderedJob(job: Job, a: Change, b: Change)
    requires Ready(job) && job.Create? && job.state.lbs == [] && a.k8s == None && b.k8s == None
    requires Distinct(Ids(a.lbs)) && Distinct(Ids(b.lbs)) && !OrderKept([], [a, b], job.state.k8s.value.info.name)
    ensures ConsumeEach(job, [a, b]).outcome == Ok
    ensures ConsumeEach(job, [a, b]).job != ConsumeUpdate(job, Combine(a, b)).job
  {
    PairShape([], a, b, job.state.k8s.value.info.name);
    EachResult(job, [a, b]);
    BatchedExactly(job, [a, b]);
  }

  lemma PairMentions(a: Change, b: Change)
    ensures Mentions([a, b]) == a.lbs + b.lbs
  {
    assert [a, b][1..] == [b] && [b][1..] == [] && Mentions([]) == [];
    assert Mentions([b]) == b.lbs;
  }

  lemma PairLatest(a: Change, b: Change, id: string, p: Lb -> bool)
    ensures LatestUpdate([a, b], id, p) ==
            if Find(b.lbs, id).Some? && p(Find(b.lbs, id).value) then Find(b.lbs, id)
            else if Find(a.lbs, id).Some? && p(Find(a.lbs, id).value) then Find(a.lbs, id)
            else None
  {
    assert [a, b][1..] == [b] && [b][1..] == [];
    assert LatestUpdate([], id, p) == None;
    assert LatestUpdate([b], id, p) ==
           if Find(b.lbs, id).Some? && p(Find(b.lbs, id).value) then Find(b.lbs, id) else None;
  }

  /** A pool that leaves autoscaling while two updates bring different settings for it. */
  lemma BatchingCanChangeScaler() returns (job: Job, a: Change, b: Change)
    ensures Ready(job) && ConsumeEach(job, [a, b]).outcome == Ok
    ensures ConsumeEach(job, [a, b]).job != ConsumeUpdate(job, Combine(a, b)).job
  {
    var p := NodePool("p", [], Dynamic(0, Some(AutoscalerConf(1, 3, 1)), ""), false, map[], 0);
    var q := p.(kind := Dynamic(0, None, ""));
    var k, l := SomeCluster([p]), SomeCluster([q]);
    job := Job.Update(Clusters(Some(k), []), TfMoveNodePoolFromAutoscaled("p"));
    a, b := Change(Some(k), []), Change(Some(l), []);
    assert ScalerOf([p], "p") == Some(AutoscalerConf(1, 3, 1)) && ScalerOf([q], "p") == None;
    PairShape([], a, b, "main");
    assert !ScalerAgrees(job, [a, b]);
    BatchedTask(job, [a, b]);
  }

  /** A change for another cluster, refused when it comes alone, goes unnoticed in a batch. */
  lemma BatchingCanHideCluster() returns (job: Job, a: Change, b: Change)
    ensures !job.NoJob? && job.state.k8s.Some?
    ensures ConsumeEach(job, [a, b]).outcome != Ok && ConsumeUpdate(job, Combine(a, b)).outcome == Ok
  {
    var k := SomeCluster([]);
    job := Job.Create(Clusters(Some(k), []));
    a := Change(Some(k.(info := ClusterInfo("other", "0000000", []))), []);
    b := Change(Some(k), []);
    assert k.Id()[0] == 'm' && a.k8s.value.Id()[0] == 'o';
    assert a in [a, b] && !NoneForeign(k, [a, b]);
    PairShape([], a, b, "main");
    BatchedOutcome(job, [a, b]);
  }
}
