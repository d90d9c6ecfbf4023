/**
 Two resources side by side.  The manager keeps a config under a name that is made from the
 resource's namespace and name; when two resources get the same name they share the config.
 */
module SharedConfig {
  import opened Sequences
  import opened Reconcile
  import Naming

  datatype Pair = Pair(first: World, second: World)

  datatype Move = Move(byFirst: bool, step: Step)

  predicate CanMove(p: Pair, v: Move)
  {
    if v.byFirst then Enabled(p.first, v.step) else Enabled(p.second, v.step)
  }

  /** One resource moves; if the config is shared the other one sees what became of it. */
  function After(p: Pair, v: Move, shared: bool): Pair
    requires CanMove(p, v)
  {
    if v.byFirst then
      var w := Apply(p.first, v.step);
      Pair(w, if shared then p.second.(config := w.config) else p.second)
    else
      var w := Apply(p.second, v.step);
      Pair(if shared then p.first.(config := w.config) else p.first, w)
  }

  ghost predicate CanRun(p: Pair, vs: seq<Move>, shared: bool)
    decreases |vs|
  {
    vs == [] || (CanMove(p, vs[0]) && CanRun(After(p, vs[0], shared), vs[1..], shared))
  }

  ghost function RunBoth(p: Pair, vs: seq<Move>, shared: bool): Pair
    requires CanRun(p, vs, shared)
    decreases |vs|
  {
    if vs == [] then p else RunBoth(After(p, vs[0], shared), vs[1..], shared)
  }

  /** The config of a resource that nobody deletes is marked for deletion. */
  predicate Harmed(w: World)
  {
    Marked(w.config) && w.hist != [] && Current(w).Some? && !IsDeleting(Current(w))
  }

  lemma {:induction false} ApartKeepsInv(p: Pair, vs: seq<Move>)
    requires Inv(p.first) && Inv(p.second) && CanRun(p, vs, false)
    ensures var q := RunBoth(p, vs, false); Inv(q.first) && Inv(q.second)
    decreases |vs|
  {
    if vs != [] {
      if vs[0].byFirst {
        InvStep(p.first, vs[0].step);
      } else {
        InvStep(p.second, vs[0].step);
      }
      ApartKeepsInv(After(p, vs[0], false), vs[1..]);
    }
  }

  /** The given steps, taken by one of the two. */
  function MovesOf(byFirst: bool, ts: seq<Step>): (vs: seq<Move>)
    ensures |vs| == |ts|
  {
    if ts == [] then [] else [Move(byFirst, ts[0])] + MovesOf(byFirst, ts[1..])
  }

  lemma {:induction false} FirstAlone(p: Pair, ts: seq<Step>)
    requires Runnable(p.first, ts) && p.first.config == p.second.config
    ensures CanRun(p, MovesOf(true, ts), true)
    ensures var w := Run(p.first, ts); RunBoth(p, MovesOf(true, ts), true) == Pair(w, p.second.(config := w.config))
    decreases |ts|
  {
    if ts != [] {
      assert MovesOf(true, ts)[1..] == MovesOf(true, ts[1..]);
      FirstAlone(After(p, Move(true, ts[0]), true), ts[1..]);
    }
  }

  lemma {:induction false} SecondAlone(p: Pair, ts: seq<Step>)
    requires Runnable(p.second, ts) && p.first.config == p.second.config
    ensures CanRun(p, MovesOf(false, ts), true)
    ensures var w := Run(p.second, ts); RunBoth(p, MovesOf(false, ts), true) == Pair(p.first.(config := w.config), w)
    decreases |ts|
  {
    if ts != [] {
      assert MovesOf(false, ts)[1..] == MovesOf(false, ts[1..]);
      SecondAlone(After(p, Move(false, ts[0]), true), ts[1..]);
    }
  }

  lemma {:induction false} RunOn(p: Pair, vs: seq<Move>, us: seq<Move>)
    requires CanRun(p, vs, true) && CanRun(RunBoth(p, vs, true), us, true)
    ensures CanRun(p, vs + us, true) && RunBoth(p, vs + us, true) == RunBoth(RunBoth(p, vs, true), us, true)
    decreases |vs|
  {
    if vs == [] {
      assert vs + us == us;
    } else {
      assert (vs + us)[1..] == vs[1..] + us;
      RunOn(After(p, vs[0], true), vs[1..], us);
    }
  }

  const BUILT: map<string, bool> := map["cluster" := true]

  /** The first resource gets its config, and the manager builds the cluster. */
  lemma BuildRun(w: World) returns (ts: seq<Step>)
    requires Initial(w)
    ensures Runnable(w, ts)
    ensures var e := Run(w, ts);
            && e.hist != [] && Current(e) == Some(LIVE)
            && e.config == Some(Config(Some(0), Done, BUILT))
  {
    var r := LIVE.(finalizer := false);
    var w1 := Apply(w, UserCreate(r));
    var w2 := Apply(w1, Get(1));
    var w3 := Apply(w2, List);
    var w4 := Apply(w3, AddFinalizer);
    var w5 := Apply(w4, CreateConfig);
    Prepend(w5, ManagerProgress(Done, BUILT), []);
    ts := [ManagerProgress(Done, BUILT)] + [];
    Prepend(w4, CreateConfig, ts);
    ts := [CreateConfig] + ts;
    Prepend(w3, AddFinalizer, ts);
    ts := [AddFinalizer] + ts;
    Prepend(w2, List, ts);
    ts := [List] + ts;
    Prepend(w1, Get(1), ts);
    ts := [Get(1)] + ts;
    Prepend(w, UserCreate(r), ts);
    ts := [UserCreate(r)] + ts;
  }

  /** The second resource is created, and its reconciler guards it. */
  lemma GuardSecond(w: World) returns (ts: seq<Step>)
    requires w.hist == [None] && w.seen == 0 && w.pc.Idle? && w.config == Some(Config(Some(0), Done, BUILT))
    ensures Runnable(w, ts)
    ensures var e := Run(w, ts);
            |e.hist| == 3 && Current(e) == Some(LIVE) && e.seen == 1 && e.pc.Idle? && e.config == w.config
  {
    var r := LIVE.(finalizer := false);
    var w1 := Apply(w, UserCreate(r));
    var w2 := Apply(w1, Get(1));
    var w3 := Apply(w2, List);
    var w4 := Apply(w3, AddFinalizer);
    Prepend(w4, Stop, []);
    ts := [Stop] + [];
    Prepend(w3, AddFinalizer, ts);
    ts := [AddFinalizer] + ts;
    Prepend(w2, List, ts);
    ts := [List] + ts;
    Prepend(w1, Get(1), ts);
    ts := [Get(1)] + ts;
    Prepend(w, UserCreate(r), ts);
    ts := [UserCreate(r)] + ts;
  }

  /** The second resource is deleted, and its reconciler marks the config. */
  lemma MarkSecond(w: World) returns (ts: seq<Step>)
    requires |w.hist| == 3 && Current(w) == Some(LIVE) && w.seen == 1 && w.pc.Idle?
    requires w.config == Some(Config(Some(0), Done, BUILT))
    ensures Runnable(w, ts) && Marked(Run(w, ts).config)
  {
    var w1 := Apply(w, UserDelete);
    var w2 := Apply(w1, Get(3));
    assert BUILT["cluster"];
    var w3 := Apply(w2, List);
    var w4 := Apply(w3, StatusBeforeRemoval);
    Prepend(w4, MarkConfig, []);
    ts := [MarkConfig] + [];
    Prepend(w3, StatusBeforeRemoval, ts);
    ts := [StatusBeforeRemoval] + ts;
    Prepend(w2, List, ts);
    ts := [List] + ts;
    Prepend(w1, Get(3), ts);
    ts := [Get(3)] + ts;
    Prepend(w, UserDelete, ts);
    ts := [UserDelete] + ts;
  }

  /** With a shared config, deleting one resource has the infrastructure of the other destroyed. */
  lemma SharingHarms(p: Pair) returns (vs: seq<Move>)
    requires Initial(p.first) && Initial(p.second)
    ensures CanRun(p, vs, true) && Harmed(RunBoth(p, vs, true).first)
  {
    var a := BuildRun(p.first);
    FirstAlone(p, a);
    var p1 := RunBoth(p, MovesOf(true, a), true);
    var b := GuardSecond(p1.second);
    SecondAlone(p1, b);
    var p2 := RunBoth(p1, MovesOf(false, b), true);
    var c := MarkSecond(p2.second);
    SecondAlone(p2, c);
    RunOn(p1, MovesOf(false, b), MovesOf(false, c));
    RunOn(p, MovesOf(true, a), MovesOf(false, b) + MovesOf(false, c));
    vs := MovesOf(true, a) + (MovesOf(false, b) + MovesOf(false, c));
  }

  /** In no run is the config of a resource marked that nobody deletes. */
  ghost predicate NoHarm(p: Pair, shared: bool)
  {
    forall vs :: CanRun(p, vs, shared) ==> Unharmed(RunBoth(p, vs, shared))
  }

  predicate Unharmed(p: Pair)
  {
    !Harmed(p.first) && !Harmed(p.second)
  }

  /** Two resources do each other no harm exactly when their config names differ. */
  lemma NamesMustDiffer(ns: string, name: string, ns': string, name': string, p: Pair)
    requires Initial(p.first) && Initial(p.second)
    ensures var shared := Naming.DashedName(ns, name) == Naming.DashedName(ns', name'); NoHarm(p, shared) <==> !shared
  {
    if Naming.DashedName(ns, name) == Naming.DashedName(ns', name') {
      var vs := SharingHarms(p);
      assert !Unharmed(RunBoth(p, vs, true));
    } else {
      forall vs | CanRun(p, vs, false) ensures Unharmed(RunBoth(p, vs, false)) {
        ApartKeepsInv(p, vs);
        NeverHarmed(RunBoth(p, vs, false).first);
        NeverHarmed(RunBoth(p, vs, false).second);
      }
    }
  }

  lemma NeverHarmed(w: World)
    requires Inv(w)
    ensures !Harmed(w)
  {
    if Marked(w.config) {
      MarkedIsDeleting(w);
    }
  }
}
