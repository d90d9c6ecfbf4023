/**
 The operator's reconcile loop for one resource, as a step protocol.  The resource lives in
 the API server, which keeps a history of versions; the reconciler reads it through a cache
 that may lag but never goes back, and its writes succeed only against the latest version.
 The manager keeps at most one config for the resource.  A reconcile may stop after any
 step, because a call failed or the operator crashed; a call takes effect before it returns
 or not at all.  Users and the manager act at any time.
 */
module Reconcile {
  import opened Sequences

  /** `spec` stands for the checksum of the manifest that the resource renders to. */
  datatype Resource = Resource(finalizer: bool, otherFinalizers: bool, deleting: bool, spec: int)

  datatype ManifestState = Pending | Scheduled | Done | Errored

  /** A config without a manifest is marked for deletion; `clusters` tells which ones are built. */
  datatype Config = Config(manifest: Option<int>, state: ManifestState, clusters: map<string, bool>)

  /** What listing the configs showed. */
  datatype View = NoConfig | Found(marked: bool, deleted: bool, checksum: Option<int>, state: ManifestState)

  datatype Pc =
    | Idle
    | Fetched
    | Listed(view: View)     // finalizer and deletion logic comes next
    | Removing(view: View)   // the resource is being deleted and a config exists
    | Ready(view: View)      // the resource is live and carries the finalizer
    | Compared(view: View)   // only an update is left to decide
    | Closing                // the last status update comes next

  datatype World = World(
    hist: seq<Option<Resource>>,  // versions of the resource; the last one is current
    seen: nat,                    // the version the cache delivered last
    config: Option<Config>,
    pc: Pc,
    copy: Resource,               // the reconciler's copy of the resource
    version: nat)                 // the version that copy belongs to

  datatype Step =
    // environment
    | UserCreate(created: Resource)
    | UserEdit(spec: int, otherFinalizers: bool)
    | UserDelete
    | ManagerProgress(state: ManifestState, clusters: map<string, bool>)
    | ManagerRemove
    // reconciler
    | Stop
    | Get(at: nat)
    | List
    | AddFinalizer
    | KeepFinalizer
    | RemoveFinalizer
    | StatusBeforeRemoval
    | MarkConfig
    | LeaveConfig
    | CreateConfig
    | ShowProgress
    | ShowError
    | SkipError
    | UpdateConfig
    | NoUpdate
    | StatusAtEnd

  // ------------------------------------------------------------- transitions

  function Current(w: World): Option<Resource>
    requires w.hist != []
  {
    w.hist[|w.hist| - 1]
  }

  /** A resource under deletion disappears with its last finalizer. */
  function Settle(r: Resource): Option<Resource>
  {
    if r.deleting && !r.finalizer && !r.otherFinalizers then None else Some(r)
  }

  predicate Guarded(r: Option<Resource>)
  {
    r.Some? && r.value.finalizer
  }

  predicate IsDeleting(r: Option<Resource>)
  {
    r.Some? && r.value.deleting
  }

  predicate Marked(c: Option<Config>)
  {
    c.Some? && c.value.manifest.None?
  }

  predicate Built(c: Config)
  {
    exists name :: name in c.clusters && c.clusters[name]
  }

  function Viewed(c: Option<Config>): View
  {
    if c.None? then NoConfig
    else Found(c.value.manifest.None?, !Built(c.value), c.value.manifest, c.value.state)
  }

  predicate Latest(w: World)
  {
    w.version + 1 == |w.hist|
  }

  predicate Enabled(w: World, t: Step)
  {
    && w.hist != []
    && match t
       case UserCreate(r) => Current(w).None? && !r.deleting
       case UserEdit(_, _) => Current(w).Some?
       case UserDelete => Current(w).Some?
       case ManagerProgress(_, _) => w.config.Some?
       case ManagerRemove => Marked(w.config)
       case Stop => true
       case Get(at) => w.pc.Idle? && w.seen <= at < |w.hist|
       case List => w.pc.Fetched?
       case AddFinalizer => w.pc.Listed? && !w.copy.deleting && !w.copy.finalizer && Latest(w)
       case KeepFinalizer => w.pc.Listed? && !w.copy.deleting && w.copy.finalizer
       case RemoveFinalizer => w.pc.Listed? && w.copy.deleting && w.pc.view.NoConfig? && Latest(w)
       case StatusBeforeRemoval => w.pc.Listed? && w.copy.deleting && w.pc.view.Found? && Latest(w)
       case MarkConfig => w.pc.Removing? && w.copy.finalizer
                          && w.pc.view.Found? && !w.pc.view.marked && !w.pc.view.deleted
       case LeaveConfig => w.pc.Removing?
                           && (w.copy.finalizer ==> w.pc.view.Found? && (w.pc.view.marked || w.pc.view.deleted))
       case CreateConfig => w.pc.Ready? && w.pc.view.NoConfig?
       case ShowProgress => w.pc.Ready? && w.pc.view.Found? && w.pc.view.state.Scheduled?
       case ShowError => w.pc.Ready? && w.pc.view.Found? && w.pc.view.state.Errored? && Latest(w)
       case SkipError => w.pc.Ready? && w.pc.view.Found? && !w.pc.view.state.Scheduled? && !w.pc.view.state.Errored?
       case UpdateConfig => w.pc.Compared? && w.pc.view.Found? && w.pc.view.checksum != Some(w.copy.spec) && !w.copy.deleting
       case NoUpdate => w.pc.Compared? && (w.pc.view.Found? ==> w.pc.view.checksum == Some(w.copy.spec) || w.copy.deleting)
       case StatusAtEnd => w.pc.Closing? && Latest(w)
  }

  /** The reconciler writes a new version of the resource and keeps it as its copy. */
  function Write(w: World, r: Resource, pc: Pc): World
  {
    w.(hist := w.hist + [Some(r)], version := |w.hist|, copy := r, pc := pc)
  }

  function Upsert(c: Option<Config>, spec: int): Option<Config>
  {
    match c
    case None => Some(Config(Some(spec), Pending, map[]))
    case Some(old') => Some(old'.(manifest := Some(spec)))
  }

  function Apply(w: World, t: Step): World
    requires Enabled(w, t)
  {
    match t
    case UserCreate(r) => w.(hist := w.hist + [Some(r)])
    case UserEdit(spec, others) =>
      w.(hist := w.hist + [Settle(Current(w).value.(spec := spec, otherFinalizers := others))])
    case UserDelete => w.(hist := w.hist + [Settle(Current(w).value.(deleting := true))])
    case ManagerProgress(state, clusters) => w.(config := Some(w.config.value.(state := state, clusters := clusters)))
    case ManagerRemove => w.(config := None)
    case Stop => w.(pc := Idle)
    case Get(at) =>
      if w.hist[at].None? then w.(seen := at)
      else w.(seen := at, pc := Fetched, copy := w.hist[at].value, version := at)
    case List => w.(pc := Listed(Viewed(w.config)))
    case AddFinalizer => Write(w, w.copy.(finalizer := true), Ready(w.pc.view))
    case KeepFinalizer => w.(pc := Ready(w.pc.view))
    case RemoveFinalizer => w.(hist := w.hist + [Settle(w.copy.(finalizer := false))], pc := Idle)
    case StatusBeforeRemoval => Write(w, w.copy, Removing(w.pc.view))
    case MarkConfig =>
      w.(config := if w.config.Some? then Some(w.config.value.(manifest := None)) else None, pc := Closing)
    case LeaveConfig => w.(pc := Idle)
    case CreateConfig => w.(config := Upsert(w.config, w.copy.spec), pc := Closing)
    case ShowProgress => w.(pc := Closing)
    case ShowError => Write(w, w.copy, Compared(w.pc.view))
    case SkipError => w.(pc := Compared(w.pc.view))
    case UpdateConfig => w.(config := Upsert(w.config, w.copy.spec), pc := Closing)
    case NoUpdate => w.(pc := Closing)
    case StatusAtEnd => Write(w, w.copy, Idle)
  }

  // -------------------------------------------------------------- invariants

  /** Deletion of a resource is never taken back. */
  ghost predicate Permanent(h: seq<Option<Resource>>)
  {
    forall i :: 0 <= i && i + 1 < |h| && IsDeleting(h[i]) && h[i + 1].Some? ==> IsDeleting(h[i + 1])
  }

  /** The finalizer is lost only at a version under deletion that the reconciler has read. */
  ghost predicate LossSeen(h: seq<Option<Resource>>, seen: nat)
  {
    forall i :: 0 <= i && i + 1 < |h| && Guarded(h[i]) && !Guarded(h[i + 1]) ==> IsDeleting(h[i]) && i <= seen
  }

  ghost predicate History(w: World)
  {
    w.seen < |w.hist| && Permanent(w.hist) && LossSeen(w.hist, w.seen)
  }

  /** The reconciler's copy is a version of the resource reached without a gap from its read. */
  ghost predicate Copied(w: World)
  {
    !w.pc.Idle? ==>
      && w.seen <= w.version < |w.hist|
      && w.hist[w.version] == Some(w.copy)
      && w.hist[w.seen].Some?
      && w.hist[w.seen].value.deleting == w.copy.deleting
      && (w.pc.Fetched? || w.pc.Listed? ==> w.version == w.seen)
      && forall i :: w.seen <= i <= w.version ==> w.hist[i].Some?
  }

  predicate HasView(pc: Pc)
  {
    pc.Listed? || pc.Removing? || pc.Ready? || pc.Compared?
  }

  ghost predicate Decided(w: World)
  {
    && (w.pc.Ready? || w.pc.Compared? ==> !w.copy.deleting && w.copy.finalizer)
    && (w.pc.Removing? ==> w.copy.deleting && w.pc.view.Found?)
    && (w.pc.Compared? ==> w.pc.view.Found?)
    && (HasView(w.pc) && w.pc.view.NoConfig? ==> w.config.None?)
  }

  /** While the manager holds a config the resource exists, guarded, as the same object. */
  ghost predicate Protected(w: World)
  {
    && w.hist != []
    && (w.config.Some? ==> Guarded(Current(w)))
    && (w.config.Some? ==> forall i :: w.seen <= i < |w.hist| ==> w.hist[i].Some?)
    && (Marked(w.config) ==> w.seen < |w.hist| && IsDeleting(w.hist[w.seen]))
  }

  ghost predicate Inv(w: World)
  {
    History(w) && Copied(w) && Decided(w) && Protected(w)
  }

  lemma {:induction false} GuardedFrom(h: seq<Option<Resource>>, seen: nat, v: nat, j: nat)
    requires LossSeen(h, seen) && seen <= v <= j < |h|
    requires Guarded(h[v]) && !IsDeleting(h[v])
    ensures Guarded(h[j])
    decreases j
  {
    if v < j {
      GuardedFrom(h, seen, v, j - 1);
      assert Guarded(h[j - 1]) && !Guarded(h[j - 1 + 1]) ==> j - 1 <= seen;
    }
  }

  lemma {:induction false} DeletingFrom(h: seq<Option<Resource>>, v: nat, j: nat)
    requires Permanent(h) && v <= j < |h| && IsDeleting(h[v])
    requires forall i :: v <= i <= j ==> h[i].Some?
    ensures IsDeleting(h[j])
    decreases j
  {
    if v < j {
      DeletingFrom(h, v, j - 1);
      assert IsDeleting(h[j - 1]) && h[j - 1 + 1].Some?;
    }
  }

  /** Appending a version keeps the history lawful under these conditions. */
  lemma AppendHistory(h: seq<Option<Resource>>, seen: nat, r: Option<Resource>)
    requires h != [] && Permanent(h) && LossSeen(h, seen)
    requires var c := h[|h| - 1];
             && (IsDeleting(c) && r.Some? ==> IsDeleting(r))
             && (Guarded(c) && !Guarded(r) ==> IsDeleting(c) && |h| - 1 <= seen)
    ensures Permanent(h + [r]) && LossSeen(h + [r], seen)
  {
  }

  lemma SeenGrows(h: seq<Option<Resource>>, seen: nat, seen': nat)
    requires LossSeen(h, seen) && seen <= seen'
    ensures LossSeen(h, seen')
  {
  }

  /** A version whose write the reconciler performs, or that follows from an environment step. */
  lemma AppendKeepsProtection(w: World, w': World, r: Option<Resource>)
    requires Inv(w) && w'.hist == w.hist + [r] && w'.seen == w.seen && w'.config == w.config
    requires Guarded(Current(w)) ==> Guarded(r) || w.config.None?
    ensures Protected(w')
  {
    assert forall i :: 0 <= i < |w.hist| ==> w'.hist[i] == w.hist[i];
  }

  lemma EnvironmentStep(w: World, t: Step)
    requires Inv(w) && Enabled(w, t)
    requires t.UserCreate? || t.UserEdit? || t.UserDelete?
    ensures Inv(Apply(w, t))
  {
    var w' := Apply(w, t);
    var r := w'.hist[|w.hist|];
    AppendHistory(w.hist, w.seen, r);
    AppendKeepsProtection(w, w', r);
    assert forall i :: 0 <= i < |w.hist| ==> w'.hist[i] == w.hist[i];
  }

  lemma WriteStep(w: World, r: Resource, pc: Pc)
    requires Inv(w) && !w.pc.Idle? && Latest(w) && !pc.Fetched? && !pc.Listed?
    requires r.deleting == w.copy.deleting && (w.copy.finalizer ==> r.finalizer)
    ensures History(Write(w, r, pc)) && Copied(Write(w, r, pc)) && Protected(Write(w, r, pc))
  {
    var w' := Write(w, r, pc);
    AppendHistory(w.hist, w.seen, Some(r));
    AppendKeepsProtection(w, w', Some(r));
    assert forall i :: 0 <= i < |w.hist| ==> w'.hist[i] == w.hist[i];
  }

  /** A live copy means that the resource still exists and is guarded. */
  lemma LiveCopyGuarded(w: World)
    requires Inv(w) && (w.pc.Ready? || w.pc.Compared?)
    ensures Guarded(Current(w)) && forall i :: w.seen <= i < |w.hist| ==> w.hist[i].Some?
    ensures !Marked(w.config)
  {
    forall i | w.version <= i < |w.hist| ensures Guarded(w.hist[i]) {
      GuardedFrom(w.hist, w.seen, w.version, i);
    }
  }

  lemma UpsertStep(w: World, t: Step)
    requires Inv(w) && Enabled(w, t) && (t.CreateConfig? || t.UpdateConfig?)
    ensures Inv(Apply(w, t))
  {
    LiveCopyGuarded(w);
  }

  /** The only step that gives up the finalizer does so at the version it read. */
  lemma RemoveFinalizerStep(w: World)
    requires Inv(w) && Enabled(w, RemoveFinalizer)
    ensures Inv(Apply(w, RemoveFinalizer))
  {
    var r := Settle(w.copy.(finalizer := false));
    AppendHistory(w.hist, w.seen, r);
    AppendKeepsProtection(w, Apply(w, RemoveFinalizer), r);
  }

  lemma GetStep(w: World, at: nat)
    requires Inv(w) && Enabled(w, Get(at))
    ensures Inv(Apply(w, Get(at)))
  {
    SeenGrows(w.hist, w.seen, at);
    if Marked(w.config) {
      DeletingFrom(w.hist, w.seen, at);
    }
  }

  lemma MarkStep(w: World)
    requires Inv(w) && Enabled(w, MarkConfig)
    ensures Inv(Apply(w, MarkConfig))
  {
  }

  lemma InvStep(w: World, t: Step)
    requires Inv(w) && Enabled(w, t)
    ensures Inv(Apply(w, t))
  {
    match t
    case UserCreate(_) => EnvironmentStep(w, t);
    case UserEdit(_, _) => EnvironmentStep(w, t);
    case UserDelete => EnvironmentStep(w, t);
    case Get(at) => GetStep(w, at);
    case AddFinalizer => WriteStep(w, w.copy.(finalizer := true), Ready(w.pc.view));
    case StatusBeforeRemoval => WriteStep(w, w.copy, Removing(w.pc.view));
    case ShowError => WriteStep(w, w.copy, Compared(w.pc.view));
    case StatusAtEnd => WriteStep(w, w.copy, Idle);
    case RemoveFinalizer => RemoveFinalizerStep(w);
    case MarkConfig => MarkStep(w);
    case CreateConfig => UpsertStep(w, t);
    case UpdateConfig => UpsertStep(w, t);
    case _ =>
  }

  // --------------------------------------------------------------------- runs

  predicate Runnable(w: World, ts: seq<Step>)
    decreases |ts|
  {
    ts == [] || (Enabled(w, ts[0]) && Runnable(Apply(w, ts[0]), ts[1..]))
  }

  function Run(w: World, ts: seq<Step>): World
    requires Runnable(w, ts)
    decreases |ts|
  {
    if ts == [] then w else Run(Apply(w, ts[0]), ts[1..])
  }

  /** Nothing exists yet and the reconciler has not run. */
  predicate Initial(w: World)
  {
    w.hist == [None] && w.seen == 0 && w.config.None? && w.pc.Idle?
  }

  lemma {:induction false} RunInv(w: World, ts: seq<Step>)
    requires Inv(w) && Runnable(w, ts)
    ensures Inv(Run(w, ts))
    decreases |ts|
  {
    if ts != [] {
      InvStep(w, ts[0]);
      RunInv(Apply(w, ts[0]), ts[1..]);
    }
  }

  lemma MarkedIsDeleting(w: World)
    requires Inv(w) && Marked(w.config)
    ensures IsDeleting(Current(w))
  {
    DeletingFrom(w.hist, w.seen, |w.hist| - 1);
  }

  /**
   Infrastructure is never orphaned: in every run, with crashes, failed calls and concurrent
   users, a config implies that the resource exists and carries the finalizer, and a config
   marked for deletion implies that the resource is being deleted.
   */
  lemma NeverOrphaned(w: World, ts: seq<Step>)
    requires Initial(w) && Runnable(w, ts)
    ensures Run(w, ts).hist != []
    ensures Run(w, ts).config.Some? ==> Guarded(Current(Run(w, ts)))
    ensures Marked(Run(w, ts).config) ==> IsDeleting(Current(Run(w, ts)))
  {
    RunInv(w, ts);
    if Marked(Run(w, ts).config) {
      MarkedIsDeleting(Run(w, ts));
    }
  }

  /**
   A config is written only by a reconcile that read a live resource, is taken away only
   while the resource is being deleted, and is never revived once marked.
   */
  lemma ConfigChanges(w: World, t: Step)
    requires Inv(w) && Enabled(w, t)
    ensures var w' := Apply(w, t);
            && (t.CreateConfig? || t.UpdateConfig? ==> !IsDeleting(w.hist[w.seen]) && !Marked(w.config))
            && (w'.config.Some? && !Marked(w'.config) && w'.config != w.config ==>
                  t.CreateConfig? || t.UpdateConfig? || t.ManagerProgress?)
            && (w.config.Some? && w'.config.None? ==> IsDeleting(Current(w)))
            && (Marked(w.config) ==> w'.config.None? || Marked(w'.config))
            && (Marked(w'.config) && !Marked(w.config) ==> IsDeleting(w.hist[w.seen]) && IsDeleting(Current(w)))
  {
    if t.CreateConfig? || t.UpdateConfig? {
      LiveCopyGuarded(w);
    }
    if Marked(w.config) {
      MarkedIsDeleting(w);
    }
    if Marked(Apply(w, t).config) && !Marked(w.config) {
      InvStep(w, t);
      MarkedIsDeleting(Apply(w, t));
    }
  }

  /** Only the manager changes the state and the clusters of a config that stays. */
  lemma ConfigContents(w: World, t: Step)
    requires Inv(w) && Enabled(w, t) && w.config.Some? && Apply(w, t).config.Some? && !t.ManagerProgress?
    ensures var c, d := w.config.value, Apply(w, t).config.value;
            && d.state == c.state && d.clusters == c.clusters
            && (d.manifest != c.manifest ==> d.manifest == None || d.manifest == Some(w.copy.spec))
  {
  }

  /**
   The reconciler changes nothing of a resource but its finalizer, which it gives to live
   ones and takes only from one under deletion for which there is no config.
   */
  lemma ResourceChanges(w: World, t: Step)
    requires Inv(w) && Enabled(w, t) && ByReconciler(t) && Apply(w, t).hist != w.hist
    ensures Current(w).Some?
    ensures var r, h := Current(w).value, Apply(w, t).hist;
            && |h| == |w.hist| + 1 && h[..|w.hist|] == w.hist
            && h[|w.hist|] == (if t.RemoveFinalizer? then Settle(r.(finalizer := false))
                               else Some(r.(finalizer := r.finalizer || t.AddFinalizer?)))
            && (t.AddFinalizer? ==> !r.deleting)
            && (t.RemoveFinalizer? ==> r.deleting && w.config.None?)
  {
  }

  // ------------------------------------------------------- reaching deletion

  lemma Prepend(w: World, t: Step, ts: seq<Step>)
    requires Enabled(w, t) && Runnable(Apply(w, t), ts)
    ensures Runnable(w, [t] + ts) && Run(w, [t] + ts) == Run(Apply(w, t), ts)
  {
    assert ([t] + ts)[1..] == ts;
  }

  /** The manager reports nothing new during the run. */
  predicate Quiet(ts: seq<Step>)
  {
    forall t :: t in ts ==> !t.ManagerProgress?
  }

  /** The run removes the config and then gives up the finalizer. */
  ghost predicate Deletes(w: World, ts: seq<Step>)
  {
    Runnable(w, ts) && Quiet(ts) && Run(w, ts).config.None? && Run(w, ts).hist != [] && !Guarded(Current(Run(w, ts)))
  }

  lemma PrependDeletes(w: World, t: Step, ts: seq<Step>)
    requires Enabled(w, t) && Deletes(Apply(w, t), ts) && !t.ManagerProgress?
    ensures Deletes(w, [t] + ts)
  {
    Prepend(w, t, ts);
  }

  predicate Leaving(w: World)
  {
    w.hist != [] && w.pc.Idle? && w.seen < |w.hist| && Guarded(Current(w)) && IsDeleting(Current(w))
  }

  lemma DeletesWithoutConfig(w: World) returns (ts: seq<Step>)
    requires Leaving(w) && w.config.None?
    ensures Deletes(w, ts)
  {
    var w1 := Apply(w, Get(|w.hist| - 1));
    var w2 := Apply(w1, List);
    var w3 := Apply(w2, RemoveFinalizer);
    assert Deletes(w3, []);
    PrependDeletes(w2, RemoveFinalizer, []);
    PrependDeletes(w1, List, [RemoveFinalizer]);
    ts := [Get(|w.hist| - 1)] + ([List] + ([RemoveFinalizer] + []));
    PrependDeletes(w, Get(|w.hist| - 1), [List] + ([RemoveFinalizer] + []));
  }

  lemma DeletesMarked(w: World) returns (ts: seq<Step>)
    requires Leaving(w) && Marked(w.config)
    ensures Deletes(w, ts)
  {
    ts := DeletesWithoutConfig(Apply(w, ManagerRemove));
    PrependDeletes(w, ManagerRemove, ts);
    ts := [ManagerRemove] + ts;
  }

  lemma DeletesBuilt(w: World) returns (ts: seq<Step>)
    requires Leaving(w) && w.config.Some? && !Marked(w.config) && Built(w.config.value)
    ensures Deletes(w, ts)
  {
    var w1 := Apply(w, Get(|w.hist| - 1));
    var w2 := Apply(w1, List);
    var w3 := Apply(w2, StatusBeforeRemoval);
    var w4 := Apply(w3, MarkConfig);
    var w5 := Apply(w4, StatusAtEnd);
    ts := DeletesMarked(w5);
    PrependDeletes(w4, StatusAtEnd, ts);
    ts := [StatusAtEnd] + ts;
    PrependDeletes(w3, MarkConfig, ts);
    ts := [MarkConfig] + ts;
    PrependDeletes(w2, StatusBeforeRemoval, ts);
    ts := [StatusBeforeRemoval] + ts;
    PrependDeletes(w1, List, ts);
    ts := [List] + ts;
    PrependDeletes(w, Get(|w.hist| - 1), ts);
    ts := [Get(|w.hist| - 1)] + ts;
  }

  /** A config that is neither marked nor has a built cluster, as far as anyone has seen. */
  ghost predicate Unbuilt(w: World)
  {
    && Inv(w)
    && w.config.Some? && !Marked(w.config) && !Built(w.config.value)
    && (HasView(w.pc) && w.pc.view.Found? ==> w.pc.view.deleted)
  }

  lemma UnbuiltStep(w: World, t: Step)
    requires Unbuilt(w) && Enabled(w, t) && !t.ManagerProgress?
    ensures Unbuilt(Apply(w, t))
  {
    InvStep(w, t);
  }

  lemma {:induction false} UnbuiltRun(w: World, ts: seq<Step>)
    requires Unbuilt(w) && Runnable(w, ts) && Quiet(ts)
    ensures Unbuilt(Run(w, ts))
    decreases |ts|
  {
    if ts != [] {
      assert ts[0] in ts;
      UnbuiltStep(w, ts[0]);
      UnbuiltRun(Apply(w, ts[0]), ts[1..]);
    }
  }

  /**
   A resource under deletion can be let go without further news from the manager exactly when
   its config is gone, is marked already, or shows a built cluster.  A config with no built
   cluster counts as deleted, so it is never marked and the resource waits for the manager.
   */
  lemma DeletionReachable(w: World)
    requires Inv(w) && Leaving(w)
    ensures (exists ts :: Deletes(w, ts)) <==>
            (w.config.None? || Marked(w.config) || Built(w.config.value))
  {
    if w.config.None? {
      var ts := DeletesWithoutConfig(w);
    } else if Marked(w.config) {
      var ts := DeletesMarked(w);
    } else if Built(w.config.value) {
      var ts := DeletesBuilt(w);
    } else {
      forall ts | Runnable(w, ts) && Quiet(ts) ensures Run(w, ts).config.Some? {
        UnbuiltRun(w, ts);
      }
    }
  }

  // --------------------------------------------------------- reaching an update

  predicate ByReconciler(t: Step)
  {
    !t.UserCreate? && !t.UserEdit? && !t.UserDelete? && !t.ManagerProgress? && !t.ManagerRemove?
  }

  /** The run, by the reconciler alone, brings the config up to date with the given manifest. */
  ghost predicate Syncs(w: World, ts: seq<Step>, spec: int)
  {
    && Runnable(w, ts) && (forall t :: t in ts ==> ByReconciler(t))
    && Run(w, ts).config.Some? && Run(w, ts).config.value.manifest == Some(spec)
  }

  lemma PrependSyncs(w: World, t: Step, ts: seq<Step>, spec: int)
    requires Enabled(w, t) && ByReconciler(t) && Syncs(Apply(w, t), ts, spec)
    ensures Syncs(w, [t] + ts, spec)
  {
    Prepend(w, t, ts);
  }

  predicate Live(w: World)
  {
    w.hist != [] && w.pc.Idle? && w.seen < |w.hist| && Current(w).Some? && !Current(w).value.deleting
  }

  /** A reconcile up to the point where it knows a live, guarded resource. */
  lemma Approach(w: World, ts: seq<Step>, spec: int) returns (w': World, all: seq<Step>)
    requires Live(w) && spec == Current(w).value.spec
    ensures w'.hist != [] && w'.pc == Ready(Viewed(w.config)) && Latest(w') && w'.config == w.config
    ensures !w'.copy.deleting && w'.copy.spec == spec
    ensures Syncs(w', ts, spec) ==> Syncs(w, all, spec)
  {
    var at := |w.hist| - 1;
    var w1 := Apply(w, Get(at));
    var w2 := Apply(w1, List);
    var t := if w2.copy.finalizer then KeepFinalizer else AddFinalizer;
    w' := Apply(w2, t);
    all := [Get(at)] + ([List] + ([t] + ts));
    if Syncs(w', ts, spec) {
      PrependSyncs(w2, t, ts, spec);
      PrependSyncs(w1, List, [t] + ts, spec);
      PrependSyncs(w, Get(at), [List] + ([t] + ts), spec);
    }
  }

  lemma SyncsNew(w: World) returns (ts: seq<Step>)
    requires Live(w) && w.config.None?
    ensures Syncs(w, ts, Current(w).value.spec)
  {
    var spec := Current(w).value.spec;
    var tail := [CreateConfig] + [];
    var w', all := Approach(w, tail, spec);
    PrependSyncs(w', CreateConfig, [], spec);
    ts := all;
  }

  lemma SyncsChanged(w: World) returns (ts: seq<Step>)
    requires Live(w) && w.config.Some? && !w.config.value.state.Scheduled?
    requires w.config.value.manifest != Some(Current(w).value.spec)
    ensures Syncs(w, ts, Current(w).value.spec)
  {
    var spec := Current(w).value.spec;
    var t := if w.config.value.state.Errored? then ShowError else SkipError;
    var tail := [t] + ([UpdateConfig] + []);
    var w', all := Approach(w, tail, spec);
    var w2 := Apply(w', t);
    assert Syncs(Apply(w2, UpdateConfig), [], spec);
    PrependSyncs(w2, UpdateConfig, [], spec);
    PrependSyncs(w', t, [UpdateConfig] + [], spec);
    ts := all;
  }

  /** A config that the manager is working on, with another manifest. */
  ghost predicate Lagging(w: World, spec: int)
  {
    && Inv(w)
    && w.config.Some? && w.config.value.state.Scheduled? && w.config.value.manifest != Some(spec)
    && (HasView(w.pc) && w.pc.view.Found? ==> w.pc.view.state.Scheduled?)
    && !w.pc.Compared?
  }

  lemma LaggingStep(w: World, t: Step, spec: int)
    requires Lagging(w, spec) && Enabled(w, t) && ByReconciler(t)
    ensures Lagging(Apply(w, t), spec)
  {
    InvStep(w, t);
  }

  lemma {:induction false} LaggingRun(w: World, ts: seq<Step>, spec: int)
    requires Lagging(w, spec) && Runnable(w, ts) && forall t :: t in ts ==> ByReconciler(t)
    ensures Lagging(Run(w, ts), spec)
    decreases |ts|
  {
    if ts != [] {
      assert ts[0] in ts;
      LaggingStep(w, ts[0], spec);
      LaggingRun(Apply(w, ts[0]), ts[1..], spec);
    }
  }

  /**
   The reconciler can bring the config of a live resource up to date exactly when the config
   is missing, is up to date, or is not being worked on by the manager.
   */
  lemma UpdateReachable(w: World)
    requires Inv(w) && Live(w)
    ensures var spec := Current(w).value.spec;
            (exists ts :: Syncs(w, ts, spec)) <==>
            (w.config.None? || w.config.value.manifest == Some(spec) || !w.config.value.state.Scheduled?)
  {
    var spec := Current(w).value.spec;
    if w.config.None? {
      var ts := SyncsNew(w);
    } else if w.config.value.manifest == Some(spec) {
      assert Syncs(w, [], spec);
    } else if !w.config.value.state.Scheduled? {
      var ts := SyncsChanged(w);
    } else {
      forall ts | Runnable(w, ts) && (forall t :: t in ts ==> ByReconciler(t)) ensures !Syncs(w, ts, spec) {
        LaggingRun(w, ts, spec);
      }
    }
  }

  // ------------------------------------------------------------- stale reads

  /** A read as the cache would deliver it if it could go back in time. */
  function StaleGet(w: World, at: nat): World
    requires at < |w.hist| && w.hist[at].Some?
  {
    w.(pc := Fetched, copy := w.hist[at].value, version := at)
  }

  lemma {:induction false} RunAppend(w: World, a: seq<Step>, b: seq<Step>)
    requires Runnable(w, a) && Runnable(Run(w, a), b)
    ensures Runnable(w, a + b) && Run(w, a + b) == Run(Run(w, a), b)
    decreases |a|
  {
    if a == [] {
      assert a + b == b;
    } else {
      assert (a + b)[1..] == a[1..] + b;
      RunAppend(Apply(w, a[0]), a[1..], b);
    }
  }

  const LIVE: Resource := Resource(true, false, false, 0)

  /** A user creates the resource and the reconciler adds the finalizer, then stops. */
  lemma GuardRun(start: World) returns (ts: seq<Step>)
    requires Initial(start)
    ensures Runnable(start, ts)
    ensures var w := Run(start, ts);
            w.hist == [None, Some(LIVE.(finalizer := false)), Some(LIVE)] && w.seen == 1 && w.pc.Idle? && w.config.None?
  {
    var r := LIVE.(finalizer := false);
    var w1 := Apply(start, UserCreate(r));
    var w2 := Apply(w1, Get(1));
    var w3 := Apply(w2, List);
    var w4 := Apply(w3, AddFinalizer);
    Prepend(w4, Stop, []);
    Prepend(w3, AddFinalizer, [Stop] + []);
    Prepend(w2, List, [AddFinalizer] + ([Stop] + []));
    Prepend(w1, Get(1), [List] + ([AddFinalizer] + ([Stop] + [])));
    ts := [Get(1)] + ([List] + ([AddFinalizer] + ([Stop] + [])));
    Prepend(start, UserCreate(r), ts);
    ts := [UserCreate(r)] + ts;
  }

  /** The user deletes it, and the reconciler, finding no config, lets it go. */
  lemma ReleaseRun(w: World) returns (ts: seq<Step>)
    requires |w.hist| == 3 && w.hist[2] == Some(LIVE) && w.seen <= 3 && w.pc.Idle? && w.config.None?
    ensures Runnable(w, ts)
    ensures var w' := Run(w, ts);
            && |w'.hist| == 5 && w'.hist[2] == Some(LIVE) && w'.hist[4].None?
            && w'.seen == 3 && w'.pc.Idle? && w'.config.None?
  {
    var w1 := Apply(w, UserDelete);
    var w2 := Apply(w1, Get(3));
    var w3 := Apply(w2, List);
    Prepend(w3, RemoveFinalizer, []);
    Prepend(w2, List, [RemoveFinalizer] + []);
    ts := [List] + ([RemoveFinalizer] + []);
    Prepend(w1, Get(3), ts);
    ts := [Get(3)] + ts;
    Prepend(w, UserDelete, ts);
    ts := [UserDelete] + ts;
  }

  /** One read of a version older than the last one read is enough to orphan a config. */
  lemma StaleReadOrphans(start: World) returns (before: seq<Step>, at: nat, after: seq<Step>)
    requires Initial(start)
    ensures Runnable(start, before)
    ensures var w := Run(start, before);
            && at < w.seen < |w.hist| && w.hist[at].Some? && w.pc.Idle?
            && Runnable(StaleGet(w, at), after)
            && var o := Run(StaleGet(w, at), after); o.config.Some? && o.hist != [] && Current(o).None?
  {
    var a := GuardRun(start);
    var b := ReleaseRun(Run(start, a));
    RunAppend(start, a, b);
    before, at := a + b, 2;
    var s0 := StaleGet(Run(start, before), at);
    var s1 := Apply(s0, List);
    var s2 := Apply(s1, KeepFinalizer);
    Prepend(s2, CreateConfig, []);
    Prepend(s1, KeepFinalizer, [CreateConfig] + []);
    after := [List] + ([KeepFinalizer] + ([CreateConfig] + []));
    Prepend(s0, List, [KeepFinalizer] + ([CreateConfig] + []));
  }

  /** The reconciler creates the config, and the user deletes the resource. */
  lemma LeaveRun(w: World) returns (ts: seq<Step>)
    requires |w.hist| == 3 && w.hist[2] == Some(LIVE) && w.seen == 1 && w.pc.Idle? && w.config.None?
    ensures Runnable(w, ts) && Leaving(Run(w, ts)) && Run(w, ts).config == Some(Config(Some(0), Pending, map[]))
  {
    var w1 := Apply(w, Get(2));
    var w2 := Apply(w1, List);
    var w3 := Apply(w2, KeepFinalizer);
    var w4 := Apply(w3, CreateConfig);
    var w5 := Apply(w4, Stop);
    Prepend(w5, UserDelete, []);
    ts := [UserDelete] + [];
    Prepend(w4, Stop, ts);
    ts := [Stop] + ts;
    Prepend(w3, CreateConfig, ts);
    ts := [CreateConfig] + ts;
    Prepend(w2, KeepFinalizer, ts);
    ts := [KeepFinalizer] + ts;
    Prepend(w1, List, ts);
    ts := [List] + ts;
    Prepend(w, Get(2), ts);
    ts := [Get(2)] + ts;
  }

  /** A resource deleted before anything was built for it: without the manager it stays forever. */
  lemma DeletionCanWait(start: World) returns (ts: seq<Step>)
    requires Initial(start)
    ensures Runnable(start, ts) && Leaving(Run(start, ts))
    ensures forall us :: !Deletes(Run(start, ts), us)
  {
    var a := GuardRun(start);
    var b := LeaveRun(Run(start, a));
    RunAppend(start, a, b);
    ts := a + b;
    RunInv(start, ts);
    DeletionReachable(Run(start, ts));
  }
}
