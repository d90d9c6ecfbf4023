/**
 The pool of pinging goroutines as a transition system: a feeder sends the items over an
 unbuffered channel, workers ping them and report failures over a second unbuffered
 channel, a closer closes that channel once every worker returned, and a collector drains
 it.  Items are positions in the list of addresses, so two equal addresses may get
 different answers; `fails` is the answer of each ping.
 */
module PingPool {
  import opened Sequences

  datatype Worker = Waiting | Pinging(item: nat) | Reporting(item: nat) | Exited

  datatype State = State(
    next: nat,               // first item the feeder has not handed over
    tasksClosed: bool,
    workers: seq<Worker>,
    errClosed: bool,
    collected: seq<nat>,     // failures received by the collector
    passed: seq<nat>,        // items whose ping succeeded
    done: bool)              // the collector left its loop

  datatype Step =
    | Feed(w: nat)
    | Answer(w: nat)
    | Report(w: nat)
    | CloseTasks
    | Exit(w: nat)
    | CloseErr
    | Finish

  /** The number of items and what each ping will answer. */
  datatype Job = Job(n: nat, fails: nat -> bool)

  function Init(workers: nat): State
  {
    State(0, false, seq(workers, _ => Waiting), false, [], [], false)
  }

  predicate Enabled(j: Job, s: State, t: Step)
  {
    match t
    case Feed(w) => w < |s.workers| && s.workers[w].Waiting? && s.next < j.n && !s.tasksClosed
    case Answer(w) => w < |s.workers| && s.workers[w].Pinging?
    case Report(w) => w < |s.workers| && s.workers[w].Reporting? && !s.done && !s.errClosed
    case CloseTasks => s.next >= j.n && !s.tasksClosed
    case Exit(w) => w < |s.workers| && s.workers[w].Waiting? && s.tasksClosed
    case CloseErr => !s.errClosed && forall w :: 0 <= w < |s.workers| ==> s.workers[w].Exited?
    case Finish => s.errClosed && !s.done
  }

  function Apply(j: Job, s: State, t: Step): State
    requires Enabled(j, s, t)
  {
    match t
    case Feed(w) => s.(next := s.next + 1, workers := s.workers[w := Pinging(s.next)])
    case Answer(w) =>
      var i := s.workers[w].item;
      if j.fails(i) then s.(workers := s.workers[w := Reporting(i)])
      else s.(workers := s.workers[w := Waiting], passed := s.passed + [i])
    case Report(w) => s.(workers := s.workers[w := Waiting], collected := s.collected + [s.workers[w].item])
    case CloseTasks => s.(tasksClosed := true)
    case Exit(w) => s.(workers := s.workers[w := Exited])
    case CloseErr => s.(errClosed := true)
    case Finish => s.(done := true)
  }

  /** A goroutine is about to send on a closed channel. */
  predicate Panics(j: Job, s: State)
  {
    || (s.errClosed && exists w :: 0 <= w < |s.workers| && s.workers[w].Reporting?)
    || (s.tasksClosed && s.next < j.n)
  }

  // ----------------------------------------------------------- accounting

  function Range(n: nat): (r: seq<nat>)
    ensures |r| == n && forall i :: 0 <= i < n ==> r[i] == i
  {
    seq(n, i => i)
  }

  function HeldBy(w: Worker): multiset<nat>
  {
    match w
    case Pinging(i) => multiset{i}
    case Reporting(i) => multiset{i}
    case _ => multiset{}
  }

  /** The items in the hands of the workers. */
  function Held(ws: seq<Worker>): multiset<nat>
  {
    if ws == [] then multiset{} else HeldBy(ws[0]) + Held(ws[1..])
  }

  lemma SwapItems(first: multiset<nat>, h: multiset<nat>, h': multiset<nat>, a: multiset<nat>, b: multiset<nat>)
    requires h' + a == h + b
    ensures first + h' + a == first + h + b
  {
    assert first + h' + a == first + (h' + a);
  }

  lemma {:induction false} HeldUpdate(ws: seq<Worker>, w: nat, x: Worker)
    requires w < |ws|
    ensures Held(ws[w := x]) + HeldBy(ws[w]) == Held(ws) + HeldBy(x)
  {
    var ws' := ws[w := x];
    if w == 0 {
      assert ws'[1..] == ws[1..];
    } else {
      assert ws'[1..] == ws[1..][w - 1 := x];
      HeldUpdate(ws[1..], w - 1, x);
      SwapItems(HeldBy(ws[0]), Held(ws[1..]), Held(ws'[1..]), HeldBy(ws[w]), HeldBy(x));
    }
  }

  lemma {:induction false} HeldNothing(ws: seq<Worker>)
    requires forall w :: 0 <= w < |ws| ==> HeldBy(ws[w]) == multiset{}
    ensures Held(ws) == multiset{}
  {
    if ws != [] {
      HeldNothing(ws[1..]);
    }
  }

  function Settled(s: State): multiset<nat>
  {
    multiset(s.collected) + multiset(s.passed)
  }

  /** Every item handed out is with a worker, passed or collected, exactly once. */
  ghost predicate Accounted(s: State)
  {
    Held(s.workers) + Settled(s) == multiset(Range(s.next))
  }

  /** Answers are filed on the right side. */
  ghost predicate Classified(j: Job, s: State)
  {
    && (forall w :: 0 <= w < |s.workers| && s.workers[w].Reporting? ==> j.fails(s.workers[w].item))
    && (forall i :: i in s.collected ==> j.fails(i))
    && (forall i :: i in s.passed ==> !j.fails(i))
  }

  ghost predicate Ordered(j: Job, s: State)
  {
    && |s.workers| >= 1
    && s.next <= j.n
    && (s.tasksClosed ==> s.next == j.n)
    && (forall w :: 0 <= w < |s.workers| && s.workers[w].Exited? ==> s.tasksClosed)
    && (s.errClosed ==> forall w :: 0 <= w < |s.workers| ==> s.workers[w].Exited?)
    && (s.done ==> s.errClosed)
  }

  ghost predicate Inv(j: Job, s: State)
  {
    Accounted(s) && Classified(j, s) && Ordered(j, s)
  }

  lemma InitInv(j: Job, workers: nat)
    requires workers >= 1
    ensures Inv(j, Init(workers))
  {
    HeldNothing(Init(workers).workers);
    assert Range(0) == [];
  }

  lemma SameItem(h: multiset<nat>, h': multiset<nat>, x: multiset<nat>)
    requires h' + x == h + x
    ensures h' == h
  {
    forall i: nat ensures h'[i] == h[i] {
      assert (h' + x)[i] == (h + x)[i];
    }
  }

  lemma TakeItem(h: multiset<nat>, h': multiset<nat>, i: nat, rest: multiset<nat>, all: multiset<nat>)
    requires h' == h + multiset{i} && h + rest == all
    ensures h' + rest == all + multiset{i}
  {
  }

  lemma DropItem(h: multiset<nat>, h': multiset<nat>, i: nat, rest: multiset<nat>, all: multiset<nat>)
    requires h' + multiset{i} == h && h + rest == all
    ensures h' + (rest + multiset{i}) == all
  {
  }

  lemma AccountedFeed(j: Job, s: State, w: nat)
    requires Accounted(s) && Enabled(j, s, Feed(w))
    ensures Accounted(Apply(j, s, Feed(w)))
  {
    var s' := Apply(j, s, Feed(w));
    HeldUpdate(s.workers, w, Pinging(s.next));
    TakeItem(Held(s.workers), Held(s'.workers), s.next, Settled(s), multiset(Range(s.next)));
    assert Range(s.next + 1) == Range(s.next) + [s.next];
  }

  /** A worker hands item `i` over to the settled ones. */
  lemma AccountedDrop(s: State, s': State, w: nat, i: nat)
    requires Accounted(s) && w < |s.workers| && HeldBy(s.workers[w]) == multiset{i}
    requires s'.workers == s.workers[w := Waiting] && s'.next == s.next
    requires Settled(s') == Settled(s) + multiset{i}
    ensures Accounted(s')
  {
    HeldUpdate(s.workers, w, Waiting);
    assert Held(s'.workers) + multiset{i} == Held(s.workers);
    DropItem(Held(s.workers), Held(s'.workers), i, Settled(s), multiset(Range(s.next)));
  }

  lemma AccountedKeep(s: State, w: nat, x: Worker)
    requires Accounted(s) && w < |s.workers| && HeldBy(s.workers[w]) == HeldBy(x)
    ensures Accounted(s.(workers := s.workers[w := x]))
  {
    HeldUpdate(s.workers, w, x);
    SameItem(Held(s.workers), Held(s.workers[w := x]), HeldBy(x));
  }

  lemma AccountedAnswer(j: Job, s: State, w: nat)
    requires Accounted(s) && Enabled(j, s, Answer(w))
    ensures Accounted(Apply(j, s, Answer(w)))
  {
    var i := s.workers[w].item;
    if j.fails(i) {
      AccountedKeep(s, w, Reporting(i));
    } else {
      AccountedDrop(s, Apply(j, s, Answer(w)), w, i);
    }
  }

  lemma AccountedReport(j: Job, s: State, w: nat)
    requires Accounted(s) && Enabled(j, s, Report(w))
    ensures Accounted(Apply(j, s, Report(w)))
  {
    AccountedDrop(s, Apply(j, s, Report(w)), w, s.workers[w].item);
  }

  lemma AccountedStep(j: Job, s: State, t: Step)
    requires Accounted(s) && Enabled(j, s, t)
    ensures Accounted(Apply(j, s, t))
  {
    match t
    case Feed(w) => AccountedFeed(j, s, w);
    case Answer(w) => AccountedAnswer(j, s, w);
    case Report(w) => AccountedReport(j, s, w);
    case Exit(w) => AccountedKeep(s, w, Exited);
    case _ =>
  }

  lemma ClassifiedStep(j: Job, s: State, t: Step)
    requires Classified(j, s) && Enabled(j, s, t)
    ensures Classified(j, Apply(j, s, t))
  {
  }

  lemma OrderedStep(j: Job, s: State, t: Step)
    requires Ordered(j, s) && Enabled(j, s, t)
    ensures Ordered(j, Apply(j, s, t))
  {
  }

  lemma InvStep(j: Job, s: State, t: Step)
    requires Inv(j, s) && Enabled(j, s, t)
    ensures Inv(j, Apply(j, s, t))
  {
    AccountedStep(j, s, t);
    ClassifiedStep(j, s, t);
    OrderedStep(j, s, t);
  }

  // ------------------------------------------------------------------ runs

  predicate Runnable(j: Job, s: State, ts: seq<Step>)
    decreases |ts|
  {
    ts == [] || (Enabled(j, s, ts[0]) && Runnable(j, Apply(j, s, ts[0]), ts[1..]))
  }

  function Run(j: Job, s: State, ts: seq<Step>): State
    requires Runnable(j, s, ts)
    decreases |ts|
  {
    if ts == [] then s else Run(j, Apply(j, s, ts[0]), ts[1..])
  }

  /** In every interleaving: all work is accounted for and no goroutine sends on a closed channel. */
  lemma {:induction false} RunSafe(j: Job, s: State, ts: seq<Step>)
    requires Inv(j, s) && Runnable(j, s, ts)
    ensures Inv(j, Run(j, s, ts)) && !Panics(j, Run(j, s, ts))
    decreases |ts|
  {
    if ts != [] {
      InvStep(j, s, ts[0]);
      RunSafe(j, Apply(j, s, ts[0]), ts[1..]);
    }
  }

  /** A state that is not final always has an enabled step. */
  lemma NoDeadlock(j: Job, s: State)
    requires Inv(j, s) && !s.done
    ensures exists t :: Enabled(j, s, t)
  {
    if w :| 0 <= w < |s.workers| && s.workers[w].Pinging? {
      assert Enabled(j, s, Answer(w));
    } else if w :| 0 <= w < |s.workers| && s.workers[w].Reporting? {
      assert Enabled(j, s, Report(w));
    } else if s.next < j.n {
      assert Enabled(j, s, Feed(0));
    } else if !s.tasksClosed {
      assert Enabled(j, s, CloseTasks);
    } else if w :| 0 <= w < |s.workers| && s.workers[w].Waiting? {
      assert Enabled(j, s, Exit(w));
    } else if !s.errClosed {
      assert Enabled(j, s, CloseErr);
    } else {
      assert Enabled(j, s, Finish);
    }
  }

  function Weight(w: Worker): nat
  {
    match w
    case Waiting => 1
    case Pinging(_) => 4
    case Reporting(_) => 3
    case Exited => 0
  }

  function Weights(ws: seq<Worker>): nat
  {
    if ws == [] then 0 else Weight(ws[0]) + Weights(ws[1..])
  }

  lemma {:induction false} WeightsUpdate(ws: seq<Worker>, w: nat, x: Worker)
    requires w < |ws|
    ensures Weights(ws[w := x]) + Weight(ws[w]) == Weights(ws) + Weight(x)
  {
    if w > 0 {
      assert ws[w := x][1..] == ws[1..][w - 1 := x];
      WeightsUpdate(ws[1..], w - 1, x);
    }
  }

  lemma {:induction false} WeightsInit(ws: seq<Worker>)
    requires forall w :: 0 <= w < |ws| ==> ws[w] == Waiting
    ensures Weights(ws) == |ws|
  {
    if ws != [] {
      WeightsInit(ws[1..]);
    }
  }

  /** An upper bound on the number of steps still to come. */
  function Measure(j: Job, s: State): nat
  {
    4 * (if s.next < j.n then j.n - s.next else 0) + Weights(s.workers)
    + (if s.tasksClosed then 0 else 1) + (if s.errClosed then 0 else 1) + (if s.done then 0 else 1)
  }

  lemma StepDecreases(j: Job, s: State, t: Step)
    requires Enabled(j, s, t)
    ensures Measure(j, Apply(j, s, t)) < Measure(j, s)
  {
    match t
    case Feed(w) => WeightsUpdate(s.workers, w, Pinging(s.next));
    case Answer(w) =>
      WeightsUpdate(s.workers, w, if j.fails(s.workers[w].item) then Reporting(s.workers[w].item) else Waiting);
    case Report(w) => WeightsUpdate(s.workers, w, Waiting);
    case Exit(w) => WeightsUpdate(s.workers, w, Exited);
    case _ =>
  }

  lemma {:induction false} RunBound(j: Job, s: State, ts: seq<Step>)
    requires Runnable(j, s, ts)
    ensures |ts| + Measure(j, Run(j, s, ts)) <= Measure(j, s)
    decreases |ts|
  {
    if ts != [] {
      StepDecreases(j, s, ts[0]);
      RunBound(j, Apply(j, s, ts[0]), ts[1..]);
    }
  }

  /** Every run is at most this long, and one that cannot go on has finished. */
  lemma AlwaysFinishes(j: Job, workers: nat, ts: seq<Step>)
    requires workers >= 1 && Runnable(j, Init(workers), ts)
    ensures |ts| <= 4 * j.n + workers + 3
    ensures (forall t :: !Enabled(j, Run(j, Init(workers), ts), t)) ==> Run(j, Init(workers), ts).done
  {
    WeightsInit(Init(workers).workers);
    RunBound(j, Init(workers), ts);
    InitInv(j, workers);
    RunSafe(j, Init(workers), ts);
    if !Run(j, Init(workers), ts).done {
      NoDeadlock(j, Run(j, Init(workers), ts));
    }
  }

  // ---------------------------------------------------------------- result

  /** What a call may return: with no worker it gives up, otherwise it waits for the collector. */
  ghost predicate Returns(j: Job, workers: int, r: seq<nat>)
  {
    if workers < 1 then r == []
    else exists ts :: Runnable(j, Init(workers), ts) && Run(j, Init(workers), ts).done
                      && r == Run(j, Init(workers), ts).collected
  }

  lemma {:induction false} SplitByAnswer(j: Job, failing: multiset<nat>, passing: multiset<nat>, all: seq<nat>)
    requires failing + passing == multiset(all)
    requires forall i :: i in failing ==> j.fails(i)
    requires forall i :: i in passing ==> !j.fails(i)
    ensures failing == multiset(Filter(all, j.fails))
  {
    FilterPartition(all, j.fails, i => !j.fails(i));
    var f, p := multiset(Filter(all, j.fails)), multiset(Filter(all, i => !j.fails(i)));
    forall i: nat ensures failing[i] == f[i] {
      FilterMember(all, j.fails, i);
      FilterMember(all, i => !j.fails(i), i);
      assert (failing + passing)[i] == (f + p)[i];
    }
  }

  lemma AllSettled(j: Job, s: State)
    requires Inv(j, s) && s.done
    ensures Settled(s) == multiset(Range(j.n))
  {
    HeldNothing(s.workers);
    assert multiset{} + Settled(s) == Settled(s);
  }

  lemma FinalResult(j: Job, s: State)
    requires Classified(j, s) && Settled(s) == multiset(Range(j.n))
    ensures multiset(s.collected) == multiset(Filter(Range(j.n), j.fails))
  {
    SplitByAnswer(j, multiset(s.collected), multiset(s.passed), Range(j.n));
  }

  /** The result is exactly the failing items, in any order, unless failures met an empty pool. */
  lemma ReturnsFailures(j: Job, workers: int, r: seq<nat>)
    requires Returns(j, workers, r)
    ensures multiset(r) == multiset(Filter(Range(j.n), j.fails)) <==>
            (workers >= 1 || forall i: nat :: i < j.n ==> !j.fails(i))
  {
    if workers >= 1 {
      var ts :| Runnable(j, Init(workers), ts) && Run(j, Init(workers), ts).done
                && r == Run(j, Init(workers), ts).collected;
      InitInv(j, workers);
      RunSafe(j, Init(workers), ts);
      AllSettled(j, Run(j, Init(workers), ts));
      FinalResult(j, Run(j, Init(workers), ts));
    } else {
      var f := Filter(Range(j.n), j.fails);
      if forall i: nat :: i < j.n ==> !j.fails(i) {
        FilterNone(Range(j.n), j.fails);
      } else {
        var i: nat :| i < j.n && j.fails(i);
        assert Range(j.n)[i] == i;
        FilterMember(Range(j.n), j.fails, i);
        assert i in multiset(f);
      }
    }
  }

  /** Without a worker a failing address is not reported. */
  lemma FailureUnreported() returns (j: Job, r: seq<nat>)
    ensures Returns(j, 0, r) && multiset(r) != multiset(Filter(Range(j.n), j.fails))
  {
    j, r := Job(1, i => true), [];
    ReturnsFailures(j, 0, r);
  }

  /** From every state that can come up, some run leads to the end. */
  lemma CanFinish(j: Job, s: State) returns (ts: seq<Step>)
    requires Inv(j, s)
    ensures Runnable(j, s, ts) && Run(j, s, ts).done
    decreases Measure(j, s)
  {
    if s.done {
      ts := [];
    } else {
      NoDeadlock(j, s);
      var t :| Enabled(j, s, t);
      InvStep(j, s, t);
      StepDecreases(j, s, t);
      var rest := CanFinish(j, Apply(j, s, t));
      ts := [t] + rest;
      assert ts[1..] == rest;
    }
  }

  /** So a call always has something to return. */
  lemma SomethingReturned(j: Job, workers: int) returns (r: seq<nat>)
    ensures Returns(j, workers, r)
  {
    if workers < 1 {
      r := [];
    } else {
      InitInv(j, workers);
      var ts := CanFinish(j, Init(workers));
      r := Run(j, Init(workers), ts).collected;
    }
  }
}
