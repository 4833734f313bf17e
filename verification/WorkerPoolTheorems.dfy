/** What every run of the pool guarantees: it is bounded, it cannot get stuck, it delivers every job once,
    and its tallies do not depend on the order in which jobs are collected. */
module WorkerPoolTheorems {
  import opened WorkerPool

  // ---------------------------------------------------------------- counting

  lemma {:induction false} InQueueAll(js: seq<Job>)
    ensures InQueue(js, false, All) + InQueue(js, true, All) == |js|
    decreases |js|
  {
    if js != [] {
      InQueueAll(js[..|js| - 1]);
    }
  }

  lemma {:induction false} SomeInQueue(js: seq<Job>, sentinel: bool, q: Which) returns (i: nat)
    requires InQueue(js, sentinel, q) > 0
    ensures i < |js| && js[i].sentinel == sentinel && (q.One? ==> js[i].id == q.id)
    decreases |js|
  {
    var n := |js| - 1;
    if Counts(js[n], sentinel, q) == 1 {
      i := n;
    } else {
      i := SomeInQueue(js[..n], sentinel, q);
    }
  }

  lemma {:induction false} NoneInQueue(js: seq<Job>, sentinel: bool, q: Which)
    requires forall i :: 0 <= i < |js| ==> js[i].sentinel != sentinel
    ensures InQueue(js, sentinel, q) == 0
    decreases |js|
  {
    if js != [] {
      NoneInQueue(js[..|js| - 1], sentinel, q);
    }
  }

  lemma {:induction false} SomeInHand(ws: seq<Worker>, sentinel: bool, q: Which) returns (i: nat)
    requires InHands(ws, sentinel, q) > 0
    ensures i < |ws| && InHand(ws[i], sentinel, q) > 0
    decreases |ws|
  {
    var n := |ws| - 1;
    if InHand(ws[n], sentinel, q) > 0 {
      i := n;
    } else {
      i := SomeInHand(ws[..n], sentinel, q);
    }
  }

  lemma {:induction false} HandsAtMostWorkers(ws: seq<Worker>, sentinel: bool)
    ensures InHands(ws, sentinel, All) <= |ws|
    decreases |ws|
  {
    if ws != [] {
      HandsAtMostWorkers(ws[..|ws| - 1], sentinel);
    }
  }

  /** A worker with nothing of the kind in hand leaves room for one fewer. */
  lemma {:induction false} EmptyHandLeavesRoom(ws: seq<Worker>, i: nat, sentinel: bool)
    requires i < |ws| && InHand(ws[i], sentinel, All) == 0
    ensures InHands(ws, sentinel, All) < |ws|
    decreases |ws|
  {
    var n := |ws| - 1;
    if i < n {
      EmptyHandLeavesRoom(ws[..n], i, sentinel);
    } else {
      HandsAtMostWorkers(ws[..n], sentinel);
    }
  }

  lemma {:induction false} AllExitedCount(ws: seq<Worker>)
    requires forall i :: 0 <= i < |ws| ==> ws[i].Exited? && ws[i].job.sentinel
    ensures InHands(ws, true, All) == |ws|
    ensures forall q :: InHands(ws, false, q) == 0
    decreases |ws|
  {
    if ws != [] {
      AllExitedCount(ws[..|ws| - 1]);
    }
  }

  // ---------------------------------------------------------------- no reachable state is stuck

  predicate WorkerCanMove(s: State) {
    exists w :: 0 <= w < |s.workers| && WorkerEnabled(s, s.workers[w])
  }

  lemma CollectingIsNotStuck(cfg: Config, s: State, k: nat)
    requires Inv(cfg, s) && s.main == Collecting(k) && cfg.processors >= 1
    ensures MainEnabled(cfg, s) || WorkerCanMove(s)
  {
    if k < |cfg.jobs| && s.output == [] {
      assert Balanced(cfg, s, All);
      InQueueAll(s.collected);
      if InHands(s.workers, false, All) > 0 {
        var w := SomeInHand(s.workers, false, All);
        assert WorkerOk(s, s.workers[w]);
        assert WorkerEnabled(s, s.workers[w]);
      } else {
        var i := SomeInQueue(s.input, false, All);
        assert !s.input[i].sentinel;
        assert !TookSentinel(s.workers[0]);
        assert WorkerEnabled(s, s.workers[0]);
      }
    }
  }

  lemma JoiningIsNotStuck(cfg: Config, s: State, i: nat)
    requires Inv(cfg, s) && s.main == Joining(i)
    ensures MainEnabled(cfg, s) || WorkerCanMove(s)
  {
    if i < cfg.processors && !s.workers[i].Exited? {
      if s.workers[i].Getting? {
        assert Balanced(cfg, s, All);
        EmptyHandLeavesRoom(s.workers, i, true);
        assert s.input != [];
      }
      assert WorkerEnabled(s, s.workers[i]);
    }
  }

  /** Until the pool returns, some thread can move, provided there is a worker or nothing to do. */
  lemma NoDeadlock(cfg: Config, run: seq<Action>)
    requires IsRun(cfg, Init(cfg), run)
    requires cfg.processors >= 1 || cfg.jobs == []
    ensures var s := Run(cfg, Init(cfg), run);
      s.main.Returned? || MainEnabled(cfg, s) || WorkerCanMove(s)
  {
    EveryRunKeepsInv(cfg, run);
    var s := Run(cfg, Init(cfg), run);
    match s.main
    case Collecting(k) =>
      if cfg.jobs != [] {
        CollectingIsNotStuck(cfg, s, k);
      }
    case Joining(i) => JoiningIsNotStuck(cfg, s, i);
    case _ =>
  }

  lemma NoWorkersStep(cfg: Config, s: State, a: Action)
    requires cfg.processors == 0 && s.workers == [] && s.output == [] && s.collected == [] && Enabled(cfg, s, a)
    ensures var s' := Apply(cfg, s, a); s'.workers == [] && s'.output == [] && s'.collected == []
  {
  }

  /** Without a worker nothing ever reaches the output queue. */
  lemma {:induction false} NoWorkersNoOutput(cfg: Config, run: seq<Action>)
    requires IsRun(cfg, Init(cfg), run) && cfg.processors == 0
    ensures var s := Run(cfg, Init(cfg), run); s.workers == [] && s.output == [] && s.collected == []
    decreases |run|
  {
    if run != [] {
      NoWorkersNoOutput(cfg, run[..|run| - 1]);
      NoWorkersStep(cfg, Run(cfg, Init(cfg), run[..|run| - 1]), run[|run| - 1]);
    }
  }

  /** The other half: with jobs but no worker the pool never returns. */
  lemma NoWorkersNeverReturns(cfg: Config, run: seq<Action>)
    requires IsRun(cfg, Init(cfg), run) && cfg.processors == 0 && cfg.jobs != []
    ensures !Run(cfg, Init(cfg), run).main.Returned?
  {
    EveryRunKeepsInv(cfg, run);
    NoWorkersNoOutput(cfg, run);
  }

  // ---------------------------------------------------------------- every run is bounded

  ghost function MainWeight(cfg: Config, m: Main): int {
    var n, p := |cfg.jobs|, cfg.processors;
    match m
    case Spawning(i) => (p - i) + 6 * n + 4 * p + n + p + 5
    case Dispatching(j) => 6 * (n - j) + 4 * p + n + p + 4
    case Stopping(i) => 4 * (p - i) + n + p + 3
    case Collecting(k) => (n - k) + p + 2
    case Joining(i) => (p - i) + 1
    case Returned(_) => 0
  }

  ghost function JobWeight(job: Job): nat {
    if job.sentinel then 3 else 5
  }

  ghost function InputWeight(js: seq<Job>): nat {
    if js == [] then 0 else InputWeight(js[..|js| - 1]) + JobWeight(js[|js| - 1])
  }

  ghost function WorkerWeight(w: Worker): nat {
    match w
    case Holding(job) => JobWeight(job) - 1
    case Running(_) => 3
    case Putting(_) => 2
    case _ => 0
  }

  ghost function WorkersWeight(ws: seq<Worker>): nat {
    if ws == [] then 0 else WorkersWeight(ws[..|ws| - 1]) + WorkerWeight(ws[|ws| - 1])
  }

  /** The steps that can still be taken. */
  ghost function Measure(cfg: Config, s: State): int {
    MainWeight(cfg, s.main) + InputWeight(s.input) + WorkersWeight(s.workers) + |s.output| +
    if s.threadExit then 0 else 1
  }

  lemma {:induction false} InputWeightPop(js: seq<Job>)
    requires js != []
    ensures InputWeight(js) == JobWeight(js[0]) + InputWeight(js[1..])
    decreases |js|
  {
    var n := |js| - 1;
    if n > 0 {
      InputWeightPop(js[..n]);
      assert js[..n][1..] == js[1..][..n - 1];
    }
  }

  lemma InputWeightAppend(js: seq<Job>, job: Job)
    ensures InputWeight(js + [job]) == InputWeight(js) + JobWeight(job)
  {
    assert (js + [job])[..|js|] == js;
  }

  lemma {:induction false} WorkersWeightUpdate(ws: seq<Worker>, i: nat, w: Worker)
    requires i < |ws|
    ensures WorkersWeight(ws[i := w]) == WorkersWeight(ws) - WorkerWeight(ws[i]) + WorkerWeight(w)
    decreases |ws|
  {
    var n := |ws| - 1;
    if i < n {
      WorkersWeightUpdate(ws[..n], i, w);
      assert ws[i := w][..n] == ws[..n][i := w];
    } else {
      assert ws[i := w][..n] == ws[..n];
    }
  }

  lemma SpawnDecreases(cfg: Config, s: State, i: nat)
    requires s.main == Spawning(i) && WorkersOk(cfg, s)
    ensures Measure(cfg, Spawn(cfg, s, i)) < Measure(cfg, s)
  {
    if i < cfg.processors {
      WorkersWeightUpdate(s.workers, i, Getting);
    }
  }

  lemma DispatchDecreases(cfg: Config, s: State, j: nat)
    requires s.main == Dispatching(j) && j <= |cfg.jobs|
    ensures Measure(cfg, Dispatch(cfg, s, j)) < Measure(cfg, s)
  {
    InputWeightAppend(s.input, Job(false, j, false));
  }

  lemma StopDecreases(cfg: Config, s: State, i: nat)
    requires s.main == Stopping(i) && i <= cfg.processors
    ensures Measure(cfg, Stop(cfg, s, i)) < Measure(cfg, s)
  {
    InputWeightAppend(s.input, Job(true, i, true));
  }

  lemma CollectDecreases(cfg: Config, s: State, k: nat)
    requires s.main == Collecting(k) && (k < |cfg.jobs| ==> s.output != []) && k <= |cfg.jobs|
    ensures Measure(cfg, Collect(cfg, s, k)) < Measure(cfg, s)
  {
  }

  lemma JoinDecreases(cfg: Config, s: State, i: nat)
    requires s.main == Joining(i) && i <= cfg.processors
    ensures Measure(cfg, Join(cfg, s, i)) < Measure(cfg, s)
  {
  }

  lemma MainStepDecreases(cfg: Config, s: State)
    requires Inv(cfg, s) && MainEnabled(cfg, s)
    ensures Measure(cfg, MainApply(cfg, s)) < Measure(cfg, s)
  {
    match s.main
    case Spawning(i) => SpawnDecreases(cfg, s, i);
    case Dispatching(j) => DispatchDecreases(cfg, s, j);
    case Stopping(i) => StopDecreases(cfg, s, i);
    case Collecting(k) => CollectDecreases(cfg, s, k);
    case Joining(i) => JoinDecreases(cfg, s, i);
  }

  lemma WorkerStepDecreases(cfg: Config, s: State, w: nat)
    requires Inv(cfg, s) && w < |s.workers| && WorkerEnabled(s, s.workers[w])
    ensures Measure(cfg, WorkerApply(cfg, s, w)) < Measure(cfg, s)
  {
    assert WorkerOk(s, s.workers[w]);
    WorkersWeightUpdate(s.workers, w, WorkerApply(cfg, s, w).workers[w]);
    if s.workers[w].Getting? {
      InputWeightPop(s.input);
    }
  }

  lemma MeasureIsNatural(cfg: Config, s: State)
    requires Inv(cfg, s)
    ensures Measure(cfg, s) >= 0
  {
  }

  lemma {:induction false} RunUsesMeasure(cfg: Config, run: seq<Action>)
    requires IsRun(cfg, Init(cfg), run)
    ensures |run| + Measure(cfg, Run(cfg, Init(cfg), run)) <= Measure(cfg, Init(cfg))
    decreases |run|
  {
    if run != [] {
      var front, a := run[..|run| - 1], run[|run| - 1];
      RunUsesMeasure(cfg, front);
      EveryRunKeepsInv(cfg, front);
      var s := Run(cfg, Init(cfg), front);
      match a
      case Interrupt =>
      case MainStep => MainStepDecreases(cfg, s);
      case WorkerStep(w) => WorkerStepDecreases(cfg, s, w);
    }
  }

  lemma {:induction false} IdleWorkersWeigh(ws: seq<Worker>)
    requires forall i :: 0 <= i < |ws| ==> ws[i].NotStarted?
    ensures WorkersWeight(ws) == 0
    decreases |ws|
  {
    if ws != [] {
      IdleWorkersWeigh(ws[..|ws| - 1]);
    }
  }

  /** No run, however interleaved, takes more than 7 N + 6 P + 6 steps. */
  lemma RunIsBounded(cfg: Config, run: seq<Action>)
    requires IsRun(cfg, Init(cfg), run)
    ensures |run| <= 7 * |cfg.jobs| + 6 * cfg.processors + 6
  {
    RunUsesMeasure(cfg, run);
    EveryRunKeepsInv(cfg, run);
    MeasureIsNatural(cfg, Run(cfg, Init(cfg), run));
    IdleWorkersWeigh(Init(cfg).workers);
  }

  /** Any run can be carried on until the pool returns, and by RunIsBounded only finitely long. */
  lemma {:induction false} EveryRunCanFinish(cfg: Config, run: seq<Action>) returns (full: seq<Action>)
    requires IsRun(cfg, Init(cfg), run)
    requires cfg.processors >= 1 || cfg.jobs == []
    ensures run <= full && IsRun(cfg, Init(cfg), full) && Run(cfg, Init(cfg), full).main.Returned?
    decreases 7 * |cfg.jobs| + 6 * cfg.processors + 6 - |run|
  {
    var s := Run(cfg, Init(cfg), run);
    if s.main.Returned? {
      full := run;
    } else {
      NoDeadlock(cfg, run);
      var a := MainStep;
      if !MainEnabled(cfg, s) {
        var w :| 0 <= w < |s.workers| && WorkerEnabled(s, s.workers[w]);
        a := WorkerStep(w);
      }
      var longer := run + [a];
      assert longer[..|longer| - 1] == run;
      assert IsRun(cfg, Init(cfg), longer);
      RunIsBounded(cfg, longer);
      full := EveryRunCanFinish(cfg, longer);
      assert run <= longer;
    }
  }

  // ---------------------------------------------------------------- what has happened when the pool returns

  lemma ReturnedTotals(cfg: Config, s: State)
    requires Inv(cfg, s) && s.main.Returned?
    ensures s.input == [] && s.output == []
    ensures InHands(s.workers, true, All) == cfg.processors && forall q :: InHands(s.workers, false, q) == 0
  {
    forall w | 0 <= w < |s.workers| ensures s.workers[w].Exited? && s.workers[w].job.sentinel {
      assert WorkerOk(s, s.workers[w]);
    }
    AllExitedCount(s.workers);
    assert Balanced(cfg, s, All);
    InQueueAll(s.collected);
    InQueueAll(s.output);
    InQueueAll(s.input);
    NoneInQueue(s.collected, true, All);
    NoneInQueue(s.output, true, All);
  }

  /** When the pool returns, each job was collected exactly once and nothing else was; every worker has
      exited on a sentinel, and each sentinel was used exactly once. */
  lemma EachJobDeliveredOnce(cfg: Config, run: seq<Action>)
    requires IsRun(cfg, Init(cfg), run) && Run(cfg, Init(cfg), run).main.Returned?
    ensures var s := Run(cfg, Init(cfg), run);
      && |s.collected| == |cfg.jobs|
      && (forall id: nat :: InQueue(s.collected, false, One(id)) == if id < |cfg.jobs| then 1 else 0)
      && (forall i :: 0 <= i < |s.collected| ==> !s.collected[i].sentinel)
      && s.input == [] && s.output == []
      && |s.workers| == cfg.processors
      && (forall w :: 0 <= w < |s.workers| ==> s.workers[w].Exited? && s.workers[w].job.sentinel)
      && (forall id: nat :: InHands(s.workers, true, One(id)) == if id < cfg.processors then 1 else 0)
  {
    EveryRunKeepsInv(cfg, run);
    var s := Run(cfg, Init(cfg), run);
    ReturnedTotals(cfg, s);
    forall w | 0 <= w < |s.workers| ensures s.workers[w].Exited? && s.workers[w].job.sentinel {
      assert WorkerOk(s, s.workers[w]);
    }
    forall id: nat
      ensures InQueue(s.collected, false, One(id)) == if id < |cfg.jobs| then 1 else 0
      ensures InHands(s.workers, true, One(id)) == if id < cfg.processors then 1 else 0
    {
      assert Balanced(cfg, s, One(id));
    }
  }

  // ---------------------------------------------------------------- tallies and exit status

  ghost function Interrupted(js: seq<Job>): nat {
    if js == [] then 0 else Interrupted(js[..|js| - 1]) + if js[|js| - 1].isBreak then 1 else 0
  }

  ghost predicate ValidIds(cfg: Config, js: seq<Job>) {
    forall i :: 0 <= i < |js| ==> js[i].id < |cfg.jobs|
  }

  ghost predicate Succeeded(cfg: Config, job: Job)
    requires job.id < |cfg.jobs|
  {
    !job.isBreak && (cfg.jobs[job.id].isSkip || cfg.jobs[job.id].returnCode == 0)
  }

  lemma {:induction false} TallySum(cfg: Config, js: seq<Job>)
    requires ValidIds(cfg, js)
    ensures var t := TallyOf(cfg, js);
      && t.passed + t.failed + t.valgrind + t.crashed + t.skipped + Interrupted(js) == |js|
      && |t.failedNames| == t.failed && |t.valgrindNames| == t.valgrind
      && |t.crashedNames| == t.crashed && |t.skippedNames| == t.skipped
    decreases |js|
  {
    if js != [] {
      TallySum(cfg, js[..|js| - 1]);
    }
  }

  lemma {:induction false} AllSucceededCount(cfg: Config, js: seq<Job>)
    requires ValidIds(cfg, js)
    ensures var t := TallyOf(cfg, js);
      && t.passed + t.skipped <= |js|
      && (t.passed + t.skipped == |js| <==> forall i :: 0 <= i < |js| ==> Succeeded(cfg, js[i]))
    decreases |js|
  {
    if js != [] {
      var n := |js| - 1;
      AllSucceededCount(cfg, js[..n]);
      assert forall i :: 0 <= i < n ==> js[..n][i] == js[i];
    }
  }

  lemma {:induction false} ListedCounts(js: seq<Job>, i: nat)
    requires i < |js|
    ensures InQueue(js, js[i].sentinel, One(js[i].id)) >= 1
    decreases |js|
  {
    if i < |js| - 1 {
      ListedCounts(js[..|js| - 1], i);
    }
  }

  lemma CollectedIdsValid(cfg: Config, s: State)
    requires Inv(cfg, s)
    ensures ValidIds(cfg, s.collected)
  {
    forall i | 0 <= i < |s.collected| ensures s.collected[i].id < |cfg.jobs| {
      ListedCounts(s.collected, i);
      assert Balanced(cfg, s, One(s.collected[i].id));
    }
  }

  /** When the pool returns, every test is counted once, as one of the five results or as interrupted,
      and the exit status is 0 exactly when every collected job was skipped or exited 0, uninterrupted. */
  lemma TalliesAndStatus(cfg: Config, run: seq<Action>)
    requires IsRun(cfg, Init(cfg), run) && Run(cfg, Init(cfg), run).main.Returned?
    ensures var s := Run(cfg, Init(cfg), run); var t := s.tally;
      && t.passed + t.failed + t.valgrind + t.crashed + t.skipped + Interrupted(s.collected) == |cfg.jobs|
      && ValidIds(cfg, s.collected)
      && s.main.status in {0, 1}
      && (s.main.status == 0 <==> forall i :: 0 <= i < |s.collected| ==> Succeeded(cfg, s.collected[i]))
  {
    EveryRunKeepsInv(cfg, run);
    var s := Run(cfg, Init(cfg), run);
    CollectedIdsValid(cfg, s);
    TallySum(cfg, s.collected);
    AllSucceededCount(cfg, s.collected);
  }

  /** The same counts, and the same names under each heading, in whatever order. */
  ghost predicate SameTally(t: Tally, u: Tally) {
    && t.passed == u.passed && t.failed == u.failed && t.valgrind == u.valgrind
    && t.crashed == u.crashed && t.skipped == u.skipped
    && multiset(t.failedNames) == multiset(u.failedNames)
    && multiset(t.valgrindNames) == multiset(u.valgrindNames)
    && multiset(t.crashedNames) == multiset(u.crashedNames)
    && multiset(t.skippedNames) == multiset(u.skippedNames)
  }

  datatype NameQuery = AnyName | Named(name: string)

  ghost function Matches(cfg: Config, job: Job, v: Verdict, q: NameQuery): nat {
    if job.id < |cfg.jobs| && VerdictOf(cfg, job) == v && (q == AnyName || q == Named(cfg.jobs[job.id].displayName))
    then 1 else 0
  }

  /** How many collected jobs have this verdict (and this name). */
  ghost function HowMany(cfg: Config, js: seq<Job>, v: Verdict, q: NameQuery): nat {
    if js == [] then 0 else HowMany(cfg, js[..|js| - 1], v, q) + Matches(cfg, js[|js| - 1], v, q)
  }

  lemma {:induction false} CountsAreHowMany(cfg: Config, js: seq<Job>)
    ensures var t := TallyOf(cfg, js);
      && t.passed == HowMany(cfg, js, Pass, AnyName) && t.failed == HowMany(cfg, js, Fail, AnyName)
      && t.valgrind == HowMany(cfg, js, Valgr, AnyName) && t.crashed == HowMany(cfg, js, Crash, AnyName)
      && t.skipped == HowMany(cfg, js, Skip, AnyName)
    decreases |js|
  {
    if js != [] {
      CountsAreHowMany(cfg, js[..|js| - 1]);
    }
  }

  function NamesUnder(t: Tally, v: Verdict): seq<string> {
    match v
    case Fail => t.failedNames
    case Valgr => t.valgrindNames
    case Crash => t.crashedNames
    case Skip => t.skippedNames
    case _ => []
  }

  lemma {:induction false} NamesAreHowMany(cfg: Config, js: seq<Job>, v: Verdict, name: string)
    requires v != Pass && v != Break
    ensures multiset(NamesUnder(TallyOf(cfg, js), v))[name] == HowMany(cfg, js, v, Named(name))
    decreases |js|
  {
    if js != [] {
      NamesAreHowMany(cfg, js[..|js| - 1], v, name);
    }
  }

  lemma HowManyAppend(cfg: Config, js: seq<Job>, job: Job, v: Verdict, q: NameQuery)
    ensures HowMany(cfg, js + [job], v, q) == HowMany(cfg, js, v, q) + Matches(cfg, job, v, q)
  {
    assert (js + [job])[..|js|] == js;
  }

  lemma WithoutBeforeLast(js: seq<Job>, j: nat)
    requires j < |js| - 1
    ensures js[..|js| - 1] + [js[|js| - 1]] == js
    ensures js[..j] + js[j + 1..] == js[..|js| - 1][..j] + js[..|js| - 1][j + 1..] + [js[|js| - 1]]
  {
  }

  /** A job may as well have been collected last. */
  lemma {:induction false} HowManyMoveLast(cfg: Config, js: seq<Job>, j: nat, v: Verdict, q: NameQuery)
    requires j < |js|
    ensures HowMany(cfg, js, v, q) == HowMany(cfg, js[..j] + js[j + 1..], v, q) + Matches(cfg, js[j], v, q)
    decreases |js|
  {
    var n := |js| - 1;
    var front := js[..n];
    if j == n {
      assert js[..j] + js[j + 1..] == front;
    } else {
      WithoutBeforeLast(js, j);
      HowManyMoveLast(cfg, front, j, v, q);
      HowManyAppend(cfg, front, js[n], v, q);
      HowManyAppend(cfg, front[..j] + front[j + 1..], js[n], v, q);
    }
  }

  lemma MultisetWithout(b: seq<Job>, j: nat)
    requires j < |b|
    ensures multiset(b) == multiset(b[..j] + b[j + 1..]) + multiset{b[j]}
  {
    assert b == b[..j] + [b[j]] + b[j + 1..];
  }

  lemma RemoveFromBoth(a: seq<Job>, b: seq<Job>, j: nat)
    requires a != [] && multiset(a) == multiset(b) && j < |b| && b[j] == a[|a| - 1]
    ensures multiset(a[..|a| - 1]) == multiset(b[..j] + b[j + 1..])
  {
    var n := |a| - 1;
    MultisetWithout(a, n);
    MultisetWithout(b, j);
    assert a[..n] + a[n + 1..] == a[..n];
    var x, y, c := multiset(a[..n]), multiset(b[..j] + b[j + 1..]), multiset{b[j]};
    assert (x + c) - c == x && (y + c) - c == y;
  }

  lemma {:induction false} HowManyIgnoresOrder(cfg: Config, a: seq<Job>, b: seq<Job>, v: Verdict, q: NameQuery)
    requires multiset(a) == multiset(b)
    ensures HowMany(cfg, a, v, q) == HowMany(cfg, b, v, q)
    decreases |a|
  {
    assert |a| == |multiset(a)| == |multiset(b)| == |b|;
    if a != [] {
      var n := |a| - 1;
      assert a[n] in multiset(b);
      var j :| 0 <= j < |b| && b[j] == a[n];
      RemoveFromBoth(a, b, j);
      HowManyIgnoresOrder(cfg, a[..n], b[..j] + b[j + 1..], v, q);
      HowManyMoveLast(cfg, b, j, v, q);
    }
  }

  lemma NamesIgnoreOrder(cfg: Config, a: seq<Job>, b: seq<Job>, v: Verdict)
    requires multiset(a) == multiset(b) && v != Pass && v != Break
    ensures multiset(NamesUnder(TallyOf(cfg, a), v)) == multiset(NamesUnder(TallyOf(cfg, b), v))
  {
    forall name: string
      ensures multiset(NamesUnder(TallyOf(cfg, a), v))[name] == multiset(NamesUnder(TallyOf(cfg, b), v))[name]
    {
      NamesAreHowMany(cfg, a, v, name);
      NamesAreHowMany(cfg, b, v, name);
      HowManyIgnoresOrder(cfg, a, b, v, Named(name));
    }
  }

  lemma TallyIgnoresOrder(cfg: Config, a: seq<Job>, b: seq<Job>)
    requires multiset(a) == multiset(b)
    ensures SameTally(TallyOf(cfg, a), TallyOf(cfg, b))
  {
    forall v { HowManyIgnoresOrder(cfg, a, b, v, AnyName); }
    CountsAreHowMany(cfg, a);
    CountsAreHowMany(cfg, b);
    NamesIgnoreOrder(cfg, a, b, Fail);
    NamesIgnoreOrder(cfg, a, b, Valgr);
    NamesIgnoreOrder(cfg, a, b, Crash);
    NamesIgnoreOrder(cfg, a, b, Skip);
  }
}
