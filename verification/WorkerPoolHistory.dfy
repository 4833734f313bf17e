/** What happens over a whole run of the pool: how often the command of each job is started, and in which order the
    two queues are served. */
module WorkerPoolHistory {
  import opened WorkerPool
  import opened WorkerPoolOutcomes
  import opened WorkerPoolTheorems

  // ---------------------------------------------------------------- starting commands

  /** In this step a worker begins to run the job. */
  ghost predicate Enters(s: State, s': State, a: Action, id: nat) {
    && a.WorkerStep? && a.w < |s.workers| && a.w < |s'.workers|
    && !s.workers[a.w].Running? && s'.workers[a.w] == Running(Job(false, id, false))
  }

  /** How often the command of a job is started in the course of a run. */
  ghost function Starts(cfg: Config, run: seq<Action>, id: nat): nat
    requires IsRun(cfg, Init(cfg), run)
  {
    if run == [] then 0 else
      var front := run[..|run| - 1];
      Starts(cfg, front, id) +
      if Enters(Run(cfg, Init(cfg), front), Run(cfg, Init(cfg), run), run[|run| - 1], id) then 1 else 0
  }

  predicate ToSkip(cfg: Config, id: nat) {
    id < |cfg.jobs| && cfg.jobs[id].isSkip
  }

  /** The job comes back neither marked nor skipped. */
  ghost function Done(cfg: Config, job: Job, id: nat): nat {
    if !job.sentinel && !job.isBreak && job.id == id && !ToSkip(cfg, id) then 1 else 0
  }

  ghost function DoneIn(cfg: Config, js: seq<Job>, id: nat): nat {
    if js == [] then 0 else DoneIn(cfg, js[..|js| - 1], id) + Done(cfg, js[|js| - 1], id)
  }

  ghost function DoneBy(cfg: Config, w: Worker, id: nat): nat {
    if w.Running? || w.Putting? then Done(cfg, w.job, id) else 0
  }

  ghost function DoneByAll(cfg: Config, ws: seq<Worker>, id: nat): nat {
    if ws == [] then 0 else DoneByAll(cfg, ws[..|ws| - 1], id) + DoneBy(cfg, ws[|ws| - 1], id)
  }

  /** How many unmarked jobs with that id, not to be skipped, are being run or have left the worker's hands. */
  ghost function Ran(cfg: Config, s: State, id: nat): nat {
    DoneByAll(cfg, s.workers, id) + DoneIn(cfg, s.output, id) + DoneIn(cfg, s.collected, id)
  }

  lemma DoneAppend(cfg: Config, js: seq<Job>, job: Job, id: nat)
    ensures DoneIn(cfg, js + [job], id) == DoneIn(cfg, js, id) + Done(cfg, job, id)
  {
    assert (js + [job])[..|js|] == js;
  }

  lemma {:induction false} DonePop(cfg: Config, js: seq<Job>, id: nat)
    requires js != []
    ensures DoneIn(cfg, js, id) == Done(cfg, js[0], id) + DoneIn(cfg, js[1..], id)
    decreases |js|
  {
    var n := |js| - 1;
    if n > 0 {
      DonePop(cfg, js[..n], id);
      assert js[..n][1..] == js[1..][..n - 1];
    }
  }

  lemma {:induction false} DoneUpdate(cfg: Config, ws: seq<Worker>, i: nat, w: Worker, id: nat)
    requires i < |ws|
    ensures DoneByAll(cfg, ws[i := w], id) == DoneByAll(cfg, ws, id) - DoneBy(cfg, ws[i], id) + DoneBy(cfg, w, id)
    decreases |ws|
  {
    var n := |ws| - 1;
    if i < n {
      DoneUpdate(cfg, ws[..n], i, w, id);
      assert ws[i := w][..n] == ws[..n][i := w];
    } else {
      assert ws[i := w][..n] == ws[..n];
    }
  }

  lemma {:induction false} NoneDoneYet(cfg: Config, ws: seq<Worker>, id: nat)
    requires forall i :: 0 <= i < |ws| ==> !ws[i].Running? && !ws[i].Putting?
    ensures DoneByAll(cfg, ws, id) == 0
    decreases |ws|
  {
    if ws != [] {
      NoneDoneYet(cfg, ws[..|ws| - 1], id);
    }
  }

  // ---------------------------------------------------------------- each step accounts for its starts

  lemma MainStartsNothing(cfg: Config, s: State, id: nat)
    requires Inv(cfg, s) && MainEnabled(cfg, s)
    ensures Ran(cfg, MainApply(cfg, s), id) == Ran(cfg, s, id)
  {
    match s.main
    case Spawning(i) =>
      if i < cfg.processors {
        DoneUpdate(cfg, s.workers, i, Getting, id);
      }
    case Collecting(k) =>
      if k < |cfg.jobs| {
        DonePop(cfg, s.output, id);
        DoneAppend(cfg, s.collected, s.output[0], id);
      }
    case _ =>
  }

  lemma WorkerAccounts(cfg: Config, s: State, w: nat, id: nat)
    requires w < |s.workers| && WorkerEnabled(s, s.workers[w]) && WorkerOk(s, s.workers[w])
    requires RunsNoSkipped(cfg, s.workers)
    ensures var s' := WorkerApply(cfg, s, w);
      Ran(cfg, s', id) == Ran(cfg, s, id) + if Enters(s, s', WorkerStep(w), id) then 1 else 0
  {
    var s' := WorkerApply(cfg, s, w);
    DoneUpdate(cfg, s.workers, w, s'.workers[w], id);
    if s.workers[w].Putting? {
      DoneAppend(cfg, s.output, s.workers[w].job, id);
    }
  }

  lemma {:induction false} StartsAreRan(cfg: Config, run: seq<Action>, id: nat)
    requires IsRun(cfg, Init(cfg), run)
    ensures Starts(cfg, run, id) == Ran(cfg, Run(cfg, Init(cfg), run), id)
    decreases |run|
  {
    if run == [] {
      NoneDoneYet(cfg, Init(cfg).workers, id);
    } else {
      var front, a := run[..|run| - 1], run[|run| - 1];
      var s := Run(cfg, Init(cfg), front);
      StartsAreRan(cfg, front, id);
      EveryRunKeepsInv(cfg, front);
      SkippedNeverRuns(cfg, front);
      match a
      case MainStep => MainStartsNothing(cfg, s, id);
      case WorkerStep(w) => WorkerAccounts(cfg, s, w, id);
      case Interrupt =>
    }
  }

  // ---------------------------------------------------------------- at most once, and exactly when it counts

  lemma {:induction false} DoneAtMostHeld(cfg: Config, ws: seq<Worker>, id: nat)
    ensures DoneByAll(cfg, ws, id) <= InHands(ws, false, One(id))
    decreases |ws|
  {
    if ws != [] {
      DoneAtMostHeld(cfg, ws[..|ws| - 1], id);
    }
  }

  lemma {:induction false} DoneAtMostQueued(cfg: Config, js: seq<Job>, id: nat)
    ensures DoneIn(cfg, js, id) <= InQueue(js, false, One(id))
    decreases |js|
  {
    if js != [] {
      DoneAtMostQueued(cfg, js[..|js| - 1], id);
    }
  }

  /** No command is started twice, and none without its job having been enqueued. */
  lemma StartsAtMostOnce(cfg: Config, run: seq<Action>, id: nat)
    requires IsRun(cfg, Init(cfg), run)
    ensures Starts(cfg, run, id) <= 1
    ensures id >= |cfg.jobs| || ToSkip(cfg, id) ==> Starts(cfg, run, id) == 0
  {
    var s := Run(cfg, Init(cfg), run);
    StartsAreRan(cfg, run, id);
    EveryRunKeepsInv(cfg, run);
    assert Balanced(cfg, s, One(id));
    DoneAtMostHeld(cfg, s.workers, id);
    DoneAtMostQueued(cfg, s.output, id);
    DoneAtMostQueued(cfg, s.collected, id);
    if ToSkip(cfg, id) {
      NothingToSkipDone(cfg, s, id);
    }
  }

  lemma {:induction false} SkippedNotIn(cfg: Config, js: seq<Job>, id: nat)
    requires ToSkip(cfg, id)
    ensures DoneIn(cfg, js, id) == 0
    decreases |js|
  {
    if js != [] {
      SkippedNotIn(cfg, js[..|js| - 1], id);
    }
  }

  lemma {:induction false} SkippedNotBy(cfg: Config, ws: seq<Worker>, id: nat)
    requires ToSkip(cfg, id)
    ensures DoneByAll(cfg, ws, id) == 0
    decreases |ws|
  {
    if ws != [] {
      SkippedNotBy(cfg, ws[..|ws| - 1], id);
    }
  }

  lemma NothingToSkipDone(cfg: Config, s: State, id: nat)
    requires ToSkip(cfg, id)
    ensures Ran(cfg, s, id) == 0
  {
    SkippedNotBy(cfg, s.workers, id);
    SkippedNotIn(cfg, s.output, id);
    SkippedNotIn(cfg, s.collected, id);
  }

  lemma {:induction false} DoneAlone(cfg: Config, js: seq<Job>, i: nat)
    requires i < |js| && !js[i].sentinel
    ensures Done(cfg, js[i], js[i].id) <= DoneIn(cfg, js, js[i].id)
         <= Done(cfg, js[i], js[i].id) + InQueue(js, false, One(js[i].id)) - 1
    decreases |js|
  {
    var n := |js| - 1;
    if i < n {
      DoneAlone(cfg, js[..n], i);
    } else {
      DoneAtMostQueued(cfg, js[..n], js[i].id);
    }
  }

  /** There was a moment at which a worker was running the job. */
  ghost predicate WasRunning(cfg: Config, run: seq<Action>, id: nat) {
    exists k, w :: 0 <= k <= |run| && RunningAt(cfg, run[..k], w, id)
  }

  ghost predicate RunningAt(cfg: Config, run: seq<Action>, w: nat, id: nat) {
    && IsRun(cfg, Init(cfg), run) && w < |Run(cfg, Init(cfg), run).workers|
    && Run(cfg, Init(cfg), run).workers[w] == Running(Job(false, id, false))
  }

  lemma {:induction false} StartedWasRunning(cfg: Config, run: seq<Action>, id: nat)
    requires IsRun(cfg, Init(cfg), run) && Starts(cfg, run, id) > 0
    ensures WasRunning(cfg, run, id)
    decreases |run|
  {
    var n := |run| - 1;
    assert run[..n + 1] == run;
    if Starts(cfg, run[..n], id) > 0 {
      StartedWasRunning(cfg, run[..n], id);
      var k, w :| 0 <= k <= n && RunningAt(cfg, run[..n][..k], w, id);
      assert run[..n][..k] == run[..k];
    } else {
      assert RunningAt(cfg, run[..n + 1], run[n].w, id);
    }
  }

  /** A job that is reported with the result of its command has had that command started, once; a marked or skipped
      one never. */
  lemma ReportedIffStarted(cfg: Config, run: seq<Action>, i: nat)
    requires IsRun(cfg, Init(cfg), run) && Run(cfg, Init(cfg), run).main.Returned?
    requires i < |Run(cfg, Init(cfg), run).collected|
    ensures var job := Run(cfg, Init(cfg), run).collected[i];
      && (Starts(cfg, run, job.id) == if job.isBreak || ToSkip(cfg, job.id) then 0 else 1)
      && (!job.isBreak && !ToSkip(cfg, job.id) ==> WasRunning(cfg, run, job.id))
  {
    var s := Run(cfg, Init(cfg), run);
    var job := s.collected[i];
    StartsAreRan(cfg, run, job.id);
    EveryRunKeepsInv(cfg, run);
    EachJobDeliveredOnce(cfg, run);
    ReturnedTotals(cfg, s);
    NoneDoneYet(cfg, s.workers, job.id);
    assert InQueue(s.collected, false, One(job.id)) <= 1;
    DoneAlone(cfg, s.collected, i);
    if Starts(cfg, run, job.id) > 0 {
      StartedWasRunning(cfg, run, job.id);
    }
  }

  // ---------------------------------------------------------------- starts and interrupts

  lemma NoEntryOnceExiting(cfg: Config, s: State, a: Action, id: nat)
    requires Enabled(cfg, s, a) && s.threadExit
    ensures Apply(cfg, s, a).threadExit && !Enters(s, Apply(cfg, s, a), a, id)
  {
  }

  lemma {:induction false} NoStartOnceExiting(cfg: Config, run: seq<Action>, more: seq<Action>, id: nat)
    requires IsRun(cfg, Init(cfg), run + more)
    requires IsRun(cfg, Init(cfg), run) && Run(cfg, Init(cfg), run).threadExit
    ensures Run(cfg, Init(cfg), run + more).threadExit
    ensures Starts(cfg, run + more, id) == Starts(cfg, run, id)
    decreases |more|
  {
    if more == [] {
      assert run + more == run;
    } else {
      var n := |more| - 1;
      assert (run + more)[..|run| + n] == run + more[..n];
      NoStartOnceExiting(cfg, run, more[..n], id);
      NoEntryOnceExiting(cfg, Run(cfg, Init(cfg), run + more[..n]), more[n], id);
    }
  }

  /** Nothing is started after an interrupt. */
  lemma InterruptStopsStarts(cfg: Config, before: seq<Action>, after: seq<Action>, id: nat)
    requires IsRun(cfg, Init(cfg), before + [Interrupt] + after)
    ensures IsRun(cfg, Init(cfg), before)
    ensures Starts(cfg, before + [Interrupt] + after, id) == Starts(cfg, before, id)
  {
    PrefixIsRun(cfg, before + [Interrupt], after);
    LastStep(cfg, before, Interrupt);
    assert (before + [Interrupt])[..|before|] == before;
    NoStartOnceExiting(cfg, before + [Interrupt], after, id);
  }

  lemma {:induction false} PrefixIsRun(cfg: Config, run: seq<Action>, more: seq<Action>)
    requires IsRun(cfg, Init(cfg), run + more)
    ensures IsRun(cfg, Init(cfg), run)
    decreases |more|
  {
    if more == [] {
      assert run + more == run;
    } else {
      var n := |more| - 1;
      assert (run + more)[..|run| + n] == run + more[..n];
      PrefixIsRun(cfg, run, more[..n]);
    }
  }

  /** Without an interrupt every job that is not to be skipped is started, once. */
  lemma UninterruptedStartsAll(cfg: Config, run: seq<Action>, id: nat)
    requires IsRun(cfg, Init(cfg), run) && Run(cfg, Init(cfg), run).main.Returned?
    requires !Run(cfg, Init(cfg), run).threadExit && id < |cfg.jobs|
    ensures Starts(cfg, run, id) == if cfg.jobs[id].isSkip then 0 else 1
  {
    var s := Run(cfg, Init(cfg), run);
    EveryRunKeepsInv(cfg, run);
    EachJobDeliveredOnce(cfg, run);
    assert InQueue(s.collected, false, One(id)) == 1;
    var i := SomeInQueue(s.collected, false, One(id));
    ReportedIffStarted(cfg, run, i);
  }

  // ---------------------------------------------------------------- the queues are served in order

  function JobsUpTo(n: nat, sentinel: bool): (js: seq<Job>)
    ensures |js| == n && forall i :: 0 <= i < n ==> js[i] == Job(sentinel, i, sentinel)
  {
    seq(n, i requires 0 <= i < n => Job(sentinel, i, sentinel))
  }

  /** What has been put on the input queue so far: the jobs, then the sentinels. */
  ghost function Enqueued(cfg: Config, m: Main): seq<Job> {
    JobsUpTo(Dispatched(cfg, m), false) + JobsUpTo(Stopped(cfg, m), true)
  }

  /** The input queue holds what was enqueued last. */
  ghost predicate InputFifo(cfg: Config, s: State) {
    exists taken: nat :: TakenFirst(cfg, s, taken)
  }

  ghost predicate TakenFirst(cfg: Config, s: State, taken: nat) {
    taken <= |Enqueued(cfg, s.main)| && s.input == Enqueued(cfg, s.main)[taken..]
  }

  lemma EnqueuedNext(cfg: Config, m: Main)
    ensures m.Dispatching? && m.i < |cfg.jobs| ==>
      Enqueued(cfg, Dispatching(m.i + 1)) == Enqueued(cfg, m) + [Job(false, m.i, false)]
    ensures m.Stopping? && m.i < cfg.processors ==>
      Enqueued(cfg, Stopping(m.i + 1)) == Enqueued(cfg, m) + [Job(true, m.i, true)]
  {
    if m.Stopping? && m.i < cfg.processors {
      assert JobsUpTo(m.i + 1, true) == JobsUpTo(m.i, true) + [Job(true, m.i, true)];
    } else if m.Dispatching? && m.i < |cfg.jobs| {
      assert JobsUpTo(m.i + 1, false) == JobsUpTo(m.i, false) + [Job(false, m.i, false)];
    }
  }

  lemma MainEnqueues(cfg: Config, s: State, taken: nat)
    requires TakenFirst(cfg, s, taken) && MainOk(cfg, s) && MainEnabled(cfg, s)
    ensures TakenFirst(cfg, MainApply(cfg, s), taken)
  {
    EnqueuedNext(cfg, s.main);
  }

  /** A worker takes the job that has been waiting longest. */
  lemma WorkerTakesFirst(cfg: Config, s: State, w: nat, taken: nat)
    requires TakenFirst(cfg, s, taken) && w < |s.workers| && WorkerEnabled(s, s.workers[w])
    ensures var s' := WorkerApply(cfg, s, w);
      if s.workers[w].Getting?
      then TakenFirst(cfg, s', taken + 1) && s'.workers[w] == Holding(Enqueued(cfg, s.main)[taken])
      else TakenFirst(cfg, s', taken)
  {
  }

  /** Jobs are taken up in the order they were enqueued, and the sentinels after all of them. */
  lemma {:induction false} InputIsFifo(cfg: Config, run: seq<Action>)
    requires IsRun(cfg, Init(cfg), run)
    ensures InputFifo(cfg, Run(cfg, Init(cfg), run))
    decreases |run|
  {
    if run == [] {
      assert TakenFirst(cfg, Init(cfg), 0);
    } else {
      var front, a := run[..|run| - 1], run[|run| - 1];
      var s := Run(cfg, Init(cfg), front);
      InputIsFifo(cfg, front);
      EveryRunKeepsInv(cfg, front);
      var taken: nat :| TakenFirst(cfg, s, taken);
      match a
      case MainStep => MainEnqueues(cfg, s, taken);
      case WorkerStep(w) => WorkerTakesFirst(cfg, s, w, taken);
      case Interrupt => assert TakenFirst(cfg, Apply(cfg, s, a), taken);
    }
  }

  lemma OutputGrows(cfg: Config, s: State, a: Action)
    requires Enabled(cfg, s, a)
    ensures var s' := Apply(cfg, s, a);
      s'.collected + s'.output == s.collected + s.output +
        if a.WorkerStep? && s.workers[a.w].Putting? then [s.workers[a.w].job] else []
  {
  }

  /** Results are collected in the order they were put on the output queue: what is collected or waiting at one
      moment is collected first, in that order, ever after. */
  lemma {:induction false} OutputIsFifo(cfg: Config, run: seq<Action>, more: seq<Action>)
    requires IsRun(cfg, Init(cfg), run + more)
    ensures IsRun(cfg, Init(cfg), run)
    ensures var s, s' := Run(cfg, Init(cfg), run), Run(cfg, Init(cfg), run + more);
      s.collected + s.output <= s'.collected + s'.output
    decreases |more|
  {
    if more == [] {
      assert run + more == run;
    } else {
      var n := |more| - 1;
      assert (run + more)[..|run| + n] == run + more[..n];
      OutputIsFifo(cfg, run, more[..n]);
      OutputGrows(cfg, Run(cfg, Init(cfg), run + more[..n]), more[n]);
    }
  }
}
