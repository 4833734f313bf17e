/** What a run of the pool reports: every job that had begun when the interrupt came with its real result,
    every other job as interrupted; without an interrupt, every job. */
module WorkerPoolOutcomes {
  import opened WorkerPool
  import opened WorkerPoolTheorems

  // ---------------------------------------------------------------- which jobs an interrupt spares

  ghost predicate Works(w: Worker, id: nat) {
    (w.Running? || w.Putting?) && !w.job.sentinel && w.job.id == id
  }

  ghost predicate Lists(js: seq<Job>, id: nat) {
    exists i :: 0 <= i < |js| && !js[i].sentinel && js[i].id == id
  }

  /** A worker is running the job or has finished with it. */
  ghost predicate Begun(s: State, id: nat) {
    (exists w :: 0 <= w < |s.workers| && Works(s.workers[w], id)) || Lists(s.output, id) || Lists(s.collected, id)
  }

  /** Marked broken exactly when not begun at the interrupt. */
  ghost predicate Marked(s0: State, js: seq<Job>) {
    forall i :: 0 <= i < |js| ==> (js[i].isBreak <==> !Begun(s0, js[i].id))
  }

  ghost predicate WorkerMarked(s0: State, w: Worker) {
    match w
    case Holding(job) => !job.sentinel ==> !Begun(s0, job.id)
    case Running(job) => Begun(s0, job.id)
    case Putting(job) => job.isBreak <==> !Begun(s0, job.id)
    case _ => true
  }

  /** After an interrupt in s0: what had begun is never met again on the input side, and everything on the
      output side is marked accordingly. */
  ghost predicate AfterInterrupt(cfg: Config, s0: State, s: State) {
    && s.threadExit
    && (forall i :: 0 <= i < |s.input| && !s.input[i].sentinel ==> !Begun(s0, s.input[i].id))
    && (forall w :: 0 <= w < |s.workers| ==> WorkerMarked(s0, s.workers[w]))
    && Marked(s0, s.output) && Marked(s0, s.collected)
    && (forall id: nat :: Begun(s0, id) ==> id < Dispatched(cfg, s.main))
  }

  lemma {:induction false} OneHandCounts(ws: seq<Worker>, i: nat, sentinel: bool, q: Which)
    requires i < |ws|
    ensures InHands(ws, sentinel, q) >= InHand(ws[i], sentinel, q)
    decreases |ws|
  {
    if i < |ws| - 1 {
      OneHandCounts(ws[..|ws| - 1], i, sentinel, q);
    }
  }

  lemma {:induction false} TwoHandsCount(ws: seq<Worker>, i: nat, j: nat, sentinel: bool, q: Which)
    requires i < j < |ws|
    ensures InHands(ws, sentinel, q) >= InHand(ws[i], sentinel, q) + InHand(ws[j], sentinel, q)
    decreases |ws|
  {
    if j < |ws| - 1 {
      TwoHandsCount(ws[..|ws| - 1], i, j, sentinel, q);
    } else {
      OneHandCounts(ws[..|ws| - 1], i, sentinel, q);
    }
  }

  ghost function Behind(s: State, id: nat): nat {
    InHands(s.workers, false, One(id)) + InQueue(s.output, false, One(id)) + InQueue(s.collected, false, One(id))
  }

  lemma BegunCounts(s: State, id: nat)
    requires Begun(s, id)
    ensures Behind(s, id) >= 1
  {
    if w :| 0 <= w < |s.workers| && Works(s.workers[w], id) {
      OneHandCounts(s.workers, w, false, One(id));
    } else if Lists(s.output, id) {
      var i :| 0 <= i < |s.output| && !s.output[i].sentinel && s.output[i].id == id;
      ListedCounts(s.output, i);
    } else {
      var i :| 0 <= i < |s.collected| && !s.collected[i].sentinel && s.collected[i].id == id;
      ListedCounts(s.collected, i);
    }
  }

  /** A begun job has been dispatched and is not in the input queue. */
  lemma BegunIsPastInput(cfg: Config, s: State, id: nat)
    requires Inv(cfg, s) && Begun(s, id)
    ensures id < Dispatched(cfg, s.main)
    ensures forall i :: 0 <= i < |s.input| && !s.input[i].sentinel ==> s.input[i].id != id
  {
    BegunCounts(s, id);
    assert Balanced(cfg, s, One(id));
    forall i | 0 <= i < |s.input| && !s.input[i].sentinel ensures s.input[i].id != id {
      ListedCounts(s.input, i);
    }
  }

  /** Nor is it held, not yet begun, by some worker. */
  lemma BegunIsNotHeld(cfg: Config, s: State, v: nat, id: nat)
    requires Inv(cfg, s) && v < |s.workers| && s.workers[v].Holding? && !s.workers[v].job.sentinel
    requires s.workers[v].job.id == id
    ensures !Begun(s, id)
  {
    assert Balanced(cfg, s, One(id));
    OneHandCounts(s.workers, v, false, One(id));
    if w :| 0 <= w < |s.workers| && Works(s.workers[w], id) {
      TwoHandsCount(s.workers, if v < w then v else w, if v < w then w else v, false, One(id));
      assert false;
    }
    if Lists(s.output, id) {
      var i :| 0 <= i < |s.output| && !s.output[i].sentinel && s.output[i].id == id;
      ListedCounts(s.output, i);
    }
    if Lists(s.collected, id) {
      var i :| 0 <= i < |s.collected| && !s.collected[i].sentinel && s.collected[i].id == id;
      ListedCounts(s.collected, i);
    }
  }

  lemma WorkerMarkedAtInterrupt(cfg: Config, s0: State, v: nat)
    requires Inv(cfg, s0) && !s0.threadExit && v < |s0.workers|
    ensures WorkerMarked(s0, s0.workers[v])
  {
    assert WorkerOk(s0, s0.workers[v]);
    match s0.workers[v]
    case Holding(job) =>
      if !job.sentinel {
        BegunIsNotHeld(cfg, s0, v, job.id);
      }
    case Running(job) => assert Works(s0.workers[v], job.id);
    case Putting(job) => assert Works(s0.workers[v], job.id);
    case _ =>
  }

  lemma InterruptStarts(cfg: Config, s0: State)
    requires Inv(cfg, s0) && Enabled(cfg, s0, Interrupt)
    ensures AfterInterrupt(cfg, s0, Apply(cfg, s0, Interrupt))
  {
    forall v | 0 <= v < |s0.workers| ensures WorkerMarked(s0, s0.workers[v]) {
      WorkerMarkedAtInterrupt(cfg, s0, v);
    }
    forall id: nat | Begun(s0, id)
      ensures id < Dispatched(cfg, s0.main)
      ensures forall i :: 0 <= i < |s0.input| && !s0.input[i].sentinel ==> s0.input[i].id != id
    {
      BegunIsPastInput(cfg, s0, id);
    }
    forall i | 0 <= i < |s0.output| ensures Begun(s0, s0.output[i].id) {
      assert Lists(s0.output, s0.output[i].id);
    }
    forall i | 0 <= i < |s0.collected| ensures Begun(s0, s0.collected[i].id) {
      assert Lists(s0.collected, s0.collected[i].id);
    }
  }

  lemma MainKeepsMarks(cfg: Config, s0: State, s: State)
    requires AfterInterrupt(cfg, s0, s) && Inv(cfg, s) && MainEnabled(cfg, s)
    ensures AfterInterrupt(cfg, s0, MainApply(cfg, s))
  {
  }

  lemma WorkerKeepsMarks(cfg: Config, s0: State, s: State, w: nat)
    requires AfterInterrupt(cfg, s0, s) && WorkersOk(cfg, s) && w < |s.workers| && WorkerEnabled(s, s.workers[w])
    ensures AfterInterrupt(cfg, s0, WorkerApply(cfg, s, w))
  {
    assert WorkerOk(s, s.workers[w]) && WorkerMarked(s0, s.workers[w]);
  }

  lemma LastStep(cfg: Config, front: seq<Action>, a: Action)
    requires IsRun(cfg, Init(cfg), front + [a])
    ensures IsRun(cfg, Init(cfg), front) && Enabled(cfg, Run(cfg, Init(cfg), front), a)
    ensures Run(cfg, Init(cfg), front + [a]) == Apply(cfg, Run(cfg, Init(cfg), front), a)
  {
    assert (front + [a])[..|front|] == front;
  }

  lemma AllButLast(before: seq<Action>, after: seq<Action>)
    requires after != []
    ensures before + [Interrupt] + after == before + [Interrupt] + after[..|after| - 1] + [after[|after| - 1]]
  {
  }

  lemma {:induction false} RunKeepsMarks(cfg: Config, before: seq<Action>, after: seq<Action>)
    requires IsRun(cfg, Init(cfg), before + [Interrupt] + after)
    ensures IsRun(cfg, Init(cfg), before)
    ensures AfterInterrupt(cfg, Run(cfg, Init(cfg), before), Run(cfg, Init(cfg), before + [Interrupt] + after))
    decreases |after|
  {
    if after == [] {
      assert before + [Interrupt] + after == before + [Interrupt];
      LastStep(cfg, before, Interrupt);
      EveryRunKeepsInv(cfg, before);
      InterruptStarts(cfg, Run(cfg, Init(cfg), before));
    } else {
      var n := |after| - 1;
      var shorter := before + [Interrupt] + after[..n];
      AllButLast(before, after);
      LastStep(cfg, shorter, after[n]);
      RunKeepsMarks(cfg, before, after[..n]);
      EveryRunKeepsInv(cfg, shorter);
      OneMoreMarked(cfg, Run(cfg, Init(cfg), before), Run(cfg, Init(cfg), shorter), after[n]);
    }
  }

  lemma OneMoreMarked(cfg: Config, s0: State, s: State, a: Action)
    requires AfterInterrupt(cfg, s0, s) && Inv(cfg, s) && Enabled(cfg, s, a)
    ensures AfterInterrupt(cfg, s0, Apply(cfg, s, a))
  {
    match a
    case MainStep => MainKeepsMarks(cfg, s0, s);
    case WorkerStep(w) => WorkerKeepsMarks(cfg, s0, s, w);
    case Interrupt =>
  }

  /** An interrupt discards exactly the jobs that had not begun: these come back marked, all others unmarked. */
  lemma InterruptSparesBegun(cfg: Config, before: seq<Action>, after: seq<Action>)
    requires IsRun(cfg, Init(cfg), before + [Interrupt] + after)
    ensures IsRun(cfg, Init(cfg), before)
    ensures Marked(Run(cfg, Init(cfg), before), Run(cfg, Init(cfg), before + [Interrupt] + after).collected)
  {
    RunKeepsMarks(cfg, before, after);
  }

  ghost predicate RunsNoSkipped(cfg: Config, ws: seq<Worker>) {
    forall w :: 0 <= w < |ws| && ws[w].Running? ==> ws[w].job.id < |cfg.jobs| ==> !cfg.jobs[ws[w].job.id].isSkip
  }

  /** The command of a job that is to be skipped is never run. */
  lemma {:induction false} SkippedNeverRuns(cfg: Config, run: seq<Action>)
    requires IsRun(cfg, Init(cfg), run)
    ensures RunsNoSkipped(cfg, Run(cfg, Init(cfg), run).workers)
    decreases |run|
  {
    if run != [] {
      SkippedNeverRuns(cfg, run[..|run| - 1]);
      StepRunsNoSkipped(cfg, Run(cfg, Init(cfg), run[..|run| - 1]), run[|run| - 1]);
    }
  }

  lemma StepRunsNoSkipped(cfg: Config, s: State, a: Action)
    requires RunsNoSkipped(cfg, s.workers) && Enabled(cfg, s, a)
    ensures RunsNoSkipped(cfg, Apply(cfg, s, a).workers)
  {
  }

  // ---------------------------------------------------------------- what is reported

  /** The jobs below n in the order they were enqueued, marked unless `begun`. */
  ghost function InJobOrder(n: nat, begun: nat -> bool): seq<Job> {
    if n == 0 then [] else InJobOrder(n - 1, begun) + [Job(false, n - 1, !begun(n - 1))]
  }

  predicate Skips(spec: JobSpec) { spec.isSkip }

  predicate Passes(spec: JobSpec) { !spec.isSkip && spec.returnCode == 0 }

  predicate Fails(spec: JobSpec) { !spec.isSkip && spec.returnCode == 1 }

  predicate HasValgrindErrors(spec: JobSpec) { !spec.isSkip && spec.returnCode == 2 }

  predicate Crashes(spec: JobSpec) { !spec.isSkip && spec.returnCode !in {0, 1, 2} }

  /** The names of the begun jobs that satisfy a condition, in the order of the jobs. */
  ghost function NamesOf(jobs: seq<JobSpec>, begun: nat -> bool, pick: JobSpec -> bool): seq<string> {
    if jobs == [] then [] else
      var n := |jobs| - 1;
      NamesOf(jobs[..n], begun, pick) + if begun(n) && pick(jobs[n]) then [jobs[n].displayName] else []
  }

  ghost function Report(jobs: seq<JobSpec>, begun: nat -> bool): Tally {
    Tally(|NamesOf(jobs, begun, Passes)|, |NamesOf(jobs, begun, Fails)|, |NamesOf(jobs, begun, HasValgrindErrors)|,
          |NamesOf(jobs, begun, Crashes)|, |NamesOf(jobs, begun, Skips)|,
          NamesOf(jobs, begun, Fails), NamesOf(jobs, begun, HasValgrindErrors), NamesOf(jobs, begun, Crashes),
          NamesOf(jobs, begun, Skips))
  }

  lemma {:induction false} ReportInOrder(cfg: Config, n: nat, begun: nat -> bool)
    requires n <= |cfg.jobs|
    ensures TallyOf(cfg, InJobOrder(n, begun)) == Report(cfg.jobs[..n], begun)
    decreases n
  {
    if n > 0 {
      var k := n - 1;
      ReportInOrder(cfg, k, begun);
      var js := InJobOrder(k, begun);
      var job := Job(false, k, !begun(k));
      assert (js + [job])[..|js|] == js;
      OneMoreReported(cfg, k, begun);
    }
  }

  lemma OneMoreReported(cfg: Config, k: nat, begun: nat -> bool)
    requires k < |cfg.jobs|
    ensures Report(cfg.jobs[..k + 1], begun) == Record(cfg, Report(cfg.jobs[..k], begun), Job(false, k, !begun(k)))
  {
    assert cfg.jobs[..k + 1][..k] == cfg.jobs[..k];
  }

  lemma {:induction false} InOrderCount(n: nat, begun: nat -> bool, id: nat)
    ensures InQueue(InJobOrder(n, begun), false, One(id)) == if id < n then 1 else 0
    ensures forall i :: 0 <= i < |InJobOrder(n, begun)| ==>
      !InJobOrder(n, begun)[i].sentinel && (InJobOrder(n, begun)[i].isBreak <==> !begun(InJobOrder(n, begun)[i].id))
    decreases n
  {
    if n > 0 {
      InOrderCount(n - 1, begun, id);
      InQueueAppend(InJobOrder(n - 1, begun), Job(false, n - 1, !begun(n - 1)), false, One(id));
    }
  }

  /** Collected jobs are determined up to order by how often each id occurs and by which of them are marked. */
  lemma {:induction false} CountIsMultiplicity(js: seq<Job>, begun: nat -> bool, id: nat)
    requires forall i :: 0 <= i < |js| ==> !js[i].sentinel && (js[i].isBreak <==> !begun(js[i].id))
    ensures multiset(js)[Job(false, id, !begun(id))] == InQueue(js, false, One(id))
    decreases |js|
  {
    if js != [] {
      var n := |js| - 1;
      CountIsMultiplicity(js[..n], begun, id);
      assert js == js[..n] + [js[n]];
    }
  }

  lemma CollectedIsJobOrder(cfg: Config, run: seq<Action>, begun: nat -> bool)
    requires IsRun(cfg, Init(cfg), run) && Run(cfg, Init(cfg), run).main.Returned?
    requires var js := Run(cfg, Init(cfg), run).collected;
      forall i :: 0 <= i < |js| ==> (js[i].isBreak <==> !begun(js[i].id))
    ensures multiset(Run(cfg, Init(cfg), run).collected) == multiset(InJobOrder(|cfg.jobs|, begun))
  {
    var s, js := Run(cfg, Init(cfg), run), InJobOrder(|cfg.jobs|, begun);
    EachJobDeliveredOnce(cfg, run);
    forall job: Job ensures multiset(s.collected)[job] == multiset(js)[job] {
      InOrderCount(|cfg.jobs|, begun, job.id);
      if !job.sentinel && job.isBreak == !begun(job.id) {
        CountIsMultiplicity(s.collected, begun, job.id);
        CountIsMultiplicity(js, begun, job.id);
      } else {
        assert job !in s.collected && job !in js;
      }
    }
  }

  /** The final tallies, from which jobs are marked. */
  lemma TallyIsReport(cfg: Config, run: seq<Action>, begun: nat -> bool)
    requires IsRun(cfg, Init(cfg), run) && Run(cfg, Init(cfg), run).main.Returned?
    requires var js := Run(cfg, Init(cfg), run).collected;
      forall i :: 0 <= i < |js| ==> (js[i].isBreak <==> !begun(js[i].id))
    ensures SameTally(Run(cfg, Init(cfg), run).tally, Report(cfg.jobs, begun))
  {
    var s := Run(cfg, Init(cfg), run);
    EveryRunKeepsInv(cfg, run);
    CollectedIsJobOrder(cfg, run, begun);
    TallyIgnoresOrder(cfg, s.collected, InJobOrder(|cfg.jobs|, begun));
    ReportInOrder(cfg, |cfg.jobs|, begun);
    assert cfg.jobs[..|cfg.jobs|] == cfg.jobs;
  }

  /** With an interrupt, the tallies and names reported are those of the jobs that had begun when it came. */
  lemma InterruptedReport(cfg: Config, before: seq<Action>, after: seq<Action>)
    requires IsRun(cfg, Init(cfg), before + [Interrupt] + after)
    requires Run(cfg, Init(cfg), before + [Interrupt] + after).main.Returned?
    ensures IsRun(cfg, Init(cfg), before)
    ensures var s0 := Run(cfg, Init(cfg), before);
      SameTally(Run(cfg, Init(cfg), before + [Interrupt] + after).tally, Report(cfg.jobs, (id: nat) => Begun(s0, id)))
  {
    InterruptSparesBegun(cfg, before, after);
    var s0 := Run(cfg, Init(cfg), before);
    TallyIsReport(cfg, before + [Interrupt] + after, (id: nat) => Begun(s0, id));
  }

  const EVERY_JOB: nat -> bool := id => true

  /** Without an interrupt, they are those of all the jobs. */
  lemma UninterruptedReport(cfg: Config, run: seq<Action>)
    requires IsRun(cfg, Init(cfg), run) && Run(cfg, Init(cfg), run).main.Returned?
    requires !Run(cfg, Init(cfg), run).threadExit
    ensures SameTally(Run(cfg, Init(cfg), run).tally, Report(cfg.jobs, EVERY_JOB))
  {
    EveryRunKeepsInv(cfg, run);
    TallyIsReport(cfg, run, EVERY_JOB);
  }

  /** Any two uninterrupted runs of the same jobs, on any numbers of workers, end with the same tallies and status. */
  lemma OrderDoesNotMatter(cfg: Config, cfg': Config, run: seq<Action>, run': seq<Action>)
    requires cfg.jobs == cfg'.jobs
    requires IsRun(cfg, Init(cfg), run) && Run(cfg, Init(cfg), run).main.Returned?
    requires IsRun(cfg', Init(cfg'), run') && Run(cfg', Init(cfg'), run').main.Returned?
    requires !Run(cfg, Init(cfg), run).threadExit && !Run(cfg', Init(cfg'), run').threadExit
    ensures var s, s' := Run(cfg, Init(cfg), run), Run(cfg', Init(cfg'), run');
      SameTally(s.tally, s'.tally) && s.main == s'.main
  {
    UninterruptedReport(cfg, run);
    UninterruptedReport(cfg', run');
    EveryRunKeepsInv(cfg, run);
    EveryRunKeepsInv(cfg', run');
  }

  lemma {:induction false} AllGood(jobs: seq<JobSpec>)
    ensures var n := |NamesOf(jobs, EVERY_JOB, Passes)| + |NamesOf(jobs, EVERY_JOB, Skips)|;
      n <= |jobs| && (n == |jobs| <==> forall k :: 0 <= k < |jobs| ==> jobs[k].isSkip || jobs[k].returnCode == 0)
    decreases |jobs|
  {
    if jobs != [] {
      var n := |jobs| - 1;
      AllGood(jobs[..n]);
      assert forall k :: 0 <= k < n ==> jobs[..n][k] == jobs[k];
    }
  }

  /** Without an interrupt the exit status is 0 exactly when every job is skipped or exits 0. */
  lemma UninterruptedStatus(cfg: Config, run: seq<Action>)
    requires IsRun(cfg, Init(cfg), run) && Run(cfg, Init(cfg), run).main.Returned?
    requires !Run(cfg, Init(cfg), run).threadExit
    ensures Run(cfg, Init(cfg), run).main.status == 0
       <==> forall k :: 0 <= k < |cfg.jobs| ==> cfg.jobs[k].isSkip || cfg.jobs[k].returnCode == 0
  {
    EveryRunKeepsInv(cfg, run);
    UninterruptedReport(cfg, run);
    AllGood(cfg.jobs);
  }
}
