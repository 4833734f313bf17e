/** The job pool of test.py as a transition system: a main thread that spawns workers, enqueues jobs and
    sentinels, collects results and joins; workers on two FIFO queues; an interrupt at any moment. */
module WorkerPool {

  // ---------------------------------------------------------------- jobs, threads, state

  /** What is fixed about a job: whether it is to be skipped, the code its command would exit with, its name. */
  datatype JobSpec = JobSpec(isSkip: bool, returnCode: int, displayName: string)

  datatype Config = Config(processors: nat, jobs: seq<JobSpec>)

  /** A job object in flight. `sentinel` and `id` say which object it is; the program itself sees `isBreak`. */
  datatype Job = Job(sentinel: bool, id: nat, isBreak: bool)

  datatype Worker =
    | NotStarted
    | Getting
    | Holding(job: Job)
    | Running(job: Job)
    | Putting(job: Job)
    | Exited(job: Job)

  datatype Main =
    | Spawning(i: nat)
    | Dispatching(i: nat)
    | Stopping(i: nat)
    | Collecting(i: nat)
    | Joining(i: nat)
    | Returned(status: int)

  datatype Tally = Tally(
    passed: nat, failed: nat, valgrind: nat, crashed: nat, skipped: nat,
    failedNames: seq<string>, valgrindNames: seq<string>, crashedNames: seq<string>, skippedNames: seq<string>)

  /** `collected` is the history of what the collect loop took from the output queue. */
  datatype State = State(
    main: Main, workers: seq<Worker>, input: seq<Job>, output: seq<Job>, threadExit: bool,
    tally: Tally, collected: seq<Job>)

  datatype Action = Interrupt | MainStep | WorkerStep(w: nat)

  const NOTHING_COUNTED := Tally(0, 0, 0, 0, 0, [], [], [], [])

  function Init(cfg: Config): State {
    State(Spawning(0), seq(cfg.processors, i => NotStarted), [], [], false, NOTHING_COUNTED, [])
  }

  // ---------------------------------------------------------------- the steps

  datatype Verdict = Skip | Pass | Fail | Valgr | Crash | Break

  /** How the collect loop classes a job; one that comes back with its break flag set is not counted. */
  function VerdictOf(cfg: Config, job: Job): Verdict {
    if job.isBreak || job.id >= |cfg.jobs| then Break else
      var spec := cfg.jobs[job.id];
      if spec.isSkip then Skip
      else if spec.returnCode == 0 then Pass
      else if spec.returnCode == 1 then Fail
      else if spec.returnCode == 2 then Valgr
      else Crash
  }

  /** One round of the collect loop. */
  function Record(cfg: Config, t: Tally, job: Job): Tally {
    if job.id >= |cfg.jobs| then t else
      var name := cfg.jobs[job.id].displayName;
      match VerdictOf(cfg, job)
      case Skip => t.(skipped := t.skipped + 1, skippedNames := t.skippedNames + [name])
      case Pass => t.(passed := t.passed + 1)
      case Fail => t.(failed := t.failed + 1, failedNames := t.failedNames + [name])
      case Valgr => t.(valgrind := t.valgrind + 1, valgrindNames := t.valgrindNames + [name])
      case Crash => t.(crashed := t.crashed + 1, crashedNames := t.crashedNames + [name])
      case Break => t
  }

  /** A blocking step is enabled only when what it waits for is there. */
  predicate Enabled(cfg: Config, s: State, a: Action) {
    match a
    case Interrupt => !s.threadExit && !s.main.Returned?
    case MainStep => MainEnabled(cfg, s)
    case WorkerStep(w) => w < |s.workers| && WorkerEnabled(s, s.workers[w])
  }

  predicate MainEnabled(cfg: Config, s: State) {
    match s.main
    case Collecting(k) => k < |cfg.jobs| ==> s.output != []
    case Joining(i) => i < cfg.processors && i < |s.workers| ==> s.workers[i].Exited?
    case Returned(_) => false
    case _ => true
  }

  predicate WorkerEnabled(s: State, w: Worker) {
    match w
    case NotStarted => false
    case Getting => s.input != []
    case Exited(_) => false
    case _ => true
  }

  function Apply(cfg: Config, s: State, a: Action): State
    requires Enabled(cfg, s, a)
  {
    match a
    case Interrupt => s.(threadExit := true)
    case MainStep => MainApply(cfg, s)
    case WorkerStep(w) => WorkerApply(cfg, s, w)
  }

  function MainApply(cfg: Config, s: State): State
    requires MainEnabled(cfg, s)
  {
    match s.main
    case Spawning(i) => Spawn(cfg, s, i)
    case Dispatching(j) => Dispatch(cfg, s, j)
    case Stopping(i) => Stop(cfg, s, i)
    case Collecting(k) => Collect(cfg, s, k)
    case Joining(i) => Join(cfg, s, i)
  }

  function Spawn(cfg: Config, s: State, i: nat): State {
    if i < cfg.processors && i < |s.workers|
    then s.(workers := s.workers[i := Getting], main := Spawning(i + 1))
    else s.(main := Dispatching(0))
  }

  function Dispatch(cfg: Config, s: State, j: nat): State {
    if j < |cfg.jobs|
    then s.(input := s.input + [Job(false, j, false)], main := Dispatching(j + 1))
    else s.(main := Stopping(0))
  }

  function Stop(cfg: Config, s: State, i: nat): State {
    if i < cfg.processors
    then s.(input := s.input + [Job(true, i, true)], main := Stopping(i + 1))
    else s.(main := Collecting(0))
  }

  function Collect(cfg: Config, s: State, k: nat): State
    requires k < |cfg.jobs| ==> s.output != []
  {
    if k < |cfg.jobs|
    then s.(output := s.output[1..], tally := Record(cfg, s.tally, s.output[0]),
            collected := s.collected + [s.output[0]], main := Collecting(k + 1))
    else s.(main := Joining(0))
  }

  function Join(cfg: Config, s: State, i: nat): State {
    if i < cfg.processors
    then s.(main := Joining(i + 1))
    else s.(main := Returned(if s.tally.passed + s.tally.skipped == |cfg.jobs| then 0 else 1))
  }

  function WorkerApply(cfg: Config, s: State, w: nat): State
    requires w < |s.workers| && WorkerEnabled(s, s.workers[w])
  {
    match s.workers[w]
    case Getting => s.(input := s.input[1..], workers := s.workers[w := Holding(s.input[0])])
    case Holding(job) =>
      if job.isBreak then s.(workers := s.workers[w := Exited(job)])
      else if s.threadExit then s.(workers := s.workers[w := Putting(job.(isBreak := true))])
      else if job.id < |cfg.jobs| && cfg.jobs[job.id].isSkip then s.(workers := s.workers[w := Putting(job)])
      else s.(workers := s.workers[w := Running(job)])
    case Running(job) => s.(workers := s.workers[w := Putting(job)])
    case Putting(job) => s.(output := s.output + [job], workers := s.workers[w := Getting])
  }

  /** The state after a run, when each of its steps is enabled in turn. */
  function Run(cfg: Config, s: State, run: seq<Action>): (r: State)
    requires IsRun(cfg, s, run)
    decreases |run|, 1
  {
    if run == [] then s else
      var before := Run(cfg, s, run[..|run| - 1]);
      Apply(cfg, before, run[|run| - 1])
  }

  predicate IsRun(cfg: Config, s: State, run: seq<Action>)
    decreases |run|, 0
  {
    run == [] ||
    (IsRun(cfg, s, run[..|run| - 1]) && Enabled(cfg, Run(cfg, s, run[..|run| - 1]), run[|run| - 1]))
  }

  // ---------------------------------------------------------------- where each job is

  /** What is being counted: one particular job object, or all of a kind. */
  datatype Which = All | One(id: nat)

  ghost function Counts(job: Job, sentinel: bool, q: Which): nat {
    if job.sentinel == sentinel && (q == All || q == One(job.id)) then 1 else 0
  }

  /** How many such sentinels (or real jobs) are in a queue. */
  ghost function InQueue(js: seq<Job>, sentinel: bool, q: Which): nat {
    if js == [] then 0 else InQueue(js[..|js| - 1], sentinel, q) + Counts(js[|js| - 1], sentinel, q)
  }

  ghost function InHand(w: Worker, sentinel: bool, q: Which): nat {
    if w.NotStarted? || w.Getting? then 0 else Counts(w.job, sentinel, q)
  }

  /** How many are in the workers' hands; a worker keeps the job it exited on. */
  ghost function InHands(ws: seq<Worker>, sentinel: bool, q: Which): nat {
    if ws == [] then 0 else InHands(ws[..|ws| - 1], sentinel, q) + InHand(ws[|ws| - 1], sentinel, q)
  }

  ghost function AmongFirst(n: nat, q: Which): nat {
    match q
    case All => n
    case One(id) => if id < n then 1 else 0
  }

  lemma InQueueAppend(js: seq<Job>, job: Job, sentinel: bool, q: Which)
    ensures InQueue(js + [job], sentinel, q) == InQueue(js, sentinel, q) + Counts(job, sentinel, q)
  {
    assert (js + [job])[..|js|] == js;
  }

  lemma {:induction false} InQueuePop(js: seq<Job>, sentinel: bool, q: Which)
    requires js != []
    ensures InQueue(js, sentinel, q) == Counts(js[0], sentinel, q) + InQueue(js[1..], sentinel, q)
    decreases |js|
  {
    var n := |js| - 1;
    if n > 0 {
      InQueuePop(js[..n], sentinel, q);
      assert js[..n][1..] == js[1..][..n - 1];
    }
  }

  lemma {:induction false} InHandsUpdate(ws: seq<Worker>, i: nat, w: Worker, sentinel: bool, q: Which)
    requires i < |ws|
    ensures InHands(ws[i := w], sentinel, q)
         == InHands(ws, sentinel, q) - InHand(ws[i], sentinel, q) + InHand(w, sentinel, q)
    decreases |ws|
  {
    var n := |ws| - 1;
    if i < n {
      InHandsUpdate(ws[..n], i, w, sentinel, q);
      assert ws[i := w][..n] == ws[..n][i := w];
    } else {
      assert ws[i := w][..n] == ws[..n];
    }
  }

  // ---------------------------------------------------------------- the invariant

  ghost function Dispatched(cfg: Config, m: Main): nat {
    match m
    case Spawning(_) => 0
    case Dispatching(j) => j
    case _ => |cfg.jobs|
  }

  ghost function Stopped(cfg: Config, m: Main): nat {
    match m
    case Spawning(_) => 0
    case Dispatching(_) => 0
    case Stopping(i) => i
    case _ => cfg.processors
  }

  ghost function Taken(cfg: Config, m: Main): nat {
    match m
    case Collecting(k) => k
    case Joining(_) => |cfg.jobs|
    case Returned(_) => |cfg.jobs|
    case _ => 0
  }

  ghost function RealJobs(s: State, q: Which): nat {
    InQueue(s.input, false, q) + InHands(s.workers, false, q) + InQueue(s.output, false, q) +
    InQueue(s.collected, false, q)
  }

  ghost function Sentinels(s: State, q: Which): nat {
    InQueue(s.input, true, q) + InHands(s.workers, true, q)
  }

  ghost predicate Balanced(cfg: Config, s: State, q: Which) {
    && RealJobs(s, q) == AmongFirst(Dispatched(cfg, s.main), q)
    && Sentinels(s, q) == AmongFirst(Stopped(cfg, s.main), q)
  }

  /** Every dispatched job, and every sentinel, is in exactly one place. */
  ghost predicate Conserved(cfg: Config, s: State) {
    forall q :: Balanced(cfg, s, q)
  }

  /** The input queue: real jobs unmarked, sentinels marked and behind every real job. */
  ghost predicate InputOrdered(s: State) {
    && (forall i :: 0 <= i < |s.input| ==> (s.input[i].isBreak <==> s.input[i].sentinel))
    && (forall i, j :: 0 <= i < j < |s.input| && s.input[i].sentinel ==> s.input[j].sentinel)
    && (s.main.Spawning? || s.main.Dispatching? ==> forall i :: 0 <= i < |s.input| ==> !s.input[i].sentinel)
  }

  ghost predicate TookSentinel(w: Worker) {
    w.Exited? || (w.Holding? && w.job.sentinel)
  }

  ghost predicate WorkerOk(s: State, w: Worker) {
    match w
    case NotStarted => true
    case Getting => true
    case Holding(job) => job.isBreak <==> job.sentinel
    case Running(job) => !job.sentinel && !job.isBreak
    case Putting(job) => !job.sentinel && (job.isBreak ==> s.threadExit)
    case Exited(job) => job.sentinel
  }

  /** Only real jobs reach the output side, marked as broken only after an interrupt. */
  ghost predicate OutputOk(s: State, js: seq<Job>) {
    forall i :: 0 <= i < |js| ==> !js[i].sentinel && (js[i].isBreak ==> s.threadExit)
  }

  ghost predicate WorkersOk(cfg: Config, s: State) {
    && |s.workers| == cfg.processors
    && (forall w :: 0 <= w < |s.workers| ==> WorkerOk(s, s.workers[w]))
    && (forall w :: 0 <= w < |s.workers| && TookSentinel(s.workers[w]) ==>
          forall i :: 0 <= i < |s.input| ==> s.input[i].sentinel)
    && (forall w :: 0 <= w < |s.workers| && TookSentinel(s.workers[w]) ==> !s.main.Spawning? && !s.main.Dispatching?)
    && (if s.main.Spawning?
        then s.main.i <= cfg.processors &&
             forall w :: 0 <= w < |s.workers| ==> (s.workers[w].NotStarted? <==> w >= s.main.i)
        else forall w :: 0 <= w < |s.workers| ==> !s.workers[w].NotStarted?)
  }

  ghost function TallyOf(cfg: Config, js: seq<Job>): Tally {
    if js == [] then NOTHING_COUNTED else Record(cfg, TallyOf(cfg, js[..|js| - 1]), js[|js| - 1])
  }

  ghost predicate MainOk(cfg: Config, s: State) {
    && Dispatched(cfg, s.main) <= |cfg.jobs|
    && Stopped(cfg, s.main) <= cfg.processors
    && |s.collected| == Taken(cfg, s.main) <= |cfg.jobs|
    && s.tally == TallyOf(cfg, s.collected)
    && (s.main.Joining? ==> s.main.i <= cfg.processors)
    && (s.main.Joining? ==> forall w :: 0 <= w < s.main.i && w < |s.workers| ==> s.workers[w].Exited?)
    && (s.main.Returned? ==> forall w :: 0 <= w < |s.workers| ==> s.workers[w].Exited?)
    && (s.main.Returned? ==> s.main.status == if s.tally.passed + s.tally.skipped == |cfg.jobs| then 0 else 1)
  }

  ghost predicate Inv(cfg: Config, s: State) {
    Conserved(cfg, s) && InputOrdered(s) && WorkersOk(cfg, s) && MainOk(cfg, s)
    && OutputOk(s, s.output) && OutputOk(s, s.collected)
  }

  lemma {:induction false} EmptyHands(ws: seq<Worker>, sentinel: bool, q: Which)
    requires forall i :: 0 <= i < |ws| ==> ws[i].NotStarted?
    ensures InHands(ws, sentinel, q) == 0
    decreases |ws|
  {
    if ws != [] {
      EmptyHands(ws[..|ws| - 1], sentinel, q);
    }
  }

  lemma InitInv(cfg: Config)
    ensures Inv(cfg, Init(cfg))
  {
    forall q, sentinel ensures InHands(Init(cfg).workers, sentinel, q) == 0 {
      EmptyHands(Init(cfg).workers, sentinel, q);
    }
  }

  lemma EnqueueCounts(s: State, s': State, job: Job, q: Which)
    requires s'.input == s.input + [job]
    requires s'.workers == s.workers && s'.output == s.output && s'.collected == s.collected
    ensures RealJobs(s', q) == RealJobs(s, q) + Counts(job, false, q)
    ensures Sentinels(s', q) == Sentinels(s, q) + Counts(job, true, q)
  {
    InQueueAppend(s.input, job, false, q);
    InQueueAppend(s.input, job, true, q);
  }

  lemma SpawnCounts(s: State, s': State, i: nat, q: Which)
    requires i < |s.workers| && s.workers[i].NotStarted? && s'.workers == s.workers[i := Getting]
    requires s'.input == s.input && s'.output == s.output && s'.collected == s.collected
    ensures RealJobs(s', q) == RealJobs(s, q) && Sentinels(s', q) == Sentinels(s, q)
  {
    InHandsUpdate(s.workers, i, Getting, false, q);
    InHandsUpdate(s.workers, i, Getting, true, q);
  }

  lemma CollectCounts(s: State, s': State, q: Which)
    requires s.output != [] && s'.output == s.output[1..] && s'.collected == s.collected + [s.output[0]]
    requires s'.input == s.input && s'.workers == s.workers
    ensures RealJobs(s', q) == RealJobs(s, q) && Sentinels(s', q) == Sentinels(s, q)
  {
    InQueuePop(s.output, false, q);
    InQueueAppend(s.collected, s.output[0], false, q);
  }

  lemma SpawnBalances(cfg: Config, s: State, i: nat, q: Which)
    requires s.main == Spawning(i) && |s.workers| == cfg.processors && Balanced(cfg, s, q)
    requires i < cfg.processors ==> s.workers[i].NotStarted?
    ensures Balanced(cfg, Spawn(cfg, s, i), q)
  {
    if i < cfg.processors {
      SpawnCounts(s, Spawn(cfg, s, i), i, q);
    }
  }

  lemma CountsNext(sentinel: bool, n: nat, q: Which)
    ensures AmongFirst(n + 1, q) == AmongFirst(n, q) + Counts(Job(sentinel, n, sentinel), sentinel, q)
    ensures Counts(Job(sentinel, n, sentinel), !sentinel, q) == 0
  {
  }

  lemma EnqueueBalances(cfg: Config, s: State, s': State, sentinel: bool, n: nat, q: Which)
    requires Balanced(cfg, s, q)
    requires s'.input == s.input + [Job(sentinel, n, sentinel)]
    requires s'.workers == s.workers && s'.output == s.output && s'.collected == s.collected
    requires n == if sentinel then Stopped(cfg, s.main) else Dispatched(cfg, s.main)
    requires Dispatched(cfg, s'.main) == Dispatched(cfg, s.main) + if sentinel then 0 else 1
    requires Stopped(cfg, s'.main) == Stopped(cfg, s.main) + if sentinel then 1 else 0
    ensures Balanced(cfg, s', q)
  {
    CountsNext(sentinel, n, q);
    EnqueueCounts(s, s', Job(sentinel, n, sentinel), q);
  }

  lemma DispatchBalances(cfg: Config, s: State, j: nat, q: Which)
    requires s.main == Dispatching(j) && j <= |cfg.jobs| && Balanced(cfg, s, q)
    ensures Balanced(cfg, Dispatch(cfg, s, j), q)
  {
    if j < |cfg.jobs| {
      EnqueueBalances(cfg, s, Dispatch(cfg, s, j), false, j, q);
    }
  }

  lemma StopBalances(cfg: Config, s: State, i: nat, q: Which)
    requires s.main == Stopping(i) && i <= cfg.processors && Balanced(cfg, s, q)
    ensures Balanced(cfg, Stop(cfg, s, i), q)
  {
    if i < cfg.processors {
      EnqueueBalances(cfg, s, Stop(cfg, s, i), true, i, q);
    }
  }

  lemma CollectBalances(cfg: Config, s: State, k: nat, q: Which)
    requires s.main == Collecting(k) && (k < |cfg.jobs| ==> s.output != []) && Balanced(cfg, s, q)
    ensures Balanced(cfg, Collect(cfg, s, k), q)
  {
    if k < |cfg.jobs| {
      CollectCounts(s, Collect(cfg, s, k), q);
    }
  }

  lemma MainStaysBalanced(cfg: Config, s: State, q: Which)
    requires Inv(cfg, s) && MainEnabled(cfg, s)
    ensures Balanced(cfg, MainApply(cfg, s), q)
  {
    assert Balanced(cfg, s, q);
    match s.main
    case Spawning(i) => SpawnBalances(cfg, s, i, q);
    case Dispatching(j) => DispatchBalances(cfg, s, j, q);
    case Stopping(i) => StopBalances(cfg, s, i, q);
    case Collecting(k) => CollectBalances(cfg, s, k, q);
    case _ =>
  }

  lemma HandChanges(s: State, s': State, w: nat, job: Worker, q: Which)
    requires w < |s.workers| && s'.workers == s.workers[w := job]
    ensures InHands(s'.workers, false, q) ==
      InHands(s.workers, false, q) - InHand(s.workers[w], false, q) + InHand(job, false, q)
    ensures InHands(s'.workers, true, q) ==
      InHands(s.workers, true, q) - InHand(s.workers[w], true, q) + InHand(job, true, q)
  {
    InHandsUpdate(s.workers, w, job, false, q);
    InHandsUpdate(s.workers, w, job, true, q);
  }

  lemma TakeCounts(s: State, s': State, w: nat, q: Which)
    requires w < |s.workers| && s.workers[w].Getting? && s.input != []
    requires s'.input == s.input[1..] && s'.workers == s.workers[w := Holding(s.input[0])]
    requires s'.output == s.output && s'.collected == s.collected
    ensures RealJobs(s', q) == RealJobs(s, q) && Sentinels(s', q) == Sentinels(s, q)
  {
    HandChanges(s, s', w, Holding(s.input[0]), q);
    InQueuePop(s.input, false, q);
    InQueuePop(s.input, true, q);
  }

  lemma PutCounts(s: State, s': State, w: nat, job: Job, q: Which)
    requires w < |s.workers| && s.workers[w] == Putting(job) && !job.sentinel
    requires s'.output == s.output + [job] && s'.workers == s.workers[w := Getting]
    requires s'.input == s.input && s'.collected == s.collected
    ensures RealJobs(s', q) == RealJobs(s, q) && Sentinels(s', q) == Sentinels(s, q)
  {
    HandChanges(s, s', w, Getting, q);
    InQueueAppend(s.output, job, false, q);
  }

  lemma KeepCounts(s: State, s': State, w: nat, held: Worker, q: Which)
    requires w < |s.workers| && (s.workers[w].Holding? || s.workers[w].Running?)
    requires s'.workers == s.workers[w := held] && (held.Running? || held.Putting? || held.Exited?)
    requires held.job.sentinel == s.workers[w].job.sentinel && held.job.id == s.workers[w].job.id
    requires s'.input == s.input && s'.output == s.output && s'.collected == s.collected
    ensures RealJobs(s', q) == RealJobs(s, q) && Sentinels(s', q) == Sentinels(s, q)
  {
    HandChanges(s, s', w, held, q);
  }

  lemma WorkerCounts(cfg: Config, s: State, w: nat, q: Which)
    requires w < |s.workers| && WorkerEnabled(s, s.workers[w]) && WorkerOk(s, s.workers[w])
    ensures var s' := WorkerApply(cfg, s, w);
      RealJobs(s', q) == RealJobs(s, q) && Sentinels(s', q) == Sentinels(s, q)
  {
    var s' := WorkerApply(cfg, s, w);
    if s.workers[w].Getting? {
      TakeCounts(s, s', w, q);
    } else if s.workers[w].Putting? {
      PutCounts(s, s', w, s.workers[w].job, q);
    } else {
      KeepCounts(s, s', w, s'.workers[w], q);
    }
  }

  lemma MainKeepsWorkers(cfg: Config, s: State)
    requires InputOrdered(s) && WorkersOk(cfg, s) && MainEnabled(cfg, s)
    ensures InputOrdered(MainApply(cfg, s)) && WorkersOk(cfg, MainApply(cfg, s))
  {
  }

  lemma CollectKeepsMain(cfg: Config, s: State, k: nat)
    requires MainOk(cfg, s) && s.main == Collecting(k) && (k < |cfg.jobs| ==> s.output != [])
    requires OutputOk(s, s.output) && OutputOk(s, s.collected)
    ensures var s' := Collect(cfg, s, k);
      MainOk(cfg, s') && OutputOk(s', s'.output) && OutputOk(s', s'.collected)
  {
    if k < |cfg.jobs| {
      assert (s.collected + [s.output[0]])[..|s.collected|] == s.collected;
    }
  }

  lemma MainKeepsMain(cfg: Config, s: State)
    requires MainOk(cfg, s) && WorkersOk(cfg, s) && MainEnabled(cfg, s)
    requires OutputOk(s, s.output) && OutputOk(s, s.collected)
    ensures var s' := MainApply(cfg, s);
      MainOk(cfg, s') && OutputOk(s', s'.output) && OutputOk(s', s'.collected)
  {
    if s.main.Collecting? {
      CollectKeepsMain(cfg, s, s.main.i);
    }
  }

  lemma WorkerKeepsInput(cfg: Config, s: State, w: nat)
    requires InputOrdered(s) && w < |s.workers| && WorkerEnabled(s, s.workers[w])
    ensures InputOrdered(WorkerApply(cfg, s, w))
  {
  }

  /** Taking the front of the input queue: what is left is real jobs before sentinels, as before. */
  lemma GettingKeepsWorkers(cfg: Config, s: State, w: nat)
    requires InputOrdered(s) && WorkersOk(cfg, s) && w < |s.workers| && s.workers[w].Getting? && s.input != []
    ensures WorkersOk(cfg, WorkerApply(cfg, s, w))
  {
    var s' := WorkerApply(cfg, s, w);
    assert s'.workers[w] == Holding(s.input[0]);
    assert forall i :: 0 <= i < |s'.input| ==> s'.input[i] == s.input[i + 1];
  }

  lemma BusyKeepsWorkers(cfg: Config, s: State, w: nat)
    requires WorkersOk(cfg, s) && w < |s.workers| && WorkerEnabled(s, s.workers[w]) && !s.workers[w].Getting?
    ensures WorkersOk(cfg, WorkerApply(cfg, s, w))
  {
  }

  lemma WorkerKeepsWorkers(cfg: Config, s: State, w: nat)
    requires InputOrdered(s) && WorkersOk(cfg, s) && w < |s.workers| && WorkerEnabled(s, s.workers[w])
    ensures InputOrdered(WorkerApply(cfg, s, w)) && WorkersOk(cfg, WorkerApply(cfg, s, w))
  {
    WorkerKeepsInput(cfg, s, w);
    if s.workers[w].Getting? {
      GettingKeepsWorkers(cfg, s, w);
    } else {
      BusyKeepsWorkers(cfg, s, w);
    }
  }

  lemma WorkerKeepsMain(cfg: Config, s: State, w: nat)
    requires MainOk(cfg, s) && w < |s.workers| && WorkerEnabled(s, s.workers[w]) && WorkerOk(s, s.workers[w])
    requires OutputOk(s, s.output) && OutputOk(s, s.collected)
    ensures var s' := WorkerApply(cfg, s, w);
      MainOk(cfg, s') && OutputOk(s', s'.output) && OutputOk(s', s'.collected)
  {
  }

  lemma StepKeepsInv(cfg: Config, s: State, a: Action)
    requires Inv(cfg, s) && Enabled(cfg, s, a)
    ensures Inv(cfg, Apply(cfg, s, a))
  {
    match a
    case Interrupt =>
      var s' := Apply(cfg, s, a);
      assert forall q :: Balanced(cfg, s, q) ==> Balanced(cfg, s', q);
    case MainStep =>
      forall q { MainStaysBalanced(cfg, s, q); }
      MainKeepsWorkers(cfg, s);
      MainKeepsMain(cfg, s);
    case WorkerStep(w) =>
      forall q ensures Balanced(cfg, WorkerApply(cfg, s, w), q) {
        assert Balanced(cfg, s, q);
        WorkerCounts(cfg, s, w, q);
      }
      WorkerKeepsWorkers(cfg, s, w);
      WorkerKeepsMain(cfg, s, w);
  }

  /** The invariant holds at every moment of every run, whatever the interleaving and the interrupt. */
  lemma {:induction false} EveryRunKeepsInv(cfg: Config, run: seq<Action>)
    requires IsRun(cfg, Init(cfg), run)
    ensures Inv(cfg, Run(cfg, Init(cfg), run))
    decreases |run|
  {
    if run == [] {
      InitInv(cfg);
    } else {
      EveryRunKeepsInv(cfg, run[..|run| - 1]);
      StepKeepsInv(cfg, Run(cfg, Init(cfg), run[..|run| - 1]), run[|run| - 1]);
    }
  }
}
