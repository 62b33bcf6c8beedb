/** The worker pool of test.py as a state machine over single queue, flag and thread operations. */
module JobPool {
  // The main thread starts the workers, dispatches every job, then one break job per
  // worker, receives one result per job and joins the workers. Each worker takes from
  // the FIFO input queue and puts to the output queue. The interrupt flag may rise at
  // any time.

  /** What is known of a job when it is dispatched. The return code that running
      it would give is a fixed property of the job. */
  datatype Spec = Spec(name: string, isSkip: bool, skipReason: string, outcome: int)

  datatype Config = Config(processors: nat, specs: seq<Spec>)

  /** Which put brought a job into the pool: the i-th test or the i-th break job. */
  datatype Origin = Test(i: nat) | Pill(i: nat)

  datatype Job = Job(origin: Origin, isBreak: bool, isSkip: bool, returncode: int, outcome: int)

  /** Idle: about to get. Got: holding a job just taken. Finished: about to put.
      Exited: returned from run after taking the break job. */
  datatype Worker = Idle | Got(job: Job) | Finished(job: Job) | Exited(job: Job)

  datatype State = State(
    spawned: nat, dispatched: nat, broken: nat, joined: nat,
    threadExit: bool, input: seq<Job>, output: seq<Job>, collected: seq<Job>, workers: seq<Worker>)

  datatype Step =
    | Spawn | Dispatch | Break | Collect | Join
    | Get(w: nat) | Handle(w: nat) | Put(w: nat)
    | Interrupt

  function NewTest(c: Config, i: nat): Job
    requires i < |c.specs|
  {
    Job(Test(i), false, c.specs[i].isSkip, 0, c.specs[i].outcome)
  }

  function BreakJob(i: nat): Job {
    Job(Pill(i), true, false, 0, 0)
  }

  /** What a worker makes of a job that is not a break job. */
  function Process(threadExit: bool, job: Job): Job {
    if threadExit then job.(isBreak := true)
    else if job.isSkip then job
    else job.(returncode := job.outcome)
  }

  const Initial := State(0, 0, 0, 0, false, [], [], [], [])

  predicate Enabled(c: Config, s: State, step: Step) {
    var n, jobs := c.processors, |c.specs|;
    match step
    case Spawn => s.spawned < n
    case Dispatch => s.spawned == n && s.dispatched < jobs
    case Break => s.spawned == n && s.dispatched == jobs && s.broken < n
    case Collect =>
      s.spawned == n && s.dispatched == jobs && s.broken == n && |s.collected| < jobs && s.output != []
    case Join =>
      && s.spawned == n && s.dispatched == jobs && s.broken == n && |s.collected| == jobs
      && s.joined < n && s.joined < |s.workers| && s.workers[s.joined].Exited?
    case Get(w) => w < |s.workers| && s.workers[w].Idle? && s.input != []
    case Handle(w) => w < |s.workers| && s.workers[w].Got?
    case Put(w) => w < |s.workers| && s.workers[w].Finished?
    case Interrupt => !s.threadExit
  }

  function Apply(c: Config, s: State, step: Step): State
    requires Enabled(c, s, step)
  {
    match step
    case Spawn => s.(spawned := s.spawned + 1, workers := s.workers + [Idle])
    case Dispatch => s.(dispatched := s.dispatched + 1, input := s.input + [NewTest(c, s.dispatched)])
    case Break => s.(broken := s.broken + 1, input := s.input + [BreakJob(s.broken)])
    case Collect => s.(output := s.output[1..], collected := s.collected + [s.output[0]])
    case Join => s.(joined := s.joined + 1)
    case Get(w) => s.(input := s.input[1..], workers := s.workers[w := Got(s.input[0])])
    case Handle(w) =>
      var job := s.workers[w].job;
      s.(workers := s.workers[w := if job.isBreak then Exited(job) else Finished(Process(s.threadExit, job))])
    case Put(w) => s.(output := s.output + [s.workers[w].job], workers := s.workers[w := Idle])
    case Interrupt => s.(threadExit := true)
  }

  /** The main thread has joined every worker. */
  predicate Done(c: Config, s: State) {
    && s.spawned == c.processors && s.dispatched == |c.specs| && s.broken == c.processors
    && |s.collected| == |c.specs| && s.joined == c.processors
  }

  /** steps can be taken one after the other from s and end in t. */
  ghost predicate Runs(c: Config, s: State, steps: seq<Step>, t: State)
    decreases |steps|
  {
    if steps == [] then s == t
    else Enabled(c, s, steps[0]) && Runs(c, Apply(c, s, steps[0]), steps[1..], t)
  }

  ghost predicate Reachable(c: Config, s: State) {
    exists steps :: Runs(c, Initial, steps, s)
  }

  // ---------- the invariant ----------

  ghost function Among(jobs: seq<Job>, o: Origin): nat {
    if jobs == [] then 0 else (if jobs[0].origin == o then 1 else 0) + Among(jobs[1..], o)
  }

  ghost function HeldBy(w: Worker, o: Origin): nat {
    if !w.Idle? && w.job.origin == o then 1 else 0
  }

  ghost function Held(workers: seq<Worker>, o: Origin): nat {
    if workers == [] then 0 else HeldBy(workers[0], o) + Held(workers[1..], o)
  }

  ghost function Busy(workers: seq<Worker>): nat {
    if workers == [] then 0 else (if workers[0].Idle? then 0 else 1) + Busy(workers[1..])
  }

  ghost function PillsAmong(jobs: seq<Job>): nat {
    if jobs == [] then 0 else (if jobs[0].origin.Pill? then 1 else 0) + PillsAmong(jobs[1..])
  }

  ghost predicate TookPill(w: Worker) {
    !w.Idle? && w.job.origin.Pill?
  }

  ghost function PillsTaken(workers: seq<Worker>): nat {
    if workers == [] then 0 else (if TookPill(workers[0]) then 1 else 0) + PillsTaken(workers[1..])
  }

  /** How often the job with origin o occurs anywhere in the pool. */
  ghost function Occurrences(s: State, o: Origin): nat {
    Among(s.input, o) + Held(s.workers, o) + Among(s.output, o) + Among(s.collected, o)
  }

  ghost predicate WasPut(s: State, o: Origin) {
    match o
    case Test(i) => i < s.dispatched
    case Pill(i) => i < s.broken
  }

  /** Every job that was put is in exactly one place, and nothing else is anywhere. */
  ghost predicate Conserved(s: State) {
    && (forall o {:trigger Occurrences(s, o)} :: Occurrences(s, o) == if WasPut(s, o) then 1 else 0)
    && |s.input| + Busy(s.workers) + |s.output| + |s.collected| == s.dispatched + s.broken
    && PillsAmong(s.input) + PillsTaken(s.workers) == s.broken
  }

  /** A job as it was put into the input queue. */
  ghost predicate Fresh(c: Config, job: Job) {
    match job.origin
    case Test(i) => i < |c.specs| && job == NewTest(c, i)
    case Pill(i) => job == BreakJob(i)
  }

  /** A job as a worker puts it into the output queue: marked as a break, with the return
      code it was dispatched with, or with the spec's outcome unless it is to be skipped. */
  ghost predicate Result(c: Config, interrupted: bool, job: Job) {
    && job.origin.Test? && job.origin.i < |c.specs|
    && job.isSkip == c.specs[job.origin.i].isSkip && job.outcome == c.specs[job.origin.i].outcome
    && (job.isBreak ==> interrupted)
    && job.returncode == if job.isBreak || job.isSkip then 0 else c.specs[job.origin.i].outcome
  }

  /** What becomes of a job that a worker holds when the flag is up, or down: a break job
      ends the worker; a test goes back as a break, untouched, or with its outcome. */
  ghost predicate HandledAs(c: Config, flag: bool, job: Job, w: Worker) {
    match job.origin
    case Pill(_) => w == Exited(job)
    case Test(i) =>
      && i < |c.specs| && w.Finished? && w.job.origin == Test(i)
      && w.job.isSkip == c.specs[i].isSkip && w.job.outcome == c.specs[i].outcome
      && w.job.isBreak == flag
      && w.job.returncode == if flag || c.specs[i].isSkip then 0 else c.specs[i].outcome
  }

  lemma HandleIs(c: Config, s: State, w: nat)
    requires Inv(c, s) && Enabled(c, s, Handle(w))
    ensures var t := Apply(c, s, Handle(w));
      && t == s.(workers := s.workers[w := t.workers[w]])
      && HandledAs(c, s.threadExit, s.workers[w].job, t.workers[w])
  {
    assert GoodWorker(c, s.threadExit, s.workers[w]);
  }

  ghost predicate GoodWorker(c: Config, interrupted: bool, w: Worker) {
    match w
    case Idle => true
    case Got(job) => Fresh(c, job)
    case Finished(job) => Result(c, interrupted, job)
    case Exited(job) => job.origin.Pill?
  }

  /** The main thread goes through its phases in order. */
  ghost predicate Phases(c: Config, s: State) {
    && |s.workers| == s.spawned <= c.processors && s.dispatched <= |c.specs| && s.broken <= c.processors
    && |s.collected| <= |c.specs| && s.joined <= c.processors
    && (s.dispatched > 0 ==> s.spawned == c.processors)
    && (s.broken > 0 ==> s.dispatched == |c.specs| && s.spawned == c.processors)
    && (s.collected != [] ==> s.broken == c.processors && s.dispatched == |c.specs|)
    && (s.joined > 0 ==> |s.collected| == |c.specs|)
    && s.joined <= |s.workers| && (forall k :: 0 <= k < s.joined ==> s.workers[k].Exited?)
  }

  ghost predicate GoodJobs(c: Config, s: State) {
    && (forall k :: 0 <= k < |s.input| ==> Fresh(c, s.input[k]))
    && (forall k :: 0 <= k < |s.output| ==> Result(c, s.threadExit, s.output[k]))
    && (forall k :: 0 <= k < |s.collected| ==> Result(c, s.threadExit, s.collected[k]))
    && (forall k :: 0 <= k < |s.workers| ==> GoodWorker(c, s.threadExit, s.workers[k]))
  }

  /** Break jobs are a suffix of the input queue, and none is taken before the
      last test job is. */
  ghost predicate PillsLast(s: State) {
    && (forall i, j :: 0 <= i < j < |s.input| && s.input[i].origin.Pill? ==> s.input[j].origin.Pill?)
    && (forall w, j :: 0 <= w < |s.workers| && 0 <= j < |s.input| && TookPill(s.workers[w]) ==> s.input[j].origin.Pill?)
  }

  ghost predicate Inv(c: Config, s: State) {
    && Phases(c, s) && GoodJobs(c, s) && PillsLast(s)
    && Conserved(s)
  }

  // ---------- bookkeeping lemmas ----------

  lemma {:induction false} AmongSnoc(jobs: seq<Job>, job: Job, o: Origin)
    ensures Among(jobs + [job], o) == Among(jobs, o) + (if job.origin == o then 1 else 0)
    ensures PillsAmong(jobs + [job]) == PillsAmong(jobs) + (if job.origin.Pill? then 1 else 0)
  {
    if jobs == [] {
      assert jobs + [job] == [job];
    } else {
      assert (jobs + [job])[1..] == jobs[1..] + [job];
      AmongSnoc(jobs[1..], job, o);
    }
  }

  lemma {:induction false} AmongMember(jobs: seq<Job>, k: nat)
    requires k < |jobs|
    ensures Among(jobs, jobs[k].origin) > 0
  {
    if k == 0 {
    } else {
      AmongMember(jobs[1..], k - 1);
    }
  }

  lemma {:induction false} HeldSnocIdle(workers: seq<Worker>, o: Origin)
    ensures Held(workers + [Idle], o) == Held(workers, o) && Busy(workers + [Idle]) == Busy(workers)
    ensures PillsTaken(workers + [Idle]) == PillsTaken(workers)
  {
    if workers == [] {
      assert workers + [Idle] == [Idle];
    } else {
      assert (workers + [Idle])[1..] == workers[1..] + [Idle];
      HeldSnocIdle(workers[1..], o);
    }
  }

  lemma {:induction false} HeldUpdate(workers: seq<Worker>, k: nat, w: Worker, o: Origin)
    requires k < |workers|
    ensures Held(workers[k := w], o) + HeldBy(workers[k], o) == Held(workers, o) + HeldBy(w, o)
    ensures Busy(workers[k := w]) + (if workers[k].Idle? then 0 else 1) == Busy(workers) + (if w.Idle? then 0 else 1)
    ensures PillsTaken(workers[k := w]) + (if TookPill(workers[k]) then 1 else 0)
         == PillsTaken(workers) + (if TookPill(w) then 1 else 0)
  {
    if k > 0 {
      assert workers[k := w][1..] == workers[1..][k - 1 := w];
      HeldUpdate(workers[1..], k - 1, w, o);
    } else {
      assert workers[k := w][1..] == workers[1..];
    }
  }

  lemma {:induction false} HeldMember(workers: seq<Worker>, k: nat)
    requires k < |workers| && !workers[k].Idle?
    ensures Held(workers, workers[k].job.origin) > 0
  {
    if k == 0 {
    } else {
      HeldMember(workers[1..], k - 1);
    }
  }

  // ---------- every step keeps the invariant ----------

  /** Between s and t at most one job moved, or one that was not there was put. */
  ghost predicate Moves(s: State, t: State, o: Origin) {
    && Occurrences(t, o) + (if WasPut(s, o) then 1 else 0) == Occurrences(s, o) + (if WasPut(t, o) then 1 else 0)
    && |t.input| + Busy(t.workers) + |t.output| + |t.collected| + s.dispatched + s.broken
       == |s.input| + Busy(s.workers) + |s.output| + |s.collected| + t.dispatched + t.broken
    && PillsAmong(t.input) + PillsTaken(t.workers) + s.broken == PillsAmong(s.input) + PillsTaken(s.workers) + t.broken
  }

  lemma MainStepMoves(c: Config, s: State, step: Step, o: Origin)
    requires Phases(c, s) && Enabled(c, s, step) && !step.Get? && !step.Handle? && !step.Put?
    ensures Moves(s, Apply(c, s, step), o)
  {
    match step
    case Spawn => HeldSnocIdle(s.workers, o);
    case Dispatch => AmongSnoc(s.input, NewTest(c, s.dispatched), o);
    case Break => AmongSnoc(s.input, BreakJob(s.broken), o);
    case Collect => AmongSnoc(s.collected, s.output[0], o);
    case Join =>
    case Interrupt =>
  }

  lemma WorkerStepMoves(c: Config, s: State, step: Step, o: Origin)
    requires Enabled(c, s, step) && (step.Get? || step.Handle? || step.Put?)
    requires GoodWorker(c, s.threadExit, s.workers[step.w])
    ensures Moves(s, Apply(c, s, step), o)
  {
    HeldUpdate(s.workers, step.w, Apply(c, s, step).workers[step.w], o);
    if step.Put? { AmongSnoc(s.output, s.workers[step.w].job, o); }
  }

  lemma StepMoves(c: Config, s: State, step: Step, o: Origin)
    requires Phases(c, s) && GoodJobs(c, s) && Enabled(c, s, step)
    ensures Moves(s, Apply(c, s, step), o)
  {
    if step.Get? || step.Handle? || step.Put? {
      WorkerStepMoves(c, s, step, o);
    } else {
      MainStepMoves(c, s, step, o);
    }
  }

  lemma ConservedKept(c: Config, s: State, step: Step)
    requires Phases(c, s) && GoodJobs(c, s) && Conserved(s) && Enabled(c, s, step)
    ensures Conserved(Apply(c, s, step))
  {
    var t := Apply(c, s, step);
    StepMoves(c, s, step, Test(0));
    forall o ensures Occurrences(t, o) == if WasPut(t, o) then 1 else 0 {
      StepMoves(c, s, step, o);
    }
  }

  lemma GoodJobsKept(c: Config, s: State, step: Step)
    requires GoodJobs(c, s) && Enabled(c, s, step)
    ensures GoodJobs(c, Apply(c, s, step))
  {}

  lemma PhasesKept(c: Config, s: State, step: Step)
    requires Phases(c, s) && Enabled(c, s, step)
    ensures Phases(c, Apply(c, s, step))
  {}

  /** While no break job has been put there is none anywhere. */
  lemma NoPillsYet(s: State)
    requires s.broken == 0 && Conserved(s)
    ensures forall k :: 0 <= k < |s.input| ==> s.input[k].origin.Test?
    ensures forall w :: 0 <= w < |s.workers| ==> !TookPill(s.workers[w])
  {
    forall k | 0 <= k < |s.input| ensures s.input[k].origin.Test? {
      AmongMember(s.input, k);
      assert Occurrences(s, s.input[k].origin) > 0;
    }
    forall w | 0 <= w < |s.workers| && !s.workers[w].Idle? ensures !TookPill(s.workers[w]) {
      HeldMember(s.workers, w);
      assert Occurrences(s, s.workers[w].job.origin) > 0;
    }
  }

  /** A step that puts no test leaves break jobs last. */
  lemma PillsStayLast(c: Config, s: State, step: Step)
    requires PillsLast(s) && Enabled(c, s, step) && step != Dispatch
    ensures PillsLast(Apply(c, s, step))
  {
    var t := Apply(c, s, step);
    forall w, j | 0 <= w < |t.workers| && 0 <= j < |t.input| && TookPill(t.workers[w])
      ensures t.input[j].origin.Pill?
    {
      if step.Get? {
        if w == step.w { assert s.input[0].origin.Pill?; } else { assert TookPill(s.workers[w]); }
      } else if j < |s.input| {
        assert TookPill(s.workers[w]);
      }
    }
  }

  /** Every step does: when a test is put there is no break job yet. */
  lemma PillsLastKept(c: Config, s: State, step: Step)
    requires Phases(c, s) && Conserved(s) && PillsLast(s) && Enabled(c, s, step)
    ensures PillsLast(Apply(c, s, step))
  {
    if step == Dispatch { NoPillsYet(s); } else { PillsStayLast(c, s, step); }
  }

  lemma StepKeepsInv(c: Config, s: State, step: Step)
    requires Inv(c, s) && Enabled(c, s, step)
    ensures Inv(c, Apply(c, s, step))
  {
    PhasesKept(c, s, step);
    GoodJobsKept(c, s, step);
    ConservedKept(c, s, step);
    PillsLastKept(c, s, step);
  }

  lemma {:induction false} RunsKeepInv(c: Config, s: State, steps: seq<Step>, t: State)
    requires Inv(c, s) && Runs(c, s, steps, t)
    ensures Inv(c, t)
    decreases |steps|
  {
    if steps == [] {
    } else {
      StepKeepsInv(c, s, steps[0]);
      RunsKeepInv(c, Apply(c, s, steps[0]), steps[1..], t);
    }
  }

  lemma InitialInv(c: Config)
    ensures Inv(c, Initial)
  {
    forall o ensures Occurrences(Initial, o) == 0 {}
  }

  lemma ReachableInv(c: Config, s: State)
    requires Reachable(c, s)
    ensures Inv(c, s)
  {
    var steps :| Runs(c, Initial, steps, s);
    InitialInv(c);
    RunsKeepInv(c, Initial, steps, s);
  }

  // ---------- the shared objects, updated in place ----------

  /** The queues, threads and flag that the steps update. Each method is one
      atomic action of the main thread, of worker w, or of the signal handler. */
  class Pool {
    const config: Config
    var inputQueue: seq<Job>
    var outputQueue: seq<Job>
    var threads: seq<Worker>
    var threadExit: bool
    var dispatched: nat
    var broken: nat
    var joined: nat
    var received: seq<Job>

    ghost function View(): State
      reads this
    {
      State(|threads|, dispatched, broken, joined, threadExit, inputQueue, outputQueue, received, threads)
    }

    ghost predicate Valid()
      reads this
    {
      Inv(config, View())
    }

    constructor (config: Config)
      ensures Valid() && this.config == config && View() == Initial
    {
      this.config := config;
      inputQueue, outputQueue, threads, received := [], [], [], [];
      threadExit, dispatched, broken, joined := false, 0, 0, 0;
      new;
      assert View() == Initial;
      InitialInv(config);
    }

    method StartThread()
      requires Valid() && Enabled(config, View(), Spawn)
      modifies this
      ensures Valid() && View() == Apply(config, old(View()), Spawn)
      ensures threads == old(threads) + [Idle]
      ensures unchanged(this`inputQueue, this`outputQueue, this`threadExit, this`dispatched)
      ensures unchanged(this`broken, this`joined, this`received)
    {
      StepKeepsInv(config, View(), Spawn);
      threads := threads + [Idle];
    }

    method PutJob()
      requires Valid() && Enabled(config, View(), Dispatch)
      modifies this
      ensures Valid() && View() == Apply(config, old(View()), Dispatch)
      ensures var spec := config.specs[old(dispatched)];
        inputQueue == old(inputQueue) + [Job(Test(old(dispatched)), false, spec.isSkip, 0, spec.outcome)]
      ensures dispatched == old(dispatched) + 1
      ensures unchanged(this`outputQueue, this`threads, this`threadExit, this`broken, this`joined, this`received)
    {
      StepKeepsInv(config, View(), Dispatch);
      inputQueue := inputQueue + [NewTest(config, dispatched)];
      dispatched := dispatched + 1;
    }

    method PutBreak()
      requires Valid() && Enabled(config, View(), Break)
      modifies this
      ensures Valid() && View() == Apply(config, old(View()), Break)
      ensures inputQueue == old(inputQueue) + [Job(Pill(old(broken)), true, false, 0, 0)]
      ensures broken == old(broken) + 1
      ensures unchanged(this`outputQueue, this`threads, this`threadExit, this`dispatched, this`joined, this`received)
    {
      StepKeepsInv(config, View(), Break);
      inputQueue := inputQueue + [BreakJob(broken)];
      broken := broken + 1;
    }

    /** output_queue.get() in the main thread: it blocks while the queue is empty. */
    method Receive() returns (job: Job)
      requires Valid() && Enabled(config, View(), Collect)
      modifies this
      ensures Valid() && View() == Apply(config, old(View()), Collect)
      ensures [job] + outputQueue == old(outputQueue) && received == old(received) + [job]
      ensures unchanged(this`inputQueue, this`threads, this`threadExit, this`dispatched, this`broken, this`joined)
      ensures job.origin.Test?
    {
      StepKeepsInv(config, View(), Collect);
      job := outputQueue[0];
      outputQueue := outputQueue[1..];
      received := received + [job];
    }

    method JoinThread()
      requires Valid() && Enabled(config, View(), Join)
      modifies this
      ensures Valid() && View() == Apply(config, old(View()), Join)
      ensures joined == old(joined) + 1 && threads[old(joined)].Exited?
      ensures unchanged(this`inputQueue, this`outputQueue, this`threads, this`threadExit)
      ensures unchanged(this`dispatched, this`broken, this`received)
    {
      StepKeepsInv(config, View(), Join);
      joined := joined + 1;
    }

    method WorkerGet(w: nat)
      requires Valid() && Enabled(config, View(), Get(w))
      modifies this
      ensures Valid() && View() == Apply(config, old(View()), Get(w))
      ensures inputQueue == old(inputQueue)[1..] && threads == old(threads)[w := Got(old(inputQueue)[0])]
      ensures unchanged(this`outputQueue, this`threadExit, this`dispatched, this`broken, this`joined, this`received)
    {
      StepKeepsInv(config, View(), Get(w));
      threads := threads[w := Got(inputQueue[0])];
      inputQueue := inputQueue[1..];
    }

    /** The body of the worker loop between get and put. */
    method WorkerHandle(w: nat)
      requires Valid() && Enabled(config, View(), Handle(w))
      modifies this
      ensures Valid() && View() == Apply(config, old(View()), Handle(w))
      ensures HandledAs(config, threadExit, old(threads)[w].job, threads[w])
      ensures threads == old(threads)[w := threads[w]]
      ensures unchanged(this`inputQueue, this`outputQueue, this`threadExit, this`dispatched)
      ensures unchanged(this`broken, this`joined, this`received)
    {
      StepKeepsInv(config, View(), Handle(w));
      HandleIs(config, View(), w);
      var job := threads[w].job;
      if job.isBreak {
        threads := threads[w := Exited(job)];
        return;
      }
      if threadExit {
        job := job.(isBreak := true);
      } else if !job.isSkip {
        job := job.(returncode := job.outcome);
      }
      threads := threads[w := Finished(job)];
    }

    method WorkerPut(w: nat)
      requires Valid() && Enabled(config, View(), Put(w))
      modifies this
      ensures Valid() && View() == Apply(config, old(View()), Put(w))
      ensures old(threads)[w].Finished? && outputQueue == old(outputQueue) + [old(threads)[w].job]
      ensures threads == old(threads)[w := Idle]
      ensures unchanged(this`inputQueue, this`threadExit, this`dispatched, this`broken, this`joined, this`received)
    {
      StepKeepsInv(config, View(), Put(w));
      outputQueue := outputQueue + [threads[w].job];
      threads := threads[w := Idle];
    }

    method Sigint()
      requires Valid() && Enabled(config, View(), Interrupt)
      modifies this
      ensures Valid() && View() == Apply(config, old(View()), Interrupt)
      ensures threadExit
      ensures unchanged(this`inputQueue, this`outputQueue, this`threads, this`dispatched)
      ensures unchanged(this`broken, this`joined, this`received)
    {
      StepKeepsInv(config, View(), Interrupt);
      threadExit := true;
    }
  }
}
