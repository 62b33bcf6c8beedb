/** Whole runs of the worker pool: they end, they end cleanly, and they hang only
    when there is nobody to do the work. */
module PoolRuns {
  import opened JobPool

  // ---------- the end of a run ----------

  lemma {:induction false} AllBusy(workers: seq<Worker>)
    requires forall k :: 0 <= k < |workers| ==> !workers[k].Idle?
    ensures Busy(workers) == |workers|
  {
    if workers == [] {
    } else {
      AllBusy(workers[1..]);
    }
  }

  lemma {:induction false} NotHeld(workers: seq<Worker>, o: Origin)
    requires forall k :: 0 <= k < |workers| ==> HeldBy(workers[k], o) == 0
    ensures Held(workers, o) == 0
  {
    if workers == [] {
    } else {
      NotHeld(workers[1..], o);
    }
  }

  lemma {:induction false} NotAmong(jobs: seq<Job>, o: Origin)
    requires forall k :: 0 <= k < |jobs| ==> jobs[k].origin != o
    ensures Among(jobs, o) == 0
  {
    if jobs == [] {
    } else {
      NotAmong(jobs[1..], o);
    }
  }

  /** When the main thread is done the queues are empty, every test job has come
      back exactly once, and the break jobs went one to each worker. */
  lemma DoneIsClean(c: Config, s: State)
    requires Inv(c, s) && Done(c, s)
    ensures s.input == [] && s.output == []
    ensures |s.workers| == c.processors && forall w :: 0 <= w < |s.workers| ==> s.workers[w].Exited?
    ensures forall i :: 0 <= i < |c.specs| ==> Among(s.collected, Test(i)) == 1
    ensures forall i :: 0 <= i < c.processors ==> Held(s.workers, Pill(i)) == 1
  {
    AllBusy(s.workers);
    forall i | 0 <= i < |c.specs| ensures Among(s.collected, Test(i)) == 1 {
      assert Occurrences(s, Test(i)) == 1;
      NotHeld(s.workers, Test(i));
    }
    forall i | 0 <= i < c.processors ensures Held(s.workers, Pill(i)) == 1 {
      assert Occurrences(s, Pill(i)) == 1;
      NotAmong(s.collected, Pill(i));
    }
  }

  // ---------- no deadlock ----------

  /** Nothing can happen any more except another interrupt, yet main is not done. */
  ghost predicate Deadlocked(c: Config, s: State) {
    !Done(c, s) && forall step :: Enabled(c, s, step) ==> step == Interrupt
  }

  lemma WorkerCanStep(c: Config, s: State, w: nat)
    requires w < |s.workers| && !s.workers[w].Exited? && (s.workers[w].Idle? ==> s.input != [])
    ensures !Deadlocked(c, s)
  {
    match s.workers[w]
    case Idle => assert Enabled(c, s, Get(w));
    case Got(_) => assert Enabled(c, s, Handle(w));
    case Finished(_) => assert Enabled(c, s, Put(w));
  }

  /** While a result is outstanding, it is in the output queue, or held, or still
      in the input queue with a worker left to take it. */
  lemma CollectProceeds(c: Config, s: State)
    requires Inv(c, s) && c.processors > 0
    requires s.spawned == c.processors && s.dispatched == |c.specs| && s.broken == c.processors
    requires |s.collected| < |c.specs|
    ensures !Deadlocked(c, s)
  {
    if s.output != [] {
      assert Enabled(c, s, Collect);
    } else if w :| 0 <= w < |s.workers| && (s.workers[w].Got? || s.workers[w].Finished?) {
      WorkerCanStep(c, s, w);
    } else if w :| 0 <= w < |s.workers| && s.workers[w].Idle? && s.input != [] {
      WorkerCanStep(c, s, w);
    } else {
      NobodyLeft(c, s);
    }
  }

  lemma NobodyLeft(c: Config, s: State)
    requires Inv(c, s) && c.processors > 0
    requires s.spawned == c.processors && s.dispatched == |c.specs| && s.broken == c.processors
    requires forall w :: 0 <= w < |s.workers| ==> s.workers[w].Exited? || (s.workers[w].Idle? && s.input == [])
    requires s.output == []
    ensures |s.collected| >= |c.specs|
  {
    BusyAtMost(s.workers);
    if s.input != [] {
      AllTookPills(s.workers);
    }
  }

  lemma {:induction false} BusyAtMost(workers: seq<Worker>)
    ensures Busy(workers) <= |workers|
  {
    if workers == [] {
    } else {
      BusyAtMost(workers[1..]);
    }
  }

  lemma {:induction false} AllTookPills(workers: seq<Worker>)
    requires forall k :: 0 <= k < |workers| ==> TookPill(workers[k])
    ensures PillsTaken(workers) == |workers|
  {
    if workers == [] {
    } else {
      AllTookPills(workers[1..]);
    }
  }

  lemma {:induction false} SomeNotTaken(workers: seq<Worker>, w: nat)
    requires w < |workers| && !TookPill(workers[w])
    ensures PillsTaken(workers) < |workers|
  {
    TakenAtMost(workers[1..]);
    if w == 0 {
    } else {
      SomeNotTaken(workers[1..], w - 1);
    }
  }

  lemma {:induction false} TakenAtMost(workers: seq<Worker>)
    ensures PillsTaken(workers) <= |workers|
  {
    if workers == [] {
    } else {
      TakenAtMost(workers[1..]);
    }
  }

  /** A worker that has not exited can step: a break job is still queued for it. */
  lemma JoinProceeds(c: Config, s: State)
    requires Inv(c, s)
    requires s.spawned == c.processors && s.dispatched == |c.specs| && s.broken == c.processors
    requires |s.collected| == |c.specs| && s.joined < c.processors
    ensures !Deadlocked(c, s)
  {
    var w := s.joined;
    if s.workers[w].Exited? {
      assert Enabled(c, s, Join);
    } else if s.workers[w].Idle? {
      SomeNotTaken(s.workers, w);
      assert s.input != [];
      WorkerCanStep(c, s, w);
    } else {
      WorkerCanStep(c, s, w);
    }
  }

  /** With at least one worker (or nothing to do) the pool never deadlocks. */
  lemma NoDeadlock(c: Config, s: State)
    requires Inv(c, s) && (c.processors > 0 || c.specs == [])
    ensures !Deadlocked(c, s)
  {
    if s.spawned < c.processors {
      assert Enabled(c, s, Spawn);
    } else if s.dispatched < |c.specs| {
      assert Enabled(c, s, Dispatch);
    } else if s.broken < c.processors {
      assert Enabled(c, s, Break);
    } else if |s.collected| < |c.specs| {
      CollectProceeds(c, s);
    } else if s.joined < c.processors {
      JoinProceeds(c, s);
    }
  }

  lemma {:induction false} RunsSnoc(c: Config, s: State, steps: seq<Step>, t: State, step: Step)
    requires Runs(c, s, steps, t) && Enabled(c, t, step)
    ensures Runs(c, s, steps + [step], Apply(c, t, step))
    decreases |steps|
  {
    if steps == [] {
      assert [step][1..] == [];
      assert Runs(c, Apply(c, s, step), [], Apply(c, t, step));
      assert steps + [step] == [step];
    } else {
      assert (steps + [step])[1..] == steps[1..] + [step];
      RunsSnoc(c, Apply(c, s, steps[0]), steps[1..], t, step);
    }
  }

  lemma {:induction false} DispatchWithoutWorkers(c: Config, k: nat) returns (s: State)
    requires c.processors == 0 && k <= |c.specs|
    ensures Reachable(c, s) && s.dispatched == k && s.workers == [] && s.output == [] && s.collected == []
    ensures s.spawned == s.broken == s.joined == 0
  {
    if k == 0 {
      s := Initial;
      assert Runs(c, Initial, [], s);
    } else {
      var t := DispatchWithoutWorkers(c, k - 1);
      var steps :| Runs(c, Initial, steps, t);
      RunsSnoc(c, Initial, steps, t, Dispatch);
      s := Apply(c, t, Dispatch);
    }
  }

  /** The only way to deadlock is to have jobs and no worker at all. */
  lemma DeadlocksIffNoWorkers(c: Config)
    ensures (exists s :: Reachable(c, s) && Deadlocked(c, s)) <==> c.processors == 0 && c.specs != []
  {
    if s :| Reachable(c, s) && Deadlocked(c, s) {
      ReachableInv(c, s);
      if c.processors > 0 || c.specs == [] { NoDeadlock(c, s); }
    }
    if c.processors == 0 && c.specs != [] {
      var s := DispatchWithoutWorkers(c, |c.specs|);
      assert Deadlocked(c, s);
    }
  }

  // ---------- every run is finite ----------

  ghost function WorkerLeft(w: Worker): nat {
    match w
    case Idle => 0
    case Got(_) => 3
    case Finished(_) => 2
    case Exited(_) => 0
  }

  ghost function WorkersLeft(workers: seq<Worker>): nat {
    if workers == [] then 0 else WorkerLeft(workers[0]) + WorkersLeft(workers[1..])
  }

  lemma {:induction false} WorkersLeftSnoc(workers: seq<Worker>)
    ensures WorkersLeft(workers + [Idle]) == WorkersLeft(workers)
  {
    if workers == [] {
      assert workers + [Idle] == [Idle];
    } else {
      assert (workers + [Idle])[1..] == workers[1..] + [Idle];
      WorkersLeftSnoc(workers[1..]);
    }
  }

  lemma {:induction false} WorkersLeftUpdate(workers: seq<Worker>, k: nat, w: Worker)
    requires k < |workers|
    ensures WorkersLeft(workers[k := w]) + WorkerLeft(workers[k]) == WorkersLeft(workers) + WorkerLeft(w)
  {
    if k > 0 {
      assert workers[k := w][1..] == workers[1..][k - 1 := w];
      WorkersLeftUpdate(workers[1..], k - 1, w);
    } else {
      assert workers[k := w][1..] == workers[1..];
    }
  }

  /** An upper bound on the number of steps still to come. */
  ghost function Left(c: Config, s: State): int {
    (c.processors - s.spawned) + 5 * (|c.specs| - s.dispatched) + 5 * (c.processors - s.broken)
      + (c.processors - s.joined) + 4 * |s.input| + WorkersLeft(s.workers) + |s.output|
      + (if s.threadExit then 0 else 1)
  }

  lemma StepsUsedUp(c: Config, s: State, step: Step)
    requires Enabled(c, s, step)
    ensures Left(c, Apply(c, s, step)) < Left(c, s)
  {
    if step == Spawn { WorkersLeftSnoc(s.workers); }
    if step.Get? || step.Handle? || step.Put? {
      WorkersLeftUpdate(s.workers, step.w, Apply(c, s, step).workers[step.w]);
    }
  }

  lemma {:induction false} RunsUseUp(c: Config, s: State, steps: seq<Step>, t: State)
    requires Inv(c, s) && Runs(c, s, steps, t)
    ensures |steps| <= Left(c, s)
    decreases |steps|
  {
    if steps == [] {
    } else {
      StepsUsedUp(c, s, steps[0]);
      StepKeepsInv(c, s, steps[0]);
      RunsUseUp(c, Apply(c, s, steps[0]), steps[1..], t);
    }
  }

  lemma LeftAtStart(c: Config)
    ensures Left(c, Initial) == 7 * c.processors + 5 * |c.specs| + 1
  {}

  /** No schedule is longer than this. */
  lemma RunsAreFinite(c: Config, steps: seq<Step>, t: State)
    requires Runs(c, Initial, steps, t)
    ensures |steps| <= 7 * c.processors + 5 * |c.specs| + 1
  {
    InitialInv(c);
    LeftAtStart(c);
    RunsUseUp(c, Initial, steps, t);
  }

  /** Whatever the schedule, a run that can go no further has ended properly. */
  lemma EveryScheduleEnds(c: Config, steps: seq<Step>, s: State)
    requires Runs(c, Initial, steps, s) && (c.processors > 0 || c.specs == [])
    requires forall step :: Enabled(c, s, step) ==> step == Interrupt
    ensures Done(c, s) && s.input == [] && s.output == []
    ensures |s.workers| == c.processors && forall w :: 0 <= w < |s.workers| ==> s.workers[w].Exited?
    ensures forall i :: 0 <= i < |c.specs| ==> Among(s.collected, Test(i)) == 1
    ensures forall i :: 0 <= i < c.processors ==> Held(s.workers, Pill(i)) == 1
    ensures forall k :: 0 <= k < |s.collected| ==> Result(c, s.threadExit, s.collected[k])
  {
    ReachableInv(c, s);
    NoDeadlock(c, s);
    DoneIsClean(c, s);
  }
}
