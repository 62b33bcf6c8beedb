/** Interrupted runs of the worker pool: which jobs come back marked, and the exit status. */
module PoolInterrupts {
  import opened JobPool
  import opened PoolRuns
  import opened JobTally

  /** A worker has dealt with the job: it is about to be put, was put, or was collected. */
  ghost predicate Settled(s: State, o: Origin) {
    || (exists k :: 0 <= k < |s.output| && s.output[k].origin == o)
    || (exists k :: 0 <= k < |s.collected| && s.collected[k].origin == o)
    || (exists w :: 0 <= w < |s.workers| && s.workers[w].Finished? && s.workers[w].job.origin == o)
  }

  lemma {:induction false} TwoHeld(workers: seq<Worker>, v: nat, w: nat)
    requires v < w < |workers| && !workers[v].Idle? && !workers[w].Idle?
    requires workers[v].job.origin == workers[w].job.origin
    ensures Held(workers, workers[v].job.origin) >= 2
  {
    if v == 0 {
      HeldMember(workers[1..], w - 1);
    } else {
      TwoHeld(workers[1..], v - 1, w - 1);
    }
  }

  /** Settled jobs take up one of the places counted by Occurrences. */
  lemma SettledOccurs(s: State, o: Origin)
    requires Settled(s, o)
    ensures Held(s.workers, o) + Among(s.output, o) + Among(s.collected, o) > 0
  {
    if k :| 0 <= k < |s.output| && s.output[k].origin == o {
      AmongMember(s.output, k);
    } else if k :| 0 <= k < |s.collected| && s.collected[k].origin == o {
      AmongMember(s.collected, k);
    } else {
      var w :| 0 <= w < |s.workers| && s.workers[w].Finished? && s.workers[w].job.origin == o;
      HeldMember(s.workers, w);
    }
  }

  lemma NotYetPut(s: State, o: Origin)
    requires Conserved(s) && !WasPut(s, o)
    ensures !Settled(s, o)
  {
    assert Occurrences(s, o) == 0;
    if Settled(s, o) { SettledOccurs(s, o); }
  }

  lemma QueuedIsNotSettled(s: State, k: nat)
    requires Conserved(s) && k < |s.input|
    ensures !Settled(s, s.input[k].origin)
  {
    var o := s.input[k].origin;
    AmongMember(s.input, k);
    assert Occurrences(s, o) <= 1;
    if Settled(s, o) { SettledOccurs(s, o); }
  }

  lemma HeldIsNotSettled(s: State, w: nat)
    requires Conserved(s) && w < |s.workers| && s.workers[w].Got?
    ensures !Settled(s, s.workers[w].job.origin)
  {
    var o := s.workers[w].job.origin;
    HeldMember(s.workers, w);
    assert Occurrences(s, o) <= 1;
    if Settled(s, o) {
      if k :| 0 <= k < |s.output| && s.output[k].origin == o {
        AmongMember(s.output, k);
      } else if k :| 0 <= k < |s.collected| && s.collected[k].origin == o {
        AmongMember(s.collected, k);
      } else {
        var v :| 0 <= v < |s.workers| && s.workers[v].Finished? && s.workers[v].job.origin == o;
        TwoHeld(s.workers, if v < w then v else w, if v < w then w else v);
      }
    }
  }

  // ---------- after the flag has gone up in state s0 ----------

  ghost predicate Marked(s0: State, job: Job) {
    job.isBreak <==> !Settled(s0, job.origin)
  }

  ghost predicate MarkedWorker(s0: State, w: Worker) {
    match w
    case Got(job) => job.origin.Test? ==> !Settled(s0, job.origin)
    case Finished(job) => Marked(s0, job)
    case _ => true
  }

  /** What had been settled in s0 has no mark; everything else is unsettled or marked. */
  ghost predicate Marking(s0: State, s: State) {
    && s.threadExit
    && (forall i {:trigger Settled(s0, Test(i))} :: i >= s.dispatched ==> !Settled(s0, Test(i)))
    && (forall k :: 0 <= k < |s.input| && s.input[k].origin.Test? ==> !Settled(s0, s.input[k].origin))
    && (forall w :: 0 <= w < |s.workers| ==> MarkedWorker(s0, s.workers[w]))
    && (forall k :: 0 <= k < |s.output| ==> Marked(s0, s.output[k]))
    && (forall k :: 0 <= k < |s.collected| ==> Marked(s0, s.collected[k]))
  }

  lemma InterruptMarks(c: Config, s: State)
    requires Inv(c, s) && Enabled(c, s, Interrupt)
    ensures Marking(s, Apply(c, s, Interrupt))
  {
    forall i {:trigger Settled(s, Test(i))} | i >= s.dispatched ensures !Settled(s, Test(i)) { NotYetPut(s, Test(i)); }
    forall k | 0 <= k < |s.input| ensures !Settled(s, s.input[k].origin) { QueuedIsNotSettled(s, k); }
    forall w | 0 <= w < |s.workers| ensures MarkedWorker(s, s.workers[w]) {
      if s.workers[w].Got? {
        HeldIsNotSettled(s, w);
      } else if s.workers[w].Finished? {
        assert Result(c, false, s.workers[w].job);
      }
    }
    forall k | 0 <= k < |s.output| ensures Marked(s, s.output[k]) { assert Result(c, false, s.output[k]); }
    forall k | 0 <= k < |s.collected| ensures Marked(s, s.collected[k]) { assert Result(c, false, s.collected[k]); }
  }

  lemma StepKeepsMarking(c: Config, s0: State, s: State, step: Step)
    requires Inv(c, s) && Marking(s0, s) && Enabled(c, s, step)
    ensures Marking(s0, Apply(c, s, step))
  {
    if step.Handle? { HandleIs(c, s, step.w); }
  }

  lemma {:induction false} RunKeepsMarking(c: Config, s0: State, s: State, steps: seq<Step>, t: State)
    requires Inv(c, s) && Marking(s0, s) && Runs(c, s, steps, t)
    ensures Inv(c, t) && Marking(s0, t)
    decreases |steps|
  {
    if steps == [] {
    } else {
      StepKeepsMarking(c, s0, s, steps[0]);
      StepKeepsInv(c, s, steps[0]);
      RunKeepsMarking(c, s0, Apply(c, s, steps[0]), steps[1..], t);
    }
  }

  /** The run before comes to s, where the flag goes up, and the run after ends in t. */
  ghost predicate InterruptedRun(c: Config, before: seq<Step>, s: State, after: seq<Step>, t: State) {
    Runs(c, Initial, before, s) && Enabled(c, s, Interrupt) && Runs(c, Apply(c, s, Interrupt), after, t)
  }

  lemma MarkedAtTheEnd(c: Config, before: seq<Step>, s: State, after: seq<Step>, t: State, k: nat)
    requires InterruptedRun(c, before, s, after, t) && k < |t.collected|
    ensures Marked(s, t.collected[k]) && Result(c, true, t.collected[k])
  {
    ReachableInv(c, s);
    InterruptMarks(c, s);
    StepKeepsInv(c, s, Interrupt);
    RunKeepsMarking(c, s, Apply(c, s, Interrupt), after, t);
  }

  /** What is collected after an interrupt: the tests that were settled when the flag went
      up, with their results, and all others marked as breaks and not run. */
  lemma CollectedAfterInterrupt(c: Config, before: seq<Step>, s: State, after: seq<Step>, t: State, k: nat)
    requires InterruptedRun(c, before, s, after, t) && k < |t.collected|
    ensures var job := t.collected[k];
      && job.origin.Test? && job.origin.i < |c.specs|
      && (VerdictOf(job) == Interrupted <==> !Settled(s, job.origin))
      && job.isBreak == !Settled(s, job.origin)
      && job.isSkip == c.specs[job.origin.i].isSkip
      && job.returncode
        == if !Settled(s, job.origin) || c.specs[job.origin.i].isSkip then 0 else c.specs[job.origin.i].outcome
  {
    MarkedAtTheEnd(c, before, s, after, t, k);
  }

  lemma AllCollected(c: Config, t: State, i: nat) returns (k: nat)
    requires Inv(c, t) && Done(c, t) && i < |c.specs|
    ensures k < |t.collected| && t.collected[k].origin == Test(i)
  {
    DoneIsClean(c, t);
    k := FindOrigin(t.collected, Test(i));
  }

  /** The test had been dealt with in s, and is to be skipped or returned 0. */
  ghost predicate SettledWell(c: Config, s: State, i: nat)
    requires i < |c.specs|
  {
    Settled(s, Test(i)) && (c.specs[i].isSkip || c.specs[i].outcome == 0)
  }

  ghost predicate PassedOver(c: Config, job: Job) {
    && job.origin.Test? && job.origin.i < |c.specs|
    && !job.isBreak && (c.specs[job.origin.i].isSkip || c.specs[job.origin.i].outcome == 0)
  }

  lemma StatusByJobs(c: Config, t: State)
    requires Inv(c, t) && Done(c, t)
    ensures Known(c, t.collected)
    ensures ExitStatus(TallyOf(c, t.collected), |c.specs|) == 0 <==>
      forall k :: 0 <= k < |t.collected| ==> PassedOver(c, t.collected[k])
  {
    StatusOfRun(c, t);
  }

  lemma PassedOverAll(c: Config, s: State, t: State)
    requires Inv(c, t) && Done(c, t)
    requires forall k :: 0 <= k < |t.collected| ==> Marked(s, t.collected[k]) && Result(c, true, t.collected[k])
    ensures (forall k :: 0 <= k < |t.collected| ==> PassedOver(c, t.collected[k])) <==>
      forall i :: 0 <= i < |c.specs| ==> SettledWell(c, s, i)
  {
    forall i | 0 <= i < |c.specs| && forall k :: 0 <= k < |t.collected| ==> PassedOver(c, t.collected[k])
      ensures SettledWell(c, s, i)
    {
      var k := AllCollected(c, t, i);
      assert Marked(s, t.collected[k]) && PassedOver(c, t.collected[k]);
    }
    forall k | 0 <= k < |t.collected| && forall i :: 0 <= i < |c.specs| ==> SettledWell(c, s, i)
      ensures PassedOver(c, t.collected[k])
    {
      assert Marked(s, t.collected[k]) && SettledWell(c, s, t.collected[k].origin.i);
    }
  }

  /** The exit status of an interrupted run is 0 exactly when every test had been settled
      before, and is to be skipped or returned 0. */
  lemma StatusAfterInterrupt(c: Config, before: seq<Step>, s: State, after: seq<Step>, t: State)
    requires InterruptedRun(c, before, s, after, t) && Done(c, t)
    ensures Known(c, t.collected)
    ensures ExitStatus(TallyOf(c, t.collected), |c.specs|) == 0 <==>
      forall i :: 0 <= i < |c.specs| ==> SettledWell(c, s, i)
  {
    RunsThrough(c, before, s, after, t);
    forall k | 0 <= k < |t.collected| ensures Marked(s, t.collected[k]) && Result(c, true, t.collected[k]) {
      MarkedAtTheEnd(c, before, s, after, t, k);
    }
    StatusByJobs(c, t);
    PassedOverAll(c, s, t);
  }

  lemma RunsThrough(c: Config, before: seq<Step>, s: State, after: seq<Step>, t: State)
    requires InterruptedRun(c, before, s, after, t)
    ensures Inv(c, t)
  {
    ReachableInv(c, s);
    StepKeepsInv(c, s, Interrupt);
    RunsKeepInv(c, Apply(c, s, Interrupt), after, t);
  }

  /** Every run that ends with the flag up is of this form. */
  lemma {:induction false} FindInterrupt(c: Config, s0: State, steps: seq<Step>, t: State)
    returns (before: seq<Step>, s: State, after: seq<Step>)
    requires Runs(c, s0, steps, t) && !s0.threadExit && t.threadExit
    ensures steps == before + [Interrupt] + after
    ensures Runs(c, s0, before, s) && Enabled(c, s, Interrupt) && Runs(c, Apply(c, s, Interrupt), after, t)
    decreases |steps|
  {
    if steps[0] == Interrupt {
      before, s, after := [], s0, steps[1..];
    } else {
      before, s, after := FindInterrupt(c, Apply(c, s0, steps[0]), steps[1..], t);
      before := [steps[0]] + before;
    }
  }
}
