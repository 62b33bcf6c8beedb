/** The collecting loop of run_tests: its report is a function of the jobs and their return codes alone. */
module JobTally {
  import opened Common
  import opened JobPool
  import opened PoolRuns

  datatype Verdict = Interrupted | Skip | Pass | Fail | Valgr | Crash

  datatype Tally = Tally(
    passed: nat, failed: nat, failedNames: seq<string>, crashed: nat, crashedNames: seq<string>,
    valgrind: nat, valgrindNames: seq<string>, skipped: nat, skippedNames: seq<string>)

  /** A received job stands for one of the dispatched jobs. */
  predicate Known(c: Config, jobs: seq<Job>) {
    forall k :: 0 <= k < |jobs| ==> jobs[k].origin.Test? && jobs[k].origin.i < |c.specs|
  }

  ghost function VerdictOf(job: Job): Verdict {
    if job.isBreak then Interrupted
    else if job.isSkip then Skip
    else if job.returncode == 0 then Pass
    else if job.returncode == 1 then Fail
    else if job.returncode == 2 then Valgr
    else Crash
  }

  function Label(spec: Spec, skip: bool): string {
    if skip then spec.name + " (" + spec.skipReason + ")" else spec.name
  }

  ghost function CountOf(jobs: seq<Job>, v: Verdict): nat {
    Count(jobs, job => VerdictOf(job) == v)
  }

  ghost function NamesOf(c: Config, jobs: seq<Job>, v: Verdict): seq<string>
    requires Known(c, jobs)
  {
    if jobs == [] then []
    else
      var job := jobs[|jobs| - 1];
      NamesOf(c, jobs[..|jobs| - 1], v)
        + (if VerdictOf(job) == v then [Label(c.specs[job.origin.i], v == Skip)] else [])
  }

  ghost function TallyOf(c: Config, jobs: seq<Job>): Tally
    requires Known(c, jobs)
  {
    Tally(CountOf(jobs, Pass), CountOf(jobs, Fail), NamesOf(c, jobs, Fail),
          CountOf(jobs, Crash), NamesOf(c, jobs, Crash),
          CountOf(jobs, Valgr), NamesOf(c, jobs, Valgr),
          CountOf(jobs, Skip), NamesOf(c, jobs, Skip))
  }

  function ExitStatus(t: Tally, total: nat): int {
    if t.passed + t.skipped == total then 0 else 1
  }

  /** The loop over the received jobs. */
  method CollectResults(c: Config, jobs: seq<Job>) returns (t: Tally)
    requires Known(c, jobs)
    ensures t == TallyOf(c, jobs)
  {
    var passed, failed, crashed, valgrind, skipped := 0, 0, 0, 0, 0;
    var failedNames, crashedNames, valgrindNames, skippedNames := [], [], [], [];
    for i := 0 to |jobs|
      invariant Tally(passed, failed, failedNames, crashed, crashedNames, valgrind, valgrindNames,
                      skipped, skippedNames) == TallyOf(c, jobs[..i])
    {
      assert jobs[..i + 1][..i] == jobs[..i];
      var job := jobs[i];
      var spec := c.specs[job.origin.i];
      if job.isBreak {
        continue;
      }
      if job.isSkip {
        skipped := skipped + 1;
        skippedNames := skippedNames + [Label(spec, true)];
      } else {
        if job.returncode == 0 {
          passed := passed + 1;
        } else if job.returncode == 1 {
          failed := failed + 1;
          failedNames := failedNames + [spec.name];
        } else if job.returncode == 2 {
          valgrind := valgrind + 1;
          valgrindNames := valgrindNames + [spec.name];
        } else {
          crashed := crashed + 1;
          crashedNames := crashedNames + [spec.name];
        }
      }
    }
    assert jobs[..|jobs|] == jobs;
    t := Tally(passed, failed, failedNames, crashed, crashedNames, valgrind, valgrindNames,
               skipped, skippedNames);
  }

  // ---------- the tally, by the fields of the jobs ----------

  lemma {:induction false} SamePredicate<T>(xs: seq<T>, p: T -> bool, q: T -> bool)
    requires forall x :: p(x) == q(x)
    ensures Count(xs, p) == Count(xs, q)
  {
    if xs == [] {
    } else {
      SamePredicate(xs[..|xs| - 1], p, q);
    }
  }

  /** Interrupted jobs are not counted at all, skipped ones whatever their return code;
      the others by their return codes 0, 1, 2 and any other. */
  lemma CountersAre(c: Config, jobs: seq<Job>)
    requires Known(c, jobs)
    ensures var t := TallyOf(c, jobs);
      && t.passed == Count(jobs, (job: Job) => !job.isBreak && !job.isSkip && job.returncode == 0)
      && t.failed == Count(jobs, (job: Job) => !job.isBreak && !job.isSkip && job.returncode == 1)
      && t.valgrind == Count(jobs, (job: Job) => !job.isBreak && !job.isSkip && job.returncode == 2)
      && t.crashed == Count(jobs, (job: Job) => !job.isBreak && !job.isSkip && job.returncode !in {0, 1, 2})
      && t.skipped == Count(jobs, (job: Job) => !job.isBreak && job.isSkip)
  {
    SamePredicate(jobs, (job: Job) => VerdictOf(job) == Pass,
                  (job: Job) => !job.isBreak && !job.isSkip && job.returncode == 0);
    SamePredicate(jobs, (job: Job) => VerdictOf(job) == Fail,
                  (job: Job) => !job.isBreak && !job.isSkip && job.returncode == 1);
    SamePredicate(jobs, (job: Job) => VerdictOf(job) == Valgr,
                  (job: Job) => !job.isBreak && !job.isSkip && job.returncode == 2);
    SamePredicate(jobs, (job: Job) => VerdictOf(job) == Crash,
                  (job: Job) => !job.isBreak && !job.isSkip && job.returncode !in {0, 1, 2});
    SamePredicate(jobs, (job: Job) => VerdictOf(job) == Skip, (job: Job) => !job.isBreak && job.isSkip);
  }

  /** Each list has one entry per job counted, in order of arrival: the job's name, with
      the reason in parentheses if it was skipped. */
  lemma {:induction false} NamesAre(c: Config, jobs: seq<Job>, v: Verdict, k: nat)
    requires Known(c, jobs) && k < |jobs|
    ensures |NamesOf(c, jobs, v)| == CountOf(jobs, v)
    ensures VerdictOf(jobs[k]) == v ==>
      var spec := c.specs[jobs[k].origin.i];
      && CountOf(jobs[..k], v) < |NamesOf(c, jobs, v)|
      && NamesOf(c, jobs, v)[CountOf(jobs[..k], v)]
        == if v == Skip then spec.name + " (" + spec.skipReason + ")" else spec.name
    decreases |jobs|
  {
    var n := |jobs| - 1;
    if n == 0 {
      assert jobs[..0] == [];
    } else {
      NamesAre(c, jobs[..n], v, if k < n then k else 0);
      if k < n { assert jobs[..n][..k] == jobs[..k]; }
    }
  }

  // ---------- nothing is lost in the tally ----------

  lemma {:induction false} VerdictsAddUp(jobs: seq<Job>)
    ensures CountOf(jobs, Pass) + CountOf(jobs, Fail) + CountOf(jobs, Valgr) + CountOf(jobs, Crash)
      + CountOf(jobs, Skip) + CountOf(jobs, Interrupted) == |jobs|
  {
    if jobs == [] {
    } else {
      VerdictsAddUp(jobs[..|jobs| - 1]);
    }
  }

  lemma {:induction false} PassOrSkipAll(jobs: seq<Job>)
    ensures CountOf(jobs, Pass) + CountOf(jobs, Skip) <= |jobs|
    ensures CountOf(jobs, Pass) + CountOf(jobs, Skip) == |jobs| <==>
      forall k :: 0 <= k < |jobs| ==> VerdictOf(jobs[k]) in {Pass, Skip}
  {
    if jobs == [] {
    } else {
      var front := jobs[..|jobs| - 1];
      PassOrSkipAll(front);
      assert forall k :: 0 <= k < |front| ==> jobs[k] == front[k];
    }
  }

  /** The exit status is 0 exactly when every job came back uninterrupted, and
      was to be skipped or returned 0; the counters account for every job. */
  lemma StatusOfRun(c: Config, s: State)
    requires Inv(c, s) && Done(c, s)
    ensures Known(c, s.collected)
    ensures var t := TallyOf(c, s.collected);
      && t.passed + t.failed + t.valgrind + t.crashed + t.skipped + CountOf(s.collected, Interrupted) == |c.specs|
      && (ExitStatus(t, |c.specs|) == 0 <==>
            forall k :: 0 <= k < |s.collected| ==>
              var job := s.collected[k];
              var spec := c.specs[job.origin.i];
              !job.isBreak && (spec.isSkip || spec.outcome == 0))
  {
    VerdictsAddUp(s.collected);
    PassOrSkipAll(s.collected);
    forall k | 0 <= k < |s.collected|
      ensures VerdictOf(s.collected[k]) in {Pass, Skip} <==>
        var job := s.collected[k];
        !job.isBreak && (c.specs[job.origin.i].isSkip || c.specs[job.origin.i].outcome == 0)
    {
      assert Result(c, s.threadExit, s.collected[k]);
    }
  }

  // ---------- the outcome does not depend on the schedule ----------

  lemma {:induction false} RemoveOrigin(jobs: seq<Job>, k: nat, o: Origin)
    requires k < |jobs|
    ensures Among(jobs[..k] + jobs[k + 1..], o) == Among(jobs, o) - (if jobs[k].origin == o then 1 else 0)
  {
    if k == 0 {
      assert jobs[..0] + jobs[1..] == jobs[1..];
    } else {
      assert (jobs[..k] + jobs[k + 1..])[1..] == jobs[1..][..k - 1] + jobs[1..][k..];
      RemoveOrigin(jobs[1..], k - 1, o);
    }
  }

  lemma {:induction false} FindOrigin(jobs: seq<Job>, o: Origin) returns (k: nat)
    requires Among(jobs, o) > 0
    ensures k < |jobs| && jobs[k].origin == o
  {
    if jobs[0].origin == o {
      k := 0;
    } else {
      k := FindOrigin(jobs[1..], o);
      k := k + 1;
    }
  }

  /** Each received job is what running its spec without interruption gives. */
  ghost predicate Uninterrupted(c: Config, jobs: seq<Job>) {
    && Known(c, jobs)
    && forall k :: 0 <= k < |jobs| ==> jobs[k] == Process(false, NewTest(c, jobs[k].origin.i))
  }

  lemma MultisetRemove<T>(ys: seq<T>, k: nat)
    requires k < |ys|
    ensures multiset(ys) == multiset(ys[..k] + ys[k + 1..]) + multiset{ys[k]}
  {
    assert ys == ys[..k] + [ys[k]] + ys[k + 1..];
  }

  lemma MultisetHead<T>(xs: seq<T>)
    requires xs != []
    ensures multiset(xs) == multiset(xs[1..]) + multiset{xs[0]}
  {
    assert xs == [xs[0]] + xs[1..];
  }

  lemma MultisetTails<T>(xs: seq<T>, ys: seq<T>) returns (k: nat)
    requires xs != [] && multiset(xs) == multiset(ys)
    ensures k < |ys| && ys[k] == xs[0]
    ensures multiset(xs[1..]) == multiset(ys[..k] + ys[k + 1..])
  {
    assert xs[0] in multiset(ys);
    k :| 0 <= k < |ys| && ys[k] == xs[0];
    MultisetHead(xs);
    MultisetRemove(ys, k);
    assert multiset(xs[1..]) == multiset(xs) - multiset{xs[0]};
    assert multiset(ys[..k] + ys[k + 1..]) == multiset(ys) - multiset{ys[k]};
  }

  /** Two receipts of the same jobs, in whatever order, are rearrangements. */
  lemma {:induction false} SameJobs(c: Config, xs: seq<Job>, ys: seq<Job>)
    requires Uninterrupted(c, xs) && Uninterrupted(c, ys)
    requires |xs| == |ys| && forall o :: Among(xs, o) == Among(ys, o)
    ensures multiset(xs) == multiset(ys)
  {
    if xs == [] {
    } else {
      AmongMember(xs, 0);
      var k := FindOrigin(ys, xs[0].origin);
      var rest := ys[..k] + ys[k + 1..];
      forall o ensures Among(xs[1..], o) == Among(rest, o) {
        assert Among(xs, o) == Among(ys, o);
        RemoveOrigin(ys, k, o);
      }
      SameJobs(c, xs[1..], rest);
      MultisetHead(xs);
      MultisetRemove(ys, k);
    }
  }

  lemma {:induction false} CountRemove<T>(xs: seq<T>, k: nat, p: T -> bool)
    requires k < |xs|
    ensures Count(xs, p) == Count(xs[..k] + xs[k + 1..], p) + (if p(xs[k]) then 1 else 0)
  {
    var n, rest := |xs| - 1, xs[..k] + xs[k + 1..];
    if k == n {
      assert rest == xs[..n];
    } else {
      assert rest[..n - 1] == xs[..n][..k] + xs[..n][k + 1..];
      assert rest[n - 1] == xs[n];
      CountRemove(xs[..n], k, p);
    }
  }

  /** Counting does not depend on the order. */
  lemma {:induction false} SameCount<T>(xs: seq<T>, ys: seq<T>, p: T -> bool)
    requires multiset(xs) == multiset(ys)
    ensures Count(xs, p) == Count(ys, p)
  {
    if xs == [] {
      assert |multiset(ys)| == |ys|;
    } else {
      var k := MultisetTails(xs, ys);
      SameCount(xs[1..], ys[..k] + ys[k + 1..], p);
      CountRemove(ys, k, p);
      assert xs[..0] + xs[1..] == xs[1..];
      CountRemove(xs, 0, p);
    }
  }

  ghost function NamedIn(c: Config, v: Verdict, name: string): Job -> bool {
    job =>
      && VerdictOf(job) == v && job.origin.Test? && job.origin.i < |c.specs|
      && Label(c.specs[job.origin.i], v == Skip) == name
  }

  lemma {:induction false} NamesCounted(c: Config, jobs: seq<Job>, v: Verdict, name: string)
    requires Known(c, jobs)
    ensures multiset(NamesOf(c, jobs, v))[name] == Count(jobs, NamedIn(c, v, name))
  {
    if jobs == [] {
    } else {
      NamesCounted(c, jobs[..|jobs| - 1], v, name);
    }
  }

  lemma SameTally(c: Config, xs: seq<Job>, ys: seq<Job>, v: Verdict)
    requires Known(c, xs) && Known(c, ys) && multiset(xs) == multiset(ys)
    ensures CountOf(xs, v) == CountOf(ys, v)
    ensures multiset(NamesOf(c, xs, v)) == multiset(NamesOf(c, ys, v))
  {
    SameCount(xs, ys, job => VerdictOf(job) == v);
    forall name ensures multiset(NamesOf(c, xs, v))[name] == multiset(NamesOf(c, ys, v))[name] {
      SameCount(xs, ys, NamedIn(c, v, name));
      NamesCounted(c, xs, v, name);
      NamesCounted(c, ys, v, name);
    }
  }

  /** The order in which list.sort puts strings. */
  predicate Leq(a: string, b: string) {
    a == [] || (b != [] && (a[0] < b[0] || (a[0] == b[0] && Leq(a[1..], b[1..]))))
  }

  ghost predicate SortOf(names: seq<string>, sorted: seq<string>) {
    multiset(sorted) == multiset(names) && Ascending(sorted)
  }

  lemma {:induction false} LeqRefl(a: string)
    ensures Leq(a, a)
  {
    if a == [] {
    } else {
      LeqRefl(a[1..]);
    }
  }

  lemma {:induction false} LeqAntisymmetric(a: string, b: string)
    requires Leq(a, b) && Leq(b, a)
    ensures a == b
  {
    if a == [] || b == [] {
    } else {
      LeqAntisymmetric(a[1..], b[1..]);
      assert a == [a[0]] + a[1..] && b == [b[0]] + b[1..];
    }
  }

  ghost predicate Ascending(xs: seq<string>) {
    forall i, j :: 0 <= i < j < |xs| ==> Leq(xs[i], xs[j])
  }

  lemma FirstIsLeast(xs: seq<string>, x: string)
    requires Ascending(xs) && x in xs
    ensures Leq(xs[0], x)
  {
    LeqRefl(x);
  }

  lemma SameHead(xs: seq<string>, ys: seq<string>)
    requires Ascending(xs) && Ascending(ys) && multiset(xs) == multiset(ys) && xs != [] && ys != []
    ensures xs[0] == ys[0]
  {
    assert xs[0] in multiset(ys) && ys[0] in multiset(xs);
    FirstIsLeast(xs, ys[0]);
    FirstIsLeast(ys, xs[0]);
    LeqAntisymmetric(xs[0], ys[0]);
  }

  lemma SameTails(xs: seq<string>, ys: seq<string>)
    requires xs != [] && ys != [] && xs[0] == ys[0] && multiset(xs) == multiset(ys)
    ensures multiset(xs[1..]) == multiset(ys[1..])
  {
    MultisetHead(xs);
    MultisetHead(ys);
    assert multiset(xs[1..]) == multiset(xs) - multiset{xs[0]};
    assert multiset(ys[1..]) == multiset(ys) - multiset{ys[0]};
  }

  lemma {:induction false} SortUnique(xs: seq<string>, ys: seq<string>)
    requires Ascending(xs) && Ascending(ys) && multiset(xs) == multiset(ys)
    ensures xs == ys
  {
    assert |multiset(xs)| == |xs| && |multiset(ys)| == |ys|;
    if xs == [] {
    } else {
      SameHead(xs, ys);
      SameTails(xs, ys);
      SortUnique(xs[1..], ys[1..]);
      assert xs == [xs[0]] + xs[1..] && ys == [ys[0]] + ys[1..];
    }
  }

  // ---------- the report in terms of the jobs alone ----------

  /** What becomes of a job that is not interrupted. */
  ghost function SpecVerdict(spec: Spec): Verdict {
    if spec.isSkip then Skip
    else if spec.outcome == 0 then Pass
    else if spec.outcome == 1 then Fail
    else if spec.outcome == 2 then Valgr
    else Crash
  }

  ghost function SpecCount(specs: seq<Spec>, v: Verdict): nat {
    Count(specs, spec => SpecVerdict(spec) == v)
  }

  ghost function SpecNames(specs: seq<Spec>, v: Verdict): seq<string> {
    if specs == [] then []
    else
      var spec := specs[|specs| - 1];
      SpecNames(specs[..|specs| - 1], v) + (if SpecVerdict(spec) == v then [Label(spec, v == Skip)] else [])
  }

  ghost function SpecNamed(v: Verdict, name: string): Spec -> bool {
    spec => SpecVerdict(spec) == v && Label(spec, v == Skip) == name
  }

  lemma {:induction false} SpecNamesCounted(specs: seq<Spec>, v: Verdict, name: string)
    ensures multiset(SpecNames(specs, v))[name] == Count(specs, SpecNamed(v, name))
  {
    if specs == [] {
    } else {
      SpecNamesCounted(specs[..|specs| - 1], v, name);
    }
  }

  /** The first n jobs, run in the order in which they were dispatched. */
  ghost function RunInOrder(c: Config, n: nat): seq<Job>
    requires n <= |c.specs|
  {
    if n == 0 then [] else RunInOrder(c, n - 1) + [Process(false, NewTest(c, n - 1))]
  }

  lemma {:induction false} InOrderAmong(c: Config, n: nat, o: Origin)
    requires n <= |c.specs|
    ensures Among(RunInOrder(c, n), o) == (if o.Test? && o.i < n then 1 else 0)
    ensures |RunInOrder(c, n)| == n && Uninterrupted(c, RunInOrder(c, n))
  {
    if n == 0 {
    } else {
      InOrderAmong(c, n - 1, o);
      AmongSnoc(RunInOrder(c, n - 1), Process(false, NewTest(c, n - 1)), o);
    }
  }

  lemma SpecVerdictOf(c: Config, i: nat)
    requires i < |c.specs|
    ensures VerdictOf(Process(false, NewTest(c, i))) == SpecVerdict(c.specs[i])
  {}

  lemma NamesSnoc(c: Config, jobs: seq<Job>, job: Job, v: Verdict)
    requires Known(c, jobs) && job.origin.Test? && job.origin.i < |c.specs|
    ensures Known(c, jobs + [job])
    ensures NamesOf(c, jobs + [job], v)
      == NamesOf(c, jobs, v) + (if VerdictOf(job) == v then [Label(c.specs[job.origin.i], v == Skip)] else [])
  {
    assert (jobs + [job])[..|jobs|] == jobs;
  }

  lemma SpecNamesSnoc(specs: seq<Spec>, spec: Spec, v: Verdict)
    ensures SpecNames(specs + [spec], v)
      == SpecNames(specs, v) + (if SpecVerdict(spec) == v then [Label(spec, v == Skip)] else [])
  {
    assert (specs + [spec])[..|specs|] == specs;
  }

  lemma InOrderKnown(c: Config, n: nat)
    requires n <= |c.specs|
    ensures Known(c, RunInOrder(c, n))
  {
    InOrderAmong(c, n, Test(0));
  }

  lemma {:induction false} InOrderTally(c: Config, n: nat, v: Verdict)
    requires n <= |c.specs|
    ensures Known(c, RunInOrder(c, n))
    ensures CountOf(RunInOrder(c, n), v) == SpecCount(c.specs[..n], v)
    ensures NamesOf(c, RunInOrder(c, n), v) == SpecNames(c.specs[..n], v)
  {
    if n == 0 {
    } else {
      InOrderTally(c, n - 1, v);
      InOrderKnown(c, n);
      OneMoreTallied(c, RunInOrder(c, n - 1), c.specs[..n - 1], n - 1, v);
      assert c.specs[..n] == c.specs[..n - 1] + [c.specs[n - 1]];
    }
  }

  lemma OneMoreTallied(c: Config, jobs: seq<Job>, specs: seq<Spec>, i: nat, v: Verdict)
    requires Known(c, jobs) && i < |c.specs|
    requires CountOf(jobs, v) == SpecCount(specs, v) && NamesOf(c, jobs, v) == SpecNames(specs, v)
    ensures var job, spec := Process(false, NewTest(c, i)), c.specs[i];
      && Known(c, jobs + [job])
      && CountOf(jobs + [job], v) == SpecCount(specs + [spec], v)
      && NamesOf(c, jobs + [job], v) == SpecNames(specs + [spec], v)
  {
    var job, spec := Process(false, NewTest(c, i)), c.specs[i];
    SpecVerdictOf(c, i);
    CountSnoc(jobs, job, j => VerdictOf(j) == v);
    CountSnoc(specs, spec, s => SpecVerdict(s) == v);
    NamesSnoc(c, jobs, job, v);
    SpecNamesSnoc(specs, spec, v);
  }

  lemma DoneIsUninterrupted(c: Config, s: State)
    requires Inv(c, s) && Done(c, s) && !s.threadExit
    ensures Uninterrupted(c, s.collected)
  {
    forall k | 0 <= k < |s.collected| ensures s.collected[k] == Process(false, NewTest(c, s.collected[k].origin.i)) {
      assert Result(c, s.threadExit, s.collected[k]);
    }
  }

  lemma CollectedOnce(c: Config, s: State, o: Origin)
    requires Inv(c, s) && Done(c, s)
    ensures Among(s.collected, o) == if o.Test? && o.i < |c.specs| then 1 else 0
  {
    DoneIsClean(c, s);
    if o.Pill? || o.i >= |c.specs| { NotAmong(s.collected, o); }
  }

  /** Without an interrupt every schedule collects, in some order, what running
      the jobs one after the other would. */
  lemma CollectsAll(c: Config, s: State)
    requires Reachable(c, s) && Done(c, s) && !s.threadExit
    ensures Known(c, s.collected) && multiset(s.collected) == multiset(RunInOrder(c, |c.specs|))
  {
    var all := RunInOrder(c, |c.specs|);
    ReachableInv(c, s);
    DoneIsUninterrupted(c, s);
    InOrderAmong(c, |c.specs|, Test(0));
    forall o ensures Among(s.collected, o) == Among(all, o) {
      CollectedOnce(c, s, o);
      InOrderAmong(c, |c.specs|, o);
    }
    SameJobs(c, s.collected, all);
  }

  /** Every counter and every list of names is that of the jobs' own results: the
      number of workers and the schedule do not enter. */
  lemma TallyOfSpecs(c: Config, s: State, v: Verdict)
    requires Reachable(c, s) && Done(c, s) && !s.threadExit
    ensures Known(c, s.collected)
    ensures CountOf(s.collected, v) == SpecCount(c.specs, v)
    ensures multiset(NamesOf(c, s.collected, v)) == multiset(SpecNames(c.specs, v))
  {
    CollectsAll(c, s);
    InOrderTally(c, |c.specs|, v);
    SameTally(c, s.collected, RunInOrder(c, |c.specs|), v);
    assert c.specs[..|c.specs|] == c.specs;
  }

  lemma SameSpecs(specs: seq<Spec>, others: seq<Spec>, v: Verdict)
    requires multiset(specs) == multiset(others)
    ensures SpecCount(specs, v) == SpecCount(others, v)
    ensures multiset(SpecNames(specs, v)) == multiset(SpecNames(others, v))
  {
    SameCount(specs, others, spec => SpecVerdict(spec) == v);
    forall name ensures multiset(SpecNames(specs, v))[name] == multiset(SpecNames(others, v))[name] {
      SameSpecNames(specs, others, v, name);
    }
  }

  lemma SameSpecNames(specs: seq<Spec>, others: seq<Spec>, v: Verdict, name: string)
    requires multiset(specs) == multiset(others)
    ensures multiset(SpecNames(specs, v))[name] == multiset(SpecNames(others, v))[name]
  {
    SameCount(specs, others, SpecNamed(v, name));
    SpecNamesCounted(specs, v, name);
    SpecNamesCounted(others, v, name);
  }

  /** The final report: the counters, and each name list sorted. */
  ghost predicate Reports(c: Config, jobs: seq<Job>, r: Tally) {
    && Known(c, jobs)
    && r.passed == CountOf(jobs, Pass)
    && r.failed == CountOf(jobs, Fail) && SortOf(NamesOf(c, jobs, Fail), r.failedNames)
    && r.crashed == CountOf(jobs, Crash) && SortOf(NamesOf(c, jobs, Crash), r.crashedNames)
    && r.valgrind == CountOf(jobs, Valgr) && SortOf(NamesOf(c, jobs, Valgr), r.valgrindNames)
    && r.skipped == CountOf(jobs, Skip) && SortOf(NamesOf(c, jobs, Skip), r.skippedNames)
  }

  lemma {:induction false} AllCounted<T>(xs: seq<T>, p: T -> bool, q: T -> bool)
    requires forall x :: !(p(x) && q(x))
    ensures Count(xs, p) + Count(xs, q) <= |xs|
    ensures Count(xs, p) + Count(xs, q) == |xs| <==> forall k :: 0 <= k < |xs| ==> p(xs[k]) || q(xs[k])
  {
    if xs == [] {
    } else {
      var front := xs[..|xs| - 1];
      AllCounted(front, p, q);
      assert forall k :: 0 <= k < |front| ==> xs[k] == front[k];
    }
  }

  /** The exit status of an uninterrupted run is 0 exactly when every job is to be
      skipped or returns 0. */
  lemma StatusOfSpecs(c: Config, s: State)
    requires Reachable(c, s) && Done(c, s) && !s.threadExit
    ensures Known(c, s.collected)
    ensures ExitStatus(TallyOf(c, s.collected), |c.specs|) == 0 <==>
      forall i :: 0 <= i < |c.specs| ==> c.specs[i].isSkip || c.specs[i].outcome == 0
  {
    TallyOfSpecs(c, s, Pass);
    TallyOfSpecs(c, s, Skip);
    PassOrSkipSpecs(c.specs);
  }

  lemma PassOrSkipSpecs(specs: seq<Spec>)
    ensures SpecCount(specs, Pass) + SpecCount(specs, Skip) == |specs| <==>
      forall i :: 0 <= i < |specs| ==> specs[i].isSkip || specs[i].outcome == 0
  {
    AllCounted(specs, spec => SpecVerdict(spec) == Pass, spec => SpecVerdict(spec) == Skip);
  }

  lemma SameVerdict(c: Config, s: State, d: Config, t: State, v: Verdict)
    requires multiset(c.specs) == multiset(d.specs)
    requires Reachable(c, s) && Done(c, s) && !s.threadExit
    requires Reachable(d, t) && Done(d, t) && !t.threadExit
    ensures Known(c, s.collected) && Known(d, t.collected)
    ensures CountOf(s.collected, v) == CountOf(t.collected, v)
    ensures multiset(NamesOf(c, s.collected, v)) == multiset(NamesOf(d, t.collected, v))
  {
    TallyOfSpecs(c, s, v);
    TallyOfSpecs(d, t, v);
    SameSpecs(c.specs, d.specs, v);
  }

  /** Without an interrupt, the same jobs give the same report and the same exit
      status, whatever the number of workers, the order in which the jobs were put
      and the schedule. */
  lemma ScheduleDoesNotMatter(c: Config, s: State, d: Config, t: State, r: Tally, q: Tally)
    requires multiset(c.specs) == multiset(d.specs)
    requires Reachable(c, s) && Done(c, s) && !s.threadExit
    requires Reachable(d, t) && Done(d, t) && !t.threadExit
    requires Reports(c, s.collected, r) && Reports(d, t.collected, q)
    ensures r == q && ExitStatus(r, |c.specs|) == ExitStatus(q, |d.specs|)
  {
    SameVerdict(c, s, d, t, Pass);
    SameVerdict(c, s, d, t, Fail);
    SameVerdict(c, s, d, t, Crash);
    SameVerdict(c, s, d, t, Valgr);
    SameVerdict(c, s, d, t, Skip);
    SortUnique(r.failedNames, q.failedNames);
    SortUnique(r.crashedNames, q.crashedNames);
    SortUnique(r.valgrindNames, q.valgrindNames);
    SortUnique(r.skippedNames, q.skippedNames);
    assert |multiset(c.specs)| == |c.specs| && |multiset(d.specs)| == |d.specs|;
  }
}
