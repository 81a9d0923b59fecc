/** When "every block up to the watermark was scanned" holds: it depends on how many workers there are. */
module ScanOrder {
  import opened Machine
  import opened ScanScheduler
  import opened ScanResults

  /** No scan of the run fails. */
  predicate FailureFree(steps: seq<Step>) {
    forall i | 0 <= i < |steps| && steps[i].Finish? :: steps[i].ok
  }

  /** A job that a worker finished without an error. */
  predicate Finished(s: State, j: Job) {
    j.ok && (j in s.results || j in s.handling || j in s.applied || j in s.dropped)
  }

  predicate FinishedSpan(s: State, x: Span) {
    || (exists j :: j in s.results && j.ok && j.span == x) || (exists j :: j in s.handling && j.ok && j.span == x)
    || (exists j :: j in s.applied && j.ok && j.span == x) || (exists j :: j in s.dropped && j.ok && j.span == x)
  }

  /** Block b lies in a task that was scanned without an error. */
  ghost predicate Scanned(s: State, b: nat) {
    exists j :: Finished(s, j) && j.span.first <= b <= j.span.last
  }

  /** Every block that the run of the watermark passed was scanned. */
  ghost predicate AllScanned(s0: State, s: State) {
    forall b | s0.scanned < b <= s.scanned :: Scanned(s, b)
  }

  /** All reset-free runs from quiet states scan what their watermark passes, as long as no scan fails. */
  ghost predicate FailureFreeRunsScanAll(c: Config) {
    forall s0, steps | Accounted(s0) && Quiet(s0) && Runs(c, s0, steps) && ResetFree(steps) && FailureFree(steps) ::
      AllScanned(s0, After(c, s0, steps))
  }

  /** The same with failing scans. */
  ghost predicate RunsScanAll(c: Config) {
    forall s0, steps | Accounted(s0) && Quiet(s0) && Runs(c, s0, steps) && ResetFree(steps) ::
      AllScanned(s0, After(c, s0, steps))
  }

  // ----- one worker -----

  function Spans(jobs: seq<Job>): seq<Span> {
    seq(|jobs|, i requires 0 <= i < |jobs| => jobs[i].span)
  }

  /** The ranges generated since the first k, up to any later point, leave no gap above base. */
  ghost predicate PrefixesCover(s: State, k: nat, base: nat) {
    forall m | k <= m <= |s.generated| :: NoGap(s.generated[k..m], base)
  }

  /**
   The tasks are done in the order of their generation: those before the n-th are finished, the others are running or
   queued, and no result reaches beyond the finished ones.
   */
  ghost predicate InOrder(s: State, k: nat, base: nat, n: nat) {
    && k <= n <= |s.generated| && s.waiting == [] && |s.running| <= 1
    && Spans(s.running + s.queue) == s.generated[n..]
    && (forall i | k <= i < n :: FinishedSpan(s, s.generated[i]))
    && var top := Top(base, s.generated[k..n]);
    && (forall j | j in s.results || j in s.handling :: j.ok && j.span.last <= top)
    && s.scanned <= top
  }

  lemma EmitInOrder(c: Config, s: State, k: nat, base: nat, n: nat)
    requires InOrder(s, k, base, n) && Enabled(c, s, Emit)
    ensures InOrder(Apply(c, s, Emit), k, base, n)
  {
    var s', x := Apply(c, s, Emit), NextSpan(s);
    assert s'.generated[k..n] == s.generated[k..n];
    assert s'.generated[n..] == s.generated[n..] + [x];
    assert Spans(s'.running + s'.queue) == Spans(s.running + s.queue) + [x];
    forall i | k <= i < n
      ensures FinishedSpan(s', s'.generated[i])
    {
      assert FinishedSpan(s, s.generated[i]);
    }
  }

  lemma FinishInOrder(c: Config, s: State, k: nat, base: nat, n: nat)
    requires InOrder(s, k, base, n) && Enabled(c, s, Finish(0, true))
    ensures InOrder(Apply(c, s, Finish(0, true)), k, base, n + 1)
  {
    var s', x := Apply(c, s, Finish(0, true)), s.running[0].span;
    var done := s.running[0].(ok := true);
    FinishQueues(c, s, n);
    FinishRaisesTop(s, k, base, n);
    forall i | k <= i < n + 1
      ensures FinishedSpan(s', s'.generated[i])
    {
      assert done in s'.results || done in s'.dropped;
      if i < n {
        FinishedStays(c, s, Finish(0, true), s.generated[i]);
      }
    }
  }

  lemma FinishQueues(c: Config, s: State, n: nat)
    requires n <= |s.generated| && |s.running| <= 1 && Spans(s.running + s.queue) == s.generated[n..]
    requires Enabled(c, s, Finish(0, true))
    ensures var s' := Apply(c, s, Finish(0, true));
      && n < |s.generated| && s.generated[n] == s.running[0].span && s'.running == []
      && Spans(s'.running + s'.queue) == s'.generated[n + 1..]
  {
    var jobs := s.running + s.queue;
    assert s.generated[n] == Spans(jobs)[0];
    assert Without(s.running, 0) == [];
    assert [] + s.queue == jobs[1..];
    assert Spans(jobs[1..]) == Spans(jobs)[1..] == s.generated[n + 1..];
  }

  lemma FinishRaisesTop(s: State, k: nat, base: nat, n: nat)
    requires k <= n < |s.generated|
    ensures Top(base, s.generated[k..n + 1]) == Max(Top(base, s.generated[k..n]), s.generated[n].last)
  {
    var more := s.generated[k..n + 1];
    assert more[..|more| - 1] == s.generated[k..n];
  }

  lemma FinishedStays(c: Config, s: State, step: Step, x: Span)
    requires FinishedSpan(s, x) && Enabled(c, s, step) && (forall j | j in s.handling :: j.ok)
    ensures FinishedSpan(Apply(c, s, step), x)
  {
    var s' := Apply(c, s, step);
    if j :| j in s.results && j.ok && j.span == x {
      assert j in s'.results || j in s'.handling;
    } else if j :| j in s.handling && j.ok && j.span == x {
      assert j in s'.handling || j in s'.applied;
    } else if j :| j in s.applied && j.ok && j.span == x {
      assert j in s'.applied;
    } else {
      var j :| j in s.dropped && j.ok && j.span == x;
      assert j in s'.dropped;
    }
  }

  lemma OtherStepInOrder(c: Config, s: State, step: Step, k: nat, base: nat, n: nat)
    requires InOrder(s, k, base, n) && Enabled(c, s, step) && !step.Emit? && !step.Finish? && !step.Reset?
    requires c.workers <= 1
    ensures InOrder(Apply(c, s, step), k, base, n)
  {
    var s' := Apply(c, s, step);
    forall i | k <= i < n
      ensures FinishedSpan(s', s'.generated[i])
    {
      FinishedStays(c, s, step, s.generated[i]);
    }
    if step.Dequeue? {
      assert s.running == [];
      assert s'.running + s'.queue == s.running + s.queue;
    }
  }

  lemma EmitPrefixesCover(c: Config, s: State, k: nat, base: nat)
    requires PrefixesCover(s, k, base) && Chased(c, s, k, base) && Bounded(c, s) && Enabled(c, s, Emit)
    ensures PrefixesCover(Apply(c, s, Emit), k, base)
  {
    var s' := Apply(c, s, Emit);
    EmitChased(c, s, k, base);
    forall m | k <= m <= |s'.generated|
      ensures NoGap(s'.generated[k..m], base)
    {
      if m <= |s.generated| {
        assert s'.generated[k..m] == s.generated[k..m];
      } else {
        assert s'.generated[k..m] == s'.generated[k..];
      }
    }
  }

  ghost predicate Ordered(c: Config, s: State, k: nat, base: nat, n: nat) {
    InOrder(s, k, base, n) && PrefixesCover(s, k, base) && Chased(c, s, k, base) && Bounded(c, s)
  }

  lemma StepOrdered(c: Config, s: State, step: Step, k: nat, base: nat, n: nat)
    requires c.workers <= 1 && Ordered(c, s, k, base, n)
    requires Enabled(c, s, step) && !step.Reset? && (step.Finish? ==> step.ok)
    ensures Ordered(c, Apply(c, s, step), k, base, if step.Finish? then n + 1 else n)
  {
    StepChased(c, s, step, k, base);
    StepBounded(c, s, step);
    if step.Emit? {
      EmitInOrder(c, s, k, base, n);
      EmitPrefixesCover(c, s, k, base);
    } else if step.Finish? {
      FinishInOrder(c, s, k, base, n);
    } else {
      OtherStepInOrder(c, s, step, k, base, n);
    }
  }

  lemma {:induction false} RunOrdered(c: Config, s: State, steps: seq<Step>, k: nat, base: nat, n: nat)
    returns (n': nat)
    requires c.workers <= 1 && Ordered(c, s, k, base, n)
    requires Runs(c, s, steps) && ResetFree(steps) && FailureFree(steps)
    ensures Ordered(c, After(c, s, steps), k, base, n')
    decreases steps
  {
    n' := n;
    if steps != [] {
      assert ResetFree(steps[1..]) && FailureFree(steps[1..]);
      StepOrdered(c, s, steps[0], k, base, n);
      n' := RunOrdered(c, Apply(c, s, steps[0]), steps[1..], k, base, if steps[0].Finish? then n + 1 else n);
    }
  }

  lemma OneWorkerScansAll(c: Config, s0: State, steps: seq<Step>)
    requires c.workers <= 1 && Quiet(s0) && Runs(c, s0, steps) && ResetFree(steps) && FailureFree(steps)
    ensures AllScanned(s0, After(c, s0, steps))
  {
    var s, k, base := After(c, s0, steps), |s0.generated|, s0.scanned;
    QuietChased(c, s0);
    assert s0.generated[k..k] == [] && s0.generated[k..] == [];
    var n := RunOrdered(c, s0, steps, k, base, k);
    forall b | base < b <= s.scanned
      ensures Scanned(s, b)
    {
      OrderedIsScanned(c, s, k, base, n, b);
    }
  }

  lemma OrderedIsScanned(c: Config, s: State, k: nat, base: nat, n: nat, b: nat)
    requires Ordered(c, s, k, base, n) && base < b <= s.scanned
    ensures Scanned(s, b)
  {
    var spans := s.generated[k..n];
    assert NoGap(spans, base);
    assert Covers(spans, b);
    var i :| 0 <= i < |spans| && spans[i].first <= b <= spans[i].last;
    assert spans[i] == s.generated[k + i];
    SomeFinished(s, spans[i]);
  }

  lemma SomeFinished(s: State, x: Span)
    requires FinishedSpan(s, x)
    ensures exists j :: Finished(s, j) && j.span == x
  {
    if j :| j in s.results && j.ok && j.span == x {
      assert Finished(s, j);
    } else if j :| j in s.handling && j.ok && j.span == x {
      assert Finished(s, j);
    } else if j :| j in s.applied && j.ok && j.span == x {
      assert Finished(s, j);
    } else {
      var j :| j in s.dropped && j.ok && j.span == x;
      assert Finished(s, j);
    }
  }

  // ----- more workers -----

  /** A reset-free run without a failure leads from s to s'. */
  ghost predicate Cleanly(c: Config, s: State, s': State) {
    exists steps :: ReachesBy(c, s, steps, s') && FailureFree(steps)
  }

  lemma CleanlyOne(c: Config, s: State, step: Step)
    requires Enabled(c, s, step) && !step.Reset? && (step.Finish? ==> step.ok)
    ensures Cleanly(c, s, Apply(c, s, step))
  {
    assert Runs(c, Apply(c, s, step), [step][1..]);
    assert ReachesBy(c, s, [step], Apply(c, s, step)) && FailureFree([step]);
  }

  lemma CleanlyOn(c: Config, s: State, s': State, s'': State)
    requires Cleanly(c, s, s') && Cleanly(c, s', s'')
    ensures Cleanly(c, s, s'')
  {
    var a :| ReachesBy(c, s, a, s') && FailureFree(a);
    var b :| ReachesBy(c, s', b, s'') && FailureFree(b);
    RunsConcat(c, s, a, b);
    assert ReachesBy(c, s, a + b, s'') && FailureFree(a + b);
  }

  lemma CleanlyReaches(c: Config, s: State, s': State)
    requires Cleanly(c, s, s')
    ensures Reaches(c, s, s')
  {
    var a :| ReachesBy(c, s, a, s') && FailureFree(a);
  }

  /** The first two tasks of a fresh scanner. */
  function Low(c: Config): Job {
    Job(Span(0, 1, BatchFor(c, 0)), 0, false)
  }

  function High(c: Config): Job {
    Job(Span(1, BatchFor(c, 0) + 1, 2 * BatchFor(c, 0)), 0, false)
  }

  function TwoQueued(c: Config): State {
    Fresh().(generated := [Low(c).span, High(c).span], queue := [Low(c), High(c)])
  }

  lemma TwoTasksQueued(c: Config)
    requires c.workers >= 1
    ensures Cleanly(c, Fresh(), TwoQueued(c))
  {
    var batch := BatchFor(c, 0);
    var s1 := Apply(c, Fresh(), ReadWatermark);
    var s2 := Apply(c, s1, ReadHeights(2 * batch, 2 * batch));
    var s3 := Apply(c, s2, Emit);
    assert s3.queue == [Low(c)] && s3.generated == [Low(c).span];
    var s4 := Apply(c, s3, Emit);
    assert s4 == TwoQueued(c);
    CleanlyOne(c, Fresh(), ReadWatermark);
    CleanlyOne(c, s1, ReadHeights(2 * batch, 2 * batch));
    CleanlyOne(c, s2, Emit);
    CleanlyOne(c, s3, Emit);
    CleanlyOn(c, Fresh(), s1, s2);
    CleanlyOn(c, Fresh(), s2, s3);
    CleanlyOn(c, Fresh(), s3, s4);
  }

  /** With two workers the higher task can be finished and handled while the lower one is still running. */
  lemma HigherTaskFinishesFirst(c: Config) returns (s: State)
    requires c.workers >= 2
    ensures Cleanly(c, Fresh(), s)
    ensures s.scanned == High(c).span.last && s.running == [Low(c)] && s.applied == [High(c).(ok := true)]
    ensures s.results == [] && s.handling == [] && s.dropped == []
  {
    var s0 := TwoQueued(c);
    var s1 := Apply(c, s0, Dequeue);
    var s2 := Apply(c, s1, Dequeue);
    assert s2.running == [Low(c), High(c)];
    var s3 := Apply(c, s2, Finish(1, true));
    assert s3.running == [Low(c)];
    var s4 := Apply(c, s3, Take);
    assert s4.handling == [High(c).(ok := true)];
    s := Apply(c, s4, Handle(0, true));
    TwoTasksQueued(c);
    CleanlyOne(c, s0, Dequeue);
    CleanlyOne(c, s1, Dequeue);
    CleanlyOne(c, s2, Finish(1, true));
    CleanlyOne(c, s3, Take);
    CleanlyOne(c, s4, Handle(0, true));
    CleanlyOn(c, s0, s1, s2);
    CleanlyOn(c, s0, s2, s3);
    CleanlyOn(c, s0, s3, s4);
    CleanlyOn(c, s0, s4, s);
    CleanlyOn(c, Fresh(), s0, s);
  }

  /** Whatever the batch size, two workers or more can make the watermark pass block 1 before it is scanned. */
  lemma WatermarkCanSkipRunningBlocks(c: Config) returns (s: State)
    requires c.workers >= 2
    ensures Cleanly(c, Fresh(), s) && s.scanned > 1 && !Scanned(s, 1) && Low(c) in s.running
  {
    s := HigherTaskFinishesFirst(c);
    assert !Scanned(s, 1);
  }

  /** Without failing scans every passed block is scanned in all runs exactly when there is at most one worker. */
  lemma FailureFreeRunsScanAllIff(c: Config)
    ensures FailureFreeRunsScanAll(c) <==> c.workers <= 1
  {
    if c.workers <= 1 {
      forall s0, steps | Accounted(s0) && Quiet(s0) && Runs(c, s0, steps) && ResetFree(steps) && FailureFree(steps)
        ensures AllScanned(s0, After(c, s0, steps))
      {
        OneWorkerScansAll(c, s0, steps);
      }
    } else {
      var s := WatermarkCanSkipRunningBlocks(c);
      var steps :| ReachesBy(c, Fresh(), steps, s) && FailureFree(steps);
      assert Accounted(Fresh()) && Quiet(Fresh());
      assert !AllScanned(Fresh(), After(c, Fresh(), steps));
    }
  }

  // ----- with failing scans -----

  /** A failed lower task does not keep the watermark from passing it, even with one worker. */
  lemma FailedTaskIsPassed(c: Config) returns (s: State)
    requires c.workers >= 1
    ensures Reaches(c, Fresh(), s) && s.scanned == High(c).span.last
    ensures s.applied == [High(c).(ok := true)] && s.results == [] && s.handling == [] && s.dropped == []
  {
    var s0 := TwoQueued(c);
    var s1 := Apply(c, s0, Dequeue);
    assert s1.running == [Low(c)];
    var s2 := Apply(c, s1, Finish(0, false));
    var s3 := Apply(c, s2, Dequeue);
    assert s3.running == [High(c)];
    var s4 := FailedThenScanned(c, s3);
    s := s4;
    TwoTasksQueued(c);
    CleanlyReaches(c, Fresh(), s0);
    ReachesOne(c, s0, Dequeue);
    ReachesOne(c, s1, Finish(0, false));
    ReachesOne(c, s2, Dequeue);
    ReachesOn(c, Fresh(), s0, s1);
    ReachesOn(c, Fresh(), s1, s2);
    ReachesOn(c, Fresh(), s2, s3);
    ReachesOn(c, Fresh(), s3, s);
  }

  lemma FailedThenScanned(c: Config, s: State) returns (s': State)
    requires c.workers >= 1 && s.running == [High(c)] && s.results == [Low(c)] && s.handling == []
    requires s.applied == [] && s.dropped == [] && s.scanned == 0
    ensures Reaches(c, s, s') && s'.scanned == High(c).span.last
    ensures s'.applied == [High(c).(ok := true)] && s'.results == [] && s'.handling == [] && s'.dropped == []
  {
    var s1 := Apply(c, s, Take);
    assert s1.handling == [Low(c)] && s1.results == [];
    var s2 := Apply(c, s1, Handle(0, true));
    assert s2.handling == [];
    var s3 := Apply(c, s2, Finish(0, true));
    var s4 := Apply(c, s3, Take);
    assert s4.handling == [High(c).(ok := true)] && s4.results == [];
    s' := Apply(c, s4, Handle(0, true));
    ReachesOne(c, s, Take);
    ReachesOne(c, s1, Handle(0, true));
    ReachesOne(c, s2, Finish(0, true));
    ReachesOne(c, s3, Take);
    ReachesOne(c, s4, Handle(0, true));
    ReachesOn(c, s, s1, s2);
    ReachesOn(c, s, s2, s3);
    ReachesOn(c, s, s3, s4);
    ReachesOn(c, s, s4, s');
  }

  lemma {:induction false} NoWorkerNoProgress(c: Config, s: State, steps: seq<Step>)
    requires c.workers == 0 && Runs(c, s, steps) && ResetFree(steps)
    requires s.queue == [] && s.running == [] && s.results == [] && s.handling == [] && s.waiting == []
    ensures After(c, s, steps).scanned == s.scanned
    decreases steps
  {
    if steps != [] {
      assert !steps[0].Reset?;
      NoWorkerNoProgress(c, Apply(c, s, steps[0]), steps[1..]);
    }
  }

  /** With failing scans it holds in all runs only of a scanner that scans nothing. */
  lemma RunsScanAllIff(c: Config)
    ensures RunsScanAll(c) <==> c.workers == 0
  {
    if c.workers == 0 {
      forall s0, steps | Accounted(s0) && Quiet(s0) && Runs(c, s0, steps) && ResetFree(steps)
        ensures AllScanned(s0, After(c, s0, steps))
      {
        NoWorkerNoProgress(c, s0, steps);
      }
    } else {
      var s := FailedTaskIsPassed(c);
      var steps :| ReachesBy(c, Fresh(), steps, s);
      assert Accounted(Fresh()) && Quiet(Fresh());
      assert !Scanned(s, 1);
      assert !AllScanned(Fresh(), After(c, Fresh(), steps));
    }
  }
}
