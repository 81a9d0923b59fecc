/** The scheduler and the workers together: what was requested from the node below the watermark. */
module EndToEnd {
  import opened Machine
  import opened Wrappers
  import opened ScanScheduler
  import opened ScanResults
  import opened ScanOrder
  import opened TaskRanges
  import opened Worker

  /** One scan of a task by a worker, with what the node replied. */
  datatype Scan = Scan(span: Span, client: Client, cancelled: nat -> bool, report: Report, requested: seq<int>)

  function Batches(c: Config, parallelRequests: int, x: Span): seq<Span> {
    BatchesOf(x.first, x.last, c.batchSize, parallelRequests)
  }

  /** The report is one that ScanBlocks gives. */
  ghost predicate Genuine(c: Config, parallelRequests: int, x: Scan) {
    if PathOf(x.span.first, x.span.last, c.batchSize).Invalid? then !x.report.ok && x.requested == []
    else Outcome(x.client, x.cancelled, Batches(c, parallelRequests, x.span), x.report, x.requested)
  }

  /** Each Finish of the run ends a scan of the list, in this order, and tells its outcome. */
  ghost predicate Executed(c: Config, parallelRequests: int, s: State, steps: seq<Step>, scans: seq<Scan>)
    requires Runs(c, s, steps)
    decreases steps
  {
    if steps == [] then scans == []
    else if steps[0].Finish? then
      && scans != [] && Genuine(c, parallelRequests, scans[0])
      && scans[0].span == s.running[steps[0].worker].span && scans[0].report.ok == steps[0].ok
      && Executed(c, parallelRequests, Apply(c, s, steps[0]), steps[1..], scans[1..])
    else Executed(c, parallelRequests, Apply(c, s, steps[0]), steps[1..], scans)
  }

  ghost predicate HasScan(c: Config, parallelRequests: int, done: seq<Scan>, x: Span) {
    exists n :: 0 <= n < |done| && done[n].span == x && done[n].report.ok && Genuine(c, parallelRequests, done[n])
  }

  /** Each finished job of the run has a successful scan. */
  ghost predicate Logged(c: Config, parallelRequests: int, s: State, k: nat, done: seq<Scan>) {
    forall j | Finished(s, j) && j.span.id >= k :: HasScan(c, parallelRequests, done, j.span)
  }

  lemma OtherStepLogged(c: Config, parallelRequests: int, s: State, step: Step, k: nat, done: seq<Scan>)
    requires Logged(c, parallelRequests, s, k, done) && Enabled(c, s, step) && !step.Finish?
    ensures Logged(c, parallelRequests, Apply(c, s, step), k, done)
  {
    forall j | Finished(Apply(c, s, step), j)
      ensures Finished(s, j)
    {
    }
  }

  lemma FinishLogged(c: Config, parallelRequests: int, s: State, step: Step, k: nat, done: seq<Scan>, x: Scan)
    requires Logged(c, parallelRequests, s, k, done) && Enabled(c, s, step) && step.Finish?
    requires Genuine(c, parallelRequests, x) && x.span == s.running[step.worker].span && x.report.ok == step.ok
    ensures Logged(c, parallelRequests, Apply(c, s, step), k, done + [x])
  {
    var s', more := Apply(c, s, step), done + [x];
    forall j | Finished(s', j) && j.span.id >= k
      ensures HasScan(c, parallelRequests, more, j.span)
    {
      if Finished(s, j) {
        var n :|
          0 <= n < |done| && done[n].span == j.span && done[n].report.ok && Genuine(c, parallelRequests, done[n]);
        assert more[n] == done[n];
      } else {
        assert more[|done|] == x && j == s.running[step.worker].(ok := step.ok);
      }
    }
  }

  lemma {:induction false} RunLogged(c: Config, parallelRequests: int, s: State, steps: seq<Step>, scans: seq<Scan>,
                                     k: nat, done: seq<Scan>)
    requires Runs(c, s, steps) && Executed(c, parallelRequests, s, steps, scans)
    requires Logged(c, parallelRequests, s, k, done)
    ensures Logged(c, parallelRequests, After(c, s, steps), k, done + scans)
    decreases steps
  {
    if steps == [] {
      assert done + scans == done;
    } else if steps[0].Finish? {
      FinishLogged(c, parallelRequests, s, steps[0], k, done, scans[0]);
      RunLogged(c, parallelRequests, Apply(c, s, steps[0]), steps[1..], scans[1..], k, done + [scans[0]]);
      assert done + [scans[0]] + scans[1..] == done + scans;
    } else {
      OtherStepLogged(c, parallelRequests, s, steps[0], k, done);
      RunLogged(c, parallelRequests, Apply(c, s, steps[0]), steps[1..], scans, k, done);
    }
  }

  lemma QuietIsLogged(c: Config, parallelRequests: int, s: State)
    requires Accounted(s)
    ensures Logged(c, parallelRequests, s, |s.generated|, [])
  {
    forall j | Finished(s, j)
      ensures j.span.id < |s.generated|
    {
      JobIsGenerated(s, j);
    }
  }

  /** The scan was successful, it requested exactly its task, and the batch with block b was answered. */
  ghost predicate AnsweredIn(c: Config, parallelRequests: int, x: Scan, b: nat) {
    && x.report.ok && x.requested == Heights(x.span.first, x.span.last)
    && exists i :: 0 <= i < |Batches(c, parallelRequests, x.span)|
         && Answered(x.client, Batches(c, parallelRequests, x.span), i)
         && Batches(c, parallelRequests, x.span)[i].first <= b <= Batches(c, parallelRequests, x.span)[i].last
  }

  lemma {:induction false} HeightIsInSpan(spans: seq<Span>, b: int) returns (i: nat)
    requires b in HeightsOf(spans)
    ensures i < |spans| && spans[i].first <= b <= spans[i].last
  {
    HeightsMember(spans[0].first, spans[0].last, b);
    if b in Heights(spans[0].first, spans[0].last) {
      i := 0;
    } else {
      i := HeightIsInSpan(spans[1..], b);
      i := i + 1;
    }
  }

  lemma {:induction false} HeightsMember(first: int, last: int, b: int)
    ensures b in Heights(first, last) <==> first <= b <= last
    decreases last - first
  {
    if first <= last {
      HeightsMember(first + 1, last, b);
    }
  }

  lemma SuccessfulScanAnswers(c: Config, parallelRequests: int, x: Scan, b: nat)
    requires 1 <= c.batchSize < I63 && ShapedSpan(c, x.span) && x.span.first <= b <= x.span.last
    requires Genuine(c, parallelRequests, x) && x.report.ok
    ensures AnsweredIn(c, parallelRequests, x, b)
  {
    SuccessRequestsTask(c, parallelRequests, x.span, x.client, x.cancelled, x.report, x.requested);
    ShapedTaskIsCovered(c, parallelRequests, x.span);
    HeightsMember(x.span.first, x.span.last, b);
    var i := HeightIsInSpan(Batches(c, parallelRequests, x.span), b);
    assert Answered(x.client, Batches(c, parallelRequests, x.span), i);
  }

  /**
   With a positive batch size, in every reset-free run between quiet states in which workers scan as ScanBlocks does,
   each block that the watermark passed was requested from the node, and the node answered, unless a task was abandoned
   or a failed result was dropped.
   */
  lemma PassedBlocksWereAnswered(c: Config, parallelRequests: int, s0: State, steps: seq<Step>, scans: seq<Scan>,
                                 b: nat)
    requires 1 <= c.batchSize < I63 && Accounted(s0) && Quiet(s0) && Shaped(c, s0)
    requires Runs(c, s0, steps) && ResetFree(steps) && Executed(c, parallelRequests, s0, steps, scans)
    requires var s := After(c, s0, steps);
      && Quiet(s) && s0.scanned < b <= s.scanned
      && s.abandoned == [] && forall j | j in s.dropped :: j.ok
    ensures exists n :: 0 <= n < |scans| && AnsweredIn(c, parallelRequests, scans[n], b)
  {
    var s, k := After(c, s0, steps), |s0.generated|;
    QuiescentRunScannedAll(c, s0, steps, b);
    var j :| (j in s.applied || j in s.dropped) && j.ok && j.span.id >= k && j.span.first <= b <= j.span.last;
    RunShaped(c, s0, steps);
    RunAccounted(c, s0, steps);
    JobIsGenerated(s, j);
    QuietIsLogged(c, parallelRequests, s0);
    RunLogged(c, parallelRequests, s0, steps, scans, k, []);
    assert [] + scans == scans && Finished(s, j);
    var n :|
      0 <= n < |scans| && scans[n].span == j.span && scans[n].report.ok && Genuine(c, parallelRequests, scans[n]);
    SuccessfulScanAnswers(c, parallelRequests, scans[n], b);
  }

  /** Without failing scans and with one worker not even a quiet end is needed: every passed block was answered. */
  lemma OneWorkerWasAnswered(c: Config, parallelRequests: int, steps: seq<Step>, scans: seq<Scan>, b: nat)
    requires 1 <= c.batchSize < I63 && c.workers <= 1
    requires Runs(c, Fresh(), steps) && ResetFree(steps) && FailureFree(steps)
    requires Executed(c, parallelRequests, Fresh(), steps, scans) && 0 < b <= After(c, Fresh(), steps).scanned
    ensures exists n :: 0 <= n < |scans| && AnsweredIn(c, parallelRequests, scans[n], b)
  {
    var s := After(c, Fresh(), steps);
    OneWorkerScansAll(c, Fresh(), steps);
    assert Scanned(s, b);
    var j :| Finished(s, j) && j.span.first <= b <= j.span.last;
    JobsAreShaped(c, steps, j);
    QuietIsLogged(c, parallelRequests, Fresh());
    RunLogged(c, parallelRequests, Fresh(), steps, scans, 0, []);
    assert [] + scans == scans;
    assert HasScan(c, parallelRequests, scans, j.span);
    var n :|
      0 <= n < |scans| && scans[n].span == j.span && scans[n].report.ok && Genuine(c, parallelRequests, scans[n]);
    SuccessfulScanAnswers(c, parallelRequests, scans[n], b);
  }
}
