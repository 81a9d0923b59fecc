/**
 The scheduler of one chain as a step system.

 A tick of the task generator, the workers, the result handlers and the sleeping retries are separate
 threads, so every step below is one thread's atomic action and a run is any sequence of enabled steps.
 */
module ScanScheduler {
  import opened Machine

  type pos = n: nat | n >= 1 witness 1

  /** The block range of one generated task.  `id` counts the tasks in the order of their creation. */
  datatype Span = Span(id: nat, first: nat, last: nat)

  /** A task and, once a worker is done with it, whether the scan returned without an error. */
  datatype Job = Job(span: Span, retries: nat, ok: bool)

  datatype Config = Config(batchSize: nat, maxRetries: int, workers: nat) {
    function QueueCap(): nat { workers * 10 }

    function Handlers(): nat { Min(workers, 4) }
  }

  /** Where the task generator stands: it first reads the watermark, then the two chain heights. */
  datatype Tick = Idle | GotWatermark(scanned: nat) | Emitting(next: nat, last: nat, batch: pos)

  datatype State = State(
    scanned: nat,
    tick: Tick,
    generated: seq<Span>,
    queue: seq<Job>,       // the task channel
    running: seq<Job>,     // held by a worker
    results: seq<Job>,     // the result channel
    handling: seq<Job>,    // held by a result handler
    waiting: seq<Job>,     // sleeping before a retry, or blocked on the full task channel
    applied: seq<Job>,     // successes that were handled
    abandoned: seq<Job>,   // failures out of retries
    dropped: seq<Job>      // results thrown away because the result channel was full
  )

  datatype Step =
    | ReadWatermark
    | HeightsUnavailable
    | ReadHeights(current: nat, finalized: nat)
    | Emit
    | GiveUp
    | Dequeue
    | Finish(worker: nat, ok: bool)
    | Take
    | Handle(handler: nat, locked: bool)
    | Requeue(retry: nat)
    | Reset(height: nat, locked: bool)

  function Without<T>(s: seq<T>, i: nat): seq<T>
    requires i < |s|
  {
    s[..i] + s[i + 1..]
  }

  /** Back pressure: a quarter of the batch above 80% of the queue, half of it above 50%, and never zero. */
  function BatchFor(c: Config, queued: nat): pos {
    var size :=
      if 5 * queued > 4 * c.QueueCap() then c.batchSize / 4
      else if 2 * queued > c.QueueCap() then c.batchSize / 2
      else c.batchSize;
    if size < 1 then 1 else size
  }

  /**
   What back pressure does: up to half a full queue, which is 5 tasks a worker, batches are whole; up to four fifths,
   8 a worker, they are half; above, a quarter; and always at least one block.
   */
  lemma BatchForIs(c: Config, queued: nat)
    ensures queued <= 5 * c.workers ==> BatchFor(c, queued) == Max(1, c.batchSize)
    ensures 5 * c.workers < queued <= 8 * c.workers ==> BatchFor(c, queued) == Max(1, c.batchSize / 2)
    ensures queued > 8 * c.workers ==> BatchFor(c, queued) == Max(1, c.batchSize / 4)
  {
  }

  /** A scanner that was just created. */
  function Fresh(): State {
    State(0, Idle, [], [], [], [], [], [], [], [], [])
  }

  predicate Enabled(c: Config, s: State, step: Step) {
    match step
    case ReadWatermark => s.tick.Idle?
    case HeightsUnavailable => s.tick.GotWatermark?
    case ReadHeights(_, _) => s.tick.GotWatermark?
    case Emit => s.tick.Emitting? && |s.queue| < c.QueueCap()
    case GiveUp => s.tick.Emitting?
    case Dequeue => |s.queue| > 0 && |s.running| < c.workers
    case Finish(i, _) => i < |s.running|
    case Take => |s.results| > 0 && |s.handling| < c.Handlers()
    case Handle(i, _) => i < |s.handling|
    case Requeue(i) => i < |s.waiting| && |s.queue| < c.QueueCap()
    case Reset(_, _) => true
  }

  /** The range that the next emission covers. */
  function NextSpan(s: State): Span
    requires s.tick.Emitting?
  {
    Span(|s.generated|, s.tick.next, Min(s.tick.next + s.tick.batch - 1, s.tick.last))
  }

  function Apply(c: Config, s: State, step: Step): State
    requires Enabled(c, s, step)
  {
    match step
    case ReadWatermark =>
      s.(tick := GotWatermark(s.scanned))
    case HeightsUnavailable =>
      s.(tick := Idle)
    case ReadHeights(current, finalized) =>
      var first, last := s.tick.scanned + 1, Min(finalized, current);
      s.(tick := if first > last then Idle else Emitting(first, last, BatchFor(c, |s.queue|)))
    case Emit =>
      var span := NextSpan(s);
      var following := s.tick.next + s.tick.batch;
      s.(queue := s.queue + [Job(span, 0, false)],
         generated := s.generated + [span],
         tick := if following > s.tick.last then Idle else s.tick.(next := following))
    case GiveUp =>
      s.(tick := Idle)
    case Dequeue =>
      s.(queue := s.queue[1..], running := s.running + [s.queue[0]])
    case Finish(i, ok) =>
      var done := s.running[i].(ok := ok);
      var s' := s.(running := Without(s.running, i));
      if |s.results| < c.QueueCap()
      then s'.(results := s.results + [done])
      else s'.(dropped := s.dropped + [done])
    case Take =>
      s.(results := s.results[1..], handling := s.handling + [s.results[0]])
    case Handle(i, locked) =>
      var job := s.handling[i];
      var s' := s.(handling := Without(s.handling, i));
      if job.ok then
        s'.(applied := s.applied + [job], scanned := if locked then Max(s.scanned, job.span.last) else s.scanned)
      else if job.retries < c.maxRetries then
        s'.(waiting := s.waiting + [job.(retries := job.retries + 1)])
      else
        s'.(abandoned := s.abandoned + [job])
    case Requeue(i) =>
      s.(waiting := Without(s.waiting, i), queue := s.queue + [s.waiting[i]])
    case Reset(height, locked) =>
      if locked && height <= s.scanned then s.(scanned := height) else s
  }

  predicate Runs(c: Config, s: State, steps: seq<Step>)
    decreases steps
  {
    steps == [] || (Enabled(c, s, steps[0]) && Runs(c, Apply(c, s, steps[0]), steps[1..]))
  }

  function After(c: Config, s: State, steps: seq<Step>): State
    requires Runs(c, s, steps)
    decreases steps
  {
    if steps == [] then s else After(c, Apply(c, s, steps[0]), steps[1..])
  }

  predicate ResetFree(steps: seq<Step>) {
    forall i | 0 <= i < |steps| :: !steps[i].Reset?
  }

  // ----- where every generated task is -----

  function Count(jobs: seq<Job>, x: Span): nat {
    if jobs == [] then 0 else (if jobs[0].span == x then 1 else 0) + Count(jobs[1..], x)
  }

  /** How many jobs of the whole system are for the range x. */
  function Population(s: State, x: Span): nat {
    Count(s.queue, x) + Count(s.running, x) + Count(s.results, x) + Count(s.handling, x) + Count(s.waiting, x)
    + Count(s.applied, x) + Count(s.abandoned, x) + Count(s.dropped, x)
  }

  /** Every generated task is in exactly one place, nothing else is anywhere, and only successes were applied. */
  ghost predicate Accounted(s: State) {
    && (forall i | 0 <= i < |s.generated| :: s.generated[i].id == i)
    && (forall x: Span :: Population(s, x) == if x in s.generated then 1 else 0)
    && (forall j | j in s.applied :: j.ok)
    && (forall j | j in s.abandoned :: !j.ok)
  }

  /** Nothing is under way. */
  predicate Quiet(s: State) {
    && s.tick.Idle?
    && s.queue == [] && s.running == [] && s.results == [] && s.handling == [] && s.waiting == []
  }

  /** The channel and thread limits, and the shape of a running tick. */
  predicate Bounded(c: Config, s: State) {
    && |s.queue| <= 10 * c.workers && |s.results| <= 10 * c.workers
    && |s.running| <= c.workers && |s.handling| <= (if c.workers < 4 then c.workers else 4)
    && (s.tick.Emitting? ==> s.tick.next <= s.tick.last)
  }

  lemma CountConcat(a: seq<Job>, b: seq<Job>, x: Span)
    ensures Count(a + b, x) == Count(a, x) + Count(b, x)
  {
    if a == [] {
      assert a + b == b;
    } else {
      CountConcat(a[1..], b, x);
      assert (a + b)[1..] == a[1..] + b;
    }
  }

  lemma CountWithout(a: seq<Job>, i: nat, x: Span)
    requires i < |a|
    ensures Count(Without(a, i), x) == Count(a, x) - if a[i].span == x then 1 else 0
  {
    CountConcat(a[..i], a[i..], x);
    CountConcat(a[..i], a[i + 1..], x);
    assert a == a[..i] + a[i..];
    assert a[i..][1..] == a[i + 1..];
  }

  lemma CountMember(a: seq<Job>, x: Span)
    ensures Count(a, x) > 0 <==> exists j :: j in a && j.span == x
  {
    if a != [] {
      CountMember(a[1..], x);
      if Count(a, x) > 0 {
        if a[0].span == x {
          assert a[0] in a;
        } else {
          var j :| j in a[1..] && j.span == x;
          assert j in a;
        }
      }
    }
  }

  lemma FinishPopulation(c: Config, s: State, i: nat, ok: bool, x: Span)
    requires Enabled(c, s, Finish(i, ok))
    ensures Population(Apply(c, s, Finish(i, ok)), x) == Population(s, x)
  {
    var done := s.running[i].(ok := ok);
    CountWithout(s.running, i, x);
    if |s.results| < c.QueueCap() {
      CountConcat(s.results, [done], x);
    } else {
      CountConcat(s.dropped, [done], x);
    }
  }

  lemma HandlePopulation(c: Config, s: State, i: nat, locked: bool, x: Span)
    requires Enabled(c, s, Handle(i, locked))
    ensures Population(Apply(c, s, Handle(i, locked)), x) == Population(s, x)
  {
    var job := s.handling[i];
    CountWithout(s.handling, i, x);
    if job.ok {
      CountConcat(s.applied, [job], x);
    } else if job.retries < c.maxRetries {
      CountConcat(s.waiting, [job.(retries := job.retries + 1)], x);
    } else {
      CountConcat(s.abandoned, [job], x);
    }
  }

  /** One step moves at most one job, and only Emit makes a new one. */
  lemma StepPopulation(c: Config, s: State, step: Step, x: Span)
    requires Enabled(c, s, step)
    ensures Population(Apply(c, s, step), x) == Population(s, x) + if step.Emit? && NextSpan(s) == x then 1 else 0
  {
    match step
    case Emit =>
      CountConcat(s.queue, [Job(NextSpan(s), 0, false)], x);
    case Dequeue =>
      CountConcat(s.running, [s.queue[0]], x);
    case Finish(i, ok) =>
      FinishPopulation(c, s, i, ok, x);
    case Take =>
      CountConcat(s.handling, [s.results[0]], x);
    case Handle(i, locked) =>
      HandlePopulation(c, s, i, locked, x);
    case Requeue(i) =>
      CountWithout(s.waiting, i, x);
      CountConcat(s.queue, [s.waiting[i]], x);
    case _ =>
  }

  lemma StepAccounted(c: Config, s: State, step: Step)
    requires Accounted(s) && Enabled(c, s, step)
    ensures Accounted(Apply(c, s, step))
  {
    var s' := Apply(c, s, step);
    forall x: Span
      ensures Population(s', x) == if x in s'.generated then 1 else 0
    {
      StepPopulation(c, s, step, x);
      if step.Emit? {
        assert s'.generated == s.generated + [NextSpan(s)];
        if x in s.generated {
          assert x.id < |s.generated|;
        }
      }
    }
  }

  lemma StepBounded(c: Config, s: State, step: Step)
    requires Bounded(c, s) && Enabled(c, s, step)
    ensures Bounded(c, Apply(c, s, step))
  {
  }

  /** In every run, with resets, no task is lost and none is duplicated. */
  lemma {:induction false} RunAccounted(c: Config, s: State, steps: seq<Step>)
    requires Accounted(s) && Bounded(c, s) && Runs(c, s, steps)
    ensures Accounted(After(c, s, steps)) && Bounded(c, After(c, s, steps))
    decreases steps
  {
    if steps != [] {
      StepAccounted(c, s, steps[0]);
      StepBounded(c, s, steps[0]);
      RunAccounted(c, Apply(c, s, steps[0]), steps[1..]);
    }
  }

  // ----- what a generated task looks like -----

  /** A task holds at least one block, none of them block 0, and at most a batch. */
  predicate ShapedSpan(c: Config, x: Span) {
    1 <= x.first <= x.last && x.last - x.first + 1 <= Max(1, c.batchSize)
  }

  ghost predicate Shaped(c: Config, s: State) {
    && (forall x | x in s.generated :: ShapedSpan(c, x))
    && (s.tick.Emitting? ==> 1 <= s.tick.next <= s.tick.last && s.tick.batch <= Max(1, c.batchSize))
  }

  lemma {:induction false} RunShaped(c: Config, s: State, steps: seq<Step>)
    requires Shaped(c, s) && Runs(c, s, steps)
    ensures Shaped(c, After(c, s, steps))
    decreases steps
  {
    if steps != [] {
      StepShaped(c, s, steps[0]);
      RunShaped(c, Apply(c, s, steps[0]), steps[1..]);
    }
  }

  lemma StepShaped(c: Config, s: State, step: Step)
    requires Shaped(c, s) && Enabled(c, s, step)
    ensures Shaped(c, Apply(c, s, step))
  {
    if step.Emit? {
      assert ShapedSpan(c, NextSpan(s));
    }
  }

  /** A job that is anywhere in the system. */
  predicate Somewhere(s: State, j: Job) {
    || j in s.queue || j in s.running || j in s.results || j in s.handling || j in s.waiting
    || j in s.applied || j in s.abandoned || j in s.dropped
  }

  lemma JobIsGenerated(s: State, j: Job)
    requires Accounted(s) && Somewhere(s, j)
    ensures j.span in s.generated
  {
    var x := j.span;
    CountMember(s.queue, x);
    CountMember(s.running, x);
    CountMember(s.results, x);
    CountMember(s.handling, x);
    CountMember(s.waiting, x);
    CountMember(s.applied, x);
    CountMember(s.abandoned, x);
    CountMember(s.dropped, x);
    assert Population(s, x) > 0;
  }

  /** In every run from a fresh scanner each job, wherever it is, is for a task of that shape. */
  lemma JobsAreShaped(c: Config, steps: seq<Step>, j: Job)
    requires Runs(c, Fresh(), steps) && Somewhere(After(c, Fresh(), steps), j)
    ensures ShapedSpan(c, j.span)
  {
    RunAccounted(c, Fresh(), steps);
    RunShaped(c, Fresh(), steps);
    JobIsGenerated(After(c, Fresh(), steps), j);
  }

  // ----- where results end -----

  /**
   In every run from a fresh scanner a finished task is lost exactly if ten results per worker wait when it finishes;
   else its result waits behind them.  No other step loses anything.
   */
  lemma ResultIsDroppedIff(c: Config, steps: seq<Step>, step: Step)
    requires Runs(c, Fresh(), steps) && Enabled(c, After(c, Fresh(), steps), step)
    ensures var s := After(c, Fresh(), steps); var s' := Apply(c, s, step);
      && (s'.dropped != s.dropped <==> step.Finish? && |s.results| == 10 * c.workers)
      && (step.Finish? ==>
            var done := Job(s.running[step.worker].span, s.running[step.worker].retries, step.ok);
            if |s.results| == 10 * c.workers then s'.dropped == s.dropped + [done] && s'.results == s.results
            else s'.results == s.results + [done] && s'.dropped == s.dropped)
  {
    RunAccounted(c, Fresh(), steps);
  }

  /**
   Both channels hand out jobs in the order in which they came: a step takes the first, or adds one behind the last.
   */
  lemma ChannelsAreFirstInFirstOut(c: Config, s: State, step: Step)
    requires Enabled(c, s, step)
    ensures var s' := Apply(c, s, step);
      || s'.queue == s.queue
      || (s.queue != [] && s'.queue == s.queue[1..] && s'.running == s.running + [s.queue[0]])
      || exists j :: s'.queue == s.queue + [j]
    ensures var s' := Apply(c, s, step);
      || s'.results == s.results
      || (s.results != [] && s'.results == s.results[1..] && s'.handling == s.handling + [s.results[0]])
      || exists j :: s'.results == s.results + [j]
  {
    match step
    case Emit => assert Apply(c, s, step).queue == s.queue + [Job(NextSpan(s), 0, false)];
    case Requeue(i) => assert Apply(c, s, step).queue == s.queue + [s.waiting[i]];
    case Finish(i, ok) =>
      assert |s.results| < c.QueueCap() ==> Apply(c, s, step).results == s.results + [s.running[i].(ok := ok)];
    case _ =>
  }

  /** No job was retried more often than allowed, and a job is given up only when its retries are used up. */
  ghost predicate RetriesKept(c: Config, s: State) {
    && (forall j | Somewhere(s, j) :: j.retries <= Max(0, c.maxRetries))
    && (forall j | j in s.abandoned :: j.retries == Max(0, c.maxRetries))
  }

  lemma StepKeepsRetries(c: Config, s: State, step: Step)
    requires RetriesKept(c, s) && Enabled(c, s, step)
    ensures RetriesKept(c, Apply(c, s, step))
  {
    var s' := Apply(c, s, step);
    forall j | Somewhere(s', j)
      ensures j.retries <= Max(0, c.maxRetries)
    {
      match step
      case Emit => assert Somewhere(s, j) || j.retries == 0;
      case Finish(i, ok) => assert Somewhere(s, s.running[i]) && (Somewhere(s, j) || j == s.running[i].(ok := ok));
      case Handle(i, _) => assert Somewhere(s, s.handling[i]);
      case _ => assert Somewhere(s, j);
    }
    if step.Handle? {
      assert Somewhere(s, s.handling[step.handler]);
    }
  }

  /** So a task is abandoned exactly after its first attempt and all its retries failed. */
  lemma {:induction false} RunKeepsRetries(c: Config, s: State, steps: seq<Step>)
    requires RetriesKept(c, s) && Runs(c, s, steps)
    ensures RetriesKept(c, After(c, s, steps))
    decreases steps
  {
    if steps != [] {
      StepKeepsRetries(c, s, steps[0]);
      RunKeepsRetries(c, Apply(c, s, steps[0]), steps[1..]);
    }
  }

  /** Every success is handled under the watermark lock. */
  predicate LocksGranted(steps: seq<Step>) {
    forall i | 0 <= i < |steps| && steps[i].Handle? :: steps[i].locked
  }

  /**
   The watermark is the old one or the end of a task that was handled as a success since, and none of them ends
   above.
   */
  ghost predicate AtHighestSuccess(scanned: nat, s: State) {
    && (forall j | j in s.applied :: j.span.last <= s.scanned)
    && scanned <= s.scanned && (s.scanned == scanned || exists j :: j in s.applied && j.span.last == s.scanned)
  }

  lemma {:induction false} RunAtHighestSuccess(c: Config, scanned: nat, s: State, steps: seq<Step>)
    requires AtHighestSuccess(scanned, s) && Runs(c, s, steps) && ResetFree(steps) && LocksGranted(steps)
    ensures AtHighestSuccess(scanned, After(c, s, steps))
    decreases steps
  {
    if steps != [] {
      StepAtHighestSuccess(c, scanned, s, steps[0]);
      RunAtHighestSuccess(c, scanned, Apply(c, s, steps[0]), steps[1..]);
    }
  }

  lemma StepAtHighestSuccess(c: Config, scanned: nat, s: State, step: Step)
    requires AtHighestSuccess(scanned, s) && Enabled(c, s, step) && !step.Reset? && (step.Handle? ==> step.locked)
    ensures AtHighestSuccess(scanned, Apply(c, s, step))
  {
    var s' := Apply(c, s, step);
    if step.Handle? && s.handling[step.handler].ok {
      var j := s.handling[step.handler];
      assert s'.applied == s.applied + [j] && s'.applied[|s.applied|] == j;
      if j' :| j' in s.applied && j'.span.last == s.scanned {
        assert j' in s'.applied;
      }
    }
  }

  /** In every reset-free run from a fresh scanner the watermark is the highest end of the handled successes. */
  lemma WatermarkIsHighestSuccess(c: Config, steps: seq<Step>)
    requires Runs(c, Fresh(), steps) && ResetFree(steps) && LocksGranted(steps)
    ensures var s := After(c, Fresh(), steps);
      && (forall j | j in s.applied :: j.span.last <= s.scanned)
      && (s.scanned == 0 || exists j :: j in s.applied && j.span.last == s.scanned)
  {
    RunAtHighestSuccess(c, 0, Fresh(), steps);
  }

  // ----- how far the watermark can be -----

  predicate Covers(spans: seq<Span>, b: nat) {
    exists i :: 0 <= i < |spans| && spans[i].first <= b <= spans[i].last
  }

  /** The highest block of the given ranges, or base. */
  function Top(base: nat, spans: seq<Span>): nat {
    if spans == [] then base else Max(Top(base, spans[..|spans| - 1]), spans[|spans| - 1].last)
  }

  /** A job that some continuation can still bring to a handled success. */
  predicate Revivable(c: Config, s: State, j: Job) {
    || j in s.queue || j in s.running || j in s.waiting
    || ((j in s.results || j in s.handling) && (j.ok || j.retries < c.maxRetries))
  }

  /**
   The ranges generated since the first k leave no gap above base, and nothing that is under way can lift the
   watermark, or start a tick, beyond their top.
   */
  ghost predicate Chased(c: Config, s: State, k: nat, base: nat) {
    && k <= |s.generated|
    && var top := Top(base, s.generated[k..]);
    && NoGap(s.generated[k..], base)
    && s.scanned <= top
    && (s.tick.GotWatermark? ==> s.tick.scanned <= top)
    && (s.tick.Emitting? ==> s.tick.next <= top + 1)
    && NothingAbove(c, s, top)
  }

  /** The ranges leave no block out between base and their top. */
  ghost predicate NoGap(spans: seq<Span>, base: nat) {
    forall b | base < b <= Top(base, spans) :: Covers(spans, b)
  }

  /** No job that can still succeed ends above the height. */
  ghost predicate NothingAbove(c: Config, s: State, height: nat) {
    forall j | Revivable(c, s, j) :: j.span.last <= height
  }

  lemma CoversMore(spans: seq<Span>, x: Span, b: nat)
    requires Covers(spans, b) || x.first <= b <= x.last
    ensures Covers(spans + [x], b)
  {
    var more := spans + [x];
    if Covers(spans, b) {
      var i :| 0 <= i < |spans| && spans[i].first <= b <= spans[i].last;
      assert more[i] == spans[i];
    } else {
      assert more[|spans|] == x;
    }
  }

  /** An emission adds one range, right above the top or below it, and moves the top to its end if that is higher. */
  lemma EmitRaisesTop(c: Config, s: State, k: nat, base: nat)
    requires s.tick.Emitting? && Enabled(c, s, Emit) && k <= |s.generated|
    ensures var s', x := Apply(c, s, Emit), NextSpan(s);
      && s'.generated[k..] == s.generated[k..] + [x]
      && Top(base, s'.generated[k..]) == Max(Top(base, s.generated[k..]), x.last)
  {
    var more := s.generated[k..] + [NextSpan(s)];
    assert Apply(c, s, Emit).generated[k..] == more;
    assert more[..|more| - 1] == s.generated[k..];
  }

  /** What an emission makes revivable is the new task alone. */
  lemma EmitRevives(c: Config, s: State, height: nat)
    requires s.tick.Emitting? && Enabled(c, s, Emit) && NothingAbove(c, s, height)
    ensures NothingAbove(c, Apply(c, s, Emit), Max(height, NextSpan(s).last))
  {
    forall j | Revivable(c, Apply(c, s, Emit), j)
      ensures Revivable(c, s, j) || j == Job(NextSpan(s), 0, false)
    {
    }
  }

  lemma OneMoreLeavesNoGap(spans: seq<Span>, x: Span, base: nat)
    requires NoGap(spans, base) && base <= Top(base, spans) && x.first <= Top(base, spans) + 1
    requires Top(base, spans + [x]) == Max(Top(base, spans), x.last)
    ensures NoGap(spans + [x], base)
  {
    forall b | base < b <= Top(base, spans + [x])
      ensures Covers(spans + [x], b)
    {
      assert b <= Top(base, spans) ==> Covers(spans, b);
      CoversMore(spans, x, b);
    }
  }

  lemma {:induction false} TopAboveBase(base: nat, spans: seq<Span>)
    ensures base <= Top(base, spans)
  {
    if spans != [] {
      TopAboveBase(base, spans[..|spans| - 1]);
    }
  }

  lemma EmitChased(c: Config, s: State, k: nat, base: nat)
    requires Chased(c, s, k, base) && Bounded(c, s) && Enabled(c, s, Emit)
    ensures Chased(c, Apply(c, s, Emit), k, base)
  {
    var spans, x := s.generated[k..], NextSpan(s);
    EmitRaisesTop(c, s, k, base);
    TopAboveBase(base, spans);
    OneMoreLeavesNoGap(spans, x, base);
    EmitRevives(c, s, Top(base, spans));
  }

  lemma StepChased(c: Config, s: State, step: Step, k: nat, base: nat)
    requires Chased(c, s, k, base) && Bounded(c, s) && Enabled(c, s, step) && !step.Reset?
    ensures Chased(c, Apply(c, s, step), k, base)
  {
    if step.Emit? {
      EmitChased(c, s, k, base);
    } else {
      var s' := Apply(c, s, step);
      assert s'.generated == s.generated;
      forall j | Revivable(c, s', j)
        ensures j.span.last <= Top(base, s.generated[k..])
      {
        if !Revivable(c, s, j) {
          match step
          case Finish(i, ok) => assert Revivable(c, s, s.running[i]);
          case Handle(i, locked) => assert Revivable(c, s, s.handling[i]);
          case _ =>
        }
      }
      if step.Handle? && s.handling[step.handler].ok {
        assert Revivable(c, s, s.handling[step.handler]);
      }
    }
  }

  lemma {:induction false} RunChased(c: Config, s: State, steps: seq<Step>, k: nat, base: nat)
    requires Chased(c, s, k, base) && Bounded(c, s) && Runs(c, s, steps) && ResetFree(steps)
    ensures Chased(c, After(c, s, steps), k, base)
    decreases steps
  {
    if steps != [] {
      StepChased(c, s, steps[0], k, base);
      StepBounded(c, s, steps[0]);
      RunChased(c, Apply(c, s, steps[0]), steps[1..], k, base);
    }
  }
}
