/** What holds of every run of the scan scheduler, with and without resets of the watermark. */
module ScanResults {
  import opened Machine
  import opened ScanScheduler

  // ----- conservation -----

  /** Every chain height that a tick read is at most `highest`. */
  predicate ReadsAtMost(steps: seq<Step>, highest: nat) {
    forall i | 0 <= i < |steps| && steps[i].ReadHeights? :: Min(steps[i].finalized, steps[i].current) <= highest
  }

  /** Ranges generated since the first k, and the one a running tick is emitting, end at `highest` or below. */
  predicate Capped(s: State, k: nat, highest: nat) {
    && (forall i | k <= i < |s.generated| :: s.generated[i].last <= highest)
    && (s.tick.Emitting? ==> s.tick.last <= highest)
  }

  lemma {:induction false} RunCapped(c: Config, s: State, steps: seq<Step>, k: nat, highest: nat)
    requires Capped(s, k, highest) && Runs(c, s, steps) && ReadsAtMost(steps, highest)
    ensures Capped(After(c, s, steps), k, highest)
    ensures s.generated <= After(c, s, steps).generated
    decreases steps
  {
    if steps != [] {
      var s' := Apply(c, s, steps[0]);
      assert Capped(s', k, highest);
      assert ReadsAtMost(steps[1..], highest) by {
        forall i | 0 <= i < |steps[1..]| && steps[1..][i].ReadHeights?
          ensures Min(steps[1..][i].finalized, steps[1..][i].current) <= highest
        {
          assert steps[1..][i] == steps[i + 1];
        }
      }
      RunCapped(c, s', steps[1..], k, highest);
    }
  }

  lemma {:induction false} TopCapped(base: nat, spans: seq<Span>, highest: nat)
    requires forall i | 0 <= i < |spans| :: spans[i].last <= highest
    ensures Top(base, spans) <= Max(base, highest)
  {
    if spans != [] {
      TopCapped(base, spans[..|spans| - 1], highest);
    }
  }

  /** Block b lies in a task generated after the first k, and that task is in exactly one place. */
  predicate HasOneTask(s: State, k: nat, b: nat) {
    exists i :: k <= i < |s.generated| && s.generated[i].first <= b <= s.generated[i].last
                && Population(s, s.generated[i]) == 1
  }

  lemma QuietChased(c: Config, s: State)
    requires Quiet(s)
    ensures Chased(c, s, |s.generated|, s.scanned)
  {
    assert s.generated[|s.generated|..] == [];
  }

  /**
   In every reset-free run from a quiet state, under any interleaving, each block that the watermark passed lies in a
   task that was generated in this run and is in exactly one place: queued, running, in the result channel, being
   handled, waiting for a retry, applied, abandoned or dropped.  The watermark never passes the highest
   min(finalized, current) that a tick of the run read.
   */
  lemma Conservation(c: Config, s0: State, steps: seq<Step>, highest: nat)
    requires Accounted(s0) && Quiet(s0)
    requires Runs(c, s0, steps) && ResetFree(steps) && ReadsAtMost(steps, highest)
    ensures var s := After(c, s0, steps);
      && s.scanned <= Max(s0.scanned, highest)
      && s0.generated <= s.generated
      && forall b | s0.scanned < b <= s.scanned :: HasOneTask(s, |s0.generated|, b)
  {
    var s, k := After(c, s0, steps), |s0.generated|;
    QuietChased(c, s0);
    RunChased(c, s0, steps, k, s0.scanned);
    RunAccounted(c, s0, steps);
    RunCapped(c, s0, steps, k, highest);
    TopCapped(s0.scanned, s.generated[k..], highest);
    forall b | s0.scanned < b <= s.scanned
      ensures HasOneTask(s, k, b)
    {
      assert Covers(s.generated[k..], b);
      var n :| 0 <= n < |s.generated[k..]| && s.generated[k..][n].first <= b <= s.generated[k..][n].last;
      assert s.generated[k..][n] == s.generated[k + n];
      assert Population(s, s.generated[k + n]) == 1;
    }
  }

  /**
   When all is quiet again, nothing was abandoned and no failed result was dropped, every passed block was scanned.
   */
  lemma QuiescentRunScannedAll(c: Config, s0: State, steps: seq<Step>, b: nat)
    requires Accounted(s0) && Quiet(s0)
    requires Runs(c, s0, steps) && ResetFree(steps)
    requires var s := After(c, s0, steps);
      && Quiet(s) && s0.scanned < b <= s.scanned
      && s.abandoned == [] && forall j | j in s.dropped :: j.ok
    ensures var s := After(c, s0, steps);
      exists j :: (j in s.applied || j in s.dropped) && j.ok && j.span.id >= |s0.generated|
        && j.span.first <= b <= j.span.last
  {
    var s := After(c, s0, steps);
    RunAccounted(c, s0, steps);
    var highest := HighestRead(steps);
    Conservation(c, s0, steps, highest);
    assert HasOneTask(s, |s0.generated|, b);
    var i :| |s0.generated| <= i < |s.generated| && s.generated[i].first <= b <= s.generated[i].last
             && Population(s, s.generated[i]) == 1;
    var x := s.generated[i];
    CountMember(s.applied, x);
    CountMember(s.dropped, x);
    assert exists j :: (j in s.applied || j in s.dropped) && j.span == x;
  }

  function HighestRead(steps: seq<Step>): (h: nat)
    ensures ReadsAtMost(steps, h)
  {
    if steps == [] then 0
    else
      var rest := HighestRead(steps[1..]);
      assert forall i | 0 < i < |steps| :: steps[i] == steps[1..][i - 1];
      if steps[0].ReadHeights? then Max(rest, Min(steps[0].finalized, steps[0].current)) else rest
  }

  /** Ranges generated since the first k, and those that a running tick will generate, begin above `low`. */
  ghost predicate Ahead(s: State, k: nat, low: nat) {
    && s.scanned >= low && k <= |s.generated|
    && (s.tick.GotWatermark? ==> s.tick.scanned >= low)
    && (s.tick.Emitting? ==> s.tick.next > low)
    && (forall i | k <= i < |s.generated| :: s.generated[i].first > low)
  }

  lemma {:induction false} RunAhead(c: Config, s: State, steps: seq<Step>, k: nat, low: nat)
    requires Ahead(s, k, low) && Runs(c, s, steps) && ResetFree(steps)
    ensures Ahead(After(c, s, steps), k, low)
    decreases steps
  {
    if steps != [] {
      assert !steps[0].Reset?;
      RunAhead(c, Apply(c, s, steps[0]), steps[1..], k, low);
    }
  }

  /** Without a reset a quiet scanner never goes again over a block at or below its watermark. */
  lemma NothingBelowIsScannedAgain(c: Config, s0: State, steps: seq<Step>, b: nat)
    requires Quiet(s0) && b <= s0.scanned && Runs(c, s0, steps) && ResetFree(steps)
    ensures |s0.generated| <= |After(c, s0, steps).generated|
    ensures !Covers(After(c, s0, steps).generated[|s0.generated|..], b)
  {
    RunAhead(c, s0, steps, |s0.generated|, s0.scanned);
  }

  // ----- runs put together -----

  lemma {:induction false} RunsConcat(c: Config, s: State, a: seq<Step>, b: seq<Step>)
    requires Runs(c, s, a) && Runs(c, After(c, s, a), b)
    ensures Runs(c, s, a + b) && After(c, s, a + b) == After(c, After(c, s, a), b)
    decreases a
  {
    if a == [] {
      assert a + b == b;
    } else {
      RunsConcat(c, Apply(c, s, a[0]), a[1..], b);
      assert (a + b)[1..] == a[1..] + b;
    }
  }

  /** s' can be reached from s without a reset. */
  ghost predicate Reaches(c: Config, s: State, s': State) {
    exists steps :: ReachesBy(c, s, steps, s')
  }

  ghost predicate ReachesBy(c: Config, s: State, steps: seq<Step>, s': State) {
    Runs(c, s, steps) && ResetFree(steps) && After(c, s, steps) == s'
  }

  /** s' can be reached from s without a reset and without generating a task. */
  ghost predicate Leads(c: Config, s: State, s': State) {
    Reaches(c, s, s') && s'.generated == s.generated
  }

  lemma ReachesSelf(c: Config, s: State)
    ensures Reaches(c, s, s)
  {
    assert ReachesBy(c, s, [], s);
  }

  lemma ReachesOne(c: Config, s: State, step: Step)
    requires Enabled(c, s, step) && !step.Reset?
    ensures Reaches(c, s, Apply(c, s, step))
  {
    assert Runs(c, Apply(c, s, step), [step][1..]);
    assert ReachesBy(c, s, [step], Apply(c, s, step));
  }

  lemma ReachesOn(c: Config, s: State, s': State, s'': State)
    requires Reaches(c, s, s') && Reaches(c, s', s'')
    ensures Reaches(c, s, s'')
  {
    var a :| ReachesBy(c, s, a, s');
    var b :| ReachesBy(c, s', b, s'');
    RunsConcat(c, s, a, b);
    assert ReachesBy(c, s, a + b, s'');
  }

  // ----- reset and rescan -----

  /**
   Until the next reset, each block in (height, watermark] belongs to a task generated after the reset to height.
   */
  ghost predicate RescanSafe(c: Config, s: State, height: nat)
    requires height <= s.scanned
  {
    var start := Apply(c, s, Reset(height, true));
    forall steps | Runs(c, start, steps) && ResetFree(steps) :: Rescanned(After(c, start, steps), |s.generated|, height)
  }

  /** Each block in (height, watermark] is in a range generated after the first k. */
  ghost predicate Rescanned(s: State, k: nat, height: nat) {
    k <= |s.generated| && forall b | height < b <= s.scanned :: Covers(s.generated[k..], b)
  }

  /** Something under way at the reset can lift the watermark, or start emitting, beyond height. */
  ghost predicate CanOvertake(c: Config, s: State, height: nat) {
    || (exists j :: Revivable(c, s, j) && j.span.last > height)
    || (s.tick.GotWatermark? && s.tick.scanned > height)
    || (s.tick.Emitting? && s.tick.next > height + 1)
  }

  lemma NoOvertakingIsSafe(c: Config, s: State, height: nat)
    requires Bounded(c, s) && height <= s.scanned && !CanOvertake(c, s, height)
    ensures RescanSafe(c, s, height)
  {
    var start, k := Apply(c, s, Reset(height, true)), |s.generated|;
    assert s.generated[k..] == [];
    assert forall j :: Revivable(c, start, j) ==> Revivable(c, s, j);
    assert Chased(c, start, k, height);
    forall steps | Runs(c, start, steps) && ResetFree(steps)
      ensures Chased(c, After(c, start, steps), k, height)
    {
      RunChased(c, start, steps, k, height);
    }
  }

  /** No result is waiting to be handled. */
  predicate Drained(s: State) {
    s.results == [] && s.handling == []
  }

  /** A job that is queued, running or waiting and ends at b or above. */
  ghost predicate Live(s: State, b: nat) {
    exists j :: (j in s.queue || j in s.running || j in s.waiting) && j.span.last >= b
  }

  lemma {:induction false} Drain(c: Config, s: State, b: nat) returns (s': State)
    requires c.workers >= 1 && Bounded(c, s)
    requires exists j :: Revivable(c, s, j) && j.span.last >= b
    ensures Leads(c, s, s') && Bounded(c, s')
    ensures s'.scanned >= b || (Drained(s') && Live(s', b))
    decreases 2 * |s.results| + |s.handling|
  {
    if s.scanned >= b || Drained(s) {
      ReachesSelf(c, s);
      s' := s;
    } else {
      var step := if s.handling != [] then Handle(0, true) else Take;
      var next := Apply(c, s, step);
      ReachesOne(c, s, step);
      StepBounded(c, s, step);
      if next.scanned >= b {
        s' := next;
      } else {
        var j :| Revivable(c, s, j) && j.span.last >= b;
        if step.Handle? && j == s.handling[0] && !Revivable(c, next, j) {
          assert next.waiting[|s.waiting|] == j.(retries := j.retries + 1);
          assert Revivable(c, next, j.(retries := j.retries + 1));
        } else {
          assert Revivable(c, next, j);
        }
        s' := Drain(c, next, b);
        ReachesOn(c, s, next, s');
      }
    }
  }

  /** A worker finishes its scan and the result is handled at once. */
  lemma FinishAndHandle(c: Config, s: State, i: nat, ok: bool) returns (s': State)
    requires c.workers >= 1 && Bounded(c, s) && Drained(s) && i < |s.running|
    ensures Leads(c, s, s') && Bounded(c, s') && Drained(s')
    ensures s'.running == Without(s.running, i) && s'.queue == s.queue && s.waiting <= s'.waiting
    ensures ok ==> s'.scanned >= s.running[i].span.last
  {
    var a := Apply(c, s, Finish(i, ok));
    ReachesOne(c, s, Finish(i, ok));
    var d := Apply(c, a, Take);
    ReachesOne(c, a, Take);
    s' := Apply(c, d, Handle(0, true));
    ReachesOne(c, d, Handle(0, true));
    ReachesOn(c, s, a, d);
    ReachesOn(c, s, d, s');
    StepBounded(c, s, Finish(i, ok));
    StepBounded(c, a, Take);
    StepBounded(c, d, Handle(0, true));
  }

  /** The head of the queue reaches a worker. */
  lemma DequeueHead(c: Config, s: State) returns (s': State)
    requires c.workers >= 1 && Bounded(c, s) && Drained(s) && s.queue != []
    ensures Leads(c, s, s') && Bounded(c, s') && Drained(s')
    ensures s'.queue == s.queue[1..] && s.waiting <= s'.waiting && s.queue[0] in s'.running
  {
    var free := s;
    ReachesSelf(c, s);
    if |s.running| == c.workers {
      free := FinishAndHandle(c, s, 0, false);
    }
    s' := Apply(c, free, Dequeue);
    ReachesOne(c, free, Dequeue);
    StepBounded(c, free, Dequeue);
    ReachesOn(c, s, free, s');
    assert s'.running[|s'.running| - 1] == s.queue[0];
  }

  lemma {:induction false} QueuedSucceeds(c: Config, s: State, i: nat, b: nat) returns (s': State)
    requires c.workers >= 1 && Bounded(c, s) && Drained(s)
    requires i < |s.queue| && s.queue[i].span.last >= b
    ensures Leads(c, s, s') && s'.scanned >= b
    decreases i
  {
    var next := DequeueHead(c, s);
    if i == 0 {
      var n :| 0 <= n < |next.running| && next.running[n] == s.queue[0];
      s' := FinishAndHandle(c, next, n, true);
    } else {
      s' := QueuedSucceeds(c, next, i - 1, b);
    }
    ReachesOn(c, s, next, s');
  }

  lemma WaitingSucceeds(c: Config, s: State, i: nat, b: nat) returns (s': State)
    requires c.workers >= 1 && Bounded(c, s) && Drained(s)
    requires i < |s.waiting| && s.waiting[i].span.last >= b
    ensures Leads(c, s, s') && s'.scanned >= b
  {
    var room := s;
    ReachesSelf(c, s);
    if |s.queue| == c.QueueCap() {
      room := DequeueHead(c, s);
    }
    var queued := Apply(c, room, Requeue(i));
    ReachesOne(c, room, Requeue(i));
    StepBounded(c, room, Requeue(i));
    ReachesOn(c, s, room, queued);
    s' := QueuedSucceeds(c, queued, |queued.queue| - 1, b);
    ReachesOn(c, s, queued, s');
  }

  /** Whatever job can still succeed does so in some continuation that generates nothing. */
  lemma RevivableSucceeds(c: Config, s: State, b: nat) returns (s': State)
    requires c.workers >= 1 && Bounded(c, s)
    requires exists j :: Revivable(c, s, j) && j.span.last >= b
    ensures Leads(c, s, s') && s'.scanned >= b
  {
    var d := Drain(c, s, b);
    if d.scanned >= b {
      s' := d;
    } else {
      var j :| (j in d.queue || j in d.running || j in d.waiting) && j.span.last >= b;
      if j in d.running {
        var i :| 0 <= i < |d.running| && d.running[i] == j;
        s' := FinishAndHandle(c, d, i, true);
      } else if j in d.queue {
        var i :| 0 <= i < |d.queue| && d.queue[i] == j;
        s' := QueuedSucceeds(c, d, i, b);
      } else {
        var i :| 0 <= i < |d.waiting| && d.waiting[i] == j;
        s' := WaitingSucceeds(c, d, i, b);
      }
      ReachesOn(c, s, d, s');
    }
  }

  /** A full task queue can make room without a handler. */
  lemma MakeRoom(c: Config, s: State) returns (s': State)
    requires c.workers >= 1 && Bounded(c, s)
    ensures Leads(c, s, s') && Bounded(c, s') && |s'.queue| < c.QueueCap() && s'.tick == s.tick
  {
    ReachesSelf(c, s);
    s' := s;
    if |s.queue| == c.QueueCap() {
      var free := s;
      if |s.running| == c.workers {
        free := Apply(c, s, Finish(0, false));
        ReachesOne(c, s, Finish(0, false));
        StepBounded(c, s, Finish(0, false));
      }
      s' := Apply(c, free, Dequeue);
      ReachesOne(c, free, Dequeue);
      StepBounded(c, free, Dequeue);
      ReachesOn(c, s, free, s');
    }
  }

  /** The watermark is beyond height and block `height + 1` is in no range generated after the first k. */
  predicate Skips(s: State, k: nat, height: nat) {
    s.scanned > height && k <= |s.generated| && !Covers(s.generated[k..], height + 1)
  }

  /** A tick goes on until it has covered the last block of its range. */
  lemma {:induction false} EmitsToTheEnd(c: Config, s: State, k: nat) returns (s': State)
    requires c.workers >= 1 && Bounded(c, s) && s.tick.Emitting? && k <= |s.generated|
    ensures Reaches(c, s, s') && k <= |s'.generated| && Covers(s'.generated[k..], s.tick.last)
    decreases if s.tick.Emitting? then s.tick.last - s.tick.next else 0
  {
    var room := MakeRoom(c, s);
    var x, emitted := NextSpan(room), Apply(c, room, Emit);
    ReachesOne(c, room, Emit);
    ReachesOn(c, s, room, emitted);
    StepBounded(c, room, Emit);
    assert emitted.generated[k..] == room.generated[k..] + [x];
    if x.last == s.tick.last {
      s' := emitted;
      assert s'.generated[k..][|room.generated| - k] == x;
    } else {
      s' := EmitsToTheEnd(c, emitted, k);
      ReachesOn(c, s, emitted, s');
    }
  }

  /** A tick that finds block b at the head of the chain generates a task for it, if it is above the watermark. */
  lemma AboveIsGenerated(c: Config, s: State, b: nat) returns (s': State)
    requires c.workers >= 1 && Quiet(s) && b > s.scanned
    ensures Reaches(c, s, s') && CoveredSince(s, s', b)
  {
    var s1 := Apply(c, s, ReadWatermark);
    var s2 := Apply(c, s1, ReadHeights(b, b));
    ReachesOne(c, s, ReadWatermark);
    ReachesOne(c, s1, ReadHeights(b, b));
    ReachesOn(c, s, s1, s2);
    s' := EmitsToTheEnd(c, s2, |s.generated|);
    ReachesOn(c, s, s2, s');
  }

  /** Block b is in a range generated between s0 and s. */
  predicate CoveredSince(s0: State, s: State, b: nat) {
    |s0.generated| <= |s.generated| && Covers(s.generated[|s0.generated|..], b)
  }

  /** No run without a reset generates a task for block b. */
  ghost predicate NeverGenerated(c: Config, s0: State, b: nat) {
    forall steps | Runs(c, s0, steps) && ResetFree(steps) :: !CoveredSince(s0, After(c, s0, steps), b)
  }

  /** From a quiet state these are exactly the blocks at or below the watermark. */
  lemma NeverGeneratedIff(c: Config, s0: State, b: nat)
    requires c.workers >= 1 && Quiet(s0)
    ensures NeverGenerated(c, s0, b) <==> b <= s0.scanned
  {
    if b <= s0.scanned {
      forall steps | Runs(c, s0, steps) && ResetFree(steps)
        ensures !CoveredSince(s0, After(c, s0, steps), b)
      {
        NothingBelowIsScannedAgain(c, s0, steps, b);
      }
    } else {
      var s := AboveIsGenerated(c, s0, b);
      var steps :| ReachesBy(c, s0, steps, s);
      assert CoveredSince(s0, After(c, s0, steps), b);
    }
  }

  lemma EmittingAheadSkips(c: Config, s: State, height: nat) returns (s': State)
    requires c.workers >= 1 && Bounded(c, s)
    requires s.tick.Emitting? && s.tick.next > height + 1
    ensures Reaches(c, s, s') && Skips(s', |s.generated|, height)
  {
    var room := MakeRoom(c, s);
    var emitted := Apply(c, room, Emit);
    ReachesOne(c, room, Emit);
    ReachesOn(c, s, room, emitted);
    StepBounded(c, room, Emit);
    var x := NextSpan(room);
    assert emitted.queue[|emitted.queue| - 1] == Job(x, 0, false);
    assert Revivable(c, emitted, Job(x, 0, false));
    s' := RevivableSucceeds(c, emitted, x.last);
    ReachesOn(c, s, emitted, s');
    assert s'.generated[|s.generated|..] == [x];
  }

  lemma OvertakingSkips(c: Config, s: State, height: nat) returns (s': State)
    requires c.workers >= 1 && Bounded(c, s) && height <= s.scanned && CanOvertake(c, s, height)
    ensures Reaches(c, Apply(c, s, Reset(height, true)), s') && Skips(s', |s.generated|, height)
  {
    var start := Apply(c, s, Reset(height, true));
    if j :| Revivable(c, s, j) && j.span.last > height {
      assert Revivable(c, start, j);
      s' := RevivableSucceeds(c, start, height + 1);
      assert s'.generated[|s.generated|..] == [];
    } else if s.tick.Emitting? {
      s' := EmittingAheadSkips(c, start, height);
    } else {
      var read := ReadHeights(s.tick.scanned + 1, s.tick.scanned + 1);
      var next := Apply(c, start, read);
      ReachesOne(c, start, read);
      s' := EmittingAheadSkips(c, next, height);
      ReachesOn(c, start, next, s');
    }
  }

  lemma OvertakingIsUnsafe(c: Config, s: State, height: nat)
    requires c.workers >= 1 && Bounded(c, s) && height <= s.scanned && CanOvertake(c, s, height)
    ensures !RescanSafe(c, s, height)
  {
    var s' := OvertakingSkips(c, s, height);
    var steps :| ReachesBy(c, Apply(c, s, Reset(height, true)), steps, s');
    assert !Rescanned(s', |s.generated|, height);
  }

  /**
   A reset to height makes the scanner go again over everything above height exactly when, at that moment, no job that
   can still succeed ends above height and no tick is ahead of height.
   */
  lemma RescanSafeIff(c: Config, s: State, height: nat)
    requires c.workers >= 1 && Bounded(c, s) && height <= s.scanned
    ensures RescanSafe(c, s, height) <==> !CanOvertake(c, s, height)
  {
    if CanOvertake(c, s, height) {
      OvertakingIsUnsafe(c, s, height);
    } else {
      NoOvertakingIsSafe(c, s, height);
    }
  }

  /** In particular a reset of a quiet scanner is safe, whatever ran before. */
  lemma QuietResetIsSafe(c: Config, before: seq<Step>, height: nat)
    requires Runs(c, Fresh(), before)
    requires var s := After(c, Fresh(), before); Quiet(s) && height <= s.scanned
    ensures RescanSafe(c, After(c, Fresh(), before), height)
  {
    RunAccounted(c, Fresh(), before);
    NoOvertakingIsSafe(c, After(c, Fresh(), before), height);
  }
}
