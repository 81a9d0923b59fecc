/** The scanner of one chain: its methods run the steps of the scan scheduler. */
module ChainScanner {
  import opened Machine
  import opened Wrappers
  import opened ScanScheduler
  import opened TaskRanges
  import ScanResults
  import Watermarks
  import Worker

  /** Fresh tasks for the given ranges. */
  function Tasks(spans: seq<Span>): seq<Job> {
    seq(|spans|, i requires 0 <= i < |spans| => Job(spans[i], 0, false))
  }

  /** The tasks that the loop of a tick makes from block `next` on, with room for `room` more in the queue. */
  function TickSpans(id: nat, next: uint64, last: uint64, batch: pos, room: nat): seq<Span>
    decreases room
  {
    if next > last || room == 0 then []
    else
      [Span(id, next, Min(Wrap(Wrap(next + batch) - 1), last))]
      + TickSpans(id + 1, Wrap(next + batch), last, batch, room - 1)
  }

  /**
   As long as its additions stay below 2^64 the loop makes the batches of the range, or as many as there is room for.
   */
  lemma {:induction false} TickSpansAreChunks(id: nat, next: uint64, last: uint64, batch: pos, room: nat)
    requires last + batch < U64
    ensures var due := Chunks(id, next, last, batch);
      TickSpans(id, next, last, batch, room) == due[..Min(room, |due|)]
    decreases room
  {
    if next <= last && room > 0 {
      TickSpansAreChunks(id + 1, next + batch, last, batch, room - 1);
      var rest := Chunks(id + 1, next + batch, last, batch);
      var x := Span(id, next, Min(next + batch - 1, last));
      assert ([x] + rest)[..Min(room, |rest| + 1)] == [x] + rest[..Min(room - 1, |rest|)];
    }
  }

  /** A state with more tasks enqueued, between two ticks. */
  function Enqueued(s: State, spans: seq<Span>): State {
    s.(tick := Idle, queue := s.queue + Tasks(spans), generated := s.generated + spans)
  }

  lemma EmitEffect(c: Config, s: State, next: nat, last: nat, batch: pos)
    requires s.tick == Emitting(next, last, batch) && |s.queue| < c.QueueCap()
    ensures var x := Span(|s.generated|, next, Min(next + batch - 1, last));
      && Apply(c, s, Emit).(tick := Idle) == Enqueued(s, [x])
      && Apply(c, s, Emit).tick == if next + batch > last then Idle else Emitting(next + batch, last, batch)
  {
  }

  lemma EnqueuedTwice(s: State, x: Span, more: seq<Span>)
    ensures Enqueued(Enqueued(s, [x]), more) == Enqueued(s, [x] + more)
  {
    assert Tasks([x]) + Tasks(more) == Tasks([x] + more);
    assert s.queue + Tasks([x]) + Tasks(more) == s.queue + (Tasks([x]) + Tasks(more));
    assert s.generated + [x] + more == s.generated + ([x] + more);
  }

  /** The loop of a tick that started in s has made the tasks `made`, and goes on at block `next`. */
  ghost predicate TickAt(s: State, s': State, spans: seq<Span>, made: seq<Span>, next: uint64, last: uint64, batch: pos,
                         room: nat) {
    && s' == Enqueued(s, made) && |made| <= room
    && spans == made + TickSpans(|s.generated| + |made|, next, last, batch, room - |made|)
  }

  lemma TickStep(s: State, s': State, spans: seq<Span>, made: seq<Span>, next: uint64, last: uint64, batch: pos,
                 room: nat)
    requires TickAt(s, s', spans, made, next, last, batch, room) && next <= last && |made| < room
    ensures var x := Span(|s'.generated|, next, Min(Wrap(Wrap(next + batch) - 1), last));
      TickAt(s, WithTask(s', x), spans, made + [x], Wrap(next + batch), last, batch, room)
  {
    var id := |s.generated| + |made|;
    var x := Span(id, next, Min(Wrap(Wrap(next + batch) - 1), last));
    OneMoreEnqueued(s, made, x);
    OneMoreMade(spans, made, id, next, last, batch, room - |made|);
  }

  /** The effect of one enqueued task. */
  function WithTask(s: State, x: Span): State {
    s.(queue := s.queue + [Job(x, 0, false)], generated := s.generated + [x])
  }

  lemma OneMoreEnqueued(s: State, made: seq<Span>, x: Span)
    ensures Enqueued(s, made + [x]) == WithTask(Enqueued(s, made), x)
    ensures |Enqueued(s, made).generated| == |s.generated| + |made|
  {
    assert Tasks(made + [x]) == Tasks(made) + [Job(x, 0, false)];
  }

  lemma OneMoreMade(spans: seq<Span>, made: seq<Span>, id: nat, next: uint64, last: uint64, batch: pos, room: nat)
    requires spans == made + TickSpans(id, next, last, batch, room) && next <= last && room > 0
    ensures var x := Span(id, next, Min(Wrap(Wrap(next + batch) - 1), last));
      spans == (made + [x]) + TickSpans(id + 1, Wrap(next + batch), last, batch, room - 1)
  {
  }

  /** The emissions of a tick, up to the end of the range or of the room in the queue. */
  lemma {:induction false} EmitAll(c: Config, s: State, next: nat, last: nat, batch: pos)
    requires s.tick == (if next > last then Idle else Emitting(next, last, batch)) && |s.queue| <= c.QueueCap()
    ensures var due := Chunks(|s.generated|, next, last, batch);
      var n := Min(|due|, c.QueueCap() - |s.queue|);
      0 <= n && ScanResults.Reaches(c, s, Enqueued(s, due[..n]))
    decreases last - next
  {
    var due := Chunks(|s.generated|, next, last, batch);
    if next > last {
      assert Enqueued(s, []) == s;
      ScanResults.ReachesSelf(c, s);
    } else if |s.queue| == c.QueueCap() {
      ScanResults.ReachesOne(c, s, GiveUp);
      assert Enqueued(s, due[..0]) == Apply(c, s, GiveUp);
    } else {
      var s' := Apply(c, s, Emit);
      EmitEffect(c, s, next, last, batch);
      EmitAll(c, s', next + batch, last, batch);
      var rest := Chunks(|s'.generated|, next + batch, last, batch);
      var n := Min(|rest|, c.QueueCap() - |s'.queue|);
      ScanResults.ReachesOne(c, s, Emit);
      ScanResults.ReachesOn(c, s, s', Enqueued(s', rest[..n]));
      EnqueuedTwice(s, due[0], rest[..n]);
      assert due[..n + 1] == [due[0]] + rest[..n];
    }
  }

  /**
   A whole tick from s to s': it is a run of the system, and the new tasks are the first batches of the due range, all
   of them or as many as the queue had room for.
   */
  ghost predicate TickDone(c: Config, s: State, s': State, current: nat, finalized: nat) {
    var due := Chunks(|s.generated|, s.scanned + 1, Min(finalized, current), BatchFor(c, |s.queue|));
    var n := Min(|due|, c.QueueCap() - |s.queue|);
    0 <= n && s' == Enqueued(s, due[..n]) && ScanResults.Reaches(c, s, s')
  }

  lemma TickIsRun(c: Config, s: State, current: nat, finalized: nat)
    requires s.tick.Idle? && |s.queue| <= c.QueueCap()
    ensures var due := Chunks(|s.generated|, s.scanned + 1, Min(finalized, current), BatchFor(c, |s.queue|));
      var n := Min(|due|, c.QueueCap() - |s.queue|);
      0 <= n && TickDone(c, s, Enqueued(s, due[..n]), current, finalized)
  {
    var s1 := Apply(c, s, ReadWatermark);
    var s2 := Apply(c, s1, ReadHeights(current, finalized));
    ScanResults.ReachesOne(c, s, ReadWatermark);
    ScanResults.ReachesOne(c, s1, ReadHeights(current, finalized));
    ScanResults.ReachesOn(c, s, s1, s2);
    EmitAll(c, s2, s.scanned + 1, Min(finalized, current), BatchFor(c, |s.queue|));
    var due := Chunks(|s.generated|, s.scanned + 1, Min(finalized, current), BatchFor(c, |s.queue|));
    var n := Min(|due|, c.QueueCap() - |s.queue|);
    assert Enqueued(s2, due[..n]) == Enqueued(s, due[..n]);
    ScanResults.ReachesOn(c, s, s2, Enqueued(s, due[..n]));
  }

  class Scanner {
    const config: Config
    const watermark: Watermarks.WatermarkManager
    var taskQueue: seq<Job>
    var running: seq<Job>
    var resultQueue: seq<Job>
    var handling: seq<Job>
    var waiting: seq<Job>
    var generated: seq<Span>   // the log of all ranges handed out; its length numbers the next one
    ghost var applied: seq<Job>      // where results end: handled, given up, or lost at the full channel
    ghost var abandoned: seq<Job>
    ghost var dropped: seq<Job>

    constructor (config: Config, depth: uint64)
      ensures this.config == config && View() == Fresh()
    {
      this.config := config;
      watermark := new Watermarks.WatermarkManager(depth);
      taskQueue, running, resultQueue, handling, waiting := [], [], [], [], [];
      generated, applied, abandoned, dropped := [], [], [], [];
    }

    /** The state of the scheduler between two ticks. */
    ghost function View(): State
      reads this, watermark
    {
      State(watermark.watermark.scanned, Idle, generated, taskQueue, running, resultQueue, handling, waiting,
            applied, abandoned, dropped)
    }

    /** The uint64 additions of a tick stay exact. */
    ghost predicate NoWrap(current: uint64, finalized: uint64)
      reads this, watermark
    {
      watermark.watermark.scanned + 1 < U64 && Min(finalized, current) + BatchFor(config, |taskQueue|) < U64
    }

    /** The tasks of a tick, with the wrap-around of its uint64 additions. */
    ghost function TickTasks(current: uint64, finalized: uint64): seq<Span>
      reads this, watermark
      requires |taskQueue| <= config.QueueCap()
    {
      TickSpans(|generated|, Wrap(watermark.watermark.scanned + 1), Min(finalized, current),
                BatchFor(config, |taskQueue|), config.QueueCap() - |taskQueue|)
    }

    /** Back pressure, computed from the current length of the queue. */
    method BatchSize() returns (size: pos)
      ensures size == BatchFor(config, |taskQueue|)
      ensures size == Max(1,
        if |taskQueue| > 8 * config.workers then config.batchSize / 4
        else if |taskQueue| > 5 * config.workers then config.batchSize / 2
        else config.batchSize)
    {
      var n := config.batchSize;
      if 5 * |taskQueue| > 4 * config.QueueCap() {
        n := config.batchSize / 4;
      } else if 2 * |taskQueue| > config.QueueCap() {
        n := config.batchSize / 2;
      }
      size := if n < 1 then 1 else n;
    }

    /**
     One tick: enqueues the due range batch by batch until it is covered or the queue is full.  As long as the uint64
     additions do not wrap, the tick is a run of the system; when they do, the loop goes on from block 0 until the queue
     is full.
     */
    method GenerateTasks(current: Option<uint64>, finalized: Option<uint64>)
      requires |taskQueue| <= config.QueueCap()
      modifies this`taskQueue, this`generated
      ensures |taskQueue| <= config.QueueCap()
      ensures current.None? || finalized.None? ==> View() == old(View())
      ensures current.Some? && finalized.Some? ==>
        View() == Enqueued(old(View()), old(TickTasks(current.value, finalized.value)))
      ensures current.Some? && finalized.Some? && old(NoWrap(current.value, finalized.value)) ==>
        TickDone(config, old(View()), View(), current.value, finalized.value)
      ensures current.Some? && finalized.Some? && old(NoWrap(current.value, finalized.value)) ==>
        var last := if finalized.value < current.value then finalized.value else current.value;
        var batch := BatchFor(config, |old(taskQueue)|);
        var due := Chunks(|old(generated)|, old(watermark.watermark.scanned) + 1, last, batch);
        var n := if |due| < 10 * config.workers - |old(taskQueue)| then |due|
                 else 10 * config.workers - |old(taskQueue)|;
        n >= 0 && generated == old(generated) + due[..n] && taskQueue == old(taskQueue) + Tasks(due[..n])
    {
      if current.None? || finalized.None? {
        return;
      }
      ghost var s, exact := View(), NoWrap(current.value, finalized.value);
      ghost var room := config.QueueCap() - |taskQueue|;
      var startBlock: uint64 := Wrap(watermark.watermark.scanned + 1);
      var endBlock: uint64 := Min(finalized.value, current.value);
      var batchSize := BatchSize();
      EnqueueRange(startBlock, endBlock, batchSize);
      if exact {
        TickSpansAreChunks(|s.generated|, startBlock, endBlock, batchSize, room);
        TickIsRun(config, s, current.value, finalized.value);
      }
    }

    /** The loop of a tick. */
    method EnqueueRange(startBlock: uint64, endBlock: uint64, batchSize: pos)
      requires |taskQueue| <= config.QueueCap()
      modifies this`taskQueue, this`generated
      ensures |taskQueue| <= config.QueueCap()
      ensures var room := config.QueueCap() - |old(taskQueue)|;
        View() == Enqueued(old(View()), TickSpans(|old(generated)|, startBlock, endBlock, batchSize, room))
    {
      ghost var s, room := View(), config.QueueCap() - |taskQueue|;
      ghost var spans, made := TickSpans(|generated|, startBlock, endBlock, batchSize, room), [];
      var blockNumber: uint64 := startBlock;
      while blockNumber <= endBlock && |taskQueue| < config.QueueCap()
        invariant |taskQueue| <= config.QueueCap()
        invariant TickAt(s, View(), spans, made, blockNumber, endBlock, batchSize, room)
        decreases config.QueueCap() - |taskQueue|
      {
        TickStep(s, View(), spans, made, blockNumber, endBlock, batchSize, room);
        var taskEndBlock: uint64 := Min(Wrap(Wrap(blockNumber + batchSize) - 1), endBlock);
        var span := Span(|generated|, blockNumber, taskEndBlock);
        taskQueue := taskQueue + [Job(span, 0, false)];
        generated := generated + [span];
        blockNumber := Wrap(blockNumber + batchSize);
        made := made + [span];
      }
      assert made == spans;
    }

    /**
     Worker `i` scans its task and sends the result; a full result channel drops it.  The result tells the outcome of
     the scan, and for a task of the shape that ticks generate success means that every block of it was requested in
     order.
     */
    method ProcessTask(i: nat, client: Worker.Client, cancelled: nat -> bool, parallelRequests: int)
      returns (r: Worker.Report, requested: seq<int>)
      requires i < |running|
      requires var x := running[i].span;
        x.first < U64 && x.last < U64 - 1 && x.last + Worker.Width(parallelRequests) * config.batchSize < U64
      modifies this`running, this`resultQueue, this`dropped
      ensures View() == Apply(config, old(View()), Finish(i, r.ok))
      ensures running == old(running[..i]) + old(running[i + 1..])
      ensures |old(resultQueue)| < 10 * config.workers ==>
        resultQueue == old(resultQueue) + [old(running[i]).(ok := r.ok)] && dropped == old(dropped)
      ensures |old(resultQueue)| >= 10 * config.workers ==>
        resultQueue == old(resultQueue) && dropped == old(dropped) + [old(running[i]).(ok := r.ok)]
      ensures var x := old(running[i]).span;
        if Worker.PathOf(x.first, x.last, config.batchSize).Invalid? then !r.ok && requested == []
        else
          Worker.Outcome(client, cancelled, Worker.BatchesOf(x.first, x.last, config.batchSize, parallelRequests),
                         r, requested)
      ensures var x := old(running[i]).span;
        1 <= config.batchSize < I63 && ShapedSpan(config, x) && r.ok ==> requested == Heights(x.first, x.last)
    {
      var task := running[i];
      var x := task.span;
      r, requested := Worker.ScanBlocks(client, cancelled, x.first, x.last, config.batchSize, parallelRequests);
      if 1 <= config.batchSize < I63 && ShapedSpan(config, x) {
        Worker.SuccessRequestsTask(config, parallelRequests, x, client, cancelled, r, requested);
      }
      var result := task.(ok := r.ok);
      running := Without(running, i);
      if |resultQueue| < config.QueueCap() {
        resultQueue := resultQueue + [result];
      } else {
        dropped := dropped + [result];
      }
    }

    /** Result handler `i` handles the result it holds. */
    method HandleResult(i: nat, locked: bool)
      requires i < |handling| && handling[i].span.last < U64
      modifies this`handling, this`applied, this`waiting, this`abandoned, watermark`watermark
      ensures View() == Apply(config, old(View()), Handle(i, locked))
      ensures handling == old(handling[..i]) + old(handling[i + 1..])
      ensures var result := old(handling[i]); var scanned := old(watermark.watermark.scanned);
        if result.ok then
          && applied == old(applied) + [result] && waiting == old(waiting) && abandoned == old(abandoned)
          && watermark.watermark.scanned == if locked then Max(scanned, result.span.last) else scanned
        else
          && applied == old(applied) && watermark.watermark.scanned == scanned
          && if result.retries < config.maxRetries
             then waiting == old(waiting) + [result.(retries := result.retries + 1)] && abandoned == old(abandoned)
             else abandoned == old(abandoned) + [result] && waiting == old(waiting)
    {
      var result := handling[i];
      handling := Without(handling, i);
      if result.ok {
        HandleSuccessResult(result, locked);
      } else {
        HandleFailureResult(result);
      }
    }

    /** A failed watermark update is logged and nothing else. */
    method HandleSuccessResult(result: Job, locked: bool)
      requires result.span.last < U64
      modifies this`applied, watermark`watermark
      ensures applied == old(applied) + [result]
      ensures watermark.watermark.scanned ==
        if locked then Max(old(watermark.watermark.scanned), result.span.last) else old(watermark.watermark.scanned)
    {
      var ok := watermark.UpdateScannedHeight(result.span.last, locked);
      applied := applied + [result];
    }

    method HandleFailureResult(result: Job)
      modifies this`waiting, this`abandoned
      ensures if result.retries < config.maxRetries
        then waiting == old(waiting) + [result.(retries := result.retries + 1)] && abandoned == old(abandoned)
        else abandoned == old(abandoned) + [result] && waiting == old(waiting)
    {
      if result.retries < config.maxRetries {
        waiting := waiting + [result.(retries := result.retries + 1)];
      } else {
        abandoned := abandoned + [result];
      }
    }

    /** Asked for by a rollback. */
    method ResetWatermark(height: uint64, locked: bool) returns (ok: bool)
      modifies watermark
      ensures View() == Apply(config, old(View()), Reset(height, locked))
      ensures watermark.watermark ==
        if ok then old(watermark.watermark).(scanned := height) else old(watermark.watermark)
      ensures ok == (locked && height <= old(watermark.watermark.scanned))
    {
      ok := watermark.ResetToHeight(height, locked);
    }
  }
}
