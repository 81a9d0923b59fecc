/** A worker: how it scans the block range of one task. */
module Worker {
  import opened Machine
  import opened Wrappers
  import opened ScanScheduler
  import opened TaskRanges

  /** The reply to one batch request: per returned block its transaction count, or None for a nil block. */
  type Reply = Option<seq<Option<nat>>>

  /** The chain client as an oracle: its reply to the n-th request of a scan. */
  type Client = (nat, seq<int>) -> Reply

  datatype Report = Report(ok: bool, blocks: nat, txs: nat)

  datatype Path = Invalid | Sequential | Parallel

  /** The blocks and transactions of one reply, nil blocks skipped. */
  function Tally(reply: seq<Option<nat>>): (nat, nat) {
    if reply == [] then (0, 0)
    else
      var (blocks, txs) := Tally(reply[..|reply| - 1]);
      match reply[|reply| - 1]
      case None => (blocks, txs)
      case Some(n) => (blocks + 1, txs + n)
  }

  /** A block counts once with its transactions, a nil block not at all, and the rest of the reply on its own. */
  lemma {:induction false} TallyAdds(a: seq<Option<nat>>, b: seq<Option<nat>>)
    ensures Tally([]) == (0, 0) && Tally([None]) == (0, 0) && forall n: nat :: Tally([Some(n)]) == (1, n)
    ensures Tally(a + b) == (Tally(a).0 + Tally(b).0, Tally(a).1 + Tally(b).1)
  {
    assert forall x: Option<nat> :: [x][..0] == [];
    if b == [] {
      assert a + b == a;
    } else {
      TallyAdds(a, b[..|b| - 1]);
      assert (a + b)[..|a + b| - 1] == a + b[..|b| - 1];
    }
  }

  /** The n-th request of a scan over these batches was answered. */
  predicate Answered(client: Client, batches: seq<Span>, n: nat)
    requires n < |batches|
  {
    client(n, Heights(batches[n].first, batches[n].last)).Some?
  }

  /** The totals over the first n requests. */
  function Total(client: Client, batches: seq<Span>, n: nat): (nat, nat)
    requires n <= |batches| && forall k | 0 <= k < n :: Answered(client, batches, k)
  {
    if n == 0 then (0, 0)
    else
      assert Answered(client, batches, n - 1);
      var (b0, t0) := Total(client, batches, n - 1);
      var (b1, t1) := Tally(client(n - 1, Heights(batches[n - 1].first, batches[n - 1].last)).value);
      (b0 + b1, t0 + t1)
  }

  /** The replies to the first n requests, one after the other. */
  function Replies(client: Client, batches: seq<Span>, n: nat): seq<Option<nat>>
    requires n <= |batches| && forall k | 0 <= k < n :: Answered(client, batches, k)
  {
    if n == 0 then []
    else
      assert Answered(client, batches, n - 1);
      Replies(client, batches, n - 1) + client(n - 1, Heights(batches[n - 1].first, batches[n - 1].last)).value
  }

  /** The totals are those of all replies together. */
  lemma {:induction false} TotalIsTally(client: Client, batches: seq<Span>, n: nat)
    requires n <= |batches| && forall k | 0 <= k < n :: Answered(client, batches, k)
    ensures Total(client, batches, n) == Tally(Replies(client, batches, n))
  {
    if n > 0 {
      assert Answered(client, batches, n - 1);
      TotalIsTally(client, batches, n - 1);
      TallyAdds(Replies(client, batches, n - 1),
                client(n - 1, Heights(batches[n - 1].first, batches[n - 1].last)).value);
    }
  }

  method CountBlocks(reply: seq<Option<nat>>) returns (blocks: nat, txs: nat)
    ensures (blocks, txs) == Tally(reply)
  {
    blocks, txs := 0, 0;
    for i := 0 to |reply|
      invariant (blocks, txs) == Tally(reply[..i])
    {
      assert reply[..i + 1][..i] == reply[..i];
      if reply[i].Some? {
        blocks, txs := blocks + 1, txs + reply[i].value;
      }
    }
    assert reply[..|reply|] == reply;
  }

  method BlockNumbers(first: uint64, last: uint64) returns (numbers: seq<int>)
    requires last < U64 - 1
    ensures numbers == Heights(first, last)
  {
    numbers := [];
    var n: uint64 := first;
    while n <= last
      invariant first <= n <= Max(first, last + 1)
      invariant numbers == Heights(first, n - 1)
      decreases last + 1 - n
    {
      HeightsSplit(first, n - 1, n);
      numbers := numbers + [n];
      n := Wrap(n + 1);
    }
  }

  /** The path that a scan of the range takes. */
  function PathOf(first: int, last: int, batchSize: nat): Path {
    var total := Signed(Wrap(last - first + 1));
    if total <= 0 then Invalid else if total <= Signed(batchSize * 2) then Sequential else Parallel
  }

  /** For a range that fits into int64: up to two batches are scanned in sequence. */
  lemma PathIs(first: int, last: int, batchSize: nat)
    requires 0 <= first <= last && last - first + 1 < I63 && 2 * batchSize < I63
    ensures PathOf(first, last, batchSize).Sequential? <==> last - first + 1 <= 2 * batchSize
    ensures PathOf(first, last, batchSize).Parallel? <==> last - first + 1 > 2 * batchSize
  {
  }

  /** A range that ends right before its start is invalid, and so are all that end up to 2^63 blocks before it. */
  lemma EmptyRangeIsInvalid(first: int, last: int, batchSize: nat)
    requires last < first <= last + I63
    ensures PathOf(first, last, batchSize).Invalid?
  {
  }

  /** How many batches the parallel path makes at most. */
  function Width(parallelRequests: int): nat {
    Max(2, parallelRequests)
  }

  /** The batches of a zero batch size: they end below their start, except that there is nothing below block 0. */
  function EmptyBatches(n: nat, first: nat, last: nat): seq<Span> {
    if n == 0 then []
    else EmptyBatches(n - 1, first, last) + [Span(n - 1, first, if first == 0 then last else first - 1)]
  }

  /** The batches of the parallel path: a prefix of the range's, at most `width` of them. */
  function ParallelOf(first: nat, last: nat, batchSize: nat, width: nat): seq<Span> {
    if first > last then []
    else if batchSize == 0 then EmptyBatches(width, first, last)
    else
      var all := Chunks(0, first, last, batchSize);
      all[..Min(width, |all|)]
  }

  /** The batches that a scan of the range requests. */
  function BatchesOf(first: nat, last: nat, batchSize: nat, parallelRequests: int): seq<Span> {
    match PathOf(first, last, batchSize)
    case Invalid => []
    case Sequential => Chunks(0, first, last, batchSize)
    case Parallel => ParallelOf(first, last, batchSize, Width(parallelRequests))
  }

  // ----- the outcome of a scan -----

  /** All requests are answered, each before the context is cancelled. */
  ghost predicate Succeeds(client: Client, cancelled: nat -> bool, batches: seq<Span>) {
    forall k | 0 <= k < |batches| :: Answered(client, batches, k) && !cancelled(k)
  }

  /** The first n batches were requested, answered and counted. */
  ghost predicate ScannedTo(client: Client, cancelled: nat -> bool, batches: seq<Span>, n: nat, r: Report,
                            requested: seq<int>) {
    && n <= |batches|
    && requested == HeightsOf(batches[..n])
    && (forall k | 0 <= k < n :: Answered(client, batches, k) && !cancelled(k))
    && r.ok && (r.blocks, r.txs) == Total(client, batches, n)
  }

  /** The scan ended at request n: all batches before it were answered, it was not or the context was cancelled then. */
  ghost predicate StoppedAt(client: Client, cancelled: nat -> bool, batches: seq<Span>, n: nat, requested: seq<int>) {
    && n < |batches|
    && (forall k | 0 <= k < n :: Answered(client, batches, k) && !cancelled(k))
    && (!Answered(client, batches, n) || cancelled(n))
    && requested == HeightsOf(batches[..n + 1])
  }

  /** The report on the first n parallel batches: fine when all were answered in time, failed once one was not. */
  ghost predicate ReportAt(client: Client, cancelled: nat -> bool, batches: seq<Span>, n: nat, r: Report,
                           requested: seq<int>) {
    && n <= |batches| && requested == HeightsOf(batches[..n])
    && (r.ok ==> ScannedTo(client, cancelled, batches, n, r, requested))
    && (!r.ok ==> exists k :: 0 <= k < n && (!Answered(client, batches, k) || cancelled(k)))
  }

  /**
   What a scan over these batches reports: success exactly when all were answered in time, and then all were requested
   and counted; else a prefix of them was requested.
   */
  ghost predicate Outcome(client: Client, cancelled: nat -> bool, batches: seq<Span>, r: Report, requested: seq<int>) {
    && (r.ok <==> Succeeds(client, cancelled, batches))
    && (r.ok ==> ScannedTo(client, cancelled, batches, |batches|, r, requested))
    && (!r.ok ==> requested <= HeightsOf(batches))
  }

  lemma CompleteOutcome(client: Client, cancelled: nat -> bool, batches: seq<Span>, r: Report, requested: seq<int>)
    requires ReportAt(client, cancelled, batches, |batches|, r, requested)
    ensures Outcome(client, cancelled, batches, r, requested)
  {
    assert batches[..|batches|] == batches;
  }

  lemma StoppedOutcome(client: Client, cancelled: nat -> bool, batches: seq<Span>, n: nat, r: Report,
                       requested: seq<int>)
    requires StoppedAt(client, cancelled, batches, n, requested) && !r.ok
    ensures Outcome(client, cancelled, batches, r, requested)
  {
    assert batches == batches[..n + 1] + batches[n + 1..];
    HeightsOfConcat(batches[..n + 1], batches[n + 1..]);
  }

  /** One more answered batch. */
  lemma ScannedOneMore(client: Client, cancelled: nat -> bool, batches: seq<Span>, n: nat, r: Report,
                       requested: seq<int>)
    requires ScannedTo(client, cancelled, batches, n, r, requested) && n < |batches|
    ensures var numbers := Heights(batches[n].first, batches[n].last);
      && (client(n, numbers).Some? && !cancelled(n) ==>
            var (blocks, txs) := Tally(client(n, numbers).value);
            var r' := Report(true, r.blocks + blocks, r.txs + txs);
            ScannedTo(client, cancelled, batches, n + 1, r', requested + numbers))
      && (client(n, numbers).None? || cancelled(n) ==>
            StoppedAt(client, cancelled, batches, n, requested + numbers))
  {
    HeightsOfNext(batches, n);
    assert Answered(client, batches, n) == client(n, Heights(batches[n].first, batches[n].last)).Some?;
  }

  // ----- the sequential path -----

  /** The first n batches are done and the next one starts at `start`. */
  ghost predicate SequentialAt(client: Client, cancelled: nat -> bool, batches: seq<Span>, n: nat, start: nat,
                               last: nat, batch: pos, r: Report, requested: seq<int>) {
    ScannedTo(client, cancelled, batches, n, r, requested) && batches[n..] == Chunks(n, start, last, batch)
  }

  lemma SequentialStep(client: Client, cancelled: nat -> bool, batches: seq<Span>, n: nat, start: nat, last: nat,
                       batch: pos, r: Report, requested: seq<int>)
    requires SequentialAt(client, cancelled, batches, n, start, last, batch, r, requested) && start <= last
    ensures n < |batches|
    ensures var numbers := Heights(start, Min(start + batch - 1, last));
      && (client(n, numbers).Some? && !cancelled(n) ==>
            var (blocks, txs) := Tally(client(n, numbers).value);
            var r' := Report(true, r.blocks + blocks, r.txs + txs);
            SequentialAt(client, cancelled, batches, n + 1, start + batch, last, batch, r', requested + numbers))
      && (client(n, numbers).None? || cancelled(n) ==>
            StoppedAt(client, cancelled, batches, n, requested + numbers))
  {
    NextChunk(batches, 0, n, start, last, batch);
    ScannedOneMore(client, cancelled, batches, n, r, requested);
  }

  lemma SequentialEnd(client: Client, cancelled: nat -> bool, batches: seq<Span>, n: nat, start: nat, last: nat,
                      batch: pos, r: Report, requested: seq<int>)
    requires start > last && SequentialAt(client, cancelled, batches, n, start, last, batch, r, requested)
    ensures Outcome(client, cancelled, batches, r, requested)
  {
    assert batches[n..] == [];
    CompleteOutcome(client, cancelled, batches, r, requested);
  }

  /** Requests the range batch by batch, and stops at the first batch that fails or finds the context cancelled. */
  method ScanBlocksSequential(client: Client, cancelled: nat -> bool, first: uint64, last: uint64, batchSize: pos)
    returns (r: Report, requested: seq<int>)
    requires last + batchSize < U64
    ensures Outcome(client, cancelled, Chunks(0, first, last, batchSize), r, requested)
    ensures !r.ok ==> exists n :: StoppedAt(client, cancelled, Chunks(0, first, last, batchSize), n, requested)
    ensures r.ok ==> requested == Heights(first, last)
  {
    ghost var batches := Chunks(0, first, last, batchSize);
    ChunksHeights(0, first, last, batchSize);
    var n := 0;
    requested, r := [], Report(true, 0, 0);
    var batchStart: uint64 := first;
    while batchStart <= last
      invariant n <= |batches|
      invariant SequentialAt(client, cancelled, batches, n, batchStart, last, batchSize, r, requested)
      decreases last + batchSize - batchStart
    {
      SequentialStep(client, cancelled, batches, n, batchStart, last, batchSize, r, requested);
      var batchEnd: uint64 := Min(Wrap(Wrap(batchStart + batchSize) - 1), last);
      var numbers := BlockNumbers(batchStart, batchEnd);
      requested := requested + numbers;
      var reply := client(n, numbers);
      if reply.None? {
        r := r.(ok := false);
        StoppedOutcome(client, cancelled, batches, n, r, requested);
        return;
      }
      var blocks, txs := CountBlocks(reply.value);
      r := Report(true, r.blocks + blocks, r.txs + txs);
      if cancelled(n) {
        r := r.(ok := false);
        StoppedOutcome(client, cancelled, batches, n, r, requested);
        return;
      }
      n := n + 1;
      batchStart := Wrap(batchStart + batchSize);
    }
    SequentialEnd(client, cancelled, batches, n, batchStart, last, batchSize, r, requested);
    assert batches[..|batches|] == batches;
  }

  // ----- the parallel path -----

  lemma OffsetBound(i: nat, width: nat, batchSize: nat)
    requires i < width
    ensures 0 <= i * batchSize <= width * batchSize - batchSize
    ensures (i + 1) * batchSize == i * batchSize + batchSize
  {
    assert (width - i - 1) * batchSize >= 0;
    assert width * batchSize == (i + 1) * batchSize + (width - i - 1) * batchSize;
  }

  /** The first i parallel batches are made, and there may be more. */
  ghost predicate ParallelAt(batches: seq<Span>, i: nat, first: nat, last: nat, batchSize: nat) {
    && (batchSize == 0 ==> batches == EmptyBatches(i, first, last))
    && (batchSize >= 1 ==>
          var all := Chunks(0, first, last, batchSize);
          && 0 <= first + i * batchSize && i <= |all| && batches == all[..i]
          && all[i..] == Chunks(i, first + i * batchSize, last, batchSize))
  }

  /** The bounds of batch i, with the wrap-around of its computation. */
  function BatchAt(i: nat, first: uint64, last: uint64, batchSize: nat): Span {
    var start := Wrap(first + Wrap(i * batchSize));
    Span(i, start, Min(Wrap(Wrap(start + batchSize) - 1), last))
  }

  lemma BatchWithoutWrap(i: nat, first: uint64, last: uint64, batchSize: nat, width: nat)
    requires i < width && first + width * batchSize < U64
    ensures 0 <= i * batchSize && first + i * batchSize + batchSize < U64
    ensures BatchAt(i, first, last, batchSize).first == first + i * batchSize
    ensures batchSize >= 1 ==>
      BatchAt(i, first, last, batchSize).last == Min(first + i * batchSize + batchSize - 1, last)
    ensures batchSize == 0 ==>
      BatchAt(i, first, last, batchSize) == Span(i, first, if first == 0 then last else Min(first - 1, last))
  {
    OffsetBound(i, width, batchSize);
    BatchBounds(i, first, last, batchSize, i * batchSize);
  }

  lemma BatchBounds(i: nat, first: uint64, last: uint64, batchSize: nat, offset: nat)
    requires first + offset + batchSize < U64 && offset == i * batchSize
    ensures BatchAt(i, first, last, batchSize).first == first + offset
    ensures BatchAt(i, first, last, batchSize).last ==
      Min(if first + offset + batchSize == 0 then U64 - 1 else first + offset + batchSize - 1, last)
  {
  }

  lemma ParallelStep(batches: seq<Span>, i: nat, first: uint64, last: uint64, batchSize: nat, width: nat)
    requires first <= last && i < width && first + width * batchSize < U64
    requires ParallelAt(batches, i, first, last, batchSize)
    ensures var b := BatchAt(i, first, last, batchSize);
      && (b.first <= last ==> ParallelAt(batches + [b], i + 1, first, last, batchSize))
      && (b.first > last ==> batchSize >= 1 && batches == Chunks(0, first, last, batchSize))
  {
    BatchWithoutWrap(i, first, last, batchSize, width);
    if batchSize >= 1 {
      ParallelChunk(batches, i, first, last, batchSize, first + i * batchSize);
    }
  }

  lemma ParallelChunk(batches: seq<Span>, i: nat, first: nat, last: nat, batchSize: pos, start: nat)
    requires ParallelAt(batches, i, first, last, batchSize) && start == first + i * batchSize
    ensures start <= last ==>
      ParallelAt(batches + [Span(i, start, Min(start + batchSize - 1, last))], i + 1, first, last, batchSize)
    ensures start > last ==> batches == Chunks(0, first, last, batchSize)
  {
    var all := Chunks(0, first, last, batchSize);
    if start <= last {
      NextChunk(all, 0, i, start, last, batchSize);
      assert all[..i + 1] == all[..i] + [all[i]];
      assert first + (i + 1) * batchSize == start + batchSize;
    } else {
      assert all[i..] == [];
      assert batches == all;
    }
  }

  /** The batches of the parallel path: at most `width` of them, however long the range is. */
  method ParallelBatches(first: uint64, last: uint64, batchSize: nat, width: nat) returns (batches: seq<Span>)
    requires first <= last ==> first + width * batchSize < U64
    ensures batches == ParallelOf(first, last, batchSize, width)
  {
    batches := [];
    if first > last {
      return;   // the first batch already starts behind the range
    }
    var i := 0;
    while i < width
      invariant i <= width && ParallelAt(batches, i, first, last, batchSize)
    {
      ParallelStep(batches, i, first, last, batchSize, width);
      var batch := BatchAt(i, first, last, batchSize);
      if batch.first > last {
        break;
      }
      batches := batches + [batch];
      i := i + 1;
    }
  }

  lemma ReportStep(client: Client, cancelled: nat -> bool, batches: seq<Span>, n: nat, r: Report, requested: seq<int>)
    requires ReportAt(client, cancelled, batches, n, r, requested) && n < |batches|
    ensures var numbers := Heights(batches[n].first, batches[n].last);
      && (!r.ok || client(n, numbers).None? || cancelled(n) ==>
            ReportAt(client, cancelled, batches, n + 1, r.(ok := false), requested + numbers))
      && (r.ok && client(n, numbers).Some? && !cancelled(n) ==>
            var (blocks, txs) := Tally(client(n, numbers).value);
            var r' := Report(true, r.blocks + blocks, r.txs + txs);
            ReportAt(client, cancelled, batches, n + 1, r', requested + numbers))
  {
    HeightsOfNext(batches, n);
    assert Answered(client, batches, n) == client(n, Heights(batches[n].first, batches[n].last)).Some?;
    if r.ok {
      ScannedOneMore(client, cancelled, batches, n, r, requested);
    }
  }

  /** Requests all parallel batches; the scan succeeds when every one was answered before the context was cancelled. */
  method ScanBlocksParallel(client: Client, cancelled: nat -> bool, first: uint64, last: uint64, batchSize: nat,
                            parallelRequests: int)
    returns (r: Report, requested: seq<int>)
    requires first <= last ==> first + Width(parallelRequests) * batchSize < U64
    ensures var batches := ParallelOf(first, last, batchSize, Width(parallelRequests));
      Outcome(client, cancelled, batches, r, requested) && requested == HeightsOf(batches)
  {
    var width := if parallelRequests < 2 then 2 else parallelRequests;
    var batches := ParallelBatches(first, last, batchSize, width);
    requested, r := [], Report(true, 0, 0);
    for n := 0 to |batches|
      invariant ReportAt(client, cancelled, batches, n, r, requested)
    {
      ReportStep(client, cancelled, batches, n, r, requested);
      var numbers := Heights(batches[n].first, batches[n].last);
      var reply := client(n, numbers);
      if !r.ok || reply.None? || cancelled(n) {
        r := r.(ok := false);
      } else {
        var blocks, txs := CountBlocks(reply.value);
        r := Report(true, r.blocks + blocks, r.txs + txs);
      }
      requested := requested + numbers;
    }
    assert batches[..|batches|] == batches;
    CompleteOutcome(client, cancelled, batches, r, requested);
  }

  /**
   The parallel path silently scans only a prefix: it covers the whole range exactly when the range fits its width.
   */
  lemma ParallelCoversIff(first: nat, last: nat, batch: pos, width: nat)
    requires first <= last
    ensures HeightsOf(ParallelOf(first, last, batch, width)) == Heights(first, last) <==>
      last - first + 1 <= width * batch
  {
    var all := Chunks(0, first, last, batch);
    ChunkCount(0, first, last, batch, width);
    ChunksHeights(0, first, last, batch);
    if width < |all| {
      var kept, missed := all[..width], all[width..];
      assert kept + missed == all;
      HeightsOfConcat(kept, missed);
      ChunksConsecutive(0, first, last, batch);
      HeightsAt(missed[0].first, missed[0].last, 0);
      assert HeightsOf(missed) != [];
    } else {
      assert all[..Min(width, |all|)] == all;
    }
  }

  // ----- scans -----

  /** Scans a block range: the path depends on its length. */
  method ScanBlocks(client: Client, cancelled: nat -> bool, first: uint64, last: uint64, batchSize: nat,
                    parallelRequests: int)
    returns (r: Report, requested: seq<int>)
    requires last < U64 - 1 && last + Width(parallelRequests) * batchSize < U64
    ensures PathOf(first, last, batchSize).Invalid? ==> !r.ok && requested == []
    ensures !PathOf(first, last, batchSize).Invalid? ==>
      Outcome(client, cancelled, BatchesOf(first, last, batchSize, parallelRequests), r, requested)
    ensures last < first <= last + I63 ==> !r.ok && requested == []
    ensures first <= last && last - first + 1 < I63 && 2 * batchSize < I63 ==>
      if last - first + 1 <= 2 * batchSize then
        Outcome(client, cancelled, Chunks(0, first, last, batchSize), r, requested)
      else
        var batches := ParallelOf(first, last, batchSize, if parallelRequests < 2 then 2 else parallelRequests);
        Outcome(client, cancelled, batches, r, requested) && requested == HeightsOf(batches)
  {
    if first <= last && last - first + 1 < I63 && 2 * batchSize < I63 {
      PathIs(first, last, batchSize);
    }
    if last < first <= last + I63 {
      EmptyRangeIsInvalid(first, last, batchSize);
    }
    var total := Signed(Wrap(last - first + 1));
    if total <= 0 {
      return Report(false, 0, 0), [];
    }
    ProductGrows(Width(parallelRequests), batchSize);
    if total <= Signed(batchSize * 2) {
      r, requested := ScanBlocksSequential(client, cancelled, first, last, batchSize);
    } else {
      r, requested := ScanBlocksParallel(client, cancelled, first, last, batchSize, parallelRequests);
    }
  }

  lemma ProductGrows(width: nat, batchSize: nat)
    requires width >= 2
    ensures width * batchSize >= 2 * batchSize
  {
    assert (width - 2) * batchSize >= 0;
  }

  // ----- the tasks of a run -----

  /**
   The tasks that a scanner ever generates take the sequential path exactly when the batch size is positive and its
   double does not overflow; the others take the parallel path.
   */
  lemma GeneratedTasksAreSequentialIff(c: Config, steps: seq<Step>, x: Span)
    requires c.batchSize < I63 && Runs(c, Fresh(), steps) && x in After(c, Fresh(), steps).generated
    ensures PathOf(x.first, x.last, c.batchSize) ==
      if 1 <= c.batchSize && 2 * c.batchSize < I63 then Sequential else Parallel
  {
    RunShaped(c, Fresh(), steps);
    assert ShapedSpan(c, x);
  }

  lemma EmptyBatchesRequestNothing(n: nat, first: nat, last: nat)
    requires first > 0
    ensures HeightsOf(EmptyBatches(n, first, last)) == [] && |EmptyBatches(n, first, last)| == n
    ensures forall k | 0 <= k < n :: EmptyBatches(n, first, last)[k] == Span(k, first, first - 1)
  {
    if n > 0 {
      EmptyBatchesRequestNothing(n - 1, first, last);
      HeightsOfConcat(EmptyBatches(n - 1, first, last), [Span(n - 1, first, first - 1)]);
    }
  }

  /** With a batch size of zero a scan makes empty requests only, and succeeds if these are answered in time. */
  lemma ZeroBatchSizeScansNothing(client: Client, cancelled: nat -> bool, first: nat, last: nat, parallelRequests: int)
    requires 1 <= first <= last && last - first + 1 < I63
    requires forall n :: client(n, []).Some? && !cancelled(n)
    ensures PathOf(first, last, 0).Parallel? && HeightsOf(BatchesOf(first, last, 0, parallelRequests)) == []
    ensures Succeeds(client, cancelled, BatchesOf(first, last, 0, parallelRequests))
  {
    EmptyBatchesRequestNothing(Width(parallelRequests), first, last);
    var batches := BatchesOf(first, last, 0, parallelRequests);
    forall k | 0 <= k < |batches|
      ensures Answered(client, batches, k)
    {
      assert Heights(first, first - 1) == [];
    }
  }

  /** Whatever the client does, a scan of the task that succeeds has requested all its heights. */
  ghost predicate SuccessMeansRequested(c: Config, parallelRequests: int, x: Span) {
    forall client, cancelled, r, requested |
      Outcome(client, cancelled, BatchesOf(x.first, x.last, c.batchSize, parallelRequests), r, requested) && r.ok ::
      requested == Heights(x.first, x.last)
  }

  lemma ShapedTaskIsCovered(c: Config, parallelRequests: int, x: Span)
    requires 1 <= c.batchSize < I63 && ShapedSpan(c, x)
    ensures HeightsOf(BatchesOf(x.first, x.last, c.batchSize, parallelRequests)) == Heights(x.first, x.last)
  {
    if PathOf(x.first, x.last, c.batchSize).Sequential? {
      ChunksHeights(0, x.first, x.last, c.batchSize);
    } else {
      ProductGrows(Width(parallelRequests), c.batchSize);
      ParallelCoversIff(x.first, x.last, c.batchSize, Width(parallelRequests));
    }
  }

  lemma SuccessRequestsTask(c: Config, parallelRequests: int, x: Span, client: Client, cancelled: nat -> bool,
                            r: Report, requested: seq<int>)
    requires 1 <= c.batchSize < I63 && ShapedSpan(c, x)
    ensures PathOf(x.first, x.last, c.batchSize) != Invalid
    ensures var batches := BatchesOf(x.first, x.last, c.batchSize, parallelRequests);
      r.ok && Outcome(client, cancelled, batches, r, requested) ==> requested == Heights(x.first, x.last)
  {
    ShapedTaskIsCovered(c, parallelRequests, x);
    var batches := BatchesOf(x.first, x.last, c.batchSize, parallelRequests);
    assert batches[..|batches|] == batches;
  }

  /** For a task that a scanner generates this holds exactly when the batch size is positive. */
  lemma SuccessMeansRequestedIff(c: Config, parallelRequests: int, steps: seq<Step>, x: Span)
    requires c.batchSize < I63 && Runs(c, Fresh(), steps) && x in After(c, Fresh(), steps).generated
    ensures SuccessMeansRequested(c, parallelRequests, x) <==> c.batchSize >= 1
  {
    RunShaped(c, Fresh(), steps);
    assert ShapedSpan(c, x);
    if c.batchSize >= 1 {
      forall client, cancelled, r, requested |
        Outcome(client, cancelled, BatchesOf(x.first, x.last, c.batchSize, parallelRequests), r, requested) && r.ok
        ensures requested == Heights(x.first, x.last)
      {
        SuccessRequestsTask(c, parallelRequests, x, client, cancelled, r, requested);
      }
    } else {
      ZeroBatchSizeMisleads(c, parallelRequests, x);
    }
  }

  lemma ZeroBatchSizeMisleads(c: Config, parallelRequests: int, x: Span)
    requires c.batchSize == 0 && ShapedSpan(c, x)
    ensures !SuccessMeansRequested(c, parallelRequests, x)
  {
    var client: Client, never: nat -> bool := (n, heights) => Some([]), n => false;
    var batches := BatchesOf(x.first, x.last, 0, parallelRequests);
    ZeroBatchSizeScansNothing(client, never, x.first, x.last, parallelRequests);
    assert batches[..|batches|] == batches;
    var (blocks, txs) := Total(client, batches, |batches|);
    assert Outcome(client, never, batches, Report(true, blocks, txs), []);
    HeightsAt(x.first, x.last, 0);
  }
}
