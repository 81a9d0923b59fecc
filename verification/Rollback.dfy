/** The two rollbacks of a reorg event: the six-step pipeline with its retries, and the detector's shorter one. */
module Rollback {
  import opened Machine
  import opened Wrappers
  import opened StatusMachine
  import opened Storage
  import Watermarks
  import ForkPoint

  type Event = ForkPoint.Event

  /** The tables, and the watermarks of the chains that have a scanner. */
  datatype World = World(db: Tables, marks: map<string, Watermarks.Watermark>)

  /** What goes wrong in one attempt; `locked` tells whether the watermark lock was granted. */
  datatype Faults = Faults(lookup: bool, mark: Fault, blocks: Fault, logs: Fault, locked: bool, save: Fault)

  datatype Effect = Effect(world: World, ok: bool)

  function SafeHeight(e: Event): uint64 {
    if e.oldNumber > 0 then e.oldNumber - 1 else e.oldNumber
  }

  // ----- the steps -----

  predicate Validates(w: World, chain: string, e: Event) {
    && chain != "" && e.oldNumber != 0 && e.newNumber != 0 && e.depth != 0 && e.oldHash != "" && e.newHash != ""
    && var found := BlockByHash(w.db.blocks, chain, e.newHash);
    found.Some? && found.value.number == e.newNumber
  }

  function Marked(w: World, chain: string, e: Event): World {
    w.(db := w.db.(txs := MarkReverted(w.db.txs, chain, e.newNumber, e.oldNumber)))
  }

  function WithoutBlocks(w: World, chain: string, e: Event): World {
    w.(db := w.db.(blocks := DeleteBlocks(w.db.blocks, chain, e.newNumber, e.oldNumber)))
  }

  function WithoutLogs(w: World, chain: string, e: Event): World {
    w.(db := w.db.(logs := DeleteLogs(w.db.logs, chain, e.newNumber, e.oldNumber)))
  }

  predicate CanReset(w: World, chain: string, e: Event) {
    chain in w.marks && SafeHeight(e) <= w.marks[chain].scanned
  }

  function ResetMark(w: World, chain: string, e: Event): World
    requires CanReset(w, chain, e)
  {
    w.(marks := w.marks[chain := Watermarks.Updated(w.marks[chain], Watermarks.Reset(SafeHeight(e)), 0)])
  }

  function Saved(w: World, chain: string, e: Event): World {
    w.(db := w.db.(events := w.db.events + [EventRow(chain, e, true)]))
  }

  /** A statement under a fault: its effect unless it was lost, and success only without a fault. */
  function Try(w: World, w': World, fault: Fault): Effect {
    Effect(if fault.Lost? then w else w', fault.Clean?)
  }

  function TryReset(w: World, chain: string, e: Event, locked: bool): Effect {
    if locked && CanReset(w, chain, e) then Effect(ResetMark(w, chain, e), true) else Effect(w, false)
  }

  /** The pipeline: validate, mark transactions, delete blocks, delete logs, reset the watermark, save the event. */
  function Process(w: World, chain: string, e: Event, f: Faults): Effect {
    if !f.lookup || !Validates(w, chain, e) then Effect(w, false)
    else
      var marked := Try(w, Marked(w, chain, e), f.mark);
      if !marked.ok then marked
      else
        var blocks := Try(marked.world, WithoutBlocks(marked.world, chain, e), f.blocks);
        if !blocks.ok then blocks
        else
          var logs := Try(blocks.world, WithoutLogs(blocks.world, chain, e), f.logs);
          if !logs.ok then logs
          else
            var reset := TryReset(logs.world, chain, e, f.locked);
            if !reset.ok then reset
            else Try(reset.world, Saved(reset.world, chain, e), f.save)
  }

  /** The detector's rollback: reset the watermark, delete blocks, delete logs, mark transactions, save the event. */
  function AutoProcess(w: World, chain: string, e: Event, f: Faults): Effect {
    var reset := TryReset(w, chain, e, f.locked);
    if !reset.ok then reset
    else
      var blocks := Try(reset.world, WithoutBlocks(reset.world, chain, e), f.blocks);
      if !blocks.ok then blocks
      else
        var logs := Try(blocks.world, WithoutLogs(blocks.world, chain, e), f.logs);
        if !logs.ok then logs
        else
          var marked := Try(logs.world, Marked(logs.world, chain, e), f.mark);
          if !marked.ok then marked
          else Try(marked.world, Saved(marked.world, chain, e), f.save)
  }

  // ----- effect of a rollback -----

  /** What a completed rollback leaves of the old world, row by row. */
  ghost predicate RolledBack(w: World, w': World, chain: string, e: Event) {
    && (forall r :: r in w'.db.blocks <==>
          r in w.db.blocks && !(r.chain == chain && e.newNumber <= r.block.number && r.block.number <= e.oldNumber))
    && (forall r :: r in w'.db.logs <==>
          r in w.db.logs && !(r.chain == chain && e.newNumber <= r.number && r.number <= e.oldNumber))
    && |w'.db.txs| == |w.db.txs|
    && (forall i | 0 <= i < |w.db.txs| ::
          var before, after := w.db.txs[i], w'.db.txs[i];
          after == if before.chain == chain && e.newNumber <= before.number && before.number <= e.oldNumber
                   then before.(row := Row(Reverted, before.row.blob)) else before)
    && w'.db.events == w.db.events + [EventRow(chain, e, true)]
    && MayReset(w.marks, chain, e)
    && w'.marks == w.marks[chain := w.marks[chain].(scanned := if e.oldNumber > 0 then e.oldNumber - 1 else 0)]
  }

  /** There is a scanner, and the height just below the event's old number is not above its watermark. */
  predicate MayReset(marks: map<string, Watermarks.Watermark>, chain: string, e: Event) {
    chain in marks && (if e.oldNumber > 0 then e.oldNumber - 1 else 0) <= marks[chain].scanned
  }

  /** All statements of the pipeline, in its order. */
  function Completed(w: World, chain: string, e: Event): World
    requires CanReset(w, chain, e)
  {
    Saved(ResetMark(WithoutLogs(WithoutBlocks(Marked(w, chain, e), chain, e), chain, e), chain, e), chain, e)
  }

  lemma BlocksRollBack(rows: seq<BlockRow>, chain: string, e: Event)
    ensures forall r :: r in DeleteBlocks(rows, chain, e.newNumber, e.oldNumber) <==>
      (r in rows && !(r.chain == chain && e.newNumber <= r.block.number && r.block.number <= e.oldNumber))
  {
    forall r
      ensures r in DeleteBlocks(rows, chain, e.newNumber, e.oldNumber) <==>
        (r in rows && !(r.chain == chain && e.newNumber <= r.block.number && r.block.number <= e.oldNumber))
    {
      DeleteBlocksKeeps(rows, chain, e.newNumber, e.oldNumber, r);
    }
  }

  lemma LogsRollBack(rows: seq<LogRow>, chain: string, e: Event)
    ensures forall r :: r in DeleteLogs(rows, chain, e.newNumber, e.oldNumber) <==>
      (r in rows && !(r.chain == chain && e.newNumber <= r.number && r.number <= e.oldNumber))
  {
    forall r
      ensures r in DeleteLogs(rows, chain, e.newNumber, e.oldNumber) <==>
        (r in rows && !(r.chain == chain && e.newNumber <= r.number && r.number <= e.oldNumber))
    {
      DeleteLogsKeeps(rows, chain, e.newNumber, e.oldNumber, r);
    }
  }

  lemma StatementsRollBack(w: World, chain: string, e: Event)
    requires CanReset(w, chain, e)
    ensures RolledBack(w, Completed(w, chain, e), chain, e)
  {
    BlocksRollBack(w.db.blocks, chain, e);
    LogsRollBack(w.db.logs, chain, e);
  }

  /**
   A successful pipeline removes exactly the blocks and logs of the chain from the new to the old number, marks exactly
   its transactions there as reverted (in the status column, the JSON blob keeps the old status), puts the watermark
   just below the old number and records the event; every other row, chain and watermark field stays.
   */
  lemma PipelineRollsBack(w: World, chain: string, e: Event, f: Faults)
    requires Process(w, chain, e, f).ok
    ensures RolledBack(w, Process(w, chain, e, f).world, chain, e)
    ensures Process(w, chain, e, f).world.marks[chain].scanned == e.oldNumber - 1
  {
    StatementsRollBack(w, chain, e);
  }

  datatype Statement = Mark | Blocks | Logs | Reset

  function DoOne(w: World, chain: string, e: Event, x: Statement): World {
    match x
    case Mark => Marked(w, chain, e)
    case Blocks => WithoutBlocks(w, chain, e)
    case Logs => WithoutLogs(w, chain, e)
    case Reset => if CanReset(w, chain, e) then ResetMark(w, chain, e) else w
  }

  /** The statements in the given order, each with its effect. */
  function Do(w: World, chain: string, e: Event, order: seq<Statement>): World {
    if order == [] then w else DoOne(Do(w, chain, e, order[..|order| - 1]), chain, e, order[|order| - 1])
  }

  /** What a set of statements leaves, whatever their order. */
  function Done(w: World, chain: string, e: Event, done: set<Statement>): World
    requires CanReset(w, chain, e)
  {
    World(
      Tables(
        if Blocks in done then WithoutBlocks(w, chain, e).db.blocks else w.db.blocks,
        if Mark in done then Marked(w, chain, e).db.txs else w.db.txs,
        if Logs in done then WithoutLogs(w, chain, e).db.logs else w.db.logs,
        w.db.events),
      if Reset in done then ResetMark(w, chain, e).marks else w.marks)
  }

  /** One more statement after a set of them. */
  lemma DoneOneMore(w: World, chain: string, e: Event, done: set<Statement>, last: Statement)
    requires CanReset(w, chain, e)
    ensures DoOne(Done(w, chain, e, done), chain, e, last) == Done(w, chain, e, done + {last})
  {
    match last
    case Mark => OneMarkMore(w, chain, e, done);
    case Blocks => OneBlocksMore(w, chain, e, done);
    case Logs => OneLogsMore(w, chain, e, done);
    case Reset => OneResetMore(w, chain, e, done);
  }

  lemma OneMarkMore(w: World, chain: string, e: Event, done: set<Statement>)
    requires CanReset(w, chain, e)
    ensures DoOne(Done(w, chain, e, done), chain, e, Mark) == Done(w, chain, e, done + {Mark})
  {
    StatementsAreIdempotent(w.db, chain, e.newNumber, e.oldNumber);
  }

  lemma OneBlocksMore(w: World, chain: string, e: Event, done: set<Statement>)
    requires CanReset(w, chain, e)
    ensures DoOne(Done(w, chain, e, done), chain, e, Blocks) == Done(w, chain, e, done + {Blocks})
  {
    StatementsAreIdempotent(w.db, chain, e.newNumber, e.oldNumber);
  }

  lemma OneLogsMore(w: World, chain: string, e: Event, done: set<Statement>)
    requires CanReset(w, chain, e)
    ensures DoOne(Done(w, chain, e, done), chain, e, Logs) == Done(w, chain, e, done + {Logs})
  {
    StatementsAreIdempotent(w.db, chain, e.newNumber, e.oldNumber);
  }

  lemma OneResetMore(w: World, chain: string, e: Event, done: set<Statement>)
    requires CanReset(w, chain, e)
    ensures DoOne(Done(w, chain, e, done), chain, e, Reset) == Done(w, chain, e, done + {Reset})
  {
  }

  lemma {:induction false} OnlyTheSetMatters(w: World, chain: string, e: Event, order: seq<Statement>)
    requires CanReset(w, chain, e)
    ensures Do(w, chain, e, order) == Done(w, chain, e, Members(order))
  {
    if order != [] {
      var front, last := order[..|order| - 1], order[|order| - 1];
      OnlyTheSetMatters(w, chain, e, front);
      DoneOneMore(w, chain, e, Members(front), last);
      MembersOneMore(front, last);
      assert order == front + [last];
    }
  }

  function Members(order: seq<Statement>): set<Statement> {
    set x | x in order
  }

  lemma MembersOneMore(front: seq<Statement>, last: Statement)
    ensures Members(front + [last]) == Members(front) + {last}
  {
  }

  /**
   The rollback statements in any two orders, with any repetitions, end in the same tables and watermarks, as long as
   the same statements occur.
   */
  lemma AnyOrderIsTheSame(w: World, chain: string, e: Event, a: seq<Statement>, b: seq<Statement>)
    requires CanReset(w, chain, e) && forall x :: x in a <==> x in b
    ensures Do(w, chain, e, a) == Do(w, chain, e, b)
  {
    OnlyTheSetMatters(w, chain, e, a);
    OnlyTheSetMatters(w, chain, e, b);
    assert Members(a) == Members(b);
  }

  /** In particular the pipeline and the detector's rollback end alike whenever both succeed. */
  lemma OrderIndependence(w: World, chain: string, e: Event, f: Faults, g: Faults)
    requires Process(w, chain, e, f).ok && AutoProcess(w, chain, e, g).ok
    ensures Process(w, chain, e, f).world == AutoProcess(w, chain, e, g).world
  {
  }

  predicate NoFault(f: Faults) {
    f.lookup && f.mark.Clean? && f.blocks.Clean? && f.logs.Clean? && f.locked && f.save.Clean?
  }

  /** Exactly when each of the two succeeds. */
  lemma SuccessIff(w: World, chain: string, e: Event, f: Faults)
    ensures Process(w, chain, e, f).ok <==>
      && f.lookup && f.mark.Clean? && f.blocks.Clean? && f.logs.Clean? && f.locked && f.save.Clean?
      && Validates(w, chain, e) && MayReset(w.marks, chain, e)
    ensures Process(w, chain, e, f).ok <==> NoFault(f) && Validates(w, chain, e) && CanReset(w, chain, e)
    ensures Process(w, chain, e, f).ok ==> Process(w, chain, e, f).world == Completed(w, chain, e)
    ensures AutoProcess(w, chain, e, f).ok <==>
      && f.mark.Clean? && f.blocks.Clean? && f.logs.Clean? && f.locked && f.save.Clean?
      && MayReset(w.marks, chain, e)
    ensures AutoProcess(w, chain, e, f).ok <==> NoFault(f.(lookup := true)) && CanReset(w, chain, e)
  {
  }

  /**
   What an event that validates is, in terms of the stored rows: its hashes being telling, some row is its new block.
   */
  lemma ValidatesIff(w: World, chain: string, e: Event)
    requires HashesTell(w.db.blocks, chain, e.newHash)
    ensures Validates(w, chain, e) <==>
      && chain != "" && e.oldNumber > 0 && e.newNumber > 0 && e.depth > 0 && e.oldHash != "" && e.newHash != ""
      && exists r ::
           r in w.db.blocks && r.chain == chain && r.block.hash == e.newHash && r.block.number == e.newNumber
  {
    FoundAtNumberIff(w.db.blocks, chain, e.newHash, e.newNumber);
  }

  /**
   How far a pipeline gets, table by table: each statement takes effect exactly if the event is valid, all statements
   before it succeeded and it is not lost itself.
   */
  lemma PipelineEffects(w: World, chain: string, e: Event, f: Faults)
    ensures var w' := Process(w, chain, e, f).world; var valid := f.lookup && Validates(w, chain, e);
      && w'.db.txs ==
           (if valid && !f.mark.Lost? then MarkReverted(w.db.txs, chain, e.newNumber, e.oldNumber) else w.db.txs)
      && w'.db.blocks ==
           (if valid && f.mark.Clean? && !f.blocks.Lost?
            then DeleteBlocks(w.db.blocks, chain, e.newNumber, e.oldNumber) else w.db.blocks)
      && w'.db.logs ==
           (if valid && f.mark.Clean? && f.blocks.Clean? && !f.logs.Lost?
            then DeleteLogs(w.db.logs, chain, e.newNumber, e.oldNumber) else w.db.logs)
  {
  }

  lemma PipelineEndEffects(w: World, chain: string, e: Event, f: Faults)
    ensures var w' := Process(w, chain, e, f).world;
      var reset := f.lookup && Validates(w, chain, e) && f.mark.Clean? && f.blocks.Clean? && f.logs.Clean? && f.locked
                   && MayReset(w.marks, chain, e);
      && w'.marks ==
           (if reset then w.marks[chain := w.marks[chain].(scanned := e.oldNumber - 1)] else w.marks)
      && w'.db.events == w.db.events + if reset && !f.save.Lost? then [EventRow(chain, e, true)] else []
  {
  }

  /** The same for the detector's rollback, which resets first and marks last. */
  lemma ShortcutEffects(w: World, chain: string, e: Event, f: Faults)
    ensures var w' := AutoProcess(w, chain, e, f).world; var reset := f.locked && MayReset(w.marks, chain, e);
      && w'.db.blocks ==
           (if reset && !f.blocks.Lost?
            then DeleteBlocks(w.db.blocks, chain, e.newNumber, e.oldNumber) else w.db.blocks)
      && w'.db.logs ==
           (if reset && f.blocks.Clean? && !f.logs.Lost?
            then DeleteLogs(w.db.logs, chain, e.newNumber, e.oldNumber) else w.db.logs)
      && w'.db.txs ==
           (if reset && f.blocks.Clean? && f.logs.Clean? && !f.mark.Lost?
            then MarkReverted(w.db.txs, chain, e.newNumber, e.oldNumber) else w.db.txs)
  {
  }

  lemma ShortcutEndEffects(w: World, chain: string, e: Event, f: Faults)
    ensures var w' := AutoProcess(w, chain, e, f).world; var reset := f.locked && MayReset(w.marks, chain, e);
      && w'.marks ==
           (if reset
            then w.marks[chain := w.marks[chain].(scanned := if e.oldNumber > 0 then e.oldNumber - 1 else 0)]
            else w.marks)
      && w'.db.events == w.db.events +
           if reset && f.blocks.Clean? && f.logs.Clean? && f.mark.Clean? && !f.save.Lost?
           then [EventRow(chain, e, true)] else []
  {
  }

  /**
   The pipeline moves the watermark only when all rows are rolled back, so a failure never skips the rescan's reason.
   */
  lemma PipelineResetsLast(w: World, chain: string, e: Event, f: Faults)
    ensures var w' := Process(w, chain, e, f).world;
      w'.marks != w.marks ==>
        && w'.db.blocks == DeleteBlocks(w.db.blocks, chain, e.newNumber, e.oldNumber)
        && w'.db.logs == DeleteLogs(w.db.logs, chain, e.newNumber, e.oldNumber)
        && w'.db.txs == MarkReverted(w.db.txs, chain, e.newNumber, e.oldNumber)
  {
  }

  // ----- retries -----

  /** One try of the retry loop; `cancelled` means that the context ended while it waited for this try. */
  datatype Attempt = Attempt(faults: Faults, cancelled: bool)

  /** processEventWithRetry; the plan has MaxRetries + 1 tries. */
  function Retry(w: World, chain: string, e: Event, plan: seq<Attempt>, first: bool): Effect
    decreases plan
  {
    if plan == [] || (!first && plan[0].cancelled) then Effect(w, false)
    else
      var o := Process(w, chain, e, plan[0].faults);
      if o.ok then o else Retry(o.world, chain, e, plan[1..], false)
  }

  /** The attempt does not get as far as deleting a block. */
  predicate FailsEarly(f: Faults) {
    !f.lookup || !f.mark.Clean? || f.blocks.Lost?
  }

  /** Try k is the first that does not fail early, and the context is not cancelled before it. */
  predicate FirstTry(plan: seq<Attempt>, k: nat, first: bool) {
    && k < |plan|
    && (forall i | 0 <= i < k :: FailsEarly(plan[i].faults))
    && (forall i | 0 <= i <= k :: (i == 0 && first) || !plan[i].cancelled)
  }

  lemma {:induction false} NoRowNoValidation(w: World, chain: string, e: Event)
    requires forall r | r in w.db.blocks && r.chain == chain :: r.block.number != e.newNumber
    ensures !Validates(w, chain, e)
  {
    BlockByHashSound(w.db.blocks, chain, e.newHash);
  }

  /** Once the event's new block is gone from the store, no further try can succeed. */
  lemma {:induction false} Poisoned(w: World, chain: string, e: Event, plan: seq<Attempt>, first: bool)
    requires forall r | r in w.db.blocks && r.chain == chain :: r.block.number != e.newNumber
    ensures Retry(w, chain, e, plan, first) == Effect(w, false)
    decreases plan
  {
    NoRowNoValidation(w, chain, e);
    if plan != [] && (first || !plan[0].cancelled) {
      Poisoned(w, chain, e, plan[1..], false);
    }
  }

  /** A failed try that got to the deletion, of a range that is not empty, leaves no row at the new number. */
  lemma LateFailurePoisons(w: World, chain: string, e: Event, f: Faults, r: BlockRow)
    requires e.newNumber <= e.oldNumber && Validates(w, chain, e) && !FailsEarly(f)
    requires r in Process(w, chain, e, f).world.db.blocks && r.chain == chain
    ensures r.block.number != e.newNumber
  {
    DeleteBlocksKeeps(w.db.blocks, chain, e.newNumber, e.oldNumber, r);
  }

  /** An early failure changes nothing but the status of the transactions that the next try marks anyway. */
  lemma EarlyFailureIsHarmless(w: World, chain: string, e: Event, f: Faults)
    requires FailsEarly(f)
    ensures var o := Process(w, chain, e, f);
      !o.ok && (o.world == w || o.world == Marked(w, chain, e))
  {
  }

  lemma MarkedIsMarked(w: World, chain: string, e: Event)
    ensures Marked(Marked(w, chain, e), chain, e) == Marked(w, chain, e)
    ensures Validates(Marked(w, chain, e), chain, e) == Validates(w, chain, e)
    ensures CanReset(w, chain, e) ==> Completed(Marked(w, chain, e), chain, e) == Completed(w, chain, e)
  {
    StatementsAreIdempotent(w.db, chain, e.newNumber, e.oldNumber);
  }

  /** Try k meets no fault and comes before any damage. */
  predicate GoodTry(plan: seq<Attempt>, k: nat, first: bool) {
    FirstTry(plan, k, first) && NoFault(plan[k].faults)
  }

  ghost predicate HasGoodTry(plan: seq<Attempt>, first: bool) {
    exists k: nat :: GoodTry(plan, k, first)
  }

  lemma GoodTryShifts(plan: seq<Attempt>, first: bool)
    requires plan != [] && (first || !plan[0].cancelled) && FailsEarly(plan[0].faults)
    ensures HasGoodTry(plan, first) <==> HasGoodTry(plan[1..], false)
  {
    if k: nat :| GoodTry(plan[1..], k, false) {
      forall i | 0 <= i <= k + 1
        ensures i <= k ==> FailsEarly(plan[i].faults)
        ensures (i == 0 && first) || !plan[i].cancelled
      {
        assert i > 0 ==> plan[i] == plan[1..][i - 1];
      }
      assert GoodTry(plan, k + 1, first);
    }
    if k: nat :| GoodTry(plan, k, first) {
      assert GoodTry(plan[1..], k - 1, false);
    }
  }

  /** The retries from a store in which earlier tries may have marked the transactions. */
  lemma {:induction false} RetryFrom(w: World, w0: World, chain: string, e: Event, plan: seq<Attempt>, first: bool)
    requires e.newNumber <= e.oldNumber
    requires w0 == w || w0 == Marked(w, chain, e)
    ensures Retry(w0, chain, e, plan, first).ok <==>
      Validates(w, chain, e) && CanReset(w, chain, e) && HasGoodTry(plan, first)
    ensures Retry(w0, chain, e, plan, first).ok ==> Retry(w0, chain, e, plan, first).world == Completed(w, chain, e)
    decreases plan
  {
    if plan != [] && (first || !plan[0].cancelled) {
      var f := plan[0].faults;
      var o := Process(w0, chain, e, f);
      MarkedIsMarked(w, chain, e);
      SuccessIff(w0, chain, e, f);
      if o.ok {
        assert GoodTry(plan, 0, first);
      } else if FailsEarly(f) {
        EarlyFailureIsHarmless(w0, chain, e, f);
        RetryFrom(w, o.world, chain, e, plan[1..], false);
        GoodTryShifts(plan, first);
      } else if Validates(w, chain, e) {
        forall r | r in o.world.db.blocks && r.chain == chain
          ensures r.block.number != e.newNumber
        {
          LateFailurePoisons(w0, chain, e, f, r);
        }
        Poisoned(o.world, chain, e, plan[1..], false);
      } else {
        RetryFrom(w, w0, chain, e, plan[1..], false);
      }
    }
  }

  /**
   For an event that deletes something, the retries succeed exactly when the event is valid, the watermark can be reset
   and some try meets no fault while every earlier one failed before its block deletion took effect; a later failure
   poisons all tries after it.  The result is that of one undisturbed try.
   */
  lemma RetrySucceedsIff(w: World, chain: string, e: Event, plan: seq<Attempt>)
    requires e.newNumber <= e.oldNumber
    ensures Retry(w, chain, e, plan, true).ok <==>
      Validates(w, chain, e) && CanReset(w, chain, e) && HasGoodTry(plan, true)
    ensures Retry(w, chain, e, plan, true).ok ==> RolledBack(w, Retry(w, chain, e, plan, true).world, chain, e)
  {
    RetryFrom(w, w, chain, e, plan, true);
    if CanReset(w, chain, e) {
      StatementsRollBack(w, chain, e);
    }
  }

  // ----- repeating the detector's rollback -----

  datatype Call = Pipeline(faults: Faults) | Shortcut(faults: Faults)

  function Calls(w: World, chain: string, e: Event, calls: seq<Call>): World {
    if calls == [] then w
    else
      var before := Calls(w, chain, e, calls[..|calls| - 1]);
      match calls[|calls| - 1]
      case Pipeline(f) => Process(before, chain, e, f).world
      case Shortcut(f) => AutoProcess(before, chain, e, f).world
  }

  /** Each table and the watermarks of v are still those of w, or rolled back. */
  predicate Partway(w: World, v: World, chain: string, e: Event) {
    && v.db.blocks in [w.db.blocks, DeleteBlocks(w.db.blocks, chain, e.newNumber, e.oldNumber)]
    && v.db.logs in [w.db.logs, DeleteLogs(w.db.logs, chain, e.newNumber, e.oldNumber)]
    && v.db.txs in [w.db.txs, MarkReverted(w.db.txs, chain, e.newNumber, e.oldNumber)]
    && (v.marks == w.marks || (CanReset(w, chain, e) && v.marks == ResetMark(w, chain, e).marks))
  }

  lemma StatementsStayPartway(w: World, v: World, chain: string, e: Event)
    requires Partway(w, v, chain, e)
    ensures Partway(w, Marked(v, chain, e), chain, e)
    ensures Partway(w, WithoutBlocks(v, chain, e), chain, e)
    ensures Partway(w, WithoutLogs(v, chain, e), chain, e)
    ensures Partway(w, Saved(v, chain, e), chain, e)
    ensures CanReset(v, chain, e) <==> CanReset(w, chain, e)
    ensures CanReset(v, chain, e) ==> Partway(w, ResetMark(v, chain, e), chain, e)
  {
    StatementsAreIdempotent(w.db, chain, e.newNumber, e.oldNumber);
  }

  lemma PipelineStaysPartway(w: World, v: World, chain: string, e: Event, f: Faults)
    requires Partway(w, v, chain, e)
    ensures Partway(w, Process(v, chain, e, f).world, chain, e)
  {
    var v1 := Try(v, Marked(v, chain, e), f.mark).world;
    StatementsStayPartway(w, v, chain, e);
    var v2 := Try(v1, WithoutBlocks(v1, chain, e), f.blocks).world;
    StatementsStayPartway(w, v1, chain, e);
    var v3 := Try(v2, WithoutLogs(v2, chain, e), f.logs).world;
    StatementsStayPartway(w, v2, chain, e);
    var v4 := TryReset(v3, chain, e, f.locked).world;
    StatementsStayPartway(w, v3, chain, e);
    StatementsStayPartway(w, v4, chain, e);
  }

  lemma ShortcutStaysPartway(w: World, v: World, chain: string, e: Event, f: Faults)
    requires Partway(w, v, chain, e)
    ensures Partway(w, AutoProcess(v, chain, e, f).world, chain, e)
  {
    var v1 := TryReset(v, chain, e, f.locked).world;
    StatementsStayPartway(w, v, chain, e);
    var v2 := Try(v1, WithoutBlocks(v1, chain, e), f.blocks).world;
    StatementsStayPartway(w, v1, chain, e);
    var v3 := Try(v2, WithoutLogs(v2, chain, e), f.logs).world;
    StatementsStayPartway(w, v2, chain, e);
    var v4 := Try(v3, Marked(v3, chain, e), f.mark).world;
    StatementsStayPartway(w, v3, chain, e);
    StatementsStayPartway(w, v4, chain, e);
  }

  lemma {:induction false} CallsStayPartway(w: World, chain: string, e: Event, calls: seq<Call>)
    ensures Partway(w, Calls(w, chain, e, calls), chain, e)
  {
    if calls != [] {
      var front, last := calls[..|calls| - 1], calls[|calls| - 1];
      CallsStayPartway(w, chain, e, front);
      match last
      case Pipeline(f) => PipelineStaysPartway(w, Calls(w, chain, e, front), chain, e, f);
      case Shortcut(f) => ShortcutStaysPartway(w, Calls(w, chain, e, front), chain, e, f);
    }
  }

  /**
   The detector's rollback is never poisoned: after any tries of either rollback, with any faults, one without a fault
   completes it, with the same rows and watermarks as a first undisturbed try.
   */
  lemma ShortcutAlwaysRepairs(w: World, chain: string, e: Event, calls: seq<Call>, f: Faults)
    requires CanReset(w, chain, e) && NoFault(f)
    ensures var end := AutoProcess(Calls(w, chain, e, calls), chain, e, f);
      && end.ok
      && end.world.marks == Completed(w, chain, e).marks
      && end.world.db.(events := []) == Completed(w, chain, e).db.(events := [])
  {
    var v := Calls(w, chain, e, calls);
    CallsStayPartway(w, chain, e, calls);
    StatementsStayPartway(w, v, chain, e);
    SuccessIff(v, chain, e, f);
    CompletedFromPartway(w, v, chain, e);
    ShortcutCompletes(v, chain, e, f);
  }

  lemma ShortcutCompletes(w: World, chain: string, e: Event, f: Faults)
    requires AutoProcess(w, chain, e, f).ok
    ensures AutoProcess(w, chain, e, f).world == Completed(w, chain, e)
  {
  }

  lemma CompletedFromPartway(w: World, v: World, chain: string, e: Event)
    requires Partway(w, v, chain, e) && CanReset(w, chain, e) && CanReset(v, chain, e)
    ensures Completed(v, chain, e).marks == Completed(w, chain, e).marks
    ensures Completed(v, chain, e).db.(events := []) == Completed(w, chain, e).db.(events := [])
  {
    StatementsAreIdempotent(w.db, chain, e.newNumber, e.oldNumber);
  }

  // ----- reported events -----

  /** The store holds these blocks of the chain, one row per height. */
  ghost predicate Stores(db: Tables, chain: string, local: ForkPoint.Chain) {
    forall r | r in db.blocks && r.chain == chain :: r.block.number in local && local[r.block.number] == r.block
  }

  /**
   No event of positive depth that the detector reports passes the pipeline's validation against the store it was found
   with: the new block's height holds another block.  So every retry fails and nothing changes.
   */
  lemma ReportedEventsNeverValidate(w: World, chain: string, local: ForkPoint.Chain, node: ForkPoint.Chain,
                                    tip: nat, latest: nat, threshold: nat, e: Event, plan: seq<Attempt>)
    requires tip in local && ForkPoint.Filed(local) && ForkPoint.Filed(node) && Stores(w.db, chain, local)
    requires ForkPoint.Detect(local, node, tip, latest, threshold) == ForkPoint.Detected(e) && e.depth > 0
    ensures Retry(w, chain, e, plan, true) == Effect(w, false)
  {
    ForkPoint.DetectedBlockIsNotStored(local, node, tip, latest, threshold);
    BlockByHashSound(w.db.blocks, chain, e.newHash);
    assert !Validates(w, chain, e);
    InvalidNeverRuns(w, chain, e, plan, true);
  }

  /** The world after the node's block was stored in the place of the tip. */
  function WithBlock(w: World, chain: string, block: ForkPoint.Block): World {
    w.(db := w.db.(blocks := SaveBlock(w.db.blocks, BlockRow(chain, block))))
  }

  /** No other height of the store has the hash. */
  predicate IsNew(local: ForkPoint.Chain, tip: nat, hash: string) {
    forall h | h in local && h != tip :: local[h].hash != hash
  }

  lemma SavedBlockTells(w: World, chain: string, local: ForkPoint.Chain, tip: nat, block: ForkPoint.Block)
    requires ForkPoint.Filed(local) && Stores(w.db, chain, local) && UniqueNumbers(w.db.blocks)
    requires block.number == tip && IsNew(local, tip, block.hash)
    ensures var rows := WithBlock(w, chain, block).db.blocks;
      BlockRow(chain, block) in rows && HashesTell(rows, chain, block.hash)
  {
    var row, rows := BlockRow(chain, block), WithBlock(w, chain, block).db.blocks;
    SavedRows(w.db.blocks, row, row);
    forall r | r in rows && r.chain == chain && r.block.hash == block.hash
      ensures r.block.number == tip
    {
      SavedRows(w.db.blocks, row, r);
    }
  }

  /**
   Once the scanner has stored the node's block over the tip, the event that the detector reported for equal heights is
   rolled back by a pipeline exactly if no statement fails, the chain and the stored block have a name, the tip is not
   block 0 and the watermark can be reset.
   */
  lemma SavedReorgRollsBackIff(w: World, chain: string, local: ForkPoint.Chain, node: ForkPoint.Chain,
                               tip: nat, threshold: nat, e: Event, f: Faults)
    requires tip in local && tip in node && ForkPoint.Filed(local) && ForkPoint.Filed(node)
    requires Stores(w.db, chain, local) && UniqueNumbers(w.db.blocks) && IsNew(local, tip, node[tip].hash)
    requires ForkPoint.Detect(local, node, tip, tip, threshold) == ForkPoint.Detected(e)
    ensures var w' := WithBlock(w, chain, node[tip]);
      && (Process(w', chain, e, f).ok <==>
            && NoFault(f) && chain != "" && tip > 0 && local[tip].hash != "" && node[tip].hash != ""
            && chain in w.marks && tip - 1 <= w.marks[chain].scanned)
      && (Process(w', chain, e, f).ok ==> RolledBack(w', Process(w', chain, e, f).world, chain, e))
  {
    var w' := WithBlock(w, chain, node[tip]);
    ForkPoint.EqualHeightsIff(local, node, tip, threshold, e);
    SavedBlockTells(w, chain, local, tip, node[tip]);
    ValidatesIff(w', chain, e);
    SuccessIff(w', chain, e, f);
    if Process(w', chain, e, f).ok {
      PipelineRollsBack(w', chain, e, f);
    }
  }

  lemma {:induction false} InvalidNeverRuns(w: World, chain: string, e: Event, plan: seq<Attempt>, first: bool)
    requires !Validates(w, chain, e)
    ensures Retry(w, chain, e, plan, first) == Effect(w, false)
    decreases plan
  {
    if plan != [] {
      InvalidNeverRuns(w, chain, e, plan[1..], false);
    }
  }

  /** Rolling back an event of the fork search keeps every row and only lowers the watermark. */
  lemma ForkPointRollbackIsEmpty(w: World, chain: string, local: ForkPoint.Chain, node: ForkPoint.Chain,
                                 tip: nat, latest: nat, threshold: nat, e: Event, f: Faults)
    requires tip in local && tip < latest && ForkPoint.Filed(local) && ForkPoint.Filed(node)
    requires ForkPoint.Detect(local, node, tip, latest, threshold) == ForkPoint.Detected(e)
    requires AutoProcess(w, chain, e, f).ok
    ensures AutoProcess(w, chain, e, f).world == Saved(ResetMark(w, chain, e), chain, e)
  {
    ForkPoint.SearchEvent(local, node, tip, 0, threshold);
    DeleteBlocksUntouched(w.db.blocks, chain, e.newNumber, e.oldNumber);
    DeleteLogsUntouched(w.db.logs, chain, e.newNumber, e.oldNumber);
    assert MarkReverted(w.db.txs, chain, e.newNumber, e.oldNumber) == w.db.txs;
  }

  /** To the status machine a rolled-back transaction is as it was: the stored blob still names the old status. */
  lemma RolledBackTransactionsStillMove(w: World, w': World, chain: string, e: Event,
                                        m: StatusMachine.Machine, i: nat, to: TxStatus, fault: Fault)
    requires RolledBack(w, w', chain, e) && i < |w.db.txs|
    ensures ProcessRow(m, w'.db.txs[i].row, to, fault).1 == ProcessRow(m, w.db.txs[i].row, to, fault).1
  {
    assert w'.db.txs[i].row.blob == w.db.txs[i].row.blob;
  }

  // ----- the objects -----

  /** What the processor and the detector share: the database, and the watermarks behind the scanner manager. */
  class ReorgHandling {
    const db: DatabaseStorage
    var marks: map<string, Watermarks.Watermark>

    constructor (db: DatabaseStorage, marks: map<string, Watermarks.Watermark>)
      ensures this.db == db && this.marks == marks
    {
      this.db, this.marks := db, marks;
    }

    function View(): World
      reads this, db
    {
      World(db.View(), marks)
    }

    method ValidateEvent(chain: string, e: Event, lookup: bool) returns (ok: bool)
      ensures ok <==> lookup && Validates(View(), chain, e)
      ensures HashesTell(db.blocks, chain, e.newHash) ==>
        (ok <==>
          && lookup && chain != "" && e.oldNumber > 0 && e.newNumber > 0 && e.depth > 0
          && e.oldHash != "" && e.newHash != ""
          && exists r ::
               r in db.blocks && r.chain == chain && r.block.hash == e.newHash && r.block.number == e.newNumber)
    {
      if HashesTell(db.blocks, chain, e.newHash) {
        ValidatesIff(View(), chain, e);
      }
      if chain == "" || e.oldNumber == 0 || e.newNumber == 0 || e.depth == 0 || e.oldHash == "" || e.newHash == "" {
        return false;
      }
      var found := db.GetBlockByHash(chain, e.newHash);
      return lookup && found.Some? && found.value.number == e.newNumber;
    }

    method ResetScannerWatermark(chain: string, e: Event, locked: bool) returns (ok: bool)
      modifies this`marks
      ensures Effect(View(), ok) == TryReset(old(View()), chain, e, locked)
      ensures ok <==> locked && MayReset(old(marks), chain, e)
      ensures marks == if !ok then old(marks) else
        old(marks)[chain := old(marks)[chain].(scanned := if e.oldNumber > 0 then e.oldNumber - 1 else 0)]
    {
      if chain !in marks {
        return false;
      }
      var safeHeight := e.oldNumber;
      if safeHeight > 0 {
        safeHeight := safeHeight - 1;
      }
      if !locked || safeHeight > marks[chain].scanned {
        return false;
      }
      marks := marks[chain := marks[chain].(scanned := safeHeight)];
      return true;
    }

    method MarkStep(chain: string, e: Event, fault: Fault) returns (ok: bool)
      modifies db
      ensures Effect(View(), ok) == Try(old(View()), Marked(old(View()), chain, e), fault)
    {
      ok := db.MarkTransactionsAsReverted(chain, e.newNumber, e.oldNumber, fault);
    }

    method DeleteBlocksStep(chain: string, e: Event, fault: Fault) returns (ok: bool)
      modifies db
      ensures Effect(View(), ok) == Try(old(View()), WithoutBlocks(old(View()), chain, e), fault)
    {
      ok := db.DeleteBlockRange(chain, e.newNumber, e.oldNumber, fault);
    }

    method DeleteLogsStep(chain: string, e: Event, fault: Fault) returns (ok: bool)
      modifies db
      ensures Effect(View(), ok) == Try(old(View()), WithoutLogs(old(View()), chain, e), fault)
    {
      ok := db.DeleteLogRange(chain, e.newNumber, e.oldNumber, fault);
    }

    method MarkEventAsProcessed(chain: string, e: Event, fault: Fault) returns (ok: bool)
      modifies db
      ensures Effect(View(), ok) == Try(old(View()), Saved(old(View()), chain, e), fault)
    {
      ok := db.SaveReorgEvent(EventRow(chain, e, true), fault);
    }

    method ProcessEvent(chain: string, e: Event, f: Faults) returns (ok: bool)
      modifies this, db
      ensures Effect(View(), ok) == Process(old(View()), chain, e, f)
    {
      ok := ValidateEvent(chain, e, f.lookup);
      if !ok { return; }
      ok := MarkStep(chain, e, f.mark);
      if !ok { return; }
      ok := DeleteBlocksStep(chain, e, f.blocks);
      if !ok { return; }
      ok := DeleteLogsStep(chain, e, f.logs);
      if !ok { return; }
      ok := ResetScannerWatermark(chain, e, f.locked);
      if !ok { return; }
      ok := MarkEventAsProcessed(chain, e, f.save);
    }

    method AutoProcessReorg(chain: string, e: Event, f: Faults) returns (ok: bool)
      modifies this, db
      ensures Effect(View(), ok) == AutoProcess(old(View()), chain, e, f)
    {
      ok := ResetScannerWatermark(chain, e, f.locked);
      if !ok { return; }
      ok := DeleteBlocksStep(chain, e, f.blocks);
      if !ok { return; }
      ok := DeleteLogsStep(chain, e, f.logs);
      if !ok { return; }
      ok := MarkStep(chain, e, f.mark);
      if !ok { return; }
      ok := MarkEventAsProcessed(chain, e, f.save);
    }

    /** `plan` says what happens to each of the maxRetries + 1 tries. */
    method ProcessEventWithRetry(chain: string, e: Event, maxRetries: int, plan: seq<Attempt>)
      returns (ok: bool, attempts: nat)
      requires |plan| == Max(maxRetries + 1, 0)
      modifies this, db
      ensures Effect(View(), ok) == Retry(old(View()), chain, e, plan, true)
      ensures attempts <= |plan|
      ensures ok ==> attempts > 0
    {
      attempts := 0;
      while attempts <= maxRetries
        invariant attempts <= |plan|
        invariant Retry(View(), chain, e, plan[attempts..], attempts == 0) == Retry(old(View()), chain, e, plan, true)
      {
        if attempts > 0 && plan[attempts].cancelled {
          return false, attempts;
        }
        ok := ProcessEvent(chain, e, plan[attempts].faults);
        attempts := attempts + 1;
        if ok {
          return;
        }
      }
      ok := false;
    }
  }
}
