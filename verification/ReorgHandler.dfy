/** The consumer's own handler of reorg events: it rolls the tables back and leaves the watermark alone. */
module ReorgHandler {
  import opened Machine
  import opened Wrappers
  import opened StatusMachine
  import opened Storage
  import ForkPoint
  import Keys
  import Rollback
  import ScanScheduler
  import ScanResults

  type Event = ForkPoint.Event

  const MAX_DEPTH: nat := 1000

  /** What goes wrong while an event is handled. */
  datatype Faults = Faults(lookup: bool, mark: Fault, blocks: Fault, logs: Fault, save: Fault)

  predicate NoFault(f: Faults) {
    f.lookup && f.mark.Clean? && f.blocks.Clean? && f.logs.Clean? && f.save.Clean?
  }

  predicate Validates(t: Tables, chain: string, e: Event) {
    && 0 < e.depth <= MAX_DEPTH && e.oldHash != "" && e.newHash != ""
    && var found := BlockByHash(t.blocks, chain, e.newHash);
    found.Some? && found.value.number == e.newNumber
  }

  /** The tables after all steps. */
  function Handled(t: Tables, chain: string, e: Event): Tables {
    Tables(
      DeleteBlocks(t.blocks, chain, e.newNumber, e.oldNumber),
      MarkReverted(t.txs, chain, e.newNumber, e.oldNumber),
      DeleteLogs(t.logs, chain, e.newNumber, e.oldNumber),
      t.events + [EventRow(chain, e, true)])
  }

  datatype Effect = Effect(tables: Tables, ok: bool)

  /** A statement under a fault: its effect unless it was lost, and success only without a fault. */
  function Try(t: Tables, t': Tables, fault: Fault): Effect {
    Effect(if fault.Lost? then t else t', fault.Clean?)
  }

  function Marked(t: Tables, chain: string, e: Event): Tables {
    t.(txs := MarkReverted(t.txs, chain, e.newNumber, e.oldNumber))
  }

  function WithoutBlocks(t: Tables, chain: string, e: Event): Tables {
    t.(blocks := DeleteBlocks(t.blocks, chain, e.newNumber, e.oldNumber))
  }

  function WithoutLogs(t: Tables, chain: string, e: Event): Tables {
    t.(logs := DeleteLogs(t.logs, chain, e.newNumber, e.oldNumber))
  }

  function Saved(t: Tables, chain: string, e: Event): Tables {
    t.(events := t.events + [EventRow(chain, e, true)])
  }

  /** One handling of an event, with the range statement for the transactions. */
  function Handle(t: Tables, chain: string, e: Event, f: Faults): Effect {
    if !f.lookup || !Validates(t, chain, e) then Effect(t, false)
    else
      var marked := Try(t, Marked(t, chain, e), f.mark);
      if !marked.ok then marked
      else
        var blocks := Try(marked.tables, WithoutBlocks(marked.tables, chain, e), f.blocks);
        if !blocks.ok then blocks
        else
          var logs := Try(blocks.tables, WithoutLogs(blocks.tables, chain, e), f.logs);
          if !logs.ok then logs else Try(logs.tables, Saved(logs.tables, chain, e), f.save)
  }

  /** The same, table by table: a statement takes effect exactly if all before it succeeded and it is not lost. */
  lemma HandleEffects(t: Tables, chain: string, e: Event, f: Faults)
    ensures var o := Handle(t, chain, e, f); var valid := f.lookup && Validates(t, chain, e);
      && o.tables.txs ==
           (if valid && !f.mark.Lost? then MarkReverted(t.txs, chain, e.newNumber, e.oldNumber) else t.txs)
      && o.tables.blocks ==
           (if valid && f.mark.Clean? && !f.blocks.Lost?
            then DeleteBlocks(t.blocks, chain, e.newNumber, e.oldNumber) else t.blocks)
      && o.tables.logs ==
           (if valid && f.mark.Clean? && f.blocks.Clean? && !f.logs.Lost?
            then DeleteLogs(t.logs, chain, e.newNumber, e.oldNumber) else t.logs)
      && o.tables.events == t.events +
           (if valid && f.mark.Clean? && f.blocks.Clean? && f.logs.Clean? && !f.save.Lost?
            then [EventRow(chain, e, true)] else [])
      && (o.ok <==> valid && f.mark.Clean? && f.blocks.Clean? && f.logs.Clean? && f.save.Clean?)
  {
  }

  /** What an event that the handler accepts is, in terms of the stored rows. */
  lemma ValidatesIff(t: Tables, chain: string, e: Event)
    requires HashesTell(t.blocks, chain, e.newHash)
    ensures Validates(t, chain, e) <==>
      && 0 < e.depth && e.depth <= 1000 && e.oldHash != "" && e.newHash != ""
      && exists r ::
           r in t.blocks && r.chain == chain && r.block.hash == e.newHash && r.block.number == e.newNumber
  {
    FoundAtNumberIff(t.blocks, chain, e.newHash, e.newNumber);
  }

  // ----- the loop that forces the status of each transaction -----

  /** No two rows are for the same transaction. */
  predicate UniqueKeys(rows: seq<TxRow>) {
    forall i, j | 0 <= i < j < |rows| && rows[i].chain == rows[j].chain :: rows[i].hash != rows[j].hash
  }

  predicate InRange(r: TxRow, chain: string, e: Event) {
    Hit(r.chain, r.number, chain, e.newNumber, e.oldNumber)
  }

  /** Row i is for the same transaction as a row in the range. */
  predicate SharesKey(rows: seq<TxRow>, i: nat, chain: string, e: Event)
    requires i < |rows|
  {
    rows[i].chain == chain && exists k :: 0 <= k < |rows| && InRange(rows[k], chain, e) && rows[k].hash == rows[i].hash
  }

  /** Row i as it was, or reverted since it shares its key with a row in the range. */
  predicate ForcedRow(rows: seq<TxRow>, i: nat, r: TxRow, chain: string, e: Event)
    requires i < |rows|
  {
    r == rows[i] || (SharesKey(rows, i, chain, e) && r == rows[i].(row := Row(Reverted, rows[i].row.blob)))
  }

  ghost predicate Forced(rows: seq<TxRow>, rows': seq<TxRow>, chain: string, e: Event) {
    |rows'| == |rows| && forall i | 0 <= i < |rows| :: ForcedRow(rows, i, rows'[i], chain, e)
  }

  lemma ForceOne(rows: seq<TxRow>, rows': seq<TxRow>, chain: string, e: Event, number: uint64, hash: string)
    requires Forced(rows, rows', chain, e) && e.newNumber <= number <= e.oldNumber
    requires exists k ::
      0 <= k < |rows'| && rows'[k].chain == chain && rows'[k].number == number && rows'[k].hash == hash
    ensures Forced(rows, WithStatus(rows', chain, hash, Reverted), chain, e)
  {
    var k :| 0 <= k < |rows'| && rows'[k].chain == chain && rows'[k].number == number && rows'[k].hash == hash;
    assert ForcedRow(rows, k, rows'[k], chain, e);
    var now := WithStatus(rows', chain, hash, Reverted);
    forall i | 0 <= i < |rows|
      ensures ForcedRow(rows, i, now[i], chain, e)
    {
      assert ForcedRow(rows, i, rows'[i], chain, e);
      if rows'[i].chain == chain && rows'[i].hash == hash {
        assert InRange(rows[k], chain, e) && rows[k].hash == rows[i].hash;
      }
    }
  }

  /** With one row per transaction the loop adds nothing to the range statement before it, whatever fails in it. */
  lemma UniqueKeysForceNothing(rows: seq<TxRow>, rows': seq<TxRow>, chain: string, e: Event)
    requires UniqueKeys(rows) && Forced(MarkReverted(rows, chain, e.newNumber, e.oldNumber), rows', chain, e)
    ensures rows' == MarkReverted(rows, chain, e.newNumber, e.oldNumber)
  {
    var marked := MarkReverted(rows, chain, e.newNumber, e.oldNumber);
    forall i | 0 <= i < |rows|
      ensures rows'[i] == marked[i]
    {
      assert ForcedRow(marked, i, rows'[i], chain, e);
      if SharesKey(marked, i, chain, e) {
        var k :| 0 <= k < |marked| && InRange(marked[k], chain, e) && marked[k].hash == marked[i].hash;
        assert k == i;
      }
    }
  }

  // ----- handling an event again -----

  /** The event is handed in again after each failure. */
  function HandleAll(t: Tables, chain: string, e: Event, fs: seq<Faults>): Effect
    decreases fs
  {
    if fs == [] then Effect(t, false)
    else
      var o := Handle(t, chain, e, fs[0]);
      if o.ok then o else HandleAll(o.tables, chain, e, fs[1..])
  }

  /** The handling does not get as far as deleting a block. */
  predicate FailsEarly(f: Faults) {
    !f.lookup || !f.mark.Clean? || f.blocks.Lost?
  }

  /** Call k meets no fault and comes before any damage. */
  predicate GoodCall(fs: seq<Faults>, k: nat) {
    k < |fs| && NoFault(fs[k]) && forall i | 0 <= i < k :: FailsEarly(fs[i])
  }

  ghost predicate HasGoodCall(fs: seq<Faults>) {
    exists k :: GoodCall(fs, k)
  }

  lemma GoodCallShifts(fs: seq<Faults>)
    requires fs != [] && FailsEarly(fs[0])
    ensures HasGoodCall(fs) <==> HasGoodCall(fs[1..])
  {
    if k: nat :| GoodCall(fs[1..], k) {
      forall i | 0 <= i < k + 1
        ensures FailsEarly(fs[i])
      {
        assert i > 0 ==> fs[i] == fs[1..][i - 1];
      }
      assert GoodCall(fs, k + 1);
    }
    if k: nat :| GoodCall(fs, k) {
      assert GoodCall(fs[1..], k - 1);
    }
  }

  lemma HandleIff(t: Tables, chain: string, e: Event, f: Faults)
    ensures Handle(t, chain, e, f).ok <==> NoFault(f) && Validates(t, chain, e)
    ensures Handle(t, chain, e, f).ok ==> Handle(t, chain, e, f).tables == Handled(t, chain, e)
    ensures FailsEarly(f) ==> Handle(t, chain, e, f).tables == t || Handle(t, chain, e, f).tables == Marked(t, chain, e)
  {
  }

  lemma MarkedIsMarked(t: Tables, chain: string, e: Event)
    ensures Marked(Marked(t, chain, e), chain, e) == Marked(t, chain, e)
    ensures Validates(Marked(t, chain, e), chain, e) == Validates(t, chain, e)
    ensures Handled(Marked(t, chain, e), chain, e) == Handled(t, chain, e)
  {
    StatementsAreIdempotent(t, chain, e.newNumber, e.oldNumber);
  }

  /** Once the new block is gone from the store, no further handling succeeds or changes anything. */
  lemma {:induction false} Poisoned(t: Tables, chain: string, e: Event, fs: seq<Faults>)
    requires forall r | r in t.blocks && r.chain == chain :: r.block.number != e.newNumber
    ensures HandleAll(t, chain, e, fs) == Effect(t, false)
    decreases fs
  {
    BlockByHashSound(t.blocks, chain, e.newHash);
    if fs != [] {
      Poisoned(t, chain, e, fs[1..]);
    }
  }

  lemma LateFailurePoisons(t: Tables, chain: string, e: Event, f: Faults, r: BlockRow)
    requires e.newNumber <= e.oldNumber && Validates(t, chain, e) && !FailsEarly(f)
    requires r in Handle(t, chain, e, f).tables.blocks && r.chain == chain
    ensures r.block.number != e.newNumber
  {
    DeleteBlocksKeeps(t.blocks, chain, e.newNumber, e.oldNumber, r);
  }

  lemma {:induction false} HandleAllFrom(t: Tables, t0: Tables, chain: string, e: Event, fs: seq<Faults>)
    requires e.newNumber <= e.oldNumber && (t0 == t || t0 == Marked(t, chain, e))
    ensures HandleAll(t0, chain, e, fs).ok <==> Validates(t, chain, e) && HasGoodCall(fs)
    ensures HandleAll(t0, chain, e, fs).ok ==> HandleAll(t0, chain, e, fs).tables == Handled(t, chain, e)
    decreases fs
  {
    if fs != [] {
      var o := Handle(t0, chain, e, fs[0]);
      HandleIff(t0, chain, e, fs[0]);
      MarkedIsMarked(t, chain, e);
      if o.ok {
        assert GoodCall(fs, 0);
      } else if FailsEarly(fs[0]) {
        HandleAllFrom(t, o.tables, chain, e, fs[1..]);
        GoodCallShifts(fs);
      } else if Validates(t, chain, e) {
        forall r | r in o.tables.blocks && r.chain == chain
          ensures r.block.number != e.newNumber
        {
          LateFailurePoisons(t0, chain, e, fs[0], r);
        }
        Poisoned(o.tables, chain, e, fs[1..]);
      } else {
        HandleAllFrom(t, t0, chain, e, fs[1..]);
      }
    }
  }

  /**
   For an event that deletes something, handling it again and again succeeds exactly when the event is valid and some
   call meets no fault while every earlier one failed before its block deletion took effect.
   */
  lemma HandlingSucceedsIff(t: Tables, chain: string, e: Event, fs: seq<Faults>)
    requires e.newNumber <= e.oldNumber
    ensures HandleAll(t, chain, e, fs).ok <==> Validates(t, chain, e) && HasGoodCall(fs)
    ensures HandleAll(t, chain, e, fs).ok ==> HandleAll(t, chain, e, fs).tables == Handled(t, chain, e)
  {
    HandleAllFrom(t, t, chain, e, fs);
  }

  lemma HandleStaysPartway(w: Rollback.World, v: Rollback.World, chain: string, e: Event, f: Faults)
    requires Rollback.Partway(w, v, chain, e)
    ensures Rollback.Partway(w, v.(db := Handle(v.db, chain, e, f).tables), chain, e)
  {
    var v1 := v.(db := Try(v.db, Marked(v.db, chain, e), f.mark).tables);
    Rollback.StatementsStayPartway(w, v, chain, e);
    assert v1 == v || v1 == Rollback.Marked(v, chain, e);
    var v2 := v.(db := Try(v1.db, WithoutBlocks(v1.db, chain, e), f.blocks).tables);
    Rollback.StatementsStayPartway(w, v1, chain, e);
    assert v2 == v1 || v2 == Rollback.WithoutBlocks(v1, chain, e);
    var v3 := v.(db := Try(v2.db, WithoutLogs(v2.db, chain, e), f.logs).tables);
    Rollback.StatementsStayPartway(w, v2, chain, e);
    assert v3 == v2 || v3 == Rollback.WithoutLogs(v2, chain, e);
    var v4 := v.(db := Try(v3.db, Saved(v3.db, chain, e), f.save).tables);
    Rollback.StatementsStayPartway(w, v3, chain, e);
    assert v4 == v3 || v4 == Rollback.Saved(v3, chain, e);
    HandleStops(v.db, chain, e, f);
  }

  /** Handling stops after one of its statements. */
  lemma HandleStops(t: Tables, chain: string, e: Event, f: Faults)
    ensures var t1 := Try(t, Marked(t, chain, e), f.mark).tables;
      var t2 := Try(t1, WithoutBlocks(t1, chain, e), f.blocks).tables;
      var t3 := Try(t2, WithoutLogs(t2, chain, e), f.logs).tables;
      var t4 := Try(t3, Saved(t3, chain, e), f.save).tables;
      var end := Handle(t, chain, e, f).tables;
      end == t || end == t1 || end == t2 || end == t3 || end == t4
  {
  }

  lemma {:induction false} HandleAllStaysPartway(w: Rollback.World, v: Rollback.World, chain: string, e: Event,
                                                 fs: seq<Faults>)
    requires Rollback.Partway(w, v, chain, e)
    ensures Rollback.Partway(w, v.(db := HandleAll(v.db, chain, e, fs).tables), chain, e)
    decreases fs
  {
    if fs != [] {
      var o := Handle(v.db, chain, e, fs[0]);
      HandleStaysPartway(w, v, chain, e, fs[0]);
      if !o.ok {
        HandleAllStaysPartway(w, v.(db := o.tables), chain, e, fs[1..]);
      }
    }
  }

  /** The detector's rollback repairs whatever failed handlings left, and resets the watermark. */
  lemma ShortcutRepairsHandling(w: Rollback.World, chain: string, e: Event, fs: seq<Faults>, f: Rollback.Faults)
    requires Rollback.CanReset(w, chain, e) && Rollback.NoFault(f)
    ensures var end := Rollback.AutoProcess(w.(db := HandleAll(w.db, chain, e, fs).tables), chain, e, f);
      && end.ok
      && end.world.marks == Rollback.Completed(w, chain, e).marks
      && end.world.db.(events := []) == Rollback.Completed(w, chain, e).db.(events := [])
  {
    var v := w.(db := HandleAll(w.db, chain, e, fs).tables);
    HandleAllStaysPartway(w, w, chain, e, fs);
    Rollback.StatementsStayPartway(w, v, chain, e);
    Rollback.SuccessIff(v, chain, e, f);
    Rollback.CompletedFromPartway(w, v, chain, e);
    Rollback.ShortcutCompletes(v, chain, e, f);
  }

  // ----- compared with the pipeline -----

  /** Where both complete, the handler leaves the same tables as the pipeline. */
  lemma HandledLikePipeline(w: Rollback.World, chain: string, e: Event)
    requires Rollback.CanReset(w, chain, e)
    ensures Rollback.Completed(w, chain, e).db == Handled(w.db, chain, e)
  {
  }

  /**
   But the handler leaves a hole: the blocks of the range are gone, and a quiet scanner generates no task for one of
   them in any run up to the next reset, exactly if its watermark is at or above that block.
   */
  lemma HandlerLeavesHoleIff(t: Tables, chain: string, e: Event, c: ScanScheduler.Config,
                             s0: ScanScheduler.State, b: uint64)
    requires e.newNumber <= b <= e.oldNumber && c.workers >= 1 && ScanScheduler.Quiet(s0)
    ensures BlockByNumber(Handled(t, chain, e).blocks, chain, b) == None
    ensures ScanResults.NeverGenerated(c, s0, b) <==> b <= s0.scanned
  {
    DeletedIsGone(t.blocks, chain, e.newNumber, e.oldNumber, chain, b);
    ScanResults.NeverGeneratedIff(c, s0, b);
  }

  /** Like the pipeline, it refuses every event of the detector, since the new block is not stored. */
  lemma ReportedEventsAreRefused(t: Tables, chain: string, local: ForkPoint.Chain, node: ForkPoint.Chain,
                                 tip: nat, latest: nat, threshold: nat, e: Event)
    requires tip in local && ForkPoint.Filed(local) && ForkPoint.Filed(node) && Rollback.Stores(t, chain, local)
    requires ForkPoint.Detect(local, node, tip, latest, threshold) == ForkPoint.Detected(e)
    ensures !Validates(t, chain, e)
  {
    if e.depth > 0 {
      ForkPoint.DetectedBlockIsNotStored(local, node, tip, latest, threshold);
      BlockByHashSound(t.blocks, chain, e.newHash);
    }
  }

  /** The rows are for the same transactions at the same heights. */
  predicate SameKeys(rows: seq<TxRow>, rows': seq<TxRow>) {
    && |rows'| == |rows|
    && forall i | 0 <= i < |rows| ::
         rows'[i].chain == rows[i].chain && rows'[i].hash == rows[i].hash && rows'[i].number == rows[i].number
  }

  /**
   Once the scanner has stored the node's block over the tip, the event that the detector reported for equal heights is
   handled exactly if nothing fails and both blocks have a hash.
   */
  lemma SavedReorgIsHandledIff(w: Rollback.World, chain: string, local: ForkPoint.Chain, node: ForkPoint.Chain,
                               tip: nat, threshold: nat, e: Event, f: Faults)
    requires tip in local && tip in node && ForkPoint.Filed(local) && ForkPoint.Filed(node)
    requires Rollback.Stores(w.db, chain, local) && UniqueNumbers(w.db.blocks)
    requires Rollback.IsNew(local, tip, node[tip].hash)
    requires ForkPoint.Detect(local, node, tip, tip, threshold) == ForkPoint.Detected(e)
    ensures var t := Rollback.WithBlock(w, chain, node[tip]).db;
      && (Handle(t, chain, e, f).ok <==> NoFault(f) && local[tip].hash != "" && node[tip].hash != "")
      && (Handle(t, chain, e, f).ok ==> Handle(t, chain, e, f).tables == Handled(t, chain, e))
  {
    var t := Rollback.WithBlock(w, chain, node[tip]).db;
    ForkPoint.EqualHeightsIff(local, node, tip, threshold, e);
    Rollback.SavedBlockTells(w, chain, local, tip, node[tip]);
    ValidatesIff(t, chain, e);
    HandleIff(t, chain, e, f);
  }

  // ----- the object -----

  /** Whether the transactions of a height can be read, and what becomes of the update for the n-th of them. */
  type Reads = uint64 -> bool

  type Updates = (uint64, nat) -> Fault

  class DefaultReorgHandler {
    const db: DatabaseStorage
    var processing: set<string>

    constructor (db: DatabaseStorage)
      ensures this.db == db && processing == {}
    {
      this.db, processing := db, {};
    }

    method ValidateReorgEvent(chain: string, e: Event, lookup: bool) returns (ok: bool)
      ensures ok <==> lookup && Validates(db.View(), chain, e)
      ensures HashesTell(db.blocks, chain, e.newHash) ==>
        (ok <==>
          && lookup && 0 < e.depth && e.depth <= 1000 && e.oldHash != "" && e.newHash != ""
          && exists r ::
               r in db.blocks && r.chain == chain && r.block.hash == e.newHash && r.block.number == e.newNumber)
    {
      if HashesTell(db.blocks, chain, e.newHash) {
        ValidatesIff(db.View(), chain, e);
      }
      if e.depth == 0 || e.depth > MAX_DEPTH || e.oldHash == "" || e.newHash == "" {
        return false;
      }
      var found := db.GetBlockByHash(chain, e.newHash);
      return lookup && found.Some? && found.value.number == e.newNumber;
    }

    /** Forces the status of the transactions at one height; failures are only logged. */
    method ForceBlock(chain: string, e: Event, number: uint64, updates: Updates, ghost rows: seq<TxRow>)
      requires e.newNumber <= number <= e.oldNumber && Forced(rows, db.txs, chain, e)
      modifies db`txs
      ensures Forced(rows, db.txs, chain, e)
    {
      var hashes := db.GetTransactionsByBlock(chain, number);
      ghost var before := db.txs;
      for i := 0 to |hashes|
        invariant Forced(rows, db.txs, chain, e) && SameKeys(before, db.txs)
      {
        HashesAtIff(before, chain, number, hashes[i]);
        ForceOne(rows, db.txs, chain, e, number, hashes[i]);
        var ok := db.UpdateTransactionStatus(chain, hashes[i], Reverted, updates(number, i));
      }
    }

    /** The range statement, and then a forced status for each transaction of each block in the range. */
    method MarkTransactionsAsReverted(chain: string, e: Event, mark: Fault, readable: Reads, updates: Updates)
      returns (ok: bool)
      requires e.oldNumber < U64 - 1
      modifies db`txs
      ensures ok == mark.Clean?
      ensures !ok ==>
        db.txs == if mark.Lost? then old(db.txs) else MarkReverted(old(db.txs), chain, e.newNumber, e.oldNumber)
      ensures ok ==> Forced(MarkReverted(old(db.txs), chain, e.newNumber, e.oldNumber), db.txs, chain, e)
    {
      ok := db.MarkTransactionsAsReverted(chain, e.newNumber, e.oldNumber, mark);
      if !ok { return; }
      ghost var rows := db.txs;
      var number: uint64 := e.newNumber;
      while number <= e.oldNumber
        invariant number >= e.newNumber && Forced(rows, db.txs, chain, e)
        decreases e.oldNumber + 1 - number
      {
        if readable(number) {
          ForceBlock(chain, e, number, updates, rows);
        }
        number := Wrap(number + 1);
      }
    }

    /**
     Handles an event, unless it is being handled: succeeds exactly when the event is valid and nothing fails (the
     forced updates aside).  With one row per transaction it leaves the tables as the steps up to a failure do.
     */
    method HandleReorg(chain: string, e: Event, f: Faults, readable: Reads, updates: Updates) returns (ok: bool)
      requires e.oldNumber < U64 - 1
      modifies this`processing, db
      ensures processing == old(processing)
      ensures Keys.EventKey(chain, e.oldNumber, e.newNumber) in old(processing) ==> !ok && db.View() == old(db.View())
      ensures Keys.EventKey(chain, e.oldNumber, e.newNumber) !in old(processing) ==>
        && (ok <==> NoFault(f) && old(Validates(db.View(), chain, e)))
        && (old(UniqueKeys(db.txs)) ==> Effect(db.View(), ok) == Handle(old(db.View()), chain, e, f))
    {
      var key := Keys.EventKey(chain, e.oldNumber, e.newNumber);
      if key in processing {
        return false;
      }
      processing := processing + {key};
      ok := RollBack(chain, e, f, readable, updates);
      processing := processing - {key};
    }

    /** The steps after the event was entered as being processed. */
    method RollBack(chain: string, e: Event, f: Faults, readable: Reads, updates: Updates) returns (ok: bool)
      requires e.oldNumber < U64 - 1
      modifies db
      ensures ok <==> NoFault(f) && old(Validates(db.View(), chain, e))
      ensures old(UniqueKeys(db.txs)) ==> Effect(db.View(), ok) == Handle(old(db.View()), chain, e, f)
    {
      ok := ValidateReorgEvent(chain, e, f.lookup);
      if !ok { return; }
      ok := MarkTransactionsAsReverted(chain, e, f.mark, readable, updates);
      if !ok { return; }
      if UniqueKeys(old(db.txs)) {
        UniqueKeysForceNothing(old(db.txs), db.txs, chain, e);
      }
      ok := db.DeleteBlockRange(chain, e.newNumber, e.oldNumber, f.blocks);
      if !ok { return; }
      ok := db.DeleteLogRange(chain, e.newNumber, e.oldNumber, f.logs);
      if !ok { return; }
      ok := db.SaveReorgEvent(EventRow(chain, e, true), f.save);
    }
  }
}
