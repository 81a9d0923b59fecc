/** The tables of the database and the statements that a rollback sends to them. */
module Storage {
  import opened Machine
  import opened Wrappers
  import ForkPoint
  import opened StatusMachine

  datatype BlockRow = BlockRow(chain: string, block: ForkPoint.Block)

  datatype TxRow = TxRow(chain: string, hash: string, number: uint64, row: Row)

  datatype LogRow = LogRow(chain: string, tx: string, index: nat, number: uint64)

  datatype EventRow = EventRow(chain: string, event: ForkPoint.Event, processed: bool)

  /** Rows in the order of their primary keys. */
  datatype Tables = Tables(blocks: seq<BlockRow>, txs: seq<TxRow>, logs: seq<LogRow>, events: seq<EventRow>)

  /** The condition of the range statements: this chain, and a number from `from` to `to`. */
  predicate Hit(rowChain: string, number: uint64, chain: string, from: uint64, to: uint64) {
    rowChain == chain && from <= number <= to
  }

  function DeleteBlocks(rows: seq<BlockRow>, chain: string, from: uint64, to: uint64): seq<BlockRow> {
    if rows == [] then []
    else
      (if Hit(rows[0].chain, rows[0].block.number, chain, from, to) then [] else [rows[0]])
      + DeleteBlocks(rows[1..], chain, from, to)
  }

  function DeleteLogs(rows: seq<LogRow>, chain: string, from: uint64, to: uint64): seq<LogRow> {
    if rows == [] then []
    else
      (if Hit(rows[0].chain, rows[0].number, chain, from, to) then [] else [rows[0]])
      + DeleteLogs(rows[1..], chain, from, to)
  }

  /** Sets the status column, and only that one. */
  function MarkReverted(rows: seq<TxRow>, chain: string, from: uint64, to: uint64): seq<TxRow> {
    seq(|rows|, i requires 0 <= i < |rows| =>
      if Hit(rows[i].chain, rows[i].number, chain, from, to)
      then rows[i].(row := rows[i].row.(status := Reverted)) else rows[i])
  }

  /** The hashes of the chain's transactions at a height. */
  function HashesAt(rows: seq<TxRow>, chain: string, number: uint64): seq<string> {
    if rows == [] then []
    else
      var last := rows[|rows| - 1];
      HashesAt(rows[..|rows| - 1], chain, number)
      + if Hit(last.chain, last.number, chain, number, number) then [last.hash] else []
  }

  /** Sets the status column of the rows with a chain and a hash. */
  function WithStatus(rows: seq<TxRow>, chain: string, hash: string, status: TxStatus): seq<TxRow> {
    seq(|rows|, i requires 0 <= i < |rows| =>
      if rows[i].chain == chain && rows[i].hash == hash
      then rows[i].(row := rows[i].row.(status := status)) else rows[i])
  }

  /** The row with the lowest primary key that has the hash. */
  function BlockByHash(rows: seq<BlockRow>, chain: string, hash: string): Option<ForkPoint.Block> {
    if rows == [] then None
    else if rows[0].chain == chain && rows[0].block.hash == hash then Some(rows[0].block)
    else BlockByHash(rows[1..], chain, hash)
  }

  /** The row with the lowest primary key that has the number. */
  function BlockByNumber(rows: seq<BlockRow>, chain: string, number: uint64): Option<ForkPoint.Block> {
    if rows == [] then None
    else if rows[0].chain == chain && rows[0].block.number == number then Some(rows[0].block)
    else BlockByNumber(rows[1..], chain, number)
  }

  /** Insert, or overwrite the row of the same chain and number in place. */
  function SaveBlock(rows: seq<BlockRow>, row: BlockRow): seq<BlockRow> {
    if rows == [] then [row]
    else if rows[0].chain == row.chain && rows[0].block.number == row.block.number then [row] + rows[1..]
    else [rows[0]] + SaveBlock(rows[1..], row)
  }

  /** A row survives exactly when it is of another chain or its number is outside the range. */
  lemma {:induction false} DeleteBlocksKeeps(rows: seq<BlockRow>, chain: string, from: uint64, to: uint64, r: BlockRow)
    ensures r in DeleteBlocks(rows, chain, from, to) <==>
      r in rows && !(r.chain == chain && from <= r.block.number && r.block.number <= to)
  {
    if rows != [] {
      DeleteBlocksKeeps(rows[1..], chain, from, to, r);
      assert rows == [rows[0]] + rows[1..];
    }
  }

  lemma {:induction false} DeleteLogsKeeps(rows: seq<LogRow>, chain: string, from: uint64, to: uint64, r: LogRow)
    ensures r in DeleteLogs(rows, chain, from, to) <==>
      r in rows && !(r.chain == chain && from <= r.number && r.number <= to)
  {
    if rows != [] {
      DeleteLogsKeeps(rows[1..], chain, from, to, r);
      assert rows == [rows[0]] + rows[1..];
    }
  }

  /** Deleting goes row by row, so the other rows keep their order and their number of copies. */
  lemma {:induction false} DeleteBlocksRowByRow(a: seq<BlockRow>, b: seq<BlockRow>, chain: string, from: uint64,
                                                to: uint64)
    ensures DeleteBlocks(a + b, chain, from, to) == DeleteBlocks(a, chain, from, to) + DeleteBlocks(b, chain, from, to)
  {
    if a == [] {
      assert a + b == b;
    } else {
      assert (a + b)[0] == a[0] && (a + b)[1..] == a[1..] + b;
      DeleteBlocksRowByRow(a[1..], b, chain, from, to);
      var first := if Hit(a[0].chain, a[0].block.number, chain, from, to) then [] else [a[0]];
      var rest, more := DeleteBlocks(a[1..], chain, from, to), DeleteBlocks(b, chain, from, to);
      assert first + (rest + more) == (first + rest) + more;
    }
  }

  lemma DeleteBlocksOneRow(r: BlockRow, chain: string, from: uint64, to: uint64)
    ensures DeleteBlocks([r], chain, from, to) ==
      if r.chain == chain && from <= r.block.number && r.block.number <= to then [] else [r]
  {
    assert [r][1..] == [];
  }

  lemma {:induction false} DeleteLogsRowByRow(a: seq<LogRow>, b: seq<LogRow>, chain: string, from: uint64, to: uint64)
    ensures DeleteLogs(a + b, chain, from, to) == DeleteLogs(a, chain, from, to) + DeleteLogs(b, chain, from, to)
  {
    if a == [] {
      assert a + b == b;
    } else {
      assert (a + b)[0] == a[0] && (a + b)[1..] == a[1..] + b;
      DeleteLogsRowByRow(a[1..], b, chain, from, to);
      var first := if Hit(a[0].chain, a[0].number, chain, from, to) then [] else [a[0]];
      var rest, more := DeleteLogs(a[1..], chain, from, to), DeleteLogs(b, chain, from, to);
      assert first + (rest + more) == (first + rest) + more;
    }
  }

  lemma DeleteLogsOneRow(r: LogRow, chain: string, from: uint64, to: uint64)
    ensures DeleteLogs([r], chain, from, to) ==
      if r.chain == chain && from <= r.number && r.number <= to then [] else [r]
  {
    assert [r][1..] == [];
  }

  /** Rows outside the range keep their order and their number of copies. */
  lemma {:induction false} DeleteBlocksUntouched(rows: seq<BlockRow>, chain: string, from: uint64, to: uint64)
    requires forall r | r in rows :: !Hit(r.chain, r.block.number, chain, from, to)
    ensures DeleteBlocks(rows, chain, from, to) == rows
  {
    if rows != [] {
      assert forall r | r in rows[1..] :: r in rows;
      DeleteBlocksUntouched(rows[1..], chain, from, to);
    }
  }

  lemma {:induction false} DeleteLogsUntouched(rows: seq<LogRow>, chain: string, from: uint64, to: uint64)
    requires forall r | r in rows :: !Hit(r.chain, r.number, chain, from, to)
    ensures DeleteLogs(rows, chain, from, to) == rows
  {
    if rows != [] {
      assert forall r | r in rows[1..] :: r in rows;
      DeleteLogsUntouched(rows[1..], chain, from, to);
    }
  }

  /** Repeating a statement changes nothing more. */
  lemma StatementsAreIdempotent(t: Tables, chain: string, from: uint64, to: uint64)
    ensures var blocks := DeleteBlocks(t.blocks, chain, from, to); DeleteBlocks(blocks, chain, from, to) == blocks
    ensures var logs := DeleteLogs(t.logs, chain, from, to); DeleteLogs(logs, chain, from, to) == logs
    ensures var txs := MarkReverted(t.txs, chain, from, to); MarkReverted(txs, chain, from, to) == txs
  {
    var blocks, logs := DeleteBlocks(t.blocks, chain, from, to), DeleteLogs(t.logs, chain, from, to);
    forall r | r in blocks
      ensures !Hit(r.chain, r.block.number, chain, from, to)
    {
      DeleteBlocksKeeps(t.blocks, chain, from, to, r);
    }
    forall r | r in logs
      ensures !Hit(r.chain, r.number, chain, from, to)
    {
      DeleteLogsKeeps(t.logs, chain, from, to, r);
    }
    DeleteBlocksUntouched(blocks, chain, from, to);
    DeleteLogsUntouched(logs, chain, from, to);
  }

  lemma {:induction false} BlockByHashSound(rows: seq<BlockRow>, chain: string, hash: string)
    ensures var b := BlockByHash(rows, chain, hash);
      && (b.Some? ==> BlockRow(chain, b.value) in rows && b.value.hash == hash)
      && (b.None? ==> forall r | r in rows && r.chain == chain :: r.block.hash != hash)
  {
    if rows != [] {
      BlockByHashSound(rows[1..], chain, hash);
      assert rows == [rows[0]] + rows[1..];
    }
  }

  lemma {:induction false} BlockByNumberSound(rows: seq<BlockRow>, chain: string, number: uint64)
    ensures var b := BlockByNumber(rows, chain, number);
      && (b.Some? ==> BlockRow(chain, b.value) in rows && b.value.number == number)
      && (b.None? ==> forall r | r in rows && r.chain == chain :: r.block.number != number)
  {
    if rows != [] {
      BlockByNumberSound(rows[1..], chain, number);
      assert rows == [rows[0]] + rows[1..];
    }
  }

  /** No two rows of a chain have the same number. */
  predicate UniqueNumbers(rows: seq<BlockRow>) {
    forall i, j | 0 <= i < j < |rows| && rows[i].chain == rows[j].chain :: rows[i].block.number != rows[j].block.number
  }

  /** Saving puts the block in the place of the row with its chain and number, if there is one; all others stay. */
  lemma {:induction false} SavedRows(rows: seq<BlockRow>, row: BlockRow, r: BlockRow)
    requires UniqueNumbers(rows)
    ensures r in SaveBlock(rows, row) <==>
      r == row || (r in rows && !(r.chain == row.chain && r.block.number == row.block.number))
  {
    if rows != [] {
      assert rows == [rows[0]] + rows[1..];
      if rows[0].chain == row.chain && rows[0].block.number == row.block.number {
        assert forall x | x in rows[1..] :: !(x.chain == row.chain && x.block.number == row.block.number);
      } else {
        SavedRows(rows[1..], row, r);
      }
    }
  }

  /** No two rows of a chain with different numbers have the same hash. */
  ghost predicate HashesTell(rows: seq<BlockRow>, chain: string, hash: string) {
    forall r, r' | r in rows && r' in rows && r.chain == chain && r'.chain == chain && r.block.hash == hash
      && r'.block.hash == hash :: r.block.number == r'.block.number
  }

  /** Where a hash belongs to one number, the lookup by hash finds that number exactly when some row has both. */
  lemma FoundAtNumberIff(rows: seq<BlockRow>, chain: string, hash: string, number: uint64)
    requires HashesTell(rows, chain, hash)
    ensures var found := BlockByHash(rows, chain, hash);
      found.Some? && found.value.number == number <==>
      exists r :: r in rows && r.chain == chain && r.block.hash == hash && r.block.number == number
  {
    BlockByHashSound(rows, chain, hash);
    var found := BlockByHash(rows, chain, hash);
    if found.Some? {
      assert BlockRow(chain, found.value) in rows;
    }
  }

  lemma {:induction false} HashesAtIff(rows: seq<TxRow>, chain: string, number: uint64, h: string)
    ensures h in HashesAt(rows, chain, number) <==>
      exists k :: 0 <= k < |rows| && rows[k].chain == chain && rows[k].number == number && rows[k].hash == h
  {
    if rows != [] {
      var front, last := rows[..|rows| - 1], rows[|rows| - 1];
      HashesAtIff(front, chain, number, h);
      assert forall k | 0 <= k < |front| :: front[k] == rows[k];
    }
  }

  /** Saving and deleting rows act on the lookup by number like updates of a map. */
  lemma {:induction false} SavedIsFound(rows: seq<BlockRow>, row: BlockRow, chain: string, number: uint64)
    ensures BlockByNumber(SaveBlock(rows, row), chain, number) ==
      if chain == row.chain && number == row.block.number then Some(row.block) else BlockByNumber(rows, chain, number)
  {
    if rows != [] && !(rows[0].chain == row.chain && rows[0].block.number == row.block.number) {
      SavedIsFound(rows[1..], row, chain, number);
    }
  }

  lemma {:induction false} DeletedIsGone(rows: seq<BlockRow>, chain: string, from: uint64, to: uint64,
                                         c: string, n: uint64)
    ensures BlockByNumber(DeleteBlocks(rows, chain, from, to), c, n) ==
      if Hit(c, n, chain, from, to) then None else BlockByNumber(rows, c, n)
  {
    if rows != [] {
      DeletedIsGone(rows[1..], chain, from, to, c, n);
      var rest := DeleteBlocks(rows[1..], chain, from, to);
      assert [] + rest == rest && ([rows[0]] + rest)[1..] == rest;
    }
  }

  /** The database with its statements.  `fault` says what became of a write. */
  class DatabaseStorage {
    var blocks: seq<BlockRow>
    var txs: seq<TxRow>
    var logs: seq<LogRow>
    var events: seq<EventRow>

    constructor (tables: Tables)
      ensures View() == tables
    {
      blocks, txs, logs, events := tables.blocks, tables.txs, tables.logs, tables.events;
    }

    function View(): Tables
      reads this
    {
      Tables(blocks, txs, logs, events)
    }

    method GetBlockByHash(chain: string, hash: string) returns (block: Option<ForkPoint.Block>)
      ensures block == BlockByHash(blocks, chain, hash)
    {
      var i := 0;
      while i < |blocks|
        invariant i <= |blocks| && BlockByHash(blocks, chain, hash) == BlockByHash(blocks[i..], chain, hash)
      {
        if blocks[i].chain == chain && blocks[i].block.hash == hash {
          return Some(blocks[i].block);
        }
        i := i + 1;
      }
      return None;
    }

    method GetBlock(chain: string, number: uint64) returns (block: Option<ForkPoint.Block>)
      ensures block == BlockByNumber(blocks, chain, number)
    {
      var i := 0;
      while i < |blocks|
        invariant i <= |blocks| && BlockByNumber(blocks, chain, number) == BlockByNumber(blocks[i..], chain, number)
      {
        if blocks[i].chain == chain && blocks[i].block.number == number {
          return Some(blocks[i].block);
        }
        i := i + 1;
      }
      return None;
    }

    method SaveBlockRow(row: BlockRow, fault: Fault) returns (ok: bool)
      modifies this`blocks
      ensures blocks == if fault.Lost? then old(blocks) else SaveBlock(old(blocks), row)
      ensures ok == fault.Clean?
    {
      if !fault.Lost? {
        blocks := SaveBlock(blocks, row);
      }
      ok := fault.Clean?;
    }

    method DeleteBlockRange(chain: string, from: uint64, to: uint64, fault: Fault) returns (ok: bool)
      modifies this`blocks
      ensures blocks == if fault.Lost? then old(blocks) else DeleteBlocks(old(blocks), chain, from, to)
      ensures ok == fault.Clean?
    {
      if !fault.Lost? {
        blocks := DeleteBlocks(blocks, chain, from, to);
      }
      ok := fault.Clean?;
    }

    method DeleteLogRange(chain: string, from: uint64, to: uint64, fault: Fault) returns (ok: bool)
      modifies this`logs
      ensures logs == if fault.Lost? then old(logs) else DeleteLogs(old(logs), chain, from, to)
      ensures ok == fault.Clean?
    {
      if !fault.Lost? {
        logs := DeleteLogs(logs, chain, from, to);
      }
      ok := fault.Clean?;
    }

    method MarkTransactionsAsReverted(chain: string, from: uint64, to: uint64, fault: Fault) returns (ok: bool)
      modifies this`txs
      ensures txs == if fault.Lost? then old(txs) else MarkReverted(old(txs), chain, from, to)
      ensures |txs| == |old(txs)|
      ensures forall i | 0 <= i < |txs| :: var r := old(txs)[i];
        txs[i] == if !fault.Lost? && r.chain == chain && from <= r.number && r.number <= to
                  then r.(row := Row(Reverted, r.row.blob)) else r
      ensures ok == fault.Clean?
    {
      if !fault.Lost? {
        txs := MarkReverted(txs, chain, from, to);
      }
      ok := fault.Clean?;
    }

    method GetTransactionsByBlock(chain: string, number: uint64) returns (hashes: seq<string>)
      ensures hashes == HashesAt(txs, chain, number)
    {
      hashes := [];
      for i := 0 to |txs|
        invariant hashes == HashesAt(txs[..i], chain, number)
      {
        assert txs[..i + 1][..i] == txs[..i];
        if txs[i].chain == chain && txs[i].number == number {
          hashes := hashes + [txs[i].hash];
        }
      }
      assert txs[..|txs|] == txs;
    }

    method UpdateTransactionStatus(chain: string, hash: string, status: TxStatus, fault: Fault) returns (ok: bool)
      modifies this`txs
      ensures txs == if fault.Lost? then old(txs) else WithStatus(old(txs), chain, hash, status)
      ensures |txs| == |old(txs)|
      ensures forall i | 0 <= i < |txs| :: var r := old(txs)[i];
        txs[i] == if !fault.Lost? && r.chain == chain && r.hash == hash
                  then r.(row := Row(status, r.row.blob)) else r
      ensures ok == fault.Clean?
    {
      if !fault.Lost? {
        txs := WithStatus(txs, chain, hash, status);
      }
      ok := fault.Clean?;
    }

    method SaveReorgEvent(row: EventRow, fault: Fault) returns (ok: bool)
      modifies this`events
      ensures events == if fault.Lost? then old(events) else old(events) + [row]
      ensures ok == fault.Clean?
    {
      if !fault.Lost? {
        events := events + [row];
      }
      ok := fault.Clean?;
    }
  }
}
