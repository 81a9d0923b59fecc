/** The block cache in front of the database. */
module BlockCache {
  import opened Machine
  import opened Wrappers
  import opened StatusMachine
  import Storage
  import ForkPoint

  type Key = (string, uint64)

  type Block = ForkPoint.Block

  /** The rows of the database, which reads and writes share, and the entries of the cache, if it is in use. */
  datatype State = State(rows: seq<Storage.BlockRow>, cache: map<Key, Block>, enabled: bool)

  datatype Step =
    | Save(chain: string, block: Block, master: Fault, redis: Fault)
    | Expire(key: Key)
    | Delete(chain: string, from: uint64, to: uint64)

  function KeyOf(chain: string, block: Block): Key {
    (chain, block.number)
  }

  function Stored(s: State, key: Key): Option<Block> {
    Storage.BlockByNumber(s.rows, key.0, key.1)
  }

  /** Deleting is what a rollback does: it goes to the database alone. */
  function Apply(s: State, step: Step): State {
    match step
    case Save(chain, block, master, redis) =>
      var rows := if master.Lost? then s.rows else Storage.SaveBlock(s.rows, Storage.BlockRow(chain, block));
      var written := master.Clean? && s.enabled && !redis.Lost?;
      s.(rows := rows, cache := if written then s.cache[KeyOf(chain, block) := block] else s.cache)
    case Expire(key) => s.(cache := s.cache - {key})
    case Delete(chain, from, to) => s.(rows := Storage.DeleteBlocks(s.rows, chain, from, to))
  }

  /** A read; `up` and `dbUp` tell whether the cache and the database answer it.  None is an error. */
  function Answer(s: State, key: Key, up: bool, dbUp: bool): Option<Block> {
    if s.enabled && up && key in s.cache then Some(s.cache[key])
    else if dbUp then Stored(s, key)
    else None
  }

  // ----- the reference: a plain map -----

  function Reference(blocks: map<Key, Block>, step: Step): map<Key, Block> {
    match step
    case Save(chain, block, master, _) => if master.Lost? then blocks else blocks[KeyOf(chain, block) := block]
    case Expire(_) => blocks
    case Delete(chain, from, to) => map k | k in blocks && !Storage.Hit(k.0, k.1, chain, from, to) :: blocks[k]
  }

  /** The database holds what the map holds. */
  ghost predicate Same(s: State, blocks: map<Key, Block>) {
    forall key :: Stored(s, key) == if key in blocks then Some(blocks[key]) else None
  }

  lemma RowsFollowReference(s: State, blocks: map<Key, Block>, step: Step)
    requires Same(s, blocks)
    ensures Same(Apply(s, step), Reference(blocks, step))
  {
    forall key
      ensures Stored(Apply(s, step), key) ==
        if key in Reference(blocks, step) then Some(Reference(blocks, step)[key]) else None
    {
      match step
      case Save(chain, block, _, _) => Storage.SavedIsFound(s.rows, Storage.BlockRow(chain, block), key.0, key.1);
      case Expire(_) =>
      case Delete(chain, from, to) => Storage.DeletedIsGone(s.rows, chain, from, to, key.0, key.1);
    }
  }

  // ----- coherence -----

  /** A cached entry in use is the stored block. */
  ghost predicate Fresh(s: State, key: Key) {
    s.enabled && key in s.cache ==> Stored(s, key) == Some(s.cache[key])
  }

  ghost predicate Coherent(s: State) {
    forall key :: Fresh(s, key)
  }

  /** Exactly then every read answers what the database holds, or fails because the database does not answer. */
  lemma CoherentIff(s: State)
    ensures Coherent(s) <==> forall key, up, dbUp | Answer(s, key, up, dbUp) != Stored(s, key) ::
      Answer(s, key, up, dbUp) == None && !dbUp
  {
    if forall key, up, dbUp | Answer(s, key, up, dbUp) != Stored(s, key) :: Answer(s, key, up, dbUp) == None && !dbUp {
      forall key
        ensures Fresh(s, key)
      {
        assert s.enabled && key in s.cache ==> Answer(s, key, true, true) == Some(s.cache[key]);
      }
    }
    if Coherent(s) {
      forall key, up, dbUp | Answer(s, key, up, dbUp) != Stored(s, key)
        ensures Answer(s, key, up, dbUp) == None && !dbUp
      {
        assert Fresh(s, key);
      }
    }
  }

  /**
   The steps that leave a stale entry: a save that changes the stored block while the cached one, another one, is not
   overwritten; and a deletion of a block that is cached.
   */
  ghost predicate Harmful(s: State, step: Step) {
    s.enabled && match step
    case Save(chain, block, master, redis) =>
      && !master.Lost? && (master.Late? || redis.Lost?)
      && KeyOf(chain, block) in s.cache && s.cache[KeyOf(chain, block)] != block
    case Expire(_) => false
    case Delete(chain, from, to) => exists key :: key in s.cache && Storage.Hit(key.0, key.1, chain, from, to)
  }

  lemma StepStored(s: State, step: Step, key: Key)
    ensures Stored(Apply(s, step), key) == (match step
      case Save(chain, block, master, _) =>
        if !master.Lost? && key == KeyOf(chain, block) then Some(block) else Stored(s, key)
      case Expire(_) => Stored(s, key)
      case Delete(chain, from, to) => if Storage.Hit(key.0, key.1, chain, from, to) then None else Stored(s, key))
  {
    match step
    case Save(chain, block, _, _) => Storage.SavedIsFound(s.rows, Storage.BlockRow(chain, block), key.0, key.1);
    case Expire(_) =>
    case Delete(chain, from, to) => Storage.DeletedIsGone(s.rows, chain, from, to, key.0, key.1);
  }

  /** Exactly these steps break coherence. */
  lemma StepKeepsCoherenceIff(s: State, step: Step)
    requires Coherent(s)
    ensures Coherent(Apply(s, step)) <==> !Harmful(s, step)
  {
    var s' := Apply(s, step);
    if !Harmful(s, step) {
      forall key
        ensures Fresh(s', key)
      {
        StepStored(s, step, key);
        assert Fresh(s, key);
      }
    } else {
      var key :| match step
        case Save(chain, block, _, _) => key == KeyOf(chain, block)
        case Expire(_) => false
        case Delete(chain, from, to) => key in s.cache && Storage.Hit(key.0, key.1, chain, from, to);
      StepStored(s, step, key);
      assert !Fresh(s', key);
    }
  }

  // ----- runs -----

  function After(s: State, steps: seq<Step>): State {
    if steps == [] then s else Apply(After(s, steps[..|steps| - 1]), steps[|steps| - 1])
  }

  function ReferenceAfter(blocks: map<Key, Block>, steps: seq<Step>): map<Key, Block> {
    if steps == [] then blocks else Reference(ReferenceAfter(blocks, steps[..|steps| - 1]), steps[|steps| - 1])
  }

  ghost predicate Harmless(s: State, steps: seq<Step>) {
    steps == [] || (Harmless(s, steps[..|steps| - 1]) && !Harmful(After(s, steps[..|steps| - 1]), steps[|steps| - 1]))
  }

  lemma {:induction false} RunKeepsCoherence(s: State, blocks: map<Key, Block>, steps: seq<Step>)
    requires Coherent(s) && Same(s, blocks) && Harmless(s, steps)
    ensures Coherent(After(s, steps)) && Same(After(s, steps), ReferenceAfter(blocks, steps))
  {
    if steps != [] {
      var front, last := steps[..|steps| - 1], steps[|steps| - 1];
      RunKeepsCoherence(s, blocks, front);
      StepKeepsCoherenceIff(After(s, front), last);
      RowsFollowReference(After(s, front), ReferenceAfter(blocks, front), last);
    }
  }

  /** In a run without a harmful step every read that the database would answer is answered as by a plain map. */
  lemma ReadsLikePlainMap(s: State, blocks: map<Key, Block>, steps: seq<Step>, key: Key, up: bool, dbUp: bool)
    requires Coherent(s) && Same(s, blocks) && Harmless(s, steps)
    ensures var plain := ReferenceAfter(blocks, steps); var answer := Answer(After(s, steps), key, up, dbUp);
      && (dbUp ==> answer == if key in plain then Some(plain[key]) else None)
      && (answer.Some? ==> key in plain && answer.value == plain[key])
  {
    RunKeepsCoherence(s, blocks, steps);
    assert Fresh(After(s, steps), key);
  }

  /** A stale entry goes away with its expiry or with the next save of its block that reaches the cache. */
  lemma StaleUntilExpiryOrSave(s: State, step: Step, key: Key)
    requires s.enabled && !Fresh(s, key)
    ensures step == Expire(key) ==> Fresh(Apply(s, step), key)
    ensures step.Save? && KeyOf(step.chain, step.block) == key && step.master.Clean? && !step.redis.Lost? ==>
      Fresh(Apply(s, step), key)
    ensures (step.Expire? && step.key != key) || (step.Save? && KeyOf(step.chain, step.block) != key) ==>
      !Fresh(Apply(s, step), key)
  {
    StepStored(s, step, key);
  }

  class StorageManager {
    const db: Storage.DatabaseStorage
    const enabled: bool
    var cache: map<Key, Block>

    constructor (db: Storage.DatabaseStorage, enabled: bool)
      ensures this.db == db && this.enabled == enabled && cache == map[]
    {
      this.db, this.enabled, cache := db, enabled, map[];
    }

    function View(): State
      reads this, db
    {
      State(db.blocks, cache, enabled)
    }

    /** The result tells about the database alone; a failure of the cache is ignored. */
    method SaveBlock(chain: string, block: Block, master: Fault, redis: Fault) returns (ok: bool)
      modifies this`cache, db`blocks
      ensures View() == Apply(old(View()), Save(chain, block, master, redis))
      ensures ok == master.Clean?
      ensures cache ==
        if master.Clean? && enabled && !redis.Lost? then old(cache)[(chain, block.number) := block] else old(cache)
      ensures db.blocks ==
        if master.Lost? then old(db.blocks) else Storage.SaveBlock(old(db.blocks), Storage.BlockRow(chain, block))
    {
      ok := db.SaveBlockRow(Storage.BlockRow(chain, block), master);
      if ok && enabled && !redis.Lost? {
        cache := cache[KeyOf(chain, block) := block];
      }
    }

    method GetBlock(chain: string, number: uint64, up: bool, dbUp: bool) returns (block: Option<Block>)
      ensures block == Answer(View(), (chain, number), up, dbUp)
      ensures enabled && up && (chain, number) in cache ==> block == Some(cache[(chain, number)])
      ensures !(enabled && up && (chain, number) in cache) ==>
        block == if dbUp then Storage.BlockByNumber(db.blocks, chain, number) else None
    {
      if enabled && up && (chain, number) in cache {
        return Some(cache[(chain, number)]);
      }
      if !dbUp {
        return None;
      }
      block := db.GetBlock(chain, number);
    }
  }
}
