/** The string keys of the program, and the set of reorg events in progress, which is kept by key. */
module Keys {
  import opened Numerals

  function EventKey(chain: string, oldNumber: nat, newNumber: nat): string {
    chain + "-" + Text(oldNumber, Decimal) + "-" + Text(newNumber, Decimal)
  }

  function BlockKey(chain: string, number: nat): string {
    "block:" + chain + ":" + Text(number, Decimal)
  }

  function TxKey(chain: string, hash: string): string {
    "tx:" + chain + ":" + hash
  }

  function LogKey(chain: string, hash: string, index: nat): string {
    "log:" + chain + ":" + hash + ":" + Text(index, Decimal)
  }

  // ----- separators -----

  predicate Free(s: string, separator: char) {
    forall i | 0 <= i < |s| :: s[i] != separator
  }

  /** The parts around a separator can be told when the one behind it is free of it. */
  lemma SplitAtLast(s: string, t: string, s': string, t': string, separator: char)
    requires Free(t, separator) && Free(t', separator)
    requires s + [separator] + t == s' + [separator] + t'
    ensures s == s' && t == t'
  {
    var whole, whole' := s + [separator] + t, s' + [separator] + t';
    assert whole[|s|] == separator && forall k | |s| < k < |whole| :: whole[k] != separator;
    assert whole'[|s'|] == separator && forall k | |s'| < k < |whole'| :: whole'[k] != separator;
    assert |s| == |s'|;
    assert whole[..|s|] == s && whole'[..|s'|] == s';
    assert whole[|s| + 1..] == t && whole'[|s'| + 1..] == t';
  }

  lemma NumberBehind(s: string, n: nat, s': string, n': nat, separator: char)
    requires separator == '-' || separator == ':'
    requires s + [separator] + Text(n, Decimal) == s' + [separator] + Text(n', Decimal)
    ensures s == s' && n == n'
  {
    SplitAtLast(s, Text(n, Decimal), s', Text(n', Decimal), separator);
    TextReads(n, Decimal);
    TextReads(n', Decimal);
  }

  /** Events of different chains or numbers have different keys, dashes in the chain id or not. */
  lemma EventKeysInjective(chain: string, old1: nat, new1: nat, chain': string, old2: nat, new2: nat)
    requires EventKey(chain, old1, new1) == EventKey(chain', old2, new2)
    ensures chain == chain' && old1 == old2 && new1 == new2
  {
    NumberBehind(chain + "-" + Text(old1, Decimal), new1, chain' + "-" + Text(old2, Decimal), new2, '-');
    NumberBehind(chain, old1, chain', old2, '-');
  }

  lemma BlockKeysInjective(chain: string, number: nat, chain': string, number': nat)
    requires BlockKey(chain, number) == BlockKey(chain', number')
    ensures chain == chain' && number == number'
  {
    NumberBehind("block:" + chain, number, "block:" + chain', number', ':');
    assert chain == ("block:" + chain)[6..] && chain' == ("block:" + chain')[6..];
  }

  /** The second chain id is longer, by a piece that the first has in its hash. */
  predicate Moved(chain: string, hash: string, chain': string, hash': string) {
    && |chain| < |chain'| && |hash'| < |hash|
    && chain' == chain + ":" + chain'[|chain| + 1..]
    && hash == chain'[|chain| + 1..] + ":" + hash'
  }

  /**
   Two transactions share a key exactly when they are the same or a colon separates chain and hash at another place.
   */
  lemma TxKeysCollideIff(chain: string, hash: string, chain': string, hash': string)
    ensures TxKey(chain, hash) == TxKey(chain', hash') <==>
      (chain == chain' && hash == hash') || Moved(chain, hash, chain', hash') || Moved(chain', hash', chain, hash)
  {
    var s, s' := chain + ":" + hash, chain' + ":" + hash';
    assert TxKey(chain, hash) == "tx:" + s && TxKey(chain', hash') == "tx:" + s';
    assert s == ("tx:" + s)[3..] && s' == ("tx:" + s')[3..];
    SplitIff(chain, hash, chain', hash');
  }

  lemma SplitIff(chain: string, hash: string, chain': string, hash': string)
    ensures chain + ":" + hash == chain' + ":" + hash' <==>
      (chain == chain' && hash == hash') || Moved(chain, hash, chain', hash') || Moved(chain', hash', chain, hash)
  {
    if chain + ":" + hash == chain' + ":" + hash' {
      if |chain| < |chain'| {
        SplitMoves(chain, hash, chain', hash');
      } else if |chain'| < |chain| {
        SplitMoves(chain', hash', chain, hash);
      } else {
        var s, s' := chain + ":" + hash, chain' + ":" + hash';
        assert s[..|chain|] == chain && s'[..|chain|] == chain';
        assert s[|chain| + 1..] == hash && s'[|chain| + 1..] == hash';
      }
    }
    if Moved(chain, hash, chain', hash') {
      MovedJoins(chain, hash, chain', hash');
    }
    if Moved(chain', hash', chain, hash) {
      MovedJoins(chain', hash', chain, hash);
    }
  }

  lemma SplitMoves(chain: string, hash: string, chain': string, hash': string)
    requires chain + ":" + hash == chain' + ":" + hash' && |chain| < |chain'|
    ensures Moved(chain, hash, chain', hash')
  {
    var s, s' := chain + ":" + hash, chain' + ":" + hash';
    var middle := chain'[|chain| + 1..];
    assert chain' == s'[..|chain'|] == s[..|chain'|];
    assert chain'[..|chain|] == s[..|chain|] == chain;
    assert chain'[|chain|] == s[|chain|] == ':';
    assert chain' == chain + ":" + middle;
    assert hash == s[|chain| + 1..] == s'[|chain| + 1..] == middle + ":" + hash';
  }

  lemma MovedJoins(chain: string, hash: string, chain': string, hash': string)
    requires Moved(chain, hash, chain', hash')
    ensures chain + ":" + hash == chain' + ":" + hash'
  {
    var middle := chain'[|chain| + 1..];
    assert chain + ":" + (middle + ":" + hash') == (chain + ":" + middle) + ":" + hash';
  }

  /** Hashes without a colon are enough to tell transactions apart, whatever the chain ids. */
  lemma TxKeysInjective(chain: string, hash: string, chain': string, hash': string)
    requires Free(hash, ':') && Free(hash', ':') && TxKey(chain, hash) == TxKey(chain', hash')
    ensures chain == chain' && hash == hash'
  {
    SplitAtLast("tx:" + chain, hash, "tx:" + chain', hash', ':');
    assert chain == ("tx:" + chain)[3..] && chain' == ("tx:" + chain')[3..];
  }

  /** Log keys collide exactly as far as the keys of their transactions do. */
  lemma LogKeysCollideIff(chain: string, hash: string, index: nat, chain': string, hash': string, index': nat)
    ensures LogKey(chain, hash, index) == LogKey(chain', hash', index') <==>
      TxKey(chain, hash) == TxKey(chain', hash') && index == index'
  {
    var s, s' := chain + ":" + hash, chain' + ":" + hash';
    assert TxKey(chain, hash) == "tx:" + s && TxKey(chain', hash') == "tx:" + s';
    assert s == ("tx:" + s)[3..] && s' == ("tx:" + s')[3..];
    assert LogKey(chain, hash, index) == "log:" + s + ":" + Text(index, Decimal);
    assert LogKey(chain', hash', index') == "log:" + s' + ":" + Text(index', Decimal);
    if LogKey(chain, hash, index) == LogKey(chain', hash', index') {
      NumberBehind("log:" + s, index, "log:" + s', index', ':');
      assert s == ("log:" + s)[4..] && s' == ("log:" + s')[4..];
    }
  }

  lemma FamiliesNeverCollide(chain: string, hash: string, chain': string, hash': string, n: nat)
    ensures TxKey(chain, hash) != LogKey(chain', hash', n)
    ensures TxKey(chain, hash) != BlockKey(chain', n)
    ensures LogKey(chain', hash', n) != BlockKey(chain, n)
  {
    assert TxKey(chain, hash)[0] == 't' && LogKey(chain', hash', n)[0] == 'l';
    assert BlockKey(chain', n)[0] == 'b' && BlockKey(chain, n)[0] == 'b';
  }

  // ----- events in progress -----

  /** What the key of a reorg event is made of. */
  datatype EventId = EventId(chain: string, oldNumber: nat, newNumber: nat)

  function KeyOf(e: EventId): string {
    EventKey(e.chain, e.oldNumber, e.newNumber)
  }

  datatype Step = Enter(e: EventId) | Leave(e: EventId)

  /**
   `processing` is what the handler keeps; `active` is the history: the events whose handling has begun and not
   ended.
   */
  datatype Handling = Handling(processing: set<string>, active: set<EventId>)

  /** Handling an event starts unless its key is there; only a started one ends. */
  predicate Enabled(h: Handling, step: Step) {
    match step
    case Enter(e) => KeyOf(e) !in h.processing
    case Leave(e) => e in h.active
  }

  function Apply(h: Handling, step: Step): Handling {
    match step
    case Enter(e) => Handling(h.processing + {KeyOf(e)}, h.active + {e})
    case Leave(e) => Handling(h.processing - {KeyOf(e)}, h.active - {e})
  }

  function After(steps: seq<Step>): Handling {
    if steps == [] then Handling({}, {}) else Apply(After(steps[..|steps| - 1]), steps[|steps| - 1])
  }

  predicate Runs(steps: seq<Step>) {
    steps == [] || (Runs(steps[..|steps| - 1]) && Enabled(After(steps[..|steps| - 1]), steps[|steps| - 1]))
  }

  /** In every run an event is refused exactly when this very event is being handled. */
  lemma {:induction false} RefusedIffActive(steps: seq<Step>, e: EventId)
    requires Runs(steps)
    ensures !Enabled(After(steps), Enter(e)) <==> e in After(steps).active
  {
    if steps != [] {
      var front, last := steps[..|steps| - 1], steps[|steps| - 1];
      RefusedIffActive(front, e);
      if KeyOf(last.e) == KeyOf(e) {
        EventKeysInjective(last.e.chain, last.e.oldNumber, last.e.newNumber, e.chain, e.oldNumber, e.newNumber);
      }
    }
  }
}
