/** The status machine of a transaction, over a store that reflects updates and over one that does not. */
module StatusMachine {
  import opened Wrappers

  datatype TxStatus = Pending | Confirmed | Finalized | Reverted | Other(name: string)

  /** What became of a write: done, lost without effect, or done with the acknowledgement lost. */
  datatype Fault = Clean | Lost | Late

  datatype Rule = Rule(from: TxStatus, to: TxStatus, action: string)

  /** The built-in transitions, or the ones of a rule list. */
  datatype Machine = Default | Custom(rules: seq<Rule>)

  type Key = (string, string)

  type Statuses = map<Key, TxStatus>

  datatype Request = Request(key: Key, to: TxStatus, fault: Fault)

  predicate Allowed(from: TxStatus, to: TxStatus) {
    match from
    case Pending => to == Confirmed || to == Reverted
    case Confirmed => to == Finalized || to == Reverted
    case _ => false
  }

  /** The first rule for the transition. */
  function FindRule(rules: seq<Rule>, from: TxStatus, to: TxStatus): Option<Rule> {
    if rules == [] then None
    else if rules[0].from == from && rules[0].to == to then Some(rules[0])
    else FindRule(rules[1..], from, to)
  }

  predicate Accepts(m: Machine, from: TxStatus, to: TxStatus) {
    match m
    case Default => Allowed(from, to)
    case Custom(rules) => FindRule(rules, from, to).Some?
  }

  datatype Outcome = Outcome(statuses: Statuses, ok: bool)

  /** One ProcessTransaction over a store whose reads reflect its updates. */
  function Transition(m: Machine, s: Statuses, r: Request): Outcome {
    if r.key !in s || !Accepts(m, s[r.key], r.to) then Outcome(s, false)
    else Outcome(if r.fault.Lost? then s else s[r.key := r.to], r.fault.Clean?)
  }

  function Run(m: Machine, s: Statuses, rs: seq<Request>): Statuses {
    if rs == [] then s else Run(m, Transition(m, s, rs[0]).statuses, rs[1..])
  }

  /** Which requests of a run succeed. */
  function Successes(m: Machine, s: Statuses, rs: seq<Request>): seq<bool> {
    if rs == [] then []
    else [Transition(m, s, rs[0]).ok] + Successes(m, Transition(m, s, rs[0]).statuses, rs[1..])
  }

  function Rank(t: TxStatus): nat {
    match t
    case Pending => 0
    case Confirmed => 1
    case _ => 2
  }

  /** How often a run writes the status of the transaction k. */
  function Writes(m: Machine, s: Statuses, rs: seq<Request>, k: Key): nat {
    if rs == [] then 0
    else
      var s' := Transition(m, s, rs[0]).statuses;
      (if rs[0].key == k && k in s && Accepts(m, s[k], rs[0].to) && !rs[0].fault.Lost? then 1 else 0)
      + Writes(m, s', rs[1..], k)
  }

  /**
   Along any run every write raises the rank of its transaction, so a transaction is written at most twice, and a
   finalized, reverted or unknown status stays for ever.
   */
  lemma {:induction false} RunsRaiseRank(s: Statuses, rs: seq<Request>, k: Key)
    requires k in s
    ensures var s' := Run(Default, s, rs);
      && k in s'
      && Rank(s[k]) + Writes(Default, s, rs, k) <= Rank(s'[k])
      && Writes(Default, s, rs, k) <= 2
      && (Rank(s[k]) == 2 ==> s'[k] == s[k] && Writes(Default, s, rs, k) == 0)
    decreases rs
  {
    if rs != [] {
      RunsRaiseRank(Transition(Default, s, rs[0]).statuses, rs[1..], k);
    }
  }

  /** A transaction that no request of the run names keeps its status, and none appears. */
  lemma {:induction false} RunsTouchOnlyTheirKeys(m: Machine, s: Statuses, rs: seq<Request>, k: Key)
    requires forall i | 0 <= i < |rs| :: rs[i].key != k
    ensures var s' := Run(m, s, rs);
      && (k in s' <==> k in s) && (k in s ==> s'[k] == s[k])
    decreases rs
  {
    if rs != [] {
      RunsTouchOnlyTheirKeys(m, Transition(m, s, rs[0]).statuses, rs[1..], k);
    }
  }

  /** Request i of the run finds the transaction k in a status from which its target is accepted, and is not lost. */
  predicate Wrote(m: Machine, s: Statuses, rs: seq<Request>, i: nat, k: Key)
    requires i < |rs|
  {
    var before := Run(m, s, rs[..i]);
    rs[i].key == k && k in before && Accepts(m, before[k], rs[i].to) && !rs[i].fault.Lost?
  }

  /** Request i is the last that wrote k, and asked for `to`. */
  ghost predicate LastWrote(m: Machine, s: Statuses, rs: seq<Request>, i: nat, k: Key, to: TxStatus) {
    && i < |rs| && Wrote(m, s, rs, i, k) && rs[i].to == to
    && forall j | i < j < |rs| :: !Wrote(m, s, rs, j, k)
  }

  lemma {:induction false} RunLast(m: Machine, s: Statuses, rs: seq<Request>)
    requires rs != []
    ensures Run(m, s, rs) == Transition(m, Run(m, s, rs[..|rs| - 1]), rs[|rs| - 1]).statuses
    decreases rs
  {
    if |rs| > 1 {
      RunLast(m, Transition(m, s, rs[0]).statuses, rs[1..]);
      assert rs[1..][..|rs| - 2] == rs[..|rs| - 1][1..];
    }
  }

  /**
   In every run the status of a transaction is what the last request that was accepted and not lost asked for; without
   such a request it is the first one.
   */
  lemma {:induction false} StatusIsLastWritten(m: Machine, s: Statuses, rs: seq<Request>, k: Key)
    requires k in s
    ensures k in Run(m, s, rs)
    ensures (exists i :: LastWrote(m, s, rs, i, k, Run(m, s, rs)[k]))
         || (Run(m, s, rs)[k] == s[k] && forall i | 0 <= i < |rs| :: !Wrote(m, s, rs, i, k))
  {
    if rs != [] {
      var front, n := rs[..|rs| - 1], |rs| - 1;
      StatusIsLastWritten(m, s, front, k);
      RunLast(m, s, rs);
      forall i | 0 <= i < n
        ensures Wrote(m, s, rs, i, k) == Wrote(m, s, front, i, k)
      {
        assert front[..i] == rs[..i];
      }
      if Wrote(m, s, rs, n, k) {
        assert LastWrote(m, s, rs, n, k, rs[n].to);
      } else if i: nat :| LastWrote(m, s, front, i, k, Run(m, s, front)[k]) {
        assert LastWrote(m, s, rs, i, k, Run(m, s, rs)[k]);
      }
    }
  }

  // ----- the rule-based machine -----

  /** The transitions that a rule list names. */
  function Pairs(rules: seq<Rule>): set<(TxStatus, TxStatus)> {
    set r | r in rules :: (r.from, r.to)
  }

  const BUILT_IN: set<(TxStatus, TxStatus)> :=
    {(Pending, Confirmed), (Pending, Reverted), (Confirmed, Finalized), (Confirmed, Reverted)}

  lemma {:induction false} FindRuleIff(rules: seq<Rule>, from: TxStatus, to: TxStatus)
    ensures FindRule(rules, from, to).Some? <==> (from, to) in Pairs(rules)
  {
    if rules != [] {
      FindRuleIff(rules[1..], from, to);
      assert rules == [rules[0]] + rules[1..];
      if (from, to) in Pairs(rules) && !(rules[0].from == from && rules[0].to == to) {
        var r :| r in rules && (r.from, r.to) == (from, to);
        assert r in rules[1..];
      }
    }
  }

  lemma {:induction false} SameAcceptanceSameRuns(m: Machine, m': Machine, s: Statuses, rs: seq<Request>)
    requires forall from, to :: Accepts(m, from, to) == Accepts(m', from, to)
    ensures Run(m, s, rs) == Run(m', s, rs) && Successes(m, s, rs) == Successes(m', s, rs)
    decreases rs
  {
    if rs != [] {
      SameAcceptanceSameRuns(m, m', Transition(m, s, rs[0]).statuses, rs[1..]);
    }
  }

  /** The rule-based machine does the same as the built-in one in every run. */
  ghost predicate Equivalent(rules: seq<Rule>) {
    forall s, rs ::
      && Successes(Custom(rules), s, rs) == Successes(Default, s, rs)
      && Run(Custom(rules), s, rs) == Run(Default, s, rs)
  }

  /** It does exactly when its rules name the four built-in transitions, in any order and with any actions. */
  lemma EquivalentIff(rules: seq<Rule>)
    ensures Equivalent(rules) <==> Pairs(rules) == BUILT_IN
  {
    forall from, to
      ensures Accepts(Custom(rules), from, to) <==> (from, to) in Pairs(rules)
      ensures Accepts(Default, from, to) <==> (from, to) in BUILT_IN
    {
      FindRuleIff(rules, from, to);
    }
    if Pairs(rules) == BUILT_IN {
      forall s, rs
        ensures Successes(Custom(rules), s, rs) == Successes(Default, s, rs)
        ensures Run(Custom(rules), s, rs) == Run(Default, s, rs)
      {
        SameAcceptanceSameRuns(Custom(rules), Default, s, rs);
      }
    } else {
      var p :| (p in Pairs(rules)) != (p in BUILT_IN);
      var k := ("", "");
      var s, rs := map[k := p.0], [Request(k, p.1, Clean)];
      assert Successes(Custom(rules), s, rs)[0] == Accepts(Custom(rules), p.0, p.1);
      assert Successes(Default, s, rs)[0] == Accepts(Default, p.0, p.1);
    }
  }

  // ----- over the database -----

  /** A row of the transaction table: the status column, and the status inside the JSON blob. */
  datatype Row = Row(status: TxStatus, blob: TxStatus)

  /** ProcessTransaction over the database: it reads the blob and writes the column. */
  function ProcessRow(m: Machine, row: Row, to: TxStatus, fault: Fault): (Row, bool) {
    if !Accepts(m, row.blob, to) then (row, false)
    else (if fault.Lost? then row else row.(status := to), fault.Clean?)
  }

  function RunRow(m: Machine, row: Row, tos: seq<TxStatus>): (Row, seq<bool>)
    decreases tos
  {
    if tos == [] then (row, [])
    else
      var (row', ok) := ProcessRow(m, row, tos[0], Clean);
      var (end, oks) := RunRow(m, row', tos[1..]);
      (end, [ok] + oks)
  }

  /** Over the database no request learns of an earlier one: each is judged by the status first saved. */
  lemma {:induction false} DatabaseNeverLearns(m: Machine, row: Row, tos: seq<TxStatus>)
    ensures var (end, oks) := RunRow(m, row, tos);
      && end.blob == row.blob && |oks| == |tos|
      && forall i | 0 <= i < |tos| :: oks[i] <==> Accepts(m, row.blob, tos[i])
    decreases tos
  {
    if tos != [] {
      var row' := ProcessRow(m, row, tos[0], Clean).0;
      DatabaseNeverLearns(m, row', tos[1..]);
    }
  }

  /** Request i is the last that the status first saved allows. */
  predicate LastAccepted(m: Machine, row: Row, tos: seq<TxStatus>, i: nat) {
    i < |tos| && Accepts(m, row.blob, tos[i]) && forall j | i < j < |tos| :: !Accepts(m, row.blob, tos[j])
  }

  /** The status column ends as the last accepted request asked for, or as it was. */
  lemma {:induction false} ColumnIsLastAccepted(m: Machine, row: Row, tos: seq<TxStatus>)
    ensures var column := RunRow(m, row, tos).0.status;
      && (forall i: nat | LastAccepted(m, row, tos, i) :: column == tos[i])
      && ((forall i | 0 <= i < |tos| :: !Accepts(m, row.blob, tos[i])) ==> column == row.status)
    decreases tos
  {
    if tos != [] {
      var row' := ProcessRow(m, row, tos[0], Clean).0;
      ColumnIsLastAccepted(m, row', tos[1..]);
      forall i: nat | LastAccepted(m, row, tos, i)
        ensures RunRow(m, row, tos).0.status == tos[i]
      {
        if i > 0 {
          assert LastAccepted(m, row', tos[1..], i - 1);
        } else {
          assert forall j | 0 <= j < |tos[1..]| :: tos[1..][j] == tos[j + 1];
        }
      }
      if forall i | 0 <= i < |tos| :: !Accepts(m, row.blob, tos[i]) {
        assert !Accepts(m, row.blob, tos[0]) && row' == row;
      }
    }
  }

  predicate AllAccepted(row: Row, tos: seq<TxStatus>) {
    var oks := RunRow(Default, row, tos).1;
    forall i | 0 <= i < |oks| :: oks[i]
  }

  /** Some run of n requests is accepted as a whole. */
  ghost predicate CanAccept(status: TxStatus, n: nat) {
    exists tos: seq<TxStatus> :: |tos| == n && AllAccepted(Row(status, status), tos)
  }

  /**
   There the bound on transitions holds exactly for statuses that allow none: any other accepts n of them for every
   n.
   */
  lemma DatabaseTransitionsUnboundedIff(status: TxStatus)
    ensures (forall n: nat :: CanAccept(status, n)) <==> Rank(status) < 2
  {
    if Rank(status) < 2 {
      forall n: nat
        ensures CanAccept(status, n)
      {
        var tos := seq(n, i => Reverted);
        DatabaseNeverLearns(Default, Row(status, status), tos);
        assert AllAccepted(Row(status, status), tos);
      }
    } else {
      forall tos: seq<TxStatus> | |tos| == 1
        ensures !AllAccepted(Row(status, status), tos)
      {
        DatabaseNeverLearns(Default, Row(status, status), tos);
      }
      assert !CanAccept(status, 1);
    }
  }

  // ----- overlapping requests -----

  /**
   The status of one transaction, and the targets of the requests that passed their check and have not written yet.
   */
  datatype Overlap = Overlap(status: TxStatus, open: seq<TxStatus>)

  datatype Turn = Check(to: TxStatus) | Write(i: nat, fault: Fault)

  predicate CanTurn(o: Overlap, t: Turn) {
    t.Write? ==> t.i < |o.open|
  }

  function AfterTurn(o: Overlap, t: Turn): Overlap
    requires CanTurn(o, t)
  {
    match t
    case Check(to) => if Allowed(o.status, to) then o.(open := o.open + [to]) else o
    case Write(i, fault) =>
      Overlap(if fault.Lost? then o.status else o.open[i], o.open[..i] + o.open[i + 1..])
  }

  predicate CanTurns(o: Overlap, ts: seq<Turn>)
    decreases ts
  {
    ts == [] || (CanTurn(o, ts[0]) && CanTurns(AfterTurn(o, ts[0]), ts[1..]))
  }

  function AfterTurns(o: Overlap, ts: seq<Turn>): Overlap
    requires CanTurns(o, ts)
    decreases ts
  {
    if ts == [] then o else AfterTurns(AfterTurn(o, ts[0]), ts[1..])
  }

  /** No run changes the status. */
  ghost predicate Stays(o: Overlap) {
    forall ts | CanTurns(o, ts) :: AfterTurns(o, ts).status == o.status
  }

  predicate AllOpen(o: Overlap, to: TxStatus) {
    forall i | 0 <= i < |o.open| :: o.open[i] == to
  }

  lemma {:induction false} SettledStays(o: Overlap, ts: seq<Turn>)
    requires Rank(o.status) == 2 && AllOpen(o, o.status) && CanTurns(o, ts)
    ensures AfterTurns(o, ts).status == o.status
    decreases ts
  {
    if ts != [] {
      SettledStays(AfterTurn(o, ts[0]), ts[1..]);
    }
  }

  lemma OneTurn(o: Overlap, t: Turn)
    requires CanTurn(o, t)
    ensures CanTurns(o, [t]) && AfterTurns(o, [t]) == AfterTurn(o, t)
  {
    var o' := AfterTurn(o, t);
    assert CanTurns(o', [t][1..]) && AfterTurns(o', [t][1..]) == o';
  }

  /** A final status stays for ever exactly when every request under way asks for the same one. */
  lemma FinalStaysIff(o: Overlap)
    requires Rank(o.status) == 2
    ensures Stays(o) <==> AllOpen(o, o.status)
  {
    if AllOpen(o, o.status) {
      forall ts | CanTurns(o, ts)
        ensures AfterTurns(o, ts).status == o.status
      {
        SettledStays(o, ts);
      }
    } else {
      var i :| 0 <= i < |o.open| && o.open[i] != o.status;
      OneTurn(o, Write(i, Clean));
      assert AfterTurns(o, [Write(i, Clean)]).status != o.status;
    }
  }

  /** Some run of overlapping requests takes the transaction to a final status from which it can still be moved. */
  ghost predicate CanUndo(status: TxStatus) {
    exists ts :: Unsettles(status, ts)
  }

  ghost predicate Unsettles(status: TxStatus, ts: seq<Turn>) {
    var o := Overlap(status, []);
    CanTurns(o, ts) && Rank(AfterTurns(o, ts).status) == 2 && !Stays(AfterTurns(o, ts))
  }

  /** Overlapping requests can overwrite a revert exactly where a transition is allowed at all. */
  lemma CanUndoIff(status: TxStatus)
    ensures CanUndo(status) <==> Rank(status) < 2
  {
    if Rank(status) < 2 {
      OverwritesRevert(status);
    } else {
      forall ts | CanTurns(Overlap(status, []), ts)
        ensures Stays(AfterTurns(Overlap(status, []), ts))
      {
        NothingOpens(Overlap(status, []), ts);
        FinalStaysIff(AfterTurns(Overlap(status, []), ts));
      }
    }
  }

  lemma {:induction false} NothingOpens(o: Overlap, ts: seq<Turn>)
    requires Rank(o.status) == 2 && o.open == [] && CanTurns(o, ts)
    ensures AfterTurns(o, ts) == o
    decreases ts
  {
    if ts != [] {
      NothingOpens(AfterTurn(o, ts[0]), ts[1..]);
    }
  }

  lemma OverwritesRevert(status: TxStatus)
    requires Rank(status) < 2
    ensures CanUndo(status)
  {
    var next := if status.Pending? then Confirmed else Finalized;
    var o := Overlap(status, []);
    var ts := [Check(next), Check(Reverted), Write(1, Clean)];
    var o1 := AfterTurn(o, ts[0]);
    var o2 := AfterTurn(o1, ts[1]);
    var o3 := AfterTurn(o2, ts[2]);
    assert o2.open == [next, Reverted] && o3 == Overlap(Reverted, [next]);
    OneTurn(o2, ts[2]);
    assert ts[1..][1..] == [ts[2]];
    assert CanTurns(o1, ts[1..]) && AfterTurns(o1, ts[1..]) == o3;
    assert CanTurns(o, ts) && AfterTurns(o, ts) == o3;
    FinalStaysIff(o3);
    assert !AllOpen(o3, Reverted) by {
      assert o3.open[0] != Reverted;
    }
    assert Unsettles(status, ts);
  }

  // ----- the objects -----

  class StateMachine {
    const machine: Machine
    var statuses: Statuses

    constructor (machine: Machine, statuses: Statuses)
      ensures this.machine == machine && this.statuses == statuses
    {
      this.machine, this.statuses := machine, statuses;
    }

    method ProcessTransaction(r: Request) returns (ok: bool)
      modifies this
      ensures Outcome(statuses, ok) == Transition(machine, old(statuses), r)
      ensures ok <==>
        r.key in old(statuses) && Accepts(machine, old(statuses)[r.key], r.to) && r.fault.Clean?
      ensures statuses ==
        if r.key in old(statuses) && Accepts(machine, old(statuses)[r.key], r.to) && !r.fault.Lost?
        then old(statuses)[r.key := r.to] else old(statuses)
    {
      if r.key !in statuses {
        return false;
      }
      var current := statuses[r.key];
      match machine {
        case Default =>
          if !Allowed(current, r.to) { return false; }
        case Custom(rules) =>
          if FindRule(rules, current, r.to).None? { return false; }
      }
      if !r.fault.Lost? {
        statuses := statuses[r.key := r.to];
      }
      return r.fault.Clean?;
    }

    /** Writes a status without asking whether the transition is allowed. */
    method ForceSetState(key: Key, to: TxStatus, fault: Fault) returns (ok: bool)
      modifies this
      ensures statuses == if key in old(statuses) && !fault.Lost? then old(statuses)[key := to] else old(statuses)
      ensures ok <==> key in old(statuses) && fault.Clean?
    {
      if key !in statuses {
        return false;
      }
      if !fault.Lost? {
        statuses := statuses[key := to];
      }
      return fault.Clean?;
    }
  }

  /** The same machine over the database: it reads the blob, writes the column, and an update of no row is a success. */
  class DatabaseStateMachine {
    const machine: Machine
    var rows: map<Key, Row>

    constructor (machine: Machine, rows: map<Key, Row>)
      ensures this.machine == machine && this.rows == rows
    {
      this.machine, this.rows := machine, rows;
    }

    method ProcessTransaction(r: Request) returns (ok: bool)
      modifies this
      ensures r.key !in old(rows) ==> !ok && rows == old(rows)
      ensures r.key in old(rows) ==>
        var (row, done) := ProcessRow(machine, old(rows)[r.key], r.to, r.fault);
        ok == done && rows == old(rows)[r.key := row]
      ensures ok <==> r.key in old(rows) && Accepts(machine, old(rows)[r.key].blob, r.to) && r.fault.Clean?
      ensures rows ==
        if r.key in old(rows) && Accepts(machine, old(rows)[r.key].blob, r.to) && !r.fault.Lost?
        then old(rows)[r.key := Row(r.to, old(rows)[r.key].blob)] else old(rows)
    {
      if r.key !in rows {
        return false;
      }
      var current := rows[r.key].blob;
      var accepted := Accepts(machine, current, r.to);
      if !accepted {
        assert rows[r.key := rows[r.key]] == rows;
        return false;
      }
      ok := ForceSetState(r.key, r.to, r.fault);
    }

    method ForceSetState(key: Key, to: TxStatus, fault: Fault) returns (ok: bool)
      modifies this
      ensures key !in old(rows) ==> rows == old(rows)
      ensures key in old(rows) ==>
        rows == old(rows)[key := if fault.Lost? then old(rows)[key] else old(rows)[key].(status := to)]
      ensures ok == fault.Clean?
    {
      if key in rows {
        rows := rows[key := if fault.Lost? then rows[key] else rows[key].(status := to)];
      }
      return fault.Clean?;
    }
  }
}
