/**
 The Redis lock as a timed protocol: any number of lock objects over one store, any interleaving of their calls,
 lost requests, lost replies and passing time.  Times are in milliseconds.
 */
module LockProtocol {
  import opened Wrappers

  datatype Deadline = Never | At(time: int)

  predicate Before(now: int, d: Deadline) {
    d.Never? || now < d.time
  }

  /** d is not earlier than e. */
  predicate NotEarlier(d: Deadline, e: Deadline) {
    d.Never? || (e.At? && e.time <= d.time)
  }

  datatype Entry = Entry(value: string, expires: Deadline)

  type Store = map<string, Entry>

  predicate Alive(store: Store, now: int, key: string) {
    key in store && Before(now, store[key].expires)
  }

  predicate HeldBy(store: Store, now: int, key: string, value: string) {
    Alive(store, now, key) && store[key].value == value
  }

  /**
   One lock object.  `deadline` is when the caller stops relying on it: ttl after the moment of the last call that
   granted it, and at once when the caller asks to unlock.
   */
  datatype LockObject = LockObject(key: string, value: string, ttl: int, locked: bool, deadline: Deadline)

  /** What the network did to a call: both ways fine, the request was lost, or only the reply was lost. */
  datatype Net = Fine | RequestLost | ReplyLost

  datatype Error = Conflict | NotHeld | Network | Cancelled

  datatype Call = Call(store: Store, lock: LockObject, error: Option<Error>)

  function Expiry(now: int, ttl: int): Deadline {
    if ttl == 0 then Never else At(now + ttl)
  }

  /** int(ttl.Seconds()): truncated toward zero. */
  function WholeSeconds(ttl: int): int {
    if ttl >= 0 then ttl / 1000 else -((-ttl) / 1000)
  }

  /** SET NX with the lock's ttl; a ttl of zero means no expiry, a negative one is refused by the store. */
  function LockCall(store: Store, now: int, l: LockObject, net: Net): Call {
    if net.RequestLost? || l.ttl < 0 then Call(store, l, Some(Network))
    else if Alive(store, now, l.key) then
      Call(store, l, Some(if net.Fine? then Conflict else Network))
    else
      var store' := store[l.key := Entry(l.value, Expiry(now, l.ttl))];
      if net.Fine? then Call(store', l.(locked := true, deadline := Expiry(now, l.ttl)), None)
      else Call(store', l, Some(Network))
  }

  /** Deletes the entry if it still holds the lock's value. */
  function UnlockCall(store: Store, now: int, l: LockObject, net: Net): Call {
    if !l.locked then Call(store, l, Some(NotHeld))
    else
      var l' := l.(deadline := At(now));
      if net.RequestLost? then Call(store, l', Some(Network))
      else
        var mine := HeldBy(store, now, l.key, l.value);
        var store' := if mine then store - {l.key} else store;
        if net.ReplyLost? then Call(store', l', Some(Network))
        else if mine then Call(store', l'.(locked := false), None)
        else Call(store', l', Some(NotHeld))
  }

  /** The entry's deadline after EXPIRE with a number of seconds; None when that deletes the entry. */
  function Expire(store: Store, now: int, key: string, seconds: int): Store
    requires key in store
  {
    if seconds <= 0 then store - {key} else store[key := store[key].(expires := At(now + 1000 * seconds))]
  }

  /** Sets the entry's expiry to the whole seconds of ttl if it still holds the lock's value. */
  function ExtendCall(store: Store, now: int, l: LockObject, ttl: int, net: Net): Call {
    if !l.locked then Call(store, l, Some(NotHeld))
    else if net.RequestLost? then Call(store, l, Some(Network))
    else
      var mine := HeldBy(store, now, l.key, l.value);
      var store' := if mine then Expire(store, now, l.key, WholeSeconds(ttl)) else store;
      if net.ReplyLost? then Call(store', l, Some(Network))
      else if mine then Call(store', l.(ttl := ttl, deadline := At(now + ttl)), None)
      else Call(store', l, Some(NotHeld))
  }

  // ----- the step system -----

  datatype State = State(now: int, store: Store, locks: seq<LockObject>)

  datatype Step =
    | Wait(time: nat)
    | DoLock(i: nat, net: Net)
    | DoUnlock(i: nat, net: Net)
    | DoExtend(i: nat, ttl: int, net: Net)

  predicate Enabled(s: State, step: Step) {
    step.Wait? || step.i < |s.locks|
  }

  function CallOf(s: State, step: Step): Call
    requires Enabled(s, step) && !step.Wait?
  {
    match step
    case DoLock(i, net) => LockCall(s.store, s.now, s.locks[i], net)
    case DoUnlock(i, net) => UnlockCall(s.store, s.now, s.locks[i], net)
    case DoExtend(i, ttl, net) => ExtendCall(s.store, s.now, s.locks[i], ttl, net)
  }

  function Apply(s: State, step: Step): State
    requires Enabled(s, step)
  {
    if step.Wait? then s.(now := s.now + step.time)
    else s.(store := CallOf(s, step).store, locks := s.locks[step.i := CallOf(s, step).lock])
  }

  /** The owner of lock object i relies on holding the lock. */
  predicate Relies(s: State, i: nat)
    requires i < |s.locks|
  {
    s.locks[i].locked && Before(s.now, s.locks[i].deadline)
  }

  /** No two lock objects of one key are relied on at the same time. */
  ghost predicate Exclusive(s: State) {
    forall i, j | 0 <= i < j < |s.locks| && s.locks[i].key == s.locks[j].key :: !(Relies(s, i) && Relies(s, j))
  }

  /** A lock object that is granted, or that the store would grant: a negative ttl is refused. */
  predicate Grantable(l: LockObject) {
    l.locked || l.ttl >= 0
  }

  /** Two lock objects of one key that can both be granted, with the same value. */
  predicate Twins(s: State, i: nat, j: nat)
    requires i < |s.locks| && j < |s.locks|
  {
    && i != j && s.locks[i].key == s.locks[j].key && s.locks[i].value == s.locks[j].value
    && Grantable(s.locks[i]) && Grantable(s.locks[j])
  }

  ghost predicate DistinctValues(s: State) {
    forall i, j | 0 <= i < |s.locks| && 0 <= j < |s.locks| :: !Twins(s, i, j)
  }

  /** Whoever relies on a lock has an entry that lasts at least as long. */
  ghost predicate Backed(s: State) {
    forall i | 0 <= i < |s.locks| && Relies(s, i) :: BackedLock(s, i)
  }

  predicate BackedLock(s: State, i: nat)
    requires i < |s.locks|
  {
    var l := s.locks[i];
    HeldBy(s.store, s.now, l.key, l.value) && NotEarlier(s.store[l.key].expires, l.deadline)
  }

  /**
   An Extend that takes effect and does not leave the store's expiry before the moment its caller relies on: with a
   reply, the ttl is a whole number of seconds or not positive; with a lost reply, a caller that still relies on the
   lock does so no longer than the whole seconds of the ttl.
   */
  predicate Faithful(s: State, step: Step)
    requires Enabled(s, step)
  {
    step.DoExtend? && s.locks[step.i].locked && HeldBy(s.store, s.now, s.locks[step.i].key, s.locks[step.i].value) ==>
      match step.net
      case RequestLost => true
      case Fine => step.ttl <= 0 || step.ttl % 1000 == 0
      case ReplyLost => Relies(s, step.i) ==>
        s.locks[step.i].deadline.At? && s.locks[step.i].deadline.time <= s.now + 1000 * WholeSeconds(step.ttl)
  }

  predicate Runs(s: State, steps: seq<Step>)
    decreases steps
  {
    steps == [] || (Enabled(s, steps[0]) && Runs(Apply(s, steps[0]), steps[1..]))
  }

  function After(s: State, steps: seq<Step>): State
    requires Runs(s, steps)
    decreases steps
  {
    if steps == [] then s else After(Apply(s, steps[0]), steps[1..])
  }

  predicate AllFaithful(s: State, steps: seq<Step>)
    requires Runs(s, steps)
    decreases steps
  {
    steps == [] || (Faithful(s, steps[0]) && AllFaithful(Apply(s, steps[0]), steps[1..]))
  }

  // ----- safety -----

  /**
   A call never touches another key, nor a live entry that holds another value, whatever its owner believes; and a call
   of an object that cannot be granted touches nothing.
   */
  lemma ForeignEntriesAreSafe(s: State, step: Step, key: string)
    requires Enabled(s, step) && !step.Wait?
    requires var l := s.locks[step.i];
      key != l.key || !Grantable(l) || (Alive(s.store, s.now, key) && s.store[key].value != l.value)
    ensures var s' := Apply(s, step);
      (key in s'.store <==> key in s.store) && (key in s.store ==> s'.store[key] == s.store[key])
  {
  }

  lemma BackedIsExclusive(s: State)
    requires Backed(s) && DistinctValues(s)
    ensures Exclusive(s)
  {
    forall i, j | 0 <= i < j < |s.locks| && s.locks[i].key == s.locks[j].key
      ensures !(Relies(s, i) && Relies(s, j))
    {
      assert Relies(s, i) ==> BackedLock(s, i);
      assert Relies(s, j) ==> BackedLock(s, j);
      assert !Twins(s, i, j);
    }
  }

  lemma CallBacked(s: State, step: Step)
    requires Backed(s) && DistinctValues(s) && Enabled(s, step) && !step.Wait? && Faithful(s, step)
    ensures Relies(Apply(s, step), step.i) ==> BackedLock(Apply(s, step), step.i)
  {
    if Relies(s, step.i) {
      assert BackedLock(s, step.i);
    }
  }

  /** No step makes an object grantable. */
  lemma StepDistinct(s: State, step: Step)
    requires DistinctValues(s) && Enabled(s, step)
    ensures DistinctValues(Apply(s, step))
  {
    var s' := Apply(s, step);
    forall i, j | 0 <= i < |s'.locks| && 0 <= j < |s'.locks|
      ensures !Twins(s', i, j)
    {
      assert !Twins(s, i, j);
    }
  }

  lemma StepBacked(s: State, step: Step)
    requires Backed(s) && DistinctValues(s) && Enabled(s, step) && Faithful(s, step)
    ensures Backed(Apply(s, step)) && DistinctValues(Apply(s, step))
  {
    var s' := Apply(s, step);
    StepDistinct(s, step);
    forall j | 0 <= j < |s'.locks| && Relies(s', j)
      ensures BackedLock(s', j)
    {
      if step.Wait? {
        assert BackedLock(s, j);
      } else if j == step.i {
        CallBacked(s, step);
      } else {
        assert BackedLock(s, j);
        assert !Twins(s, j, step.i);
        ForeignEntriesAreSafe(s, step, s.locks[j].key);
      }
    }
  }

  lemma {:induction false} RunBacked(s: State, steps: seq<Step>)
    requires Backed(s) && DistinctValues(s) && Runs(s, steps) && AllFaithful(s, steps)
    ensures Backed(After(s, steps)) && DistinctValues(After(s, steps))
    decreases steps
  {
    if steps != [] {
      StepBacked(s, steps[0]);
      RunBacked(Apply(s, steps[0]), steps[1..]);
    }
  }

  /**
   Over lock objects with distinct values none of which was granted yet, in every run of faithful calls, lost requests
   and replies included, no two objects of one key are ever relied on at the same time.
   */
  lemma MutualExclusion(s: State, steps: seq<Step>)
    requires DistinctValues(s) && forall i | 0 <= i < |s.locks| :: !s.locks[i].locked
    requires Runs(s, steps) && AllFaithful(s, steps)
    ensures Exclusive(After(s, steps))
  {
    RunBacked(s, steps);
    BackedIsExclusive(After(s, steps));
  }

  /** Every faithful continuation of s keeps the locks exclusive. */
  ghost predicate Safe(s: State) {
    forall steps | Runs(s, steps) && AllFaithful(s, steps) :: Exclusive(After(s, steps))
  }

  lemma BackedIsSafe(s: State)
    requires Backed(s) && DistinctValues(s)
    ensures Safe(s)
  {
    forall steps | Runs(s, steps) && AllFaithful(s, steps)
      ensures Exclusive(After(s, steps))
    {
      RunBacked(s, steps);
      BackedIsExclusive(After(s, steps));
    }
  }

  // ----- ways to unsafe states -----

  /** Some faithful run leads from s to s'. */
  ghost predicate Reaches(s: State, s': State) {
    exists steps :: ReachesBy(s, steps, s')
  }

  ghost predicate ReachesBy(s: State, steps: seq<Step>, s': State) {
    Runs(s, steps) && AllFaithful(s, steps) && After(s, steps) == s'
  }

  lemma ReachesOne(s: State, step: Step)
    requires Enabled(s, step) && Faithful(s, step)
    ensures Reaches(s, Apply(s, step))
  {
    var s' := Apply(s, step);
    assert Runs(s', [step][1..]) && AllFaithful(s', [step][1..]) && After(s', [step][1..]) == s';
    assert ReachesBy(s, [step], s');
  }

  lemma {:induction false} RunsConcat(s: State, a: seq<Step>, b: seq<Step>)
    requires Runs(s, a) && AllFaithful(s, a) && Runs(After(s, a), b) && AllFaithful(After(s, a), b)
    ensures Runs(s, a + b) && AllFaithful(s, a + b) && After(s, a + b) == After(After(s, a), b)
    decreases a
  {
    if a == [] {
      assert a + b == b;
    } else {
      RunsConcat(Apply(s, a[0]), a[1..], b);
      assert (a + b)[1..] == a[1..] + b;
    }
  }

  lemma ReachesOn(s: State, s': State, s'': State)
    requires Reaches(s, s') && Reaches(s', s'')
    ensures Reaches(s, s'')
  {
    var a :| ReachesBy(s, a, s');
    var b :| ReachesBy(s', b, s'');
    RunsConcat(s, a, b);
    assert ReachesBy(s, a + b, s'');
  }

  lemma ReachedIsUnsafe(s: State, s': State, i: nat, j: nat)
    requires Reaches(s, s') && i < |s'.locks| && j < |s'.locks| && i != j && s'.locks[i].key == s'.locks[j].key
    requires Relies(s', i) && Relies(s', j)
    ensures !Safe(s)
  {
    var steps :| ReachesBy(s, steps, s');
    assert !Exclusive(After(s, steps)) by {
      if i < j { assert s'.locks[i].key == s'.locks[j].key; } else { assert s'.locks[j].key == s'.locks[i].key; }
    }
  }

  /** Once a key has no live entry, one more object is granted. */
  lemma LockGranted(s: State, i: nat) returns (s': State)
    requires i < |s.locks| && s.locks[i].ttl >= 0 && !Alive(s.store, s.now, s.locks[i].key)
    ensures Reaches(s, s') && s'.now == s.now && |s'.locks| == |s.locks|
    ensures var l := s.locks[i];
      && s'.locks == s.locks[i := l.(locked := true, deadline := Expiry(s.now, l.ttl))]
      && s'.store == s.store[l.key := Entry(l.value, Expiry(s.now, l.ttl))]
  {
    s' := Apply(s, DoLock(i, Fine));
    ReachesOne(s, DoLock(i, Fine));
  }

  /** An entry with a deadline dies while nobody calls. */
  lemma EntryExpires(s: State, key: string) returns (s': State)
    requires Alive(s.store, s.now, key) ==> s.store[key].expires.At?
    ensures Reaches(s, s') && s'.store == s.store && s'.locks == s.locks && !Alive(s'.store, s'.now, key)
    ensures s'.now == if Alive(s.store, s.now, key) then s.store[key].expires.time else s.now
  {
    var wait := if Alive(s.store, s.now, key) then s.store[key].expires.time - s.now else 0;
    s' := Apply(s, Wait(wait));
    ReachesOne(s, Wait(wait));
  }

  /** After an Extend that is not faithful, another lock object of the key can be granted too early. */
  lemma UnfaithfulExtendIsUnsafe(s: State, step: Step, j: nat)
    requires Backed(s) && Enabled(s, step) && !Faithful(s, step)
    requires j < |s.locks| && j != step.i && s.locks[j].key == s.locks[step.i].key && s.locks[j].ttl >= 0
    ensures !Safe(Apply(s, step))
  {
    var i, s1 := step.i, Apply(s, step);
    assert Relies(s, i) ==> BackedLock(s, i);
    var s2 := EntryExpires(s1, s1.locks[i].key);
    assert Before(s2.now, s1.locks[i].deadline);
    var s3 := LockGranted(s2, j);
    ReachesOn(s1, s2, s3);
    ReachedIsUnsafe(s1, s3, i, j);
  }

  /** Extending a lock that someone else may want is safe exactly when the call is faithful. */
  lemma ExtendSafeIff(s: State, step: Step, j: nat)
    requires Backed(s) && DistinctValues(s) && Enabled(s, step) && step.DoExtend?
    requires j < |s.locks| && j != step.i && s.locks[j].key == s.locks[step.i].key && s.locks[j].ttl >= 0
    ensures Safe(Apply(s, step)) <==> Faithful(s, step)
  {
    if Faithful(s, step) {
      StepBacked(s, step);
      BackedIsSafe(Apply(s, step));
    } else {
      UnfaithfulExtendIsUnsafe(s, step, j);
    }
  }

  /** Safe whatever the network does to the call. */
  ghost predicate ExtendSafe(s: State, i: nat, ttl: int)
    requires i < |s.locks|
  {
    forall net :: Safe(Apply(s, DoExtend(i, ttl, net)))
  }

  /**
   What the caller of Extend has to see to before the call: whole seconds, or a ttl that gives the lock up; and, while
   it still relies on the lock, no deadline beyond the one that the store will set, since the reply may get lost.
   */
  predicate MayExtend(s: State, i: nat, ttl: int)
    requires i < |s.locks|
  {
    && (ttl <= 0 || ttl % 1000 == 0)
    && (Relies(s, i) ==>
          s.locks[i].deadline.At? && s.locks[i].deadline.time <= s.now + 1000 * WholeSeconds(ttl))
  }

  /**
   While the object's entry is there, an Extend is safe under every network outcome exactly when the caller may do
   it.
   */
  lemma ExtendSafeWhateverHappensIff(s: State, i: nat, ttl: int, j: nat)
    requires Backed(s) && DistinctValues(s) && i < |s.locks|
    requires s.locks[i].locked && HeldBy(s.store, s.now, s.locks[i].key, s.locks[i].value)
    requires j < |s.locks| && j != i && s.locks[j].key == s.locks[i].key && s.locks[j].ttl >= 0
    ensures ExtendSafe(s, i, ttl) <==> MayExtend(s, i, ttl)
  {
    ExtendSafeIff(s, DoExtend(i, ttl, Fine), j);
    ExtendSafeIff(s, DoExtend(i, ttl, ReplyLost), j);
    forall net
      ensures Safe(Apply(s, DoExtend(i, ttl, net))) <==> Faithful(s, DoExtend(i, ttl, net))
    {
      ExtendSafeIff(s, DoExtend(i, ttl, net), j);
    }
    assert Faithful(s, DoExtend(i, ttl, RequestLost));
  }

  /** For an owner that relies on its lock: exactly when the ttl is whole seconds and does not shorten the lock. */
  lemma RelyingExtendSafeIff(s: State, i: nat, ttl: int, j: nat)
    requires Backed(s) && DistinctValues(s) && i < |s.locks| && Relies(s, i)
    requires j < |s.locks| && j != i && s.locks[j].key == s.locks[i].key && s.locks[j].ttl >= 0
    ensures ExtendSafe(s, i, ttl) <==>
      ttl % 1000 == 0 && s.locks[i].deadline.At? && s.locks[i].deadline.time <= s.now + ttl
  {
    assert BackedLock(s, i);
    ExtendSafeWhateverHappensIff(s, i, ttl, j);
  }

  // ----- a discipline that is enough -----

  /** All ttls are positive and at most `ttl`, and nobody relies on a lock for longer than that. */
  ghost predicate Disciplined(s: State, ttl: int) {
    forall i | 0 <= i < |s.locks| :: DisciplinedLock(s.locks[i], s.now, ttl)
  }

  predicate DisciplinedLock(l: LockObject, now: int, ttl: int) {
    0 < l.ttl <= ttl && (l.locked ==> l.deadline.At? && l.deadline.time <= now + ttl)
  }

  /** Every Extend asks for the same whole number of seconds. */
  predicate ExtendsBy(steps: seq<Step>, ttl: int) {
    forall i | 0 <= i < |steps| && steps[i].DoExtend? :: steps[i].ttl == ttl
  }

  lemma StepDisciplined(s: State, step: Step, ttl: int)
    requires Disciplined(s, ttl) && ttl > 0 && ttl % 1000 == 0 && Enabled(s, step) && ExtendsBy([step], ttl)
    ensures Disciplined(Apply(s, step), ttl) && Faithful(s, step)
  {
    var s' := Apply(s, step);
    assert step.DoExtend? ==> [step][0].ttl == ttl;
    forall i | 0 <= i < |s'.locks|
      ensures DisciplinedLock(s'.locks[i], s'.now, ttl)
    {
      assert DisciplinedLock(s.locks[i], s.now, ttl);
    }
    if !step.Wait? {
      assert DisciplinedLock(s.locks[step.i], s.now, ttl);
    }
  }

  lemma {:induction false} DisciplinedRunIsFaithful(s: State, steps: seq<Step>, ttl: int)
    requires Disciplined(s, ttl) && ttl > 0 && ttl % 1000 == 0 && Runs(s, steps) && ExtendsBy(steps, ttl)
    ensures AllFaithful(s, steps)
    decreases steps
  {
    if steps != [] {
      StepDisciplined(s, steps[0], ttl);
      DisciplinedRunIsFaithful(Apply(s, steps[0]), steps[1..], ttl);
    }
  }

  /**
   Callers that take ttls of at most `ttl`, whole seconds, and always extend by `ttl` exclude each other in every run,
   whatever the network does.
   */
  lemma DisciplineExcludes(s: State, steps: seq<Step>, ttl: int)
    requires DistinctValues(s) && ttl > 0 && ttl % 1000 == 0
    requires forall i | 0 <= i < |s.locks| :: !s.locks[i].locked && 0 < s.locks[i].ttl <= ttl
    requires Runs(s, steps) && ExtendsBy(steps, ttl)
    ensures Exclusive(After(s, steps))
  {
    DisciplinedRunIsFaithful(s, steps, ttl);
    MutualExclusion(s, steps);
  }

  // ----- shared values -----

  /**
   While a lock is granted with a deadline, a twin of it can be granted behind it and lose its entry to its Unlock.
   */
  lemma GrantedTwinIsUnsafe(s: State, i: nat, j: nat)
    requires i < |s.locks| && j < |s.locks| && Twins(s, i, j) && s.locks[i].locked
    requires s.locks[i].ttl > 0 && s.locks[j].ttl >= 0
    requires Alive(s.store, s.now, s.locks[i].key) ==> s.store[s.locks[i].key].expires.At?
    ensures !Safe(s)
  {
    var key := s.locks[i].key;
    var s1 := EntryExpires(s, key);
    var s2 := LockGranted(s1, j);
    ReachesOn(s, s1, s2);
    var s3 := Apply(s2, DoUnlock(i, Fine));
    ReachesOne(s2, DoUnlock(i, Fine));
    ReachesOn(s, s2, s3);
    assert key !in s3.store;
    var s4 := LockGranted(s3, i);
    ReachesOn(s, s3, s4);
    ReachedIsUnsafe(s, s4, i, j);
  }

  /** No lock is granted, and no entry stands in the way. */
  ghost predicate Free(s: State) {
    forall i | 0 <= i < |s.locks| :: !s.locks[i].locked && !Alive(s.store, s.now, s.locks[i].key)
  }

  lemma TwinsAreUnsafe(s: State, i: nat, j: nat)
    requires Free(s) && i < |s.locks| && j < |s.locks| && Twins(s, i, j)
    ensures !Safe(s)
    decreases if s.locks[i].ttl == 0 then 1 else 0
  {
    if s.locks[i].ttl == 0 && s.locks[j].ttl > 0 {
      TwinsAreUnsafe(s, j, i);
    } else {
      var s1 := LockGranted(s, i);
      if s.locks[i].ttl > 0 {
        GrantedTwinIsUnsafe(s1, i, j);
        LeadsToUnsafe(s, s1);
      } else {
        var s2 := Apply(s1, DoExtend(i, 1000, Fine));
        ReachesOne(s1, DoExtend(i, 1000, Fine));
        ReachesOn(s, s1, s2);
        GrantedTwinIsUnsafe(s2, i, j);
        LeadsToUnsafe(s, s2);
      }
    }
  }

  lemma LeadsToUnsafe(s: State, s': State)
    requires Reaches(s, s') && !Safe(s')
    ensures !Safe(s)
  {
    var a :| ReachesBy(s, a, s');
    var b :| Runs(s', b) && AllFaithful(s', b) && !Exclusive(After(s', b));
    RunsConcat(s, a, b);
  }

  /**
   From a state in which no lock is granted and none stands in the way, faithful runs are safe exactly when no two
   objects of one key that can be granted share a value.
   */
  lemma SafeIffValuesDistinct(s: State)
    requires Free(s)
    ensures Safe(s) <==> DistinctValues(s)
  {
    if DistinctValues(s) {
      BackedIsSafe(s);
    } else {
      var i, j :| 0 <= i < |s.locks| && 0 <= j < |s.locks| && Twins(s, i, j);
      TwinsAreUnsafe(s, i, j);
    }
  }

  // ----- repeated tries -----

  /** One lock object per try, the tries `interval` apart. */
  datatype Tries = Tries(store: Store, now: int, key: string, ttl: int, interval: nat, values: nat -> string,
                         nets: nat -> Net)

  function TimeOf(t: Tries, i: nat): int {
    if i == 0 then t.now else TimeOf(t, i - 1) + t.interval
  }

  /** The store before try i, if no try before it was granted: a lost reply leaves an entry that nobody owns. */
  function StoreBefore(t: Tries, i: nat): Store {
    if i == 0 then t.store
    else
      var store := StoreBefore(t, i - 1);
      if t.ttl >= 0 && t.nets(i - 1).ReplyLost? && !Alive(store, TimeOf(t, i - 1), t.key)
      then store[t.key := Entry(t.values(i - 1), Expiry(TimeOf(t, i - 1), t.ttl))] else store
  }

  /** Try i gets a clean reply and finds no live entry; the store takes the ttl. */
  predicate Grants(t: Tries, i: nat) {
    t.ttl >= 0 && t.nets(i).Fine? && !Alive(StoreBefore(t, i), TimeOf(t, i), t.key)
  }

  /** Try i is the first that is granted, and nothing was cancelled before it. */
  ghost predicate FirstGrant(t: Tries, i: nat, cancelled: nat -> bool) {
    Grants(t, i) && forall j | 0 <= j < i :: !Grants(t, j) && !cancelled(j)
  }

  // ----- the objects -----

  class Redis {
    var now: int
    var entries: Store

    constructor ()
      ensures entries == map[]
    {
      entries := map[];
    }
  }

  class RedisLock {
    const redis: Redis
    const key: string
    const value: string
    var ttl: int
    var locked: bool
    ghost var deadline: Deadline

    constructor (redis: Redis, key: string, value: string, ttl: int)
      ensures this.redis == redis && View() == LockObject(key, value, ttl, false, Never)
    {
      this.redis, this.key, this.value, this.ttl := redis, key, value, ttl;
      locked, deadline := false, Never;
    }

    ghost function View(): LockObject
      reads this
    {
      LockObject(key, value, ttl, locked, deadline)
    }

    method Lock(net: Net) returns (error: Option<Error>)
      modifies this`locked, this`deadline, redis`entries
      ensures Call(redis.entries, View(), error) == LockCall(old(redis.entries), redis.now, old(View()), net)
      ensures error.None? <==> net.Fine? && ttl >= 0 && !Alive(old(redis.entries), redis.now, key)
      ensures error == Some(Conflict) <==> net.Fine? && ttl >= 0 && Alive(old(redis.entries), redis.now, key)
      ensures redis.entries ==
        if !net.RequestLost? && ttl >= 0 && !Alive(old(redis.entries), redis.now, key)
        then old(redis.entries)[key := Entry(value, if ttl == 0 then Never else At(redis.now + ttl))]
        else old(redis.entries)
      ensures locked == (old(locked) || error.None?)
    {
      if net.RequestLost? || ttl < 0 {
        return Some(Network);
      }
      if key in redis.entries && Before(redis.now, redis.entries[key].expires) {
        return Some(if net.Fine? then Conflict else Network);
      }
      redis.entries := redis.entries[key := Entry(value, Expiry(redis.now, ttl))];
      if net.ReplyLost? {
        return Some(Network);
      }
      locked, deadline := true, Expiry(redis.now, ttl);
      return None;
    }

    method Unlock(net: Net) returns (error: Option<Error>)
      modifies this`locked, this`deadline, redis`entries
      ensures Call(redis.entries, View(), error) == UnlockCall(old(redis.entries), redis.now, old(View()), net)
      ensures error.None? <==>
        old(locked) && net.Fine? && Alive(old(redis.entries), redis.now, key) && old(redis.entries)[key].value == value
      ensures redis.entries ==
        if old(locked) && !net.RequestLost? && Alive(old(redis.entries), redis.now, key)
           && old(redis.entries)[key].value == value
        then old(redis.entries) - {key} else old(redis.entries)
      ensures locked == (old(locked) && error.Some?)
    {
      if !locked {
        return Some(NotHeld);
      }
      deadline := At(redis.now);
      if net.RequestLost? {
        return Some(Network);
      }
      var mine :=
        key in redis.entries && Before(redis.now, redis.entries[key].expires) && redis.entries[key].value == value;
      if mine {
        redis.entries := redis.entries - {key};
      }
      if net.ReplyLost? {
        return Some(Network);
      }
      if !mine {
        return Some(NotHeld);
      }
      locked := false;
      return None;
    }

    method Extend(ttl: int, net: Net) returns (error: Option<Error>)
      modifies this`ttl, this`deadline, redis`entries
      ensures Call(redis.entries, View(), error) == ExtendCall(old(redis.entries), redis.now, old(View()), ttl, net)
      ensures error.None? <==>
        old(locked) && net.Fine? && Alive(old(redis.entries), redis.now, key) && old(redis.entries)[key].value == value
      ensures var mine :=
          && old(locked) && !net.RequestLost?
          && Alive(old(redis.entries), redis.now, key) && old(redis.entries)[key].value == value;
        redis.entries ==
          if !mine then old(redis.entries)
          else if ttl < 1000 then old(redis.entries) - {key}
          else old(redis.entries)[key := Entry(value, At(redis.now + ttl - ttl % 1000))]
      ensures locked == old(locked) && this.ttl == if error.None? then ttl else old(this.ttl)
    {
      if !locked {
        return Some(NotHeld);
      }
      if net.RequestLost? {
        return Some(Network);
      }
      var mine :=
        key in redis.entries && Before(redis.now, redis.entries[key].expires) && redis.entries[key].value == value;
      if mine {
        var seconds := WholeSeconds(ttl);
        if seconds <= 0 {
          redis.entries := redis.entries - {key};
        } else {
          redis.entries := redis.entries[key := redis.entries[key].(expires := At(redis.now + 1000 * seconds))];
        }
      }
      if net.ReplyLost? {
        return Some(Network);
      }
      if !mine {
        return Some(NotHeld);
      }
      this.ttl, deadline := ttl, At(redis.now + ttl);
      return None;
    }
  }

  class LockManager {
    const redis: Redis
    const defaultTtl: int

    constructor (redis: Redis, defaultTtl: int)
      ensures this.redis == redis && this.defaultTtl == defaultTtl
    {
      this.redis, this.defaultTtl := redis, defaultTtl;
    }

    /**
     Tries with a new lock object each time, `interval` apart, until one is granted or the tries are used up; then the
     error of the last one is returned.  Without a single try there is no such error, and no lock either.
     */
    method LockWithRetry(key: string, maxRetries: int, interval: nat, values: nat -> string, nets: nat -> Net,
                         cancelled: nat -> bool)
      returns (lock: Option<RedisLock>, error: Option<Error>)
      modifies redis
      ensures var t := Tries(old(redis.entries), old(redis.now), key, defaultTtl, interval, values, nets);
        && (lock.Some? <==> exists i :: 0 <= i < maxRetries && FirstGrant(t, i, cancelled))
        && (lock.Some? ==>
              exists i :: 0 <= i < maxRetries && FirstGrant(t, i, cancelled)
                && lock.value.value == values(i) && redis.now == TimeOf(t, i))
      ensures lock.Some? ==>
        && error.None? && fresh(lock.value) && lock.value.redis == redis && lock.value.key == key && lock.value.locked
        && key in redis.entries && redis.entries[key] == Entry(lock.value.value, Expiry(redis.now, defaultTtl))
      ensures forall k | k != key :: k in redis.entries <==> k in old(redis.entries)
      ensures forall k | k != key && k in redis.entries :: redis.entries[k] == old(redis.entries)[k]
      ensures error.None? ==> (lock.Some? <==> maxRetries >= 1)
      ensures maxRetries <= 0 ==> error.None?
    {
      ghost var t := Tries(redis.entries, redis.now, key, defaultTtl, interval, values, nets);
      lock, error := None, None;
      var i := 0;
      while i < maxRetries
        invariant 0 <= i && lock.None? && (error.None? <==> i == 0) && (i <= maxRetries || i == 0)
        invariant redis.entries == StoreBefore(t, i) && redis.now == TimeOf(t, i)
        invariant forall j | 0 <= j < i :: !Grants(t, j) && !cancelled(j)
        invariant forall k | k != key :: k in redis.entries <==> k in old(redis.entries)
        invariant forall k | k != key && k in redis.entries :: redis.entries[k] == old(redis.entries)[k]
      {
        var l := new RedisLock(redis, key, values(i), defaultTtl);
        error := l.Lock(nets(i));
        if error.None? {
          assert FirstGrant(t, i, cancelled);
          return Some(l), None;
        }
        assert !Grants(t, i);
        if cancelled(i) {
          return None, Some(Cancelled);
        }
        redis.now := redis.now + interval;
        i := i + 1;
      }
    }
  }
}
