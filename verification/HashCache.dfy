/**
 The block-hash cache as a step system.

 Storing a hash starts one more cleanup thread.  A cleanup takes no lock: it collects the heights one by one, in
 no particular order and while others store and delete, so it may miss heights or keep ones that are gone; then
 it sorts what it collected and deletes the lowest ones, again one by one.
 */
module HashCache {
  import opened Machine
  import opened SortedHeights

  /** How many hashes a cleanup keeps: int(depth) * 2, with int64 arithmetic. */
  function KeepCount(depth: uint64): int64 {
    Signed(Signed(depth) * 2)
  }

  datatype Cleaner = Collecting(seen: set<nat>) | Deleting(victims: seq<nat>)

  /** `stored` is the history: every height ever stored, with its last hash. */
  datatype State = State(cache: map<nat, string>, cleaners: seq<Cleaner>, stored: map<nat, string>)

  datatype Step =
    | Store(height: nat, hash: string)
    | Collect(cleaner: nat, height: nat)
    | Plan(cleaner: nat)
    | Delete(cleaner: nat)

  /** What a cleanup deletes once it collected `seen`. */
  ghost function Victims(seen: set<nat>, keep: int): seq<nat> {
    if keep <= 0 || |seen| <= keep then [] else Sorted(seen)[..|seen| - keep]
  }

  ghost predicate Enabled(s: State, step: Step) {
    match step
    case Store(_, _) => true
    case Collect(i, height) => i < |s.cleaners| && s.cleaners[i].Collecting? && height in s.cache
    case Plan(i) => i < |s.cleaners| && s.cleaners[i].Collecting?
    case Delete(i) => i < |s.cleaners| && s.cleaners[i].Deleting? && s.cleaners[i].victims != []
  }

  ghost function Apply(s: State, step: Step, keep: int): State
    requires Enabled(s, step)
  {
    match step
    case Store(height, hash) =>
      State(s.cache[height := hash], s.cleaners + [Collecting({})], s.stored[height := hash])
    case Collect(i, height) =>
      s.(cleaners := s.cleaners[i := Collecting(s.cleaners[i].seen + {height})])
    case Plan(i) =>
      s.(cleaners := s.cleaners[i := Deleting(Victims(s.cleaners[i].seen, keep))])
    case Delete(i) =>
      var victims := s.cleaners[i].victims;
      s.(cache := s.cache - {victims[0]}, cleaners := s.cleaners[i := Deleting(victims[1..])])
  }

  ghost predicate Runs(s: State, steps: seq<Step>, keep: int)
    decreases steps
  {
    steps == [] || (Enabled(s, steps[0]) && Runs(Apply(s, steps[0], keep), steps[1..], keep))
  }

  ghost function After(s: State, steps: seq<Step>, keep: int): State
    requires Runs(s, steps, keep)
    decreases steps
  {
    if steps == [] then s else After(Apply(s, steps[0], keep), steps[1..], keep)
  }

  /** Fewer than `keep` stored heights are larger than k. */
  predicate InTop(stored: set<nat>, k: nat, keep: int) {
    k in stored && |Above(stored, k)| < keep
  }

  /** A hash may be missing, or be about to go, only when `keep` larger heights were stored. */
  ghost predicate Retains(s: State, keep: int) {
    && s.cache.Keys <= s.stored.Keys
    && (forall k | k in s.cache :: s.cache[k] == s.stored[k])
    && (forall k | k in s.stored && k !in s.cache :: !InTop(s.stored.Keys, k, keep) && keep > 0)
    && (forall i | 0 <= i < |s.cleaners| :: SafeCleaner(s.cleaners[i], s.stored.Keys, keep))
  }

  /** At least `keep` stored heights are larger than k, whether k is stored or not. */
  predicate Outranked(stored: set<nat>, k: nat, keep: int) {
    |Above(stored, k)| >= keep
  }

  /**
   A cleaner that can do no harm.  What it collected is stored, or is so low that it does not matter: there is nothing
   below height 0, and below an outranked height all is outranked.  What it deletes is outranked.
   */
  ghost predicate SafeCleaner(c: Cleaner, stored: set<nat>, keep: int) {
    match c
    case Collecting(seen) => keep <= 0 || forall g | g in seen :: SafeToCount(stored, g, keep)
    case Deleting(victims) => forall v | v in victims :: keep > 0 && Outranked(stored, v, keep)
  }

  predicate SafeToCount(stored: set<nat>, g: nat, keep: int) {
    g in stored || g == 0 || Outranked(stored, g, keep)
  }

  /** Storing more heights never brings a height back into the top. */
  lemma StaysOutranked(stored: set<nat>, more: set<nat>, k: nat, keep: int)
    requires stored <= more && Outranked(stored, k, keep)
    ensures Outranked(more, k, keep)
  {
    SubsetCardinality(Above(stored, k), Above(more, k));
  }

  lemma PlanIsSafe(seen: set<nat>, stored: set<nat>, keep: int)
    requires SafeCleaner(Collecting(seen), stored, keep)
    ensures SafeCleaner(Deleting(Victims(seen, keep)), stored, keep)
  {
    forall v | v in Victims(seen, keep)
      ensures keep > 0 && Outranked(stored, v, keep)
    {
      LowHeightsHaveLargerOnes(seen, |seen| - keep, v);
      if g :| g in Above(seen, v) && g !in stored {
        assert SafeToCount(stored, g, keep);
        SubsetCardinality(Above(stored, g), Above(stored, v));
      } else {
        SubsetCardinality(Above(seen, v), Above(stored, v));
      }
    }
  }

  lemma CleanerStaysSafe(c: Cleaner, stored: set<nat>, more: set<nat>, keep: int)
    requires stored <= more && SafeCleaner(c, stored, keep)
    ensures SafeCleaner(c, more, keep)
  {
    match c
    case Collecting(seen) =>
      if keep > 0 {
        forall g | g in seen
          ensures SafeToCount(more, g, keep)
        {
          assert SafeToCount(stored, g, keep);
          if Outranked(stored, g, keep) { StaysOutranked(stored, more, g, keep); }
        }
      }
    case Deleting(victims) =>
      forall v | v in victims
        ensures keep > 0 && Outranked(more, v, keep)
      {
        StaysOutranked(stored, more, v, keep);
      }
  }

  lemma StoreRetains(s: State, height: nat, hash: string, keep: int)
    requires Retains(s, keep)
    ensures Retains(Apply(s, Store(height, hash), keep), keep)
  {
    var s' := Apply(s, Store(height, hash), keep);
    assert s'.stored.Keys == s.stored.Keys + {height};
    forall k | k in s'.stored && k !in s'.cache
      ensures !InTop(s'.stored.Keys, k, keep) && keep > 0
    {
      StaysOutranked(s.stored.Keys, s'.stored.Keys, k, keep);
    }
    forall i | 0 <= i < |s'.cleaners|
      ensures SafeCleaner(s'.cleaners[i], s'.stored.Keys, keep)
    {
      if i < |s.cleaners| {
        CleanerStaysSafe(s.cleaners[i], s.stored.Keys, s'.stored.Keys, keep);
      }
    }
  }

  lemma DeleteRetains(s: State, i: nat, keep: int)
    requires Retains(s, keep) && Enabled(s, Delete(i))
    ensures Retains(Apply(s, Delete(i), keep), keep)
  {
    var s', victims := Apply(s, Delete(i), keep), s.cleaners[i].victims;
    assert SafeCleaner(s.cleaners[i], s.stored.Keys, keep);
    assert keep > 0 && Outranked(s.stored.Keys, victims[0], keep);
    forall v | v in victims[1..]
      ensures v in victims
    {
    }
  }

  lemma StepRetains(s: State, step: Step, keep: int)
    requires Retains(s, keep) && Enabled(s, step)
    ensures Retains(Apply(s, step, keep), keep)
  {
    match step
    case Store(height, hash) => StoreRetains(s, height, hash, keep);
    case Collect(i, height) =>
    case Plan(i) => PlanIsSafe(s.cleaners[i].seen, s.stored.Keys, keep);
    case Delete(i) => DeleteRetains(s, i, keep);
  }

  lemma {:induction false} RunRetains(s: State, steps: seq<Step>, keep: int)
    requires Retains(s, keep) && Runs(s, steps, keep)
    ensures Retains(After(s, steps, keep), keep)
    decreases steps
  {
    if steps != [] {
      StepRetains(s, steps[0], keep);
      RunRetains(Apply(s, steps[0], keep), steps[1..], keep);
    }
  }

  /**
   In any interleaving of stores with any number of overlapping cleanups, each of the `keep` largest heights ever
   stored is still cached with its last hash; with a keep count that is not positive every height is.
   */
  lemma LargestHeightsStay(steps: seq<Step>, keep: int, k: nat)
    requires Runs(State(map[], [], map[]), steps, keep)
    requires var s := After(State(map[], [], map[]), steps, keep);
      k in s.stored && (keep <= 0 || InTop(s.stored.Keys, k, keep))
    ensures var s := After(State(map[], [], map[]), steps, keep);
      k in s.cache && s.cache[k] == s.stored[k]
  {
    RunRetains(State(map[], [], map[]), steps, keep);
  }

  /** The keep count is twice the depth exactly below 2^62; above, int64 wraps. */
  lemma KeepCountIff(depth: uint64)
    ensures KeepCount(depth) == 2 * depth <==> 2 * depth < I63
  {
    if 2 * depth < I63 {
      assert Signed(depth) == depth;
    } else {
      assert KeepCount(depth) < I63;
    }
  }

  // ----- a cleanup that nothing disturbs -----

  /** An undisturbed cleanup leaves exactly the `keep` largest heights, or all when there are no more. */
  lemma CleanupKeepsTheTop(s: set<nat>, keep: int)
    ensures var kept := s - Elements(Victims(s, keep));
      && (forall k :: k in kept <==> k in s && (keep <= 0 || InTop(s, k, keep)))
      && |kept| == if keep <= 0 then |s| else Min(|s|, keep)
  {
    var victims := Elements(Victims(s, keep));
    if keep > 0 && |s| > keep {
      var n := |s| - keep;
      SortedPrefix(s, n);
      assert |s - victims| == |s| - n;
      forall k | k in s
        ensures k in victims <==> !InTop(s, k, keep)
      {
        if k in victims {
          LowHeightsHaveLargerOnes(s, n, k);
        } else {
          forall x | x in victims ensures x !in Above(s, k) { SortedPrefixIsLow(s, n, x, k); }
          SubsetCardinality(Above(s, k), s - victims - {k});
        }
      }
    } else {
      assert s - victims == s;
      forall k | k in s && keep > 0
        ensures InTop(s, k, keep)
      {
        SubsetCardinality(Above(s, k), s - {k});
      }
    }
  }

  lemma RemoveOne(m: map<nat, string>, heights: seq<nat>, i: nat)
    requires i < |heights|
    ensures m - Elements(heights[..i]) - {heights[i]} == m - Elements(heights[..i + 1])
  {
    assert heights[..i + 1] == heights[..i] + [heights[i]];
    ElementsConcat(heights[..i], [heights[i]]);
    assert Elements([heights[i]]) == {heights[i]};
  }

  /** The hashes that an undisturbed cleanup leaves. */
  function Pruned(m: map<nat, string>, keep: int): map<nat, string> {
    map k | k in m && (keep <= 0 || InTop(m.Keys, k, keep)) :: m[k]
  }

  lemma PrunedIs(m: map<nat, string>, keep: int)
    ensures Pruned(m, keep) == m - Elements(Victims(m.Keys, keep))
    ensures |Pruned(m, keep).Keys| == if keep <= 0 then |m.Keys| else Min(|m.Keys|, keep)
  {
    CleanupKeepsTheTop(m.Keys, keep);
    assert Pruned(m, keep).Keys == m.Keys - Elements(Victims(m.Keys, keep));
  }
}
