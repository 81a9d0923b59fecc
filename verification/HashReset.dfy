/** The block-hash cache after a reset, with cleanups of before the reset still under way. */
module HashReset {
  import opened Machine
  import opened SortedHeights
  import opened HashCache

  /** A reset drops the hashes above the height; what remains is what counts as stored from then on. */
  ghost function ResetTo(s: State, height: nat): State {
    var kept := map k | k in s.cache && k <= height :: s.cache[k];
    State(kept, s.cleaners, kept)
  }

  /** The largest `keep` stored heights are cached with their last hash; all are, if the keep count is not positive. */
  ghost predicate TopCached(s: State, keep: int) {
    forall k | k in s.stored && (keep <= 0 || InTop(s.stored.Keys, k, keep)) ::
      k in s.cache && s.cache[k] == s.stored[k]
  }

  ghost predicate TopStays(s: State, keep: int) {
    forall steps | Runs(s, steps, keep) :: TopCached(After(s, steps, keep), keep)
  }

  ghost predicate AllSafe(s: State, keep: int) {
    forall i | 0 <= i < |s.cleaners| :: SafeCleaner(s.cleaners[i], s.stored.Keys, keep)
  }

  // ----- runs put together -----

  ghost predicate Reaches(s: State, s': State, keep: int) {
    exists steps :: ReachesBy(s, steps, s', keep)
  }

  ghost predicate ReachesBy(s: State, steps: seq<Step>, s': State, keep: int) {
    Runs(s, steps, keep) && After(s, steps, keep) == s'
  }

  lemma ReachesSelf(s: State, keep: int)
    ensures Reaches(s, s, keep)
  {
    assert ReachesBy(s, [], s, keep);
  }

  lemma ReachesOne(s: State, step: Step, keep: int)
    requires Enabled(s, step)
    ensures Reaches(s, Apply(s, step, keep), keep)
  {
    assert Runs(Apply(s, step, keep), [step][1..], keep);
    assert ReachesBy(s, [step], Apply(s, step, keep), keep);
  }

  lemma {:induction false} RunsConcat(s: State, a: seq<Step>, b: seq<Step>, keep: int)
    requires Runs(s, a, keep) && Runs(After(s, a, keep), b, keep)
    ensures Runs(s, a + b, keep) && After(s, a + b, keep) == After(After(s, a, keep), b, keep)
    decreases a
  {
    if a == [] {
      assert a + b == b;
    } else {
      RunsConcat(Apply(s, a[0], keep), a[1..], b, keep);
      assert (a + b)[1..] == a[1..] + b;
    }
  }

  lemma ReachesOn(s: State, s': State, s'': State, keep: int)
    requires Reaches(s, s', keep) && Reaches(s', s'', keep)
    ensures Reaches(s, s'', keep)
  {
    var a :| ReachesBy(s, a, s', keep);
    var b :| ReachesBy(s', b, s'', keep);
    RunsConcat(s, a, b, keep);
    assert ReachesBy(s, a + b, s'', keep);
  }

  lemma LeadsToLoss(s: State, s': State, keep: int)
    requires Reaches(s, s', keep) && !TopStays(s', keep)
    ensures !TopStays(s, keep)
  {
    var a :| ReachesBy(s, a, s', keep);
    var b :| Runs(s', b, keep) && !TopCached(After(s', b, keep), keep);
    RunsConcat(s, a, b, keep);
  }

  // ----- a cleaner that deletes -----

  lemma {:induction false} DeleteUntil(s: State, i: nat, v: nat, keep: int) returns (s': State)
    requires i < |s.cleaners| && s.cleaners[i].Deleting? && v in s.cleaners[i].victims
    ensures Reaches(s, s', keep) && v !in s'.cache && s'.stored == s.stored
    decreases if s.cleaners[i].Deleting? then |s.cleaners[i].victims| else 0
  {
    var victims, next := s.cleaners[i].victims, Apply(s, Delete(i), keep);
    ReachesOne(s, Delete(i), keep);
    if victims[0] == v {
      s' := next;
    } else {
      s' := DeleteUntil(next, i, v, keep);
      ReachesOn(s, next, s', keep);
    }
  }

  /** A height is stored; if it was not, that changes nothing of what is above it. */
  lemma StoreIt(s: State, i: nat, v: nat, keep: int) returns (s': State)
    requires i < |s.cleaners|
    ensures Reaches(s, s', keep) && s'.stored.Keys == s.stored.Keys + {v}
    ensures i < |s'.cleaners| && s'.cleaners[i] == s.cleaners[i]
    ensures Above(s'.stored.Keys, v) == Above(s.stored.Keys, v)
    ensures s.cache.Keys == s.stored.Keys ==> s'.cache.Keys == s'.stored.Keys
  {
    if v in s.stored {
      s' := s;
      ReachesSelf(s, keep);
    } else {
      s' := Apply(s, Store(v, ""), keep);
      ReachesOne(s, Store(v, ""), keep);
    }
  }

  lemma VictimIsLost(s: State, i: nat, v: nat, keep: int)
    requires i < |s.cleaners| && s.cleaners[i].Deleting? && v in s.cleaners[i].victims
    requires keep <= 0 || !Outranked(s.stored.Keys, v, keep)
    ensures !TopStays(s, keep)
  {
    var s1 := StoreIt(s, i, v, keep);
    var s2 := DeleteUntil(s1, i, v, keep);
    ReachesOn(s, s1, s2, keep);
    assert !TopCached(s2, keep) by {
      assert v in s2.stored && (keep <= 0 || InTop(s2.stored.Keys, v, keep));
    }
    ReachesSelf(s2, keep);
    assert Runs(s2, [], keep) && After(s2, [], keep) == s2;
    LeadsToLoss(s, s2, keep);
  }

  // ----- a cleaner that collects -----

  lemma {:induction false} FreshHeight(s: set<nat>) returns (m: nat)
    ensures forall j | j in s :: j < m
    decreases |s|
  {
    if s == {} {
      m := 0;
    } else {
      var x :| x in s;
      var n := FreshHeight(s - {x});
      m := if n > x then n else x + 1;
      forall j | j in s
        ensures j < m
      {
        assert j == x || j in s - {x};
      }
    }
  }

  /** Higher heights are stored until `keep` - 1 are above v; g is not among them. */
  lemma {:induction false} StoreMore(s: State, i: nat, v: nat, g: nat, keep: int) returns (s': State)
    requires i < |s.cleaners| && s.cache.Keys == s.stored.Keys && g !in s.stored && v in s.stored
    requires keep > 0 && !Outranked(s.stored.Keys, v, keep)
    ensures Reaches(s, s', keep) && s'.cache.Keys == s'.stored.Keys && g !in s'.stored && v in s'.stored
    ensures i < |s'.cleaners| && s'.cleaners[i] == s.cleaners[i]
    ensures |Above(s'.stored.Keys, v)| == keep - 1
    decreases keep - |Above(s.stored.Keys, v)|
  {
    if |Above(s.stored.Keys, v)| == keep - 1 {
      s' := s;
      ReachesSelf(s, keep);
    } else {
      var m := FreshHeight(s.stored.Keys + {g, v});
      var next := Apply(s, Store(m, ""), keep);
      ReachesOne(s, Store(m, ""), keep);
      assert Above(next.stored.Keys, v) == Above(s.stored.Keys, v) + {m};
      s' := StoreMore(next, i, v, g, keep);
      ReachesOn(s, next, s', keep);
    }
  }

  lemma {:induction false} CollectAll(s: State, i: nat, heights: set<nat>, keep: int) returns (s': State)
    requires i < |s.cleaners| && s.cleaners[i].Collecting? && heights <= s.cache.Keys
    ensures Reaches(s, s', keep) && s'.stored == s.stored
    ensures i < |s'.cleaners| && s'.cleaners[i] == Collecting(s.cleaners[i].seen + heights)
    decreases |heights|
  {
    if heights == {} {
      s' := s;
      ReachesSelf(s, keep);
      assert s.cleaners[i].seen + {} == s.cleaners[i].seen;
    } else {
      var x :| x in heights;
      var next := Apply(s, Collect(i, x), keep);
      ReachesOne(s, Collect(i, x), keep);
      s' := CollectAll(next, i, heights - {x}, keep);
      ReachesOn(s, next, s', keep);
      assert s.cleaners[i].seen + {x} + (heights - {x}) == s.cleaners[i].seen + heights;
    }
  }

  lemma OutrankedIsVictim(seen: set<nat>, v: nat, keep: int)
    requires keep > 0 && v in seen && Outranked(seen, v, keep)
    ensures v in Victims(seen, keep)
  {
    CleanupKeepsTheTop(seen, keep);
    assert v !in seen - Elements(Victims(seen, keep));
  }

  /** A cleaner that has collected v, all stored heights above it and one that is not stored deletes v. */
  lemma PlanDoesHarm(s: State, i: nat, v: nat, g: nat, keep: int)
    requires i < |s.cleaners| && s.cleaners[i].Collecting? && keep > 0 && g > v && g !in s.stored
    requires Above(s.stored.Keys, v) + {v, g} <= s.cleaners[i].seen && |Above(s.stored.Keys, v)| == keep - 1
    ensures !TopStays(s, keep)
  {
    var seen, above := s.cleaners[i].seen, Above(s.stored.Keys, v);
    SubsetCardinality(above + {g}, Above(seen, v));
    OutrankedIsVictim(seen, v, keep);
    var s' := Apply(s, Plan(i), keep);
    ReachesOne(s, Plan(i), keep);
    VictimIsLost(s', i, v, keep);
    LeadsToLoss(s, s', keep);
  }

  lemma NothingBetween(stored: set<nat>, g: nat)
    requires g > 0 && g !in stored
    ensures Above(stored, g - 1) == Above(stored, g)
  {
  }

  /** A height that the cleaner counts although it is gone makes it delete a height that it should keep. */
  lemma GhostDoesHarm(s: State, i: nat, g: nat, keep: int)
    requires i < |s.cleaners| && s.cleaners[i].Collecting? && g in s.cleaners[i].seen
    requires keep > 0 && s.cache.Keys == s.stored.Keys && !SafeToCount(s.stored.Keys, g, keep)
    ensures !TopStays(s, keep)
  {
    var v := g - 1;
    var s1 := StoreIt(s, i, v, keep);
    NothingBetween(s.stored.Keys, g);
    var s2 := StoreMore(s1, i, v, g, keep);
    ReachesOn(s, s1, s2, keep);
    var s3 := CollectAll(s2, i, Above(s2.stored.Keys, v) + {v}, keep);
    ReachesOn(s, s2, s3, keep);
    PlanDoesHarm(s3, i, v, g, keep);
    LeadsToLoss(s, s3, keep);
  }

  // ----- the result -----

  lemma SafeIsRetained(s: State, keep: int)
    requires s.cache == s.stored && AllSafe(s, keep)
    ensures TopStays(s, keep)
  {
    forall steps | Runs(s, steps, keep)
      ensures TopCached(After(s, steps, keep), keep)
    {
      RunRetains(s, steps, keep);
    }
  }

  /**
   After a reset the largest remaining heights, and those stored later, stay cached in every run exactly when each
   cleaner under way is safe for what remains: it is about to delete only heights with `keep` larger ones, and it
   counts no height that is gone and has fewer than `keep` larger ones (height 0 aside).
   */
  lemma ResetKeepsTopIff(s: State, height: nat, keep: int)
    ensures TopStays(ResetTo(s, height), keep) <==> AllSafe(ResetTo(s, height), keep)
  {
    var s' := ResetTo(s, height);
    if AllSafe(s', keep) {
      SafeIsRetained(s', keep);
    } else {
      var i :| 0 <= i < |s'.cleaners| && !SafeCleaner(s'.cleaners[i], s'.stored.Keys, keep);
      match s'.cleaners[i]
      case Deleting(victims) =>
        var v :| v in victims && !(keep > 0 && Outranked(s'.stored.Keys, v, keep));
        VictimIsLost(s', i, v, keep);
      case Collecting(seen) =>
        var g :| g in seen && !SafeToCount(s'.stored.Keys, g, keep);
        GhostDoesHarm(s', i, g, keep);
    }
  }
}
