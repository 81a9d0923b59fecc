/** Sets of heights in ascending order. */
module SortedHeights {
  import opened Machine

  ghost function Lowest(s: set<nat>): (m: nat)
    requires s != {}
    ensures m in s && forall j | j in s :: m <= j
  {
    LowestExists(s);
    var m :| m in s && forall j | j in s :: m <= j;
    m
  }

  lemma {:induction false} LowestExists(s: set<nat>)
    requires s != {}
    ensures exists m :: m in s && forall j | j in s :: m <= j
    decreases |s|
  {
    var x :| x in s;
    var rest := s - {x};
    assert s == rest + {x};
    if rest == {} {
      assert forall j | j in s :: x <= j;
    } else {
      LowestExists(rest);
      var m :| m in rest && forall j | j in rest :: m <= j;
      var low := Min(m, x);
      assert low in s && forall j | j in s :: low <= j;
    }
  }

  /** The heights of s in ascending order. */
  ghost function Sorted(s: set<nat>): (r: seq<nat>)
    ensures |r| == |s|
    decreases |s|
  {
    if s == {} then [] else [Lowest(s)] + Sorted(s - {Lowest(s)})
  }

  function Above(s: set<nat>, k: nat): set<nat> {
    set j | j in s && j > k
  }

  lemma SubsetCardinality(a: set<nat>, b: set<nat>)
    requires a <= b
    ensures |a| <= |b|
  {
    assert b == a + (b - a);
  }

  /** Of the n lowest heights of s, each leaves at least |s| - n larger ones. */
  lemma {:induction false} LowHeightsHaveLargerOnes(s: set<nat>, n: nat, v: nat)
    requires n <= |s|
    ensures v in Sorted(s)[..n] ==> v in s && |Above(s, v)| >= |s| - n
    decreases |s|
  {
    if v in Sorted(s)[..n] {
      var low := Lowest(s);
      var rest := s - {low};
      if v == low {
        assert Above(s, v) == rest;
      } else {
        assert Sorted(s)[..n] == [low] + Sorted(rest)[..n - 1];
        LowHeightsHaveLargerOnes(rest, n - 1, v);
        SubsetCardinality(Above(rest, v), Above(s, v));
      }
    }
  }

  function Elements(r: seq<nat>): set<nat> {
    set v | v in r
  }

  lemma ElementsConcat(a: seq<nat>, b: seq<nat>)
    ensures Elements(a + b) == Elements(a) + Elements(b)
  {
  }

  lemma TakeCons(m: nat, r: seq<nat>, n: nat)
    requires 0 < n <= |r| + 1
    ensures ([m] + r)[..n] == [m] + r[..n - 1]
    ensures Elements(([m] + r)[..n]) == {m} + Elements(r[..n - 1])
  {
    assert ([m] + r)[..n] == [m] + r[..n - 1];
    ElementsConcat([m], r[..n - 1]);
  }

  lemma SortedTail(s: set<nat>, n: nat)
    requires 0 < n <= |s|
    ensures var rest := s - {Lowest(s)};
      Elements(Sorted(s)[..n]) == {Lowest(s)} + Elements(Sorted(rest)[..n - 1])
  {
    var rest := s - {Lowest(s)};
    var tail := Sorted(rest);
    assert Sorted(s) == [Lowest(s)] + tail;
    TakeCons(Lowest(s), tail, n);
  }

  /** The n first sorted heights are n different ones. */
  lemma {:induction false} SortedPrefix(s: set<nat>, n: nat)
    requires n <= |s|
    ensures Elements(Sorted(s)[..n]) <= s && |Elements(Sorted(s)[..n])| == n
    decreases |s|
  {
    if n > 0 {
      SortedTail(s, n);
      SortedPrefix(s - {Lowest(s)}, n - 1);
    }
  }

  /** They are smaller than all others. */
  lemma {:induction false} SortedPrefixIsLow(s: set<nat>, n: nat, x: nat, y: nat)
    requires n <= |s|
    ensures x in Elements(Sorted(s)[..n]) && y in s - Elements(Sorted(s)[..n]) ==> x < y
    decreases |s|
  {
    if x in Elements(Sorted(s)[..n]) && y in s - Elements(Sorted(s)[..n]) {
      SortedTail(s, n);
      if x != Lowest(s) {
        SortedPrefixIsLow(s - {Lowest(s)}, n - 1, x, y);
      }
    }
  }
}
