/** The choice of a node among the healthy ones, by weight. */
module NodeChoice {
  import opened Wrappers

  datatype Node = Node(url: string, weight: int, healthy: bool)

  function Total(weights: seq<int>): int {
    if weights == [] then 0 else Total(weights[..|weights| - 1]) + weights[|weights| - 1]
  }

  /** The first index at which the draw is below the sum of the weights up to there; index 0 if there is none. */
  function Choose(weights: seq<int>, draw: int): nat
    requires weights != []
  {
    ChooseFrom(weights, draw, 0)
  }

  function ChooseFrom(weights: seq<int>, draw: int, i: nat): (k: nat)
    requires weights != [] && i <= |weights|
    ensures k < |weights|
    decreases |weights| - i
  {
    if i == |weights| then 0
    else if draw < Total(weights[..i + 1]) then i
    else ChooseFrom(weights, draw, i + 1)
  }

  /** How many of the draws 0, ..., n - 1 choose the index k. */
  function Count(weights: seq<int>, k: nat, n: nat): (c: nat)
    requires weights != []
    ensures c <= n
  {
    if n == 0 then 0 else Count(weights, k, n - 1) + if Choose(weights, n - 1) == k then 1 else 0
  }

  lemma TotalStep(weights: seq<int>, i: nat)
    requires i < |weights|
    ensures Total(weights[..i + 1]) == Total(weights[..i]) + weights[i]
  {
    assert weights[..i + 1][..i] == weights[..i];
  }

  lemma {:induction false} TotalsAscend(weights: seq<int>, i: nat, j: nat)
    requires i <= j <= |weights| && forall k | 0 <= k < |weights| :: weights[k] >= 0
    ensures Total(weights[..i]) <= Total(weights[..j])
    decreases j
  {
    if i < j {
      TotalsAscend(weights, i, j - 1);
      TotalStep(weights, j - 1);
    }
  }

  /** With weights that are not negative, index k is chosen by the draws between the sums before and behind it. */
  lemma {:induction false} ChosenIffBetween(weights: seq<int>, draw: int, i: nat, k: nat)
    requires forall j | 0 <= j < |weights| :: weights[j] >= 0
    requires i <= k < |weights| && Total(weights[..i]) <= draw < Total(weights)
    ensures ChooseFrom(weights, draw, i) == k <==> Total(weights[..k]) <= draw < Total(weights[..k + 1])
    decreases |weights| - i
  {
    assert weights[..|weights|] == weights;
    if draw < Total(weights[..i + 1]) {
      TotalsAscend(weights, i + 1, if k > i then k else i + 1);
    } else {
      if k > i {
        ChosenIffBetween(weights, draw, i + 1, k);
      } else {
        ChosenBehind(weights, draw, i + 1);
      }
    }
  }

  lemma {:induction false} ChosenBehind(weights: seq<int>, draw: int, i: nat)
    requires weights != [] && i <= |weights| && draw < Total(weights) && Total(weights[..i]) <= draw
    ensures ChooseFrom(weights, draw, i) >= i
    decreases |weights| - i
  {
    assert weights[..|weights|] == weights;
    if i < |weights| && draw >= Total(weights[..i + 1]) {
      ChosenBehind(weights, draw, i + 1);
    }
  }

  lemma {:induction false} CountIs(weights: seq<int>, k: nat, n: nat)
    requires forall j | 0 <= j < |weights| :: weights[j] >= 0
    requires k < |weights| && n <= Total(weights)
    ensures var low, high := Total(weights[..k]), Total(weights[..k + 1]);
      Count(weights, k, n) == if n <= low then 0 else if n <= high then n - low else weights[k]
  {
    TotalsAscend(weights, 0, k);
    TotalStep(weights, k);
    if n > 0 {
      CountIs(weights, k, n - 1);
      ChosenIffBetween(weights, n - 1, 0, k);
    }
  }

  ghost predicate Fair(weights: seq<int>)
    requires weights != [] && Total(weights) > 0
  {
    forall k: nat | k < |weights| :: Count(weights, k, Total(weights)) == weights[k]
  }

  /** Each node is chosen by as many of the draws as its weight says, exactly when no weight is negative. */
  lemma FairIff(weights: seq<int>)
    requires weights != [] && Total(weights) > 0
    ensures Fair(weights) <==> forall j | 0 <= j < |weights| :: weights[j] >= 0
  {
    if forall j | 0 <= j < |weights| :: weights[j] >= 0 {
      forall k: nat | k < |weights|
        ensures Count(weights, k, Total(weights)) == weights[k]
      {
        CountIs(weights, k, Total(weights));
        TotalsAscend(weights, k + 1, |weights|);
        TotalStep(weights, k);
        assert weights[..|weights|] == weights;
      }
    }
    if Fair(weights) {
      forall j | 0 <= j < |weights|
        ensures weights[j] >= 0
      {
        assert Count(weights, j, Total(weights)) == weights[j];
      }
    }
  }

  function Weights(nodes: seq<Node>): seq<int> {
    seq(|nodes|, i requires 0 <= i < |nodes| => nodes[i].weight)
  }

  /** A draw of a random number below the total; a negative total has none. */
  method SelectNodeByWeight(nodes: seq<Node>, draw: nat) returns (node: Option<Node>)
    requires nodes != [] && (Total(Weights(nodes)) > 0 ==> draw < Total(Weights(nodes)))
    ensures node ==
      if Total(Weights(nodes)) < 0 then None
      else if Total(Weights(nodes)) == 0 then Some(nodes[0])
      else Some(nodes[Choose(Weights(nodes), draw)])
  {
    var weights := Weights(nodes);
    var total, i := 0, 0;
    while i < |nodes|
      invariant i <= |nodes| && total == Total(weights[..i])
    {
      TotalStep(weights, i);
      total, i := total + nodes[i].weight, i + 1;
    }
    assert weights[..|nodes|] == weights;
    if total < 0 {
      return None;
    }
    if total == 0 {
      return Some(nodes[0]);
    }
    var current := 0;
    i := 0;
    while i < |nodes|
      invariant i <= |nodes| && current == Total(weights[..i])
      invariant Choose(weights, draw) == ChooseFrom(weights, draw, i)
    {
      TotalStep(weights, i);
      current := current + nodes[i].weight;
      if draw < current {
        return Some(nodes[i]);
      }
      i := i + 1;
    }
    return Some(nodes[0]);
  }

  function Healthy(nodes: seq<Node>): seq<Node> {
    if nodes == [] then []
    else Healthy(nodes[..|nodes| - 1]) + if nodes[|nodes| - 1].healthy then [nodes[|nodes| - 1]] else []
  }

  lemma {:induction false} HealthyIff(nodes: seq<Node>, n: Node)
    ensures n in Healthy(nodes) <==> n in nodes && n.healthy
  {
    if nodes != [] {
      HealthyIff(nodes[..|nodes| - 1], n);
      assert nodes == nodes[..|nodes| - 1] + [nodes[|nodes| - 1]];
    }
  }

  /** Healthy nodes keep their order and their number of copies. */
  lemma {:induction false} HealthyOneByOne(a: seq<Node>, b: seq<Node>)
    ensures Healthy(a + b) == Healthy(a) + Healthy(b)
  {
    if b == [] {
      assert a + b == a;
    } else {
      var front, last := b[..|b| - 1], b[|b| - 1];
      HealthyOneByOne(a, front);
      assert (a + b)[..|a + b| - 1] == a + front && (a + b)[|a + b| - 1] == last;
      var more := if last.healthy then [last] else [];
      assert (Healthy(a) + Healthy(front)) + more == Healthy(a) + (Healthy(front) + more);
    }
  }

  lemma HealthyOne(n: Node)
    ensures Healthy([n]) == if n.healthy then [n] else []
  {
    assert [n][..0] == [];
  }

  /** How many of the first n draws give the node. */
  function Draws(healthy: seq<Node>, node: Node, n: nat): nat
    requires healthy != []
  {
    if n == 0 then 0
    else Draws(healthy, node, n - 1) + if healthy[Choose(Weights(healthy), n - 1)] == node then 1 else 0
  }

  predicate NoTwins(nodes: seq<Node>) {
    forall i, j | 0 <= i < j < |nodes| :: nodes[i] != nodes[j]
  }

  lemma {:induction false} DrawsAreCount(healthy: seq<Node>, k: nat, n: nat)
    requires k < |healthy| && NoTwins(healthy)
    ensures Draws(healthy, healthy[k], n) == Count(Weights(healthy), k, n)
  {
    if n > 0 {
      DrawsAreCount(healthy, k, n - 1);
      var c := Choose(Weights(healthy), n - 1);
      assert healthy[c] == healthy[k] <==> c == k;
    }
  }

  /** Of the draws below the total weight of the healthy nodes, each of them gets its weight, if none is negative. */
  lemma HealthyShare(nodes: seq<Node>, k: nat)
    requires var healthy := Healthy(nodes);
      && k < |healthy| && NoTwins(healthy) && (forall j | 0 <= j < |healthy| :: healthy[j].weight >= 0)
      && Total(Weights(healthy)) > 0
    ensures var healthy := Healthy(nodes);
      Draws(healthy, healthy[k], Total(Weights(healthy))) == healthy[k].weight
  {
    var healthy := Healthy(nodes);
    DrawsAreCount(healthy, k, Total(Weights(healthy)));
    FairIff(Weights(healthy));
    assert Count(Weights(healthy), k, Total(Weights(healthy))) == Weights(healthy)[k];
  }

  /** No node, unless one is healthy; a node that is returned is a healthy one of the pool. */
  method GetHealthyNode(nodes: seq<Node>, draw: nat) returns (node: Option<Node>)
    requires Total(Weights(Healthy(nodes))) > 0 ==> draw < Total(Weights(Healthy(nodes)))
    ensures node.Some? ==> node.value in nodes && node.value.healthy
    ensures node.None? <==> (forall n | n in nodes :: !n.healthy) || Total(Weights(Healthy(nodes))) < 0
    ensures node.Some? ==>
      var healthy := Healthy(nodes);
      healthy != [] &&
      node.value == if Total(Weights(healthy)) == 0 then healthy[0] else healthy[Choose(Weights(healthy), draw)]
  {
    var healthy, i := [], 0;
    while i < |nodes|
      invariant i <= |nodes| && healthy == Healthy(nodes[..i])
    {
      assert nodes[..i + 1][..i] == nodes[..i];
      if nodes[i].healthy {
        healthy := healthy + [nodes[i]];
      }
      i := i + 1;
    }
    assert nodes[..|nodes|] == nodes;
    forall n
      ensures n in healthy <==> n in nodes && n.healthy
    {
      HealthyIff(nodes, n);
    }
    if healthy == [] {
      return None;
    }
    assert healthy[0] in healthy;
    node := SelectNodeByWeight(healthy, draw);
  }
}
