/** The "smooth" weighted round robin of build_from_scratch/src/algorithms/weighted_round_robin.py,
    as written: among the healthy servers it picks the first one whose weight is strictly
    maximal and positive, then rewrites the weights of all healthy servers, giving the chosen
    one 2w - S (S the sum of the healthy weights) and doubling every other one.
    This keeps S but is not the textbook algorithm: a weight that reaches 0 stays 0. */
module WeightedRoundRobin {
  import opened Common
  import opened Base

  /** `self.weights.get(server, 1)`: a server without a weight counts as weight 1. */
  function WeightOf(weights: map<Server, int>, s: Server): int
  {
    if s in weights then weights[s] else 1
  }

  /** The values of the `healthy_weights` dict, in the healthy set's iteration order. */
  function HealthyWeights(order: seq<Server>, weights: map<Server, int>): (ws: seq<int>)
    ensures |ws| == |order|
    ensures forall i :: 0 <= i < |order| ==> ws[i] == WeightOf(weights, order[i])
  {
    seq(|order|, i requires 0 <= i < |order| => WeightOf(weights, order[i]))
  }

  /** Position k holds the first strictly maximal weight, and that weight is positive. */
  predicate FirstMaximal(ws: seq<int>, k: int)
  {
    && 0 <= k < |ws|
    && ws[k] > 0
    && (forall i :: 0 <= i < |ws| ==> ws[i] <= ws[k])
    && (forall i :: 0 <= i < k ==> ws[i] < ws[k])
  }

  /** The selection loop over `ws`: the position of `selected_server` (-1 while it is
      None) and `highest_weight`, which starts at 0 and is replaced only by a strictly
      larger weight. */
  function Scan(ws: seq<int>): (r: (int, int))
    ensures -1 <= r.0 < |ws|
    ensures r.0 == -1 <==> forall i :: 0 <= i < |ws| ==> ws[i] <= 0
    ensures r.0 == -1 ==> r.1 == 0
    ensures r.0 != -1 ==> FirstMaximal(ws, r.0) && r.1 == ws[r.0]
  {
    if ws == [] then (-1, 0)
    else
      var n := |ws|;
      var (k, h) := Scan(ws[..n - 1]);
      assert forall i :: 0 <= i < n - 1 ==> ws[..n - 1][i] == ws[i];
      if ws[n - 1] > h then (n - 1, ws[n - 1]) else (k, h)
  }

  /** What `assign_server` returns for the healthy list `order`. */
  function Choose(order: seq<Server>, weights: map<Server, int>): (r: Option<Server>)
    ensures r.Some? ==> r.value in order
    ensures r.None? <==> order == [] || (|order| >= 2 && forall s :: s in order ==> WeightOf(weights, s) <= 0)
  {
    if order == [] then None
    else if |order| == 1 then Some(order[0])
    else
      var ws := HealthyWeights(order, weights);
      var k := Scan(ws).0;
      assert (forall s :: s in order ==> WeightOf(weights, s) <= 0) <==> forall i :: 0 <= i < |ws| ==> ws[i] <= 0 by {
        assert forall i :: 0 <= i < |ws| ==> order[i] in order;
      }
      if k == -1 then None else Some(order[k])
  }

  /** The rewrite at lines 94-99 of one healthy weight. */
  function NewWeight(w: int, selected: bool, total: int): int
  {
    if selected then w - total + w else w + w
  }

  /** `self.weights` after `assign_server`: unchanged with at most one healthy server,
      otherwise updated with the rewritten weight of every healthy server. */
  function Reweigh(order: seq<Server>, weights: map<Server, int>): (r: map<Server, int>)
    ensures forall s :: s !in order ==> (s in r <==> s in weights)
    ensures forall s :: s !in order && s in weights ==> r[s] == weights[s]
    ensures |order| >= 2 ==> forall s :: s in order ==> s in r
  {
    if |order| <= 1 then weights
    else
      var selected := Choose(order, weights);
      var total := Sum(HealthyWeights(order, weights));
      weights + map s | s in order :: NewWeight(WeightOf(weights, s), selected == Some(s), total)
  }

  /** With no healthy server nothing is selected; with exactly one, it is selected
      and no weight changes. */
  lemma FewHealthy(order: seq<Server>, weights: map<Server, int>)
    requires |order| <= 1
    ensures Choose(order, weights) == (if order == [] then None else Some(order[0]))
    ensures Reweigh(order, weights) == weights
  {
  }

  /** With two or more healthy servers, the one selected is exactly the first
      whose weight is strictly maximal and positive. */
  lemma SelectionIsFirstMaximal(order: seq<Server>, weights: map<Server, int>, k: int)
    requires Distinct(order) && |order| >= 2 && 0 <= k < |order|
    ensures Choose(order, weights) == Some(order[k]) <==> FirstMaximal(HealthyWeights(order, weights), k)
  {
    var ws := HealthyWeights(order, weights);
    var j := Scan(ws).0;
    if FirstMaximal(ws, k) {
      assert j != -1;
      assert ws[j] == ws[k];
    }
  }

  /** A healthy server with weight at most 0 is never selected when two or more
      servers are healthy. */
  lemma NonPositiveNeverSelected(order: seq<Server>, weights: map<Server, int>, s: Server)
    requires |order| >= 2 && s in order && WeightOf(weights, s) <= 0
    ensures Choose(order, weights) != Some(s)
  {
    var k := Scan(HealthyWeights(order, weights)).0;
    if k != -1 {
      assert WeightOf(weights, order[k]) > 0;
    }
  }

  /** If every healthy weight is at most 0, nothing is selected and every healthy
      weight doubles. */
  lemma AllNonPositive(order: seq<Server>, weights: map<Server, int>)
    requires |order| >= 2
    requires forall i :: 0 <= i < |order| ==> WeightOf(weights, order[i]) <= 0
    ensures Choose(order, weights) == None
    ensures forall s :: s in order ==> WeightOf(Reweigh(order, weights), s) == 2 * WeightOf(weights, s)
  {
    var ws := HealthyWeights(order, weights);
    assert forall i :: 0 <= i < |ws| ==> ws[i] <= 0;
  }

  lemma SumSnoc(xs: seq<int>, x: int)
    ensures Sum(xs + [x]) == Sum(xs) + x
  {
    assert (xs + [x])[..|xs|] == xs;
  }

  /** Doubling every element doubles the sum. */
  lemma {:induction false} SumDoubled(xs: seq<int>, ys: seq<int>)
    requires |ys| == |xs| && forall i :: 0 <= i < |xs| ==> ys[i] == 2 * xs[i]
    ensures Sum(ys) == 2 * Sum(xs)
  {
    if xs != [] {
      var n := |xs|;
      SumDoubled(xs[..n - 1], ys[..n - 1]);
    }
  }

  /** Replacing one element changes the sum by the difference. */
  lemma {:induction false} SumUpdate(xs: seq<int>, k: nat, v: int)
    requires k < |xs|
    ensures Sum(xs[k := v]) == Sum(xs) - xs[k] + v
  {
    var n := |xs|;
    if k < n - 1 {
      SumUpdate(xs[..n - 1], k, v);
      assert xs[k := v][..n - 1] == xs[..n - 1][k := v];
    } else {
      assert xs[k := v][..n - 1] == xs[..n - 1];
    }
  }

  /** With two or more healthy servers, each healthy weight is rewritten as `NewWeight` says. */
  lemma ReweighAt(order: seq<Server>, weights: map<Server, int>, i: nat)
    requires |order| >= 2 && i < |order|
    ensures WeightOf(Reweigh(order, weights), order[i]) ==
            NewWeight(WeightOf(weights, order[i]), Choose(order, weights) == Some(order[i]), Sum(HealthyWeights(order, weights)))
  {
    assert order[i] in order;
  }

  /** When a server is selected the sum of the healthy weights is unchanged:
      the selected weight becomes 2w - S and every other one doubles. */
  lemma ReweighKeepsHealthySum(order: seq<Server>, weights: map<Server, int>)
    requires Distinct(order) && |order| >= 2 && Choose(order, weights).Some?
    ensures Sum(HealthyWeights(order, Reweigh(order, weights))) == Sum(HealthyWeights(order, weights))
  {
    var k := ReweighedWeights(order, weights);
    SumRebalanced(HealthyWeights(order, weights), k, HealthyWeights(order, Reweigh(order, weights)));
  }

  /** The healthy weights after a selection at position `k`: doubled, except the
      selected one, which becomes 2w - S. */
  lemma ReweighedWeights(order: seq<Server>, weights: map<Server, int>) returns (k: nat)
    requires Distinct(order) && |order| >= 2 && Choose(order, weights).Some?
    ensures var ws := HealthyWeights(order, weights);
            k < |ws| && HealthyWeights(order, Reweigh(order, weights)) == Doubled(ws)[k := 2 * ws[k] - Sum(ws)]
  {
    var ws := HealthyWeights(order, weights);
    var total := Sum(ws);
    k := Scan(ws).0;
    assert Choose(order, weights) == Some(order[k]);
    var updated := Doubled(ws)[k := 2 * ws[k] - total];
    var after := HealthyWeights(order, Reweigh(order, weights));
    forall i | 0 <= i < |order|
      ensures after[i] == updated[i]
    {
      ReweighAt(order, weights, i);
      if i != k {
        assert order[i] != order[k];
      }
    }
  }

  function Doubled(xs: seq<int>): (ys: seq<int>)
    ensures |ys| == |xs| && forall i :: 0 <= i < |xs| ==> ys[i] == 2 * xs[i]
  {
    seq(|xs|, i requires 0 <= i < |xs| => 2 * xs[i])
  }

  /** Doubling every element but one, which becomes 2x - S, keeps the sum S. */
  lemma SumRebalanced(xs: seq<int>, k: nat, ys: seq<int>)
    requires k < |xs| && ys == Doubled(xs)[k := 2 * xs[k] - Sum(xs)]
    ensures Sum(ys) == Sum(xs)
  {
    var d := Doubled(xs);
    SumDoubled(xs, d);
    SumUpdate(d, k, 2 * xs[k] - Sum(xs));
  }

  /** The dict the rewriting loop builds, merged into the weights, is `Reweigh`. */
  lemma RewriteMatchesReweigh(order: seq<Server>, weights: map<Server, int>, newWeights: map<Server, int>)
    requires Distinct(order) && |order| >= 2
    requires newWeights.Keys == set s | s in order
    requires forall i :: 0 <= i < |order| && (forall j :: i < j < |order| ==> order[j] != order[i]) ==>
               newWeights[order[i]] ==
                 NewWeight(HealthyWeights(order, weights)[i], Choose(order, weights) == Some(order[i]),
                           Sum(HealthyWeights(order, weights)))
    ensures weights + newWeights == Reweigh(order, weights)
  {
    var selected := Choose(order, weights);
    var total := Sum(HealthyWeights(order, weights));
    var m := map s | s in order :: NewWeight(WeightOf(weights, s), selected == Some(s), total);
    forall s | s in order
      ensures newWeights[s] == m[s]
    {
      var i :| 0 <= i < |order| && order[i] == s;
      assert forall j :: i < j < |order| ==> order[j] != order[i];
    }
    assert newWeights == m;
  }

  /** The selections and the final weights of consecutive calls, the i-th call
      seeing the healthy list `orders[i]`. */
  function Replay(orders: seq<seq<Server>>, weights: map<Server, int>): (r: (seq<Option<Server>>, map<Server, int>))
    ensures |r.0| == |orders|
  {
    if orders == [] then ([], weights)
    else
      var n := |orders|;
      var (picks, w) := Replay(orders[..n - 1], weights);
      (picks + [Choose(orders[n - 1], w)], Reweigh(orders[n - 1], w))
  }

  /** Starvation: once a server's weight is 0 and no call sees a single healthy
      server, that server is never selected again and its weight stays 0. */
  lemma {:induction false} ZeroWeightStarves(orders: seq<seq<Server>>, weights: map<Server, int>, s: Server)
    requires s in weights && weights[s] == 0
    requires forall i :: 0 <= i < |orders| ==> |orders[i]| != 1
    ensures Some(s) !in Replay(orders, weights).0
    ensures WeightOf(Replay(orders, weights).1, s) == 0
  {
    if orders != [] {
      var n := |orders|;
      ZeroWeightStarves(orders[..n - 1], weights, s);
      var (picks, w) := Replay(orders[..n - 1], weights);
      var order := orders[n - 1];
      if s in order && |order| >= 2 {
        NonPositiveNeverSelected(order, w, s);
        assert Reweigh(order, w)[s] == NewWeight(0, false, Sum(HealthyWeights(order, w)));
      }
    }
  }

  /** The largest value of a non-empty dict (Python's `max(d.values())`). */
  method MaxValue(m: map<Server, int>) returns (mx: int)
    requires m != map[]
    ensures mx in m.Values
    ensures forall s :: s in m ==> m[s] <= mx
  {
    var first :| first in m;
    mx := m[first];
    var rest := m.Keys - {first};
    while rest != {}
      invariant rest <= m.Keys
      invariant mx in m.Values
      invariant forall s :: s in m && s !in rest ==> m[s] <= mx
      decreases rest
    {
      var s :| s in rest;
      if m[s] > mx {
        mx := m[s];
      }
      rest := rest - {s};
    }
  }

  /** The loop at lines 83-89: the first healthy server whose weight is strictly
      larger than every weight before it and than 0. */
  method SelectHighest(order: seq<Server>, healthyWeights: seq<int>) returns (selected: Option<Server>)
    requires |healthyWeights| == |order|
    ensures selected == if Scan(healthyWeights).0 == -1 then None else Some(order[Scan(healthyWeights).0])
  {
    selected := None;
    var highestWeight := 0;
    var i := 0;
    while i < |order|
      invariant 0 <= i <= |order|
      invariant highestWeight == Scan(healthyWeights[..i]).1
      invariant selected == if Scan(healthyWeights[..i]).0 == -1 then None else Some(order[Scan(healthyWeights[..i]).0])
    {
      assert healthyWeights[..i + 1][..i] == healthyWeights[..i];
      var currentEffectiveWeight := healthyWeights[i];
      if currentEffectiveWeight > highestWeight {
        highestWeight := currentEffectiveWeight;
        selected := Some(order[i]);
      }
      i := i + 1;
    }
    assert healthyWeights[..|order|] == healthyWeights;
  }

  /** The loop at lines 94-99: the rewritten weight of every healthy server. */
  method RewriteWeights(order: seq<Server>, healthyWeights: seq<int>, selected: Option<Server>, total: int)
    returns (newWeights: map<Server, int>)
    requires |healthyWeights| == |order|
    ensures newWeights.Keys == set s | s in order
    ensures forall i :: 0 <= i < |order| && (forall j :: i < j < |order| ==> order[j] != order[i]) ==>
              newWeights[order[i]] == NewWeight(healthyWeights[i], selected == Some(order[i]), total)
  {
    newWeights := map[];
    var i := 0;
    while i < |order|
      invariant 0 <= i <= |order|
      invariant newWeights.Keys == set s | s in order[..i]
      invariant forall k :: 0 <= k < i && (forall j :: k < j < i ==> order[j] != order[k]) ==>
                  newWeights[order[k]] == NewWeight(healthyWeights[k], selected == Some(order[k]), total)
    {
      assert order[..i + 1] == order[..i] + [order[i]];
      newWeights := newWeights[order[i] := NewWeight(healthyWeights[i], selected == Some(order[i]), total)];
      i := i + 1;
    }
    assert order[..|order|] == order;
  }

  class WeightedRoundRobinLoadBalancer {
    const base: BaseLoadBalancer
    var weights: map<Server, int>
    /** Initialised and never read, as in the source. */
    var currentWeight: int
    /** Initialised and never read, as in the source. */
    var currentIndex: int
    var maxWeight: int

    /** Every server gets weight 1 unless a weight dict is given; `maxWeight` is the
        largest given weight, or 0 for an empty dict. */
    constructor (servers: seq<Server>, weights: Option<map<Server, int>>)
      ensures fresh(base) && base.servers == servers
      ensures forall s :: s in base.healthyServers <==> s in servers
      ensures base.requestCount == 0 && base.errorCount == 0 && base.totalResponseTime == 0.0
      ensures base.Valid()
      ensures this.weights == if weights.Some? then weights.value else map s | s in servers :: 1
      ensures this.weights == map[] ==> maxWeight == 0
      ensures this.weights != map[] ==> maxWeight in this.weights.Values
      ensures forall s :: s in this.weights ==> this.weights[s] <= maxWeight
      ensures currentWeight == 0 && currentIndex == 0
    {
      base := new BaseLoadBalancer(servers);
      var w := if weights.None? then map s | s in servers :: 1 else weights.value;
      currentWeight := 0;
      currentIndex := 0;
      var mx := 0;
      if w != map[] {
        mx := MaxValue(w);
      }
      this.weights := w;
      maxWeight := mx;
    }

    /** Selects as `Choose` says and rewrites the weights as `Reweigh` says;
        `order` is the healthy set's iteration order. */
    method AssignServer(order: seq<Server>) returns (r: Option<Server>)
      requires Enumerates(order, base.healthyServers)
      modifies this`weights
      ensures r == Choose(order, old(weights))
      ensures weights == Reweigh(order, old(weights))
    {
      EnumeratesEmpty(order, base.healthyServers);
      if base.healthyServers == {} {
        return None;
      }
      var healthyWeights := HealthyWeights(order, weights);
      ghost var w0 := weights;
      var serverList := order;
      if |serverList| == 1 {
        return Some(serverList[0]);
      }
      var selected := SelectHighest(order, healthyWeights);
      assert selected == Choose(order, w0);
      var total := Sum(healthyWeights);
      var newWeights := RewriteWeights(order, healthyWeights, selected, total);
      RewriteMatchesReweigh(order, w0, newWeights);
      weights := weights + newWeights;
      r := selected;
    }

    /** Sets exactly this server's weight; `maxWeight` becomes the largest weight. */
    method UpdateWeight(server: Server, weight: int)
      modifies this`weights, this`maxWeight
      ensures weights == old(weights)[server := weight]
      ensures maxWeight in weights.Values
      ensures forall s :: s in weights ==> weights[s] <= maxWeight
    {
      weights := weights[server := weight];
      assert server in weights;
      maxWeight := MaxValue(weights);
    }
  }
}
