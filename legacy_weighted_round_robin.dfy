/** The standalone weighted round robin (algorithms/weighted_round_robin.py): every
    healthy server repeated by its weight in one list, walked by a cursor. The list is
    rebuilt when the healthy set changes, but the cursor is not reset. */
module LegacyWeightedRoundRobin {
  import opened Common

  /** `[server] * weight`: empty for a weight of 0 or less. */
  function Repeat(s: Server, w: int): (r: seq<Server>)
    ensures |r| == if w <= 0 then 0 else w
    ensures forall i :: 0 <= i < |r| ==> r[i] == s
  {
    if w <= 0 then [] else seq(w, _ => s)
  }

  /** The list built from equally long server and weight lists: the healthy servers in
      list order, each repeated by its weight. */
  function Expand(servers: seq<Server>, weights: seq<int>, healthy: set<Server>): (r: seq<Server>)
    requires |servers| == |weights|
    ensures forall x :: x in r ==> x in healthy && x in servers
  {
    if servers == [] then []
    else
      var n := |servers|;
      assert forall x :: x in servers[..n - 1] ==> x in servers;
      Expand(servers[..n - 1], weights[..n - 1], healthy) +
        (if servers[n - 1] in healthy then Repeat(servers[n - 1], weights[n - 1]) else [])
  }

  /** `_create_weighted_list`: `zip` stops at the shorter of the two lists. */
  function WeightedList(servers: seq<Server>, weights: seq<int>, healthy: set<Server>): (r: seq<Server>)
    ensures forall x :: x in r ==> x in healthy && x in servers
    ensures |servers| == |weights| ==> r == Expand(servers, weights, healthy)
  {
    var m := if |servers| < |weights| then |servers| else |weights|;
    assert forall x :: x in servers[..m] ==> x in servers;
    assert |servers| == |weights| ==> servers[..m] == servers && weights[..m] == weights;
    Expand(servers[..m], weights[..m], healthy)
  }

  /** The part of a weight the list repeats, and the total over one server's positions. */
  function Share(w: int): nat
  {
    if w <= 0 then 0 else w
  }

  function HealthyTotal(servers: seq<Server>, weights: seq<int>, healthy: set<Server>): nat
    requires |servers| == |weights|
  {
    if servers == [] then 0
    else
      var n := |servers|;
      HealthyTotal(servers[..n - 1], weights[..n - 1], healthy) +
        (if servers[n - 1] in healthy then Share(weights[n - 1]) else 0)
  }

  /** The summed weight of `s` over the positions it occupies, if it is healthy. */
  function WeightOfServer(servers: seq<Server>, weights: seq<int>, healthy: set<Server>, s: Server): nat
    requires |servers| == |weights|
  {
    if servers == [] then 0
    else
      var n := |servers|;
      WeightOfServer(servers[..n - 1], weights[..n - 1], healthy, s) +
        (if servers[n - 1] == s && s in healthy then Share(weights[n - 1]) else 0)
  }

  /** The list is as long as the healthy weights add up to, and each server occurs in it
      as often as its own weight says; an unhealthy server does not occur at all. */
  lemma {:induction false} ExpandCounts(servers: seq<Server>, weights: seq<int>, healthy: set<Server>, s: Server)
    requires |servers| == |weights|
    ensures |Expand(servers, weights, healthy)| == HealthyTotal(servers, weights, healthy)
    ensures multiset(Expand(servers, weights, healthy))[s] == WeightOfServer(servers, weights, healthy, s)
  {
    if servers != [] {
      var n := |servers|;
      ExpandCounts(servers[..n - 1], weights[..n - 1], healthy, s);
      var block := if servers[n - 1] in healthy then Repeat(servers[n - 1], weights[n - 1]) else [];
      RepeatCount(servers[n - 1], weights[n - 1], s);
      assert multiset(Expand(servers, weights, healthy)) ==
             multiset(Expand(servers[..n - 1], weights[..n - 1], healthy)) + multiset(block);
    }
  }

  lemma {:induction false} RepeatCount(x: Server, w: int, s: Server)
    ensures multiset(Repeat(x, w))[s] == if x == s then Share(w) else 0
    decreases if w <= 0 then 0 else w
  {
    if w > 0 {
      RepeatCount(x, w - 1, s);
      assert Repeat(x, w) == Repeat(x, w - 1) + [x];
    }
  }

  /** With servers listed once, a server's count is its own weight when healthy. */
  lemma {:induction false} WeightOfDistinct(servers: seq<Server>, weights: seq<int>, healthy: set<Server>, i: nat)
    requires |servers| == |weights| && Distinct(servers) && i < |servers|
    ensures WeightOfServer(servers, weights, healthy, servers[i]) == if servers[i] in healthy then Share(weights[i]) else 0
  {
    var n := |servers|;
    if i < n - 1 {
      WeightOfDistinct(servers[..n - 1], weights[..n - 1], healthy, i);
    } else {
      WeightOfAbsent(servers[..n - 1], weights[..n - 1], healthy, servers[i]);
    }
  }

  lemma {:induction false} WeightOfAbsent(servers: seq<Server>, weights: seq<int>, healthy: set<Server>, s: Server)
    requires |servers| == |weights| && s !in servers
    ensures WeightOfServer(servers, weights, healthy, s) == 0
  {
    if servers != [] {
      var n := |servers|;
      WeightOfAbsent(servers[..n - 1], weights[..n - 1], healthy, s);
    }
  }

  /** What one call selects: nothing on an empty list, an IndexError when the cursor is
      past the end of a list that has shrunk, otherwise the entry under the cursor. */
  datatype Assignment = NoServer | Assigned(server: Server) | IndexError

  function Step(list: seq<Server>, index: nat): (r: (Assignment, nat))
    ensures r.0 == NoServer <==> list == []
    ensures r.0 == IndexError <==> list != [] && index >= |list|
    ensures r.0.Assigned? ==> r.0.server == list[index] && r.1 == (index + 1) % |list|
    ensures !r.0.Assigned? ==> r.1 == index
  {
    if list == [] then (NoServer, index)
    else if index >= |list| then (IndexError, index)
    else (Assigned(list[index]), if index + 1 == |list| then 0 else index + 1)
  }

  /** The selections of `k` consecutive calls on an unchanged list. */
  function Run(list: seq<Server>, index: nat, k: nat): (r: seq<Assignment>)
    ensures |r| == k
    decreases k
  {
    if k == 0 then []
    else
      var (a, next) := Step(list, index);
      [a] + Run(list, next, k - 1)
  }

  /** From position `j`, the calls to the end of the list select its entries in order. */
  lemma {:induction false} RunFrom(list: seq<Server>, j: nat)
    requires j < |list|
    ensures forall i :: j <= i < |list| ==> Run(list, j, |list| - j)[i - j] == Assigned(list[i])
    decreases |list| - j
  {
    if j + 1 < |list| {
      RunFrom(list, j + 1);
    }
  }

  /** From index 0, as many calls as the list is long select each entry once, in order;
      so each healthy server is selected exactly as many times as its weight. */
  lemma FullRun(servers: seq<Server>, weights: seq<int>, healthy: set<Server>)
    requires |servers| == |weights| && WeightedList(servers, weights, healthy) != []
    ensures var list := WeightedList(servers, weights, healthy);
            forall i :: 0 <= i < |list| ==> Run(list, 0, |list|)[i] == Assigned(list[i])
  {
    RunFrom(WeightedList(servers, weights, healthy), 0);
  }

  /** The cursor is not reset when the list shrinks: with servers A and B of weight 1,
      the cursor at 1 and B marked unhealthy, the next call indexes past the end. */
  lemma ShrinkCausesIndexError()
    ensures var list := WeightedList(["A", "B"], [1, 1], {"A"});
            list == ["A"] && Step(list, 1).0 == IndexError
  {
    var servers: seq<Server>, weights: seq<int> := ["A", "B"], [1, 1];
    assert Repeat("A", 1) == ["A"];
    assert Expand([], [], {"A"}) == [];
    assert servers[..2][..1] == ["A"] && weights[..2][..1] == [1];
    assert Expand(servers[..2][..1], weights[..2][..1], {"A"}) == ["A"];
    assert servers[..2] == servers && weights[..2] == weights;
  }

  class WeightedRoundRobinLoadBalancer {
    const servers: seq<Server>
    const weights: seq<int>
    var healthyServers: set<Server>
    var weightedList: seq<Server>
    var index: nat

    /** The list always reflects the current healthy set. */
    ghost predicate Valid()
      reads this
    {
      weightedList == WeightedList(servers, weights, healthyServers)
    }

    constructor (servers: seq<Server>, weights: seq<int>)
      ensures Valid()
      ensures this.servers == servers && this.weights == weights
      ensures healthyServers == set s | s in servers && index == 0
    {
      this.servers := servers;
      this.weights := weights;
      healthyServers := set s | s in servers;
      index := 0;
      new;
      weightedList := CreateWeightedList();
    }

    /** `_create_weighted_list`: extends the list server by server along the zip. */
    method CreateWeightedList() returns (weightedList: seq<Server>)
      ensures weightedList == WeightedList(servers, weights, healthyServers)
    {
      var m := if |servers| < |weights| then |servers| else |weights|;
      var zs, zw := servers[..m], weights[..m];
      weightedList := [];
      var i := 0;
      while i < m
        invariant 0 <= i <= m
        invariant weightedList == Expand(zs[..i], zw[..i], healthyServers)
      {
        assert zs[..i + 1][..i] == zs[..i] && zw[..i + 1][..i] == zw[..i];
        var server, weight := zs[i], zw[i];
        if server in healthyServers {
          weightedList := weightedList + Repeat(server, weight);
        }
        i := i + 1;
      }
      assert zs[..m] == zs && zw[..m] == zw;
    }

    /** Removes a healthy server and rebuilds the list; a no-op otherwise. */
    method MarkUnhealthy(server: Server)
      requires Valid()
      modifies this`healthyServers, this`weightedList
      ensures Valid()
      ensures healthyServers == old(healthyServers) - {server}
      ensures old(server !in healthyServers) ==> weightedList == old(weightedList)
    {
      if server in healthyServers {
        healthyServers := healthyServers - {server};
        weightedList := CreateWeightedList();
      }
    }

    /** Adds an unhealthy server and rebuilds the list; a no-op otherwise. */
    method MarkHealthy(server: Server)
      requires Valid()
      modifies this`healthyServers, this`weightedList
      ensures Valid()
      ensures healthyServers == old(healthyServers) + {server}
      ensures old(server in healthyServers) ==> weightedList == old(weightedList)
    {
      if server !in healthyServers {
        healthyServers := healthyServers + {server};
        weightedList := CreateWeightedList();
      }
    }

    /** One call, as `Step` says. The source's loop returns in its first round, so
        there is no loop here. */
    method AssignServer() returns (a: Assignment)
      modifies this`index
      ensures (a, index) == Step(weightedList, old(index))
    {
      if weightedList == [] {
        return NoServer;
      }
      if index >= |weightedList| {
        return IndexError;
      }
      var server := weightedList[index];
      ModNext(index, |weightedList|);
      index := (index + 1) % |weightedList|;
      return Assigned(server);
    }
  }
}
