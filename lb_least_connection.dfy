/** Least connections (build_from_scratch/src/algorithms/least_connection.py): each healthy
    server's open-connection count, a pick of a least-loaded server, and a nested
    round-robin that breaks ties among the least-loaded ones. */
module LeastConnections {
  import opened Common
  import opened Base
  import opened RoundRobin

  /** `self.connections.get(server, 0)`: a server without an entry has no connections. */
  function CountOf(connections: map<Server, nat>, s: Server): nat
  {
    if s in connections then connections[s] else 0
  }

  /** The values of the `healthy_connections` dict, in the healthy set's iteration order. */
  function Counts(order: seq<Server>, connections: map<Server, nat>): (cs: seq<int>)
    ensures |cs| == |order|
    ensures forall i :: 0 <= i < |order| ==> cs[i] == CountOf(connections, order[i])
  {
    seq(|order|, i requires 0 <= i < |order| => CountOf(connections, order[i]) as int)
  }

  /** The servers of `order` holding exactly `k` connections, in the order of `order`. */
  function WithCount(order: seq<Server>, connections: map<Server, nat>, k: int): (c: seq<Server>)
    ensures forall s :: s in c <==> s in order && CountOf(connections, s) == k
    ensures Distinct(order) ==> Distinct(c)
    ensures |c| <= |order|
  {
    if order == [] then []
    else
      var n := |order|;
      var rest := WithCount(order[..n - 1], connections, k);
      assert Distinct(order) ==> order[n - 1] !in order[..n - 1];
      if CountOf(connections, order[n - 1]) == k then rest + [order[n - 1]] else rest
  }

  /** The `candidates` list: the healthy servers holding the fewest connections. */
  function Candidates(order: seq<Server>, connections: map<Server, nat>): (c: seq<Server>)
    ensures order != [] <==> c != []
    ensures forall s :: s in c ==> s in order
    ensures forall s, t :: s in c && t in order ==> CountOf(connections, s) <= CountOf(connections, t)
    ensures forall s, t :: s in c && t in order && CountOf(connections, t) <= CountOf(connections, s) ==> t in c
  {
    if order == [] then []
    else
      var cs := Counts(order, connections);
      var least := MinOf(cs);
      var i :| 0 <= i < |cs| && cs[i] == least;
      assert order[i] in WithCount(order, connections, least);
      assert forall t :: t in order ==> exists j :: 0 <= j < |order| && order[j] == t && cs[j] == CountOf(connections, t);
      WithCount(order, connections, least)
  }

  /** What `assign_server` returns and the nested round-robin's cursor afterwards, for
      the healthy list `order`, the order `tieOrder` in which the set of tied candidates
      iterates, the counters and the nested cursor `rrIndex`. */
  function Pick(order: seq<Server>, tieOrder: seq<Server>, connections: map<Server, nat>, rrIndex: nat)
    : (r: (Option<Server>, nat))
    ensures r.1 != rrIndex ==> |Candidates(order, connections)| > 1
    ensures r.0.Some? ==> r.0.value in Candidates(order, connections) || r.0.value in tieOrder
  {
    if order == [] then (None, rrIndex)
    else
      var candidates := Candidates(order, connections);
      if |candidates| > 1 then Step(tieOrder, rrIndex) else (Some(candidates[0]), rrIndex)
  }

  /** None exactly when no server is healthy; otherwise a healthy server with the fewest
      connections, taken from the tied candidates. */
  lemma PickIsLeast(order: seq<Server>, tieOrder: seq<Server>, connections: map<Server, nat>, rrIndex: nat)
    requires Enumerates(tieOrder, set s | s in Candidates(order, connections))
    ensures Pick(order, tieOrder, connections, rrIndex).0.None? <==> order == []
    ensures var r := Pick(order, tieOrder, connections, rrIndex).0;
            r.Some? ==> r.value in Candidates(order, connections) && r.value in order &&
                        forall t :: t in order ==> CountOf(connections, r.value) <= CountOf(connections, t)
  {
    var candidates := Candidates(order, connections);
    if |candidates| > 1 {
      assert candidates[0] in tieOrder;
      var i := rrIndex % |tieOrder|;
      assert tieOrder[i] in tieOrder;
    }
  }

  /** With a unique least-loaded server, that server is chosen and the nested cursor
      does not move. */
  lemma UniqueLeastChosen(order: seq<Server>, tieOrder: seq<Server>, connections: map<Server, nat>, rrIndex: nat, s: Server)
    requires Distinct(order) && s in order
    requires forall t :: t in order && t != s ==> CountOf(connections, s) < CountOf(connections, t)
    ensures Pick(order, tieOrder, connections, rrIndex) == (Some(s), rrIndex)
  {
    var candidates := Candidates(order, connections);
    assert s in candidates;
    assert Distinct(candidates) by {
      var least := MinOf(Counts(order, connections));
      assert candidates == WithCount(order, connections, least);
    }
    forall t | t in candidates
      ensures t == s
    {
      assert CountOf(connections, t) <= CountOf(connections, s);
    }
    DistinctConstant(candidates, s);
  }

  /** The counters after `assign_server` selected `r`: only the selected server's
      counter changes, rising by one; nothing changes when no server was selected. */
  function Bumped(connections: map<Server, nat>, r: Option<Server>): (c: map<Server, nat>)
    ensures r.None? ==> c == connections
    ensures r.Some? ==> c.Keys == connections.Keys + {r.value} &&
                        CountOf(c, r.value) == CountOf(connections, r.value) + 1 &&
                        forall s :: s != r.value ==> CountOf(c, s) == CountOf(connections, s)
  {
    if r.None? then connections else connections[r.value := CountOf(connections, r.value) + 1]
  }

  /** The counters after `complete_request(server)`: a present, positive counter falls
      by one; anything else is left as it is. */
  function Completed(connections: map<Server, nat>, server: Server): (c: map<Server, nat>)
    ensures c.Keys == connections.Keys
    ensures forall s :: s in c && s != server ==> c[s] == connections[s]
    ensures server in connections && connections[server] > 0 ==> c[server] == connections[server] - 1
    ensures server in connections && connections[server] == 0 ==> c[server] == 0
  {
    if server in connections && connections[server] > 0
    then connections[server := connections[server] - 1]
    else connections
  }

  /** A request completed after it was assigned gives every counter back the value it
      had before the assignment. */
  lemma CompleteUndoesAssign(connections: map<Server, nat>, s: Server)
    requires s in connections
    ensures Completed(Bumped(connections, Some(s)), s) == connections
  {
  }

  class LeastConnectionsLoadBalancer {
    const base: BaseLoadBalancer
    var connections: map<Server, nat>
    /** The nested round-robin, with a healthy set of its own. */
    const roundRobin: RoundRobinLoadBalancer

    /** The nested round-robin does not share this balancer's bookkeeping. */
    ghost predicate Valid()
    {
      roundRobin.base != base
    }

    /** Every listed server starts healthy with no connections; the nested
        round-robin is built over the same list. */
    constructor (servers: seq<Server>)
      ensures Valid()
      ensures fresh(base) && base.servers == servers
      ensures forall s :: s in base.healthyServers <==> s in servers
      ensures base.requestCount == 0 && base.errorCount == 0 && base.totalResponseTime == 0.0
      ensures base.Valid()
      ensures connections == map s | s in servers :: 0
      ensures fresh(roundRobin) && fresh(roundRobin.base) && roundRobin.base.servers == servers
      ensures forall s :: s in roundRobin.base.healthyServers <==> s in servers
      ensures roundRobin.currentIndex == 0
    {
      base := new BaseLoadBalancer(servers);
      connections := map s | s in servers :: 0;
      roundRobin := new RoundRobinLoadBalancer(servers);
    }

    /** Selects as `Pick` says. On a tie the nested round-robin runs with its healthy set
        replaced by the candidates, and that set is put back afterwards. The selected
        server's counter rises by one. `order` is the healthy set's iteration order and
        `tieOrder` the candidate set's. */
    method AssignServer(order: seq<Server>, tieOrder: seq<Server>) returns (r: Option<Server>)
      requires Valid()
      requires Enumerates(order, base.healthyServers)
      requires Enumerates(tieOrder, set s | s in Candidates(order, connections))
      modifies this`connections, roundRobin`currentIndex, roundRobin.base`healthyServers
      ensures (r, roundRobin.currentIndex) == Pick(order, tieOrder, old(connections), old(roundRobin.currentIndex))
      ensures connections == Bumped(old(connections), r)
      ensures roundRobin.base.healthyServers == old(roundRobin.base.healthyServers)
      ensures r.None? <==> base.healthyServers == {}
      ensures r.Some? ==> r.value in base.healthyServers
    {
      EnumeratesEmpty(order, base.healthyServers);
      PickIsLeast(order, tieOrder, connections, roundRobin.currentIndex);
      if base.healthyServers == {} {
        return None;
      }
      var healthyConnections := Counts(order, connections);
      var candidates := Candidates(order, connections);
      var selected: Option<Server>;
      if |candidates| > 1 {
        selected := BreakTie(candidates, tieOrder);
      } else {
        selected := Some(candidates[0]);
      }
      connections := Bumped(connections, selected);
      r := selected;
    }

    /** The tie branch: the nested round-robin runs over the candidates as its healthy
        set, which is put back afterwards. */
    method BreakTie(candidates: seq<Server>, tieOrder: seq<Server>) returns (selected: Option<Server>)
      requires Enumerates(tieOrder, set s | s in candidates)
      modifies roundRobin`currentIndex, roundRobin.base`healthyServers
      ensures (selected, roundRobin.currentIndex) == Step(tieOrder, old(roundRobin.currentIndex))
      ensures roundRobin.base.healthyServers == old(roundRobin.base.healthyServers)
    {
      var originalHealthyServers := roundRobin.base.healthyServers;
      roundRobin.base.healthyServers := set s | s in candidates;
      selected := roundRobin.AssignServer(tieOrder);
      roundRobin.base.healthyServers := originalHealthyServers;
    }

    /** Releases one connection of `server` if it has any. */
    method CompleteRequest(server: Server)
      modifies this`connections
      ensures connections == Completed(old(connections), server)
    {
      if server in connections && connections[server] > 0 {
        connections := connections[server := connections[server] - 1];
      }
    }
  }
}
