/** The standalone least connections (algorithms/least_connection.py): counters kept for
    the healthy servers only, and ties handed to a nested standalone round robin that
    ignores the tied list it is given and scans its own configured list instead. */
module LegacyLeastConnections {
  import opened Common
  import opened LeastConnections
  import LegacyRoundRobin

  /** What one call ends in: nothing healthy, a selected server, or the KeyError raised
      when the nested round robin returns None and that None is used as a counter key. */
  datatype Assignment = NoServer | Assigned(server: Server) | KeyError

  /** The server `assign_server` goes on to count and the nested cursor afterwards, for
      a non-empty healthy iteration order `order`: the only least-loaded server, or on a
      tie whatever the nested balancer returns from its own list, healthy set and cursor. */
  function Selection(order: seq<Server>, connections: map<Server, nat>,
                     rrServers: seq<Server>, rrHealthy: set<Server>, rrIndex: nat)
    : (r: (Option<Server>, nat))
    requires order != []
    requires rrServers == [] || rrIndex < |rrServers|
    ensures r.1 != rrIndex ==> |Candidates(order, connections)| > 1
    ensures |Candidates(order, connections)| == 1 ==>
              r.0.Some? && r.0.value in order &&
              forall t :: t in order ==> CountOf(connections, r.0.value) <= CountOf(connections, t)
  {
    var candidates := Candidates(order, connections);
    if |candidates| > 1 then LegacyRoundRobin.Assignment(rrServers, rrHealthy, rrIndex)
    else (Some(candidates[0]), rrIndex)
  }

  /** Counting the selection: a missing key, None included, is a KeyError. */
  function Settle(connections: map<Server, nat>, selected: Option<Server>, next: nat)
    : (r: (Assignment, map<Server, nat>, nat))
    ensures r.0 != NoServer && r.2 == next
    ensures r.0.Assigned? <==> selected.Some? && selected.value in connections
    ensures r.0 == KeyError ==> r.1 == connections
    ensures r.0.Assigned? ==>
              r.0.server == selected.value && r.1.Keys == connections.Keys &&
              r.1[r.0.server] == connections[r.0.server] + 1 &&
              forall s :: s in connections && s != r.0.server ==> r.1[s] == connections[s]
  {
    if selected.None? || selected.value !in connections then (KeyError, connections, next)
    else (Assigned(selected.value), Bumped(connections, selected), next)
  }

  /** The outcome of `assign_server`, the counters afterwards and the nested cursor
      afterwards. */
  function Outcome(order: seq<Server>, connections: map<Server, nat>,
                   rrServers: seq<Server>, rrHealthy: set<Server>, rrIndex: nat)
    : (r: (Assignment, map<Server, nat>, nat))
    requires rrServers == [] || rrIndex < |rrServers|
    ensures r.0 == NoServer <==> order == []
    ensures r.0.Assigned? ==> r.0.server in connections && r.1.Keys == connections.Keys
    ensures !r.0.Assigned? ==> r.1 == connections
  {
    if order == [] then (NoServer, connections, rrIndex)
    else
      var selection := Selection(order, connections, rrServers, rrHealthy, rrIndex);
      Settle(connections, selection.0, selection.1)
  }

  /** With counters exactly for the healthy set and a nested healthy set inside it:
      nothing is returned exactly when no server is healthy; a returned server is
      healthy, and it is the least loaded unless there was a tie; a KeyError happens
      only on a tie when the nested balancer has no healthy server left. */
  lemma OutcomeCases(order: seq<Server>, connections: map<Server, nat>,
                     rrServers: seq<Server>, rrHealthy: set<Server>, rrIndex: nat)
    requires rrServers == [] || rrIndex < |rrServers|
    requires Enumerates(order, connections.Keys) && rrHealthy <= connections.Keys
    ensures var (a, _, _) := Outcome(order, connections, rrServers, rrHealthy, rrIndex);
            (a == NoServer <==> connections.Keys == {}) &&
            (a.Assigned? ==> a.server in connections) &&
            (a.Assigned? && |Candidates(order, connections)| == 1 ==>
               forall t :: t in connections ==> connections[a.server] <= connections[t]) &&
            (a == KeyError ==>
               |Candidates(order, connections)| > 1 &&
               forall i :: 0 <= i < |rrServers| ==> rrServers[i] !in rrHealthy)
  {
    EnumeratesEmpty(order, connections.Keys);
    if order != [] {
      var candidates := Candidates(order, connections);
      if |candidates| > 1 {
        LegacyRoundRobin.AssignmentNone(rrServers, rrHealthy, rrIndex);
      } else {
        assert candidates[0] in candidates;
        forall t | t in connections
          ensures CountOf(connections, candidates[0]) <= CountOf(connections, t)
        {
          assert t in order;
        }
      }
    }
  }

  /** Conversely, a tie that the nested balancer answers with None is a KeyError. */
  lemma TieWithoutNestedHealthy(order: seq<Server>, connections: map<Server, nat>,
                                rrServers: seq<Server>, rrHealthy: set<Server>, rrIndex: nat)
    requires rrServers == [] || rrIndex < |rrServers|
    requires order != [] && |Candidates(order, connections)| > 1
    requires LegacyRoundRobin.Assignment(rrServers, rrHealthy, rrIndex).0.None?
    ensures Outcome(order, connections, rrServers, rrHealthy, rrIndex).0 == KeyError
  {
  }

  /** A tie can hand the request to a busier server: with A holding one connection and
      B and C none, the nested cursor at the start of [A, B, C] selects A. */
  lemma TieMayPickBusier()
    ensures var connections := map["A" := 1, "B" := 0, "C" := 0];
            Outcome(["A", "B", "C"], connections, ["A", "B", "C"], {"A", "B", "C"}, 0).0 == Assigned("A")
  {
    var order: seq<Server> := ["A", "B", "C"];
    var connections := map["A" := 1, "B" := 0, "C" := 0];
    TwoZerosTie(order, connections, "B", "C");
    assert LegacyRoundRobin.Assignment(order, {"A", "B", "C"}, 0).0 == Some("A") by {
      assert LegacyRoundRobin.FirstHealthy(order, {"A", "B", "C"}, 0, 0) == Some(0);
    }
  }

  /** Two healthy servers without connections tie. */
  lemma TwoZerosTie(order: seq<Server>, connections: map<Server, nat>, s: Server, t: Server)
    requires s in order && t in order && s != t && CountOf(connections, s) == 0 && CountOf(connections, t) == 0
    ensures |Candidates(order, connections)| > 1
  {
    var candidates := Candidates(order, connections);
    assert candidates[0] in candidates;
    TwoMembers(candidates, s, t);
  }

  class LeastConnectionsLoadBalancer {
    const servers: seq<Server>
    var connections: map<Server, nat>
    var healthyServers: set<Server>
    const roundRobin: LegacyRoundRobin.LoadBalancer

    /** Counters are kept for exactly the healthy servers; the nested balancer, over the
        same list, only ever loses servers from its healthy set, so that set stays
        inside this one. */
    ghost predicate Valid()
      reads this, roundRobin
    {
      connections.Keys == healthyServers &&
      roundRobin.healthyServers <= healthyServers &&
      roundRobin.servers == servers && roundRobin.Valid()
    }

    constructor (servers: seq<Server>)
      ensures Valid()
      ensures this.servers == servers && healthyServers == set s | s in servers
      ensures connections == map s | s in servers :: 0
      ensures fresh(roundRobin) && roundRobin.index == 0 && roundRobin.healthyServers == healthyServers
    {
      this.servers := servers;
      connections := map s | s in servers :: 0;
      healthyServers := set s | s in servers;
      roundRobin := new LegacyRoundRobin.LoadBalancer(servers);
    }

    /** A healthy server leaves the healthy set, the counters and the nested healthy set. */
    method MarkUnhealthy(server: Server)
      requires Valid()
      modifies this`healthyServers, this`connections, roundRobin`healthyServers
      ensures Valid()
      ensures healthyServers == old(healthyServers) - {server}
      ensures connections == old(connections) - {server}
      ensures roundRobin.healthyServers ==
                if old(server in healthyServers) then old(roundRobin.healthyServers) - {server}
                else old(roundRobin.healthyServers)
    {
      if server in healthyServers {
        healthyServers := healthyServers - {server};
        connections := connections - {server};
        roundRobin.MarkUnhealthy(server);
      }
    }

    /** An unhealthy server rejoins with a zero counter; the nested balancer is not told. */
    method MarkHealthy(server: Server)
      requires Valid()
      modifies this`healthyServers, this`connections
      ensures Valid()
      ensures healthyServers == old(healthyServers) + {server}
      ensures connections == if old(server in healthyServers) then old(connections) else old(connections)[server := 0]
    {
      if server !in healthyServers {
        healthyServers := healthyServers + {server};
        connections := connections[server := 0];
      }
    }

    /** The server about to be counted: the only least-loaded one, or the nested
        balancer's answer on a tie. */
    method SelectServer(order: seq<Server>) returns (selected: Option<Server>)
      requires Valid() && order != []
      modifies roundRobin`index
      ensures Valid()
      ensures (selected, roundRobin.index) ==
                Selection(order, connections, servers, roundRobin.healthyServers, old(roundRobin.index))
    {
      var candidates := Candidates(order, connections);
      if |candidates| > 1 {
        selected := roundRobin.AssignServer(Some(candidates));
      } else {
        selected := Some(candidates[0]);
      }
    }

    /** One call, as `Outcome` says; `order` is the healthy set's iteration order. */
    method AssignServer(order: seq<Server>) returns (a: Assignment)
      requires Valid() && Enumerates(order, healthyServers)
      modifies this`connections, roundRobin`index
      ensures Valid()
      ensures (a, connections, roundRobin.index) ==
                Outcome(order, old(connections), servers, roundRobin.healthyServers, old(roundRobin.index))
    {
      EnumeratesEmpty(order, healthyServers);
      if healthyServers == {} {
        return NoServer;
      }
      var selected := SelectServer(order);
      a := Count(selected);
    }

    /** `self.connections[server] += 1` on the selection, as `Settle` says: a KeyError
        when it is None or not counted. */
    method Count(selected: Option<Server>) returns (a: Assignment)
      requires Valid()
      modifies this`connections
      ensures Valid()
      ensures (a, connections, roundRobin.index) == Settle(old(connections), selected, roundRobin.index)
    {
      if selected.None? || selected.value !in connections {
        return KeyError;
      }
      connections := connections[selected.value := connections[selected.value] + 1];
      return Assigned(selected.value);
    }

    /** A present, positive counter falls by one; see `Completed`. */
    method CompleteRequest(server: Server)
      requires Valid()
      modifies this`connections
      ensures Valid()
      ensures connections == Completed(old(connections), server)
    {
      if server in connections && connections[server] > 0 {
        connections := connections[server := connections[server] - 1];
      }
    }
  }

  /** The KeyError is reachable: take both servers down and bring them back, and the
      tie between their zero counters goes to a nested balancer with nothing healthy. */
  method OutageThenTie() returns (a: Assignment)
    ensures a == KeyError
  {
    var lb := new LeastConnectionsLoadBalancer(["A", "B"]);
    lb.MarkUnhealthy("A");
    lb.MarkUnhealthy("B");
    lb.MarkHealthy("A");
    lb.MarkHealthy("B");
    assert lb.healthyServers == {"A", "B"} && lb.connections == map["A" := 0, "B" := 0];
    assert lb.roundRobin.healthyServers == {};
    var order: seq<Server> := ["A", "B"];
    assert Enumerates(order, lb.healthyServers) by {
      assert order[1] in order;
    }
    TwoZerosTie(order, lb.connections, "A", "B");
    assert LegacyRoundRobin.Assignment(lb.servers, {}, lb.roundRobin.index).0.None? by {
      assert LegacyRoundRobin.FirstHealthy(lb.servers, {}, lb.roundRobin.index, 0).None?;
    }
    TieWithoutNestedHealthy(order, lb.connections, lb.servers, {}, lb.roundRobin.index);
    a := lb.AssignServer(order);
  }
}
