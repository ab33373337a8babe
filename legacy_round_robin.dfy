/** The standalone round robin (algorithms/round_robin.py): a cursor over the full
    configured list that skips servers not in the healthy set, looking at each position
    at most once per call. */
module LegacyRoundRobin {
  import opened Common

  /** The position `e` steps after `index` in a list of length `n`, wrapping once;
      `e == n` is a full turn back to `index`. */
  function At(index: nat, e: nat, n: nat): (p: nat)
    requires index < n && e <= n
    ensures p < n
  {
    if index + e < n then index + e else index + e - n
  }

  /** The smallest offset `e >= d` whose position holds a healthy server, if any. */
  function FirstHealthy(servers: seq<Server>, healthy: set<Server>, index: nat, d: nat): (r: Option<nat>)
    requires index < |servers| && d <= |servers|
    ensures r.Some? ==> d <= r.value < |servers| && servers[At(index, r.value, |servers|)] in healthy
    ensures r.Some? ==> forall e :: d <= e < r.value ==> servers[At(index, e, |servers|)] !in healthy
    ensures r.None? ==> forall e :: d <= e < |servers| ==> servers[At(index, e, |servers|)] !in healthy
    decreases |servers| - d
  {
    if d == |servers| then None
    else if servers[At(index, d, |servers|)] in healthy then Some(d)
    else FirstHealthy(servers, healthy, index, d + 1)
  }

  /** What one call of `assign_server` returns and where the cursor is afterwards: the
      first healthy server in cyclic order from the cursor, with the cursor just past it;
      None, with the cursor back where it started, when no position holds one. */
  function Assignment(servers: seq<Server>, healthy: set<Server>, index: nat): (r: (Option<Server>, nat))
    requires servers == [] || index < |servers|
    ensures servers != [] ==> r.1 < |servers|
  {
    if servers == [] then (None, index)
    else
      match FirstHealthy(servers, healthy, index, 0)
      case None => (None, index)
      case Some(e) =>
        var p := At(index, e, |servers|);
        (Some(servers[p]), if p + 1 == |servers| then 0 else p + 1)
  }

  /** None exactly when no listed server is healthy; a returned server is healthy. */
  lemma AssignmentNone(servers: seq<Server>, healthy: set<Server>, index: nat)
    requires servers == [] || index < |servers|
    ensures Assignment(servers, healthy, index).0.None? <==> forall i :: 0 <= i < |servers| ==> servers[i] !in healthy
    ensures Assignment(servers, healthy, index).0.Some? ==> Assignment(servers, healthy, index).0.value in healthy
  {
    var n := |servers|;
    if servers != [] && FirstHealthy(servers, healthy, index, 0).None? {
      forall i | 0 <= i < n
        ensures servers[i] !in healthy
      {
        var e := if index <= i then i - index else i + n - index;
        assert At(index, e, n) == i;
      }
    }
  }

  /** The results of `k` consecutive calls with an unchanged healthy set. */
  function Calls(servers: seq<Server>, healthy: set<Server>, index: nat, k: nat): (c: seq<Option<Server>>)
    requires servers == [] || index < |servers|
    ensures |c| == k
    decreases k
  {
    if k == 0 then []
    else
      var (r, next) := Assignment(servers, healthy, index);
      [r] + Calls(servers, healthy, next, k - 1)
  }

  /** With every server healthy, the calls from position `j` to the end of the list
      return the rest of the list in order. */
  lemma {:induction false} CallsAllHealthy(servers: seq<Server>, healthy: set<Server>, j: nat)
    requires j < |servers|
    requires forall i :: 0 <= i < |servers| ==> servers[i] in healthy
    ensures forall i :: j <= i < |servers| ==> Calls(servers, healthy, j, |servers| - j)[i - j] == Some(servers[i])
    decreases |servers| - j
  {
    var n := |servers|;
    assert FirstHealthy(servers, healthy, j, 0) == Some(0);
    if j + 1 < n {
      CallsAllHealthy(servers, healthy, j + 1);
    }
  }

  /** Hence `n` calls from a fresh balancer with every server healthy return the list in order. */
  lemma FullCycleInOrder(servers: seq<Server>, healthy: set<Server>)
    requires servers != []
    requires forall i :: 0 <= i < |servers| ==> servers[i] in healthy
    ensures forall i :: 0 <= i < |servers| ==> Calls(servers, healthy, 0, |servers|)[i] == Some(servers[i])
  {
    CallsAllHealthy(servers, healthy, 0);
  }

  class LoadBalancer {
    const servers: seq<Server>
    var index: nat
    var healthyServers: set<Server>

    /** The cursor points into the list, or is 0 for an empty list. */
    ghost predicate Valid()
      reads this
    {
      servers == [] || index < |servers|
    }

    constructor (servers: seq<Server>)
      ensures Valid()
      ensures this.servers == servers && index == 0
      ensures healthyServers == set s | s in servers
    {
      this.servers := servers;
      index := 0;
      healthyServers := set s | s in servers;
    }

    /** Removes `server` from the healthy set, if there; the list is untouched. */
    method MarkUnhealthy(server: Server)
      modifies this`healthyServers
      ensures healthyServers == old(healthyServers) - {server}
    {
      healthyServers := healthyServers - {server};
    }

    /** Scans at most one full turn from the cursor, as `Assignment` says. The argument
        is accepted and has no effect: the scan reads only the configured list. */
    method AssignServer(requested: Option<seq<Server>>) returns (r: Option<Server>)
      requires Valid()
      modifies this`index
      ensures Valid()
      ensures (r, index) == Assignment(servers, healthyServers, old(index))
    {
      if servers == [] {
        return None;
      }
      var n := |servers|;
      ghost var start := index;
      var t := 0;
      while t < n
        invariant 0 <= t <= n
        invariant index == At(start, t, n)
        invariant FirstHealthy(servers, healthyServers, start, 0) == FirstHealthy(servers, healthyServers, start, t)
      {
        var server := servers[index];
        ModNext(index, n);
        index := (index + 1) % n;
        if server in healthyServers {
          return Some(server);
        }
        t := t + 1;
      }
      return None;
    }
  }
}
