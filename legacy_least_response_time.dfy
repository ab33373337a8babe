/** The standalone least response time (algorithms/least_response_time.py): one latest
    response time per healthy server, kept in a dict whose insertion order decides ties,
    and a pick of the first server with the smallest time. */
module LegacyLeastResponseTime {
  import opened Common

  /** The keys of `{server: 0 for server in servers}`: each server once, at its first
      occurrence, since inserting a key already present keeps its place. */
  function Dedup(xs: seq<Server>): (r: seq<Server>)
    ensures Distinct(r)
    ensures forall s :: s in r <==> s in xs
    ensures xs != [] ==> r != [] && r[0] == xs[0]
    ensures Distinct(xs) ==> r == xs
  {
    if xs == [] then []
    else
      var n := |xs|;
      var before := Dedup(xs[..n - 1]);
      assert xs == xs[..n - 1] + [xs[n - 1]];
      assert forall s :: s in xs <==> s in xs[..n - 1] || s == xs[n - 1];
      assert Distinct(xs) ==> Distinct(xs[..n - 1]) && xs[n - 1] !in xs[..n - 1];
      if xs[n - 1] in before then before
      else
        DistinctSnoc(before, xs[n - 1]);
        before + [xs[n - 1]]
  }

  /** One more server: a repeated one changes nothing, a new one becomes the last key. */
  lemma DedupSnoc(xs: seq<Server>, y: Server)
    ensures Dedup(xs + [y]) == if y in xs then Dedup(xs) else Dedup(xs) + [y]
  {
    assert (xs + [y])[..|xs|] == xs;
  }

  /** The key order after `pop(x)`: `x` gone, everything else in place. */
  function Without(xs: seq<Server>, x: Server): (r: seq<Server>)
    ensures forall s :: s in r <==> s in xs && s != x
    ensures Distinct(xs) ==> Distinct(r)
    ensures |r| <= |xs|
    ensures x !in xs ==> r == xs
  {
    if xs == [] then []
    else
      var rest := Without(xs[1..], x);
      assert xs == [xs[0]] + xs[1..];
      assert forall s :: s in xs <==> s == xs[0] || s in xs[1..];
      assert Distinct(xs) ==> Distinct(xs[1..]) && xs[0] !in xs[1..];
      if xs[0] == x then rest else [xs[0]] + rest
  }

  /** Popping a key that sits at position `k` of a duplicate-free order removes that
      position and keeps the others in order. */
  lemma {:induction false} WithoutAt(xs: seq<Server>, k: nat)
    requires Distinct(xs) && k < |xs|
    ensures Without(xs, xs[k]) == xs[..k] + xs[k + 1..]
  {
    assert Distinct(xs[1..]);
    if k == 0 {
      assert xs[0] !in xs[1..];
      assert xs[1..] == xs[..0] + xs[1..];
    } else {
      assert xs[0] != xs[k];
      WithoutAt(xs[1..], k - 1);
      assert xs[1..][k - 1] == xs[k];
      assert xs[1..][..k - 1] + xs[1..][k..] == xs[1..k] + xs[k + 1..];
      assert xs[..k] == [xs[0]] + xs[1..k];
    }
  }

  /** The position `min(keys, key=times.get)` returns: a smallest time, and the first
      one in key order, since the scan only replaces its candidate on a strictly
      smaller time. */
  function FirstMin(keys: seq<Server>, times: map<Server, real>): (i: nat)
    requires keys != [] && forall k :: k in keys ==> k in times
    ensures i < |keys|
    ensures forall j :: 0 <= j < |keys| ==> times[keys[i]] <= times[keys[j]]
    ensures forall j :: 0 <= j < i ==> times[keys[i]] < times[keys[j]]
  {
    var n := |keys|;
    if n == 1 then 0
    else
      assert forall k :: k in keys[..n - 1] ==> k in keys;
      var i := FirstMin(keys[..n - 1], times);
      assert keys[..n - 1][i] == keys[i];
      assert forall j :: 0 <= j < n - 1 ==> keys[..n - 1][j] == keys[j];
      if times[keys[n - 1]] < times[keys[i]] then n - 1 else i
  }

  /** When every time is equal, as right after start-up, the first key wins. */
  lemma EqualTimesPickFirst(keys: seq<Server>, times: map<Server, real>)
    requires keys != [] && forall k :: k in keys ==> k in times
    requires forall k :: k in keys ==> times[k] == times[keys[0]]
    ensures FirstMin(keys, times) == 0
  {
    var i := FirstMin(keys, times);
    assert keys[i] in keys && keys[0] in keys;
  }

  class LeastResponseTimeLoadBalancer {
    const servers: seq<Server>
    var keys: seq<Server>
    var times: map<Server, real>
    var healthyServers: set<Server>

    /** The dict has each key once, holds times for exactly the healthy servers, and
        `keys` is its iteration order. */
    ghost predicate Valid()
      reads this
    {
      Distinct(keys) && (forall s :: s in keys <==> s in times) && times.Keys == healthyServers
    }

    /** Every listed server starts healthy with a time of zero. */
    constructor (servers: seq<Server>)
      ensures Valid()
      ensures this.servers == servers && keys == Dedup(servers)
      ensures times == map s | s in servers :: 0.0
      ensures healthyServers == set s | s in servers
    {
      this.servers := servers;
      keys := Dedup(servers);
      times := map s | s in servers :: 0.0;
      healthyServers := set s | s in servers;
    }

    /** A healthy server loses its entry; a no-op otherwise. */
    method MarkUnhealthy(server: Server)
      requires Valid()
      modifies this`keys, this`times, this`healthyServers
      ensures Valid()
      ensures healthyServers == old(healthyServers) - {server}
      ensures times == old(times) - {server}
      ensures keys == if old(server in healthyServers) then Without(old(keys), server) else old(keys)
    {
      if server in healthyServers {
        healthyServers := healthyServers - {server};
        keys := Without(keys, server);
        times := times - {server};
      }
    }

    /** An unhealthy server rejoins with a time of zero, as the newest key, so it now
        loses every tie. */
    method MarkHealthy(server: Server)
      requires Valid()
      modifies this`keys, this`times, this`healthyServers
      ensures Valid()
      ensures healthyServers == old(healthyServers) + {server}
      ensures old(server in healthyServers) ==> keys == old(keys) && times == old(times)
      ensures old(server !in healthyServers) ==> keys == old(keys) + [server] && times == old(times)[server := 0.0]
    {
      if server !in healthyServers {
        healthyServers := healthyServers + {server};
        if server !in times {
          DistinctSnoc(keys, server);
          keys := keys + [server];
        }
        times := times[server := 0.0];
      }
    }

    /** `assign_request`, with the simulated processing time as a parameter: None when
        no server is healthy; otherwise the first key with the smallest time, whose time
        becomes `processingTime`. The chosen server is healthy and no healthy server has
        a smaller time. */
    method AssignRequest(processingTime: real) returns (r: Option<Server>)
      requires Valid()
      modifies this`times
      ensures Valid()
      ensures r.None? <==> healthyServers == {}
      ensures r.None? ==> times == old(times)
      ensures r.Some? ==> r.value == keys[FirstMin(keys, old(times))] && times == old(times)[r.value := processingTime]
      ensures r.Some? ==> r.value in healthyServers && forall s :: s in healthyServers ==> old(times)[r.value] <= old(times)[s]
    {
      if healthyServers == {} {
        return None;
      }
      var some :| some in healthyServers;
      assert some in keys;
      var i := FirstMin(keys, times);
      var selected := keys[i];
      forall s | s in healthyServers
        ensures times[selected] <= times[s]
      {
        var j :| 0 <= j < |keys| && keys[j] == s;
      }
      times := times[selected := processingTime];
      return Some(selected);
    }
  }

  /** Right after start-up every time is zero, so the first request goes to the first
      listed server. */
  lemma FirstRequestGoesFirst(servers: seq<Server>)
    requires servers != []
    ensures var times := map s | s in servers :: 0.0;
            Dedup(servers)[FirstMin(Dedup(servers), times)] == servers[0]
  {
    var times := map s | s in servers :: 0.0;
    EqualTimesPickFirst(Dedup(servers), times);
  }
}
