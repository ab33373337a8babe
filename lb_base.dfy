/** The bookkeeping every balancer shares (build_from_scratch/src/algorithms/base.py):
    the configured server list, the healthy subset, and the request/error/latency
    counters from which the metrics endpoint derives its rates. */
module Base {
  import opened Common

  /** One call of `mark_healthy` or `mark_unhealthy`. */
  datatype Mark = Healthy(server: Server) | Unhealthy(server: Server)

  /** The healthy set after applying `marks` from left to right; each step is the
      set operation the corresponding method performs. */
  function ApplyMarks(healthy: set<Server>, marks: seq<Mark>): set<Server>
  {
    if marks == [] then healthy
    else
      var before := ApplyMarks(healthy, marks[..|marks| - 1]);
      match marks[|marks| - 1]
      case Healthy(s) => before + {s}
      case Unhealthy(s) => before - {s}
  }

  /** Whether the last mark that names `s` was a healthy one; None when no mark names `s`. */
  function LastMark(marks: seq<Mark>, s: Server): Option<bool>
  {
    if marks == [] then None
    else if marks[|marks| - 1].server == s then Some(marks[|marks| - 1].Healthy?)
    else LastMark(marks[..|marks| - 1], s)
  }

  /** Last write wins: after any sequence of marks a server is healthy exactly when
      its last mark was healthy, or, if it was never marked, when it was healthy before. */
  lemma {:induction false} LastMarkWins(healthy: set<Server>, marks: seq<Mark>, s: Server)
    ensures s in ApplyMarks(healthy, marks) <==>
              match LastMark(marks, s)
              case Some(wasHealthy) => wasHealthy
              case None => s in healthy
  {
    if marks != [] {
      LastMarkWins(healthy, marks[..|marks| - 1], s);
    }
  }

  /** The last mark naming a server decides its `LastMark`. */
  lemma {:induction false} LastMarkAt(marks: seq<Mark>, i: nat)
    requires i < |marks|
    requires forall j :: i < j < |marks| ==> marks[j].server != marks[i].server
    ensures LastMark(marks, marks[i].server) == Some(marks[i].Healthy?)
  {
    var n := |marks|;
    if i < n - 1 {
      LastMarkAt(marks[..n - 1], i);
    }
  }

  /** A server no mark names has no `LastMark`. */
  lemma {:induction false} LastMarkAbsent(marks: seq<Mark>, s: Server)
    requires forall j :: 0 <= j < |marks| ==> marks[j].server != s
    ensures LastMark(marks, s) == None
  {
    if marks != [] {
      LastMarkAbsent(marks[..|marks| - 1], s);
    }
  }

  /** Marking twice in a row is the same as marking once. */
  lemma MarkIdempotent(healthy: set<Server>, m: Mark)
    ensures ApplyMarks(healthy, [m, m]) == ApplyMarks(healthy, [m])
  {
    assert [m, m][..1] == [m];
    assert [m][..0] == [];
  }

  /** What the metrics endpoint reports, without the wall-clock fields
      (uptime and requests per second). */
  datatype Metrics = Metrics(
    requestCount: nat,
    errorCount: nat,
    errorRate: real,
    avgResponseTime: real,
    healthyServers: nat,
    totalServers: nat)

  class BaseLoadBalancer {
    /** The configured servers, in configuration order; never reassigned. */
    const servers: seq<Server>
    var healthyServers: set<Server>
    var requestCount: nat
    var errorCount: nat
    var totalResponseTime: real

    /** Every error is also a request. */
    ghost predicate Valid()
      reads this
    {
      errorCount <= requestCount
    }

    /** Every listed server starts healthy and every counter at zero. */
    constructor (servers: seq<Server>)
      ensures this.servers == servers
      ensures forall s :: s in healthyServers <==> s in servers
      ensures requestCount == 0 && errorCount == 0 && totalResponseTime == 0.0
      ensures Valid()
    {
      this.servers := servers;
      healthyServers := set s | s in servers;
      requestCount := 0;
      errorCount := 0;
      totalResponseTime := 0.0;
    }

    /** Adds `server` to the healthy set; a no-op when it is already there. */
    method MarkHealthy(server: Server)
      modifies this`healthyServers
      ensures healthyServers == ApplyMarks(old(healthyServers), [Healthy(server)])
      ensures server in healthyServers
      ensures old(server in healthyServers) ==> healthyServers == old(healthyServers)
    {
      if server !in healthyServers {
        healthyServers := healthyServers + {server};
      }
    }

    /** Removes `server` from the healthy set; a no-op when it is absent.
        The server list itself is untouched. */
    method MarkUnhealthy(server: Server)
      modifies this`healthyServers
      ensures healthyServers == ApplyMarks(old(healthyServers), [Unhealthy(server)])
      ensures server !in healthyServers
      ensures old(server !in healthyServers) ==> healthyServers == old(healthyServers)
    {
      if server in healthyServers {
        healthyServers := healthyServers - {server};
      }
    }

    /** Counts one request, adds its latency, and counts an error iff `error`. */
    method RecordRequestMetrics(server: Server, responseTime: real, error: bool)
      requires Valid()
      modifies this`requestCount, this`errorCount, this`totalResponseTime
      ensures Valid()
      ensures requestCount == old(requestCount) + 1
      ensures totalResponseTime == old(totalResponseTime) + responseTime
      ensures errorCount == old(errorCount) + (if error then 1 else 0)
    {
      requestCount := requestCount + 1;
      totalResponseTime := totalResponseTime + responseTime;
      if error {
        errorCount := errorCount + 1;
      }
    }

    /** The derived rates are the quotients of the counters, and 0 before the
        first request; the error rate is a proportion. */
    function GetMetrics(): (m: Metrics)
      reads this
      ensures m.requestCount == requestCount && m.errorCount == errorCount
      ensures requestCount > 0 ==> m.errorRate * requestCount as real == errorCount as real
      ensures requestCount > 0 ==> m.avgResponseTime * requestCount as real == totalResponseTime
      ensures requestCount == 0 ==> m.errorRate == 0.0 && m.avgResponseTime == 0.0
      ensures Valid() ==> 0.0 <= m.errorRate <= 1.0
      ensures m.healthyServers == |healthyServers| && m.totalServers == |servers|
    {
      Metrics(
        requestCount,
        errorCount,
        if requestCount > 0 then errorCount as real / requestCount as real else 0.0,
        if requestCount > 0 then totalResponseTime / requestCount as real else 0.0,
        |healthyServers|,
        |servers|)
    }
  }
}
