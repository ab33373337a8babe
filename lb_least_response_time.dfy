/** Least response time (build_from_scratch/src/algorithms/least_response_time.py): a
    bounded, newest-first window of latencies per server, and a pick among the healthy
    servers with the smallest mean latency. A server without samples counts as
    infinitely slow. */
module LeastResponseTime {
  import opened Common
  import opened Base

  /** A mean latency, or `float('inf')` for a server without samples. */
  datatype Average = Infinite | Finite(value: real)

  /** The order Python's `<=` gives on these values: every finite mean is below infinity. */
  predicate AtMost(a: Average, b: Average)
  {
    match (a, b)
    case (_, Infinite) => true
    case (Infinite, Finite(_)) => false
    case (Finite(x), Finite(y)) => x <= y
  }

  /** Infinite for an empty window, otherwise the arithmetic mean of the samples. */
  function AverageOf(times: seq<real>): (a: Average)
    ensures a.Infinite? <==> times == []
    ensures a.Finite? ==> a.value * |times| as real == SumReal(times)
  {
    if times == [] then Infinite else Finite(SumReal(times) / |times| as real)
  }

  /** `min` over a non-empty sequence of averages. */
  function MinAverage(avgs: seq<Average>): (m: Average)
    requires avgs != []
    ensures m in avgs
    ensures forall i :: 0 <= i < |avgs| ==> AtMost(m, avgs[i])
  {
    if |avgs| == 1 then avgs[0]
    else
      var m' := MinAverage(avgs[..|avgs| - 1]);
      assert forall i :: 0 <= i < |avgs| - 1 ==> avgs[..|avgs| - 1][i] == avgs[i];
      if AtMost(m', avgs[|avgs| - 1]) then m' else avgs[|avgs| - 1]
  }

  /** Python's `s[:k]`, where a negative `k` counts from the end. */
  function SliceTo<T>(s: seq<T>, k: int): (r: seq<T>)
    ensures 0 <= k ==> |r| == if k < |s| then k else |s|
    ensures k < 0 ==> |r| == if |s| + k < 0 then 0 else |s| + k
    ensures r == s[..|r|]
  {
    if 0 <= k then (if k < |s| then s[..k] else s)
    else if |s| + k < 0 then []
    else s[..|s| + k]
  }

  /** A window after recording `t`: the new sample goes first and the list is cut to
      `windowSize` entries when it grew longer. */
  function Recorded(window: seq<real>, t: real, windowSize: int): (w: seq<real>)
    ensures |w| <= |window| + 1 && w == ([t] + window)[..|w|]
    ensures windowSize >= 1 ==>
              |w| == (if |window| + 1 < windowSize then |window| + 1 else windowSize) &&
              w[0] == t && w[1..] == window[..|w| - 1]
    ensures windowSize == 0 ==> w == []
  {
    var grown := [t] + window;
    if |grown| > windowSize then SliceTo(grown, windowSize) else grown
  }

  /** `self.response_times.get(server, [])`. */
  function TimesOf(responseTimes: map<Server, seq<real>>, s: Server): seq<real>
  {
    if s in responseTimes then responseTimes[s] else []
  }

  /** A window never holds more than `windowSize` samples once `windowSize` is positive
      and it started within bounds. */
  lemma RecordedStaysBounded(window: seq<real>, t: real, windowSize: int)
    requires windowSize >= 1 && |window| <= windowSize
    ensures |Recorded(window, t, windowSize)| <= windowSize
    ensures |window| < windowSize ==> Recorded(window, t, windowSize) == [t] + window
  {
  }

  class LeastResponseTimeLoadBalancer {
    const base: BaseLoadBalancer
    const windowSize: int
    var responseTimes: map<Server, seq<real>>

    /** Every listed server starts healthy with an empty window. */
    constructor (servers: seq<Server>, windowSize: int)
      ensures fresh(base) && base.servers == servers
      ensures forall s :: s in base.healthyServers <==> s in servers
      ensures base.requestCount == 0 && base.errorCount == 0 && base.totalResponseTime == 0.0
      ensures base.Valid()
      ensures this.windowSize == windowSize
      ensures responseTimes == map s | s in servers :: []
    {
      base := new BaseLoadBalancer(servers);
      this.windowSize := windowSize;
      responseTimes := map s | s in servers :: [];
    }

    /** Only `server`'s window changes, created empty when missing; see `Recorded`. */
    method RecordResponseTime(server: Server, responseTime: real)
      modifies this`responseTimes
      ensures responseTimes == old(responseTimes)[server := Recorded(TimesOf(old(responseTimes), server), responseTime, windowSize)]
    {
      if server !in responseTimes {
        responseTimes := responseTimes[server := []];
      }
      responseTimes := responseTimes[server := [responseTime] + responseTimes[server]];
      if |responseTimes[server]| > windowSize {
        responseTimes := responseTimes[server := SliceTo(responseTimes[server], windowSize)];
      }
    }

    /** The mean of the server's window, infinite when it has no samples. */
    function AverageResponseTime(server: Server): (a: Average)
      reads this
      ensures a.Infinite? <==> TimesOf(responseTimes, server) == []
      ensures a.Finite? ==> a.value * |TimesOf(responseTimes, server)| as real == SumReal(TimesOf(responseTimes, server))
    {
      AverageOf(TimesOf(responseTimes, server))
    }

    /** None exactly when no server is healthy; otherwise a healthy server with the
        smallest mean, which has samples whenever some healthy server has. The choice
        among equals, and among servers without samples, is left open. Nothing changes.
        `order` is the healthy set's iteration order. */
    method AssignServer(order: seq<Server>) returns (r: Option<Server>)
      requires Enumerates(order, base.healthyServers)
      ensures r.None? <==> base.healthyServers == {}
      ensures r.Some? ==> r.value in base.healthyServers
      ensures r.Some? ==> forall s :: s in base.healthyServers ==> AtMost(AverageResponseTime(r.value), AverageResponseTime(s))
      ensures r.Some? && TimesOf(responseTimes, r.value) == [] ==>
                forall s :: s in base.healthyServers ==> TimesOf(responseTimes, s) == []
    {
      EnumeratesEmpty(order, base.healthyServers);
      if base.healthyServers == {} {
        return None;
      }
      var avgResponseTimes := seq(|order|, i requires 0 <= i < |order| reads this => AverageResponseTime(order[i]));
      var minTime := MinAverage(avgResponseTimes);
      var k :| 0 <= k < |order| && avgResponseTimes[k] == minTime;
      forall s | s in base.healthyServers
        ensures AtMost(minTime, AverageResponseTime(s))
      {
        var j :| 0 <= j < |order| && order[j] == s;
        assert avgResponseTimes[j] == AverageResponseTime(s);
      }
      if minTime == Infinite {
        var selected :| selected in base.healthyServers;
        return Some(selected);
      }
      var selected :| selected in order && AverageResponseTime(selected) == minTime;
      r := Some(selected);
    }
  }
}
