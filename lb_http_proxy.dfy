/** The proxy's request handler and health probe (build_from_scratch/src/proxy/http_proxy.py).
    The backend call is not made: its outcome, and the time it took, are inputs. */
module HttpProxy {
  import opened Common
  import opened Base
  import opened RoundRobin
  import opened WeightedRoundRobin
  import opened LeastConnections
  import opened LeastResponseTime

  /** The balancer the proxy drives; which of the four it is decides which optional
      hooks (`record_response_time`, `release_connection`) exist. */
  datatype Balancer =
    | RR(rr: RoundRobinLoadBalancer)
    | WRR(wrr: WeightedRoundRobinLoadBalancer)
    | LC(lc: LeastConnectionsLoadBalancer)
    | LRT(lrt: LeastResponseTimeLoadBalancer)
  {
    /** The inherited bookkeeping: servers, healthy set, counters. */
    function BaseOf(): BaseLoadBalancer
    {
      match this
      case RR(x) => x.base
      case WRR(x) => x.base
      case LC(x) => x.base
      case LRT(x) => x.base
    }

    /** The round-robin cursor an assignment may move. */
    function CursorOwner(): set<RoundRobinLoadBalancer>
    {
      match this
      case RR(x) => {x}
      case LC(x) => {x.roundRobin}
      case _ => {}
    }

    function WeightOwner(): set<WeightedRoundRobinLoadBalancer>
    {
      if WRR? then {wrr} else {}
    }

    function ConnectionOwner(): set<LeastConnectionsLoadBalancer>
    {
      if LC? then {lc} else {}
    }

    /** The nested round-robin's bookkeeping, whose healthy set a tie-break swaps. */
    function TieBase(): set<BaseLoadBalancer>
    {
      if LC? then {lc.roundRobin.base} else {}
    }

    function LatencyOwner(): set<LeastResponseTimeLoadBalancer>
    {
      if LRT? then {lrt} else {}
    }

    ghost predicate Valid()
      reads BaseOf()
    {
      BaseOf().Valid() && (LC? ==> lc.Valid())
    }
  }

  /** How one assignment changed the balancer, per algorithm, in terms of the state
      before it. */
  twostate predicate AssignedBy(b: Balancer, order: seq<Server>, tieOrder: seq<Server>, new server: Option<Server>)
    reads b.CursorOwner(), b.WeightOwner(), b.ConnectionOwner(), b.TieBase()
  {
    && (server.Some? ==> server.value in old(b.BaseOf().healthyServers))
    && match b
       case RR(x) => (server, x.currentIndex) == Step(order, old(x.currentIndex))
       case WRR(x) => server == Choose(order, old(x.weights)) && x.weights == Reweigh(order, old(x.weights))
       case LC(x) =>
         && (server, x.roundRobin.currentIndex) == Pick(order, tieOrder, old(x.connections), old(x.roundRobin.currentIndex))
         && x.connections == Bumped(old(x.connections), server)
         && x.roundRobin.base.healthyServers == old(x.roundRobin.base.healthyServers)
       case LRT(x) =>
         && (server.None? <==> old(x.base.healthyServers) == {})
         && (server.Some? ==> forall s :: s in old(x.base.healthyServers) ==>
                                AtMost(old(x.AverageResponseTime(server.value)), old(x.AverageResponseTime(s))))
  }

  /** `self.load_balancer.assign_server(request)`, dispatched on the algorithm.
      `order` is the healthy set's iteration order, `tieOrder` that of a least-connections
      tie. The shared bookkeeping is not touched. */
  method Assign(b: Balancer, order: seq<Server>, tieOrder: seq<Server>) returns (server: Option<Server>)
    requires b.Valid()
    requires Enumerates(order, b.BaseOf().healthyServers)
    requires b.LC? ==> Enumerates(tieOrder, set s | s in Candidates(order, b.lc.connections))
    modifies b.CursorOwner()`currentIndex, b.WeightOwner()`weights, b.ConnectionOwner()`connections,
             b.TieBase()`healthyServers
    ensures AssignedBy(b, order, tieOrder, server)
    ensures b.Valid()
    ensures unchanged(b.BaseOf()) && unchanged(b.LatencyOwner())
  {
    match b
    case RR(x) => server := x.AssignServer(order);
    case WRR(x) => server := x.AssignServer(order);
    case LC(x) => server := x.AssignServer(order, tieOrder);
    case LRT(x) => server := x.AssignServer(order);
  }

  /** Name/value pairs in order, as a header collection lists them. */
  type Headers = seq<(string, string)>

  function KeysOf(h: Headers): (ks: seq<string>)
    ensures |ks| == |h| && forall i :: 0 <= i < |h| ==> ks[i] == h[i].0
  {
    seq(|h|, i requires 0 <= i < |h| => h[i].0)
  }

  /** The value stored under `k`, looking at its first occurrence. */
  function Get(d: Headers, k: string): Option<string>
  {
    if d == [] then None else if d[0].0 == k then Some(d[0].1) else Get(d[1..], k)
  }

  /** The value of the last pair named `k`. */
  function LastValue(pairs: Headers, k: string): Option<string>
  {
    if pairs == [] then None
    else if pairs[|pairs| - 1].0 == k then Some(pairs[|pairs| - 1].1)
    else LastValue(pairs[..|pairs| - 1], k)
  }

  lemma KeysOfCons(p: (string, string), d: Headers)
    ensures KeysOf([p] + d) == [p.0] + KeysOf(d)
  {
  }

  lemma KeysOfSnoc(d: Headers, p: (string, string))
    ensures KeysOf(d + [p]) == KeysOf(d) + [p.0]
  {
  }

  /** Python's `d[k] = v` on a dict listed in insertion order. */
  function Put(d: Headers, k: string, v: string): Headers
  {
    if d == [] then [(k, v)]
    else if d[0].0 == k then [(k, v)] + d[1..]
    else [d[0]] + Put(d[1..], k, v)
  }

  /** An existing key keeps its place, a new key goes last. */
  lemma {:induction false} PutKeys(d: Headers, k: string, v: string)
    ensures KeysOf(Put(d, k, v)) == if k in KeysOf(d) then KeysOf(d) else KeysOf(d) + [k]
  {
    if d != [] {
      var ks := KeysOf(d[1..]);
      assert KeysOf(d) == [d[0].0] + ks by {
        assert d == [d[0]] + d[1..];
        KeysOfCons(d[0], d[1..]);
      }
      if d[0].0 == k {
        assert KeysOf(Put(d, k, v)) == [k] + ks by {
          KeysOfCons((k, v), d[1..]);
        }
      } else {
        var rest := Put(d[1..], k, v);
        assert KeysOf(Put(d, k, v)) == [d[0].0] + KeysOf(rest) by {
          KeysOfCons(d[0], rest);
        }
        PutKeys(d[1..], k, v);
        if k !in ks {
          assert [d[0].0] + (ks + [k]) == ([d[0].0] + ks) + [k];
        }
      }
    }
  }

  /** `d[k] = v` keeps the keys distinct. */
  lemma PutDistinct(d: Headers, k: string, v: string)
    requires Distinct(KeysOf(d))
    ensures Distinct(KeysOf(Put(d, k, v)))
  {
    PutKeys(d, k, v);
    if k !in KeysOf(d) {
      DistinctSnoc(KeysOf(d), k);
    }
  }

  /** A new key goes last. */
  lemma {:induction false} PutNew(d: Headers, k: string, v: string)
    requires k !in KeysOf(d)
    ensures Put(d, k, v) == d + [(k, v)]
  {
    if d != [] {
      KeysOfCons(d[0], d[1..]);
      assert d == [d[0]] + d[1..];
      PutNew(d[1..], k, v);
    }
  }

  /** After `d[k] = v` the key `k` holds `v` and every other key what it held. */
  lemma {:induction false} PutGet(d: Headers, k: string, v: string, x: string)
    ensures Get(Put(d, k, v), x) == if x == k then Some(v) else Get(d, x)
  {
    if d != [] && d[0].0 != k {
      PutGet(d[1..], k, v, x);
    }
  }

  /** The dict a comprehension over `pairs` builds: later pairs overwrite earlier ones. */
  function DictOf(pairs: Headers): (d: Headers)
    ensures Distinct(KeysOf(d))
    ensures forall k :: k in KeysOf(d) <==> k in KeysOf(pairs)
  {
    if pairs == [] then []
    else
      var n := |pairs|;
      var before := DictOf(pairs[..n - 1]);
      assert pairs == pairs[..n - 1] + [pairs[n - 1]];
      KeysOfSnoc(pairs[..n - 1], pairs[n - 1]);
      PutKeys(before, pairs[n - 1].0, pairs[n - 1].1);
      PutDistinct(before, pairs[n - 1].0, pairs[n - 1].1);
      Put(before, pairs[n - 1].0, pairs[n - 1].1)
  }

  /** In the dict, every key holds the value of its last pair. */
  lemma {:induction false} DictOfLastWins(pairs: Headers, k: string)
    ensures Get(DictOf(pairs), k) == LastValue(pairs, k)
  {
    if pairs != [] {
      var n := |pairs|;
      DictOfLastWins(pairs[..n - 1], k);
      PutGet(DictOf(pairs[..n - 1]), pairs[n - 1].0, pairs[n - 1].1, k);
    }
  }

  /** Without repeated names the dict lists exactly the pairs, in the same order. */
  lemma {:induction false} DictOfDistinct(pairs: Headers)
    requires Distinct(KeysOf(pairs))
    ensures DictOf(pairs) == pairs
  {
    if pairs != [] {
      var n := |pairs|;
      var init, last := pairs[..n - 1], pairs[n - 1];
      assert pairs == init + [last];
      assert Distinct(KeysOf(init)) && last.0 !in KeysOf(init) by {
        KeysOfSnoc(init, last);
        DistinctSnocParts(KeysOf(init), last.0);
      }
      DictOfDistinct(init);
      PutNew(init, last.0, last.1);
    }
  }

  /** The inbound pairs whose name is not exactly "host", in order. */
  function WithoutHost(h: Headers): Headers
  {
    if h == [] then []
    else if h[0].0 == "host" then WithoutHost(h[1..])
    else [h[0]] + WithoutHost(h[1..])
  }

  /** A pair is kept exactly when it is not named "host". */
  lemma {:induction false} WithoutHostPairs(h: Headers)
    ensures forall p :: p in WithoutHost(h) <==> p in h && p.0 != "host"
  {
    if h != [] {
      assert h == [h[0]] + h[1..];
      WithoutHostPairs(h[1..]);
    }
  }

  /** A name is kept exactly when it is not "host". */
  lemma {:induction false} WithoutHostKeys(h: Headers)
    ensures forall k :: k in KeysOf(WithoutHost(h)) <==> k in KeysOf(h) && k != "host"
  {
    if h != [] {
      assert h == [h[0]] + h[1..];
      KeysOfCons(h[0], h[1..]);
      WithoutHostKeys(h[1..]);
      if h[0].0 != "host" {
        KeysOfCons(h[0], WithoutHost(h[1..]));
      }
    }
  }

  /** Dropping pairs keeps the names distinct. */
  lemma {:induction false} WithoutHostDistinct(h: Headers)
    requires Distinct(KeysOf(h))
    ensures Distinct(KeysOf(WithoutHost(h)))
  {
    if h != [] {
      assert h == [h[0]] + h[1..];
      KeysOfCons(h[0], h[1..]);
      DistinctConsParts(h[0].0, KeysOf(h[1..]));
      WithoutHostDistinct(h[1..]);
      if h[0].0 != "host" {
        WithoutHostKeys(h[1..]);
        KeysOfCons(h[0], WithoutHost(h[1..]));
        DistinctCons(h[0].0, KeysOf(WithoutHost(h[1..])));
      }
    }
  }

  /** The headers sent to the backend: the inbound ones minus "host", as a dict. */
  function ForwardHeaders(h: Headers): (f: Headers)
    ensures "host" !in KeysOf(f)
    ensures forall k :: k in KeysOf(f) <==> k in KeysOf(h) && k != "host"
    ensures Distinct(KeysOf(f))
  {
    WithoutHostKeys(h);
    DictOf(WithoutHost(h))
  }

  /** With distinct inbound names the forwarded headers are the inbound pairs, in the
      same order, minus the "host" one. */
  lemma ForwardKeepsOrder(h: Headers)
    requires Distinct(KeysOf(h))
    ensures ForwardHeaders(h) == WithoutHost(h)
  {
    WithoutHostDistinct(h);
    DictOfDistinct(WithoutHost(h));
  }

  /** What the handler sees of the inbound request. */
  datatype Request = Request(httpMethod: string, headers: Headers, body: seq<bv8>, cookies: map<string, string>)

  /** The request handed to the HTTP client. */
  datatype Forwarded = Forwarded(httpMethod: string, url: string, headers: Headers, body: seq<bv8>, cookies: map<string, string>)

  /** What the backend call produced: a response with any status, or an exception
      (timeout, refused connection, ...) with its message. */
  datatype BackendOutcome =
    | Response(status: int, headers: Headers, content: seq<bv8>)
    | TransportFailure(reason: string)

  /** What the client receives: a JSON error object `{"error": ...}`, or the backend's
      response relayed. */
  datatype Reply =
    | Json(status: int, error: string)
    | Relayed(status: int, headers: Headers, content: seq<bv8>)

  /** One call of the `proxy` route for `path`. `elapsed` is what the clock says the call
      took. Returns the server chosen, the request forwarded (None when none was) and
      the reply. */
  method Proxy(b: Balancer, path: string, req: Request, order: seq<Server>, tieOrder: seq<Server>,
               outcome: BackendOutcome, elapsed: real)
    returns (chosen: Option<Server>, sent: Option<Forwarded>, reply: Reply)
    requires b.Valid()
    requires Enumerates(order, b.BaseOf().healthyServers)
    requires b.LC? ==> Enumerates(tieOrder, set s | s in Candidates(order, b.lc.connections))
    modifies b.CursorOwner()`currentIndex, b.WeightOwner()`weights, b.ConnectionOwner()`connections,
             b.TieBase()`healthyServers, b.LatencyOwner()`responseTimes
    modifies b.BaseOf()`healthyServers, b.BaseOf()`requestCount, b.BaseOf()`errorCount, b.BaseOf()`totalResponseTime
    ensures b.Valid()
    ensures AssignedBy(b, order, tieOrder, chosen)
    ensures var base := b.BaseOf();
            if chosen.None? || chosen.value == "" then
              && sent.None? && reply == Json(503, "No servers available")
              && base.healthyServers == old(base.healthyServers)
              && base.requestCount == old(base.requestCount) && base.errorCount == old(base.errorCount)
              && base.totalResponseTime == old(base.totalResponseTime)
            else
              && sent == Some(Forwarded(req.httpMethod, chosen.value + "/" + path, ForwardHeaders(req.headers), req.body, req.cookies))
              && base.requestCount == old(base.requestCount) + 1
              && base.totalResponseTime == old(base.totalResponseTime) + elapsed
              && match outcome
                 case Response(status, headers, content) =>
                   && reply == Relayed(status, headers, content)
                   && base.errorCount == old(base.errorCount) + (if status >= 500 then 1 else 0)
                   && base.healthyServers == old(base.healthyServers)
                 case TransportFailure(reason) =>
                   && reply == Json(502, reason)
                   && base.errorCount == old(base.errorCount) + 1
                   && base.healthyServers == old(base.healthyServers) - {chosen.value}
    ensures b.LRT? ==>
              b.lrt.responseTimes ==
                if chosen.Some? && chosen.value != "" && outcome.Response? then
                  old(b.lrt.responseTimes)[chosen.value := Recorded(TimesOf(old(b.lrt.responseTimes), chosen.value), elapsed, b.lrt.windowSize)]
                else old(b.lrt.responseTimes)
  {
    chosen := Assign(b, order, tieOrder);
    if chosen.None? || chosen.value == "" {
      return chosen, None, Json(503, "No servers available");
    }
    var server := chosen.value;
    var url := server + "/" + path;
    sent := Some(Forwarded(req.httpMethod, url, ForwardHeaders(req.headers), req.body, req.cookies));
    reply := Relay(b, server, outcome, elapsed);
  }

  /** What the handler does once the backend call has ended: a response is timed,
      counted and relayed; a transport failure marks the server unhealthy and counts
      an error. */
  method Relay(b: Balancer, server: Server, outcome: BackendOutcome, elapsed: real) returns (reply: Reply)
    requires b.Valid()
    modifies b.LatencyOwner()`responseTimes
    modifies b.BaseOf()`healthyServers, b.BaseOf()`requestCount, b.BaseOf()`errorCount, b.BaseOf()`totalResponseTime
    ensures b.Valid()
    ensures var base := b.BaseOf();
            && base.requestCount == old(base.requestCount) + 1
            && base.totalResponseTime == old(base.totalResponseTime) + elapsed
            && match outcome
               case Response(status, headers, content) =>
                 && reply == Relayed(status, headers, content)
                 && base.errorCount == old(base.errorCount) + (if status >= 500 then 1 else 0)
                 && base.healthyServers == old(base.healthyServers)
               case TransportFailure(reason) =>
                 && reply == Json(502, reason)
                 && base.errorCount == old(base.errorCount) + 1
                 && base.healthyServers == old(base.healthyServers) - {server}
    ensures b.LRT? ==>
              b.lrt.responseTimes ==
                if outcome.Response? then
                  old(b.lrt.responseTimes)[server := Recorded(TimesOf(old(b.lrt.responseTimes), server), elapsed, b.lrt.windowSize)]
                else old(b.lrt.responseTimes)
  {
    match outcome
    case Response(status, headers, content) =>
      if b.LRT? {
        b.lrt.RecordResponseTime(server, elapsed);
      }
      b.BaseOf().RecordRequestMetrics(server, elapsed, status >= 500);
      // No balancer defines `release_connection`, so nothing is released here.
      reply := Relayed(status, headers, content);
    case TransportFailure(reason) =>
      b.BaseOf().MarkUnhealthy(server);
      b.BaseOf().RecordRequestMetrics(server, elapsed, true);
      reply := Json(502, reason);
  }

  /** What one health probe of a server produced: a response with its status and the
      time it took, or an exception. */
  datatype Probe = Answered(status: int, latency: real) | Failed

  /** The mark a probe leads to: healthy exactly when it answered below 500. */
  function ProbeMark(server: Server, p: Probe): (m: Mark)
    ensures m.server == server
    ensures m.Healthy? <==> p.Answered? && p.status < 500
  {
    if p.Answered? && p.status < 500 then Healthy(server) else Unhealthy(server)
  }

  /** The marks of a whole cycle, one per listed server in list order. */
  function ProbeMarks(servers: seq<Server>, probes: seq<Probe>): (ms: seq<Mark>)
    requires |probes| == |servers|
    ensures |ms| == |servers|
    ensures forall i :: 0 <= i < |servers| ==> ms[i] == ProbeMark(servers[i], probes[i])
  {
    seq(|servers|, i requires 0 <= i < |servers| => ProbeMark(servers[i], probes[i]))
  }

  /** The latency windows after a cycle: every answered probe is recorded, whatever
      its status. */
  function ProbeLatencies(times: map<Server, seq<real>>, servers: seq<Server>, probes: seq<Probe>, windowSize: int)
    : map<Server, seq<real>>
    requires |probes| == |servers|
  {
    if servers == [] then times
    else
      var n := |servers|;
      var before := ProbeLatencies(times, servers[..n - 1], probes[..n - 1], windowSize);
      match probes[n - 1]
      case Answered(_, latency) => before[servers[n - 1] := Recorded(TimesOf(before, servers[n - 1]), latency, windowSize)]
      case Failed => before
  }

  /** After a cycle a listed server is healthy exactly when the probe of its last
      occurrence in the list answered below 500; unlisted servers keep their state. */
  lemma HealthAfterCheck(healthy: set<Server>, servers: seq<Server>, probes: seq<Probe>, s: Server)
    requires |probes| == |servers|
    ensures s !in servers ==> (s in ApplyMarks(healthy, ProbeMarks(servers, probes)) <==> s in healthy)
    ensures forall i :: 0 <= i < |servers| && servers[i] == s && (forall j :: i < j < |servers| ==> servers[j] != s) ==>
              (s in ApplyMarks(healthy, ProbeMarks(servers, probes)) <==> probes[i].Answered? && probes[i].status < 500)
  {
    var marks := ProbeMarks(servers, probes);
    LastMarkWins(healthy, marks, s);
    if s !in servers {
      LastMarkAbsent(marks, s);
    }
    forall i | 0 <= i < |servers| && servers[i] == s && (forall j :: i < j < |servers| ==> servers[j] != s)
      ensures LastMark(marks, s) == Some(marks[i].Healthy?)
    {
      LastMarkAt(marks, i);
    }
  }

  /** One `health_check` cycle over the configured list, `probes[i]` being what the probe
      of `servers[i]` produced. Counters are not touched. */
  method HealthCheck(b: Balancer, probes: seq<Probe>)
    requires |probes| == |b.BaseOf().servers|
    modifies b.BaseOf()`healthyServers, b.LatencyOwner()`responseTimes
    ensures b.BaseOf().healthyServers == ApplyMarks(old(b.BaseOf().healthyServers), ProbeMarks(b.BaseOf().servers, probes))
    ensures b.LRT? ==> b.lrt.responseTimes == ProbeLatencies(old(b.lrt.responseTimes), b.BaseOf().servers, probes, b.lrt.windowSize)
  {
    var base := b.BaseOf();
    var servers := base.servers;
    var i := 0;
    while i < |servers|
      invariant 0 <= i <= |servers|
      invariant base.healthyServers == ApplyMarks(old(base.healthyServers), ProbeMarks(servers[..i], probes[..i]))
      invariant b.LRT? ==> b.lrt.responseTimes == ProbeLatencies(old(b.lrt.responseTimes), servers[..i], probes[..i], b.lrt.windowSize)
    {
      var server := servers[i];
      ghost var marks := ProbeMarks(servers[..i + 1], probes[..i + 1]);
      assert marks[..i] == ProbeMarks(servers[..i], probes[..i]);
      assert servers[..i + 1][..i] == servers[..i] && probes[..i + 1][..i] == probes[..i];
      match probes[i] {
        case Answered(status, latency) =>
          if b.LRT? {
            b.lrt.RecordResponseTime(server, latency);
          }
          if status < 500 {
            base.MarkHealthy(server);
          } else {
            base.MarkUnhealthy(server);
          }
        case Failed =>
          base.MarkUnhealthy(server);
      }
      i := i + 1;
    }
    assert servers[..|servers|] == servers && probes[..|probes|] == probes;
  }
}
