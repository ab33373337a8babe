/** Start-up (build_from_scratch/src/main.py): reading the configuration from the
    environment, splitting the backend list, and the factory that maps an algorithm
    name to a balancer. */
module Startup {
  import opened Common
  import opened Base
  import opened RoundRobin
  import opened WeightedRoundRobin
  import opened LeastConnections
  import opened LeastResponseTime
  import opened HttpProxy

  datatype Algorithm =
    | RoundRobinAlgorithm
    | WeightedRoundRobinAlgorithm
    | LeastConnectionsAlgorithm
    | LeastResponseTimeAlgorithm

  /** `str.lower` on one character, for the ASCII letters. */
  function LowerChar(c: char): char
  {
    if 'A' <= c <= 'Z' then (c as int + 32) as char else c
  }

  /** `str.lower` on ASCII text: each capital letter becomes its small letter, 32
      code points on, and every other character stays. */
  function Lower(s: string): (r: string)
    ensures |r| == |s|
    ensures forall i :: 0 <= i < |s| && 'A' <= s[i] <= 'Z' ==> r[i] == (s[i] as int + 32) as char
    ensures forall i :: 0 <= i < |s| && !('A' <= s[i] <= 'Z') ==> r[i] == s[i]
    ensures forall i :: 0 <= i < |s| ==> r[i] == LowerChar(s[i])
  {
    seq(|s|, i requires 0 <= i < |s| => LowerChar(s[i]))
  }

  /** The spelling the factory compares a lower-cased name with. */
  function NameOf(a: Algorithm): string
  {
    match a
    case RoundRobinAlgorithm => "round_robin"
    case WeightedRoundRobinAlgorithm => "weighted_round_robin"
    case LeastConnectionsAlgorithm => "least_connections"
    case LeastResponseTimeAlgorithm => "least_response_time"
  }

  /** The choice `create_load_balancer` makes: the four names, in any letter case,
      select their algorithm and anything else falls back to round robin. */
  function AlgorithmFor(name: string): (r: Algorithm)
    ensures (exists a :: Lower(name) == NameOf(a)) ==> Lower(name) == NameOf(r)
    ensures (forall a :: Lower(name) != NameOf(a)) ==> r == RoundRobinAlgorithm
  {
    var lowered := Lower(name);
    if lowered == "round_robin" then RoundRobinAlgorithm
    else if lowered == "weighted_round_robin" then WeightedRoundRobinAlgorithm
    else if lowered == "least_connections" then LeastConnectionsAlgorithm
    else if lowered == "least_response_time" then LeastResponseTimeAlgorithm
    else RoundRobinAlgorithm
  }

  /** Lower-casing twice is lower-casing once. */
  lemma LowerIdempotent(s: string)
    ensures Lower(Lower(s)) == Lower(s)
  {
    assert forall i :: 0 <= i < |s| ==> LowerChar(LowerChar(s[i])) == LowerChar(s[i]);
  }

  /** Each canonical name selects its own algorithm, and a name that selects anything
      but round robin is, lower-cased, that algorithm's canonical name. */
  lemma NamesRoundTrip(a: Algorithm, name: string)
    ensures AlgorithmFor(NameOf(a)) == a
    ensures AlgorithmFor(name) != RoundRobinAlgorithm ==> Lower(name) == NameOf(AlgorithmFor(name))
  {
    CanonicalLower(a);
  }

  /** The canonical names are already lower case. */
  lemma CanonicalLower(a: Algorithm)
    ensures Lower(NameOf(a)) == NameOf(a)
  {
    match a
    case RoundRobinAlgorithm => LowerFixed("round_robin");
    case WeightedRoundRobinAlgorithm => LowerFixed("weighted_round_robin");
    case LeastConnectionsAlgorithm => LowerFixed("least_connections");
    case LeastResponseTimeAlgorithm => LowerFixed("least_response_time");
  }

  /** Lower-casing leaves lower-case letters and underscores alone. */
  lemma LowerFixed(s: string)
    requires forall i :: 0 <= i < |s| ==> s[i] == '_' || 'a' <= s[i] <= 'z'
    ensures Lower(s) == s
  {
  }

  /** The factory ignores letter case: names equal up to case select the same algorithm. */
  lemma AlgorithmForIgnoresCase(name: string)
    ensures AlgorithmFor(Lower(name)) == AlgorithmFor(name)
  {
    LowerIdempotent(name);
  }

  /** The example weights of the weighted variant: position i gets i + 1, a repeated
      address keeping the weight of its last position. */
  function ExampleWeights(servers: seq<Server>): (w: map<Server, int>)
    ensures w.Keys == set s | s in servers
    ensures forall s :: s in w ==> 1 <= w[s] <= |servers|
  {
    if servers == [] then map[]
    else
      var n := |servers|;
      var before := ExampleWeights(servers[..n - 1]);
      assert forall s :: s in servers <==> s in servers[..n - 1] || s == servers[n - 1];
      before[servers[n - 1] := n]
  }

  /** The weight of an address is one more than the last position it occupies. */
  lemma {:induction false} ExampleWeightsLastPosition(servers: seq<Server>, i: nat)
    requires i < |servers| && forall j :: i < j < |servers| ==> servers[j] != servers[i]
    ensures ExampleWeights(servers)[servers[i]] == i + 1
  {
    var n := |servers|;
    var prefix := servers[..n - 1];
    if i < n - 1 {
      assert prefix[i] == servers[i];
      assert forall j :: i < j < n - 1 ==> prefix[j] != prefix[i];
      ExampleWeightsLastPosition(prefix, i);
      assert servers[n - 1] != servers[i];
    }
    assert ExampleWeights(servers) == ExampleWeights(prefix)[servers[n - 1] := n];
  }

  /** Which of the four the balancer is. */
  function KindOf(b: Balancer): Algorithm
  {
    match b
    case RR(_) => RoundRobinAlgorithm
    case WRR(_) => WeightedRoundRobinAlgorithm
    case LC(_) => LeastConnectionsAlgorithm
    case LRT(_) => LeastResponseTimeAlgorithm
  }

  /** `create_load_balancer`: a fresh balancer of the selected kind over `servers`, all of
      them healthy and every counter at zero. */
  method CreateLoadBalancer(algorithm: string, servers: seq<Server>) returns (b: Balancer)
    ensures KindOf(b) == AlgorithmFor(algorithm)
    ensures b.Valid()
    ensures fresh(b.BaseOf()) && b.BaseOf().servers == servers
    ensures b.BaseOf().healthyServers == set s | s in servers
    ensures b.BaseOf().requestCount == 0 && b.BaseOf().errorCount == 0 && b.BaseOf().totalResponseTime == 0.0
    ensures b.WRR? ==> b.wrr.weights == ExampleWeights(servers)
    ensures b.LC? ==> b.lc.connections == map s | s in servers :: 0
    ensures b.LRT? ==> b.lrt.windowSize == 10 && b.lrt.responseTimes == map s | s in servers :: []
  {
    match AlgorithmFor(algorithm) {
      case RoundRobinAlgorithm =>
        var x := new RoundRobinLoadBalancer(servers);
        b := RR(x);
      case WeightedRoundRobinAlgorithm =>
        var x := new WeightedRoundRobinLoadBalancer(servers, Some(ExampleWeights(servers)));
        b := WRR(x);
      case LeastConnectionsAlgorithm =>
        var x := new LeastConnectionsLoadBalancer(servers);
        b := LC(x);
      case LeastResponseTimeAlgorithm =>
        var x := new LeastResponseTimeLoadBalancer(servers, 10);
        b := LRT(x);
    }
  }

  /** The number of commas in `s`. */
  function Commas(s: string): nat
  {
    if s == [] then 0 else Commas(s[..|s| - 1]) + (if s[|s| - 1] == ',' then 1 else 0)
  }

  /** `s.split(",")`: the pieces between commas, empty ones included. */
  function Split(s: string): (parts: seq<string>)
    ensures |parts| == Commas(s) + 1
    ensures forall i :: 0 <= i < |parts| ==> ',' !in parts[i]
  {
    if s == [] then [""]
    else
      var n := |s|;
      var parts := Split(s[..n - 1]);
      var m := |parts|;
      if s[n - 1] == ',' then parts + [""]
      else parts[..m - 1] + [parts[m - 1] + [s[n - 1]]]
  }

  /** `",".join(parts)`. */
  function Join(parts: seq<string>): string
    requires parts != []
  {
    if |parts| == 1 then parts[0] else Join(parts[..|parts| - 1]) + "," + parts[|parts| - 1]
  }

  /** Extending the last piece extends the joined string. */
  lemma JoinExtendLast(parts: seq<string>, c: char)
    requires parts != []
    ensures Join(parts[..|parts| - 1] + [parts[|parts| - 1] + [c]]) == Join(parts) + [c]
  {
    var m := |parts|;
    var ext := parts[..m - 1] + [parts[m - 1] + [c]];
    assert ext[..m - 1] == parts[..m - 1];
  }

  /** Joining the pieces with commas gives back the backend string. */
  lemma {:induction false} JoinSplit(s: string)
    ensures Join(Split(s)) == s
  {
    if s != [] {
      var n := |s|;
      JoinSplit(s[..n - 1]);
      var parts := Split(s[..n - 1]);
      if s[n - 1] == ',' {
        assert (parts + [""])[..|parts|] == parts;
      } else {
        JoinExtendLast(parts, s[n - 1]);
      }
      assert s == s[..n - 1] + [s[n - 1]];
    }
  }

  const DefaultAlgorithm: string := "round_robin"
  const DefaultBackends: string := "http://localhost:5001,http://localhost:5002"

  /** `os.environ.get(key, default)`. */
  function Setting(env: map<string, string>, key: string, default: string): string
  {
    if key in env then env[key] else default
  }

  /** The algorithm name and the backend list `main` reads from the environment. */
  datatype Configuration = Configuration(algorithm: string, backends: seq<Server>)

  function ConfigurationOf(env: map<string, string>): Configuration
  {
    Configuration(Setting(env, "ALGORITHM", DefaultAlgorithm), Split(Setting(env, "BACKEND_SERVERS", DefaultBackends)))
  }

  /** With nothing set, the proxy runs round robin over the two local backends. */
  lemma DefaultConfiguration()
    ensures ConfigurationOf(map[]) == Configuration("round_robin", ["http://localhost:5001", "http://localhost:5002"])
    ensures AlgorithmFor(ConfigurationOf(map[]).algorithm) == RoundRobinAlgorithm
  {
    var s := DefaultBackends;
    assert s == "http://localhost:5001" + "," + "http://localhost:5002";
    SplitJoin(["http://localhost:5001", "http://localhost:5002"]);
    NamesRoundTrip(RoundRobinAlgorithm, "round_robin");
  }

  /** Splitting a comma join of comma-free pieces gives back the pieces. */
  lemma {:induction false} SplitJoin(parts: seq<string>)
    requires parts != [] && forall i :: 0 <= i < |parts| ==> ',' !in parts[i]
    ensures Split(Join(parts)) == parts
  {
    var m := |parts|;
    if m == 1 {
      SplitPiece(parts[0]);
    } else {
      SplitJoin(parts[..m - 1]);
      SplitAppend(Join(parts[..m - 1]), parts[m - 1]);
      assert parts == parts[..m - 1] + [parts[m - 1]];
    }
  }

  /** A comma-free string is a single piece. */
  lemma {:induction false} SplitPiece(p: string)
    requires ',' !in p
    ensures Split(p) == [p]
  {
    if p != [] {
      var n := |p|;
      SplitPiece(p[..n - 1]);
      assert p == p[..n - 1] + [p[n - 1]];
    }
  }

  /** Splitting `s + "," + p` for a comma-free `p` adds `p` as a last piece. */
  lemma {:induction false} SplitAppend(s: string, p: string)
    requires ',' !in p
    ensures Split(s + "," + p) == Split(s) + [p]
    decreases |p|
  {
    if p == [] {
      assert (s + "," + p)[..|s|] == s;
    } else {
      var n := |p|;
      SplitAppend(s, p[..n - 1]);
      assert (s + "," + p)[..|s| + 1 + n - 1] == s + "," + p[..n - 1];
      var parts := Split(s + "," + p[..n - 1]);
      assert parts == Split(s) + [p[..n - 1]];
      assert p == p[..n - 1] + [p[n - 1]];
    }
  }

  /** `main` before the proxy starts: the balancer built from the environment. */
  method Launch(env: map<string, string>) returns (b: Balancer)
    ensures KindOf(b) == AlgorithmFor(ConfigurationOf(env).algorithm)
    ensures fresh(b.BaseOf()) && b.BaseOf().servers == ConfigurationOf(env).backends
    ensures b.Valid()
  {
    var algorithm := Setting(env, "ALGORITHM", DefaultAlgorithm);
    var backendServersStr := Setting(env, "BACKEND_SERVERS", DefaultBackends);
    var backendServers := Split(backendServersStr);
    b := CreateLoadBalancer(algorithm, backendServers);
  }
}
