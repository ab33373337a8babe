# Load balancers and a virtual DOM, modelled in Dafny

This project models two small pieces of the `coreConcepts` repository and proves
properties of them:

* **The load balancer** under
  `coreConcepts/Networking/LoadBalancer/`, in two generations:
  * The production one is `build_from_scratch/src`. It has:
    * a base class with the healthy-server set and request, error and latency
      counters;
    * four selection algorithms: round robin, a weight-rewriting "weighted round
      robin", least connections with a nested round-robin tie-breaker, and least
      response time over a bounded newest-first latency window;
    * the HTTP proxy's request handler and health probe, with the network abstracted
      as an outcome;
    * the start-up factory that maps an algorithm name and a comma-separated backend
      list to a balancer.
  * The older standalone algorithms are `algorithms/*.py`. Their round robin scans
    its whole server list cyclically. Their weighted version expands servers into a
    repeated list. Their least-connections and least-response-time versions keep
    side tables for exactly the healthy servers.
* **The virtual DOM** in `coreConcepts/VirtualDOM/Interactive/virtualdom.js`. It has:
  * node construction (`createTextElement`, `createElement`) and the indented
    printer `printVDOM`;
  * the reconciliation in `updateElement`, written as the list of DOM operations it
    performs;
  * the editor's operations: adding an element, updating the selected node through
    `findAndUpdate`, and removing it through `removeNode`.

Modules follow the source files:

| Module | Source file |
|---|---|
| `Common` | shared sequences and sets |
| `Base` | `base.py` |
| `RoundRobin` | `round_robin.py` |
| `WeightedRoundRobin` | `weighted_round_robin.py` |
| `LeastConnections` | `least_connection.py` |
| `LeastResponseTime` | `least_response_time.py` |
| `HttpProxy` | `proxy/http_proxy.py` |
| `Startup` | `main.py` |
| `LegacyRoundRobin`, `LegacyWeightedRoundRobin`, `LegacyLeastConnections`, `LegacyLeastResponseTime` | the standalone files |
| `VirtualDom` | nodes and printing |
| `VirtualDomDiff` | `updateElement` |
| `VirtualDomApp` | the `App` edits |

How Python constructs appear in the model:

* **Stateful objects are classes.**
  * Those whose fields the source reassigns are classes with `modifies` frames.
  * Subclassing `BaseLoadBalancer` becomes a `base` field holding the shared counters
    and healthy set.
* **Iteration order over a Python set or dict is a parameter.**
  * `list(self.healthy_servers)` and the iteration over the healthy set are given as
    an explicit duplicate-free sequence `order` that enumerates the set (`Enumerates`).
  * The tie-breaking order in least connections is the parameter `tieOrder`.
* **Random choices and measured values are inputs.**
  * `random.choice` is a nondeterministic `:|` choice with a membership guarantee.
  * Latencies are `real`, and "no data" (`float('inf')`) is a separate case of
    `Average`.
  * The simulated processing time of the standalone least-response-time balancer is
    a parameter, and so are the random node ids of the virtual DOM.
* **The network is an outcome.**
  * `requests.request` becomes a `BackendOutcome`: a response with its status,
    headers and body, or a transport failure.
  * A health probe becomes a `Probe`.

Where the code and its description differ, the model follows the code:

* **The weighted round robin is not smooth.**
  * The selected server's weight becomes `2w − S`, where `S` is the sum of healthy
    weights. Every other healthy weight doubles.
  * The sum is preserved, but a server of weight 0 is never selected again as long
    as no call has exactly one healthy server (`ZeroWeightStarves`); a single
    healthy server is returned whatever its weight. The model proves no convergence
    to the configured ratios.
* **The proxy never releases a connection.** It calls `release_connection`, which no
  balancer defines. So the least-connections counters only ever rise through the
  proxy.
* **The standalone round robin ignores its `servers` argument.** Its least-connections
  balancer therefore breaks ties over the nested balancer's own list and healthy set.
  That can pick a busier server (`TieMayPickBusier`). When the nested set has run
  empty, it ends in a `KeyError` (`OutageThenTie`).
* **The standalone weighted round robin never resets its cursor** when the expanded
  list shrinks. The next call is an `IndexError` (`ShrinkCausesIndexError`).

## Model

| member | source | states |
|---|---|---|
| Base.LastMarkWins | coreConcepts/Networking/LoadBalancer/build_from_scratch/src/algorithms/base.py:32-42 | after any sequence of mark calls a server is healthy iff its last mark was `mark_healthy`, or it was never marked and was healthy before |
| Base.LastMarkAt | coreConcepts/Networking/LoadBalancer/build_from_scratch/src/algorithms/base.py:32-42 | the last mark of a server is the one at the last position naming it |
| Base.LastMarkAbsent | coreConcepts/Networking/LoadBalancer/build_from_scratch/src/algorithms/base.py:32-42 | a server no mark names has no last mark, so its health is unchanged |
| Base.MarkIdempotent | coreConcepts/Networking/LoadBalancer/build_from_scratch/src/algorithms/base.py:32-42 | marking a server twice the same way is the same as marking it once |
| Base.BaseLoadBalancer.constructor | coreConcepts/Networking/LoadBalancer/build_from_scratch/src/algorithms/base.py:13-27 | the server list is kept, every listed server is healthy and all counters start at zero |
| Base.BaseLoadBalancer.MarkHealthy | coreConcepts/Networking/LoadBalancer/build_from_scratch/src/algorithms/base.py:32-36 | the server joins the healthy set; nothing changes if it was already there; only the healthy set is modified |
| Base.BaseLoadBalancer.MarkUnhealthy | coreConcepts/Networking/LoadBalancer/build_from_scratch/src/algorithms/base.py:38-42 | the server leaves the healthy set; a no-op for an absent server; the server list is not touched |
| Base.BaseLoadBalancer.RecordRequestMetrics | coreConcepts/Networking/LoadBalancer/build_from_scratch/src/algorithms/base.py:57-69 | the request count rises by exactly 1, the latency total by the response time, the error count by 1 iff the request failed; errors never exceed requests |
| Base.BaseLoadBalancer.GetMetrics | coreConcepts/Networking/LoadBalancer/build_from_scratch/src/algorithms/base.py:71-94 | error rate and average latency are the counter quotients when there were requests and 0 otherwise; the error rate lies in [0, 1]; the server figures are the healthy-set size and list length |
| RoundRobin.Step | coreConcepts/Networking/LoadBalancer/build_from_scratch/src/algorithms/round_robin.py:26-42 | None iff there is no healthy server, the cursor then unchanged; otherwise the server at the cursor reduced modulo the healthy count, and a next cursor inside the healthy list |
| RoundRobin.PicksAt | coreConcepts/Networking/LoadBalancer/build_from_scratch/src/algorithms/round_robin.py:36-42 | the j-th of consecutive calls returns the server j places after the starting cursor, wrapping around |
| RoundRobin.RotationInOrder | coreConcepts/Networking/LoadBalancer/build_from_scratch/src/algorithms/round_robin.py:36-42 | K consecutive calls over K healthy servers return the healthy list rotated to start at the cursor |
| RoundRobin.FullRotation | coreConcepts/Networking/LoadBalancer/build_from_scratch/src/algorithms/round_robin.py:36-42 | in those K calls every healthy server is returned exactly once |
| RoundRobin.RoundRobinLoadBalancer.constructor | coreConcepts/Networking/LoadBalancer/build_from_scratch/src/algorithms/round_robin.py:17-21 | base state as for the base class and the cursor at 0 |
| RoundRobin.RoundRobinLoadBalancer.AssignServer | coreConcepts/Networking/LoadBalancer/build_from_scratch/src/algorithms/round_robin.py:23-45 | None iff the healthy set is empty; a returned server is healthy; the cursor ends inside the healthy list; the healthy set is not changed |
| WeightedRoundRobin.Scan | coreConcepts/Networking/LoadBalancer/build_from_scratch/src/algorithms/weighted_round_robin.py:80-89 | the position found is the first whose weight is strictly maximal and positive, or none iff no weight is positive |
| WeightedRoundRobin.FewHealthy | coreConcepts/Networking/LoadBalancer/build_from_scratch/src/algorithms/weighted_round_robin.py:59-77 | no healthy server gives None, a single one is returned, and in both cases no weight changes |
| WeightedRoundRobin.Choose | coreConcepts/Networking/LoadBalancer/build_from_scratch/src/algorithms/weighted_round_robin.py:59-89 | the returned server is healthy; nothing is returned exactly when no server is healthy, or when two or more are and every healthy weight is at most 0 |
| WeightedRoundRobin.Reweigh | coreConcepts/Networking/LoadBalancer/build_from_scratch/src/algorithms/weighted_round_robin.py:64-101 | a server that is not healthy keeps its weight or its absence; with two or more healthy servers every healthy one has a weight afterwards |
| WeightedRoundRobin.SelectionIsFirstMaximal | coreConcepts/Networking/LoadBalancer/build_from_scratch/src/algorithms/weighted_round_robin.py:80-89 | with two or more healthy servers, a server is selected iff it is the first in iteration order with a strictly maximal positive weight |
| WeightedRoundRobin.NonPositiveNeverSelected | coreConcepts/Networking/LoadBalancer/build_from_scratch/src/algorithms/weighted_round_robin.py:80-89 | with two or more healthy servers, one of weight at most 0 is never selected |
| WeightedRoundRobin.AllNonPositive | coreConcepts/Networking/LoadBalancer/build_from_scratch/src/algorithms/weighted_round_robin.py:80-104 | if every healthy weight is at most 0, None is returned and every healthy weight doubles |
| WeightedRoundRobin.ReweighAt | coreConcepts/Networking/LoadBalancer/build_from_scratch/src/algorithms/weighted_round_robin.py:94-101 | each healthy server's new weight is `2w − S` if selected and `2w` otherwise |
| WeightedRoundRobin.ReweighedWeights | coreConcepts/Networking/LoadBalancer/build_from_scratch/src/algorithms/weighted_round_robin.py:94-101 | the new healthy weights are the doubled old ones with the selected position replaced by `2w − S` |
| WeightedRoundRobin.ReweighKeepsHealthySum | coreConcepts/Networking/LoadBalancer/build_from_scratch/src/algorithms/weighted_round_robin.py:94-101 | when a server is selected the sum of healthy weights is unchanged |
| WeightedRoundRobin.SumRebalanced | coreConcepts/Networking/LoadBalancer/build_from_scratch/src/algorithms/weighted_round_robin.py:94-99 | doubling every weight and putting `2w − S` at one position keeps the total `S` |
| WeightedRoundRobin.SumDoubled | coreConcepts/Networking/LoadBalancer/build_from_scratch/src/algorithms/weighted_round_robin.py:94-99 | doubling every weight doubles the total |
| WeightedRoundRobin.SumUpdate | coreConcepts/Networking/LoadBalancer/build_from_scratch/src/algorithms/weighted_round_robin.py:94-99 | replacing one weight changes the total by the difference |
| WeightedRoundRobin.RewriteMatchesReweigh | coreConcepts/Networking/LoadBalancer/build_from_scratch/src/algorithms/weighted_round_robin.py:94-101 | merging the rewritten healthy weights into the weight dict gives the specified new weights |
| WeightedRoundRobin.ZeroWeightStarves | coreConcepts/Networking/LoadBalancer/build_from_scratch/src/algorithms/weighted_round_robin.py:94-101 | a server of weight 0 is never selected in any run whose calls do not have exactly one healthy server, and its weight stays 0 |
| WeightedRoundRobin.MaxValue | coreConcepts/Networking/LoadBalancer/build_from_scratch/src/algorithms/weighted_round_robin.py:29 | the value is one of the weights and no weight exceeds it |
| WeightedRoundRobin.SelectHighest | coreConcepts/Networking/LoadBalancer/build_from_scratch/src/algorithms/weighted_round_robin.py:80-89 | the selection loop returns the server at the first strictly maximal positive weight, or None |
| WeightedRoundRobin.RewriteWeights | coreConcepts/Networking/LoadBalancer/build_from_scratch/src/algorithms/weighted_round_robin.py:94-99 | the rewrite loop gives each healthy server its new weight, the last occurrence winning |
| WeightedRoundRobin.WeightedRoundRobinLoadBalancer.constructor | coreConcepts/Networking/LoadBalancer/build_from_scratch/src/algorithms/weighted_round_robin.py:18-31 | missing weights default to 1 per server; the maximum weight is one of the weights and bounds them all, or 0 when there are none |
| WeightedRoundRobin.WeightedRoundRobinLoadBalancer.AssignServer | coreConcepts/Networking/LoadBalancer/build_from_scratch/src/algorithms/weighted_round_robin.py:57-104 | the result and the new weights are those the selection and the rewrite specify, so every lemma above applies |
| WeightedRoundRobin.WeightedRoundRobinLoadBalancer.UpdateWeight | coreConcepts/Networking/LoadBalancer/build_from_scratch/src/algorithms/weighted_round_robin.py:106-116 | exactly that server's weight is set, and the maximum weight becomes the maximum of all weights |
| LeastConnections.WithCount | coreConcepts/Networking/LoadBalancer/build_from_scratch/src/algorithms/least_connection.py:64-67 | exactly the healthy servers with the given count, without duplicates |
| LeastConnections.Candidates | coreConcepts/Networking/LoadBalancer/build_from_scratch/src/algorithms/least_connection.py:62-67 | the candidates are exactly the healthy servers with the least count, and non-empty iff some server is healthy |
| LeastConnections.PickIsLeast | coreConcepts/Networking/LoadBalancer/build_from_scratch/src/algorithms/least_connection.py:47-88 | None iff no server is healthy; otherwise the pick is a tied candidate with the minimum count among healthy servers |
| LeastConnections.Pick | coreConcepts/Networking/LoadBalancer/build_from_scratch/src/algorithms/least_connection.py:47-88 | the nested cursor moves only when several servers tie for the fewest connections; a returned server is a least-loaded candidate or one from the tie order |
| LeastConnections.UniqueLeastChosen | coreConcepts/Networking/LoadBalancer/build_from_scratch/src/algorithms/least_connection.py:86-88 | a unique least-loaded server is chosen directly, without moving the nested cursor |
| LeastConnections.Bumped | coreConcepts/Networking/LoadBalancer/build_from_scratch/src/algorithms/least_connection.py:91 | only the selected server's counter changes, rising by exactly 1 |
| LeastConnections.Completed | coreConcepts/Networking/LoadBalancer/build_from_scratch/src/algorithms/least_connection.py:98-104 | only a present, positive counter falls by 1; counters stay non-negative and no other changes |
| LeastConnections.CompleteUndoesAssign | coreConcepts/Networking/LoadBalancer/build_from_scratch/src/algorithms/least_connection.py:91-104 | completing a request on the server just counted restores the counters |
| LeastConnections.LeastConnectionsLoadBalancer.constructor | coreConcepts/Networking/LoadBalancer/build_from_scratch/src/algorithms/least_connection.py:19-30 | every server starts with 0 connections, and a fresh nested round robin over the same servers |
| LeastConnections.LeastConnectionsLoadBalancer.AssignServer | coreConcepts/Networking/LoadBalancer/build_from_scratch/src/algorithms/least_connection.py:47-96 | None iff nothing is healthy; the result is healthy, least-loaded and bumped by one; the nested healthy set is restored |
| LeastConnections.LeastConnectionsLoadBalancer.BreakTie | coreConcepts/Networking/LoadBalancer/build_from_scratch/src/algorithms/least_connection.py:72-81 | the nested round robin, restricted to the tied candidates, chooses and moves its cursor one step; its healthy set is restored afterwards |
| LeastConnections.LeastConnectionsLoadBalancer.CompleteRequest | coreConcepts/Networking/LoadBalancer/build_from_scratch/src/algorithms/least_connection.py:98-104 | the counters become what `Completed` states |
| LeastResponseTime.AverageOf | coreConcepts/Networking/LoadBalancer/build_from_scratch/src/algorithms/least_response_time.py:63-67 | infinite exactly for an empty window, otherwise the arithmetic mean |
| LeastResponseTime.MinAverage | coreConcepts/Networking/LoadBalancer/build_from_scratch/src/algorithms/least_response_time.py:93-95 | one of the averages and no larger than any, infinity larger than every finite value |
| LeastResponseTime.SliceTo | coreConcepts/Networking/LoadBalancer/build_from_scratch/src/algorithms/least_response_time.py:50-51 | Python's `s[:k]` for any integer k, negative k counting from the end, always a prefix |
| LeastResponseTime.Recorded | coreConcepts/Networking/LoadBalancer/build_from_scratch/src/algorithms/least_response_time.py:47-51 | the new sample comes first, at most `window_size` samples remain and the rest is a prefix of the old window |
| LeastResponseTime.RecordedStaysBounded | coreConcepts/Networking/LoadBalancer/build_from_scratch/src/algorithms/least_response_time.py:47-51 | a window within bound stays within bound and is only trimmed when full |
| LeastResponseTime.LeastResponseTimeLoadBalancer.constructor | coreConcepts/Networking/LoadBalancer/build_from_scratch/src/algorithms/least_response_time.py:18-30 | every server starts with an empty window and the window size is kept |
| LeastResponseTime.LeastResponseTimeLoadBalancer.RecordResponseTime | coreConcepts/Networking/LoadBalancer/build_from_scratch/src/algorithms/least_response_time.py:35-51 | only the given server's window changes, created empty when missing, and becomes the recorded window |
| LeastResponseTime.LeastResponseTimeLoadBalancer.AverageResponseTime | coreConcepts/Networking/LoadBalancer/build_from_scratch/src/algorithms/least_response_time.py:53-67 | infinite exactly when the server's window is empty, the mean of the window otherwise |
| LeastResponseTime.LeastResponseTimeLoadBalancer.AssignServer | coreConcepts/Networking/LoadBalancer/build_from_scratch/src/algorithms/least_response_time.py:69-112 | None iff nothing is healthy; the result is healthy with a minimal average; a server without data is chosen only when no healthy server has data; no state changes |
| HttpProxy.Assign | coreConcepts/Networking/LoadBalancer/build_from_scratch/src/proxy/http_proxy.py:50 | the proxy's call to `assign_server` has exactly the effect of the configured algorithm's method, and leaves the counters and latency windows alone |
| HttpProxy.PutKeys | coreConcepts/Networking/LoadBalancer/build_from_scratch/src/proxy/http_proxy.py:67-70 | storing a key keeps an existing key's position and appends a new key at the end |
| HttpProxy.PutDistinct | coreConcepts/Networking/LoadBalancer/build_from_scratch/src/proxy/http_proxy.py:67-70 | storing keeps the keys distinct |
| HttpProxy.PutGet | coreConcepts/Networking/LoadBalancer/build_from_scratch/src/proxy/http_proxy.py:67-70 | the stored key reads back its value and every other key is unchanged |
| HttpProxy.DictOf | coreConcepts/Networking/LoadBalancer/build_from_scratch/src/proxy/http_proxy.py:67-70 | a dict built from pairs has distinct keys, exactly those of the pairs |
| HttpProxy.DictOfLastWins | coreConcepts/Networking/LoadBalancer/build_from_scratch/src/proxy/http_proxy.py:67-70 | each key of the built dict holds the last value given for it |
| HttpProxy.DictOfDistinct | coreConcepts/Networking/LoadBalancer/build_from_scratch/src/proxy/http_proxy.py:67-70 | pairs with distinct keys build the dict with the pairs unchanged and in order |
| HttpProxy.WithoutHostPairs | coreConcepts/Networking/LoadBalancer/build_from_scratch/src/proxy/http_proxy.py:67-70 | the filter keeps exactly the pairs not keyed "host" |
| HttpProxy.WithoutHostKeys | coreConcepts/Networking/LoadBalancer/build_from_scratch/src/proxy/http_proxy.py:67-70 | the filtered names are the inbound names other than "host" |
| HttpProxy.WithoutHostDistinct | coreConcepts/Networking/LoadBalancer/build_from_scratch/src/proxy/http_proxy.py:67-70 | filtering keeps the names distinct |
| HttpProxy.ForwardHeaders | coreConcepts/Networking/LoadBalancer/build_from_scratch/src/proxy/http_proxy.py:67-71 | the forwarded headers carry no "host" key, carry every other inbound name, and have distinct names |
| HttpProxy.ForwardKeepsOrder | coreConcepts/Networking/LoadBalancer/build_from_scratch/src/proxy/http_proxy.py:67-71 | for the inbound dict, the forwarded headers are its pairs minus those keyed exactly "host", in the original order |
| HttpProxy.Proxy | coreConcepts/Networking/LoadBalancer/build_from_scratch/src/proxy/http_proxy.py:46-121 | no server means 503 with nothing forwarded and no metrics or health change. Otherwise the request goes to `server/path` with the host-less headers, and metrics are recorded exactly once. A response is relayed as is, an error iff status ≥ 500, and health is untouched. A transport failure marks the server unhealthy, counts an error and answers 502. Latency is recorded only for a response. |
| HttpProxy.Relay | coreConcepts/Networking/LoadBalancer/build_from_scratch/src/proxy/http_proxy.py:58-121 | the bookkeeping after forwarding, as stated for `Proxy` |
| HttpProxy.ProbeMark | coreConcepts/Networking/LoadBalancer/build_from_scratch/src/proxy/http_proxy.py:137-155 | a probe marks its server healthy iff it was answered with a status below 500 |
| HttpProxy.HealthAfterCheck | coreConcepts/Networking/LoadBalancer/build_from_scratch/src/proxy/http_proxy.py:137-155 | after a check an unlisted server keeps its health, and a listed one is healthy iff its last probe answered below 500 |
| HttpProxy.HealthCheck | coreConcepts/Networking/LoadBalancer/build_from_scratch/src/proxy/http_proxy.py:135-155 | every server is probed once in list order; the healthy set and the latency windows become what the probe results specify, latency recorded whenever a probe answered |
| Startup.Lower | coreConcepts/Networking/LoadBalancer/build_from_scratch/src/main.py:28 | each capital ASCII letter becomes its small letter, 32 code points on; every other character stays where it is; the length is kept |
| Startup.LowerIdempotent | coreConcepts/Networking/LoadBalancer/build_from_scratch/src/main.py:28 | lower-casing twice is lower-casing once |
| Startup.NamesRoundTrip | coreConcepts/Networking/LoadBalancer/build_from_scratch/src/main.py:28-49 | each algorithm's name maps back to it, and any name mapped to a non-default algorithm lower-cases to that algorithm's name |
| Startup.AlgorithmFor | coreConcepts/Networking/LoadBalancer/build_from_scratch/src/main.py:28-49 | a name whose lower case is one of the four algorithm names selects exactly that algorithm; any other name selects round robin |
| Startup.LowerFixed | coreConcepts/Networking/LoadBalancer/build_from_scratch/src/main.py:28 | a string of lower-case letters and underscores is its own lower case |
| Startup.AlgorithmForIgnoresCase | coreConcepts/Networking/LoadBalancer/build_from_scratch/src/main.py:28 | the name is matched case-insensitively |
| Startup.ExampleWeights | coreConcepts/Networking/LoadBalancer/build_from_scratch/src/main.py:35 | every listed server gets a weight between 1 and the list length, and no other server gets one |
| Startup.ExampleWeightsLastPosition | coreConcepts/Networking/LoadBalancer/build_from_scratch/src/main.py:35 | the server at position i gets weight i+1 when it does not occur later; for duplicates the later position wins |
| Startup.CreateLoadBalancer | coreConcepts/Networking/LoadBalancer/build_from_scratch/src/main.py:17-49 | the four names give their four balancers and any other name gives round robin; each starts with the listed servers healthy; the weighted one gets the example weights, least connections zero counters, least response time a window of 10 |
| Startup.Split | coreConcepts/Networking/LoadBalancer/build_from_scratch/src/main.py:62 | the piece count is the comma count plus 1, and no piece contains a comma |
| Startup.JoinSplit | coreConcepts/Networking/LoadBalancer/build_from_scratch/src/main.py:62 | joining the pieces with "," gives back the original string |
| Startup.SplitJoin | coreConcepts/Networking/LoadBalancer/build_from_scratch/src/main.py:62 | splitting a comma-free list joined with "," gives back that list |
| Startup.JoinExtendLast | coreConcepts/Networking/LoadBalancer/build_from_scratch/src/main.py:62 | growing the last piece grows the joined string at its end |
| Startup.SplitPiece | coreConcepts/Networking/LoadBalancer/build_from_scratch/src/main.py:62 | a comma-free string splits into itself |
| Startup.SplitAppend | coreConcepts/Networking/LoadBalancer/build_from_scratch/src/main.py:62 | appending "," and a comma-free piece appends that piece to the split |
| Startup.DefaultConfiguration | coreConcepts/Networking/LoadBalancer/build_from_scratch/src/main.py:54-57 | with no environment the algorithm is round_robin over the two localhost backends on ports 5001 and 5002 |
| Startup.Launch | coreConcepts/Networking/LoadBalancer/build_from_scratch/src/main.py:52-68 | the balancer built from the environment is of the configured kind over the configured backends |
| LegacyRoundRobin.FirstHealthy | coreConcepts/Networking/LoadBalancer/algorithms/round_robin.py:30-38 | the scan finds the first healthy position in cyclic order from the cursor, each position inspected at most once, or reports that none is healthy |
| LegacyRoundRobin.Assignment | coreConcepts/Networking/LoadBalancer/algorithms/round_robin.py:24-39 | after a call on a non-empty list the cursor lies inside the list |
| LegacyRoundRobin.AssignmentNone | coreConcepts/Networking/LoadBalancer/algorithms/round_robin.py:24-39 | None iff no listed server is healthy (an empty list included); a returned server is healthy |
| LegacyRoundRobin.CallsAllHealthy | coreConcepts/Networking/LoadBalancer/algorithms/round_robin.py:30-37 | with every server healthy, calls from position j return the list from j on in order |
| LegacyRoundRobin.FullCycleInOrder | coreConcepts/Networking/LoadBalancer/algorithms/round_robin.py:30-37 | with every server healthy, n calls from the start return the n servers in order |
| LegacyRoundRobin.LoadBalancer.constructor | coreConcepts/Networking/LoadBalancer/algorithms/round_robin.py:16-19 | every listed server healthy and the cursor at 0 |
| LegacyRoundRobin.LoadBalancer.MarkUnhealthy | coreConcepts/Networking/LoadBalancer/algorithms/round_robin.py:21-22 | the server leaves the healthy set, idempotently; the list is untouched |
| LegacyRoundRobin.LoadBalancer.AssignServer | coreConcepts/Networking/LoadBalancer/algorithms/round_robin.py:24-39 | the result and the cursor are those of the cyclic scan, whatever server list is passed in |
| LegacyWeightedRoundRobin.ExpandCounts | coreConcepts/Networking/LoadBalancer/algorithms/weighted_round_robin.py:23-29 | the weighted list's length is the sum of healthy weights and each server occurs its healthy weight many times |
| LegacyWeightedRoundRobin.Expand | coreConcepts/Networking/LoadBalancer/algorithms/weighted_round_robin.py:23-29 | only healthy listed servers enter the weighted list |
| LegacyWeightedRoundRobin.WeightedList | coreConcepts/Networking/LoadBalancer/algorithms/weighted_round_robin.py:23-29 | only healthy listed servers enter the list, and with lists of equal length `zip` pairs every server with its weight |
| LegacyWeightedRoundRobin.Step | coreConcepts/Networking/LoadBalancer/algorithms/weighted_round_robin.py:47-56 | an empty list selects nothing, a cursor at or past the end raises IndexError and leaves the cursor, otherwise the entry under the cursor is selected and the cursor advances cyclically |
| LegacyWeightedRoundRobin.RepeatCount | coreConcepts/Networking/LoadBalancer/algorithms/weighted_round_robin.py:27-28 | a repetition holds its server exactly the weight's share of times and no other server |
| LegacyWeightedRoundRobin.WeightOfDistinct | coreConcepts/Networking/LoadBalancer/algorithms/weighted_round_robin.py:23-29 | with distinct servers, a server's share is its own weight when healthy and 0 when not |
| LegacyWeightedRoundRobin.RunFrom | coreConcepts/Networking/LoadBalancer/algorithms/weighted_round_robin.py:52-54 | calls from position j return the list from j on in order |
| LegacyWeightedRoundRobin.FullRun | coreConcepts/Networking/LoadBalancer/algorithms/weighted_round_robin.py:47-56 | from index 0, len(list) calls return the weighted list in order, so each server weight-many times |
| LegacyWeightedRoundRobin.ShrinkCausesIndexError | coreConcepts/Networking/LoadBalancer/algorithms/weighted_round_robin.py:31-37 | with the cursor left at 1 after the list shrinks to one entry, the next call is an IndexError |
| LegacyWeightedRoundRobin.WeightedRoundRobinLoadBalancer.constructor | coreConcepts/Networking/LoadBalancer/algorithms/weighted_round_robin.py:16-21 | servers and weights kept, all healthy, cursor at 0, and the weighted list built from them |
| LegacyWeightedRoundRobin.WeightedRoundRobinLoadBalancer.CreateWeightedList | coreConcepts/Networking/LoadBalancer/algorithms/weighted_round_robin.py:23-29 | the loop builds the healthy servers in list order, each repeated by its weight |
| LegacyWeightedRoundRobin.WeightedRoundRobinLoadBalancer.MarkUnhealthy | coreConcepts/Networking/LoadBalancer/algorithms/weighted_round_robin.py:31-37 | the server leaves the healthy set, the list is rebuilt to match, and nothing changes when it was already unhealthy |
| LegacyWeightedRoundRobin.WeightedRoundRobinLoadBalancer.MarkHealthy | coreConcepts/Networking/LoadBalancer/algorithms/weighted_round_robin.py:39-45 | the server joins the healthy set, the list is rebuilt to match, and nothing changes when it was already healthy |
| LegacyWeightedRoundRobin.WeightedRoundRobinLoadBalancer.AssignServer | coreConcepts/Networking/LoadBalancer/algorithms/weighted_round_robin.py:47-56 | an empty list selects nothing and keeps the cursor; otherwise the entry at the cursor is selected and the cursor advances modulo the length, or an IndexError when the cursor is past the end |
| LegacyLeastConnections.OutcomeCases | coreConcepts/Networking/LoadBalancer/algorithms/least_connection.py:37-73 | nothing returned iff nothing is healthy; a returned server is healthy; it is the least loaded when there is no tie; a KeyError only on a tie with no healthy server left in the nested balancer |
| LegacyLeastConnections.Selection | coreConcepts/Networking/LoadBalancer/algorithms/least_connection.py:43-65 | without a tie the only least-loaded healthy server is selected; the nested cursor moves only on a tie |
| LegacyLeastConnections.Settle | coreConcepts/Networking/LoadBalancer/algorithms/least_connection.py:67-73 | a selection with a counter is assigned and its counter alone rises by one; None or a server without a counter is a KeyError that changes no counter |
| LegacyLeastConnections.Outcome | coreConcepts/Networking/LoadBalancer/algorithms/least_connection.py:37-73 | nothing is returned exactly when nothing is healthy; an assigned server has a counter and no counter is added; a KeyError changes no counter |
| LegacyLeastConnections.TieWithoutNestedHealthy | coreConcepts/Networking/LoadBalancer/algorithms/least_connection.py:60-68 | conversely, a tie answered with None by the nested balancer is a KeyError |
| LegacyLeastConnections.TieMayPickBusier | coreConcepts/Networking/LoadBalancer/algorithms/least_connection.py:60-68 | on a tie the nested balancer can choose a server that is not a tied candidate and has more connections |
| LegacyLeastConnections.TwoZerosTie | coreConcepts/Networking/LoadBalancer/algorithms/least_connection.py:49-53 | two healthy servers without connections are a tie |
| LegacyLeastConnections.LeastConnectionsLoadBalancer.constructor | coreConcepts/Networking/LoadBalancer/algorithms/least_connection.py:16-20 | every server healthy with 0 connections, and a fresh nested balancer with the same healthy set |
| LegacyLeastConnections.LeastConnectionsLoadBalancer.MarkUnhealthy | coreConcepts/Networking/LoadBalancer/algorithms/least_connection.py:22-29 | a healthy server loses its health and its count, and leaves the nested healthy set; no-op otherwise; counters stay keyed by the healthy set |
| LegacyLeastConnections.LeastConnectionsLoadBalancer.MarkHealthy | coreConcepts/Networking/LoadBalancer/algorithms/least_connection.py:31-35 | an unhealthy server rejoins with count 0 and the nested balancer is not told; no-op otherwise |
| LegacyLeastConnections.LeastConnectionsLoadBalancer.SelectServer | coreConcepts/Networking/LoadBalancer/algorithms/least_connection.py:44-63 | the unique least-loaded server, or on a tie the nested balancer's answer from its own list |
| LegacyLeastConnections.LeastConnectionsLoadBalancer.AssignServer | coreConcepts/Networking/LoadBalancer/algorithms/least_connection.py:37-73 | the outcome, the counters and the nested cursor are those `Outcome` specifies; the counter and nested-set invariants are kept |
| LegacyLeastConnections.LeastConnectionsLoadBalancer.Count | coreConcepts/Networking/LoadBalancer/algorithms/least_connection.py:68 | the selected server's count rises by 1, and a missing key (None included) is a KeyError |
| LegacyLeastConnections.LeastConnectionsLoadBalancer.CompleteRequest | coreConcepts/Networking/LoadBalancer/algorithms/least_connection.py:75-81 | only a present, positive count falls by 1 |
| LegacyLeastConnections.OutageThenTie | coreConcepts/Networking/LoadBalancer/algorithms/least_connection.py:22-68 | taking both servers down and back up and then assigning ends in a KeyError |
| LegacyLeastResponseTime.Dedup | coreConcepts/Networking/LoadBalancer/algorithms/least_response_time.py:17 | the dict's keys: duplicate-free, exactly the listed servers, the first listed server first, and a list without repeats kept as it is |
| LegacyLeastResponseTime.DedupSnoc | coreConcepts/Networking/LoadBalancer/algorithms/least_response_time.py:17 | a repeated server leaves the keys as they were, a new one becomes the last key |
| LegacyLeastResponseTime.Without | coreConcepts/Networking/LoadBalancer/algorithms/least_response_time.py:24 | popping a key removes exactly that key, keeps keys distinct, and leaves the order as it is when the key is absent |
| LegacyLeastResponseTime.WithoutAt | coreConcepts/Networking/LoadBalancer/algorithms/least_response_time.py:24 | popping the key at position k of a duplicate-free order removes position k and keeps every other key in order |
| LegacyLeastResponseTime.FirstMin | coreConcepts/Networking/LoadBalancer/algorithms/least_response_time.py:39-41 | the chosen key has the smallest time and no earlier key has as small a time |
| LegacyLeastResponseTime.EqualTimesPickFirst | coreConcepts/Networking/LoadBalancer/algorithms/least_response_time.py:39-41 | with all times equal the first key is chosen |
| LegacyLeastResponseTime.LeastResponseTimeLoadBalancer.constructor | coreConcepts/Networking/LoadBalancer/algorithms/least_response_time.py:15-18 | every server healthy with time 0, keys in list order |
| LegacyLeastResponseTime.LeastResponseTimeLoadBalancer.MarkUnhealthy | coreConcepts/Networking/LoadBalancer/algorithms/least_response_time.py:20-24 | a healthy server loses its health and its time; a no-op otherwise; times stay keyed by the healthy set |
| LegacyLeastResponseTime.LeastResponseTimeLoadBalancer.MarkHealthy | coreConcepts/Networking/LoadBalancer/algorithms/least_response_time.py:26-30 | an unhealthy server rejoins with time 0 as the newest key; no-op otherwise |
| LegacyLeastResponseTime.LeastResponseTimeLoadBalancer.AssignRequest | coreConcepts/Networking/LoadBalancer/algorithms/least_response_time.py:32-50 | nothing when no server is healthy; otherwise a healthy server with the smallest time, whose time alone becomes the processing time |
| LegacyLeastResponseTime.FirstRequestGoesFirst | coreConcepts/Networking/LoadBalancer/algorithms/least_response_time.py:15-41 | right after start-up the first request goes to the first listed server |
| VirtualDom.Kept | coreConcepts/VirtualDOM/Interactive/virtualdom.js:16-17 | the kept values are exactly the node and primitive values of the list: null and undefined are dropped and nothing is added |
| VirtualDom.FlatAppend | coreConcepts/VirtualDOM/Interactive/virtualdom.js:15 | flattening distributes over concatenation, so order is preserved |
| VirtualDom.KeptAppend | coreConcepts/VirtualDOM/Interactive/virtualdom.js:16-17 | filtering distributes over concatenation |
| VirtualDom.KeptMissing | coreConcepts/VirtualDOM/Interactive/virtualdom.js:16-17 | a list of null and undefined values keeps nothing |
| VirtualDom.KeptAll | coreConcepts/VirtualDOM/Interactive/virtualdom.js:16-17 | a list with no null or undefined value is kept whole, in order |
| VirtualDom.CreateElementChildren | coreConcepts/VirtualDOM/Interactive/virtualdom.js:3-26 | for children given one by one, none null or undefined, the element has one child per argument in order: a node as it is, a primitive as a text node with that text, no props, no children and the supplied id; the element takes the id after those |
| VirtualDom.AbsentIgnored | coreConcepts/VirtualDOM/Interactive/virtualdom.js:15-17 | an array of null and undefined children changes nothing about the element |
| VirtualDom.ArrayIsSpread | coreConcepts/VirtualDOM/Interactive/virtualdom.js:15 | passing children as one array is the same as passing them one by one (flattening one level) |
| VirtualDom.FlatSingles | coreConcepts/VirtualDOM/Interactive/virtualdom.js:15 | flattening separate arguments gives them back |
| VirtualDom.PrintNode | coreConcepts/VirtualDOM/Interactive/virtualdom.js:215-251 | every printed node starts with its indentation and ends with a newline |
| VirtualDom.TextNodePrints | coreConcepts/VirtualDOM/Interactive/virtualdom.js:215-222 | a text node prints as the indentation, the quoted text and a newline |
| VirtualDom.PrintLines | coreConcepts/VirtualDOM/Interactive/virtualdom.js:215-251 | a tree without newlines in its strings prints one line per text node, one line per childless element and two per parent element |
| VirtualDom.PrintElementLines | coreConcepts/VirtualDOM/Interactive/virtualdom.js:237-248 | an element prints one line `<t ...></t>` without children, and an open line, its children and a close line with them |
| VirtualDom.PrintLayout | coreConcepts/VirtualDOM/Interactive/virtualdom.js:215-251 | a missing node prints nothing; a text node prints its quoted value on one line; a childless element prints its opening and closing tag on one line; a parent element prints its opening tag, its children one level deeper, and its closing tag |
| VirtualDom.PrintChildrenAppend | coreConcepts/VirtualDOM/Interactive/virtualdom.js:240-248 | the children print one after another, each in full, in order |
| VirtualDom.PrintChildrenLines | coreConcepts/VirtualDOM/Interactive/virtualdom.js:240-248 | the children's lines add up |
| VirtualDom.BreaksAppend | coreConcepts/VirtualDOM/Interactive/virtualdom.js:215-251 | line breaks add up over concatenation |
| VirtualDom.BreaksQuoted | coreConcepts/VirtualDOM/Interactive/virtualdom.js:220-222 | a quoted text line adds one line break |
| VirtualDom.BreaksOpen | coreConcepts/VirtualDOM/Interactive/virtualdom.js:224-236 | an opening tag adds no line break of its own |
| VirtualDom.BreaksParent | coreConcepts/VirtualDOM/Interactive/virtualdom.js:240-248 | a parent's open and close lines add two line breaks |
| VirtualDom.AttributesNoBreaks | coreConcepts/VirtualDOM/Interactive/virtualdom.js:227-235 | attributes without newlines print without newlines |
| VirtualDom.AttributesAppend | coreConcepts/VirtualDOM/Interactive/virtualdom.js:227-235 | attributes print one after another, in property order |
| VirtualDom.ChildrenPropHidden | coreConcepts/VirtualDOM/Interactive/virtualdom.js:228 | a `children` property is not printed |
| VirtualDom.ClassNameShownAsClass | coreConcepts/VirtualDOM/Interactive/virtualdom.js:229-233 | `className` prints as `class` |
| VirtualDomDiff.Lookup | coreConcepts/VirtualDOM/Interactive/virtualdom.js:123-168 | a property read finds the value of a property with that name, or nothing iff there is none |
| VirtualDomDiff.LookupDistinct | coreConcepts/VirtualDOM/Interactive/virtualdom.js:123-168 | with distinct names each property reads back its own value |
| VirtualDomDiff.Removals | coreConcepts/VirtualDOM/Interactive/virtualdom.js:129-140 | an attribute removal for each old property (not `children`) whose new value is falsy, and none iff there is no such property |
| VirtualDomDiff.Sets | coreConcepts/VirtualDOM/Interactive/virtualdom.js:143-167 | a set for each new property (not `children`) whose value changed, and none iff no value changed |
| VirtualDomDiff.NoPropPatchesMeansSameProps | coreConcepts/VirtualDOM/Interactive/virtualdom.js:123-168 | no property patch means the two property sets agree |
| VirtualDomDiff.DiffEmptyMeansSame | coreConcepts/VirtualDOM/Interactive/virtualdom.js:66-183 | an empty diff means the two trees have the same shape, types, texts and properties |
| VirtualDomDiff.ChildrenEmptyMeansSame | coreConcepts/VirtualDOM/Interactive/virtualdom.js:171-182 | no patch for the children means equally many children, pairwise the same |
| VirtualDomDiff.SamePropsNoPatches | coreConcepts/VirtualDOM/Interactive/virtualdom.js:123-168 | agreeing properties with distinct names and non-empty values give no property patch |
| VirtualDomDiff.SameMeansDiffEmpty | coreConcepts/VirtualDOM/Interactive/virtualdom.js:66-183 | conversely, trees that agree, when properties are distinct and non-empty, give an empty diff |
| VirtualDomDiff.SameChildrenNoPatches | coreConcepts/VirtualDOM/Interactive/virtualdom.js:171-182 | pairwise agreeing children give no patch |
| VirtualDomDiff.SameReflexive | coreConcepts/VirtualDOM/Interactive/virtualdom.js:66-183 | every tree agrees with itself |
| VirtualDomDiff.EmptyClassRemovedAgainstItself | coreConcepts/VirtualDOM/Interactive/virtualdom.js:129-140 | an element with an empty `className` diffed against itself still removes its `class` attribute, since "" is falsy |
| VirtualDomDiff.AppendedChildIsOneAppend | coreConcepts/VirtualDOM/Interactive/virtualdom.js:66-182 | adding one child to a clean element diffs to exactly one append of that child |
| VirtualDomDiff.AppendedChildren | coreConcepts/VirtualDOM/Interactive/virtualdom.js:171-182 | the child pass over the old children plus one new child is one append |
| VirtualDomDiff.NewChildrenAppended | coreConcepts/VirtualDOM/Interactive/virtualdom.js:68-74 | every child position past the end of the old list is an append of that new child under the element, in position order, whatever the old children were |
| VirtualDomDiff.OldChildrenRemoved | coreConcepts/VirtualDOM/Interactive/virtualdom.js:77-88 | every child position past the end of the new list is a removal of the old child at that position, in position order, whatever the new children were |
| VirtualDomDiff.Diff | coreConcepts/VirtualDOM/Interactive/virtualdom.js:66-183 | every patch acts at or below `parent`, and at or below the node's own position when there is an old node; no patch at all only when both nodes are given |
| VirtualDomDiff.DiffChildren | coreConcepts/VirtualDOM/Interactive/virtualdom.js:171-182 | every patch for the child positions acts at or below the element |
| VirtualDomApp.Ids | coreConcepts/VirtualDOM/Interactive/virtualdom.js:338-371 | the ids of a tree in preorder, the root first |
| VirtualDomApp.IdsOfCons | coreConcepts/VirtualDOM/Interactive/virtualdom.js:365-367 | the ids of a child list are those of the first child, then the rest |
| VirtualDomApp.IdsOfAppend | coreConcepts/VirtualDOM/Interactive/virtualdom.js:365-367 | the ids of concatenated child lists concatenate |
| VirtualDomApp.IdsOfUpdate | coreConcepts/VirtualDOM/Interactive/virtualdom.js:365-367 | replacing a child by one with the same ids keeps the list's ids |
| VirtualDomApp.SpliceWhole | coreConcepts/VirtualDOM/Interactive/virtualdom.js:339 | replacing the whole tree is a splice at its root |
| VirtualDomApp.SplicePrefix | coreConcepts/VirtualDOM/Interactive/virtualdom.js:365-367 | a splice stays one with untouched ids put in front |
| VirtualDomApp.SpliceSuffix | coreConcepts/VirtualDOM/Interactive/virtualdom.js:365-367 | a splice stays one with untouched ids put after |
| VirtualDomApp.Find | coreConcepts/VirtualDOM/Interactive/virtualdom.js:338-371 | a node with the id is found iff the tree holds that id, and it carries that id |
| VirtualDomApp.FindIn | coreConcepts/VirtualDOM/Interactive/virtualdom.js:364-368 | the same for a child list |
| VirtualDomApp.FirstText | coreConcepts/VirtualDOM/Interactive/virtualdom.js:345-347 | the first text child, or none iff no child is a text node |
| VirtualDomApp.RetextedFirstText | coreConcepts/VirtualDOM/Interactive/virtualdom.js:343-353 | the first text child gets the new text and the other children are untouched; without a text child a new one is appended |
| VirtualDomApp.SetPropLookup | coreConcepts/VirtualDOM/Interactive/virtualdom.js:356-358 | the set property reads back the new value, every other property is unchanged, and names stay distinct |
| VirtualDomApp.Edited | coreConcepts/VirtualDOM/Interactive/virtualdom.js:339-361 | the edited node keeps its id and type; a text node takes the new text when one is given and keeps its value otherwise |
| VirtualDomApp.EditedElement | coreConcepts/VirtualDOM/Interactive/virtualdom.js:342-359 | an edited element's first text child carries the new text when one is given and the children are untouched otherwise; its `className` holds the new class when one is given and the props are untouched otherwise |
| VirtualDomApp.EditedIds | coreConcepts/VirtualDOM/Interactive/virtualdom.js:342-353 | an edit adds at most the id of an appended text child and keeps the other ids |
| VirtualDomApp.Updated | coreConcepts/VirtualDOM/Interactive/virtualdom.js:338-371 | a tree without the id is unchanged and the root keeps its id |
| VirtualDomApp.UpdatedIn | coreConcepts/VirtualDOM/Interactive/virtualdom.js:364-368 | a child list without the id is unchanged |
| VirtualDomApp.UpdateFindsEdited | coreConcepts/VirtualDOM/Interactive/virtualdom.js:338-371 | after the update the first node with the id is the edit of the first node with the id before |
| VirtualDomApp.UpdateInFindsEdited | coreConcepts/VirtualDOM/Interactive/virtualdom.js:364-368 | the same for a child list |
| VirtualDomApp.UpdatedIds | coreConcepts/VirtualDOM/Interactive/virtualdom.js:338-371 | only the first node with the id is edited: the preorder ids change only in that node's subtree |
| VirtualDomApp.UpdatedInIds | coreConcepts/VirtualDOM/Interactive/virtualdom.js:364-368 | the same for a child list |
| VirtualDomApp.UpdatedHeadIds | coreConcepts/VirtualDOM/Interactive/virtualdom.js:364-368 | the same when the id lies in the first child |
| VirtualDomApp.UpdatedLaterIds | coreConcepts/VirtualDOM/Interactive/virtualdom.js:364-368 | the same when the id lies after the first child |
| VirtualDomApp.FindAndUpdate | coreConcepts/VirtualDOM/Interactive/virtualdom.js:338-371 | reports whether the id was found (iff the tree holds it) and returns the tree with its first matching node edited |
| VirtualDomApp.RemovedIn | coreConcepts/VirtualDOM/Interactive/virtualdom.js:396-413 | a child list without the id is unchanged |
| VirtualDomApp.RemovedFromRoot | coreConcepts/VirtualDOM/Interactive/virtualdom.js:396-423 | the root itself is never removed: a root with the id, or a tree without it, stays as it is; the root keeps its id, type and props |
| VirtualDomApp.RemovedIds | coreConcepts/VirtualDOM/Interactive/virtualdom.js:396-413 | exactly one node is removed, the first in preorder with the id, with its subtree; the other ids stay in order |
| VirtualDomApp.RemovedHeadIds | coreConcepts/VirtualDOM/Interactive/virtualdom.js:397-402 | the same when the first child has the id |
| VirtualDomApp.RemovedInsideIds | coreConcepts/VirtualDOM/Interactive/virtualdom.js:406-410 | the same when the id lies inside the first child |
| VirtualDomApp.RemovedLaterIds | coreConcepts/VirtualDOM/Interactive/virtualdom.js:406-410 | the same when the id lies after the first child |
| VirtualDomApp.RemoveNode | coreConcepts/VirtualDOM/Interactive/virtualdom.js:396-413 | reports whether the id was found (iff the list holds it) and returns the list with the first node with the id removed |
| VirtualDomApp.App.constructor | coreConcepts/VirtualDOM/Interactive/virtualdom.js:256-263 | the root is an empty `div` with id `app-root`, and there is no previous tree |
| VirtualDomApp.App.AddElement | coreConcepts/VirtualDOM/Interactive/virtualdom.js:298-328 | the new element (class only when given, text as its child) is appended to the root; the old root is kept as the previous tree; the patches are the diff of the two, exactly one append for a clean root |
| VirtualDomApp.App.UpdateSelected | coreConcepts/VirtualDOM/Interactive/virtualdom.js:330-389 | nothing happens without a selection; otherwise the old root is kept, the first node with the id is edited and the patches are the diff |
| VirtualDomApp.App.RemoveSelected | coreConcepts/VirtualDOM/Interactive/virtualdom.js:391-439 | nothing happens without a selection; otherwise the old root is kept, the first node below the root with the id is removed and the patches are the diff |

## Left out

- Wall-clock values (`start_time`, `uptime`, `requests_per_second`) are not modelled. They depend on the clock.
- The least-response-time ping fields and methods (`last_ping_time`, `ping_interval`, `should_ping_server`, `ping_server`) are not modelled. They are time-based, and `ping_server` is an empty stub.
- Logging, `print` output and the demo blocks at the bottom of the algorithm files are text output with no effect on state.
- The health-check thread (`health_check_loop` with `time.sleep`) is not modelled, and neither is its unsynchronised sharing of balancer state with the handlers. That is concurrency; one call of `HealthCheck` models one cycle.
- FastAPI routing, `requests.request`, uvicorn, HOST and PORT are network plumbing. The backend call is an input outcome, and the `stats` route appears as `GetMetrics`.
- HttpProxy.ForwardHeaders: headers are name/value pairs compared exactly; the HTTP library's case-insensitive names and repeated headers are not modelled.
- HttpProxy.Proxy does not model `release_connection`. No balancer defines it, so the `hasattr` test is always false and the hook never runs.
- Startup.Lower lower-cases only ASCII letters. Python's `str.lower` also folds non-ASCII letters, which the model leaves unchanged.
- Startup.Launch does not model reading the process environment. The environment is given as a map.
- Random values are inputs or nondeterministic choices: the node ids from `Math.random` and the processing time from `random.uniform`. The least-response-time algorithm's `random.choice` is a nondeterministic choice.
- Floating point is not modelled: latencies and averages are exact `real` values, and infinity is a separate case.
- Real DOM work is not modelled: `createRealDOMNode`, `highlightElement`, `logOperation`, the `setTimeout` delays, event listeners, the cytoscape graph, `updateVDOMDisplay`, `gatherElements`, `updateElementSelect` and `elementsMap`. The diff is modelled as the list of DOM operations it would perform.
- VirtualDomApp.FindAndUpdate does not model in-place mutation or aliasing. It and `RemoveNode` work on tree values and return the edited tree, so a node object reachable twice in the real tree is not modelled.
- VirtualDomApp.App.RemoveSelected does not model the fallback pass of `removeElement`. It repeats the same search over the root's children, which has already failed, so it finds nothing.
- The `JSON.parse(JSON.stringify(...))` snapshot of the previous tree is modelled as a value copy.
- VirtualDom.CreateElement does not model every JavaScript value. Children are objects (nodes), strings (their `String()` form), or null and undefined. Arrays nested more than one level deep are not modelled, and neither is the numeric-key ordering of JavaScript objects; props are ordered pairs.
- LegacyWeightedRoundRobin.WeightedRoundRobinLoadBalancer.AssignServer returns the selected server, where the source only prints it and returns `None`; IndexError is raised in the source and is a result in the model.
- LegacyLeastResponseTime.LeastResponseTimeLoadBalancer.AssignRequest returns the selected server, where the source only prints it and returns `None`.
- HttpProxy.Proxy does not model the `except Exception` block catching a failure raised after the metrics were recorded (for example while copying the response headers). Such a failure would count the request a second time, as an error, and mark the server unhealthy; the model lets only the backend call fail.
- VirtualDom.CreateElement does not model a missing `props` argument (the `props = {}` default); callers always give props.
- The commented-out `mark_unhealthy` and `mark_healthy` overrides in the production least-connections file are not code. The inherited base methods apply, so connection counts survive health changes.
