/** Round robin over the healthy set (build_from_scratch/src/algorithms/round_robin.py):
    a cursor into the list Python makes of the healthy set, reduced modulo the
    current size before every use. */
module RoundRobin {
  import opened Common
  import opened Base

  /** One call of `assign_server` on the healthy list `order` with cursor `index`:
      the server returned and the cursor afterwards. */
  function Step(order: seq<Server>, index: nat): (r: (Option<Server>, nat))
    ensures r.0.None? <==> order == []
    ensures order == [] ==> r.1 == index
    ensures order != [] ==> r.0 == Some(order[index % |order|]) && r.1 < |order|
  {
    if order == [] then (None, index)
    else
      var i := index % |order|;
      (Some(order[i]), (i + 1) % |order|)
  }

  /** The servers returned by `k` consecutive calls over the same healthy list. */
  function Picks(order: seq<Server>, index: nat, k: nat): (p: seq<Server>)
    requires order != []
    ensures |p| == k
    decreases k
  {
    if k == 0 then []
    else
      var (s, next) := Step(order, index);
      [s.value] + Picks(order, next, k - 1)
  }

  /** The j-th of consecutive calls (j below the list size) returns the server
      j places after the reduced cursor, wrapping around the end of the list. */
  lemma {:induction false} PicksAt(order: seq<Server>, index: nat, k: nat, j: nat)
    requires order != [] && j < k && j < |order|
    ensures var i := index % |order|;
            Picks(order, index, k)[j] == if i + j < |order| then order[i + j] else order[i + j - |order|]
    decreases k
  {
    var n := |order|;
    var i := index % n;
    if j > 0 {
      var next := (i + 1) % n;
      ModNext(i, n);
      ModBelow(next, n);
      PicksAt(order, next, k - 1, j - 1);
    }
  }

  /** K consecutive calls over a fixed healthy list of size K return the list
      rotated to start at the reduced cursor. */
  lemma RotationInOrder(order: seq<Server>, index: nat)
    requires order != []
    ensures Picks(order, index, |order|) == order[index % |order|..] + order[..index % |order|]
  {
    var n := |order|;
    var i := index % n;
    var rot := order[i..] + order[..i];
    forall j | 0 <= j < n
      ensures Picks(order, index, n)[j] == rot[j]
    {
      PicksAt(order, index, n, j);
      if j < n - i {
        assert rot[j] == order[i..][j];
      } else {
        assert rot[j] == order[..i][j - (n - i)];
      }
    }
  }

  /** Hence K consecutive calls return each healthy server exactly once. */
  lemma FullRotation(order: seq<Server>, healthy: set<Server>, index: nat)
    requires Enumerates(order, healthy) && order != []
    ensures forall s :: s in healthy ==> multiset(Picks(order, index, |order|))[s] == 1
  {
    var i := index % |order|;
    RotationInOrder(order, index);
    assert order == order[..i] + order[i..];
    assert multiset(Picks(order, index, |order|)) == multiset(order);
    forall s | s in healthy
      ensures multiset(order)[s] == 1
    {
      DistinctOccursOnce(order, s);
    }
  }

  class RoundRobinLoadBalancer {
    const base: BaseLoadBalancer
    /** Position in the healthy list of the next server to return. */
    var currentIndex: nat

    constructor (servers: seq<Server>)
      ensures fresh(base) && base.servers == servers
      ensures forall s :: s in base.healthyServers <==> s in servers
      ensures base.requestCount == 0 && base.errorCount == 0 && base.totalResponseTime == 0.0
      ensures base.Valid()
      ensures currentIndex == 0
    {
      base := new BaseLoadBalancer(servers);
      currentIndex := 0;
    }

    /** Returns the server under the reduced cursor and advances it; None, with
        the cursor unchanged, exactly when no server is healthy. The healthy set
        is not changed. `order` is the order `list(self.healthy_servers)` takes. */
    method AssignServer(order: seq<Server>) returns (r: Option<Server>)
      requires Enumerates(order, base.healthyServers)
      modifies this`currentIndex
      ensures (r, currentIndex) == Step(order, old(currentIndex))
      ensures r.None? <==> base.healthyServers == {}
      ensures r.Some? ==> r.value in base.healthyServers
      ensures r.Some? ==> currentIndex < |order|
    {
      EnumeratesEmpty(order, base.healthyServers);
      if base.healthyServers == {} {
        return None;
      }
      // Python re-checks emptiness of the list it builds; `order` is non-empty here.
      var serverList := order;
      currentIndex := currentIndex % |serverList|;
      var selected := serverList[currentIndex];
      currentIndex := (currentIndex + 1) % |serverList|;
      return Some(selected);
    }
  }
}
