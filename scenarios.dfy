/**
 * Clients of the selectors and the health checker: the round-robin test
 * scenario, a full rotation, and a selector reading the list a health
 * checker has just written (the two share one `Arc<RwLock<Vec<String>>>`).
 */
module Scenarios {
  import opened Wrappers
  import opened SelectServer
  import opened BackgroundHealthChecker

  /** With [server1, server2], four selections alternate server1, server2, server1, server2. */
  method RoundRobinAlternates() returns (picks: seq<string>)
    ensures picks == ["server1", "server2", "server1", "server2"]
  {
    var list := new ServerList(["server1", "server2"]);
    var selector := new RoundRobinSelectServer(list);
    picks := [];
    var k := 0;
    while k < 4
      invariant 0 <= k <= 4 && selector.Valid() && selector.targetServers == list
      invariant list.servers == ["server1", "server2"] && !list.poisoned
      invariant selector.currentServerIndex == k
      invariant |picks| == k
      invariant forall i :: 0 <= i < k ==> picks[i] == list.servers[i % 2]
    {
      var r := selector.Execute();
      picks := picks + [r.value.server];
      k := k + 1;
    }
  }

  /**
   * n selections on an unchanged list of n servers, with no wrap-around of
   * the cursor: the i-th returns the server at position (cursor + i) mod n,
   * so every position of the list is served exactly once.
   */
  method ServeOneRound(selector: RoundRobinSelectServer) returns (picks: seq<string>)
    requires selector.Valid()
    requires !selector.targetServers.poisoned && selector.targetServers.servers != []
    requires selector.currentServerIndex + |selector.targetServers.servers| < USIZE_MODULUS
    modifies selector
    ensures selector.Valid()
    ensures selector.currentServerIndex == Advance(old(selector.currentServerIndex), |picks|)
    ensures selector.currentServerIndex == old(selector.currentServerIndex) + |picks|
    ensures |picks| == |selector.targetServers.servers|
    ensures forall i :: 0 <= i < |picks| ==>
      picks[i] == selector.targetServers.servers[RotationIndex(old(selector.currentServerIndex), i, |picks|)]
    ensures forall p :: 0 <= p < |picks| ==> selector.targetServers.servers[p] in picks
  {
    var list := selector.targetServers;
    var n := |list.servers|;
    var start := selector.currentServerIndex;
    picks := [];
    while |picks| < n
      invariant selector.Valid() && selector.targetServers == list
      invariant |picks| <= n && selector.currentServerIndex == Advance(start, |picks|)
      invariant forall i :: 0 <= i < |picks| ==> picks[i] == list.servers[RotationIndex(start, i, n)]
    {
      AdvanceWithoutWrap(start, |picks|);
      var r := selector.Execute();
      picks := picks + [r.value.server];
    }
    AdvanceWithoutWrap(start, n);
    forall p | 0 <= p < n ensures list.servers[p] in picks {
      RotationCoversEveryPosition(start, n, p);
      var i :| 0 <= i < n && RotationIndex(start, i, n) == p;
      assert picks[i] == list.servers[p];
    }
  }

  /**
   * Across the wrap-around the rotation restarts at position 0: with three
   * servers and the cursor at the word maximum (where 2^64 - 1 earlier
   * selections leave it), three selections pick s0, s0, s1 and never s2,
   * because 3 does not divide 2^64.
   */
  method WrapRestartsRotation() returns (picks: seq<string>)
    ensures picks == ["s0", "s0", "s1"]
  {
    var list := new ServerList(["s0", "s1", "s2"]);
    var selector := new RoundRobinSelectServer(list);
    selector.currentServerIndex := USIZE_MODULUS - 1;
    var first := selector.Execute();
    var second := selector.Execute();
    var third := selector.Execute();
    picks := [first.value.server, second.value.server, third.value.server];
  }

  /**
   * A round-robin selector over the list a freshly built checker maintains:
   * after one cycle it only ever returns a configured server whose probe
   * passed, and reports NoOneIsAlive exactly when none passed.
   */
  method CheckThenSelect(servers: seq<string>, healthEndpoint: string, probe: Prober)
    returns (checker: TimedBackgroundChecker, r: Result<Response, SelectServer.Error>)
    ensures r.Ok? ==> r.value.server in servers && checker.IsServerHealthy(r.value.server, probe)
    ensures r == Err(NoOneIsAlive) <==> forall s :: s in servers ==> !checker.IsServerHealthy(s, probe)
    ensures r != Err(PoisonedRead)
  {
    checker := new TimedBackgroundChecker(servers, healthEndpoint, 100);
    var selector := new RoundRobinSelectServer(checker.healthyServers);
    checker.RunCycle(probe);
    r := selector.Execute();
  }
}
