/**
 * The timed background health checker: one polling cycle, which probes every
 * configured server and overwrites the shared list of healthy servers
 * (src/background_health_checker/timed_background_health_checker.rs).
 */
module BackgroundHealthChecker {
  import opened Wrappers
  import opened Http
  import opened HeaderConversions
  import HttpClient
  import SelectServer

  /**
   * What a health probe comes back with: the HTTP client's result, or the
   * expiry of the timeout wrapped around the call.
   */
  datatype ProbeOutcome = Answered(result: Result<HttpClient.Response, HttpClient.Error>) | TimedOut

  /** The injected HTTP client together with its timeout, for the duration of one cycle. */
  type Prober = HttpClient.Request -> ProbeOutcome

  /** `sub` is `full` with some elements left out, order kept, as witnessed by the positions `idx`. */
  ghost predicate Embeds(idx: seq<nat>, sub: seq<string>, full: seq<string>) {
    && |idx| == |sub|
    && (forall i :: 0 <= i < |idx| ==> idx[i] < |full| && full[idx[i]] == sub[i])
    && (forall i, j :: 0 <= i < j < |idx| ==> idx[i] < idx[j])
  }

  ghost predicate IsSubsequence(sub: seq<string>, full: seq<string>) {
    exists idx :: Embeds(idx, sub, full)
  }

  lemma SubsequenceIsNoLonger(sub: seq<string>, full: seq<string>)
    requires IsSubsequence(sub, full)
    ensures |sub| <= |full|
  {
    var idx: seq<nat> :| Embeds(idx, sub, full);
    if sub != [] {
      IncreasingPositionsBound(idx, |full|);
    }
  }

  lemma {:induction false} IncreasingPositionsBound(idx: seq<nat>, bound: nat)
    requires forall i :: 0 <= i < |idx| ==> idx[i] < bound
    requires forall i, j :: 0 <= i < j < |idx| ==> idx[i] < idx[j]
    ensures |idx| <= bound
  {
    if idx != [] {
      var last := idx[|idx| - 1];
      var init := idx[..|idx| - 1];
      IncreasingPositionsBound(init, last);
    }
  }

  /** An embedding survives appending one element to the full list, kept or left out. */
  lemma EmbedsExtend(idx: seq<nat>, sub: seq<string>, full: seq<string>, last: string, keep: bool)
    requires Embeds(idx, sub, full)
    ensures IsSubsequence(sub + (if keep then [last] else []), full + [last])
  {
    if keep {
      assert Embeds(idx + [|full|], sub + [last], full + [last]);
    } else {
      assert sub + [] == sub;
      assert Embeds(idx, sub, full + [last]);
    }
  }

  class TimedBackgroundChecker {
    const allServers: seq<string>
    const healthyServers: SelectServer.ServerList
    const healthEndpoint: string
    /** The polling period; the interval timer itself is not modelled. */
    const pollingInterval: nat

    /** The shared healthy list is always an order-preserving sub-list of the configured servers. */
    ghost predicate Valid()
      reads this, healthyServers
    {
      IsSubsequence(healthyServers.servers, allServers)
    }

    /** Every configured server starts out healthy. */
    constructor (servers: seq<string>, healthEndpoint: string, pollingInterval: nat)
      ensures Valid() && fresh(healthyServers)
      ensures allServers == servers && healthyServers.servers == servers && !healthyServers.poisoned
      ensures this.healthEndpoint == healthEndpoint && this.pollingInterval == pollingInterval
    {
      allServers := servers;
      healthyServers := new SelectServer.ServerList(servers);
      this.healthEndpoint := healthEndpoint;
      this.pollingInterval := pollingInterval;
      new;
      var idx: seq<nat> := seq(|servers|, i => i);
      assert Embeds(idx, servers, servers);
    }

    /** The probe: a GET of the server's URL followed by the health endpoint, no headers, empty body. */
    function HealthRequest(server: string): (r: HttpClient.Request)
      ensures r.verb == HttpClient.Get && r.headers == EMPTY_HEADERS && r.body == []
      ensures |r.url| == |server| + |healthEndpoint|
      ensures r.url[..|server|] == server && r.url[|server|..] == healthEndpoint
    {
      HttpClient.Request(HttpClient.Get, server + healthEndpoint, EMPTY_HEADERS, [])
    }

    /**
     * `is_server_healthy`: healthy exactly when the probe answers in time
     * with status 200; another status, a client error or the timeout all
     * mean unhealthy.
     */
    predicate IsServerHealthy(server: string, probe: Prober)
      ensures IsServerHealthy(server, probe) <==>
        match probe(HealthRequest(server))
        case Answered(Ok(response)) => response.status == OK
        case _ => false
    {
      match probe(HealthRequest(server))
      case Answered(result) =>
        (match result
         case Ok(response) => response.status == OK
         case Err(_) => false)
      case TimedOut => false
    }

    /** The servers of `servers` whose probe passes, in their order. */
    function Passing(servers: seq<string>, probe: Prober): (r: seq<string>)
      ensures forall s :: s in r <==> s in servers && IsServerHealthy(s, probe)
      ensures forall s {:trigger multiset(r)[s]} ::
        multiset(r)[s] == if IsServerHealthy(s, probe) then multiset(servers)[s] else 0
    {
      if servers == [] then []
      else
        var init := servers[..|servers| - 1];
        var last := servers[|servers| - 1];
        assert servers == init + [last];
        Passing(init, probe) + if IsServerHealthy(last, probe) then [last] else []
    }

    /** The passing servers form an order-preserving sub-list of the servers probed. */
    lemma {:induction false} PassingIsSubsequence(servers: seq<string>, probe: Prober)
      ensures IsSubsequence(Passing(servers, probe), servers)
    {
      if servers == [] {
        assert Embeds([], [], servers);
      } else {
        var init := servers[..|servers| - 1];
        var last := servers[|servers| - 1];
        PassingIsSubsequence(init, probe);
        var idx: seq<nat> :| Embeds(idx, Passing(init, probe), init);
        assert servers == init + [last];
        EmbedsExtend(idx, Passing(init, probe), init, last, IsServerHealthy(last, probe));
      }
    }

    /**
     * One iteration of the polling loop. With no servers configured nothing
     * is probed or written. Otherwise every server is probed in order, and
     * the healthy list is replaced by the ones that passed, recomputed from
     * scratch; if the lock cannot be written the list stays as it was.
     */
    method RunCycle(probe: Prober)
      requires Valid()
      modifies healthyServers
      ensures Valid()
      ensures healthyServers.poisoned == old(healthyServers.poisoned)
      ensures allServers == [] || old(healthyServers.poisoned) ==>
        healthyServers.servers == old(healthyServers.servers)
      ensures allServers != [] && !old(healthyServers.poisoned) ==>
        healthyServers.servers == Passing(allServers, probe)
    {
      if allServers == [] {
        return;
      }
      var newHealthyServers: seq<string> := [];
      var i := 0;
      while i < |allServers|
        invariant 0 <= i <= |allServers|
        invariant newHealthyServers == Passing(allServers[..i], probe)
      {
        var server := allServers[i];
        if IsServerHealthy(server, probe) {
          newHealthyServers := newHealthyServers + [server];
        }
        assert allServers[..i + 1][..i] == allServers[..i];
        i := i + 1;
      }
      assert allServers[..i] == allServers;
      if !healthyServers.poisoned {
        healthyServers.servers := newHealthyServers;
        PassingIsSubsequence(allServers, probe);
      }
    }
  }
}
