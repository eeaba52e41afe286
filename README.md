# wakanda-lb: a Dafny model of the load balancer's decision rules

wakanda-lb is an HTTP load balancer written in Rust. This project models its
sequential decision and state-update rules in Dafny and proves properties of
them:

- **Server selection** over the shared list of healthy servers
  (`SelectServer`, `SelectServerService`). `RoundRobinSelectServer` keeps a
  cursor that persists across calls. `RandomSelectServer` draws an index on
  every call. `RandomSelectServerService` draws from a fixed list and records
  the index it drew. All three report `NoOneIsAlive` on an empty list.
  The fairness of round robin is proved for runs that do not cross the
  cursor's wrap-around at 2^64: a run of n selections visits every position
  once, and a run of k selections gives each position floor(k / n) or
  ceil(k / n) of them, so exactly k / n when n divides k. Across the
  wrap-around the rotation restarts at position 0, which breaks this
  balance once whenever n does not divide 2^64 (`Scenarios.WrapRestartsRotation`).
- **One health-check cycle** (`BackgroundHealthChecker`). A server is healthy
  exactly when its probe is answered in time with status 200. A cycle
  replaces the shared healthy list with the servers that passed, in
  configured order, so the list is always an order-preserving sub-list of
  the configured servers. `Scenarios.CheckThenSelect` connects the checker to
  a round-robin selector that reads the same list.
- **The `forward` handler** (`ForwardRoute`). It falls back to the request id
  "unknown", relays a client body as 200, and turns any client error into
  502 Bad Gateway (section 15.6.3 of RFC 9110).
- **The conversion layer**, which the source repeats for three layers
  (`HttpClient`, `ForwardService`, `WakandaHttpService`):
  - transport errors are classified with timeout first, then connect or
    request failures as Network, and everything else as InvalidRequest;
  - the five supported methods are mapped, and the mapping round-trips;
    GET, POST, PUT and DELETE are from section 9.3 of RFC 9110, PATCH from
    RFC 5789;
  - the method display strings and the request error's message;
  - the 500 response for a request error.

  The three header newtypes all wrap a `HashMap<String, String>`, and their
  conversions to and from `HeaderMap` are textually identical. They are
  modelled once, in `HeaderConversions`. A header name that occurs several
  times in a `HeaderMap` (two `set-cookie` headers, say) keeps only one value
  in the extracted map: that of its last entry, in iteration order, whose
  value is a valid string. Those rows below cite the http_client
  copy; the same rules are at src/forward_service/reqwest_forward_service.rs:105-138,
  src/wakanda_http_service/reqwest_http_service.rs:105-138,
  src/forward_service/forward_service_request.rs:9-16 and 40-45, and
  src/wakanda_http_service/wakanda_http_service_request.rs:9-16 and 40-45.

`Http` models the parts of the `http` crate that the core uses:
- a method is its token;
- a `HeaderMap` is its entries in iteration order, where `get` returns the
  first value and `insert` replaces every value for a name;
- the crate's fallible conversions (`HeaderName::from_bytes`,
  `HeaderValue::from_str`, `HeaderValue::to_str`) are left uninterpreted, as
  the function-typed fields of `HeaderRules`.

Outside inputs become parameters:
- the HTTP client of the health checker, together with its timeout, is a
  `Prober` function from request to outcome;
- the client of the `forward` handler is an `AlphaClient` function;
- `rand::rng().random_range(0..len)` is a `draw` function that answers
  below `len`;
- the iteration order of a `HashMap` is a nondeterministic choice (`:|`).

A `usize` is taken to be 64 bits wide, and the cursor's `wrapping_add` is
written out. Status codes are `nat`s holding the source's `u16` values.

Notes on the code's behaviour:
- every server starts out healthy: the checker's healthy list is a copy of
  all configured servers until the first cycle has run;
- a round-robin selection uses the cursor value *before* the increment;
- the `forward` handler calls a fixed base URL and neither selects a server
  nor marks one unhealthy, because `src/main.rs` does not wire the selectors
  or the checker;
- an empty healthy list gives the selector error `NoOneIsAlive`, not a
  response status.

## Model

| member | source | states |
|---|---|---|
| `Http.Get` | src/http_client/reqwest_http_client.rs:273-281 | the http crate's `HeaderMap::get`, as these lines use it: it finds a value exactly when the name is present, returns a stored entry, and in a map with one entry per name returns that entry's value |
| `Http.Insert` | src/http_client/reqwest_http_client.rs:132 | after `insert`, the name maps to the new value, every other name is unaffected, the set of names gains just this one, and one-entry-per-name is kept |
| `HeaderConversions.Collect` | src/http_client/request.rs:34-39 | collecting pairs into a map gives exactly the keys of the pairs |
| `HeaderConversions.CollectLastWins` | src/http_client/request.rs:34-39 | a key maps to the value of the last pair that carries it (a later pair overwrites an earlier one) |
| `HeaderConversions.CollectFromPairs` | src/http_client/request.rs:34-39 | every collected entry is one of the given pairs |
| `HeaderConversions.FromDistinctPairs` | src/http_client/request.rs:34-39 | headers built from an array with distinct keys hold exactly those pairs |
| `HeaderConversions.DefaultHeadersAreEmpty` | src/http_client/request.rs:17-18 | the `Default` headers hold no entry |
| `HeaderConversions.GetHeader` | src/forward_service/forward_service_request.rs:12-16 | `get(key)` gives the map's value for the key, and none exactly when the key is absent |
| `HeaderConversions.ValidEntries` | src/http_client/reqwest_http_client.rs:106-108 | the `filter_map` keeps exactly the entries whose value converts to a string, each as often as it occurs in the header map |
| `HeaderConversions.FromHeaderMap` | src/http_client/reqwest_http_client.rs:104-122 | `From<&HeaderMap>` and `From<HeaderMap>`: every extracted value is a valid string stored under that name in the header map |
| `HeaderConversions.FromHeaderMapKeys` | src/http_client/reqwest_http_client.rs:104-122 | a name appears in the extracted headers exactly when some entry with that name has a valid string value (borrowed and owned versions alike) |
| `HeaderConversions.FromHeaderMapLastValid` | src/http_client/reqwest_http_client.rs:104-112 | an extracted value is that of the last entry with its name, in iteration order, whose value is a valid string; earlier values of a repeated name are lost |
| `HeaderConversions.LastValidEntryWins` | src/http_client/reqwest_http_client.rs:104-112 | conversely, the last entry of a name with a valid value is the one found under that name in the extracted headers |
| `HeaderConversions.FromUniqueHeaderMap` | src/http_client/reqwest_http_client.rs:104-112 | from a map with one entry per name, every entry with a valid value is extracted unchanged |
| `HeaderConversions.IntoHeaderMap` | src/http_client/reqwest_http_client.rs:124-137 | the built map has one entry per name; a name is present exactly when some pair with a valid name and a valid value converts to it, and its value is that of such a pair |
| `HeaderConversions.IdentityKeyIsExtracted` | src/http_client/reqwest_http_client.rs:104-137 | when names convert to themselves, an original key whose value is accepted both ways is extracted from the built map with its own value |
| `HeaderConversions.ExtractedKeyIsOriginal` | src/http_client/reqwest_http_client.rs:104-137 | when names convert to themselves, every key extracted from the built map is an original key |
| `HeaderConversions.BuiltFromInjective` | src/http_client/reqwest_http_client.rs:124-137 | when distinct keys convert to distinct names, every insertable pair is found under its converted name with its own value |
| `HeaderConversions.IntoThenFromHeaderMap` | src/http_client/reqwest_http_client.rs:104-137 | when every name converts to itself and every value is accepted both ways, extracting the built map gives back the original headers |
| `HttpClient.MethodText` | src/http_client/request.rs:50-61 | `Display` gives one of the tokens GET, POST, PUT, DELETE, PATCH |
| `HttpClient.MethodTextInjective` | src/http_client/request.rs:50-61 | `Display` gives distinct strings to distinct variants |
| `HttpClient.RequestErrorText` | src/http_client/request.rs:63-67 | the message is "HTTP method " + the method + " is not supported" |
| `HttpClient.RequestErrorTextInjective` | src/http_client/request.rs:63-67 | distinct unsupported methods give distinct messages |
| `HttpClient.FromTransportError` | src/http_client/reqwest_http_client.rs:92-102 | a timeout gives `Timeout` whatever the other flags; otherwise a connect or request error gives `Network`, anything else gives `InvalidRequest`; both carry the error's message |
| `HttpClient.RequestErrorStatus` | src/http_client/reqwest_http_client.rs:139-143 | a request error always becomes 500 Internal Server Error |
| `HttpClient.IntoMethod` | src/http_client/reqwest_http_client.rs:162-172 | each variant converts to the method whose token is its `Display` string |
| `HttpClient.TryFromMethod` | src/http_client/reqwest_http_client.rs:145-160 | conversion succeeds exactly for GET, POST, PUT, DELETE and PATCH, giving the variant that converts back to the same method; any other method gives `UnsupportedMethod` with its name |
| `HttpClient.MethodRoundTrip` | src/http_client/reqwest_http_client.rs:145-172 | converting a variant to a method and back gives the same variant |
| `ForwardService.MethodText` | src/forward_service/forward_service_request.rs:56-67 | `Display` gives one of the tokens GET, POST, PUT, DELETE, PATCH |
| `ForwardService.MethodTextInjective` | src/forward_service/forward_service_request.rs:56-67 | `Display` gives distinct strings to distinct variants |
| `ForwardService.RequestErrorText` | src/forward_service/forward_service_request.rs:69-73 | the message is "HTTP method " + the method + " is not supported" |
| `ForwardService.RequestErrorTextInjective` | src/forward_service/forward_service_request.rs:69-73 | distinct unsupported methods give distinct messages |
| `ForwardService.FromTransportError` | src/forward_service/reqwest_forward_service.rs:93-103 | timeout first, then connect or request as `Network`, otherwise `InvalidRequest`, with the error's message |
| `ForwardService.RequestErrorStatus` | src/forward_service/reqwest_forward_service.rs:140-144 | a request error always becomes 500 |
| `ForwardService.IntoMethod` | src/forward_service/reqwest_forward_service.rs:163-173 | each variant converts to the method whose token is its `Display` string |
| `ForwardService.TryFromMethod` | src/forward_service/reqwest_forward_service.rs:146-161 | exactly the five supported methods convert, each to the variant that converts back to it; others give `UnsupportedMethod` with their name |
| `ForwardService.MethodRoundTrip` | src/forward_service/reqwest_forward_service.rs:146-173 | variant to method and back gives the same variant |
| `WakandaHttpService.MethodText` | src/wakanda_http_service/wakanda_http_service_request.rs:56-67 | `Display` gives one of the tokens GET, POST, PUT, DELETE, PATCH |
| `WakandaHttpService.MethodTextInjective` | src/wakanda_http_service/wakanda_http_service_request.rs:56-67 | `Display` gives distinct strings to distinct variants |
| `WakandaHttpService.RequestErrorText` | src/wakanda_http_service/wakanda_http_service_request.rs:69-73 | the message is "HTTP method " + the method + " is not supported" |
| `WakandaHttpService.RequestErrorTextInjective` | src/wakanda_http_service/wakanda_http_service_request.rs:69-73 | distinct unsupported methods give distinct messages |
| `WakandaHttpService.FromTransportError` | src/wakanda_http_service/reqwest_http_service.rs:93-103 | timeout first, then connect or request as `Network`, otherwise `InvalidRequest`, with the error's message |
| `WakandaHttpService.RequestErrorStatus` | src/wakanda_http_service/reqwest_http_service.rs:140-144 | a request error always becomes 500 |
| `WakandaHttpService.IntoMethod` | src/wakanda_http_service/reqwest_http_service.rs:163-173 | each variant converts to the method whose token is its `Display` string |
| `WakandaHttpService.TryFromMethod` | src/wakanda_http_service/reqwest_http_service.rs:146-161 | exactly the five supported methods convert, each to the variant that converts back to it; others give `UnsupportedMethod` with their name |
| `WakandaHttpService.MethodRoundTrip` | src/wakanda_http_service/reqwest_http_service.rs:146-173 | variant to method and back gives the same variant |
| `SelectServer.ServerList.constructor` | src/background_health_checker/timed_background_health_checker.rs:33 | the shared `Arc<RwLock<Vec<String>>>` holds the given servers and starts readable (not poisoned) |
| `SelectServer.WrappingIncrement` | src/select_server/round_robin_select_server.rs:37-42 | the cursor stays below 2^64, grows by one below the word maximum and wraps to 0 at it |
| `SelectServer.AdvanceWithoutWrap` | src/select_server/round_robin_select_server.rs:37-42 | before the word maximum, k successful selections move the cursor by exactly k |
| `SelectServer.WrapKeepsRotationForPowersOfTwo` | src/select_server/round_robin_select_server.rs:37-44 | when the list's length divides 2^64, the position after the wrap-around is the next one in the rotation |
| `SelectServer.RoundRobinSelectServer.constructor` | src/select_server/round_robin_select_server.rs:16-21 | the selector shares the given list and its cursor starts at 0 |
| `SelectServer.RoundRobinSelectServer.Execute` | src/select_server/round_robin_select_server.rs:25-48 | a poisoned lock gives `PoisonedRead` and an empty list `NoOneIsAlive`, both leaving the cursor alone; otherwise it returns `list[c mod len]` for the cursor value c before the call and advances the cursor by one, wrapping; the list is never changed |
| `SelectServer.RandomSelectServer.constructor` | src/select_server/random_select_server.rs:15-19 | the selector's only state is the shared list |
| `SelectServer.RandomSelectServer.Execute` | src/select_server/random_select_server.rs:22-41 | `PoisonedRead` exactly when the lock is poisoned (checked before emptiness), `NoOneIsAlive` exactly when the list is otherwise empty, else the server at the drawn in-range index, an element of the list |
| `SelectServer.RotationIndex` | src/select_server/round_robin_select_server.rs:44 | the index picked by a call is below the list's length |
| `SelectServer.RotationCoversEveryPosition` | src/select_server/round_robin_select_server.rs:37-45 | among n consecutive cursor values every position below n is picked |
| `SelectServer.RotationNeverRepeats` | src/select_server/round_robin_select_server.rs:37-45 | among n consecutive cursor values no position is picked twice |
| `SelectServer.HitsInOneRound` | src/select_server/round_robin_select_server.rs:37-45 | fewer than n consecutive selections pick a position at most once, and n of them exactly once |
| `SelectServer.RoundRobinIsBalanced` | src/select_server/round_robin_select_server.rs:37-45 | over any k consecutive selections without wrap-around, each of the n positions is picked floor(k / n) to ceil(k / n) times, and exactly k / n times when n divides k |
| `SelectServer.RoundRobinCountsDifferByAtMostOne` | src/select_server/round_robin_select_server.rs:37-45 | over any run of selections without wrap-around, the counts of two positions differ by at most one |
| `SelectServerService.RandomSelectServerService.constructor` | src/select_server_service/random_select_server_service.rs:18-22 | the list is fixed at construction and the recorded index starts at 0 |
| `SelectServerService.RandomSelectServerService.Execute` | src/select_server_service/random_select_server_service.rs:27-42 | an empty list gives `NoOneIsAlive` without recording anything; otherwise the drawn index is recorded, is below the list's length, and the server at it is returned; the list never changes |
| `BackgroundHealthChecker.SubsequenceIsNoLonger` | src/background_health_checker/timed_background_health_checker.rs:112-116 | an order-preserving sub-list is never longer than the list it comes from |
| `BackgroundHealthChecker.TimedBackgroundChecker.constructor` | src/background_health_checker/timed_background_health_checker.rs:27-41 | the healthy list starts as a copy of all servers, so every server starts healthy; configuration is stored as given |
| `BackgroundHealthChecker.TimedBackgroundChecker.HealthRequest` | src/background_health_checker/timed_background_health_checker.rs:43-49 | the probe is a GET whose URL is the server followed by the health endpoint, with default (empty) headers and an empty body |
| `BackgroundHealthChecker.TimedBackgroundChecker.IsServerHealthy` | src/background_health_checker/timed_background_health_checker.rs:43-73 | the probe GETs server + health endpoint with no headers and an empty body; healthy exactly when it is answered in time with status 200, and unhealthy on another status, a client error or a timeout |
| `BackgroundHealthChecker.TimedBackgroundChecker.Passing` | src/background_health_checker/timed_background_health_checker.rs:101-110 | a server is in the new list exactly when it is configured and its probe passes, and each occurrence of a passing server is kept |
| `BackgroundHealthChecker.TimedBackgroundChecker.PassingIsSubsequence` | src/background_health_checker/timed_background_health_checker.rs:101-110 | the new list keeps the configured order |
| `BackgroundHealthChecker.TimedBackgroundChecker.RunCycle` | src/background_health_checker/timed_background_health_checker.rs:93-134 | with no servers configured nothing changes; otherwise the healthy list becomes exactly the passing servers, recomputed from scratch (unless the lock cannot be written); it stays a sub-list of the configured servers |
| `ForwardRoute.RequestIdOf` | src/route/forward.rs:14-18 | the id is the RequestId extension's value when present and a valid string, otherwise "unknown" |
| `ForwardRoute.Forward` | src/route/forward.rs:10-37 | the response is 200 with exactly the client's body when the client succeeds, and 502 Bad Gateway with an empty body on any client error |
| `ForwardRoute.ForwardAsksOnlyOnce` | src/route/forward.rs:20-26 | the response depends on the client only through its answer for the configured base URL and the request id |
| `Scenarios.RoundRobinAlternates` | src/select_server/round_robin_select_server.rs:70-108 | with [server1, server2], four selections return server1, server2, server1, server2 |
| `Scenarios.ServeOneRound` | src/select_server/round_robin_select_server.rs:37-47 | n selections on an unchanged list of n servers without wrap-around return list[(c + i) mod n] in turn, every server of the list is among them, and the cursor ends n wrapping increments on, which is c + n |
| `Scenarios.WrapRestartsRotation` | src/select_server/round_robin_select_server.rs:37-44 | with [s0, s1, s2] and the cursor at 2^64 - 1, three selections return s0, s0, s1: the wrap-around restarts the rotation and s2 is skipped |
| `Scenarios.CheckThenSelect` | src/background_health_checker/timed_background_health_checker.rs:101-116 | after a cycle, a selector over the shared list returns only configured servers whose probe passed, and `NoOneIsAlive` exactly when none passed |

## Left out

- Network I/O: the `execute` bodies that send requests through reqwest and read the body bytes (src/http_client/reqwest_http_client.rs:39-72, src/forward_service/reqwest_forward_service.rs:40-73, src/wakanda_http_service/reqwest_http_service.rs:40-73), `SimpleAlphaClient::send` in src/http_client/alpha_client.rs, and building the reqwest clients with their 30-second timeout. Their outcomes are the inputs `Prober` and `AlphaClient`.
- The tokio interval loop and the 5-second probe timeout are scheduling. One cycle is modelled, and an expired timeout is the `TimedOut` answer of the prober.
- `RwLock`, atomics and memory orderings are concurrency machinery. The model is sequential. Lock poisoning is a flag on `ServerList` that nothing in the model sets, because nothing panics.
- `BackgroundHealthChecker.TimedBackgroundChecker.RunCycle`: the prober is a function of the request, so a server listed twice gets the same answer twice within one cycle.
- `SelectServer.RandomSelectServer.Execute`: only the range of `random_range` is modelled, not its uniform distribution. The same holds for `SelectServerService.RandomSelectServerService.Execute`.
- The `Request {}` / `SelectServerServiceRequest {}` arguments of the selectors carry no data and are dropped.
- src/forward_service/simple_forward_service.rs is not part of this model. It is I/O-bound, it duplicates the reqwest conversions, and it no longer matches the request type or the `ForwardService` trait.
- src/select_server_service/round_robin_select_server_service.rs is not part of this model, because its body is `todo!()`.
- The wiring, parsing and id generation in src/main.rs, src/cli_arguments.rs, src/request_id.rs (except the "unknown" constant), src/route/health.rs and dummy-backend/src/main.rs are not part of this model. Neither is logging.
- The `Deref`/`DerefMut` impls and the trait-only files add no behaviour. The header newtypes are the type synonym `HeaderConversions.Headers`.
- `ForwardRoute.Forward`: the content type that axum attaches to a string body is not modelled, only the status and the body.
- The `HttpClientRequestRequestError` name used in src/http_client/reqwest_http_client.rs is taken to be the `RequestError` enum of src/http_client/request.rs.
