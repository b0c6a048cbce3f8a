# fastapi-reverse-proxy, modelled in Dafny

fastapi-reverse-proxy forwards HTTP requests and WebSocket connections
from a FastAPI application to upstream servers. This project models the
parts of it that decide things:

- **Upstream selection.** There are two `LoadBalancer` classes.
  - The packaged one (`src/fastapi_reverse_proxy/load_balance.py`, module
    `LoadBalance`) has two modes. One is round robin over a list. The
    other picks the lowest-latency healthy host that is still under its
    request quota. The per-host request counters reset whenever the
    health checker reports a newer probe cycle. It also covers the
    global-versus-personalised quota rule, cursor validation, and the
    "no target" outcomes (HTTP 503, WebSocket close code 1011).
  - The older root one (`load_balance.py`, module `RootLoadBalance`) is
    plain round robin, or "fastest" by asking a `HealthChecker`.
- **Health status table and life cycle** (`health_check.py`, module
  `HealthCheck`). This covers constructor validation and the `status`
  table from target to latency or down. A probe outcome rewrites exactly
  one entry. There are the healthy-list, response-time, fastest and
  is-healthy views. `start`/`stop`/`destroy` act on a task handle and an
  owned HTTP client.
- **Request and response rewriting** (`proxy_pass.py`, module
  `ProxyPass`). This covers query appending, method choice, the forwarding
  headers with override and additional headers, the removal of
  `host`/`connection`, and the choice of request body. It also covers the
  response-header filter with its two anti-buffering hints, and the
  WebSocket URL scheme, header set and subprotocol choice.

Module `Common` holds the shared vocabulary:
- `Option`, `Result` and `Outcome`.
- Python truthiness of an optional host (`None` and `""` are both falsy).
- The first-minimum choice that `min(d, key=lambda t: d[t])` makes over an
  insertion-ordered dict.
- Round-robin rotation over a list.

Modelling choices:
- A latency is a `nat` number of milliseconds, and a probe is an abstract
  outcome: a status code with a latency, or an exception.
- A dict's insertion order is kept as a sequence beside the map when it
  matters. It matters for the `min` tie-break and for `get_response_times`.
- The packaged balancer's health checker is not part of this model. The
  balancer reads only `targets`, `target_configs`, `is_personalized`,
  `last_update` and `get_response_times()` from it. These are the class
  `LoadBalance.HealthSource`. Its response times are a sequence of
  `(host, latency)` pairs in target order.
- Header maps are `map<string, string>`. Keys compare exactly, except
  where the code lowercases a name: the response filter.

Where the repository's documentation and its code disagree, the model
follows the code:
- `is_healthy` of a target with no entry is true (`health_check.py:104-106`).
- In health mode, the packaged `peek` performs the counter reset of a new
  probe cycle (`src/fastapi_reverse_proxy/load_balance.py:78-80`). What
  is selected next is still unchanged, and no count is incremented.
- On the request side only `host` and `connection` are removed. The other
  hop-by-hop headers are forwarded (`proxy_pass.py:67-69`). Only the
  response side filters the full hop-by-hop set.
- `destroy` does not prevent a later `start` (`health_check.py:57-60`).
  Once an owned client has been dropped (`health_check.py:81-83`), every
  later probe raises on the missing client and records the target down
  (`health_check.py:41,47-48`).
- The root balancer's `peek`/`get` on an empty list raise. They are
  modelled as `IndexError` / `ZeroDivisionError` results, not as a
  precondition (`load_balance.py:18,24-26`).

## Model

| member | source | states |
|---|---|---|
| Common.ArgMin | health_check.py:101 | the position `min` settles on: minimal latency, every earlier entry strictly slower |
| Common.FirstMin | src/fastapi_reverse_proxy/load_balance.py:74-77 | None exactly for an empty dict; otherwise the key of a first-minimum entry |
| Common.Rotation | src/fastapi_reverse_proxy/load_balance.py:93-96 | the hosts `n` consecutive round-robin picks return, `n` of them |
| Common.RoundRobinCycle | src/fastapi_reverse_proxy/load_balance.py:91-96 | `len` picks from the head visit every position once, in order; the next pick is the head again |
| HealthCheck.ValidateConfig | health_check.py:11-13 | each `ValueError` exactly under its condition, in check order; none exactly for a valid configuration |
| HealthCheck.Recorded | health_check.py:42-48 | a probe records up exactly for a response below 400, with its latency; 400 and above or an exception record down |
| HealthCheck.Dedup | health_check.py:19 | the status dict's keys: the targets, each once; a target list without repeats is the key order as is |
| HealthCheck.DedupPrefix | health_check.py:19 | the keys of the first `n` targets come first, in their order: an earlier-listed target gets the earlier key position, the order `min` breaks ties in |
| HealthCheck.HealthyMembers | health_check.py:90-92 | the healthy list holds exactly the targets that are not down; the down list exactly the others |
| HealthCheck.HealthyPartition | health_check.py:90-92 | the healthy and the down lists together are the target list as a multiset: no target lost or counted twice |
| HealthCheck.TimesOfEntries | health_check.py:94-96 | every response-time entry is an up entry of the table, and every up entry appears |
| HealthCheck.TimesOfDistinct | health_check.py:94-96 | no key appears twice among the response times |
| HealthCheck.TimesOfInOrder | health_check.py:94-96 | the response times follow the table's key order |
| HealthCheck.FastestSpec | health_check.py:98-101 | None exactly when every entry is down; otherwise an up target no up target beats, the first minimum in key order |
| HealthCheck.HealthChecker.constructor | health_check.py:10-26 | every target at latency 0 (up); task created only with autostart and a running loop; the client is owned exactly when none was supplied |
| HealthCheck.HealthChecker.New | health_check.py:10-13 | construction fails with the validation error exactly when the configuration is invalid |
| HealthCheck.Attempted | health_check.py:41-48 | with the client gone every probe raises, whatever the target would answer; with the client open the outcomes are as given |
| HealthCheck.ProbedAllRaised | health_check.py:85-88 | when every probe raises, every probed target ends up down |
| HealthCheck.HealthChecker.CheckTarget | health_check.py:37-49 | one probe rewrites only that target's entry; with the client gone the target is recorded down |
| HealthCheck.ProbedSpec | health_check.py:85-88 | after probing, the table covers the probed targets; each target's entry is the one its own probe recorded, the later one for a target listed twice; other entries unchanged |
| HealthCheck.HealthChecker.CheckAll | health_check.py:85-88 | the table becomes the probed table: with the client open every target's entry is the one its own probe recorded, with it gone every target is down; other entries, the key set and the key order are unchanged |
| HealthCheck.HealthChecker.GetHealthyTargets | health_check.py:90-92 | a target is listed exactly when it is a target and not down |
| HealthCheck.HealthChecker.GetResponseTimes | health_check.py:94-96 | exactly the up entries, each key once, in the table's key order |
| HealthCheck.HealthChecker.GetFastest | health_check.py:98-101 | None exactly when all entries are down; otherwise an up target of minimal latency |
| HealthCheck.HealthChecker.IsHealthy | health_check.py:104-106 | false exactly for a target whose entry is down; an unknown target is healthy |
| HealthCheck.HealthChecker.Start | health_check.py:57-60 | a new task only when none exists |
| HealthCheck.HealthChecker.Stop | health_check.py:69-76 | no task afterwards, whatever the state before |
| HealthCheck.HealthChecker.Destroy | health_check.py:78-83 | task cleared and an owned client closed; a client that is not owned stays; a second destroy changes nothing |
| RootLoadBalance.LoadBalancer.FromList | load_balance.py:9-12 | list mode, cursor at 0 |
| RootLoadBalance.LoadBalancer.FromChecker | load_balance.py:9-12 | health mode over the given checker |
| RootLoadBalance.LoadBalancer.Peek | load_balance.py:14-18 | health mode: the checker's fastest; list mode: the server under the cursor; IndexError on an empty list |
| RootLoadBalance.LoadBalancer.Get | load_balance.py:20-26 | what `peek` returns; list mode advances the cursor modulo the length, one step of the rotation; health mode changes nothing; ZeroDivisionError on an empty list |
| RootLoadBalance.LoadBalancer.GetAll | load_balance.py:28-30 | the checker's targets in health mode, the list otherwise |
| RootLoadBalance.LoadBalancer.SetIndex | load_balance.py:32-37 | RuntimeError in health mode; IndexError unless `0 <= i < len`; otherwise the cursor is `i` |
| LoadBalance.HealthSource.constructor | src/fastapi_reverse_proxy/load_balance.py:58-63 | the checker fields the balancer reads |
| LoadBalance.ZeroCounts | src/fastapi_reverse_proxy/load_balance.py:59 | a zero count for every target and no other key |
| LoadBalance.Refresh | src/fastapi_reverse_proxy/load_balance.py:57-60 | counts zeroed and time remembered exactly when the checker's time is newer; otherwise unchanged; at most one reset per probe time |
| LoadBalance.BestIndex | src/fastapi_reverse_proxy/load_balance.py:66-77 | reference choice: None exactly when no entry is under its limit; otherwise an eligible entry, minimal among eligible ones, earlier eligible ones strictly slower |
| LoadBalance.AvailableMin | src/fastapi_reverse_proxy/load_balance.py:66-77 | filtering into `available` and taking `min` picks the entry of the reference choice |
| LoadBalance.BestSpec | src/fastapi_reverse_proxy/load_balance.py:66-77 | `_get_best_healthy` returns None iff no healthy host is under its limit; otherwise an eligible host of minimal latency, the first one on a tie |
| LoadBalance.Bump | src/fastapi_reverse_proxy/load_balance.py:89 | the chosen host's count goes up by one, no other count changes |
| LoadBalance.QuotaExhausted | src/fastapi_reverse_proxy/load_balance.py:69-71 | a host that has used its last allowed request is not chosen again in the same cycle |
| LoadBalance.NewCycleRestores | src/fastapi_reverse_proxy/load_balance.py:58-71 | after a newer probe cycle every host with no limit or a positive limit is eligible again |
| LoadBalance.QuotaScenario | src/fastapi_reverse_proxy/load_balance.py:55-90 | a quota of 2 on the fastest host gives picks a, a, b; a new cycle gives a again |
| LoadBalance.HttpDispatch | src/fastapi_reverse_proxy/load_balance.py:122-124 | 503 exactly for a falsy target; otherwise forward to it |
| LoadBalance.WsDispatch | src/fastapi_reverse_proxy/load_balance.py:154-157 | close with 1011 exactly for a falsy target; otherwise tunnel to it |
| LoadBalance.UnavailableIffNoneEligible | src/fastapi_reverse_proxy/load_balance.py:122-124 | in health mode a request gets 503 exactly when no healthy host is under its limit |
| LoadBalance.ConfiguredLimits | src/fastapi_reverse_proxy/load_balance.py:34-37 | one limit per target, its config's `maxrequests`, None when absent |
| LoadBalance.LoadBalancer.CurrentLimits | src/fastapi_reverse_proxy/load_balance.py:69 | personalised: each host is held to its own config's `maxrequests` (unlimited without one), for the balancer's whole life; otherwise every host is held to the global limit |
| LoadBalance.LoadBalancer.FromList | src/fastapi_reverse_proxy/load_balance.py:19-30 | list mode, cursor 0, no counts, no limits |
| LoadBalance.LoadBalancer.FromChecker | src/fastapi_reverse_proxy/load_balance.py:19-37 | health mode, limits from the checker's target configs |
| LoadBalance.LoadBalancer.MaxRequests | src/fastapi_reverse_proxy/load_balance.py:39-43 | RuntimeError exactly when personalised in health mode; otherwise the global limit |
| LoadBalance.LoadBalancer.SetMaxRequests | src/fastapi_reverse_proxy/load_balance.py:45-53 | RuntimeError and no change when personalised; otherwise the global limit is set and, in health mode, copied onto every per-host limit, so every host is then held to the new limit |
| LoadBalance.LoadBalancer.BestHealthy | src/fastapi_reverse_proxy/load_balance.py:55-77 | the window is refreshed, then the choice is the specified best over the new counts |
| LoadBalance.LoadBalancer.Peek | src/fastapi_reverse_proxy/load_balance.py:78-83 | the host `get` would return; what is selected next does not change; only the cycle reset touches the counts; None on an empty list |
| LoadBalance.LoadBalancer.Get | src/fastapi_reverse_proxy/load_balance.py:85-96 | the selected host; health mode adds one to that host's count only when truthy; list mode advances the cursor, one step of the rotation; None and no change on an empty list |
| LoadBalance.LoadBalancer.GetAll | src/fastapi_reverse_proxy/load_balance.py:98-100 | the checker's targets in health mode, the list otherwise |
| LoadBalance.LoadBalancer.SetIndex | src/fastapi_reverse_proxy/load_balance.py:102-107 | RuntimeError in health mode; IndexError for a negative index or one past a non-empty list; otherwise the cursor is set |
| LoadBalance.LoadBalancer.ProxyPass | src/fastapi_reverse_proxy/load_balance.py:122-124 | `get`, then 503 when no target came back |
| LoadBalance.LoadBalancer.ProxyPassWebSocket | src/fastapi_reverse_proxy/load_balance.py:154-157 | `get`, then close 1011 when no target came back |
| ProxyPass.WithQuery | proxy_pass.py:40-42 | the target is kept as a prefix and the query is appended after `?`, or after `&` when the target has a `?`; unchanged without forwarding or query |
| ProxyPass.QueryTwice | proxy_pass.py:40-42 | a second query is joined with `&` |
| ProxyPass.ChooseMethod | proxy_pass.py:45 | the override when truthy, else the inbound method |
| ProxyPass.Merge | proxy_pass.py:64-65 | additional headers win on conflicts; other keys keep their value |
| ProxyPass.ResolvedSpec | proxy_pass.py:48-61 | without override: inbound headers plus `X-Real-IP`, `X-Forwarded-For` (appended with ", "), `X-Forwarded-Proto`, `X-Forwarded-Host` (host header or netloc); with override: exactly the override map |
| ProxyPass.OutboundSpec | proxy_pass.py:48-69 | no `host` or `connection`; additional headers win; every other resolved key kept with its value |
| ProxyPass.ResolveHeaders | proxy_pass.py:47-69 | the step-by-step header building yields the outbound map |
| ProxyPass.RequestKeepsOtherHopByHop | proxy_pass.py:67-69 | a hop-by-hop header other than `host`/`connection` (`te`) is forwarded on the request side |
| ProxyPass.ChooseBody | proxy_pass.py:82-89 | the override body when given; otherwise a stream exactly for POST, PUT, PATCH and DELETE; otherwise none |
| ProxyPass.BuildUpstreamRequest | proxy_pass.py:40-98 | the upstream request carries the appended URL, the chosen method, the outbound headers and the body chosen for that method |
| ProxyPass.Relayed | proxy_pass.py:105-113 | no relayed header has a dropped name |
| ProxyPass.RelayedKeys | proxy_pass.py:105-113 | a name is relayed exactly when it is not dropped and some upstream entry carries it |
| ProxyPass.RelayedValues | proxy_pass.py:105-113 | a relayed name carries the value of its last upstream entry |
| ProxyPass.ResponseHeaders | proxy_pass.py:105-116 | `X-Accel-Buffering: no` and `Cache-Control: no-cache`; every other key as relayed |
| ProxyPass.FilterResponseHeaders | proxy_pass.py:105-116 | the filtering loop yields the response header map |
| ProxyPass.DroppedIgnoresCase | proxy_pass.py:107-113 | `Transfer-Encoding` is dropped whatever its case; `Content-Type` is relayed |
| ProxyPass.ToWebSocketUrl | proxy_pass.py:161-164 | only a leading `http://` or `https://` is rewritten, to `ws://` or `wss://` |
| ProxyPass.WebSocketUrlIdempotent | proxy_pass.py:161-164 | translating twice is translating once |
| ProxyPass.QueryThenScheme | proxy_pass.py:156-164 | appending the query then translating the scheme equals translating then appending |
| ProxyPass.WebSocketHeaders | proxy_pass.py:167-179 | without override exactly the four forwarding headers plus additional ones, each forwarding header with its value unless an additional header replaces it; with override the override map plus additional ones, each override entry kept unless replaced; additional ones win |
| ProxyPass.ChooseSubprotocols | proxy_pass.py:182 | the explicit list when non-empty, else the scope's |
| ProxyPass.BuildWebSocketConnect | proxy_pass.py:156-182 | URL with query and ws scheme, WebSocket headers and chosen subprotocols |

## Left out

- Network I/O and async resources in `proxy_pass` are not modelled: `get_httpx_client`, `build_request`/`send`, `StreamingResponse`, `BackgroundTask(cleanup)` and the `aclose` paths (`proxy_pass.py:71-139`).
- `websockets.connect`, the `inspect.signature` parameter sniffing, `accept`/`close`, logging and `_handle_ws_bidirectional` are not modelled (`proxy_pass.py:184-256`). They are foreign library calls and concurrent task cancellation.
- The health checker's background loop is not modelled: `_loop`, `asyncio.sleep`, and the `asyncio.gather` concurrency of `check_all`. The probes of `check_all` take effect in target order, so for a target listed twice its later probe wins.
- The `__del__` finalizer of the health checker is not modelled (`health_check.py:28-35`).
- The float latency arithmetic with `time.perf_counter` is not modelled. A probe supplies a `nat` latency.
- The packaged balancer calls `url_normalize`/`urlparse` and builds the destination URL (`src/fastapi_reverse_proxy/load_balance.py:126-171`). These are external libraries and are not modelled. Only the 503 and 1011 decisions are.
- The packaged health checker is not part of this model. Its URL normalisation and config parsing are not modelled. The balancer's collaborator holds only the fields it reads.
- `src/proxy_httpx.py`, `example.py` and `src/fastapi_reverse_proxy/__init__.py` are not part of this model: app-state client storage, app wiring and re-exports.
- ProxyPass.Lower: lowercases ASCII letters only, because header names are ASCII; Python's Unicode `lower()` is not modelled.
- ProxyPass.OutboundSpec: inbound header keys are compared exactly as given. Starlette's lowercasing of inbound header names is not modelled, so the exact-case `X-Forwarded-For` lookup is taken at face value.
- ProxyPass.FilterResponseHeaders: the result is a map, so the order of the relayed headers is not modelled.
- HealthCheck.HealthChecker.GetHealthyTargets: its contract states membership only. Multiplicity is stated by HealthCheck.HealthyPartition about the list it returns, which keeps target order by construction.
- HealthCheck.HealthChecker.Stop: cancelling and awaiting the task is not modelled; the task handle is simply cleared.
- LoadBalance.HealthSource.constructor: the response times stand for the items of a dict, so their hosts are distinct in the source; the collaborator does not require it, and no balancer contract depends on it.
- Python list aliasing is not modelled: the servers list and the checker's targets are values.
