/** The request and response rewriting of `proxy_pass.py`: the upstream URL
    and method, the forwarded header map, the choice of body, the filter on
    the upstream response headers, and, for WebSockets, the URL scheme,
    the header map and the subprotocols offered upstream. Header maps are
    `map<string, string>` whose keys compare exactly, except where the
    code lowercases a name. */
module ProxyPass {
  import opened Common

  /** The hop-by-hop header names a proxy should not relay (section 7.6.1
      of RFC 7230). */
  const EXCLUDED_HEADERS: set<string> :=
    {"connection", "keep-alive", "proxy-authenticate", "proxy-authorization",
     "te", "trailers", "transfer-encoding", "upgrade"}

  /** The methods whose request body is streamed upstream. */
  const STREAMED_METHODS: set<string> := {"POST", "PUT", "PATCH", "DELETE"}

  /** What the proxy reads from the inbound HTTP request or WebSocket:
      its method, URL scheme, netloc and query string, its headers, and the
      client's host when the server knows it. */
  datatype InboundRequest = InboundRequest(
    httpMethod: string, scheme: string, netloc: string, query: string,
    headers: map<string, string>, client: Option<string>)

  /** Python's `str.startswith`. */
  predicate StartsWith(s: string, prefix: string) {
    |prefix| <= |s| && s[..|prefix|] == prefix
  }

  /** ASCII lowercasing of one character. */
  function LowerChar(c: char): char {
    if 'A' <= c <= 'Z' then (c as int - 'A' as int + 'a' as int) as char else c
  }

  /** `str.lower()` on ASCII header names. */
  function Lower(s: string): (r: string)
    ensures |r| == |s|
  {
    seq(|s|, i requires 0 <= i < |s| => LowerChar(s[i]))
  }

  /** The target URL with the inbound query appended: after `?` when the
      target has none yet, after `&` otherwise; unchanged when forwarding
      is off or the query is empty. */
  function WithQuery(url: string, forwardQuery: bool, query: string): (r: string)
    ensures !forwardQuery || query == "" ==> r == url
    ensures forwardQuery && query != "" ==>
      && |r| == |url| + 1 + |query| && StartsWith(r, url) && r[|url| + 1..] == query
      && r[|url|] == (if '?' in url then '&' else '?')
    ensures '?' in r <==> '?' in url || (forwardQuery && query != "")
  {
    if forwardQuery && query != "" then
      var r := if '?' !in url then url + "?" + query else url + "&" + query;
      assert r[|url|] in r;
      r
    else url
  }

  /** Appending twice to a URL without a query: the first query opens with
      `?`, the second is joined with `&`. */
  lemma {:induction false} QueryTwice(url: string, q1: string, q2: string)
    requires '?' !in url && q1 != "" && q2 != ""
    ensures WithQuery(WithQuery(url, true, q1), true, q2) == url + "?" + q1 + "&" + q2
  {
  }

  /** `method or request.method`: an empty override falls back too. */
  function ChooseMethod(override: Option<string>, inbound: string): (r: string)
    ensures Truthy(override) ==> r == override.value
    ensures !Truthy(override) ==> r == inbound
  {
    if Truthy(override) then override.value else inbound
  }

  /** `request.client.host if request.client else "unknown"`. */
  function ClientHost(client: Option<string>): (r: string)
    ensures client.Some? ==> r == client.value
    ensures client.None? ==> r == "unknown"
  {
    if client.Some? then client.value else "unknown"
  }

  /** `headers.get(name, default)`. */
  function Get(headers: map<string, string>, name: string, default: string): string {
    if name in headers then headers[name] else default
  }

  /** `if additional_headers: headers.update(additional_headers)`; an empty
      or absent map changes nothing. */
  function Merge(headers: map<string, string>, additional: Option<map<string, string>>): (r: map<string, string>)
    ensures forall k :: k in r <==> k in headers || (additional.Some? && k in additional.value)
    ensures forall k :: additional.Some? && k in additional.value ==> r[k] == additional.value[k]
    ensures forall k :: k in headers && (additional.None? || k !in additional.value) ==> r[k] == headers[k]
  {
    if additional.Some? && |additional.value| > 0 then headers + additional.value else headers
  }

  /** The header map `proxy_pass` hands to the upstream client: the
      resolved map, with additional headers winning over it, and `host` and
      `connection` removed last. Every other key keeps its value, so the
      other hop-by-hop names pass through. */
  function Outbound(req: InboundRequest, additional: Option<map<string, string>>,
                    override: Option<map<string, string>>): map<string, string>
  {
    Merge(Resolved(req, override), additional) - {"host", "connection"}
  }

  /** The outbound map never holds `host` or `connection`; any other key is
      there exactly when it was resolved or added, with the additional
      value if there is one and the resolved value otherwise. */
  lemma {:induction false} OutboundSpec(req: InboundRequest, additional: Option<map<string, string>>,
                     override: Option<map<string, string>>)
    ensures "host" !in Outbound(req, additional, override)
    ensures "connection" !in Outbound(req, additional, override)
    ensures forall k :: k in Outbound(req, additional, override) <==>
      && k != "host" && k != "connection"
      && (k in Resolved(req, override) || (additional.Some? && k in additional.value))
    ensures forall k :: k in Outbound(req, additional, override) && additional.Some? && k in additional.value ==>
      Outbound(req, additional, override)[k] == additional.value[k]
    ensures forall k :: k in Outbound(req, additional, override) && (additional.None? || k !in additional.value) ==>
      Outbound(req, additional, override)[k] == Resolved(req, override)[k]
  {
  }

  /** The header map before additional headers and removal: the override
      map as it is, or the inbound map with the forwarding headers set. */
  function Resolved(req: InboundRequest, override: Option<map<string, string>>): map<string, string>
  {
    if override.Some? then override.value
    else
      var client := ClientHost(req.client);
      var forwardedFor := if "X-Forwarded-For" in req.headers
                          then req.headers["X-Forwarded-For"] + ", " + client else client;
      req.headers["X-Real-IP" := client]["X-Forwarded-For" := forwardedFor]
        ["X-Forwarded-Proto" := req.scheme]["X-Forwarded-Host" := Get(req.headers, "host", req.netloc)]
  }

  /** Without override headers the inbound map gains the four forwarding
      headers: `X-Real-IP` the client, `X-Forwarded-For` the client
      appended with ", " to any earlier value, `X-Forwarded-Proto` the
      scheme, `X-Forwarded-Host` the `host` header or else the netloc;
      every other inbound header keeps its value. With override headers
      the map is the override map, with no forwarding header added. */
  lemma {:induction false} ResolvedSpec(req: InboundRequest, override: Option<map<string, string>>)
    ensures override.Some? ==> Resolved(req, override) == override.value
    ensures override.None? ==> forall k :: k in Resolved(req, override) <==>
      k in req.headers || k in {"X-Real-IP", "X-Forwarded-For", "X-Forwarded-Proto", "X-Forwarded-Host"}
    ensures override.None? ==>
      && Resolved(req, override)["X-Real-IP"] == ClientHost(req.client)
      && Resolved(req, override)["X-Forwarded-For"] == (if "X-Forwarded-For" in req.headers
                                  then req.headers["X-Forwarded-For"] + ", " + ClientHost(req.client)
                                  else ClientHost(req.client))
      && Resolved(req, override)["X-Forwarded-Proto"] == req.scheme
      && Resolved(req, override)["X-Forwarded-Host"] == Get(req.headers, "host", req.netloc)
    ensures override.None? ==> forall k ::
      (k in req.headers && k !in {"X-Real-IP", "X-Forwarded-For", "X-Forwarded-Proto", "X-Forwarded-Host"})
      ==> Resolved(req, override)[k] == req.headers[k]
  {
  }

  /** Header resolution in `proxy_pass`, step by step on one map. */
  method ResolveHeaders(req: InboundRequest, additional: Option<map<string, string>>,
                        override: Option<map<string, string>>) returns (headers: map<string, string>)
    ensures headers == Outbound(req, additional, override)
  {
    if override.Some? {
      headers := override.value;
    } else {
      headers := req.headers;
      var client := ClientHost(req.client);
      headers := headers["X-Real-IP" := client];
      if "X-Forwarded-For" in headers {
        headers := headers["X-Forwarded-For" := headers["X-Forwarded-For"] + ", " + client];
      } else {
        headers := headers["X-Forwarded-For" := client];
      }
      headers := headers["X-Forwarded-Proto" := req.scheme];
      assert Get(headers, "host", req.netloc) == Get(req.headers, "host", req.netloc);
      headers := headers["X-Forwarded-Host" := Get(headers, "host", req.netloc)];
    }
    assert headers == Resolved(req, override);
    if additional.Some? && |additional.value| > 0 {
      headers := headers + additional.value;
    }
    assert headers == Merge(Resolved(req, override), additional);
    RemoveTwice(headers, "host", "connection");
    headers := headers - {"host"};
    headers := headers - {"connection"};
  }

  /** Two `pop`s remove the same keys as one removal of both. */
  lemma {:induction false} RemoveTwice(m: map<string, string>, a: string, b: string)
    ensures m - {a} - {b} == m - {a, b}
  {
    assert forall k :: k in m - {a} - {b} <==> k in m - {a, b};
  }

  /** The request side removes only `host` and `connection`: another
      hop-by-hop header such as `te` is forwarded unchanged. */
  lemma {:induction false} RequestKeepsOtherHopByHop(req: InboundRequest, v: string)
    requires req.headers == map["te" := v, "host" := "example.org"]
    ensures "te" in EXCLUDED_HEADERS
    ensures Outbound(req, None, None)["te"] == v
    ensures Outbound(req, None, None)["X-Forwarded-Host"] == "example.org"
    ensures "host" !in Outbound(req, None, None)
  {
    ResolvedSpec(req, None);
    OutboundSpec(req, None, None);
  }

  /** The body sent upstream: the override bytes, a stream of the inbound
      body, or none. */
  datatype Body = Given(bytes: seq<bv8>) | Streamed | NoBody

  function ChooseBody(overrideBody: Option<seq<bv8>>, finalMethod: string): (b: Body)
    ensures overrideBody.Some? <==> b.Given?
    ensures b.Given? ==> b.bytes == overrideBody.value
    ensures b.Streamed? <==> overrideBody.None? && finalMethod in STREAMED_METHODS
  {
    if overrideBody.Some? then Given(overrideBody.value)
    else if finalMethod in STREAMED_METHODS then Streamed
    else NoBody
  }

  /** The request `proxy_pass` builds before sending it upstream. */
  datatype UpstreamRequest = UpstreamRequest(httpMethod: string, url: string, headers: map<string, string>, body: Body)

  /** URL, method, headers and body of the upstream request, in the order
      `proxy_pass` resolves them. */
  method BuildUpstreamRequest(req: InboundRequest, targetUrl: string, forwardQuery: bool,
                              additional: Option<map<string, string>>, override: Option<map<string, string>>,
                              overrideBody: Option<seq<bv8>>, methodOverride: Option<string>)
    returns (u: UpstreamRequest)
    ensures u.url == WithQuery(targetUrl, forwardQuery, req.query)
    ensures u.httpMethod == ChooseMethod(methodOverride, req.httpMethod)
    ensures u.headers == Outbound(req, additional, override)
    ensures u.body == ChooseBody(overrideBody, u.httpMethod)
  {
    var url := WithQuery(targetUrl, forwardQuery, req.query);
    var finalMethod := ChooseMethod(methodOverride, req.httpMethod);
    var headers := ResolveHeaders(req, additional, override);
    var content := ChooseBody(overrideBody, finalMethod);
    u := UpstreamRequest(finalMethod, url, headers, content);
  }

  /** An upstream response header `proxy_pass` does not relay: a hop-by-hop
      name, `content-encoding` or `content-length`, in any letter case. */
  predicate Dropped(name: string) {
    var n := Lower(name);
    n in EXCLUDED_HEADERS || n == "content-encoding" || n == "content-length"
  }

  /** No later entry has the same name as entry `i`. */
  ghost predicate IsLast(items: seq<(string, string)>, i: int)
    requires 0 <= i < |items|
  {
    forall j :: i < j < |items| ==> items[j].0 != items[i].0
  }

  /** The relayed upstream headers: every entry whose name is not dropped,
      a later entry of the same name overwriting an earlier one. */
  function Relayed(items: seq<(string, string)>): (r: map<string, string>)
    ensures forall k :: k in r ==> !Dropped(k)
  {
    if |items| == 0 then map[]
    else
      var last := items[|items| - 1];
      var r := Relayed(items[..|items| - 1]);
      if Dropped(last.0) then r else r[last.0 := last.1]
  }

  /** A name is relayed exactly when it is not dropped and some upstream
      entry carries it. */
  lemma {:induction false} RelayedKeys(items: seq<(string, string)>, k: string)
    ensures k in Relayed(items) <==> !Dropped(k) && exists i :: 0 <= i < |items| && items[i].0 == k
  {
    if |items| > 0 {
      var pre := items[..|items| - 1];
      RelayedKeys(pre, k);
      if exists i :: 0 <= i < |items| && items[i].0 == k {
        var i :| 0 <= i < |items| && items[i].0 == k;
        if i < |pre| {
          assert pre[i].0 == k;
        }
      }
      if exists i :: 0 <= i < |pre| && pre[i].0 == k {
        var i :| 0 <= i < |pre| && pre[i].0 == k;
        assert items[i].0 == k;
      }
    }
  }

  /** A relayed name carries the value of its last upstream entry. */
  lemma {:induction false} RelayedValues(items: seq<(string, string)>, k: string)
    requires k in Relayed(items)
    ensures exists i :: 0 <= i < |items| && items[i] == (k, Relayed(items)[k]) && IsLast(items, i)
  {
    var pre := items[..|items| - 1];
    var last := items[|items| - 1];
    if !Dropped(last.0) && last.0 == k {
      assert IsLast(items, |items| - 1);
    } else {
      assert last.0 != k;
      assert k in Relayed(pre) && Relayed(items)[k] == Relayed(pre)[k];
      RelayedValues(pre, k);
      var i :| 0 <= i < |pre| && pre[i] == (k, Relayed(pre)[k]) && IsLast(pre, i);
      forall j | i < j < |items|
        ensures items[j].0 != items[i].0
      {
        if j < |pre| {
          assert items[j] == pre[j];
        }
      }
    }
  }

  /** The response headers of the streamed reply: the relayed ones, then
      `X-Accel-Buffering: no` and `Cache-Control: no-cache` so that proxies
      in front do not buffer or cache the stream. */
  function ResponseHeaders(items: seq<(string, string)>): (r: map<string, string>)
    ensures "X-Accel-Buffering" in r && r["X-Accel-Buffering"] == "no"
    ensures "Cache-Control" in r && r["Cache-Control"] == "no-cache"
    ensures forall k :: k != "X-Accel-Buffering" && k != "Cache-Control" ==>
      (k in r <==> k in Relayed(items)) && (k in r ==> r[k] == Relayed(items)[k])
  {
    Relayed(items)["X-Accel-Buffering" := "no"]["Cache-Control" := "no-cache"]
  }

  /** The response-header loop of `proxy_pass`. */
  method FilterResponseHeaders(items: seq<(string, string)>) returns (r: map<string, string>)
    ensures r == ResponseHeaders(items)
  {
    r := map[];
    var i := 0;
    while i < |items|
      invariant 0 <= i <= |items|
      invariant r == Relayed(items[..i])
    {
      var (k, v) := items[i];
      var name := Lower(k);
      assert items[..i + 1][..i] == items[..i];
      if name in EXCLUDED_HEADERS || name == "content-encoding" || name == "content-length" {
        i := i + 1;
        continue;
      }
      r := r[k := v];
      i := i + 1;
    }
    assert items[..i] == items;
    r := r["X-Accel-Buffering" := "no"];
    r := r["Cache-Control" := "no-cache"];
  }

  /** The filter ignores letter case: `Transfer-Encoding` is dropped as
      `transfer-encoding` is, while `Content-Type` is relayed. */
  lemma {:induction false} DroppedIgnoresCase(v: string, w: string)
    ensures "Transfer-Encoding" !in Relayed([("Transfer-Encoding", v), ("Content-Type", w)])
    ensures Relayed([("Transfer-Encoding", v), ("Content-Type", w)])["Content-Type"] == w
  {
    var items := [("Transfer-Encoding", v), ("Content-Type", w)];
    assert Lower("Transfer-Encoding") == "transfer-encoding";
    assert Lower("Content-Type") == "content-type";
    assert items[..1] == [("Transfer-Encoding", v)];
    assert items[..1][..0] == items[..0];
  }

  /** A leading `http://` becomes `ws://` and a leading `https://` becomes
      `wss://`; any other URL is left as it is. */
  function ToWebSocketUrl(url: string): (r: string)
    ensures StartsWith(url, "http://") ==> r == "ws://" + url[7..]
    ensures StartsWith(url, "https://") ==> r == "wss://" + url[8..]
    ensures !StartsWith(url, "http://") && !StartsWith(url, "https://") ==> r == url
  {
    assert StartsWith(url, "http://") ==> url[4] == ':';
    assert StartsWith(url, "https://") ==> url[4] == 's';
    if StartsWith(url, "http://") then "ws://" + url[7..]
    else if StartsWith(url, "https://") then "wss://" + url[8..]
    else url
  }

  /** Translating twice is translating once. */
  lemma {:induction false} WebSocketUrlIdempotent(url: string)
    ensures ToWebSocketUrl(ToWebSocketUrl(url)) == ToWebSocketUrl(url)
  {
    var r := ToWebSocketUrl(url);
    if StartsWith(url, "http://") || StartsWith(url, "https://") {
      assert r[2] == ':' || r[3] == ':';
      assert !StartsWith(r, "http://") && !StartsWith(r, "https://");
    }
  }

  /** A separator that does not occur in `prefix` cannot complete it:
      the joined URL starts with `prefix` exactly when the part before the
      separator does. */
  lemma {:induction false} PrefixThroughSeparator(url: string, sep: char, tail: string, prefix: string)
    requires sep !in prefix
    ensures StartsWith(url + [sep] + tail, prefix) <==> StartsWith(url, prefix)
  {
    var w := url + [sep] + tail;
    if |url| < |prefix| && |w| >= |prefix| {
      assert w[..|prefix|][|url|] == sep;
    }
    if |url| >= |prefix| {
      assert w[..|prefix|] == url[..|prefix|];
    }
  }

  /** The scheme is translated after the query is appended, but since
      neither `?` nor `&` can extend a partial `http://` or `https://`,
      the order does not matter: the query survives unchanged. */
  lemma {:induction false} QueryThenScheme(url: string, forwardQuery: bool, query: string)
    ensures ToWebSocketUrl(WithQuery(url, forwardQuery, query)) ==
      WithQuery(ToWebSocketUrl(url), forwardQuery, query)
  {
    if forwardQuery && query != "" {
      var sep := if '?' in url then '&' else '?';
      assert WithQuery(url, forwardQuery, query) == url + [sep] + query;
      if StartsWith(url, "http://") {
        SchemeSwap(url, "http://", "ws://", sep, query);
      } else if StartsWith(url, "https://") {
        SchemeSwap(url, "https://", "wss://", sep, query);
      } else {
        PrefixThroughSeparator(url, sep, query, "http://");
        PrefixThroughSeparator(url, sep, query, "https://");
      }
    }
  }

  /** Replacing a scheme prefix by another, neither holding a `?`,
      commutes with appending a query. */
  lemma {:induction false} SchemeSwap(url: string, prefix: string, newPrefix: string, sep: char, query: string)
    requires StartsWith(url, prefix) && '?' !in prefix && '?' !in newPrefix
    requires sep == (if '?' in url then '&' else '?') && query != ""
    ensures StartsWith(url + [sep] + query, prefix)
    ensures newPrefix + (url + [sep] + query)[|prefix|..] == WithQuery(newPrefix + url[|prefix|..], true, query)
  {
    var rest := url[|prefix|..];
    assert url == prefix + rest;
    assert (url + [sep] + query)[..|prefix|] == prefix;
    assert (url + [sep] + query)[|prefix|..] == rest + [sep] + query;
  }

  /** The WebSocket header map: without override headers exactly the four
      forwarding headers, `X-Forwarded-For` being just the client (no
      inbound header is copied and nothing is removed); with override
      headers exactly the override map; additional headers win over both. */
  function WebSocketHeaders(req: InboundRequest, additional: Option<map<string, string>>,
                            override: Option<map<string, string>>): (r: map<string, string>)
    ensures override.None? ==> forall k :: k in r <==>
      k in {"X-Real-IP", "X-Forwarded-For", "X-Forwarded-Proto", "X-Forwarded-Host"}
      || (additional.Some? && k in additional.value)
    ensures override.None? && (additional.None? || "X-Real-IP" !in additional.value) ==>
      r["X-Real-IP"] == ClientHost(req.client)
    ensures override.None? && (additional.None? || "X-Forwarded-For" !in additional.value) ==>
      r["X-Forwarded-For"] == ClientHost(req.client)
    ensures override.None? && (additional.None? || "X-Forwarded-Proto" !in additional.value) ==>
      r["X-Forwarded-Proto"] == req.scheme
    ensures override.None? && (additional.None? || "X-Forwarded-Host" !in additional.value) ==>
      r["X-Forwarded-Host"] == Get(req.headers, "host", req.netloc)
    ensures override.Some? ==> forall k :: k in r <==>
      k in override.value || (additional.Some? && k in additional.value)
    ensures override.Some? ==> forall k :: k in override.value && (additional.None? || k !in additional.value) ==>
      r[k] == override.value[k]
    ensures forall k :: additional.Some? && k in additional.value ==> r[k] == additional.value[k]
  {
    var base := if override.Some? then override.value
                else map["X-Real-IP" := ClientHost(req.client), "X-Forwarded-For" := ClientHost(req.client),
                         "X-Forwarded-Proto" := req.scheme,
                         "X-Forwarded-Host" := Get(req.headers, "host", req.netloc)];
    Merge(base, additional)
  }

  /** `subprotocols or websocket.scope.get("subprotocols")`: an empty
      explicit list falls back to the scope's. */
  function ChooseSubprotocols(explicit: Option<seq<string>>, scope: Option<seq<string>>): (r: Option<seq<string>>)
    ensures explicit.Some? && |explicit.value| > 0 ==> r == explicit
    ensures explicit.None? || |explicit.value| == 0 ==> r == scope
  {
    if explicit.Some? && |explicit.value| > 0 then explicit else scope
  }

  /** What `proxy_pass_websocket` passes to the upstream connect. */
  datatype WebSocketConnect = WebSocketConnect(url: string, headers: map<string, string>, subprotocols: Option<seq<string>>)

  function BuildWebSocketConnect(req: InboundRequest, targetUrl: string, subprotocols: Option<seq<string>>,
                                 scopeSubprotocols: Option<seq<string>>, forwardQuery: bool,
                                 additional: Option<map<string, string>>,
                                 override: Option<map<string, string>>): (c: WebSocketConnect)
    ensures c.url == WithQuery(ToWebSocketUrl(targetUrl), forwardQuery, req.query)
    ensures c.headers == WebSocketHeaders(req, additional, override)
    ensures c.subprotocols == ChooseSubprotocols(subprotocols, scopeSubprotocols)
  {
    QueryThenScheme(targetUrl, forwardQuery, req.query);
    WebSocketConnect(ToWebSocketUrl(WithQuery(targetUrl, forwardQuery, req.query)),
                     WebSocketHeaders(req, additional, override),
                     ChooseSubprotocols(subprotocols, scopeSubprotocols))
  }
}
