/** The packaged load balancer of `src/fastapi_reverse_proxy/load_balance.py`:
    round robin over a list, or the lowest-latency healthy target that is
    still under its request quota, the quota counters resetting whenever the
    health checker reports a newer probe cycle. */
module LoadBalance {
  import opened Common

  /** The per-target configuration record the health checker keeps; only
      its `maxrequests` entry is read here. */
  datatype TargetConfig = TargetConfig(maxRequests: Option<int>)

  /** The packaged health checker, reduced to what the balancer reads from
      it. `responseTimes` stands for the items of the dict that
      `get_response_times()` returns, in the checker's target order (a
      dict, so each host once; not required here, as nothing below needs it);
      `lastUpdate` is the time of its last completed probe cycle. The
      checker's background loop may change both between two calls. */
  class HealthSource {
    const targets: seq<string>
    const targetConfigs: map<string, TargetConfig>
    const isPersonalized: bool
    var lastUpdate: int
    var responseTimes: seq<Timed>

    constructor (targets: seq<string>, targetConfigs: map<string, TargetConfig>,
                 isPersonalized: bool, lastUpdate: int, responseTimes: seq<Timed>)
      ensures this.targets == targets && this.targetConfigs == targetConfigs
      ensures this.isPersonalized == isPersonalized
      ensures this.lastUpdate == lastUpdate && this.responseTimes == responseTimes
    {
      this.targets, this.targetConfigs, this.isPersonalized := targets, targetConfigs, isPersonalized;
      this.lastUpdate, this.responseTimes := lastUpdate, responseTimes;
    }
  }

  /** The exceptions the balancer raises. */
  datatype BalancerError = RuntimeError | IndexError

  /** The quota window: `_request_counts` and `_last_health_update`. */
  datatype Window = Window(counts: map<string, int>, lastSeen: int)

  /** Where a target's request limit comes from: `_limits_map` when the
      checker is personalised, else `_global_max_requests`. */
  datatype Limits = Limits(personalized: bool, perHost: map<string, Option<int>>, global: Option<int>)

  /** `_request_counts.get(host, 0)`. */
  function CountOf(counts: map<string, int>, host: string): int {
    if host in counts then counts[host] else 0
  }

  /** `{h: 0 for h in targets}`. */
  function ZeroCounts(targets: seq<string>): (r: map<string, int>)
    ensures forall h :: h in r <==> h in targets
    ensures forall h :: CountOf(r, h) == 0
  {
    map h | h in targets :: 0
  }

  /** The reset at the head of `_get_best_healthy`: a newer `lastUpdate`
      zeroes every count and is remembered; otherwise nothing changes.
      Since the remembered time is then at least `lastUpdate`, a second
      refresh with the same `lastUpdate` changes nothing: at most one reset
      per probe cycle. */
  function Refresh(w: Window, lastUpdate: int, targets: seq<string>): (r: Window)
    ensures lastUpdate > w.lastSeen ==> r.lastSeen == lastUpdate && r.counts == ZeroCounts(targets)
    ensures lastUpdate <= w.lastSeen ==> r == w
    ensures r.lastSeen >= lastUpdate && r.lastSeen >= w.lastSeen
  {
    if lastUpdate > w.lastSeen then Window(ZeroCounts(targets), lastUpdate) else w
  }

  /** The limit that applies to `host`: `_limits_map.get(host)` when
      personalised, the global limit otherwise; None means unlimited. */
  function LimitFor(limits: Limits, host: string): Option<int> {
    if limits.personalized then
      if host in limits.perHost then limits.perHost[host] else None
    else limits.global
  }

  /** `limit is None or self._request_counts.get(host, 0) < limit`. */
  predicate Eligible(limits: Limits, counts: map<string, int>, host: string) {
    var limit := LimitFor(limits, host);
    limit.None? || CountOf(counts, host) < limit.value
  }

  /** The `available` dict `_get_best_healthy` fills: the response-time
      entries whose host is under its limit, in order. */
  function Available(times: seq<Timed>, counts: map<string, int>, limits: Limits): (r: seq<Timed>)
  {
    if |times| == 0 then []
    else
      var last := times[|times| - 1];
      Available(times[..|times| - 1], counts, limits)
        + (if Eligible(limits, counts, last.0) then [last] else [])
  }

  /** The entry `min` settles on. */
  function MinOf(pairs: seq<Timed>): Timed
    requires |pairs| > 0
  {
    pairs[ArgMin(pairs)]
  }

  /** `_get_best_healthy` after the reset: `min` over `available`. */
  function Best(times: seq<Timed>, counts: map<string, int>, limits: Limits): Option<string> {
    FirstMin(Available(times, counts, limits))
  }

  /** Reference definition of the choice: the position in `times` of the
      first eligible entry of minimal latency, if any entry is eligible. */
  function BestIndex(times: seq<Timed>, counts: map<string, int>, limits: Limits): (r: Option<nat>)
    ensures r.None? <==> forall i :: 0 <= i < |times| ==> !Eligible(limits, counts, times[i].0)
    ensures r.Some? ==> r.value < |times| && Eligible(limits, counts, times[r.value].0)
    ensures r.Some? ==> forall j :: 0 <= j < |times| && Eligible(limits, counts, times[j].0) ==>
      times[r.value].1 <= times[j].1
    ensures r.Some? ==> forall j :: 0 <= j < r.value && Eligible(limits, counts, times[j].0) ==>
      times[r.value].1 < times[j].1
  {
    if |times| == 0 then None
    else
      var b := BestIndex(times[..|times| - 1], counts, limits);
      var last := |times| - 1;
      if !Eligible(limits, counts, times[last].0) then b
      else if b.None? || times[last].1 < times[b.value].1 then Some(last)
      else b
  }

  /** Filtering then taking `min` picks the entry BestIndex names. */
  lemma {:induction false} AvailableMin(times: seq<Timed>, counts: map<string, int>, limits: Limits)
    ensures |Available(times, counts, limits)| == 0 <==> BestIndex(times, counts, limits).None?
    ensures BestIndex(times, counts, limits).Some? ==>
      MinOf(Available(times, counts, limits)) == times[BestIndex(times, counts, limits).value]
  {
    if |times| > 0 {
      var pre := times[..|times| - 1];
      var p := times[|times| - 1];
      AvailableMin(pre, counts, limits);
      var ap := Available(pre, counts, limits);
      var b := BestIndex(pre, counts, limits);
      if b.Some? {
        assert times[b.value] == pre[b.value];
      }
      if Eligible(limits, counts, p.0) {
        assert Available(times, counts, limits) == ap + [p];
        MinOfSnoc(ap, p);
      } else {
        assert Available(times, counts, limits) == ap;
      }
    }
  }

  /** Appending one entry: `min` keeps its entry unless the new one is
      strictly faster. */
  lemma {:induction false} MinOfSnoc(pairs: seq<Timed>, p: Timed)
    ensures MinOf(pairs + [p]) == if |pairs| == 0 || p.1 < MinOf(pairs).1 then p else MinOf(pairs)
  {
    var all := pairs + [p];
    assert all[..|all| - 1] == pairs;
  }

  /** What `_get_best_healthy` returns: None exactly when no response-time
      entry is under its limit; otherwise the host of an entry that is
      under its limit, no eligible entry being faster and every earlier
      eligible entry being strictly slower (the first wins a tie). */
  lemma {:induction false} BestSpec(times: seq<Timed>, counts: map<string, int>, limits: Limits)
    ensures Best(times, counts, limits).None? <==>
      forall i :: 0 <= i < |times| ==> !Eligible(limits, counts, times[i].0)
    ensures Best(times, counts, limits).Some? ==> exists k ::
      && 0 <= k < |times| && times[k].0 == Best(times, counts, limits).value
      && Eligible(limits, counts, times[k].0)
      && (forall j :: 0 <= j < |times| && Eligible(limits, counts, times[j].0) ==> times[k].1 <= times[j].1)
      && (forall j :: 0 <= j < k && Eligible(limits, counts, times[j].0) ==> times[k].1 < times[j].1)
  {
    AvailableMin(times, counts, limits);
    var b := BestIndex(times, counts, limits);
    if b.Some? {
      var k := b.value;
      assert times[k].0 == Best(times, counts, limits).value;
    }
  }

  /** One more request counted against `host`, and against no other. */
  function Bump(counts: map<string, int>, host: string): (r: map<string, int>)
    ensures forall h :: CountOf(r, h) == CountOf(counts, h) + (if h == host then 1 else 0)
    ensures forall h :: h in r <==> h in counts || h == host
  {
    counts[host := CountOf(counts, host) + 1]
  }

  /** A target whose count reaches its limit is passed over until the next
      probe cycle: once the chosen host has used its last allowed request,
      the next choice is another host, or none. */
  lemma {:induction false} QuotaExhausted(times: seq<Timed>, counts: map<string, int>, limits: Limits, h: string)
    requires Best(times, counts, limits) == Some(h)
    requires LimitFor(limits, h).Some? && CountOf(counts, h) + 1 == LimitFor(limits, h).value
    ensures Best(times, Bump(counts, h), limits) != Some(h)
  {
    var c := Bump(counts, h);
    BestSpec(times, c, limits);
    assert !Eligible(limits, c, h);
  }

  /** After a newer probe cycle is observed, every target of the checker
      with no limit or a positive limit is eligible again. */
  lemma {:induction false} NewCycleRestores(w: Window, lastUpdate: int, targets: seq<string>, limits: Limits, h: string)
    requires lastUpdate > w.lastSeen
    requires LimitFor(limits, h).None? || LimitFor(limits, h).value > 0
    ensures Eligible(limits, Refresh(w, lastUpdate, targets).counts, h)
  {
  }

  /** The quota example: with a quota of 2 on the fastest host `a` and
      none on `b`, three picks in one probe cycle give `a`, `a`, `b`; a
      new probe cycle makes `a` the choice again. */
  lemma {:induction false} QuotaScenario(a: string, b: string, la: nat, lb: nat, t0: int, t1: int)
    requires a != b && la < lb && t0 < t1
    ensures
      var times := [(a, la), (b, lb)];
      var limits := Limits(true, map[a := Some(2), b := None], None);
      var c0 := ZeroCounts([a, b]);
      var c1 := Bump(c0, a);
      var c2 := Bump(c1, a);
      var c3 := Bump(c2, b);
      && Best(times, c0, limits) == Some(a)
      && Best(times, c1, limits) == Some(a)
      && Best(times, c2, limits) == Some(b)
      && Best(times, Refresh(Window(c3, t0), t1, [a, b]).counts, limits) == Some(a)
  {
    var times := [(a, la), (b, lb)];
    var limits := Limits(true, map[a := Some(2), b := None], None);
    var c0 := ZeroCounts([a, b]);
    var c1 := Bump(c0, a);
    var c2 := Bump(c1, a);
    assert times[..1] == [(a, la)];
    assert times[..1][..0] == times[..0];
    assert Available(times[..1], c0, limits) == [(a, la)];
    assert Available(times, c0, limits) == times;
    assert Available(times[..1], c1, limits) == [(a, la)];
    assert Available(times, c1, limits) == times;
    assert Available(times[..1], c2, limits) == [];
    assert Available(times, c2, limits) == [(b, lb)];
  }

  /** What the relay layer does with the balancer's pick: a falsy target
      (None or "") is answered with HTTP 503, anything else is forwarded. */
  datatype HttpDecision = Unavailable(status: int) | Forward(target: string)

  /** What the WebSocket relay does with the pick: a falsy target closes
      the inbound socket with code 1011, anything else is tunnelled. */
  datatype WsDecision = CloseWith(code: int) | Tunnel(target: string)

  function HttpDispatch(target: Option<string>): (d: HttpDecision)
    ensures d.Unavailable? <==> !Truthy(target)
    ensures d.Unavailable? ==> d.status == 503
    ensures d.Forward? ==> target == Some(d.target) && d.target != ""
  {
    if Truthy(target) then Forward(target.value) else Unavailable(503)
  }

  function WsDispatch(target: Option<string>): (d: WsDecision)
    ensures d.CloseWith? <==> !Truthy(target)
    ensures d.CloseWith? ==> d.code == 1011
    ensures d.Tunnel? ==> target == Some(d.target) && d.target != ""
  {
    if Truthy(target) then Tunnel(target.value) else CloseWith(1011)
  }

  /** In health mode, with no empty host name among the response times, a
      request is refused with 503 exactly when no healthy target is under
      its limit. */
  lemma {:induction false} UnavailableIffNoneEligible(times: seq<Timed>, counts: map<string, int>, limits: Limits)
    requires forall i :: 0 <= i < |times| ==> times[i].0 != ""
    ensures HttpDispatch(Best(times, counts, limits)).Unavailable? <==>
      forall i :: 0 <= i < |times| ==> !Eligible(limits, counts, times[i].0)
  {
    BestSpec(times, counts, limits);
  }

  /** `{host: config.get("maxrequests") for host in targets}`, the
      per-target limits the constructor reads from the checker's configs. */
  function ConfiguredLimits(targets: seq<string>, configs: map<string, TargetConfig>): (r: map<string, Option<int>>)
    ensures forall h :: h in r <==> h in targets
    ensures forall h :: h in r && h in configs ==> r[h] == configs[h].maxRequests
    ensures forall h :: h in r && h !in configs ==> r[h].None?
  {
    map h | h in targets :: if h in configs then configs[h].maxRequests else None
  }

  class LoadBalancer {
    const healthMode: bool
    const servers: seq<string>
    const checker: HealthSource?
    /** `__index`, the round-robin cursor. */
    var index: nat
    var requestCounts: map<string, int>
    var lastHealthUpdate: int
    var limitsMap: map<string, Option<int>>
    var globalMaxRequests: Option<int>

    /** A personalised balancer keeps the per-target limits it read from
        the configs for its whole life: the setter refuses to touch them. */
    ghost predicate Valid()
      reads this
    {
      && (healthMode <==> checker != null)
      && (|servers| > 0 ==> index < |servers|)
      && (healthMode && checker.isPersonalized ==>
            limitsMap == ConfiguredLimits(checker.targets, checker.targetConfigs))
    }

    ghost function QuotaWindow(): Window
      reads this
    {
      Window(requestCounts, lastHealthUpdate)
    }

    /** The limit each host is held to in the current state: a personalised
        balancer applies the `maxrequests` of the host's own config (none
        for a host without a config or outside the targets); any other
        applies the global limit to every host. */
    function CurrentLimits(): (r: Limits)
      reads this
      requires Valid()
      ensures healthMode && checker.isPersonalized ==>
        forall h :: LimitFor(r, h) == (if h in checker.targets && h in checker.targetConfigs
                                      then checker.targetConfigs[h].maxRequests else None)
      ensures !(healthMode && checker.isPersonalized) ==> forall h :: LimitFor(r, h) == globalMaxRequests
    {
      Limits(healthMode && checker.isPersonalized, limitsMap, globalMaxRequests)
    }

    /** The host `peek` and `get` return from the current state. */
    ghost function Selected(): Option<string>
      reads this, checker
      requires Valid()
    {
      if healthMode then
        var w := Refresh(QuotaWindow(), checker.lastUpdate, checker.targets);
        Best(checker.responseTimes, w.counts, CurrentLimits())
      else if |servers| == 0 then None
      else Some(servers[index])
    }

    /** `__init__` with a list: round-robin mode. */
    constructor FromList(servers: seq<string>)
      ensures Valid() && !healthMode && this.servers == servers
      ensures index == 0 && requestCounts == map[] && lastHealthUpdate == 0
      ensures limitsMap == map[] && globalMaxRequests == None
    {
      healthMode, this.servers, checker := false, servers, null;
      index, requestCounts, lastHealthUpdate := 0, map[], 0;
      limitsMap, globalMaxRequests := map[], None;
    }

    /** `__init__` with a health checker: each target's limit is read from
        its config's `maxrequests`, None when absent. */
    constructor FromChecker(source: HealthSource)
      ensures Valid() && healthMode && checker == source && servers == []
      ensures index == 0 && requestCounts == map[] && lastHealthUpdate == 0
      ensures limitsMap == ConfiguredLimits(source.targets, source.targetConfigs)
      ensures globalMaxRequests == None
    {
      var targets := source.targets;
      var limits: map<string, Option<int>> := map[];
      var i := 0;
      while i < |targets|
        invariant 0 <= i <= |targets|
        invariant forall h :: h in limits <==> h in targets[..i]
        invariant forall h :: h in limits ==> limits[h] == ConfiguredLimits(targets, source.targetConfigs)[h]
      {
        var host := targets[i];
        var config := if host in source.targetConfigs then source.targetConfigs[host] else TargetConfig(None);
        limits := limits[host := config.maxRequests];
        assert targets[..i + 1] == targets[..i] + [host];
        i := i + 1;
      }
      assert targets[..i] == targets;
      healthMode, servers, checker := true, [], source;
      index, requestCounts, lastHealthUpdate := 0, map[], 0;
      limitsMap, globalMaxRequests := limits, None;
    }

    /** The `max_requests` getter: refused when personalised. */
    function MaxRequests(): (r: Result<Option<int>, BalancerError>)
      reads this
      requires Valid()
      ensures r.Failure? <==> healthMode && checker.isPersonalized
      ensures r.Failure? ==> r.error == RuntimeError
      ensures r.Success? ==> r.value == globalMaxRequests
    {
      if healthMode && checker.isPersonalized then Failure(RuntimeError) else Success(globalMaxRequests)
    }

    /** The `max_requests` setter: refused when personalised; otherwise it
        stores the global limit and, in health mode, copies it onto every
        per-target limit. */
    method SetMaxRequests(value: Option<int>) returns (r: Outcome<BalancerError>)
      requires Valid()
      modifies this`globalMaxRequests, this`limitsMap
      ensures Valid()
      ensures healthMode && checker.isPersonalized ==>
        r == Fail(RuntimeError) && globalMaxRequests == old(globalMaxRequests) && limitsMap == old(limitsMap)
      ensures !(healthMode && checker.isPersonalized) ==>
        && r == Pass && globalMaxRequests == value
        && limitsMap == if healthMode then map h | h in old(limitsMap) :: value else old(limitsMap)
      ensures r == Pass ==> forall h :: LimitFor(CurrentLimits(), h) == value
    {
      if healthMode && checker.isPersonalized {
        return Fail(RuntimeError);
      }
      globalMaxRequests := value;
      if healthMode {
        var pending := limitsMap.Keys;
        while pending != {}
          invariant pending <= limitsMap.Keys
          invariant limitsMap.Keys == old(limitsMap).Keys
          invariant globalMaxRequests == value
          invariant forall h :: h in limitsMap && h !in pending ==> limitsMap[h] == value
          decreases pending
        {
          var h :| h in pending;
          limitsMap := limitsMap[h := value];
          pending := pending - {h};
        }
        assert limitsMap == map h | h in old(limitsMap) :: value;
      }
      r := Pass;
    }

    /** `_get_best_healthy`: first the reset of the quota window, then the
        fastest response-time entry under its limit. */
    method BestHealthy() returns (r: Option<string>)
      requires Valid() && healthMode
      modifies this`requestCounts, this`lastHealthUpdate
      ensures Valid()
      ensures QuotaWindow() == Refresh(old(QuotaWindow()), checker.lastUpdate, checker.targets)
      ensures r == Best(checker.responseTimes, requestCounts, CurrentLimits())
    {
      if checker.lastUpdate > lastHealthUpdate {
        requestCounts := map h | h in checker.targets :: 0;
        lastHealthUpdate := checker.lastUpdate;
      }
      var times := checker.responseTimes;
      var available: seq<Timed> := [];
      var i := 0;
      while i < |times|
        invariant 0 <= i <= |times|
        invariant available == Available(times[..i], requestCounts, CurrentLimits())
      {
        var host := times[i].0;
        var limit := if checker.isPersonalized then (if host in limitsMap then limitsMap[host] else None)
                     else globalMaxRequests;
        if limit.None? || CountOf(requestCounts, host) < limit.value {
          available := available + [times[i]];
        }
        assert times[..i + 1][..i] == times[..i];
        i := i + 1;
      }
      assert times[..i] == times;
      r := FirstMin(available);
    }

    /** The state a `get` that returned `r` leaves behind. */
    twostate predicate Picked(r: Option<string>)
      reads this, checker
      requires old(Valid()) && Valid()
    {
      if healthMode then
        var w := Refresh(old(QuotaWindow()), checker.lastUpdate, checker.targets);
        && index == old(index) && lastHealthUpdate == w.lastSeen
        && requestCounts == (if Truthy(r) then Bump(w.counts, r.value) else w.counts)
      else
        && QuotaWindow() == old(QuotaWindow())
        && index == if |servers| == 0 then old(index) else (old(index) + 1) % |servers|
    }

    /** `peek`: the host `get` would return. It leaves the cursor alone and
        counts nothing; in health mode it does perform the reset of a new
        probe cycle, which `get` would have done anyway, so what is
        selected next is unchanged. */
    method Peek() returns (r: Option<string>)
      requires Valid()
      modifies this`requestCounts, this`lastHealthUpdate
      ensures Valid()
      ensures r == old(Selected())
      ensures Selected() == old(Selected())
      ensures healthMode ==> QuotaWindow() == Refresh(old(QuotaWindow()), checker.lastUpdate, checker.targets)
      ensures !healthMode ==> QuotaWindow() == old(QuotaWindow())
    {
      if healthMode {
        r := BestHealthy();
      } else if |servers| == 0 {
        r := None;
      } else {
        r := Some(servers[index]);
      }
    }

    /** `get`: the selected host; in health mode a truthy result costs that
        host one request and no other, in list mode the cursor advances
        modulo the list length. */
    method Get() returns (r: Option<string>)
      requires Valid()
      modifies this`index, this`requestCounts, this`lastHealthUpdate
      ensures Valid()
      ensures r == old(Selected())
      ensures Picked(r)
      ensures !healthMode && |servers| > 0 ==> forall n: nat ::
        Rotation(servers, old(index), n + 1) == [r.value] + Rotation(servers, index, n)
    {
      if healthMode {
        r := BestHealthy();
        ghost var refreshed := requestCounts;
        if Truthy(r) {
          requestCounts := requestCounts[r.value := CountOf(requestCounts, r.value) + 1];
          assert requestCounts == Bump(refreshed, r.value);
        }
      } else if |servers| == 0 {
        r := None;
      } else {
        r := Some(servers[index]);
        index := (index + 1) % |servers|;
        assert QuotaWindow() == old(QuotaWindow());
      }
    }

    /** `get_all`. */
    function GetAll(): (r: seq<string>)
      reads this
      requires Valid()
      ensures r == if healthMode then checker.targets else servers
    {
      if healthMode then checker.targets else servers
    }

    /** `set_index`: refused in health mode and for a negative index or,
        on a non-empty list, one past its end. On an empty list any
        non-negative index is accepted. */
    method SetIndex(i: int) returns (r: Outcome<BalancerError>)
      requires Valid()
      modifies this`index
      ensures Valid()
      ensures healthMode ==> r == Fail(RuntimeError) && index == old(index)
      ensures !healthMode && (i < 0 || (|servers| > 0 && i >= |servers|)) ==>
        r == Fail(IndexError) && index == old(index)
      ensures !healthMode && 0 <= i && (|servers| == 0 || i < |servers|) ==> r == Pass && index == i
    {
      if healthMode {
        return Fail(RuntimeError);
      }
      if i < 0 || (|servers| > 0 && i >= |servers|) {
        return Fail(IndexError);
      }
      index := i;
      r := Pass;
    }

    /** The selection step of `proxy_pass`: `get`, then 503 when no target
        came back. */
    method ProxyPass() returns (d: HttpDecision)
      requires Valid()
      modifies this`index, this`requestCounts, this`lastHealthUpdate
      ensures Valid()
      ensures d == HttpDispatch(old(Selected()))
      ensures Picked(old(Selected()))
    {
      var target := Get();
      d := HttpDispatch(target);
    }

    /** The selection step of `proxy_pass_websocket`: `get`, then a close
        with code 1011 when no target came back. */
    method ProxyPassWebSocket() returns (d: WsDecision)
      requires Valid()
      modifies this`index, this`requestCounts, this`lastHealthUpdate
      ensures Valid()
      ensures d == WsDispatch(old(Selected()))
      ensures Picked(old(Selected()))
    {
      var target := Get();
      d := WsDispatch(target);
    }
  }
}
