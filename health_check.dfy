/** The health monitor of `health_check.py`: a table from target to its
    last probe result (a latency, or down), the views the load balancer
    reads from it, and the start/stop/destroy life cycle of its background
    probe task and its HTTP client. A probe is an abstract outcome passed
    in by the caller; the timer loop and the HTTP client are not modelled. */
module HealthCheck {
  import opened Common

  /** One entry of the `status` dict: a latency in milliseconds, or `False`. */
  datatype Status = Up(latency: nat) | Down

  /** What one HEAD probe of a target produced: a response with its status
      code and the elapsed time, or an exception. */
  datatype ProbeOutcome = Responded(statusCode: int, latency: nat) | Raised

  /** The `ValueError`s the constructor raises. */
  datatype ConfigError = EmptyTargets | IntervalTooSmall | TimeoutTooSmall

  /** The constructor's checks, in the order it makes them. */
  function ValidateConfig(targets: seq<string>, interval: int, timeout: int): (r: Option<ConfigError>)
    ensures r.None? <==> |targets| > 0 && interval >= 1 && timeout >= 1
    ensures r == Some(EmptyTargets) <==> |targets| == 0
    ensures r == Some(IntervalTooSmall) <==> |targets| > 0 && interval < 1
    ensures r == Some(TimeoutTooSmall) <==> |targets| > 0 && interval >= 1 && timeout < 1
  {
    if |targets| == 0 then Some(EmptyTargets)
    else if interval < 1 then Some(IntervalTooSmall)
    else if timeout < 1 then Some(TimeoutTooSmall)
    else None
  }

  /** The status entry one probe outcome leaves behind. */
  function Recorded(o: ProbeOutcome): (s: Status)
    ensures s.Up? <==> o.Responded? && o.statusCode < 400
    ensures s.Up? ==> s.latency == o.latency
  {
    match o
    case Responded(code, latency) => if code < 400 then Up(latency) else Down
    case Raised => Down
  }

  /** Keys of a dict built from `s` by a comprehension, in the order the
      dict keeps them: first occurrences, in order. */
  function Dedup(s: seq<string>): (r: seq<string>)
    ensures Distinct(r)
    ensures forall x :: x in r <==> x in s
    ensures Distinct(s) ==> r == s
  {
    if |s| == 0 then []
    else
      var d := Dedup(s[..|s| - 1]);
      assert s == s[..|s| - 1] + [s[|s| - 1]];
      if s[|s| - 1] in d then d else d + [s[|s| - 1]]
  }

  /** The keys contributed by the first `n` targets come first, in the
      order they had there: a target listed before another gets the
      earlier key position, which is the order `min` breaks ties in. */
  lemma {:induction false} DedupPrefix(s: seq<string>, n: nat)
    requires n <= |s|
    ensures Dedup(s[..n]) <= Dedup(s)
    decreases |s|
  {
    if n == |s| {
      assert s[..n] == s;
    } else {
      var m := |s| - 1;
      assert s[..m][..n] == s[..n];
      DedupPrefix(s[..m], n);
    }
  }

  /** `status.get(t) is not False`: a target with no entry counts as up. */
  predicate Healthy(status: map<string, Status>, t: string) {
    t !in status || status[t].Up?
  }

  /** `[t for t in targets if status.get(t) is not False]`. */
  function HealthyIn(targets: seq<string>, status: map<string, Status>): (r: seq<string>)
  {
    if |targets| == 0 then []
    else (if Healthy(status, targets[0]) then [targets[0]] else []) + HealthyIn(targets[1..], status)
  }

  /** The complement of HealthyIn: the targets whose entry is `False`. */
  function DownIn(targets: seq<string>, status: map<string, Status>): (r: seq<string>)
  {
    if |targets| == 0 then []
    else (if Healthy(status, targets[0]) then [] else [targets[0]]) + DownIn(targets[1..], status)
  }

  /** The healthy list holds exactly the healthy targets and the down list
      exactly the others. */
  lemma {:induction false} HealthyMembers(targets: seq<string>, status: map<string, Status>)
    ensures forall t :: t in HealthyIn(targets, status) <==> t in targets && Healthy(status, t)
    ensures forall t :: t in DownIn(targets, status) <==> t in targets && !Healthy(status, t)
  {
    if |targets| > 0 {
      var rest := targets[1..];
      HealthyMembers(rest, status);
      assert targets == [targets[0]] + rest;
    }
  }

  /** The healthy and the down targets split the target list: together
      they are the target list, each target with its multiplicity. */
  lemma {:induction false} HealthyPartition(targets: seq<string>, status: map<string, Status>)
    ensures multiset(HealthyIn(targets, status)) + multiset(DownIn(targets, status)) == multiset(targets)
  {
    if |targets| > 0 {
      var first, rest := targets[0], targets[1..];
      HealthyPartition(rest, status);
      var h, d := HealthyIn(rest, status), DownIn(rest, status);
      assert targets == [first] + rest;
      assert multiset(targets) == multiset([first]) + multiset(rest);
      if Healthy(status, first) {
        assert HealthyIn(targets, status) == [first] + h;
        assert multiset([first] + h) == multiset([first]) + multiset(h);
        assert DownIn(targets, status) == d;
      } else {
        assert DownIn(targets, status) == [first] + d;
        assert multiset([first] + d) == multiset([first]) + multiset(d);
        assert HealthyIn(targets, status) == h;
      }
    }
  }

  /** `{t: float(v) for t, v in status.items() if v is not False}`, as its
      items in the dict's key order `order`. */
  function TimesOf(order: seq<string>, status: map<string, Status>): (r: seq<Timed>)
  {
    if |order| == 0 then []
    else
      var last := order[|order| - 1];
      TimesOf(order[..|order| - 1], status)
        + (if last in status && status[last].Up? then [(last, status[last].latency)] else [])
  }

  /** The response times are exactly the up entries of the table. */
  lemma {:induction false} TimesOfEntries(order: seq<string>, status: map<string, Status>)
    ensures forall i :: 0 <= i < |TimesOf(order, status)| ==>
      var e := TimesOf(order, status)[i]; e.0 in order && e.0 in status && status[e.0] == Up(e.1)
    ensures forall t :: t in order && t in status && status[t].Up? ==>
      exists i :: 0 <= i < |TimesOf(order, status)| && TimesOf(order, status)[i] == (t, status[t].latency)
  {
    if |order| > 0 {
      var pre := order[..|order| - 1];
      var last := order[|order| - 1];
      TimesOfEntries(pre, status);
      assert order == pre + [last];
      var r, rp := TimesOf(order, status), TimesOf(pre, status);
      assert r[..|rp|] == rp;
      forall t | t in order && t in status && status[t].Up?
        ensures exists i :: 0 <= i < |r| && r[i] == (t, status[t].latency)
      {
        if t in pre {
          var i :| 0 <= i < |rp| && rp[i] == (t, status[t].latency);
          assert r[i] == rp[i];
        } else {
          assert t == last;
          assert r[|r| - 1] == (t, status[t].latency);
        }
      }
    }
  }

  /** Each key appears at most once among the response times. */
  lemma {:induction false} TimesOfDistinct(order: seq<string>, status: map<string, Status>)
    requires Distinct(order)
    ensures forall i, j :: 0 <= i < j < |TimesOf(order, status)| ==>
      TimesOf(order, status)[i].0 != TimesOf(order, status)[j].0
  {
    if |order| > 0 {
      var pre := order[..|order| - 1];
      TimesOfDistinct(pre, status);
      TimesOfEntries(pre, status);
      var r, rp := TimesOf(order, status), TimesOf(pre, status);
      assert r[..|rp|] == rp;
      forall i, j | 0 <= i < j < |r|
        ensures r[i].0 != r[j].0
      {
        assert r[i] == rp[i];
        if j < |rp| {
          assert r[j] == rp[j];
        } else {
          var p :| 0 <= p < |pre| && pre[p] == rp[i].0;
          assert order[p] == r[i].0 && r[j].0 == order[|order| - 1];
        }
      }
    }
  }

  /** Any two entries of `r` name keys in the same relative order as `order`. */
  ghost predicate FollowsOrder(r: seq<Timed>, order: seq<string>) {
    forall i, j :: 0 <= i < j < |r| ==>
      exists p, q :: 0 <= p < q < |order| && order[p] == r[i].0 && order[q] == r[j].0
  }

  /** The response times follow the table's key order. */
  lemma {:induction false} TimesOfInOrder(order: seq<string>, status: map<string, Status>)
    ensures FollowsOrder(TimesOf(order, status), order)
  {
    if |order| > 0 {
      var pre := order[..|order| - 1];
      TimesOfInOrder(pre, status);
      TimesOfEntries(pre, status);
      var r, rp := TimesOf(order, status), TimesOf(pre, status);
      assert r[..|rp|] == rp;
      forall i, j | 0 <= i < j < |r|
        ensures exists p, q :: 0 <= p < q < |order| && order[p] == r[i].0 && order[q] == r[j].0
      {
        assert r[i] == rp[i];
        if j < |rp| {
          assert r[j] == rp[j];
          var p, q :| 0 <= p < q < |pre| && pre[p] == rp[i].0 && pre[q] == rp[j].0;
          assert order[p] == r[i].0 && order[q] == r[j].0;
        } else {
          var last := order[|order| - 1];
          assert r == rp + [(last, status[last].latency)];
          var p :| 0 <= p < |pre| && pre[p] == rp[i].0;
          var q := |order| - 1;
          assert 0 <= p < q < |order| && order[p] == r[i].0 && order[q] == r[j].0;
        }
      }
    }
  }

  /** `min(r, key=lambda t: r[t]) if r else None` over the response times. */
  function FastestOf(order: seq<string>, status: map<string, Status>): (r: Option<string>)
  {
    FirstMin(TimesOf(order, status))
  }

  /** When `order` lists the keys of the table: no target is fastest
      exactly when every entry is down; otherwise the fastest is up and no
      up target is strictly faster, and among the response times (which
      follow `order`) it is the first of minimal latency. */
  lemma {:induction false} FastestSpec(order: seq<string>, status: map<string, Status>)
    requires forall t :: t in status <==> t in order
    ensures FastestOf(order, status).None? <==> forall t :: t in status ==> status[t] == Down
    ensures FastestOf(order, status).Some? ==>
      var h := FastestOf(order, status).value;
      && h in status && status[h].Up?
      && (forall t :: t in status && status[t].Up? ==> status[h].latency <= status[t].latency)
      && exists k :: IsFirstMin(TimesOf(order, status), k) && TimesOf(order, status)[k].0 == h
  {
    TimesOfEntries(order, status);
    var r := TimesOf(order, status);
    if FastestOf(order, status).Some? {
      var k :| IsFirstMin(r, k) && r[k].0 == FastestOf(order, status).value;
      forall t | t in status && status[t].Up?
        ensures status[r[k].0].latency <= status[t].latency
      {
        var i :| 0 <= i < |r| && r[i] == (t, status[t].latency);
      }
    } else {
      forall t | t in status
        ensures status[t] == Down
      {
        assert t in order;
      }
    }
  }

  /** Position `i` of `s` is the last occurrence of its value before `k`. */
  ghost predicate LastBefore(s: seq<string>, i: int, k: int) {
    && 0 <= i < k <= |s|
    && forall j :: i < j < k ==> s[j] != s[i]
  }

  /** The table after the probes of `targets`, `outcomes[i]` being the
      outcome for `targets[i]`, have been recorded one after the other. */
  function Probed(status: map<string, Status>, targets: seq<string>, outcomes: seq<ProbeOutcome>): map<string, Status>
    requires |outcomes| == |targets|
  {
    if |targets| == 0 then status
    else
      var n := |targets| - 1;
      Probed(status, targets[..n], outcomes[..n])[targets[n] := Recorded(outcomes[n])]
  }

  /** Probing adds the probed targets to the table; each target's entry is
      the one its own probe recorded, the later probe for a target listed
      twice; every other entry is unchanged. */
  lemma {:induction false} ProbedSpec(status: map<string, Status>, targets: seq<string>, outcomes: seq<ProbeOutcome>)
    requires |outcomes| == |targets|
    ensures forall t :: t in Probed(status, targets, outcomes) <==> t in status || t in targets
    ensures forall i :: LastBefore(targets, i, |targets|) ==>
      Probed(status, targets, outcomes)[targets[i]] == Recorded(outcomes[i])
    ensures forall t :: t in status && t !in targets ==> Probed(status, targets, outcomes)[t] == status[t]
  {
    if |targets| > 0 {
      var n := |targets| - 1;
      var pre, po := targets[..n], outcomes[..n];
      ProbedSpec(status, pre, po);
      assert targets == pre + [targets[n]];
      forall i | LastBefore(targets, i, |targets|)
        ensures Probed(status, targets, outcomes)[targets[i]] == Recorded(outcomes[i])
      {
        if i < n {
          assert LastBefore(pre, i, n) && targets[i] != targets[n];
          assert outcomes[i] == po[i];
        }
      }
    }
  }

  /** The outcomes the probes actually have: with the client gone (an
      owned client after `destroy`), `self._client.head` raises before any
      request is made, whatever the target would have answered. */
  function Attempted(clientOpen: bool, outcomes: seq<ProbeOutcome>): (r: seq<ProbeOutcome>)
    ensures |r| == |outcomes|
    ensures clientOpen ==> r == outcomes
    ensures !clientOpen ==> forall i :: 0 <= i < |r| ==> r[i] == Raised
  {
    if clientOpen then outcomes else seq(|outcomes|, _ => Raised)
  }

  /** When every probe raises, every probed target ends up down. */
  lemma {:induction false} ProbedAllRaised(status: map<string, Status>, targets: seq<string>, outcomes: seq<ProbeOutcome>)
    requires |outcomes| == |targets|
    requires forall i :: 0 <= i < |outcomes| ==> outcomes[i] == Raised
    ensures forall t :: t in targets ==> t in Probed(status, targets, outcomes) && Probed(status, targets, outcomes)[t] == Down
  {
    if |targets| > 0 {
      var n := |targets| - 1;
      ProbedAllRaised(status, targets[..n], outcomes[..n]);
      assert targets == targets[..n] + [targets[n]];
    }
  }

  /** The checker object: its configuration, its status table (`order`
      holds the table's keys in insertion order, as a Python dict keeps
      them), the background task handle and the HTTP client it may own. */
  class HealthChecker {
    const targets: seq<string>
    const interval: int
    const timeout: int
    var order: seq<string>
    var status: map<string, Status>
    /** `_task`: the id of the running background task, if any. */
    var task: Option<nat>
    /** Number of background tasks created so far; the next one gets this id. */
    var tasksCreated: nat
    /** `_owns_client`: the client was created here rather than passed in. */
    const ownsClient: bool
    /** `_client is not None`. */
    var clientOpen: bool

    ghost predicate Valid()
      reads this
    {
      && ValidateConfig(targets, interval, timeout).None?
      && Distinct(order)
      && (forall t :: t in status <==> t in order)
      && (forall t :: t in targets ==> t in status)
      && (task.Some? ==> task.value < tasksCreated)
    }

    /** Both the background task and an owned client are released. */
    ghost predicate Released()
      reads this
    {
      task.None? && !(ownsClient && clientOpen)
    }

    /** `__init__` once its checks have passed: every target starts at
        latency 0, i.e. up; the task is created when autostart is asked for
        and an event loop is running; a client is created unless one is
        supplied. */
    constructor (targets: seq<string>, interval: int, timeout: int,
                 autostart: bool, loopRunning: bool, clientSupplied: bool)
      requires ValidateConfig(targets, interval, timeout).None?
      ensures Valid()
      ensures this.targets == targets && this.interval == interval && this.timeout == timeout
      ensures order == Dedup(targets)
      ensures forall t :: t in status <==> t in targets
      ensures forall t :: t in status ==> status[t] == Up(0)
      ensures task == (if autostart && loopRunning then Some(0) else None)
      ensures ownsClient == !clientSupplied && clientOpen
    {
      this.targets, this.interval, this.timeout := targets, interval, timeout;
      order := Dedup(targets);
      status := map t | t in targets :: Up(0);
      if autostart && loopRunning {
        task, tasksCreated := Some(0), 1;
      } else {
        task, tasksCreated := None, 0;
      }
      ownsClient := !clientSupplied;
      clientOpen := true;
    }

    /** `__init__` with its `ValueError`s as a failure result. */
    static method New(targets: seq<string>, interval: int, timeout: int,
                      autostart: bool, loopRunning: bool, clientSupplied: bool)
      returns (r: Result<HealthChecker, ConfigError>)
      ensures r.Failure? <==> ValidateConfig(targets, interval, timeout).Some?
      ensures r.Failure? ==> r.error == ValidateConfig(targets, interval, timeout).value
      ensures r.Success? ==> fresh(r.value) && r.value.Valid() && r.value.targets == targets
    {
      var err := ValidateConfig(targets, interval, timeout);
      if err.Some? {
        return Failure(err.value);
      }
      var c := new HealthChecker(targets, interval, timeout, autostart, loopRunning, clientSupplied);
      return Success(c);
    }

    /** `_check_target`: one probe outcome rewrites that target's entry and
        no other; a target without an entry is appended to the table. With
        the client gone the probe raises and the target is recorded down. */
    method CheckTarget(target: string, outcome: ProbeOutcome)
      requires Valid()
      modifies this`status, this`order
      ensures Valid()
      ensures status == old(status)[target := Recorded(if clientOpen then outcome else Raised)]
      ensures !clientOpen ==> status[target] == Down
      ensures order == if target in old(status) then old(order) else old(order) + [target]
    {
      var attempted := if clientOpen then outcome else Raised;
      if target !in status {
        order := order + [target];
      }
      status := status[target := Recorded(attempted)];
    }

    /** `check_all`: every target is probed once, `outcomes[i]` being the
        outcome the probe of `targets[i]` gets while the client is open,
        with the effect Probed specifies; entries of other keys and the key
        order are unchanged. With the client gone every target goes down. */
    method CheckAll(outcomes: seq<ProbeOutcome>)
      requires Valid()
      requires |outcomes| == |targets|
      modifies this`status, this`order
      ensures Valid()
      ensures order == old(order)
      ensures status == Probed(old(status), targets, Attempted(clientOpen, outcomes))
      ensures forall t :: t in status <==> t in old(status)
      ensures clientOpen ==> forall i :: LastBefore(targets, i, |targets|) ==> status[targets[i]] == Recorded(outcomes[i])
      ensures !clientOpen ==> forall t :: t in targets ==> status[t] == Down
      ensures forall t :: t in old(status) && t !in targets ==> status[t] == old(status)[t]
    {
      ghost var attempted := Attempted(clientOpen, outcomes);
      var k := 0;
      while k < |targets|
        invariant 0 <= k <= |targets|
        invariant Valid()
        invariant order == old(order)
        invariant status == Probed(old(status), targets[..k], attempted[..k])
      {
        CheckTarget(targets[k], outcomes[k]);
        assert targets[..k + 1][..k] == targets[..k];
        assert attempted[..k + 1][..k] == attempted[..k];
        k := k + 1;
      }
      assert targets[..k] == targets && attempted[..k] == attempted;
      ProbedSpec(old(status), targets, attempted);
      if !clientOpen {
        ProbedAllRaised(old(status), targets, attempted);
      }
    }

    /** `get_healthy_targets`. */
    function GetHealthyTargets(): (r: seq<string>)
      reads this
      ensures forall t :: t in r <==> t in targets && Healthy(status, t)
    {
      HealthyMembers(targets, status);
      HealthyIn(targets, status)
    }

    /** `get_response_times`: the up entries, in the table's key order. */
    function GetResponseTimes(): (r: seq<Timed>)
      reads this
      requires Valid()
      ensures forall i :: 0 <= i < |r| ==> r[i].0 in status && status[r[i].0] == Up(r[i].1)
      ensures forall t :: t in status && status[t].Up? ==> exists i :: 0 <= i < |r| && r[i] == (t, status[t].latency)
      ensures forall i, j :: 0 <= i < j < |r| ==> r[i].0 != r[j].0
      ensures FollowsOrder(r, order)
    {
      TimesOfEntries(order, status);
      TimesOfDistinct(order, status);
      TimesOfInOrder(order, status);
      TimesOf(order, status)
    }

    /** `get_fastest`. */
    function GetFastest(): (r: Option<string>)
      reads this
      requires Valid()
      ensures r.None? <==> forall t :: t in status ==> status[t] == Down
      ensures r.Some? ==> r.value in status && status[r.value].Up?
      ensures r.Some? ==> forall t :: t in status && status[t].Up? ==> status[r.value].latency <= status[t].latency
    {
      FastestSpec(order, status);
      FastestOf(order, status)
    }

    /** `is_healthy`. */
    function IsHealthy(t: string): (r: bool)
      reads this
      ensures r <==> !(t in status && status[t] == Down)
    {
      Healthy(status, t)
    }

    /** `start`: a task is created only if none exists. */
    method Start()
      requires Valid()
      modifies this`task, this`tasksCreated
      ensures Valid()
      ensures old(task).Some? ==> task == old(task) && tasksCreated == old(tasksCreated)
      ensures old(task).None? ==> task == Some(old(tasksCreated)) && tasksCreated == old(tasksCreated) + 1
    {
      if task.None? {
        task := Some(tasksCreated);
        tasksCreated := tasksCreated + 1;
      }
    }

    /** `stop`: the task, if any, is cancelled and cleared; the client stays. */
    method Stop()
      requires Valid()
      modifies this`task
      ensures Valid()
      ensures task.None?
    {
      if task.Some? {
        task := None;
      }
    }

    /** `destroy`: stop, then close the client if it is owned and still
        open. A second destroy changes nothing. */
    method Destroy()
      requires Valid()
      modifies this`task, this`clientOpen
      ensures Valid() && Released()
      ensures clientOpen == (old(clientOpen) && !ownsClient)
      ensures old(Released()) ==> task == old(task) && clientOpen == old(clientOpen)
    {
      Stop();
      if ownsClient && clientOpen {
        clientOpen := false;
      }
    }
  }
}
