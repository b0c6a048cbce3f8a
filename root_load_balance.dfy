/** The older load balancer of `load_balance.py`: round robin over a list
    of servers, or "fastest to respond" by asking a HealthChecker. */
module RootLoadBalance {
  import opened Common
  import opened HealthCheck

  /** The exceptions its methods raise. */
  datatype BalancerError = RuntimeError | IndexError | ZeroDivisionError

  /** The mode is fixed by the constructor used: a list of servers, or a
      HealthChecker. */
  class LoadBalancer {
    const healthMode: bool
    const servers: seq<string>
    const checker: HealthChecker?
    /** `__index`, the round-robin cursor. */
    var index: nat

    ghost predicate Valid()
      reads this, checker
    {
      && (healthMode <==> checker != null)
      && (checker != null ==> checker.Valid())
      && (index < |servers| || index == 0)
    }

    constructor FromList(servers: seq<string>)
      ensures Valid() && !healthMode && this.servers == servers && index == 0
    {
      healthMode, this.servers, checker, index := false, servers, null, 0;
    }

    constructor FromChecker(checker: HealthChecker)
      requires checker.Valid()
      ensures Valid() && healthMode && this.checker == checker && index == 0
    {
      healthMode, servers, this.checker, index := true, [], checker, 0;
    }

    /** `peek`: the checker's fastest target, or the server under the
        cursor; indexing an empty list raises IndexError. */
    function Peek(): (r: Result<Option<string>, BalancerError>)
      reads this, checker
      requires Valid()
      ensures healthMode ==> r == Success(checker.GetFastest())
      ensures !healthMode && |servers| == 0 ==> r == Failure(IndexError)
      ensures !healthMode && |servers| > 0 ==> r == Success(Some(servers[index]))
    {
      if healthMode then Success(checker.GetFastest())
      else if index < |servers| then Success(Some(servers[index]))
      else Failure(IndexError)
    }

    /** `get`: what `peek` returns; in list mode the cursor then moves to
        `(index + 1) % len(servers)`. On an empty list the `finally`
        clause's modulo by zero raises ZeroDivisionError, which replaces
        the IndexError, and the cursor stays. */
    method Get() returns (r: Result<Option<string>, BalancerError>)
      requires Valid()
      modifies this`index
      ensures Valid()
      ensures healthMode ==> r == old(Peek()) && index == old(index)
      ensures !healthMode && |servers| == 0 ==> r == Failure(ZeroDivisionError) && index == old(index)
      ensures !healthMode && |servers| > 0 ==> r == old(Peek()) && index == (old(index) + 1) % |servers|
      ensures !healthMode && |servers| > 0 ==> forall n: nat ::
        Rotation(servers, old(index), n + 1) == [servers[old(index)]] + Rotation(servers, index, n)
    {
      if healthMode {
        r := Success(checker.GetFastest());
      } else if |servers| == 0 {
        r := Failure(ZeroDivisionError);
      } else {
        r := Success(Some(servers[index]));
        index := (index + 1) % |servers|;
      }
    }

    /** `get_all`. */
    function GetAll(): (r: seq<string>)
      reads this, checker
      requires Valid()
      ensures r == if healthMode then checker.targets else servers
    {
      if healthMode then checker.targets else servers
    }

    /** `set_index`: refused in health mode, and for an index outside the
        list (so always on an empty list). */
    method SetIndex(i: int) returns (r: Outcome<BalancerError>)
      requires Valid()
      modifies this`index
      ensures Valid()
      ensures healthMode ==> r == Fail(RuntimeError) && index == old(index)
      ensures !healthMode && !(0 <= i < |servers|) ==> r == Fail(IndexError) && index == old(index)
      ensures !healthMode && 0 <= i < |servers| ==> r == Pass && index == i
    {
      if healthMode {
        return Fail(RuntimeError);
      }
      if i < 0 || i >= |servers| {
        return Fail(IndexError);
      }
      index := i;
      r := Pass;
    }
  }
}
