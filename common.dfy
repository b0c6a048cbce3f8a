/** Vocabulary shared by the reverse-proxy model: optional values and
    results, Python truthiness of an optional host, the first-minimum
    choice that Python's `min(d, key=lambda t: d[t])` makes over an
    insertion-ordered dict, and round-robin rotation over a list. */
module Common {

  datatype Option<+T> = None | Some(value: T)

  datatype Result<+R, +E> = Success(value: R) | Failure(error: E)

  /** The outcome of a call that returns nothing but may raise. */
  datatype Outcome<+E> = Pass | Fail(error: E)

  /** A `(host, latency)` entry of a latency dict, latency in milliseconds. */
  type Timed = (string, nat)

  /** Python truthiness of a `str | None`: both None and "" are falsy. */
  predicate Truthy(s: Option<string>) {
    s.Some? && s.value != ""
  }

  predicate Distinct<T(==)>(s: seq<T>) {
    forall i, j :: 0 <= i < j < |s| ==> s[i] != s[j]
  }

  /** `k` is the position `min` settles on: its latency is minimal and every
      earlier entry is strictly slower (the first minimum wins a tie). */
  ghost predicate IsFirstMin(pairs: seq<Timed>, k: int) {
    && 0 <= k < |pairs|
    && (forall j :: 0 <= j < |pairs| ==> pairs[k].1 <= pairs[j].1)
    && (forall j :: 0 <= j < k ==> pairs[k].1 < pairs[j].1)
  }

  /** Position chosen by a left-to-right scan that replaces the current
      minimum only by a strictly smaller latency, as `min` does. */
  function ArgMin(pairs: seq<Timed>): (k: nat)
    requires |pairs| > 0
    ensures IsFirstMin(pairs, k)
  {
    if |pairs| == 1 then 0
    else
      var k := ArgMin(pairs[..|pairs| - 1]);
      if pairs[|pairs| - 1].1 < pairs[k].1 then |pairs| - 1 else k
  }

  /** `min(d, key=...)` guarded by `if d else None`. */
  function FirstMin(pairs: seq<Timed>): (r: Option<string>)
    ensures r.None? <==> |pairs| == 0
    ensures r.Some? ==> exists k :: IsFirstMin(pairs, k) && pairs[k].0 == r.value
  {
    if |pairs| == 0 then None else Some(pairs[ArgMin(pairs)].0)
  }

  /** The hosts a round-robin cursor starting at `start` hands out in `n`
      consecutive picks, the cursor advancing to `(i + 1) % |list|`. */
  function Rotation(list: seq<string>, start: nat, n: nat): (r: seq<string>)
    requires start < |list|
    ensures |r| == n
    decreases n
  {
    if n == 0 then [] else [list[start]] + Rotation(list, (start + 1) % |list|, n - 1)
  }

  /** One pick: the host under the cursor, then the cursor moves one step
      forward or wraps to the head after the last position. */
  lemma {:induction false} RotationStep(list: seq<string>, start: nat, n: nat)
    requires start < |list| && n > 0
    ensures Rotation(list, start, n) ==
      [list[start]] + Rotation(list, if start + 1 < |list| then start + 1 else 0, n - 1)
  {
    assert (start + 1) % |list| == if start + 1 < |list| then start + 1 else 0;
  }

  /** From position `start`, the picks up to the end of the list are the
      rest of the list, in order. */
  lemma {:induction false} RotationSuffix(list: seq<string>, start: nat)
    requires start < |list|
    ensures Rotation(list, start, |list| - start) == list[start..]
    decreases |list| - start
  {
    RotationStep(list, start, |list| - start);
    if start + 1 < |list| {
      RotationSuffix(list, start + 1);
      assert list[start..] == [list[start]] + list[start + 1..];
    }
  }

  /** One more pick past the end of the list wraps around to its head. */
  lemma {:induction false} RotationWraps(list: seq<string>, start: nat)
    requires start < |list|
    ensures Rotation(list, start, |list| - start + 1) == list[start..] + [list[0]]
    decreases |list| - start
  {
    RotationStep(list, start, |list| - start + 1);
    if start + 1 < |list| {
      RotationWraps(list, start + 1);
      assert list[start..] == [list[start]] + list[start + 1..];
    } else {
      RotationStep(list, 0, 1);
    }
  }

  /** Starting from the first position, `|list|` consecutive picks visit
      every position exactly once and in order, and pick `|list| + 1` is
      the first host again. */
  lemma {:induction false} RoundRobinCycle(list: seq<string>)
    requires |list| > 0
    ensures Rotation(list, 0, |list|) == list
    ensures Rotation(list, 0, |list| + 1) == list + [list[0]]
  {
    RotationSuffix(list, 0);
    RotationWraps(list, 0);
    var a := Rotation(list, 0, |list| - 0);
    var b := Rotation(list, 0, |list| - 0 + 1);
    assert a == list[0..];
    assert b == list[0..] + [list[0]];
    assert list[0..] == list;
  }
}
