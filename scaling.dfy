/**
 * The scaling decision written inline in `autoScale` (autoscaler.js, lines
 * 98-129), lifted into a pure function over one status snapshot and the target
 * CPU usage. Arithmetic is exact: `cpu` and the target are reals, `Math.ceil` and
 * `Math.floor` are the integer ceiling and floor.
 */
module Scaling {
  import opened Wrappers
  import opened Client

  /** What one iteration decides to do with the replica count. */
  datatype Decision = ScaleUp(count: int) | ScaleDown(count: int) | NoChange

  /** `Math.floor`: the greatest integer not above `x`. */
  function Floor(x: real): (n: int)
    ensures n as real <= x < n as real + 1.0
  {
    x.Floor
  }

  /** `Math.ceil`: the least integer not below `x`. */
  function Ceil(x: real): (n: int)
    ensures x <= n as real < x + 1.0
  {
    -((-x).Floor)
  }

  /** `currentReplicas * (currentCpu / TARGET_CPU_USAGE)`: the replica count that would bring CPU to the target. */
  function Wanted(s: Status, target: real): real
    requires target > 0.0
  {
    s.replicas as real * (s.cpu / target)
  }

  /**
   * The decision of one iteration: scale up to the ceiling of the wanted count
   * when CPU is above the target; when it is below, scale down to the floor of
   * the wanted count unless that floor is below one; otherwise leave things be.
   */
  function Decide(s: Status, target: real): (d: Decision)
    requires target > 0.0
    ensures d.ScaleUp? <==> s.cpu > target
    ensures d.ScaleDown? ==> s.cpu < target && d.count >= 1
    ensures d.NoChange? <==> s.cpu == target || (s.cpu < target && s.replicas as real * s.cpu < target)
  {
    if s.cpu > target then
      ScaleUp(Ceil(Wanted(s, target)))
    else if s.cpu < target then
      var n := Floor(Wanted(s, target));
      WantedBelowOne(s, target);
      if n >= 1 then ScaleDown(n) else NoChange
    else
      NoChange
  }

  /** The replica count the decision sends to `updateReplicas`, if any. */
  function Command(d: Decision): (r: Option<int>)
    ensures r.None? <==> d.NoChange?
    ensures r.Some? ==> r.value == d.count
  {
    match d
    case ScaleUp(n) => Some(n)
    case ScaleDown(n) => Some(n)
    case NoChange => None
  }

  /** The wanted count is below one exactly when the whole load is below one replica at target. */
  lemma WantedBelowOne(s: Status, target: real)
    requires target > 0.0
    ensures Wanted(s, target) < 1.0 <==> s.replicas as real * s.cpu < target
  {
    ScaledByTarget(s, target);
  }

  /** Multiplying the wanted count back by the target gives the total load `replicas * cpu`. */
  lemma ScaledByTarget(s: Status, target: real)
    requires target > 0.0
    ensures Wanted(s, target) * target == s.replicas as real * s.cpu
  {
  }

  /**
   * Scaling up (CPU above target, autoscaler.js:105-114) asks for the least
   * replica count whose share of the total load `replicas * cpu` does not exceed
   * the target: `count * target` covers the load, `(count - 1) * target` does not.
   */
  lemma ScaleUpIsLeastSufficient(s: Status, target: real)
    requires target > 0.0 && s.cpu > target
    ensures Decide(s, target).ScaleUp?
    ensures var n := Decide(s, target).count as real;
      s.replicas as real * s.cpu <= n * target < s.replicas as real * s.cpu + target
  {
    var w := Wanted(s, target);
    var n := Decide(s, target).count as real;
    assert w <= n < w + 1.0;
    ScaledByTarget(s, target);
    Bracket(w, n, w + 1.0, target);
    assert n * target < w * target + target;
    assert w * target == s.replicas as real * s.cpu;
    assert n * target < s.replicas as real * s.cpu + target;
  }

  /**
   * Scaling up never lowers a non-negative replica count, and raises it by at
   * least one when there is at least one replica.
   */
  lemma ScaleUpGrows(s: Status, target: real)
    requires target > 0.0 && s.cpu > target && s.replicas >= 0
    ensures Decide(s, target).ScaleUp?
    ensures Decide(s, target).count >= s.replicas
    ensures s.replicas >= 1 ==> Decide(s, target).count > s.replicas
  {
    var r := s.replicas as real;
    var ratio := s.cpu / target;
    assert ratio > 1.0 by {
      assert ratio * target == s.cpu;
    }
    assert Decide(s, target).count as real >= r * ratio >= r;
    if s.replicas >= 1 {
      assert r * ratio > r;
    }
  }

  /**
   * With no replicas reported, a scale-up asks for zero replicas: the ceiling
   * of `0 * ratio` is 0, and the source sends it to `updateReplicas` unchecked.
   */
  lemma ScaleUpFromNoReplicas(s: Status, target: real)
    requires target > 0.0 && s.cpu > target && s.replicas == 0
    ensures Decide(s, target) == ScaleUp(0)
  {
  }

  /**
   * Scaling down (CPU below target, autoscaler.js:117-128) asks for the greatest
   * replica count whose share of the total load is still at least the target:
   * `count * target` is covered by the load, `(count + 1) * target` is not.
   */
  lemma ScaleDownIsGreatestCovered(s: Status, target: real)
    requires target > 0.0 && Decide(s, target).ScaleDown?
    ensures var n := Decide(s, target).count as real;
      n * target <= s.replicas as real * s.cpu < n * target + target
  {
    var w := Wanted(s, target);
    var n := Decide(s, target).count as real;
    assert n <= w < n + 1.0;
    ScaledByTarget(s, target);
    Bracket(n, w, n + 1.0, target);
    assert w * target == s.replicas as real * s.cpu;
    assert s.replicas as real * s.cpu < n * target + target;
  }

  /** Scaling down from a non-negative replica count always removes at least one replica and never reaches zero. */
  lemma ScaleDownShrinks(s: Status, target: real)
    requires target > 0.0 && s.replicas >= 0 && Decide(s, target).ScaleDown?
    ensures 1 <= Decide(s, target).count < s.replicas
  {
    var r := s.replicas as real;
    var ratio := s.cpu / target;
    var n := Decide(s, target).count;
    assert ratio < 1.0 by {
      assert ratio * target == s.cpu;
    }
    assert n as real <= r * ratio;
    assert r * ratio < r;
  }

  /** Scenario: CPU 60 on 5 replicas, target 50: ratio 1.2, scale up to 6. */
  lemma ScenarioScaleUp()
    ensures Decide(Status(60.0, 5), 50.0) == ScaleUp(6)
  {
  }

  /** Scenario: CPU 20 on 5 replicas, target 50: ratio 0.4, scale down to 2. */
  lemma ScenarioScaleDown()
    ensures Decide(Status(20.0, 5), 50.0) == ScaleDown(2)
  {
  }

  /** Scenario: CPU 5 on 2 replicas, target 50: the floor of 0.2 is 0, so nothing changes. */
  lemma ScenarioNoScaleToZero()
    ensures Decide(Status(5.0, 2), 50.0) == NoChange
  {
  }

  /** Scaling a bracket `lo <= x < lo + 1` by a positive factor keeps it. */
  lemma Bracket(lo: real, x: real, hi: real, k: real)
    requires k > 0.0 && lo <= x < hi && hi == lo + 1.0
    ensures lo * k <= x * k < lo * k + k
  {
  }
}
