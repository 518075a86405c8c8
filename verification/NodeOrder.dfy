/** What preference and effective weight mean, in whole numbers and without divisions (internal/node/load_balancer.go). */
module NodeOrder {
  import opened Common
  import opened NodeSelection

  /** The alert threshold in percent; one outside 1 to 100 counts as 100. */
  function Threshold(n: Node): (t: real)
    ensures 1.0 <= t <= 100.0
  {
    if 1.0 <= n.alertThreshold <= 100.0 then n.alertThreshold else 100.0
  }

  /** The share of the traffic limit that is used, measured by the threshold, is lower; without a limit it counts as minus
      one, which is below every share of traffic that is not negative. */
  predicate LessTraffic(a: Node, b: Node) {
    if a.trafficLimit <= 0 && b.trafficLimit <= 0 then false
    else if a.trafficLimit <= 0 then -(b.trafficLimit as real * Threshold(b)) < b.trafficTotal as real * 100.0
    else if b.trafficLimit <= 0 then a.trafficTotal as real * 100.0 < -(a.trafficLimit as real * Threshold(a))
    else
      (a.trafficTotal as real * 100.0) * (b.trafficLimit as real * Threshold(b)) <
      (b.trafficTotal as real * 100.0) * (a.trafficLimit as real * Threshold(a))
  }

  /** The share of the capacity that is used is lower; without a capacity it counts as zero. */
  predicate LessCrowded(a: Node, b: Node) {
    if a.maxUsers <= 0 && b.maxUsers <= 0 then false
    else if a.maxUsers <= 0 then 0 < b.currentUsers
    else if b.maxUsers <= 0 then a.currentUsers < 0
    else a.currentUsers * b.maxUsers < b.currentUsers * a.maxUsers
  }

  /** Less traffic, then less crowded, then fewer users, then more weight, then the lower ID. */
  predicate Before(a: Node, b: Node) {
    LessTraffic(a, b) ||
    (!LessTraffic(b, a) &&
     (LessCrowded(a, b) ||
      (!LessCrowded(b, a) &&
       (a.currentUsers < b.currentUsers ||
        (a.currentUsers == b.currentUsers && (a.weight > b.weight || (a.weight == b.weight && a.id < b.id)))))))
  }

  lemma CrossMultiply(a: real, b: real, c: real, d: real)
    requires b > 0.0 && d > 0.0
    ensures a / b < c / d <==> a * d < c * b
  {
    var x, y := a / b, c / d;
    assert a == x * b && c == y * d;
    assert a * d == x * (b * d) && c * b == y * (b * d);
    Scale(x, y, b * d);
  }

  lemma Scale(x: real, y: real, k: real)
    requires k > 0.0
    ensures x < y <==> x * k < y * k
  {
    if x < y { assert (y - x) * k > 0.0; }
    if x > y { assert (x - y) * k > 0.0; }
  }

  lemma DivideTwice(a: real, b: real, c: real)
    requires b > 0.0 && c > 0.0
    ensures (a / b) / c == a / (b * c)
  {
    var x := (a / b) / c;
    assert a / b == x * c;
    assert a == (a / b) * b;
    assert a == x * (b * c);
  }

  lemma CompareToOne(a: real, b: real)
    requires b > 0.0
    ensures -1.0 < a / b <==> -b < a
    ensures a / b < -1.0 <==> a < -b
  {
    var x := a / b;
    assert a == x * b;
    Scale(-1.0, x, b);
    Scale(x, -1.0, b);
  }

  lemma TrafficPressureIs(n: Node)
    requires n.trafficLimit > 0
    ensures n.trafficLimit as real * Threshold(n) > 0.0
    ensures TrafficPressure(n) == (n.trafficTotal as real * 100.0) / (n.trafficLimit as real * Threshold(n))
  {
    Scale(0.0, n.trafficLimit as real, Threshold(n));
    DivideTwice(n.trafficTotal as real * 100.0, n.trafficLimit as real, Threshold(n));
  }

  lemma TrafficCompares(a: Node, b: Node)
    ensures TrafficPressure(a) < TrafficPressure(b) <==> LessTraffic(a, b)
  {
    if a.trafficLimit > 0 { TrafficPressureIs(a); }
    if b.trafficLimit > 0 { TrafficPressureIs(b); }
    if a.trafficLimit > 0 && b.trafficLimit > 0 {
      TrafficBoth(a, b);
    } else if a.trafficLimit > 0 {
      CompareToOne(a.trafficTotal as real * 100.0, a.trafficLimit as real * Threshold(a));
    } else if b.trafficLimit > 0 {
      CompareToOne(b.trafficTotal as real * 100.0, b.trafficLimit as real * Threshold(b));
    }
  }

  lemma TrafficBoth(a: Node, b: Node)
    requires a.trafficLimit > 0 && b.trafficLimit > 0
    ensures TrafficPressure(a) < TrafficPressure(b) <==> LessTraffic(a, b)
  {
    TrafficPressureIs(a);
    TrafficPressureIs(b);
    hide TrafficPressure, Threshold;
    CrossMultiply(a.trafficTotal as real * 100.0, a.trafficLimit as real * Threshold(a),
                  b.trafficTotal as real * 100.0, b.trafficLimit as real * Threshold(b));
  }

  lemma CapacityCompares(a: Node, b: Node)
    ensures CapacityPressure(a) < CapacityPressure(b) <==> LessCrowded(a, b)
  {
    if a.maxUsers > 0 && b.maxUsers > 0 {
      CrossMultiply(a.currentUsers as real, a.maxUsers as real, b.currentUsers as real, b.maxUsers as real);
      assert (a.currentUsers * b.maxUsers) as real == a.currentUsers as real * b.maxUsers as real;
      assert (b.currentUsers * a.maxUsers) as real == b.currentUsers as real * a.maxUsers as real;
    } else if a.maxUsers > 0 {
      CrossMultiply(a.currentUsers as real, a.maxUsers as real, 0.0, 1.0);
    } else if b.maxUsers > 0 {
      CrossMultiply(0.0, 1.0, b.currentUsers as real, b.maxUsers as real);
    }
  }

  /** Preference is this order. */
  lemma PreferIsBefore(a: Node, b: Node)
    ensures Prefer(a, b) <==> Before(a, b)
  {
    TrafficCompares(a, b);
    TrafficCompares(b, a);
    CapacityCompares(a, b);
    CapacityCompares(b, a);
    hide TrafficPressure, CapacityPressure, LessTraffic, LessCrowded;
  }

  /** A node without a traffic limit comes before every node with one. */
  lemma UnlimitedFirst(a: Node, b: Node)
    requires a.trafficLimit <= 0 < b.trafficLimit && b.trafficTotal >= 0
    ensures Prefer(a, b) && !Prefer(b, a)
  {
    PreferIsBefore(a, b);
    PreferIsBefore(b, a);
    Scale(0.0, b.trafficLimit as real, Threshold(b));
  }

  lemma ScaleWeakly(x: int, y: int, k: int)
    requires x <= y && k >= 0
    ensures x * k <= y * k
  {
  }

  lemma ScaleWeaklyReal(x: real, y: real, k: real)
    requires x <= y && k >= 0.0
    ensures x * k <= y * k
  {
  }

  /** More users or more traffic never make a node preferred. */
  lemma LoadNeverHelps(a: Node, users: int, traffic: int, b: Node)
    requires a.currentUsers <= users && a.trafficTotal <= traffic
    requires Prefer(a.(currentUsers := users, trafficTotal := traffic), b)
    ensures Prefer(a, b)
  {
    var more := a.(currentUsers := users, trafficTotal := traffic);
    PressuresGrow(a, more);
    hide TrafficPressure, CapacityPressure;
  }

  lemma PressuresGrow(a: Node, more: Node)
    requires a.currentUsers <= more.currentUsers && a.trafficTotal <= more.trafficTotal
    requires more == a.(currentUsers := more.currentUsers, trafficTotal := more.trafficTotal)
    ensures TrafficPressure(a) <= TrafficPressure(more) && CapacityPressure(a) <= CapacityPressure(more)
  {
    TrafficCompares(more, a);
    CapacityCompares(more, a);
    if a.trafficLimit > 0 {
      var limit := a.trafficLimit as real * Threshold(a);
      TrafficPressureIs(a);
      ScaleWeaklyReal(a.trafficTotal as real * 100.0, more.trafficTotal as real * 100.0, limit);
    }
    if a.maxUsers > 0 {
      ScaleWeakly(a.currentUsers, more.currentUsers, a.maxUsers);
    }
  }

  // ---- Effective weight ----

  /** `w` is num / den rounded to the nearest whole number, halves upwards, but at least one. */
  ghost predicate RoundedQuotient(w: int, num: int, den: int) {
    w >= 1 && 2 * num < (2 * w + 1) * den && (w > 1 ==> (2 * w - 1) * den <= 2 * num)
  }

  /** The nominal weight, times the share of the traffic limit that is left but at least a fifth, rounded. */
  lemma EffectiveWeightIs(n: Node)
    ensures n.trafficLimit <= 0 ==> EffectiveWeight(n) == if n.weight <= 0 then 1 else n.weight
    ensures n.trafficLimit > 0 ==>
              var weight, left := (if n.weight <= 0 then 1 else n.weight), n.trafficLimit - n.trafficTotal;
              if 5 * left < n.trafficLimit then RoundedQuotient(EffectiveWeight(n), weight, 5)
              else RoundedQuotient(EffectiveWeight(n), weight * left, n.trafficLimit)
  {
    hide Round, RoundedQuotient;
    if n.trafficLimit > 0 {
      ShareIs(n);
      if 5 * (n.trafficLimit - n.trafficTotal) < n.trafficLimit {
        ScaledIs(NominalWeight(n), Share(n), NominalWeight(n), 5);
      } else {
        ProductOfShare(NominalWeight(n), n.trafficLimit - n.trafficTotal, n.trafficLimit);
        ScaledIs(NominalWeight(n), Share(n), NominalWeight(n) * (n.trafficLimit - n.trafficTotal), n.trafficLimit);
      }
      hide Share, ScaledWeight;
    }
  }

  lemma ShareIs(n: Node)
    requires n.trafficLimit > 0
    ensures var left, limit := n.trafficLimit - n.trafficTotal, n.trafficLimit;
            Share(n) == if 5 * left < limit then 0.2 else left as real / limit as real
  {
    var left, limit := n.trafficLimit - n.trafficTotal, n.trafficLimit;
    CrossMultiply(left as real, limit as real, 1.0, 5.0);
    CrossMultiply(1.0, 5.0, left as real, limit as real);
  }

  lemma ScaledIs(weight: int, share: real, num: int, den: int)
    requires den > 0 && (weight as real * share) * den as real == num as real
    ensures var r := ScaledWeight(weight, share); RoundedQuotient(if r < 1 then 1 else r, num, den)
  {
    hide Round, RoundedQuotient;
    RoundsQuotient(weight as real * share, num, den);
  }

  lemma ProductOfShare(weight: int, left: int, limit: int)
    requires limit > 0
    ensures (weight as real * (left as real / limit as real)) * limit as real == (weight * left) as real
  {
    var q := left as real / limit as real;
    assert q * limit as real == left as real;
    assert (weight * left) as real == weight as real * left as real;
    assert (weight as real * q) * limit as real == weight as real * (q * limit as real);
  }

  lemma RoundsQuotient(x: real, num: int, den: int)
    requires den > 0 && x * den as real == num as real
    ensures var r := Round(x); RoundedQuotient(if r < 1 then 1 else r, num, den)
  {
    var r := Round(x);
    NearestWhole(x);
    HalfIn(x, r, num, den);
    if r < 1 { ScaleWeakly(2 * r + 1, 3, den); }
  }

  lemma NearestWhole(x: real)
    ensures Round(x) as real - 0.5 <= x < Round(x) as real + 0.5
  {
  }

  lemma HalfIn(x: real, r: int, num: int, den: int)
    requires den > 0 && x * den as real == num as real && r as real - 0.5 <= x < r as real + 0.5
    ensures 2 * num < (2 * r + 1) * den && (2 * r - 1) * den <= 2 * num
  {
    FromReals(num, 2 * r + 1, den);
    FromReals(num, 2 * r - 1, den);
    Doubled(x, (2 * r + 1) as real, den as real, num as real);
    Doubled(x, (2 * r - 1) as real, den as real, num as real);
  }

  lemma FromReals(num: int, k: int, den: int)
    ensures 2.0 * num as real < k as real * den as real <==> 2 * num < k * den
  {
    OddMultiple(k, den);
    assert (2 * num) as real == 2.0 * num as real;
  }

  lemma OddMultiple(k: int, den: int)
    ensures (k * den) as real == k as real * den as real
  {
  }

  lemma Doubled(x: real, k: real, d: real, y: real)
    requires d > 0.0 && x * d == y
    ensures 2.0 * x < k <==> 2.0 * y < k * d
  {
    Scale(2.0 * x, k, d);
    assert (2.0 * x) * d == 2.0 * (x * d);
  }
}
