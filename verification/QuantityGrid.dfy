// The noise-guarded floor onto an instrument's quantity grid: snapping the ratio to nine
// decimals and then cutting off the fraction is one floor of the ratio shifted by half of
// the ninth decimal.

module QuantityGrid {

  const NOISE := 0.0000000005

  /** Nearest billionth, ties away from zero. */
  function Snap9(x: real): real {
    if x >= 0.0 then (x * 1000000000.0 + 0.5).Floor as real / 1000000000.0
    else -((-x * 1000000000.0 + 0.5).Floor as real / 1000000000.0)
  }

  /** The integral part, toward zero. */
  function Truncate(x: real): int {
    if x >= 0.0 then x.Floor else -(-x).Floor
  }

  /** The nearest integer, ties away from zero. */
  function HalfUp(x: real): int {
    if x >= 0.0 then (x + 0.5).Floor else -(-x + 0.5).Floor
  }

  function FloorToStep(value: real, step: real): real {
    if step <= 0.0 then value
    else Truncate(Snap9(value / step)) as real * step
  }

  function BaseToContracts(qty: real, price: real, step: real): real {
    FloorToStep(qty * price, step)
  }

  function BaseToContractsReduce(qty: real, price: real, step: real): real {
    if step <= 0.0 then qty * price else HalfUp(qty * price / step) as real * step
  }

  // ---- Floors -------------------------------------------------------------------------------

  lemma FloorIs(x: real, k: int)
    requires k as real <= x < k as real + 1.0
    ensures x.Floor == k
  {
  }

  /** Flooring to billionths first changes no floor. */
  lemma FloorOfSnapped(y: real)
    requires y >= 0.0
    ensures (y.Floor as real / 1000000000.0).Floor == (y / 1000000000.0).Floor
  {
    var n := 1_000_000_000;
    var q := y.Floor / n;
    assert q * n <= y.Floor < q * n + n;
    assert q as real <= y.Floor as real / 1000000000.0 < q as real + 1.0;
    assert q as real <= y / 1000000000.0 < q as real + 1.0;
    FloorIs(y.Floor as real / 1000000000.0, q);
    FloorIs(y / 1000000000.0, q);
  }

  /** The two roundings are one floor, half a billionth of a step generous. */
  lemma OneFloor(value: real, step: real)
    requires step > 0.0 && value >= 0.0
    ensures value / step >= 0.0
    ensures FloorToStep(value, step) == (value / step + NOISE).Floor as real * step
  {
    var x := value / step;
    NonNegative(value, step);
    var y := x * 1000000000.0 + 0.5;
    FloorOfSnapped(y);
    assert y / 1000000000.0 == x + NOISE;
    assert Snap9(x) == y.Floor as real / 1000000000.0;
    assert y.Floor >= 0;
    assert Snap9(x) >= 0.0;
  }

  lemma NonNegative(value: real, step: real)
    requires step > 0.0 && value >= 0.0
    ensures value / step >= 0.0
  {
  }

  /** Rounding a negative quantity mirrors rounding its magnitude. */
  lemma FloorIsOdd(value: real, step: real)
    requires step > 0.0
    ensures FloorToStep(-value, step) == -FloorToStep(value, step)
  {
    assert (-value) / step == -(value / step);
    var x := value / step;
    SnapOdd(x);
    TruncateOdd(Snap9(x));
    Negate(Truncate(Snap9(x)), step);
  }

  lemma SnapOdd(x: real)
    ensures Snap9(-x) == -Snap9(x)
  {
  }

  lemma TruncateOdd(x: real)
    ensures Truncate(-x) == -Truncate(x)
  {
  }

  lemma Negate(k: int, step: real)
    ensures (-k) as real * step == -(k as real * step)
  {
  }

  lemma Scale(x: real, y: real, step: real)
    requires step > 0.0
    ensures x <= y <==> x * step <= y * step
    ensures x < y <==> x * step < y * step
  {
  }

  lemma Distribute(x: real, y: real, step: real)
    ensures (x + y) * step == x * step + y * step && (x - y) * step == x * step - y * step
  {
  }

  lemma FloorNear(x: real)
    ensures var k := (x + NOISE).Floor as real; x - 1.0 < k <= x + NOISE
  {
  }

  /** The floor lies within a step below the value and half a billionth of a step above. */
  lemma FloorBounds(value: real, step: real)
    requires step > 0.0 && value >= 0.0
    ensures value - step < FloorToStep(value, step) <= value + NOISE * step
  {
    hide FloorToStep;
    OneFloor(value, step);
    var x := value / step;
    var k := (x + NOISE).Floor as real;
    assert x * step == value;
    FloorNear(x);
    Scale(k, x + NOISE, step);
    Scale(x - 1.0, k, step);
    Distribute(x, NOISE, step);
    Distribute(x, 1.0, step);
  }

  lemma FloorsUp(x: real, y: real)
    requires x <= y
    ensures (x + NOISE).Floor <= (y + NOISE).Floor
  {
  }

  lemma FloorMonotoneUp(v: real, w: real, step: real)
    requires step > 0.0 && 0.0 <= v <= w
    ensures FloorToStep(v, step) <= FloorToStep(w, step)
  {
    hide FloorToStep;
    OneFloor(v, step);
    OneFloor(w, step);
    Quotients(v, w, step);
    FloorsUp(v / step, w / step);
    Scale((v / step + NOISE).Floor as real, (w / step + NOISE).Floor as real, step);
  }

  lemma Quotients(v: real, w: real, step: real)
    requires step > 0.0 && v <= w
    ensures v / step <= w / step
  {
    assert v / step * step == v && w / step * step == w;
    Scale(v / step, w / step, step);
  }

  lemma FloorSign(v: real, step: real)
    requires step > 0.0 && v >= 0.0
    ensures FloorToStep(v, step) >= 0.0
  {
    OneFloor(v, step);
    Scale(0.0, (v / step + NOISE).Floor as real, step);
  }

  /** A larger quantity never floors to a smaller one. */
  lemma FloorMonotone(v: real, w: real, step: real)
    requires step > 0.0 && v <= w
    ensures FloorToStep(v, step) <= FloorToStep(w, step)
  {
    if 0.0 <= v {
      FloorMonotoneUp(v, w, step);
    } else if w <= 0.0 {
      FloorIsOdd(-v, step);
      FloorIsOdd(-w, step);
      FloorMonotoneUp(-w, -v, step);
    } else {
      FloorIsOdd(-v, step);
      FloorSign(-v, step);
      FloorSign(w, step);
    }
  }

  /** A ratio floors onto `k` exactly within its tolerance. */
  lemma RatioFloors(k: int, d: real, low: real)
    ensures (k as real + d + low).Floor == k <==> -low <= d < 1.0 - low
  {
  }

  /** The ratio of a grid multiple off by `noise`, and two bounds on the noise. */
  lemma RatioOf(k: int, noise: real, step: real, low: real, high: real)
    requires step > 0.0
    ensures (k as real * step + noise) / step == k as real + noise / step
    ensures low * step <= noise <==> low <= noise / step
    ensures noise < high * step <==> noise / step < high
  {
    var d := noise / step;
    var x := (k as real * step + noise) / step;
    assert d * step == noise && x * step == k as real * step + noise;
    Distribute(k as real, d, step);
    Same(x, k as real + d, step);
    Scale(low, d, step);
    Scale(d, high, step);
  }

  /** A quantity off a grid multiple floors onto that multiple exactly while it is less than
      a step above it, and at most half a billionth of a step below. */
  lemma FloorsOnto(k: nat, noise: real, step: real)
    requires step > 0.0 && k as real * step + noise >= 0.0
    ensures FloorToStep(k as real * step + noise, step) == k as real * step
            <==> -NOISE * step <= noise < (1.0 - NOISE) * step
  {
    hide FloorToStep;
    OneFloor(k as real * step + noise, step);
    RatioOf(k, noise, step, -NOISE, 1.0 - NOISE);
    RatioFloors(k, noise / step, NOISE);
    Same((k as real + noise / step + NOISE).Floor as real, k as real, step);
  }

  lemma Same(x: real, y: real, step: real)
    requires step > 0.0
    ensures x * step == y * step <==> x == y
  {
    Scale(x, y, step);
    Scale(y, x, step);
  }

  lemma FloorFixesUp(k: nat, step: real)
    requires step > 0.0
    ensures FloorToStep(k as real * step, step) == k as real * step
  {
    hide FloorToStep;
    Scale(0.0, k as real, step);
    Scale(0.0, 1.0 - NOISE, step);
    Scale(-NOISE, 0.0, step);
    FloorsOnto(k, 0.0, step);
  }

  /** Grid multiples stay, on both sides of zero. */
  lemma FloorFixesGrid(k: int, step: real)
    requires step > 0.0
    ensures FloorToStep(k as real * step, step) == k as real * step
  {
    hide FloorToStep;
    if k >= 0 {
      FloorFixesUp(k, step);
    } else {
      var n: nat := -k;
      var v, w := n as real * step, k as real * step;
      assert n as real == -(k as real);
      assert v == -w by { Distribute(n as real, k as real, step); }
      FloorFixesUp(n, step);
      assert FloorToStep(v, step) == v;
      FloorIsOdd(v, step);
      assert FloorToStep(-v, step) == w;
    }
  }

  /** Base worth `k` steps of contracts, off by `noise`. */
  lemma BaseWorth(k: nat, noise: real, price: real, step: real)
    requires price > 0.0
    ensures (k as real * step / price + noise) * price == k as real * step + noise * price
  {
    var c := k as real * step;
    assert c / price * price == c;
    Distribute(c / price, noise, price);
  }

  /** Base worth `k` steps of contracts, off by `noise`, converts back to those contracts
      exactly while the noise is worth less than half a billionth of a step downward. */
  lemma ContractsRoundTrip(k: nat, noise: real, price: real, step: real)
    requires step > 0.0 && price > 0.0 && k as real * step + noise * price >= 0.0
    ensures BaseToContracts(k as real * step / price + noise, price, step) == k as real * step
            <==> -NOISE * step <= noise * price < (1.0 - NOISE) * step
  {
    hide FloorToStep;
    BaseWorth(k, noise, price, step);
    FloorsOnto(k, noise * price, step);
  }

  lemma HalfUpOnto(k: nat, worth: real, step: real)
    requires step > 0.0 && k as real * step + worth >= 0.0
    ensures HalfUp((k as real * step + worth) / step) == k <==> -0.5 * step <= worth < 0.5 * step
  {
    NonNegative(k as real * step + worth, step);
    RatioOf(k, worth, step, -0.5, 0.5);
    RatioFloors(k, worth / step, 0.5);
  }

  /** The reduce form takes back any noise worth less than half a step. */
  lemma ReduceRoundTrip(k: nat, noise: real, price: real, step: real)
    requires step > 0.0 && price > 0.0 && k as real * step + noise * price >= 0.0
    ensures BaseToContractsReduce(k as real * step / price + noise, price, step) == k as real * step
            <==> -0.5 * step <= noise * price < 0.5 * step
  {
    hide HalfUp;
    BaseWorth(k, noise, price, step);
    HalfUpOnto(k, noise * price, step);
    Same(HalfUp((k as real * step + noise * price) / step) as real, k as real, step);
  }

  // ---- Which count it is -------------------------------------------------------------------------

  /** `n` steps are the most that fit into a value half a billionth of a step generous. */
  predicate MostWithin(n: nat, value: real, step: real) {
    n as real * step <= value + NOISE * step < n as real * step + step
  }

  /** `n` steps are nearest to a value, the more of two equally near. */
  predicate NearestTo(n: nat, value: real, step: real) {
    n as real * step - step / 2.0 <= value < n as real * step + step / 2.0
  }

  lemma RatioBounds(n: nat, value: real, step: real, low: real)
    requires step > 0.0
    ensures (value / step + low).Floor == n <==> n as real * step <= value + low * step < n as real * step + step
  {
    var y, mid := value / step + low, value + low * step;
    assert y * step == mid by {
      assert value / step * step == value;
      Distribute(value / step, low, step);
    }
    CountBounds(n, y, mid, step);
  }

  lemma CountBounds(n: nat, y: real, mid: real, step: real)
    requires step > 0.0 && y * step == mid
    ensures y.Floor == n <==> n as real * step <= mid < n as real * step + step
  {
    var low, high := n as real * step, (n as real + 1.0) * step;
    assert high == low + step by { Distribute(n as real, 1.0, step); }
    assert n as real <= y <==> low <= mid by { Scale(n as real, y, step); }
    assert y < n as real + 1.0 <==> mid < high by { Scale(y, n as real + 1.0, step); }
    FloorWhen(y, n);
  }

  lemma FloorWhen(x: real, n: int)
    ensures x.Floor == n <==> n as real <= x < n as real + 1.0
  {
  }

  /** Cutting down leaves the most that fits. */
  lemma FloorIsMost(n: nat, value: real, step: real)
    requires step > 0.0 && value >= 0.0
    ensures FloorToStep(value, step) == n as real * step <==> MostWithin(n, value, step)
  {
    hide FloorToStep;
    OneFloor(value, step);
    RatioBounds(n, value, step, NOISE);
    Same((value / step + NOISE).Floor as real, n as real, step);
  }

  /** A reduce rounds to the nearest. */
  lemma ReduceIsNearest(n: nat, qty: real, price: real, step: real)
    requires step > 0.0 && qty * price >= 0.0
    ensures BaseToContractsReduce(qty, price, step) == n as real * step <==> NearestTo(n, qty * price, step)
  {
    hide HalfUp;
    var value := qty * price;
    NonNegative(value, step);
    HalfUpUp(value / step);
    RatioBounds(n, value, step, 0.5);
    assert 0.5 * step == step / 2.0;
    Same(HalfUp(value / step) as real, n as real, step);
  }

  lemma HalfUpUp(x: real)
    requires x >= 0.0
    ensures HalfUp(x) == (x + 0.5).Floor
  {
  }

  /** Rounding the reduce of a negative worth mirrors that of its magnitude. */
  lemma ReduceIsOdd(qty: real, price: real, step: real)
    requires step > 0.0
    ensures BaseToContractsReduce(-qty, price, step) == -BaseToContractsReduce(qty, price, step)
  {
    var x := qty * price / step;
    assert -qty * price / step == -x;
    assert HalfUp(-x) == -HalfUp(x);
    Negate(HalfUp(x), step);
  }

  /** Both are some count. */
  lemma CountOf(value: real, step: real, low: real) returns (n: nat)
    requires step > 0.0 && value >= 0.0 && low >= 0.0
    ensures n as real * step <= value + low * step < n as real * step + step
  {
    NonNegative(value, step);
    var k := (value / step + low).Floor;
    assert k >= 0;
    n := k;
    RatioBounds(n, value, step, low);
  }
}
