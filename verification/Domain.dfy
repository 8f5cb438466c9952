/** The vocabulary shared by every component: directions, bars, quotes, the broker's
    symbol specification and its two normalisations.  Prices and money are exact reals,
    timestamps are integer seconds, and lots are counted in whole volume steps. */
module Domain {

  datatype Option<+T> = None | Some(value: T)

  datatype Direction = Long | Short {
    function Sign(): (s: real)
      ensures s * s == 1.0
    {
      if this == Long then 1.0 else -1.0
    }

    function Opposite(): Direction {
      if this == Long then Short else Long
    }
  }

  datatype Bar = Bar(ts: int, open: real, high: real, low: real, close: real, volume: int, spread: real)

  datatype Quote = Quote(ts: int, bid: real, ask: real) {
    // Buy at the ask, sell at the bid.
    function PriceFor(d: Direction): real {
      if d == Long then ask else bid
    }

    // Close a long at the bid, a short at the ask.
    function ExitPriceFor(d: Direction): real {
      if d == Long then bid else ask
    }
  }

  function Abs(x: real): (r: real)
    ensures r >= 0.0 && (r == x || r == -x)
  {
    if x < 0.0 then -x else x
  }

  function Min(x: real, y: real): real {
    if x <= y then x else y
  }

  function Max(x: real, y: real): real {
    if x >= y then x else y
  }

  // ---------------------------------------------------------------- the quote grid

  /** Nearest integer, ties to even: what Python's `round` does to an exact value. */
  function RoundEven(x: real): (k: int)
    ensures k as real - 0.5 <= x <= k as real + 0.5
    ensures x == k as real + 0.5 || x == k as real - 0.5 ==> k % 2 == 0
  {
    var f := x.Floor;
    var d := x - f as real;
    if d < 0.5 then f
    else if d > 0.5 then f + 1
    else if f % 2 == 0 then f else f + 1
  }

  lemma RoundEvenMonotone(x: real, y: real)
    requires x <= y
    ensures RoundEven(x) <= RoundEven(y)
  {
  }

  lemma RoundEvenFixesIntegers(k: int)
    ensures RoundEven(k as real) == k
  {
  }

  /** A price is on the grid when it is a whole number of quote units (10^-digits). */
  ghost predicate OnGrid(price: real, unit: real)
    requires unit > 0.0
  {
    (price / unit).Floor as real == price / unit
  }

  function NormalizePrice(price: real, unit: real): real
    requires unit > 0.0
  {
    RoundEven(price / unit) as real * unit
  }

  lemma DivMonotone(x: real, y: real, unit: real)
    requires unit > 0.0 && x <= y
    ensures x / unit <= y / unit
  {
    var a, b := x / unit, y / unit;
    assert a * unit == x && b * unit == y;
    assert (a - b) * unit <= 0.0;
  }

  lemma MulMonotone(x: real, y: real, k: real)
    requires k >= 0.0 && x <= y
    ensures x * k <= y * k
  {
    assert (y - x) * k >= 0.0;
  }

  lemma SelfRatio(x: real)
    requires x > 0.0
    ensures x / x == 1.0
  {
    var q := x / x;
    assert q * x == x;
    assert q > 1.0 ==> (q - 1.0) * x > 0.0;
    assert q < 1.0 ==> (1.0 - q) * x > 0.0;
  }

  lemma RatioBounds(part: real, whole: real)
    requires 0.0 <= part <= whole && whole > 0.0
    ensures 0.0 <= part / whole <= 1.0
  {
    var ratio := part / whole;
    assert ratio * whole == part;
    assert ratio > 1.0 ==> (ratio - 1.0) * whole > 0.0;
    assert ratio < 0.0 ==> ratio * whole < 0.0;
  }

  /** Normalising respects the order of prices. */
  lemma NormalizeMonotone(x: real, y: real, unit: real)
    requires unit > 0.0 && x <= y
    ensures NormalizePrice(x, unit) <= NormalizePrice(y, unit)
  {
    DivMonotone(x, y, unit);
    RoundEvenMonotone(x / unit, y / unit);
    MulMonotone(RoundEven(x / unit) as real, RoundEven(y / unit) as real, unit);
  }

  /** Normalising lands on the grid and fixes exactly the grid points. */
  lemma NormalizeFixesGrid(x: real, unit: real)
    requires unit > 0.0
    ensures OnGrid(NormalizePrice(x, unit), unit)
    ensures OnGrid(x, unit) <==> NormalizePrice(x, unit) == x
  {
    var k := RoundEven(x / unit);
    assert NormalizePrice(x, unit) / unit == k as real;
    if OnGrid(x, unit) {
      RoundEvenFixesIntegers((x / unit).Floor);
      assert k as real * unit == x;
    }
  }

  /** Normalising moves a price by at most half a quote unit. */
  lemma NormalizeError(x: real, unit: real)
    requires unit > 0.0
    ensures -0.5 * unit <= NormalizePrice(x, unit) - x <= 0.5 * unit
  {
    var q := x / unit;
    var k := RoundEven(q) as real;
    QuotientTimes(x, unit);
    AtMostAbove(x, q, k, unit);
    AtMostBelow(x, q, k, unit);
  }

  lemma AtMostAbove(x: real, q: real, k: real, unit: real)
    requires unit > 0.0 && q * unit == x && k <= q + 0.5
    ensures k * unit <= x + 0.5 * unit
  {
    MulMonotone(k, q + 0.5, unit);
    assert (q + 0.5) * unit == q * unit + 0.5 * unit;
  }

  lemma AtMostBelow(x: real, q: real, k: real, unit: real)
    requires unit > 0.0 && q * unit == x && q - 0.5 <= k
    ensures x - 0.5 * unit <= k * unit
  {
    MulMonotone(q - 0.5, k, unit);
    assert (q - 0.5) * unit == q * unit - 0.5 * unit;
  }

  lemma QuotientTimes(c: real, unit: real)
    requires unit > 0.0
    ensures c / unit * unit == c
  {
  }

  // ---------------------------------------------------------------- levels of a stop

  // A strictly better level: higher for a long, lower for a short.
  predicate Improves(d: Direction, stop: real, was: real) {
    if d == Long then stop > was else stop < was
  }

  // No more risk than `was`: no lower for a long, no higher for a short.
  predicate Tighter(d: Direction, stop: real, was: real) {
    if d == Long then stop >= was else stop <= was
  }

  // The bounds the configuration enforces on the thresholds that decide about stops.
  predicate ValidThresholds(breakEvenAtR: real, breakEvenOffsetR: real, trailActivateR: real) {
    breakEvenAtR > 0.0 && breakEvenOffsetR >= 0.0 && trailActivateR > 0.0
  }

  // ---------------------------------------------------------------- rounding back past a stop

  /** A stop strictly inside the half unit next to its looser grid point, and further from that
      point than `slack`: there a level that improves the stop can round back past it. */
  ghost predicate RoundsBack(d: Direction, stop: real, unit: real, slack: real)
    requires unit > 0.0
  {
    var q := stop / unit;
    var f := q.Floor as real;
    if d == Long then q - f < 0.5 && stop - f * unit > slack
    else q - f > 0.5 && (f + 1.0) * unit - stop > slack
  }

  lemma BackLevel(d: Direction, c: real, unit: real, slack: real) returns (level: real)
    requires unit > 0.0 && RoundsBack(d, c, unit, slack)
    ensures Improves(d, level, c)
    ensures if d == Long then NormalizePrice(level, unit) < c - slack else NormalizePrice(level, unit) > c + slack
  {
    hide NormalizePrice;
    var q := c / unit;
    QuotientTimes(c, unit);
    if d == Long {
      level := BackBelow(c, q, q.Floor, unit);
    } else {
      level := BackAbove(c, q, q.Floor, unit);
    }
  }

  // Halfway between the stop and the next midpoint, on either side of the grid point.
  lemma BackBelow(c: real, q: real, f: int, unit: real) returns (level: real)
    requires unit > 0.0 && q * unit == c && f as real <= q < f as real + 0.5
    ensures level > c && NormalizePrice(level, unit) == f as real * unit
  {
    var p := (q + f as real + 0.5) / 2.0;
    level := p * unit;
    MulLess(q, p, unit);
    RoundsTo(p, unit, f);
  }

  lemma BackAbove(c: real, q: real, f: int, unit: real) returns (level: real)
    requires unit > 0.0 && q * unit == c && f as real + 0.5 < q < f as real + 1.0
    ensures level < c && NormalizePrice(level, unit) == (f as real + 1.0) * unit
  {
    var p := (q + f as real + 0.5) / 2.0;
    level := p * unit;
    MulLess(p, q, unit);
    RoundsTo(p, unit, f + 1);
  }

  lemma RoundsTo(p: real, unit: real, k: int)
    requires unit > 0.0 && k as real - 0.5 < p < k as real + 0.5
    ensures NormalizePrice(p * unit, unit) == k as real * unit
  {
    ScaleBack(p, unit);
    assert RoundEven(p) == k;
  }

  lemma ScaleBack(p: real, unit: real)
    requires unit > 0.0
    ensures p * unit / unit == p
  {
  }

  lemma MulLess(x: real, y: real, unit: real)
    requires unit > 0.0 && x < y
    ensures x * unit < y * unit
  {
    assert (y - x) * unit > 0.0;
  }

  // Comparing a quotient is comparing a product.
  lemma AtMostTimes(x: real, limit: real, unit: real)
    requires unit > 0.0
    ensures x / unit <= limit <==> x <= limit * unit
    ensures limit <= x / unit <==> limit * unit <= x
  {
    var q := x / unit;
    QuotientTimes(x, unit);
    OrderTimes(q, limit, unit);
    OrderTimes(limit, q, unit);
    assert q * unit == x;
  }

  lemma OrderTimes(x: real, y: real, unit: real)
    requires unit > 0.0
    ensures x <= y <==> x * unit <= y * unit
  {
    if x <= y {
      MulMonotone(x, y, unit);
    } else {
      MulLess(y, x, unit);
    }
  }

  lemma FloorIs(q: real, k: int)
    requires k as real <= q < k as real + 1.0
    ensures q.Floor == k
  {
  }

  lemma DivLess(x: real, y: real, unit: real)
    requires unit > 0.0 && x < y
    ensures x / unit < y / unit
  {
    var a, b := x / unit, y / unit;
    QuotientTimes(x, unit);
    QuotientTimes(y, unit);
    assert a * unit == x && b * unit == y;
    if b <= a {
      MulMonotone(b, a, unit);
    }
  }

  // The only stops an improving level rounds back past.
  lemma RoundedBack(d: Direction, c: real, level: real, unit: real, slack: real)
    requires unit > 0.0 && slack >= 0.0
    requires Improves(d, level, c)
    requires if d == Long then NormalizePrice(level, unit) < c - slack else NormalizePrice(level, unit) > c + slack
    ensures RoundsBack(d, c, unit, slack)
  {
    hide NormalizePrice, RoundEven;
    var grid, k := NormalizePrice(level, unit), RoundEven(level / unit);
    GridIndex(level, unit);
    if d == Long {
      DivLess(grid, c, unit);
      DivLess(c, level, unit);
      FloorIs(c / unit, k);
    } else {
      DivLess(c, grid, unit);
      DivLess(level, c, unit);
      FloorIs(c / unit, k - 1);
    }
  }

  // Which grid point a price rounds to.
  lemma GridIndex(x: real, unit: real)
    requires unit > 0.0
    ensures NormalizePrice(x, unit) == RoundEven(x / unit) as real * unit
    ensures NormalizePrice(x, unit) / unit == RoundEven(x / unit) as real
  {
    ScaleBack(RoundEven(x / unit) as real, unit);
  }

  lemma GridNeverRoundsBack(d: Direction, stop: real, unit: real, slack: real)
    requires unit > 0.0 && slack >= 0.0
    ensures RoundsBack(d, stop, unit, slack) ==> !OnGrid(stop, unit)
  {
    WholeUnits(stop, unit);
  }

  lemma WholeUnits(stop: real, unit: real)
    requires unit > 0.0
    ensures OnGrid(stop, unit) ==> (stop / unit).Floor as real * unit == stop
  {
    QuotientTimes(stop, unit);
  }

  // ---------------------------------------------------------------- the symbol specification

  /** `stopsLevel` and `freezeLevel` are price distances (points times point size), volumes
      are whole volume steps, and `moneyPerStep` is the money moved by one volume step
      per 1.0 of price. */
  datatype SymbolSpec = SymbolSpec(
    unit: real, point: real, stopsLevel: real, freezeLevel: real,
    volumeMin: int, volumeMax: int, moneyPerStep: real, contractPerStep: real)

  // The bounds the specification's constructor enforces; a digit count makes unit positive.
  predicate ValidSpec(spec: SymbolSpec) {
    && spec.unit > 0.0 && spec.point > 0.0 && spec.moneyPerStep > 0.0
    && 0 < spec.volumeMin <= spec.volumeMax
  }

  /** A requested volume, measured in volume steps, becomes a whole number of steps: rounded
      to eight decimals first and floored afterwards. */
  function NormalizeVolume(steps: real): int {
    if steps <= 0.0 then 0 else NormalizePrice(steps, 0.00000001).Floor
  }

  /** The request is rounded up only when it lies within the eight-decimal rounding of the
      next step, and it is never cut by a whole step. */
  lemma NormalizeVolumeFloors(steps: real)
    requires steps > 0.0
    ensures NormalizeVolume(steps) as real <= steps + 0.000000005
    ensures steps < NormalizeVolume(steps) as real + 1.0 + 0.000000005
    ensures NormalizeVolume(steps) >= 0
  {
    NormalizeError(steps, 0.00000001);
    NormalizeMonotone(0.0, steps, 0.00000001);
    RoundEvenFixesIntegers(0);
    assert 0.0 / 0.00000001 == 0.0;
  }

  /** A request is raised, against the promise always to floor, exactly when it lies within half
      of the eighth decimal below a whole step; otherwise the result is its floor. */
  lemma NormalizeVolumeRaisesExactly(steps: real, up: int)
    requires steps > 0.0 && up as real - 1.0 < steps <= up as real
    ensures NormalizeVolume(steps) as real > steps <==> up as real - 0.000000005 <= steps < up as real
    ensures NormalizeVolume(steps) as real <= steps ==> NormalizeVolume(steps) == steps.Floor
  {
    hide NormalizeVolume;
    var v := NormalizeVolume(steps);
    VolumeIsUpOrBelow(steps, up);
    if v == up {
      assert steps >= up as real - 0.000000005;
    } else {
      FloorIs(steps, up - 1);
    }
  }

  lemma VolumeIsUpOrBelow(steps: real, up: int)
    requires steps > 0.0 && up as real - 1.0 < steps <= up as real
    ensures NormalizeVolume(steps) == if steps >= up as real - 0.000000005 then up else up - 1
  {
    hide NormalizeVolume;
    var q, whole := steps * 100000000.0, up * 100000000;
    InDecimals(steps);
    assert whole == 2 * (up * 50000000);
    DecimalsBetween(q, whole);
    WholeSteps(RoundEven(q), up);
    WholeSteps(RoundEven(q), up - 1);
    WholeSteps(RoundEven(q), up + 1);
  }

  lemma DecimalsBetween(q: real, whole: int)
    requires whole % 2 == 0 && whole as real - 100000000.0 < q <= whole as real
    ensures whole - 100000000 <= RoundEven(q) <= whole
    ensures RoundEven(q) == whole <==> q >= whole as real - 0.5
  {
    RoundsUpTo(q, whole);
    RoundsUpTo(q, whole - 100000000);
    RoundEvenMonotone(q, whole as real);
    RoundEvenFixesIntegers(whole);
  }

  // The eight-decimal rounding, as a count of hundred-millionths.
  lemma InDecimals(steps: real)
    requires steps > 0.0
    ensures NormalizeVolume(steps) == (RoundEven(steps * 100000000.0) as real / 100000000.0).Floor
  {
    assert steps / 0.00000001 == steps * 100000000.0;
  }

  lemma RoundsUpTo(q: real, whole: int)
    requires whole % 2 == 0
    ensures RoundEven(q) >= whole <==> q >= whole as real - 0.5
  {
  }

  lemma WholeSteps(k: int, up: int)
    ensures (k as real / 100000000.0).Floor >= up <==> k >= up * 100000000
  {
  }

  // A request just under one step is sent as a whole step.
  lemma RaisedVolumeWitness()
    ensures NormalizeVolume(0.999999996) == 1
  {
    NormalizeVolumeRaisesExactly(0.999999996, 1);
    NormalizeVolumeFloors(0.999999996);
  }
}
