/** The linear-trend forecast over a KPI's measurements, in exact arithmetic
    (services/pixelrag/spm_poc/advanced.py). */
module Forecast {
  import opened Wrappers

  datatype Measurement = Measurement(kpiName: string, period: string, actual: string)

  datatype Point = Point(period: string, actual: real)

  datatype Line = Line(slope: real, intercept: real) {
    function At(x: real): real {
      intercept + slope * x
    }
  }

  datatype ForecastResult = ForecastResult(history: seq<Point>, value: Option<real>)

  // ---------------------------------------------------------------------------
  // Sums
  // ---------------------------------------------------------------------------

  function Sum(f: int -> real, n: nat): real {
    if n == 0 then 0.0 else Sum(f, n - 1) + f(n - 1)
  }

  function Xs(): int -> real {
    i => i as real
  }

  function Ys(points: seq<real>): int -> real {
    i => if 0 <= i < |points| then points[i] else 0.0
  }

  function Centred(f: int -> real, mean: real): int -> real {
    i => f(i) - mean
  }

  function Product(f: int -> real, g: int -> real): int -> real {
    i => f(i) * g(i)
  }

  lemma {:induction false} SumCentred(f: int -> real, mean: real, n: nat)
    ensures Sum(Centred(f, mean), n) == Sum(f, n) - n as real * mean
  {
    if n > 0 {
      SumCentred(f, mean, n - 1);
      assert n as real * mean == (n - 1) as real * mean + mean;
    }
  }

  lemma {:induction false} SumLinear(f: int -> real, g: int -> real, h: int -> real, factor: real, n: nat)
    requires forall i | 0 <= i < n :: f(i) == g(i) - factor * h(i)
    ensures Sum(f, n) == Sum(g, n) - factor * Sum(h, n)
  {
    if n > 0 {
      SumLinear(f, g, h, factor, n - 1);
      assert factor * (Sum(h, n - 1) + h(n - 1)) == factor * Sum(h, n - 1) + factor * h(n - 1);
    }
  }

  function Square(x: real): real {
    x * x
  }

  lemma PositiveProduct(a: real, b: real)
    requires a > 0.0 && b > 0.0
    ensures a * b > 0.0
  {
  }

  lemma DividesBack(x: real, y: real)
    requires x > 0.0 && y == x * x
    ensures y > 0.0
  {
    assert y / x == x;
  }

  lemma SquareOfNegation(x: real)
    ensures Square(-x) == Square(x)
  {
  }

  lemma SquareNonnegative(x: real)
    ensures Square(x) >= 0.0
  {
  }

  lemma SquarePositive(x: real)
    requires x != 0.0
    ensures Square(x) > 0.0
  {
    if x > 0.0 {
      DividesBack(x, Square(x));
    } else {
      SquareOfNegation(x);
      DividesBack(-x, Square(-x));
    }
  }

  lemma {:induction false} SumOfSquaresPositive(f: int -> real, n: nat, k: nat)
    requires k < n && f(k) != 0.0
    ensures Sum(Product(f, f), n) > 0.0
  {
    SumOfSquaresNonnegative(f, n - 1);
    assert Product(f, f)(n - 1) == Square(f(n - 1));
    SquareNonnegative(f(n - 1));
    if k < n - 1 {
      SumOfSquaresPositive(f, n - 1, k);
    } else {
      SquarePositive(f(k));
    }
  }

  lemma {:induction false} SumOfSquaresNonnegative(f: int -> real, n: nat)
    ensures Sum(Product(f, f), n) >= 0.0
  {
    if n > 0 {
      assert Product(f, f)(n - 1) == Square(f(n - 1));
      SquareNonnegative(f(n - 1));
      SumOfSquaresNonnegative(f, n - 1);
    }
  }

  function Plus(f: int -> real, factor: real, g: int -> real): int -> real {
    i => f(i) + factor * g(i)
  }

  function One(): int -> real {
    i => 1.0
  }

  lemma {:induction false} SumPlus(f: int -> real, factor: real, g: int -> real, n: nat)
    ensures Sum(Plus(f, factor, g), n) == Sum(f, n) + factor * Sum(g, n)
  {
    if n > 0 {
      SumPlus(f, factor, g, n - 1);
      assert factor * (Sum(g, n - 1) + g(n - 1)) == factor * Sum(g, n - 1) + factor * g(n - 1);
    }
  }

  lemma {:induction false} SumOnes(n: nat)
    ensures Sum(One(), n) == n as real
  {
    if n > 0 {
      SumOnes(n - 1);
    }
  }

  lemma {:induction false} SumsAgree(f: int -> real, g: int -> real, n: nat)
    requires forall i | 0 <= i < n :: f(i) == g(i)
    ensures Sum(f, n) == Sum(g, n)
  {
    if n > 0 {
      SumsAgree(f, g, n - 1);
    }
  }

  /** A residual `r`, shifted by a straight line through `c`, squared. */
  function ShiftedSquare(r: int -> real, c: int -> real, p: real, q: real): int -> real {
    Plus(Plus(Plus(Plus(Plus(Product(r, r), 2.0 * p, r), 2.0 * q, Product(c, r)), Square(p), One()), 2.0 * p * q, c),
         Square(q), Product(c, c))
  }

  lemma OneSquare(r: real, c: real, p: real, q: real)
    ensures (r + p + q * c) * (r + p + q * c) ==
            r * r + 2.0 * p * r + 2.0 * q * (c * r) + p * p + 2.0 * p * q * c + q * q * (c * c)
  {
  }

  lemma ShiftedSquareAt(r: int -> real, c: int -> real, p: real, q: real, i: int)
    ensures ShiftedSquare(r, c, p, q)(i) == Square(r(i) + p + q * c(i))
  {
    OneSquare(r(i), c(i), p, q);
  }

  lemma SumOfShiftedSquares(r: int -> real, c: int -> real, p: real, q: real, n: nat)
    ensures Sum(ShiftedSquare(r, c, p, q), n) ==
            Sum(Product(r, r), n) + 2.0 * p * Sum(r, n) + 2.0 * q * Sum(Product(c, r), n) + Square(p) * n as real
            + 2.0 * p * q * Sum(c, n) + Square(q) * Sum(Product(c, c), n)
  {
    var a1 := Plus(Product(r, r), 2.0 * p, r);
    var a2 := Plus(a1, 2.0 * q, Product(c, r));
    var a3 := Plus(a2, Square(p), One());
    var a4 := Plus(a3, 2.0 * p * q, c);
    SumPlus(Product(r, r), 2.0 * p, r, n);
    SumPlus(a1, 2.0 * q, Product(c, r), n);
    SumPlus(a2, Square(p), One(), n);
    SumPlus(a3, 2.0 * p * q, c, n);
    SumPlus(a4, Square(q), Product(c, c), n);
    SumOnes(n);
  }

  /** Squares of residuals that are shifted by a straight line, when the residuals cancel. */
  lemma ShiftedSquares(r: int -> real, c: int -> real, shifted: int -> real, p: real, q: real, n: nat)
    requires forall i | 0 <= i < n :: shifted(i) == r(i) + p + q * c(i)
    requires Sum(r, n) == 0.0 && Sum(Product(c, r), n) == 0.0 && Sum(c, n) == 0.0
    ensures Sum(Product(shifted, shifted), n) ==
            Sum(Product(r, r), n) + Square(p) * n as real + Square(q) * Sum(Product(c, c), n)
  {
    SquaresOfShifted(r, c, shifted, p, q, n);
    SumOfShiftedSquares(r, c, p, q, n);
    TimesZero(2.0 * p, Sum(r, n));
    TimesZero(2.0 * q, Sum(Product(c, r), n));
    TimesZero(2.0 * p * q, Sum(c, n));
  }

  lemma TimesZero(x: real, zero: real)
    requires zero == 0.0
    ensures x * zero == 0.0
  {
  }

  lemma SquaresOfShifted(r: int -> real, c: int -> real, shifted: int -> real, p: real, q: real, n: nat)
    requires forall i | 0 <= i < n :: shifted(i) == r(i) + p + q * c(i)
    ensures Sum(Product(shifted, shifted), n) == Sum(ShiftedSquare(r, c, p, q), n)
  {
    forall i | 0 <= i < n ensures Product(shifted, shifted)(i) == ShiftedSquare(r, c, p, q)(i) {
      ShiftedSquareAt(r, c, p, q, i);
      assert Product(shifted, shifted)(i) == Square(shifted(i));
    }
    SumsAgree(Product(shifted, shifted), ShiftedSquare(r, c, p, q), n);
  }

  // ---------------------------------------------------------------------------
  // The fitted line
  // ---------------------------------------------------------------------------

  function MeanX(points: seq<real>): real
    requires points != []
  {
    Sum(Xs(), |points|) / |points| as real
  }

  function MeanY(points: seq<real>): real
    requires points != []
  {
    Sum(Ys(points), |points|) / |points| as real
  }

  function Denominator(points: seq<real>): real
    requires points != []
  {
    var dx := Centred(Xs(), MeanX(points));
    Sum(Product(dx, dx), |points|)
  }

  function Fit(points: seq<real>): Line
    requires points != []
  {
    var dx, dy := Centred(Xs(), MeanX(points)), Centred(Ys(points), MeanY(points));
    var slope := if Denominator(points) != 0.0 then Sum(Product(dx, dy), |points|) / Denominator(points) else 0.0;
    Line(slope, MeanY(points) - slope * MeanX(points))
  }

  function Residual(points: seq<real>, line: Line): int -> real {
    i => Ys(points)(i) - line.At(i as real)
  }

  function SquaredError(points: seq<real>, line: Line): real {
    Sum(Product(Residual(points, line), Residual(points, line)), |points|)
  }

  lemma {:induction false} SumOfIndexes(n: nat)
    ensures Sum(Xs(), n) >= 0.0 && (n >= 2 ==> Sum(Xs(), n) > 0.0)
  {
    if n > 0 {
      SumOfIndexes(n - 1);
    }
  }

  /** With two points or more the division is never by zero. */
  lemma DenominatorPositive(points: seq<real>)
    requires |points| >= 2
    ensures Denominator(points) > 0.0
  {
    SumOfIndexes(|points|);
    assert MeanX(points) > 0.0;
    SumOfSquaresPositive(Centred(Xs(), MeanX(points)), |points|, 0);
  }

  lemma CentredSumsToZero(f: int -> real, n: nat, mean: real)
    requires n > 0 && mean == Sum(f, n) / n as real
    ensures Sum(Centred(f, mean), n) == 0.0
  {
    SumCentred(f, mean, n);
  }

  lemma ResidualCentred(points: seq<real>, i: nat)
    requires points != [] && i < |points|
    ensures var fit := Fit(points);
            Residual(points, fit)(i) ==
            Centred(Ys(points), MeanY(points))(i) - fit.slope * Centred(Xs(), MeanX(points))(i)
  {
    Recentre(Ys(points)(i), MeanY(points), Fit(points).slope, MeanX(points), i as real);
  }

  /** The residuals of the fitted line cancel, and are uncorrelated with the position. */
  lemma ResidualsCancel(points: seq<real>)
    requires |points| >= 2
    ensures var r := Residual(points, Fit(points));
            Sum(r, |points|) == 0.0 && Sum(Product(Centred(Xs(), MeanX(points)), r), |points|) == 0.0
  {
    var n, slope := |points|, Fit(points).slope;
    var dx, dy, r := Centred(Xs(), MeanX(points)), Centred(Ys(points), MeanY(points)), Residual(points, Fit(points));
    DenominatorPositive(points);
    CentredSumsToZero(Xs(), n, MeanX(points));
    CentredSumsToZero(Ys(points), n, MeanY(points));
    forall i | 0 <= i < n ensures r(i) == dy(i) - slope * dx(i) {
      ResidualCentred(points, i);
    }
    SumLinear(r, dy, dx, slope, n);
    ProductWithResidual(dx, dy, r, slope, n);
  }

  lemma ProductWithResidual(dx: int -> real, dy: int -> real, r: int -> real, slope: real, n: nat)
    requires forall i | 0 <= i < n :: r(i) == dy(i) - slope * dx(i)
    ensures Sum(Product(dx, r), n) == Sum(Product(dx, dy), n) - slope * Sum(Product(dx, dx), n)
  {
    forall i | 0 <= i < n ensures Product(dx, r)(i) == Product(dx, dy)(i) - slope * Product(dx, dx)(i) {
    }
    SumLinear(Product(dx, r), Product(dx, dy), Product(dx, dx), slope, n);
  }

  lemma Recentre(y: real, meanY: real, s: real, meanX: real, x: real)
    ensures y - (meanY - s * meanX + s * x) == y - meanY - s * (x - meanX)
  {
  }

  /** Two lines differ by a straight line through the mean position. */
  lemma LinesApart(points: seq<real>, fit: Line, line: Line, mean: real) returns (p: real, q: real)
    ensures forall i :: Residual(points, line)(i) == Residual(points, fit)(i) + p + q * Centred(Xs(), mean)(i)
    ensures p == 0.0 && q == 0.0 ==> line == fit
  {
    p, q := fit.At(mean) - line.At(mean), fit.slope - line.slope;
    forall i ensures Residual(points, line)(i) == Residual(points, fit)(i) + p + q * Centred(Xs(), mean)(i) {
      LinesApartAt(fit, line, mean, i as real);
    }
    if q == 0.0 {
      assert fit.slope * mean == line.slope * mean;
    }
  }

  lemma LinesApartAt(fit: Line, line: Line, mean: real, x: real)
    ensures fit.At(x) - line.At(x) == fit.At(mean) - line.At(mean) + (fit.slope - line.slope) * (x - mean)
  {
  }

  /** By how much any line does worse than the fitted one. */
  lemma ErrorGap(points: seq<real>, line: Line) returns (p: real, q: real)
    requires |points| >= 2
    ensures SquaredError(points, line) ==
            SquaredError(points, Fit(points)) + Square(p) * |points| as real + Square(q) * Denominator(points)
    ensures p == 0.0 && q == 0.0 ==> line == Fit(points)
  {
    ResidualsCancel(points);
    CentredSumsToZero(Xs(), |points|, MeanX(points));
    p, q := LinesApart(points, Fit(points), line, MeanX(points));
    ShiftedSquares(Residual(points, Fit(points)), Centred(Xs(), MeanX(points)), Residual(points, line), p, q, |points|);
  }

  /** No line has a smaller squared error. */
  ghost predicate Best(points: seq<real>, line: Line) {
    forall other :: SquaredError(points, line) <= SquaredError(points, other)
  }

  lemma FitDoesNoWorse(points: seq<real>, line: Line)
    requires |points| >= 2
    ensures SquaredError(points, Fit(points)) <= SquaredError(points, line)
    ensures SquaredError(points, line) <= SquaredError(points, Fit(points)) ==> line == Fit(points)
  {
    DenominatorPositive(points);
    var p, q := ErrorGap(points, line);
    Gap(|points|, p, q, Denominator(points));
  }

  /** The fitted line is the best one, and the only best one. */
  lemma FitIsBest(points: seq<real>, line: Line)
    requires |points| >= 2
    ensures Best(points, line) <==> line == Fit(points)
  {
    forall other ensures SquaredError(points, Fit(points)) <= SquaredError(points, other) {
      FitDoesNoWorse(points, other);
    }
    FitDoesNoWorse(points, line);
  }

  lemma Gap(n: nat, p: real, q: real, d: real)
    requires n > 0 && d > 0.0
    ensures Square(p) * n as real + Square(q) * d >= 0.0
    ensures Square(p) * n as real + Square(q) * d == 0.0 ==> p == 0.0 && q == 0.0
  {
    Weighted(n as real, p);
    Weighted(d, q);
  }

  lemma Weighted(weight: real, x: real)
    requires weight > 0.0
    ensures Square(x) * weight >= 0.0
    ensures x != 0.0 ==> Square(x) * weight > 0.0
  {
    if x != 0.0 {
      SquarePositive(x);
      PositiveProduct(Square(x), weight);
    }
  }

  /** Points on a line are fitted by that line. */
  lemma CollinearIsExact(points: seq<real>, line: Line)
    requires |points| >= 2 && forall i | 0 <= i < |points| :: points[i] == line.At(i as real)
    ensures Fit(points) == line
  {
    ErrorIsZero(points, line, |points|);
    forall other ensures SquaredError(points, line) <= SquaredError(points, other) {
      SumOfSquaresNonnegative(Residual(points, other), |points|);
    }
    FitIsBest(points, line);
  }

  lemma {:induction false} ErrorIsZero(points: seq<real>, line: Line, n: nat)
    requires n <= |points| && forall i | 0 <= i < |points| :: points[i] == line.At(i as real)
    ensures Sum(Product(Residual(points, line), Residual(points, line)), n) == 0.0
  {
    if n > 0 {
      ErrorIsZero(points, line, n - 1);
      assert Ys(points)(n - 1) == points[n - 1] == line.At((n - 1) as real);
    }
  }

  // ---------------------------------------------------------------------------
  // The forecast
  // ---------------------------------------------------------------------------

  /** The measurements of a KPI whose actual reads as a number, in the order they are kept. */
  function History(measurements: seq<Measurement>, kpiName: string, fold: string -> string, number: string -> Option<real>): seq<Point> {
    if measurements == [] then []
    else
      var front, last := measurements[..|measurements| - 1], measurements[|measurements| - 1];
      History(front, kpiName, fold, number)
      + (if fold(last.kpiName) == fold(kpiName) && number(last.actual).Some? then [Point(last.period, number(last.actual).value)] else [])
  }

  function Actuals(points: seq<Point>): (actuals: seq<real>)
    ensures |actuals| == |points|
  {
    seq(|points|, i requires 0 <= i < |points| => points[i].actual)
  }

  /** The measurement is of the KPI, up to case, and has a number. */
  ghost predicate Counts(m: Measurement, kpiName: string, fold: string -> string, number: string -> Option<real>) {
    fold(m.kpiName) == fold(kpiName) && number(m.actual) != None
  }

  /** The points are those of the measurements that count, in their order, each with its period and number. */
  ghost predicate HistoryAt(measurements: seq<Measurement>, kpiName: string, fold: string -> string, number: string -> Option<real>,
                            points: seq<Point>, positions: seq<nat>) {
    && (forall i | 0 <= i < |positions| :: positions[i] < |measurements|)
    && (forall i, j | 0 <= i < j < |positions| :: positions[i] < positions[j])
    && (forall i | 0 <= i < |measurements| :: i in positions <==> Counts(measurements[i], kpiName, fold, number))
    && |points| == |positions|
    && (forall i | 0 <= i < |positions| ::
          var m := measurements[positions[i]]; points[i].period == m.period && Some(points[i].actual) == number(m.actual))
  }

  lemma {:induction false} HistoryStands(measurements: seq<Measurement>, kpiName: string, fold: string -> string,
                                         number: string -> Option<real>)
    returns (positions: seq<nat>)
    ensures HistoryAt(measurements, kpiName, fold, number, History(measurements, kpiName, fold, number), positions)
  {
    if measurements == [] {
      positions := [];
    } else {
      var front, last := measurements[..|measurements| - 1], measurements[|measurements| - 1];
      positions := HistoryStands(front, kpiName, fold, number);
      HistoryGrows(front, last, kpiName, fold, number, History(front, kpiName, fold, number), positions);
      assert measurements == front + [last];
      if Counts(last, kpiName, fold, number) {
        positions := positions + [|front|];
      }
    }
  }

  lemma HistoryGrows(front: seq<Measurement>, last: Measurement, kpiName: string, fold: string -> string,
                     number: string -> Option<real>, points: seq<Point>, positions: seq<nat>)
    requires HistoryAt(front, kpiName, fold, number, points, positions)
    ensures if Counts(last, kpiName, fold, number)
            then HistoryAt(front + [last], kpiName, fold, number,
                           points + [Point(last.period, number(last.actual).value)], positions + [|front|])
            else HistoryAt(front + [last], kpiName, fold, number, points + [], positions)
  {
    assert points + [] == points;
    var all, more := front + [last], positions + [|front|];
    forall i | 0 <= i < |all| ensures i in more <==> i in positions || i == |front| {
      if i in positions {
        var k :| 0 <= k < |positions| && positions[k] == i;
        assert more[k] == i;
      }
      assert more[|positions|] == |front|;
    }
  }

  /** `fold` is case folding and `number` the first number in a text. */
  method MakeForecast(measurements: seq<Measurement>, kpiName: string, fold: string -> string, number: string -> Option<real>)
    returns (r: ForecastResult, ghost positions: seq<nat>)
    ensures HistoryAt(measurements, kpiName, fold, number, r.history, positions)
    ensures r.history == History(measurements, kpiName, fold, number)
    ensures r.value == None <==> |r.history| < 3
    ensures r.value.Some? ==>
              exists line :: Best(Actuals(r.history), line) && r.value.value == line.At(|r.history| as real)
  {
    var points := [];
    for i := 0 to |measurements|
      invariant points == History(measurements[..i], kpiName, fold, number)
    {
      var item := measurements[i];
      assert measurements[..i + 1][..i] == measurements[..i];
      if fold(item.kpiName) == fold(kpiName) {
        var value := number(item.actual);
        if value.Some? {
          points := points + [Point(item.period, value.value)];
        }
      }
    }
    assert measurements[..|measurements|] == measurements;
    positions := HistoryStands(measurements, kpiName, fold, number);
    if |points| < 3 {
      return ForecastResult(points, None), positions;
    }
    var line := Fit(Actuals(points));
    FitIsBest(Actuals(points), line);
    return ForecastResult(points, Some(line.At(|points| as real))), positions;
  }
}
