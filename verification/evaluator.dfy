/**
  The board evaluator: turns a field and the offence counters into a score.

  The integer parts of the pipeline (column heights, holes, the mode switch,
  the well) are specified by functions over `int`; the score is a `real`,
  an exact idealisation of the source's `f32` arithmetic. Each block of the
  evaluation is a method with the loops of the source, proved against the
  function that specifies it, and `Evaluate` is proved equal to `Score`.
*/
module Evaluator {
  import opened Wrappers
  import opened Board

  /** Mode-switch constants. */
  datatype Consts = Consts(dsHeightThreshold: real, dsModePenalty: real)

  /** Profile-dependent targets. */
  datatype Factors = Factors(idealH: real, wellThreshold: real)

  /** Profile-dependent weights of the score terms. */
  datatype Weights = Weights(
    hole: real,
    holeDepth: real,
    hLocalDeviation: real,
    hGlobalDeviation: real,
    averageH: real,
    sumAttack: real,
    sumDownstack: real,
    attack: real,
    downstack: real,
    eff: real)

  const CONSTS: Consts := Consts(14.0, -2000.0)
  const FACTORS_NORM: Factors := Factors(5.0, 4.0)
  const FACTORS_DS: Factors := Factors(0.0, 20.0)
  const WEIGHTS_NORM: Weights := Weights(-100.0, -10.0, -5.0, -1.0, -10.0, 40.0, 15.0, 35.0, 10.0, 50.0)
  const WEIGHTS_DS: Weights := Weights(-150.0, -15.0, -10.0, -1.0, -20.0, 0.0, 350.0, 0.0, 30.0, 50.0)

  function Abs(r: real): real { if r < 0.0 then -r else r }

  function Sq(r: real): real { r * r }

  function AbsDiff(a: int, b: int): nat { if a >= b then a - b else b - a }

  function Square(n: nat): nat { n * n }

  lemma AbsDiffSq(a: int, b: int)
    ensures AbsDiff(a, b) * AbsDiff(a, b) == (a - b) * (a - b)
  {
    if a < b {
      assert (b - a) * (b - a) == (a - b) * (a - b);
    }
  }

  /**
    Weighting the squared absolute distance of the stack height from its
    ideal is weighting the squared distance itself.
  */
  lemma HeightDistanceSq(w: real, gh: real, avg: real, ideal: real)
    requires gh == HEIGHT as real - avg
    ensures w * Sq(Abs(gh - ideal)) == w * Sq(HEIGHT as real - avg - ideal)
  {
    var r := gh - ideal;
    assert r == HEIGHT as real - avg - ideal;
    if r < 0.0 {
      assert (-r) * (-r) == r * r;
    }
  }

  // ---------------------------------------------------------------------
  // Column heights
  // ---------------------------------------------------------------------

  /**
    The first row at or below `y` whose cell in column `x` is occupied, or
    HEIGHT when there is none.
  */
  function TopFrom(f: Field, x: int, y: int): (r: int)
    requires 0 <= x < WIDTH && 0 <= y <= HEIGHT
    ensures y <= r <= HEIGHT
    ensures r < HEIGHT ==> Filled(f, r, x)
    ensures forall k :: y <= k < r ==> !Filled(f, k, x)
    decreases HEIGHT - y
  {
    if y == HEIGHT then HEIGHT
    else if Filled(f, y, x) then y
    else TopFrom(f, x, y + 1)
  }

  /** The height of column x, as the row index of its topmost occupied cell (HEIGHT when empty). */
  function ColumnHeight(f: Field, x: int): int
    requires 0 <= x < WIDTH
  {
    TopFrom(f, x, 0)
  }

  predicate ValidHeights(h: seq<int>) {
    |h| == WIDTH && forall x :: 0 <= x < |h| ==> 0 <= h[x] <= HEIGHT
  }

  function Heights(f: Field): (h: seq<int>)
    ensures ValidHeights(h)
  {
    seq(WIDTH, x requires 0 <= x < WIDTH => ColumnHeight(f, x))
  }

  /** Sum of the first n heights. */
  function SumTo(h: seq<int>, n: nat): int
    requires n <= |h|
  {
    if n == 0 then 0 else SumTo(h, n - 1) + h[n - 1]
  }

  function Sum(h: seq<int>): int { SumTo(h, |h|) }

  /**
    The column heights, scanning every column from the first non-empty row
    down. Skipping the leading empty rows does not change any height.
  */
  method ColumnHeights(f: Field) returns (h: array<int>)
    ensures fresh(h)
    ensures h[..] == Heights(f)
  {
    h := new int[WIDTH];
    var cacheY := 0;
    while cacheY < HEIGHT && f[cacheY] == 0
      invariant 0 <= cacheY <= HEIGHT
      invariant forall y :: 0 <= y < cacheY ==> f[y] == 0
    {
      cacheY := cacheY + 1;
    }
    for x := 0 to WIDTH
      invariant forall i :: 0 <= i < x ==> h[i] == ColumnHeight(f, i)
    {
      ScanColumn(f, h, x, cacheY);
    }
  }

  /**
    The scan of column x from row cacheY down: records the first occupied row,
    or 20 when the scan runs past the bottom row.
  */
  method ScanColumn(f: Field, h: array<int>, x: int, cacheY: int)
    requires h.Length == WIDTH && 0 <= x < WIDTH && 0 <= cacheY <= HEIGHT
    requires forall y :: 0 <= y < cacheY ==> f[y] == 0
    modifies h
    ensures h[x] == ColumnHeight(f, x)
    ensures forall i :: 0 <= i < WIDTH && i != x ==> h[i] == old(h[i])
  {
    TopFromSkipsEmptyRows(f, x, cacheY);
    for y := cacheY to HEIGHT + 1
      invariant forall i :: 0 <= i < WIDTH && i != x ==> h[i] == old(h[i])
      invariant y <= HEIGHT ==> TopFrom(f, x, y) == ColumnHeight(f, x)
      invariant y == HEIGHT + 1 ==> h[x] == ColumnHeight(f, x)
    {
      if y == HEIGHT {
        h[x] := 20;
      } else if f[y] & (1 << x) != 0 {
        h[x] := y;
        break;
      }
    }
  }

  /** Rows that are entirely empty do not hide a column's top. */
  lemma TopFromSkipsEmptyRows(f: Field, x: int, c: int)
    requires 0 <= x < WIDTH && 0 <= c <= HEIGHT
    requires forall y :: 0 <= y < c ==> f[y] == 0
    ensures TopFrom(f, x, c) == ColumnHeight(f, x)
  {
  }

  // ---------------------------------------------------------------------
  // Holes
  // ---------------------------------------------------------------------

  /** Number of empty cells of column x on the rows top+1 .. hi-1. */
  function ColumnHoles(f: Field, x: int, top: int, hi: int): nat
    requires 0 <= x < WIDTH && 0 <= top && (hi <= HEIGHT || hi <= top + 1)
    decreases hi - top
  {
    if hi <= top + 1 then 0
    else ColumnHoles(f, x, top, hi - 1) + (if Filled(f, hi - 1, x) then 0 else 1)
  }

  /** Sum of the squared depths (row minus top) of those empty cells. */
  function ColumnDepthSq(f: Field, x: int, top: int, hi: int): nat
    requires 0 <= x < WIDTH && 0 <= top && (hi <= HEIGHT || hi <= top + 1)
    decreases hi - top
  {
    if hi <= top + 1 then 0
    else ColumnDepthSq(f, x, top, hi - 1) + (if Filled(f, hi - 1, x) then 0 else Square(hi - 1 - top))
  }

  /** Extending a column's scan by row y adds that row's hole and its squared depth. */
  lemma ColumnStep(f: Field, x: int, top: int, y: int)
    requires 0 <= x < WIDTH && 0 <= top && top + 1 <= y < HEIGHT
    ensures ColumnHoles(f, x, top, y + 1) == ColumnHoles(f, x, top, y) + (if Filled(f, y, x) then 0 else 1)
    ensures ColumnDepthSq(f, x, top, y + 1) == ColumnDepthSq(f, x, top, y) + (if Filled(f, y, x) then 0 else Square(y - top))
  {
  }

  /** Holes under the tops of the first n columns. */
  function HoleCount(f: Field, h: seq<int>, n: nat): nat
    requires ValidHeights(h) && n <= WIDTH
  {
    if n == 0 then 0 else HoleCount(f, h, n - 1) + ColumnHoles(f, n - 1, h[n - 1], HEIGHT)
  }

  function HoleDepthSumSq(f: Field, h: seq<int>, n: nat): nat
    requires ValidHeights(h) && n <= WIDTH
  {
    if n == 0 then 0 else HoleDepthSumSq(f, h, n - 1) + ColumnDepthSq(f, n - 1, h[n - 1], HEIGHT)
  }

  /** The hole count and the sum of squared hole depths, column by column. */
  method CountHoles(f: Field, h: array<int>) returns (holes: int, depthSumSq: int)
    requires ValidHeights(h[..])
    ensures holes == HoleCount(f, h[..], WIDTH)
    ensures depthSumSq == HoleDepthSumSq(f, h[..], WIDTH)
  {
    holes, depthSumSq := 0, 0;
    ghost var hs := h[..];
    for x := 0 to WIDTH
      invariant holes == HoleCount(f, hs, x)
      invariant depthSumSq == HoleDepthSumSq(f, hs, x)
    {
      var top := h[x];
      ghost var holes0, depth0 := holes, depthSumSq;
      var y := top + 1;
      while y < HEIGHT
        invariant top + 1 <= y && (y <= HEIGHT || y == top + 1)
        invariant holes == holes0 + ColumnHoles(f, x, top, y)
        invariant depthSumSq == depth0 + ColumnDepthSq(f, x, top, y)
      {
        ColumnStep(f, x, top, y);
        if f[y] & (1 << x) == 0 {
          holes := holes + 1;
          var d := y - top;
          depthSumSq := depthSumSq + d * d;
        }
        y := y + 1;
      }
    }
  }

  // ---------------------------------------------------------------------
  // Profile selection
  // ---------------------------------------------------------------------

  /**
    The downstack profile is used when the stack is taller than the threshold
    (20 - sum/10 > 14, that is sum < 60) or when there is a hole.
  */
  predicate UsesDownstack(sum: int, holes: int) {
    sum < 60 || holes > 0
  }

  function ProfileWeights(downstack: bool): Weights {
    if downstack then WEIGHTS_DS else WEIGHTS_NORM
  }

  function ProfileFactors(downstack: bool): Factors {
    if downstack then FACTORS_DS else FACTORS_NORM
  }

  /** The source's real-valued height test is exactly the integer test of UsesDownstack. */
  lemma ModeTestExact(sum: int)
    ensures (HEIGHT as real - sum as real / 10.0 > CONSTS.dsHeightThreshold) <==> sum < 60
  {
  }

  // ---------------------------------------------------------------------
  // Well
  // ---------------------------------------------------------------------

  /**
    Column x lies below the average sum/10 by at least thr rows
    (heights are row indices, so a deeper column has a larger h[x]).
  */
  predicate IsWellCandidate(h: seq<int>, sum: int, thr: real, x: int)
    requires 0 <= x < |h|
  {
    (10 * h[x] - sum) as real >= 10.0 * thr
  }

  /**
    The well among the first n columns: the deepest candidate, the first one
    on ties.
  */
  function WellScan(h: seq<int>, sum: int, thr: real, n: nat): (w: Option<int>)
    requires n <= |h|
    ensures w.None? ==> forall x :: 0 <= x < n ==> !IsWellCandidate(h, sum, thr, x)
    ensures w.Some? ==> 0 <= w.value < n && IsWellCandidate(h, sum, thr, w.value)
    ensures w.Some? ==> forall x :: 0 <= x < n && IsWellCandidate(h, sum, thr, x) ==> h[x] <= h[w.value]
    ensures w.Some? ==> forall x :: 0 <= x < w.value && IsWellCandidate(h, sum, thr, x) ==> h[x] < h[w.value]
  {
    if n == 0 then Option.None
    else
      var prev := WellScan(h, sum, thr, n - 1);
      if !IsWellCandidate(h, sum, thr, n - 1) then prev
      else if prev.None? then Some(n - 1)
      else if h[n - 1] > h[prev.value] then Some(n - 1)
      else prev
  }

  function WellOf(h: seq<int>, sum: int, thr: real): Option<int> {
    WellScan(h, sum, thr, |h|)
  }

  /**
    The well, found with the source's real-valued tests on the average
    `avg`; a later candidate replaces the current one only when strictly deeper.
  */
  method FindWell(h: array<int>, avg: real, thr: real) returns (well: Option<int>)
    requires h.Length == WIDTH && avg == Sum(h[..]) as real / 10.0 && thr > 0.0
    ensures well == WellOf(h[..], Sum(h[..]), thr)
  {
    well := Option.None;
    for x := 0 to WIDTH
      invariant well == WellScan(h[..], Sum(h[..]), thr, x)
    {
      var d := avg - h[x] as real;
      if d < 0.0 && Abs(d) >= thr {
        match well {
          case Some(pwell) =>
            if avg - h[pwell] as real > d {
              well := Some(x);
            }
          case None =>
            well := Some(x);
        }
      }
    }
  }

  /** Sum of the first n heights, leaving out column w. */
  function SumExcept(h: seq<int>, w: int, n: nat): int
    requires n <= |h|
  {
    if n == 0 then 0 else SumExcept(h, w, n - 1) + (if n - 1 == w then 0 else h[n - 1])
  }

  lemma {:induction false} SumExceptSplit(h: seq<int>, w: int, n: nat)
    requires 0 <= w < n <= |h|
    ensures SumExcept(h, w, n) == SumTo(h, n) - h[w]
  {
    if n - 1 != w {
      SumExceptSplit(h, w, n - 1);
    } else {
      SumExceptUnchanged(h, w, n - 1);
    }
  }

  lemma {:induction false} SumExceptUnchanged(h: seq<int>, w: int, n: nat)
    requires n <= |h| && n <= w
    ensures SumExcept(h, w, n) == SumTo(h, n)
  {
    if n > 0 {
      SumExceptUnchanged(h, w, n - 1);
    }
  }

  /**
    The average height used after well detection: the mean of all ten
    columns, or of the nine columns other than the well.
  */
  function AverageHeight(h: seq<int>, well: Option<int>): (avg: real)
    requires |h| == WIDTH && (well.Some? ==> 0 <= well.value < WIDTH)
    ensures well.None? ==> avg * 10.0 == Sum(h) as real
    ensures well.Some? ==> avg * 9.0 == SumExcept(h, well.value, WIDTH) as real
  {
    if well.None? then Sum(h) as real / 10.0
    else
      SumExceptSplit(h, well.value, WIDTH);
      (Sum(h) - h[well.value]) as real / 9.0
  }

  /**
    Recomputing the average from the ten-column mean by taking the well out,
    as the source does, gives the mean of the other nine columns.
  */
  lemma WellAdjustedAverage(h: seq<int>, w: int, avg: real, hw: int)
    requires |h| == WIDTH && 0 <= w < WIDTH && hw == h[w]
    requires avg == Sum(h) as real / 10.0
    ensures (avg * 10.0 - hw as real) / 9.0 == AverageHeight(h, Some(w))
  {
  }

  // ---------------------------------------------------------------------
  // Deviations
  // ---------------------------------------------------------------------

  /** Sum of squared deviations from avg over the first n columns, the well left out. */
  function GlobalDeviationSum(h: seq<int>, avg: real, well: Option<int>, n: nat): (r: real)
    requires n <= |h|
    ensures r >= 0.0
  {
    if n == 0 then 0.0
    else GlobalDeviationSum(h, avg, well, n - 1) + (if well == Some(n - 1) then 0.0 else Sq(avg - h[n - 1] as real))
  }

  method GlobalDeviation(h: array<int>, avg: real, well: Option<int>) returns (sumSq: real)
    requires h.Length == WIDTH
    ensures sumSq == GlobalDeviationSum(h[..], avg, well, WIDTH)
  {
    sumSq := 0.0;
    for x := 0 to WIDTH
      invariant sumSq == GlobalDeviationSum(h[..], avg, well, x)
    {
      if well.Some? && well.value == x {
        continue;
      }
      var d := avg - h[x] as real;
      sumSq := sumSq + d * d;
    }
  }

  /** The pair (x-1, x) touches the well. */
  predicate TouchesWell(well: Option<int>, x: int) {
    well == Some(x) || well == Some(x - 1)
  }

  /**
    Sum of squared differences between horizontally adjacent columns
    (x-1, x) for 1 <= x < n, pairs touching the well left out.
  */
  function LocalDeviationSum(h: seq<int>, well: Option<int>, n: nat): (r: int)
    requires n <= |h|
    ensures r >= 0
  {
    if n <= 1 then 0
    else LocalDeviationSum(h, well, n - 1) + (if TouchesWell(well, n - 1) then 0 else (h[n - 1] - h[n - 2]) * (h[n - 1] - h[n - 2]))
  }

  method LocalDeviation(h: array<int>, well: Option<int>) returns (sumSq: int)
    requires h.Length == WIDTH
    ensures sumSq == LocalDeviationSum(h[..], well, WIDTH)
  {
    sumSq := 0;
    for x := 1 to WIDTH
      invariant sumSq == LocalDeviationSum(h[..], well, x)
    {
      if well.Some? && (well.value == x || well.value + 1 == x) {
        continue;
      }
      var d := AbsDiff(h[x], h[x - 1]);
      AbsDiffSq(h[x], h[x - 1]);
      sumSq := sumSq + d * d;
    }
  }

  // ---------------------------------------------------------------------
  // Offence and the whole score
  // ---------------------------------------------------------------------

  /** The cumulative counters fit the source's `as i8` casts unchanged. */
  predicate CountersFitI8(p: Props) {
    0 <= p.sumAtk <= 127 && 0 <= p.sumDs <= 127
  }

  function OffenseTerm(p: Props, w: Weights): real {
    (p.sumAtk - p.sumDs) as real * w.eff
    + p.sumAtk as real * w.sumAttack
    + p.sumDs as real * w.sumDownstack
    + p.atk as real * w.attack
    + p.ds as real * w.downstack
  }

  /**
    The score terms once the profile, hole counts, adjusted average and
    deviation sums are known.
  */
  function ScoreTerms(downstack: bool, holes: int, depthSq: int, avg: real, globalSq: real, localSq: int, p: Props): real {
    var weights := ProfileWeights(downstack);
    var factors := ProfileFactors(downstack);
    (if downstack then CONSTS.dsModePenalty else 0.0)
    + holes as real * weights.hole
    + depthSq as real * weights.holeDepth
    + weights.averageH * Sq(HEIGHT as real - avg - factors.idealH)
    + globalSq * weights.hGlobalDeviation
    + localSq as real * weights.hLocalDeviation
    + OffenseTerm(p, weights)
  }

  /** The score of a field and counters. */
  function Score(f: Field, p: Props): real {
    var h := Heights(f);
    var sum := Sum(h);
    var holes := HoleCount(f, h, WIDTH);
    var depthSq := HoleDepthSumSq(f, h, WIDTH);
    var downstack := UsesDownstack(sum, holes);
    var well := WellOf(h, sum, ProfileFactors(downstack).wellThreshold);
    var avg := AverageHeight(h, well);
    ScoreTerms(downstack, holes, depthSq, avg, GlobalDeviationSum(h, avg, well, WIDTH), LocalDeviationSum(h, well, WIDTH), p)
  }

  /** Score, with its intermediate values named. */
  lemma ScoreUnfold(f: Field, p: Props, h: seq<int>, holes: int, depthSq: int, downstack: bool, well: Option<int>, avg: real)
    requires h == Heights(f)
    requires holes == HoleCount(f, h, WIDTH) && depthSq == HoleDepthSumSq(f, h, WIDTH)
    requires downstack == UsesDownstack(Sum(h), holes)
    requires well == WellOf(h, Sum(h), ProfileFactors(downstack).wellThreshold)
    requires avg == AverageHeight(h, well)
    ensures Score(f, p) ==
      ScoreTerms(downstack, holes, depthSq, avg, GlobalDeviationSum(h, avg, well, WIDTH), LocalDeviationSum(h, well, WIDTH), p)
  {
  }

  /** The score terms, added one after the other in the order the evaluator adds them. */
  lemma AccumulatedScore(downstack: bool, holes: int, depthSq: int, avg: real, globalSq: real, localSq: int, p: Props,
                         modeTerm: real, heightPenalty: real, score: real)
    requires modeTerm == if downstack then CONSTS.dsModePenalty else 0.0
    requires heightPenalty == ProfileWeights(downstack).averageH * Sq(HEIGHT as real - avg - ProfileFactors(downstack).idealH)
    requires var w := ProfileWeights(downstack);
      score == modeTerm + holes as real * w.hole + depthSq as real * w.holeDepth + heightPenalty
        + globalSq * w.hGlobalDeviation + localSq as real * w.hLocalDeviation
        + (p.sumAtk - p.sumDs) as real * w.eff + p.sumAtk as real * w.sumAttack + p.sumDs as real * w.sumDownstack
        + p.atk as real * w.attack + p.ds as real * w.downstack
    ensures score == ScoreTerms(downstack, holes, depthSq, avg, globalSq, localSq, p)
  {
  }

  /**
    The average-height block: the squared distance of the playing height
    20 - avg from the profile's ideal height, weighted.
  */
  method HeightScore(avg: real, factors: Factors, weights: Weights) returns (term: real)
    ensures term == weights.averageH * Sq(HEIGHT as real - avg - factors.idealH)
  {
    var gh: real := HEIGHT as real - avg;
    var d: real := Abs(gh - factors.idealH);
    HeightDistanceSq(weights.averageH, gh, avg, factors.idealH);
    term := weights.averageH * Sq(d);
  }

  /** The evaluator: accumulates the score block by block. */
  method Evaluate(state: State) returns (score: real)
    requires CountersFitI8(state.props)
    ensures score == Score(state.field, state.props)
  {
    var f := state.field;
    var p := state.props;
    score := 0.0;

    var h := ColumnHeights(f);
    // f_w as f32 is 10.0 and (f_w - 1) as f32 is 9.0
    var avg: real := Sum(h[..]) as real / 10.0;

    var holes, holeDepthSumSq := CountHoles(f, h);

    ModeTestExact(Sum(h[..]));
    ghost var downstack := UsesDownstack(Sum(h[..]), holes);
    var weights: Weights, factors: Factors;
    if HEIGHT as real - avg > CONSTS.dsHeightThreshold || holes > 0 {
      score := score + CONSTS.dsModePenalty;
      weights, factors := WEIGHTS_DS, FACTORS_DS;
    } else {
      weights, factors := WEIGHTS_NORM, FACTORS_NORM;
    }
    assert weights == ProfileWeights(downstack) && factors == ProfileFactors(downstack);
    ghost var modeTerm := score;

    score := score + holes as real * weights.hole;
    score := score + holeDepthSumSq as real * weights.holeDepth;

    var well := FindWell(h, avg, factors.wellThreshold);
    if well.Some? {
      WellAdjustedAverage(h[..], well.value, avg, h[well.value]);
      avg := (avg * 10.0 - h[well.value] as real) / 9.0;
    }

    var heightPenalty := HeightScore(avg, factors, weights);
    score := score + heightPenalty;

    var globalSq := GlobalDeviation(h, avg, well);
    score := score + globalSq * weights.hGlobalDeviation;

    var localSq := LocalDeviation(h, well);
    score := score + localSq as real * weights.hLocalDeviation;

    score := score + (p.sumAtk - p.sumDs) as real * weights.eff;
    score := score + p.sumAtk as real * weights.sumAttack;
    score := score + p.sumDs as real * weights.sumDownstack;
    score := score + p.atk as real * weights.attack;
    score := score + p.ds as real * weights.downstack;
    AccumulatedScore(downstack, holes, holeDepthSumSq, avg, globalSq, localSq, p, modeTerm, heightPenalty, score);
    ScoreUnfold(f, p, h[..], holes, holeDepthSumSq, downstack, well, avg);
  }
}
