/**
  Properties of the board evaluator: what the heights, hole counts, mode
  switch, well and deviation sums mean, and the score of reference boards.
*/
module EvaluatorProperties {
  import opened Wrappers
  import opened Board
  import opened Evaluator

  // ---------------------------------------------------------------------
  // Heights
  // ---------------------------------------------------------------------

  /** A column's height is the unique row index characterised by TopFrom. */
  lemma ColumnHeightIs(f: Field, x: int, r: int)
    requires 0 <= x < WIDTH && 0 <= r <= HEIGHT
    requires r < HEIGHT ==> Filled(f, r, x)
    requires forall k :: 0 <= k < r ==> !Filled(f, k, x)
    ensures ColumnHeight(f, x) == r
  {
  }

  // ---------------------------------------------------------------------
  // Holes
  // ---------------------------------------------------------------------

  /** The empty cells of column x strictly between row top and row hi. */
  function EmptyCells(f: Field, x: int, top: int, hi: int): set<int>
    requires 0 <= x < WIDTH && 0 <= top && hi <= HEIGHT
  {
    set y | top < y < hi && !Filled(f, y, x)
  }

  /**
    The hole count of a column is the number of empty cells strictly below its
    top; in particular an empty column (top = HEIGHT) has none.
  */
  lemma {:induction false} ColumnHolesAreEmptyCells(f: Field, x: int, top: int, hi: int)
    requires 0 <= x < WIDTH && 0 <= top && hi <= HEIGHT
    ensures ColumnHoles(f, x, top, hi) == |EmptyCells(f, x, top, hi)|
    decreases hi - top
  {
    if hi <= top + 1 {
      assert EmptyCells(f, x, top, hi) == {};
    } else {
      ColumnHolesAreEmptyCells(f, x, top, hi - 1);
      if Filled(f, hi - 1, x) {
        assert EmptyCells(f, x, top, hi) == EmptyCells(f, x, top, hi - 1);
      } else {
        assert EmptyCells(f, x, top, hi) == EmptyCells(f, x, top, hi - 1) + {hi - 1};
      }
    }
  }

  /** Every counted hole has depth at least one, so its squared depth is at least one. */
  lemma {:induction false} ColumnDepthSqAtLeastHoles(f: Field, x: int, top: int, hi: int)
    requires 0 <= x < WIDTH && 0 <= top && (hi <= HEIGHT || hi <= top + 1)
    ensures ColumnDepthSq(f, x, top, hi) >= ColumnHoles(f, x, top, hi)
    decreases hi - top
  {
    if hi > top + 1 {
      ColumnDepthSqAtLeastHoles(f, x, top, hi - 1);
      SquareAtLeastOne(hi - 1 - top);
    }
  }

  lemma SquareAtLeastOne(d: nat)
    requires d >= 1
    ensures Square(d) >= 1
  {
    assert d * d >= d;
  }

  /** The sum of squared hole depths is at least the number of holes. */
  lemma {:induction false} DepthSumSqAtLeastHoles(f: Field, h: seq<int>, n: nat)
    requires ValidHeights(h) && n <= WIDTH
    ensures HoleDepthSumSq(f, h, n) >= HoleCount(f, h, n)
  {
    if n > 0 {
      DepthSumSqAtLeastHoles(f, h, n - 1);
      ColumnDepthSqAtLeastHoles(f, n - 1, h[n - 1], HEIGHT);
    }
  }

  // ---------------------------------------------------------------------
  // Adding an occupied cell
  // ---------------------------------------------------------------------

  /**
    The field with the cell in row r, column x occupied and every other cell
    as in f (Mask(x) is `1 << x`, by MaskIsShift).
  */
  function AddCell(f: Field, r: int, x: int): Field
    requires 0 <= r < HEIGHT && 0 <= x < WIDTH
  {
    f[r := f[r] | Mask(x)]
  }

  lemma AddCellFilled(f: Field, r: int, x: int, y: int, x2: int)
    requires 0 <= r < HEIGHT && 0 <= x < WIDTH && 0 <= y < HEIGHT && 0 <= x2 < WIDTH
    ensures Filled(AddCell(f, r, x), y, x2) == (Filled(f, y, x2) || (y == r && x2 == x))
  {
    if y == r {
      AddCellFilledSameRow(f, r, x, x2);
    } else {
      assert AddCell(f, r, x)[y] == f[y];
    }
  }

  lemma AddCellFilledSameRow(f: Field, r: int, x: int, x2: int)
    requires 0 <= r < HEIGHT && 0 <= x < WIDTH && 0 <= x2 < WIDTH
    ensures Filled(AddCell(f, r, x), r, x2) == (Filled(f, r, x2) || x2 == x)
  {
    RowHasOr(f[r], x, x2);
  }

  /** Setting bit x of a row sets bit x and no other bit. */
  lemma RowHasOr(a: Row, x: int, x2: int)
    requires 0 <= x < WIDTH && 0 <= x2 < WIDTH
    ensures RowHas(a | Mask(x), x2) == (RowHas(a, x2) || x2 == x)
  {
    MaskIsShift(x2);
    MaskOr(a, x, x2);
  }

  /** The single-bit mask of column x, written out. */
  function Mask(x: int): Row
    requires 0 <= x < WIDTH
  {
    if x == 0 then 0x1 else if x == 1 then 0x2 else if x == 2 then 0x4 else if x == 3 then 0x8
    else if x == 4 then 0x10 else if x == 5 then 0x20 else if x == 6 then 0x40 else if x == 7 then 0x80
    else if x == 8 then 0x100 else 0x200
  }

  lemma MaskIsShift(x: int)
    requires 0 <= x < WIDTH
    ensures 1 << x == Mask(x)
  {
    if x == 0 {} else if x == 1 {} else if x == 2 {} else if x == 3 {} else if x == 4 {}
    else if x == 5 {} else if x == 6 {} else if x == 7 {} else if x == 8 {} else {}
  }

  lemma MaskOr(a: Row, x: int, x2: int)
    requires 0 <= x < WIDTH && 0 <= x2 < WIDTH
    ensures (a | Mask(x)) & Mask(x2) != 0 <==> a & Mask(x2) != 0 || x2 == x
  {
  }

  /** A column's hole count depends only on that column's cells. */
  lemma {:induction false} SameCellsSameHoles(f: Field, g: Field, x: int, top: int, hi: int)
    requires 0 <= x < WIDTH && 0 <= top && (hi <= HEIGHT || hi <= top + 1)
    requires forall y :: 0 <= y < HEIGHT ==> Filled(f, y, x) == Filled(g, y, x)
    ensures ColumnHoles(f, x, top, hi) == ColumnHoles(g, x, top, hi)
    decreases hi - top
  {
    if hi > top + 1 {
      SameCellsSameHoles(f, g, x, top, hi - 1);
    }
  }

  /** Below a top at row r, a run of empty rows up to hi holds hi - r - 1 holes. */
  lemma {:induction false} EmptyRunHoles(g: Field, x: int, r: int, hi: int)
    requires 0 <= x < WIDTH && 0 <= r < hi <= HEIGHT
    requires forall y :: r < y < hi ==> !Filled(g, y, x)
    ensures ColumnHoles(g, x, r, hi) == hi - r - 1
    decreases hi - r
  {
    if hi > r + 1 {
      EmptyRunHoles(g, x, r, hi - 1);
    }
  }

  /**
    A column whose top moves up from row top to row r, over rows that are
    empty, gains those top - r - 1 rows as holes and keeps its old ones.
  */
  lemma {:induction false} RaisedColumnHoles(f: Field, g: Field, x: int, r: int, top: int, hi: int)
    requires 0 <= x < WIDTH && 0 <= r < top <= hi <= HEIGHT
    requires forall y :: r < y < top ==> !Filled(g, y, x)
    requires top < HEIGHT ==> Filled(g, top, x)
    requires forall y :: top < y < HEIGHT ==> Filled(g, y, x) == Filled(f, y, x)
    ensures ColumnHoles(g, x, r, hi) == ColumnHoles(f, x, top, hi) + (top - r - 1)
    decreases hi
  {
    if hi == top {
      EmptyRunHoles(g, x, r, top);
    } else {
      RaisedColumnHoles(f, g, x, r, top, hi - 1);
    }
  }

  /**
    Occupying a cell above the top of column x moves that column's top up to
    row r and turns the top - r - 1 empty cells in between into holes; the
    other columns are unchanged.
  */
  lemma ColumnAfterAddCellAbove(f: Field, r: int, x: int, x2: int)
    requires 0 <= x < WIDTH && 0 <= x2 < WIDTH && 0 <= r < ColumnHeight(f, x)
    ensures var g := AddCell(f, r, x);
      && ColumnHeight(g, x2) == (if x2 == x then r else ColumnHeight(f, x2))
      && ColumnHoles(g, x2, ColumnHeight(g, x2), HEIGHT)
         == ColumnHoles(f, x2, ColumnHeight(f, x2), HEIGHT) + (if x2 == x then ColumnHeight(f, x) - r - 1 else 0)
  {
    var g := AddCell(f, r, x);
    var top := ColumnHeight(f, x2);
    forall y | 0 <= y < HEIGHT
      ensures Filled(g, y, x2) == (Filled(f, y, x2) || (y == r && x2 == x))
    {
      AddCellFilled(f, r, x, y, x2);
    }
    if x2 == x {
      ColumnHeightIs(g, x, r);
      RaisedColumnHoles(f, g, x, r, top, HEIGHT);
    } else {
      ColumnHeightIs(g, x2, top);
      SameCellsSameHoles(f, g, x2, top, HEIGHT);
    }
  }

  lemma {:induction false} HoleCountAfterAddCellAbove(f: Field, r: int, x: int, n: nat)
    requires 0 <= x < WIDTH && 0 <= r < ColumnHeight(f, x) && n <= WIDTH
    ensures var g := AddCell(f, r, x);
      HoleCount(g, Heights(g), n) == HoleCount(f, Heights(f), n) + (if x < n then ColumnHeight(f, x) - r - 1 else 0)
  {
    if n > 0 {
      HoleCountAfterAddCellAbove(f, r, x, n - 1);
      ColumnAfterAddCellAbove(f, r, x, n - 1);
    }
  }

  /**
    Occupying an empty cell above a column's top (in particular, above every
    hole of that column) never lowers the hole count: it grows by the number
    of empty cells between the new cell and the old top.
  */
  lemma AddCellAboveTopAddsHoles(f: Field, r: int, x: int)
    requires 0 <= x < WIDTH && 0 <= r < ColumnHeight(f, x)
    ensures var g := AddCell(f, r, x);
      && HoleCount(g, Heights(g), WIDTH) == HoleCount(f, Heights(f), WIDTH) + (ColumnHeight(f, x) - r - 1)
      && HoleCount(g, Heights(g), WIDTH) >= HoleCount(f, Heights(f), WIDTH)
  {
    HoleCountAfterAddCellAbove(f, r, x, WIDTH);
  }

  /**
    Counting below a fixed top row, filling an empty cell under that row
    removes exactly that one empty cell from the count.
  */
  lemma {:induction false} FillingAHoleRemovesIt(f: Field, r: int, x: int, top: int, hi: int)
    requires 0 <= x < WIDTH && 0 <= top < r < HEIGHT && hi <= HEIGHT && !Filled(f, r, x)
    ensures ColumnHoles(AddCell(f, r, x), x, top, hi) == ColumnHoles(f, x, top, hi) - (if r < hi then 1 else 0)
    decreases hi - top
  {
    if hi > top + 1 {
      FillingAHoleRemovesIt(f, r, x, top, hi - 1);
      AddCellFilled(f, r, x, hi - 1, x);
      ColumnHolesAreEmptyCells(f, x, top, hi - 1);
      if r < hi - 1 {
        assert r in EmptyCells(f, x, top, hi - 1);
      }
    }
  }

  /**
    Filling an empty cell below the top of column x keeps every column's top
    where it was; column x loses that one hole and the others are unchanged.
  */
  lemma ColumnAfterFillingAHole(f: Field, r: int, x: int, x2: int)
    requires 0 <= x < WIDTH && 0 <= x2 < WIDTH && ColumnHeight(f, x) < r < HEIGHT && !Filled(f, r, x)
    ensures var g := AddCell(f, r, x);
      && ColumnHeight(g, x2) == ColumnHeight(f, x2)
      && ColumnHoles(g, x2, ColumnHeight(g, x2), HEIGHT)
         == ColumnHoles(f, x2, ColumnHeight(f, x2), HEIGHT) - (if x2 == x then 1 else 0)
  {
    var g := AddCell(f, r, x);
    var top := ColumnHeight(f, x2);
    forall y | 0 <= y < HEIGHT
      ensures Filled(g, y, x2) == (Filled(f, y, x2) || (y == r && x2 == x))
    {
      AddCellFilled(f, r, x, y, x2);
    }
    ColumnHeightIs(g, x2, top);
    if x2 == x {
      FillingAHoleRemovesIt(f, r, x, top, HEIGHT);
    } else {
      SameCellsSameHoles(f, g, x2, top, HEIGHT);
    }
  }

  lemma {:induction false} HoleCountAfterFillingAHole(f: Field, r: int, x: int, n: nat)
    requires 0 <= x < WIDTH && ColumnHeight(f, x) < r < HEIGHT && !Filled(f, r, x) && n <= WIDTH
    ensures var g := AddCell(f, r, x);
      HoleCount(g, Heights(g), n) == HoleCount(f, Heights(f), n) - (if x < n then 1 else 0)
  {
    if n > 0 {
      HoleCountAfterFillingAHole(f, r, x, n - 1);
      ColumnAfterFillingAHole(f, r, x, n - 1);
    }
  }

  /** Filling a hole lowers the board's hole count by exactly one. */
  lemma FillingAHoleLowersTheCount(f: Field, r: int, x: int)
    requires 0 <= x < WIDTH && ColumnHeight(f, x) < r < HEIGHT && !Filled(f, r, x)
    ensures var g := AddCell(f, r, x);
      HoleCount(g, Heights(g), WIDTH) == HoleCount(f, Heights(f), WIDTH) - 1
  {
    HoleCountAfterFillingAHole(f, r, x, WIDTH);
  }

  /**
    A column with its top at row 10, empty rows 11 and 12, and rows 13 to 19
    occupied; every other column empty.
  */
  const TWO_HOLE_FIELD: Field := seq(HEIGHT, y => if y == 10 || y >= 13 then 1 else 0)

  /**
    Occupying a cell above an existing hole, without filling that hole, can
    lower the hole count: on TWO_HOLE_FIELD, occupying row 11 (itself a hole)
    leaves the hole at row 12 open and takes the count from 2 to 1.
  */
  lemma FillingAboveAHoleCanLowerTheCount()
    ensures ColumnHeight(TWO_HOLE_FIELD, 0) == 10 && !Filled(TWO_HOLE_FIELD, 12, 0)
    ensures HoleCount(TWO_HOLE_FIELD, Heights(TWO_HOLE_FIELD), WIDTH) == 2
    ensures var g := AddCell(TWO_HOLE_FIELD, 11, 0);
      !Filled(g, 12, 0) && HoleCount(g, Heights(g), WIDTH) == 1
  {
    var f := TWO_HOLE_FIELD;
    var g := AddCell(f, 11, 0);
    ColumnHeightIs(f, 0, 10);
    forall x | 1 <= x < WIDTH
      ensures ColumnHeight(f, x) == HEIGHT && ColumnHeight(g, x) == HEIGHT
    {
      OnlyColumnZero(x);
      assert forall y :: 0 <= y < HEIGHT ==> f[y] == 0 || f[y] == 1;
      ColumnHeightIs(f, x, HEIGHT);
      forall y | 0 <= y < HEIGHT
        ensures !Filled(g, y, x)
      {
        AddCellFilled(f, 11, 0, y, x);
      }
      ColumnHeightIs(g, x, HEIGHT);
    }
    ColumnHolesAreEmptyCells(f, 0, 10, HEIGHT);
    assert EmptyCells(f, 0, 10, HEIGHT) == {11, 12};
    FillingAHoleRemovesIt(f, 11, 0, 10, HEIGHT);
    AddCellFilled(f, 11, 0, 12, 0);
    AddCellFilled(f, 11, 0, 10, 0);
    forall y | 0 <= y < 10
      ensures !Filled(g, y, 0)
    {
      AddCellFilled(f, 11, 0, y, 0);
    }
    ColumnHeightIs(g, 0, 10);
    OnlyFirstColumnHasHoles(f, Heights(f), WIDTH);
    OnlyFirstColumnHasHoles(g, Heights(g), WIDTH);
  }

  lemma OnlyColumnZero(x: int)
    requires 0 < x < WIDTH
    ensures (1 as Row) & (1 << x) == 0
  {
    if x == 1 {} else if x == 2 {} else if x == 3 {} else if x == 4 {}
    else if x == 5 {} else if x == 6 {} else if x == 7 {} else if x == 8 {} else {}
  }

  lemma {:induction false} OnlyFirstColumnHasHoles(f: Field, h: seq<int>, n: nat)
    requires ValidHeights(h) && 1 <= n <= WIDTH
    requires forall x :: 1 <= x < WIDTH ==> h[x] == HEIGHT
    ensures HoleCount(f, h, n) == ColumnHoles(f, 0, h[0], HEIGHT)
  {
    if n > 1 {
      OnlyFirstColumnHasHoles(f, h, n - 1);
    }
  }

  // ---------------------------------------------------------------------
  // Mode switch on flat boards
  // ---------------------------------------------------------------------

  /** A full row: the ten columns occupied. */
  const FULL_ROW: Row := 0x3FF

  /** A flat board: rows 0 .. k-1 empty, rows k .. 19 full. */
  function FlatField(k: int): Field {
    seq(HEIGHT, y => if y < k then 0 else FULL_ROW)
  }

  lemma FullRowFilled(x: int)
    requires 0 <= x < WIDTH
    ensures FULL_ROW & (1 << x) != 0
  {
    if x == 0 {} else if x == 1 {} else if x == 2 {} else if x == 3 {} else if x == 4 {}
    else if x == 5 {} else if x == 6 {} else if x == 7 {} else if x == 8 {} else {}
  }

  lemma FlatFieldHeights(k: int)
    requires 0 <= k <= HEIGHT
    ensures Heights(FlatField(k)) == seq(WIDTH, _ => k)
  {
    var f := FlatField(k);
    forall x | 0 <= x < WIDTH
      ensures ColumnHeight(f, x) == k
    {
      FullRowFilled(x);
      ColumnHeightIs(f, x, k);
    }
  }

  lemma {:induction false} SumToConst(k: int, n: nat)
    requires n <= WIDTH
    ensures SumTo(seq(WIDTH, _ => k), n) == n * k
  {
    if n > 0 {
      SumToConst(k, n - 1);
    }
  }

  lemma {:induction false} FlatFieldHasNoHoles(k: int, n: nat)
    requires 0 <= k <= HEIGHT && n <= WIDTH
    ensures HoleCount(FlatField(k), seq(WIDTH, _ => k), n) == 0
  {
    if n > 0 {
      FlatFieldHasNoHoles(k, n - 1);
      var f := FlatField(k);
      ColumnHolesAreEmptyCells(f, n - 1, k, HEIGHT);
      FullRowFilled(n - 1);
      assert EmptyCells(f, n - 1, k, HEIGHT) == {};
    }
  }

  /**
    On a flat, hole-free board with every column at row k the downstack
    profile (and its penalty) is chosen exactly when k < 6: k = 6, a stack of
    exactly 14 rows, is normal; k = 5 is downstack.
  */
  lemma FlatFieldMode(k: int)
    requires 0 <= k <= HEIGHT
    ensures var h := Heights(FlatField(k));
      HoleCount(FlatField(k), h, WIDTH) == 0 && (UsesDownstack(Sum(h), HoleCount(FlatField(k), h, WIDTH)) <==> k < 6)
  {
    FlatFieldHeights(k);
    SumToConst(k, WIDTH);
    FlatFieldHasNoHoles(k, WIDTH);
  }

  // ---------------------------------------------------------------------
  // Well
  // ---------------------------------------------------------------------

  lemma {:induction false} SumToAtLeastEach(h: seq<int>, n: nat, x: int)
    requires n <= |h| && 0 <= x < n
    requires forall i :: 0 <= i < |h| ==> h[i] >= 0
    ensures SumTo(h, n) >= h[x]
  {
    if x < n - 1 {
      SumToAtLeastEach(h, n - 1, x);
    } else if n > 1 {
      SumToNonNegative(h, n - 1);
    }
  }

  lemma {:induction false} SumToNonNegative(h: seq<int>, n: nat)
    requires n <= |h|
    requires forall i :: 0 <= i < |h| ==> h[i] >= 0
    ensures SumTo(h, n) >= 0
  {
    if n > 0 {
      SumToNonNegative(h, n - 1);
    }
  }

  /**
    Under the downstack profile (threshold 20) no column can be a well: a
    well needs h[x] - sum/10 >= 20, but sum >= h[x] and h[x] <= 20.
  */
  lemma NoWellUnderDownstack(h: seq<int>)
    requires ValidHeights(h)
    ensures WellOf(h, Sum(h), FACTORS_DS.wellThreshold) == Option.None
  {
    forall x | 0 <= x < WIDTH
      ensures !IsWellCandidate(h, Sum(h), FACTORS_DS.wellThreshold, x)
    {
      SumToAtLeastEach(h, WIDTH, x);
    }
  }

  // ---------------------------------------------------------------------
  // Deviations leave the well out
  // ---------------------------------------------------------------------

  /** The global deviation sum does not depend on the well column's height. */
  lemma {:induction false} GlobalDeviationIgnoresWell(h: seq<int>, h2: seq<int>, avg: real, w: int, n: nat)
    requires |h| == |h2| && n <= |h|
    requires forall x :: 0 <= x < |h| && x != w ==> h[x] == h2[x]
    ensures GlobalDeviationSum(h, avg, Some(w), n) == GlobalDeviationSum(h2, avg, Some(w), n)
  {
    if n > 0 {
      GlobalDeviationIgnoresWell(h, h2, avg, w, n - 1);
    }
  }

  /** The local deviation sum does not depend on the well column's height. */
  lemma {:induction false} LocalDeviationIgnoresWell(h: seq<int>, h2: seq<int>, w: int, n: nat)
    requires |h| == |h2| && n <= |h|
    requires forall x :: 0 <= x < |h| && x != w ==> h[x] == h2[x]
    ensures LocalDeviationSum(h, Some(w), n) == LocalDeviationSum(h2, Some(w), n)
  {
    if n > 1 {
      LocalDeviationIgnoresWell(h, h2, w, n - 1);
    }
  }

  // ---------------------------------------------------------------------
  // Offence
  // ---------------------------------------------------------------------

  /** The offence term under each profile, with the weights multiplied out. */
  lemma OffenseByProfile(p: Props)
    ensures OffenseTerm(p, WEIGHTS_NORM) == 90.0 * p.sumAtk as real - 35.0 * p.sumDs as real + 35.0 * p.atk as real + 10.0 * p.ds as real
    ensures OffenseTerm(p, WEIGHTS_DS) == 50.0 * p.sumAtk as real + 300.0 * p.sumDs as real + 30.0 * p.ds as real
  {
  }

  // ---------------------------------------------------------------------
  // Reference boards
  // ---------------------------------------------------------------------

  /** Columns whose top is on the bottom row or below it have no cell under the top. */
  lemma {:induction false} ShallowColumnsHaveNoHoles(f: Field, h: seq<int>, n: nat)
    requires ValidHeights(h) && n <= WIDTH
    requires forall x :: 0 <= x < WIDTH ==> h[x] >= HEIGHT - 1
    ensures HoleCount(f, h, n) == 0 && HoleDepthSumSq(f, h, n) == 0
  {
    if n > 0 {
      ShallowColumnsHaveNoHoles(f, h, n - 1);
    }
  }

  /** Changing one height changes the sum by the difference. */
  lemma {:induction false} SumToUpdate(h: seq<int>, x: int, v: int, n: nat)
    requires 0 <= x < |h| && n <= |h|
    ensures SumTo(h[x := v], n) == SumTo(h, n) + (if x < n then v - h[x] else 0)
  {
    if n > 0 {
      SumToUpdate(h, x, v, n - 1);
    }
  }

  /** Deviation sums of a board whose columns 1 .. n-1 all stand at height c. */
  lemma {:induction false} DeviationsOfLevelTail(h: seq<int>, avg: real, c: int, n: nat)
    requires 1 <= n <= |h|
    requires forall x :: 1 <= x < |h| ==> h[x] == c
    ensures GlobalDeviationSum(h, avg, Option.None, n) == Sq(avg - h[0] as real) + (n - 1) as real * Sq(avg - c as real)
    ensures n >= 2 ==> LocalDeviationSum(h, Option.None, n) == (h[1] - h[0]) * (h[1] - h[0])
  {
    if n > 1 {
      DeviationsOfLevelTail(h, avg, c, n - 1);
    }
  }

  const NO_PROPS: Props := Props(0, 0, 0, 0, 0, 0)

  /**
    The empty board with zero counters: every column at 20, no holes, the
    normal profile, no well, and a score of -10 * (0 - 5)^2 = -250.
  */
  lemma EmptyFieldScore()
    ensures Heights(EMPTY_FIELD) == seq(WIDTH, _ => HEIGHT)
    ensures Score(EMPTY_FIELD, NO_PROPS) == -250.0
  {
    FlatFieldHeights(HEIGHT);
    assert FlatField(HEIGHT) == EMPTY_FIELD;
    var h := Heights(EMPTY_FIELD);
    ShallowColumnsHaveNoHoles(EMPTY_FIELD, h, WIDTH);
    SumToConst(HEIGHT, WIDTH);
    assert forall x :: 0 <= x < WIDTH ==> !IsWellCandidate(h, 200, FACTORS_NORM.wellThreshold, x);
    assert AverageHeight(h, Option.None) == 20.0;
    DeviationsOfLevelTail(h, 20.0, 20, WIDTH);
    ScoreUnfold(EMPTY_FIELD, NO_PROPS, h, 0, 0, false, Option.None, 20.0);
  }

  /** One occupied cell, in the bottom row of column 0. */
  const SINGLE_CELL_FIELD: Field := EMPTY_FIELD[HEIGHT - 1 := 1]

  /**
    The board with a single occupied cell at the bottom of column 0: column 0
    at 19, the others at 20, no holes, the normal profile and NO well (no
    column lies 4 rows below the average 19.9). The score is
    -10 * 4.9^2 - 0.9 - 5 * 1 = -246.
  */
  lemma SingleCellScore()
    ensures Heights(SINGLE_CELL_FIELD) == seq(WIDTH, x => if x == 0 then 19 else 20)
    ensures WellOf(Heights(SINGLE_CELL_FIELD), 199, FACTORS_NORM.wellThreshold) == Option.None
    ensures Score(SINGLE_CELL_FIELD, NO_PROPS) == -246.0
  {
    var f := SINGLE_CELL_FIELD;
    SingleCellHeights();
    var h := Heights(f);
    SingleCellSum();
    ShallowColumnsHaveNoHoles(f, h, WIDTH);
    assert forall x :: 0 <= x < WIDTH ==> !IsWellCandidate(h, 199, FACTORS_NORM.wellThreshold, x);
    assert AverageHeight(h, Option.None) == 19.9;
    DeviationsOfLevelTail(h, 19.9, 20, WIDTH);
    ScoreUnfold(f, NO_PROPS, h, 0, 0, false, Option.None, 19.9);
  }

  /** Column 0 of the single-cell board stands at 19, every other column at 20. */
  lemma SingleCellHeights()
    ensures Heights(SINGLE_CELL_FIELD) == seq(WIDTH, x => if x == 0 then 19 else 20)
  {
    var f := SINGLE_CELL_FIELD;
    forall x | 0 <= x < WIDTH
      ensures ColumnHeight(f, x) == if x == 0 then 19 else 20
    {
      if x == 0 {
        ColumnHeightIs(f, x, 19);
      } else {
        SingleCellOnlyInColumnZero(x);
        ColumnHeightIs(f, x, 20);
      }
    }
  }

  lemma SingleCellSum()
    ensures Sum(seq(WIDTH, x => if x == 0 then 19 else 20)) == 199
  {
    var flat := seq(WIDTH, _ => HEIGHT);
    assert seq(WIDTH, x => if x == 0 then 19 else 20) == flat[0 := 19];
    SumToConst(HEIGHT, WIDTH);
    SumToUpdate(flat, 0, 19, WIDTH);
  }

  lemma SingleCellOnlyInColumnZero(x: int)
    requires 0 < x < WIDTH
    ensures forall y :: 0 <= y < HEIGHT ==> !Filled(SINGLE_CELL_FIELD, y, x)
  {
    OnlyColumnZero(x);
  }
}
