/**
  Properties of the placement enumerator: the first-wins map keeps exactly
  the fields that occur, each with the first move that produced it, and only
  grows as entries are appended; every recorded placement comes from a
  successful Left or Right shift followed by a hard drop; and the outcome
  does not depend on the Ccw key or on the success flags of Hold, the
  rotations and the hard drop.
*/
module GenMovesProperties {
  import opened Board
  import opened GenMoves

  /** The fields that occur in a sequence of entries. */
  ghost function FieldsOf(t: seq<Entry>): set<Field> {
    set e | e in t :: e.0
  }

  /** The keys of the first-wins map are exactly the fields that occur in the entries. */
  lemma {:induction false} FirstWinsKeys(t: seq<Entry>)
    ensures FirstWins(t).Keys == FieldsOf(t)
  {
    if t != [] {
      var front := t[..|t| - 1];
      FirstWinsKeys(front);
      assert t == front + [t[|t| - 1]];
      assert FieldsOf(t) == FieldsOf(front) + {t[|t| - 1].0};
    }
  }

  /** An entry whose field has not occurred earlier is the one the map keeps. */
  lemma {:induction false} FirstWinsKeepsFirst(t: seq<Entry>, i: int)
    requires 0 <= i < |t|
    requires forall k :: 0 <= k < i ==> t[k].0 != t[i].0
    ensures t[i].0 in FirstWins(t) && FirstWins(t)[t[i].0] == t[i].1
  {
    var front := t[..|t| - 1];
    if i == |t| - 1 {
      FirstWinsKeys(front);
      assert t[i].0 !in FieldsOf(front);
    } else {
      FirstWinsKeepsFirst(front, i);
    }
  }

  /**
    Conversely, every key of the map is bound to the move of the first entry
    with that field.
  */
  lemma {:induction false} FirstWinsIsFirstOccurrence(t: seq<Entry>, f: Field)
    requires f in FirstWins(t)
    ensures exists i :: 0 <= i < |t| && t[i] == (f, FirstWins(t)[f]) && forall k :: 0 <= k < i ==> t[k].0 != f
  {
    var front := t[..|t| - 1];
    var e := t[|t| - 1];
    if f in FirstWins(front) {
      FirstWinsIsFirstOccurrence(front, f);
      var i :| 0 <= i < |front| && front[i] == (f, FirstWins(front)[f]) && forall k :: 0 <= k < i ==> front[k].0 != f;
      assert t[i] == front[i];
      assert forall k :: 0 <= k < i ==> t[k] == front[k];
    } else {
      FirstWinsKeys(front);
      assert e == (f, FirstWins(t)[f]);
      var i := |t| - 1;
      forall k | 0 <= k < i
        ensures t[k].0 != f
      {
        assert front[k] in front;
      }
      assert t[i] == (f, FirstWins(t)[f]);
    }
  }

  /**
    Appending entries never removes a key nor rebinds one, so the map only
    grows.
  */
  lemma {:induction false} FirstWinsExtends(t: seq<Entry>, u: seq<Entry>)
    ensures forall f :: f in FirstWins(t) ==> f in FirstWins(t + u) && FirstWins(t + u)[f] == FirstWins(t)[f]
    ensures |FirstWins(t)| <= |FirstWins(t + u)|
  {
    if u == [] {
      assert t + u == t;
    } else {
      var front := u[..|u| - 1];
      FirstWinsExtends(t, front);
      assert (t + u)[..|t + u| - 1] == t + front;
      assert FirstWins(t).Keys <= FirstWins(t + u).Keys;
      SubsetCard(FirstWins(t).Keys, FirstWins(t + u).Keys);
    }
  }

  lemma SubsetCard(a: set<Field>, b: set<Field>)
    requires a <= b
    ensures |a| <= |b|
  {
    assert b == a + (b - a);
  }

  /**
    An entry that a successful Left or Right shift from some move m, followed
    by a hard drop, records: the hard-dropped move and the field it produces.
  */
  ghost predicate FromShift(c: Context, e: Entry) {
    exists m: Move, d: Key {:trigger Apply(c, m, d)} ::
      && (d == Left || d == Right)
      && Apply(c, m, d).0
      && e.1 == Apply(c, Apply(c, m, d).1, HardDrop).1
      && e.0 == Place(c, e.1)
  }

  lemma {:induction false} SweepFromEntriesFromShifts(c: Context, d: Key, m: Move, acc: seq<Entry>)
    requires ShiftsStayOnBoard(c) && (d == Left || d == Right)
    ensures forall e :: e in SweepFrom(c, d, m, acc).0 ==> e in acc || FromShift(c, e)
    decreases Room(d, m)
  {
    var shift := Apply(c, m, d);
    if shift.0 {
      var dropped := Apply(c, shift.1, HardDrop).1;
      var entry := (Place(c, dropped), dropped);
      assert FromShift(c, entry);
      SweepFromEntriesFromShifts(c, d, dropped.(y := 1), acc + [entry]);
    }
  }

  lemma {:induction false} DirectionSweepsFromShifts(c: Context, m: Move, j: nat)
    requires ShiftsStayOnBoard(c) && j <= |DIRECTIONS|
    ensures forall e :: e in DirectionSweeps(c, m, j).0 ==> FromShift(c, e)
  {
    if j > 0 {
      DirectionSweepsFromShifts(c, m, j - 1);
      var prev := DirectionSweeps(c, m, j - 1);
      SweepFromEntriesFromShifts(c, DIRECTIONS[j - 1], prev.1, []);
    }
  }

  lemma {:induction false} RotationTraceFromShifts(c: Context, h: bool, n: nat)
    requires ShiftsStayOnBoard(c)
    ensures forall e :: e in RotationTrace(c, h, n) ==> FromShift(c, e)
  {
    if n > 0 {
      RotationTraceFromShifts(c, h, n - 1);
      DirectionSweepsFromShifts(c, BaseMove(c, h, n - 1), |DIRECTIONS|);
    }
  }

  lemma {:induction false} HoldTraceFromShifts(c: Context, k: nat)
    requires ShiftsStayOnBoard(c) && k <= |HOLD_CHOICES|
    ensures forall e :: e in HoldTrace(c, k) ==> FromShift(c, e)
  {
    if k > 0 {
      HoldTraceFromShifts(c, k - 1);
      RotationTraceFromShifts(c, HOLD_CHOICES[k - 1], ROTATIONS_TRIED);
    }
  }

  /**
    Every field the enumerator returns, together with its move, was recorded
    after a successful Left or Right shift: failed shifts add nothing.
  */
  lemma GeneratedPlacementsFromShifts(c: Context, f: Field)
    requires ShiftsStayOnBoard(c)
    requires f in FirstWins(Trace(c))
    ensures FromShift(c, (f, FirstWins(Trace(c))[f]))
  {
    HoldTraceFromShifts(c, |HOLD_CHOICES|);
    FirstWinsIsFirstOccurrence(Trace(c), f);
  }

  /**
    Two contexts that agree on the starting move, the placement, the Left and
    Right shifts, and on the moves (not the success flags) that Hold, Cw,
    Rot180 and HardDrop leave behind. Nothing is said about Ccw.
  */
  ghost predicate AgreeOnUsedKeys(c1: Context, c2: Context) {
    && c1.newMove == c2.newMove
    && (forall m: Move :: Place(c1, m) == Place(c2, m))
    && (forall m: Move, k: Key {:trigger Apply(c1, m, k)} {:trigger Apply(c2, m, k)} ::
          (k == Left || k == Right) ==> Apply(c1, m, k) == Apply(c2, m, k))
    && (forall m: Move, k: Key {:trigger Apply(c1, m, k)} {:trigger Apply(c2, m, k)} ::
          (k == Hold || k == Cw || k == Rot180 || k == HardDrop) ==> Apply(c1, m, k).1 == Apply(c2, m, k).1)
  }

  lemma {:induction false} SweepFromAgrees(c1: Context, c2: Context, d: Key, m: Move, acc: seq<Entry>)
    requires ShiftsStayOnBoard(c1) && ShiftsStayOnBoard(c2) && AgreeOnUsedKeys(c1, c2)
    requires d == Left || d == Right
    ensures SweepFrom(c1, d, m, acc) == SweepFrom(c2, d, m, acc)
    decreases Room(d, m)
  {
    assert Apply(c1, m, d) == Apply(c2, m, d);
    var shift := Apply(c1, m, d);
    if shift.0 {
      var dropped := Apply(c1, shift.1, HardDrop).1;
      assert dropped == Apply(c2, shift.1, HardDrop).1;
      assert Place(c1, dropped) == Place(c2, dropped);
      SweepFromAgrees(c1, c2, d, dropped.(y := 1), acc + [(Place(c1, dropped), dropped)]);
    }
  }

  lemma {:induction false} DirectionSweepsAgree(c1: Context, c2: Context, m: Move, j: nat)
    requires ShiftsStayOnBoard(c1) && ShiftsStayOnBoard(c2) && AgreeOnUsedKeys(c1, c2)
    requires j <= |DIRECTIONS|
    ensures DirectionSweeps(c1, m, j) == DirectionSweeps(c2, m, j)
  {
    if j > 0 {
      DirectionSweepsAgree(c1, c2, m, j - 1);
      SweepFromAgrees(c1, c2, DIRECTIONS[j - 1], DirectionSweeps(c1, m, j - 1).1, []);
    }
  }

  lemma BaseMoveAgrees(c1: Context, c2: Context, h: bool, r: nat)
    requires AgreeOnUsedKeys(c1, c2) && r < ROTATIONS_TRIED
    ensures BaseMove(c1, h, r) == BaseMove(c2, h, r)
  {
    var m1 := if h then Apply(c1, c1.newMove, Hold).1 else c1.newMove;
    var m2 := if h then Apply(c2, c2.newMove, Hold).1 else c2.newMove;
    assert m1 == m2;
    if r == 1 {
      assert Apply(c1, m1, Cw).1 == Apply(c2, m1, Cw).1;
    } else if r == 2 {
      assert Apply(c1, m1, Rot180).1 == Apply(c2, m1, Rot180).1;
    }
  }

  lemma {:induction false} RotationTraceAgrees(c1: Context, c2: Context, h: bool, n: nat)
    requires ShiftsStayOnBoard(c1) && ShiftsStayOnBoard(c2) && AgreeOnUsedKeys(c1, c2)
    requires n <= ROTATIONS_TRIED
    ensures RotationTrace(c1, h, n) == RotationTrace(c2, h, n)
  {
    if n > 0 {
      RotationTraceAgrees(c1, c2, h, n - 1);
      BaseMoveAgrees(c1, c2, h, n - 1);
      DirectionSweepsAgree(c1, c2, BaseMove(c1, h, n - 1), |DIRECTIONS|);
    }
  }

  lemma {:induction false} HoldTraceAgrees(c1: Context, c2: Context, k: nat)
    requires ShiftsStayOnBoard(c1) && ShiftsStayOnBoard(c2) && AgreeOnUsedKeys(c1, c2)
    requires k <= |HOLD_CHOICES|
    ensures HoldTrace(c1, k) == HoldTrace(c2, k)
  {
    if k > 0 {
      HoldTraceAgrees(c1, c2, k - 1);
      RotationTraceAgrees(c1, c2, HOLD_CHOICES[k - 1], ROTATIONS_TRIED);
    }
  }

  /**
    The enumerator never uses Ccw and ignores whether Hold, a rotation or the
    hard drop succeeded: contexts that differ only there yield the same map.
  */
  lemma GeneratedMovesIgnoreCcwAndFlags(c1: Context, c2: Context)
    requires ShiftsStayOnBoard(c1) && ShiftsStayOnBoard(c2) && AgreeOnUsedKeys(c1, c2)
    ensures FirstWins(Trace(c1)) == FirstWins(Trace(c2))
  {
    HoldTraceAgrees(c1, c2, |HOLD_CHOICES|);
  }
}
