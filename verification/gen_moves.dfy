/**
  The placement enumerator: for each hold choice and each rotation tried, it
  slides the piece left as far as it goes and then right as far as it goes,
  hard-drops after every successful shift, and records the resulting field in
  a map the first time that field appears.

  The move and field operations it calls are not part of this model: they are
  the function-valued fields of `Rules`, and the only facts assumed about them
  are those of `ShiftsStayOnBoard`.
*/
module GenMoves {
  import opened Board

  /**
    The collaborators: `Move::new`, `Move::apply_key` (success flag and the
    move it leaves behind) and `Field::apply_move`.
  */
  datatype Rules = Rules(
    newMove: Move,
    applyKey: (Move, Key, Field, Piece, Piece) -> (bool, Move),
    applyMove: (Field, Move, Piece, Piece) -> Field)

  /**
    The collaborators fixed to one field, active piece and hold piece: the
    starting move, the key application and the placement.
  */
  datatype Context = Context(newMove: Move, key: (Move, Key) -> (bool, Move), place: Move -> Field)

  /** One recorded outcome: the resulting field and the hard-dropped move that produced it. */
  type Entry = (Field, Move)

  const HOLD_CHOICES: seq<bool> := [false, true]
  /** Rotation choices r in 0..3: none, Cw, 180 (the Ccw choice 3 is never reached). */
  const ROTATIONS_TRIED: nat := 3
  const DIRECTIONS: seq<Key> := [Left, Right]
  /** 2 hold choices x 3 rotations x 2 directions x at most WIDTH successful shifts. */
  const MAX_PLACEMENTS: nat := 2 * 3 * 2 * WIDTH

  function Apply(c: Context, m: Move, k: Key): (bool, Move) {
    c.key(m, k)
  }

  function Place(c: Context, m: Move): Field {
    c.place(m)
  }

  /**
    What the enumerator relies on for termination: a successful Left or Right
    moves the piece strictly in its direction to a column 0 .. WIDTH-1, and a
    hard drop does not move it horizontally.
  */
  ghost predicate ShiftsStayOnBoard(c: Context) {
    && (forall m: Move, d: Key {:trigger Apply(c, m, d)} ::
          (d == Left || d == Right) && Apply(c, m, d).0 ==>
            && 0 <= Apply(c, m, d).1.x < WIDTH
            && (d == Left ==> Apply(c, m, d).1.x < m.x)
            && (d == Right ==> Apply(c, m, d).1.x > m.x))
    && (forall m: Move :: Apply(c, m, HardDrop).1.x == m.x)
  }

  /** The number of successful shifts still possible in direction d from m. */
  function Room(d: Key, m: Move): nat {
    if d == Left then (if 0 <= m.x <= WIDTH then m.x else WIDTH)
    else (if -1 <= m.x < WIDTH then WIDTH - 1 - m.x else WIDTH)
  }

  /**
    One direction's sweep from m, appending to acc: the entries recorded, in
    order, and the move left behind by the first failing shift. After a
    successful shift the piece is hard-dropped, the entry recorded, and only
    `y` is reset to 1 before the next shift.
  */
  function SweepFrom(c: Context, d: Key, m: Move, acc: seq<Entry>): (r: (seq<Entry>, Move))
    requires ShiftsStayOnBoard(c) && (d == Left || d == Right)
    ensures |r.0| <= |acc| + Room(d, m)
    decreases Room(d, m)
  {
    var shift := Apply(c, m, d);
    if !shift.0 then (acc, shift.1)
    else
      var dropped := Apply(c, shift.1, HardDrop).1;
      SweepFrom(c, d, dropped.(y := 1), acc + [(Place(c, dropped), dropped)])
  }

  /** One direction's sweep from m, with nothing recorded before it. */
  function Sweep(c: Context, d: Key, m: Move): (r: (seq<Entry>, Move))
    requires ShiftsStayOnBoard(c) && (d == Left || d == Right)
    ensures |r.0| <= WIDTH
  {
    SweepFrom(c, d, m, [])
  }

  /** The move a branch starts from: Move::new, then Hold if chosen, then the rotation key of r. */
  function BaseMove(c: Context, h: bool, r: int): Move {
    var m := c.newMove;
    var m := if h then Apply(c, m, Hold).1 else m;
    if r == 1 then Apply(c, m, Cw).1
    else if r == 2 then Apply(c, m, Rot180).1
    else if r == 3 then Apply(c, m, Ccw).1
    else m
  }

  /**
    The sweeps of the first j directions from m; each sweep starts from the
    move the previous one left behind.
  */
  function DirectionSweeps(c: Context, m: Move, j: nat): (r: (seq<Entry>, Move))
    requires ShiftsStayOnBoard(c) && j <= |DIRECTIONS|
    ensures |r.0| <= j * WIDTH
  {
    if j == 0 then ([], m)
    else
      var prev := DirectionSweeps(c, m, j - 1);
      var s := Sweep(c, DIRECTIONS[j - 1], prev.1);
      (prev.0 + s.0, s.1)
  }

  function BranchTrace(c: Context, h: bool, r: int): seq<Entry>
    requires ShiftsStayOnBoard(c)
  {
    DirectionSweeps(c, BaseMove(c, h, r), |DIRECTIONS|).0
  }

  /** The entries of rotation choices 0 .. n-1 under hold choice h. */
  function RotationTrace(c: Context, h: bool, n: nat): (t: seq<Entry>)
    requires ShiftsStayOnBoard(c)
    ensures |t| <= n * 2 * WIDTH
  {
    if n == 0 then [] else RotationTrace(c, h, n - 1) + BranchTrace(c, h, n - 1)
  }

  /** The entries of the first k hold choices. */
  function HoldTrace(c: Context, k: nat): (t: seq<Entry>)
    requires ShiftsStayOnBoard(c) && k <= |HOLD_CHOICES|
    ensures |t| <= k * ROTATIONS_TRIED * 2 * WIDTH
  {
    if k == 0 then [] else HoldTrace(c, k - 1) + RotationTrace(c, HOLD_CHOICES[k - 1], ROTATIONS_TRIED)
  }

  /** Every entry the enumerator produces, in the order it produces them. */
  function Trace(c: Context): seq<Entry>
    requires ShiftsStayOnBoard(c)
  {
    HoldTrace(c, |HOLD_CHOICES|)
  }

  /** The map built by inserting the entries of t in order, keeping the first move seen for each field. */
  function FirstWins(t: seq<Entry>): (r: map<Field, Move>)
    ensures |r| <= |t|
  {
    if t == [] then map[]
    else
      var prev := FirstWins(t[..|t| - 1]);
      var e := t[|t| - 1];
      if e.0 in prev then prev
      else
        assert prev[e.0 := e.1].Keys == prev.Keys + {e.0};
        prev[e.0 := e.1]
  }

  predicate HoldAvailable(s: State) {
    s.hold != Piece.None || |s.pieces| >= 2
  }

  /** The piece a Hold brings in: the held piece, or the second queued piece when nothing is held. */
  function HoldPiece(s: State): Piece
    requires HoldAvailable(s)
  {
    if s.hold == Piece.None then s.pieces[1] else s.hold
  }

  function ContextOf(s: State, rules: Rules): Context
    requires s.pieces != [] && HoldAvailable(s)
  {
    var piece, hold := s.pieces[0], HoldPiece(s);
    Context(
      rules.newMove,
      (m, k) => rules.applyKey(m, k, s.field, piece, hold),
      m => rules.applyMove(s.field, m, piece, hold))
  }

  /**
    The inner `loop` of the enumerator: shift in direction d while the shift
    succeeds; after each successful shift hard-drop, compute the field, insert
    it unless it is already a key, and reset only `y` to 1.
  */
  method SweepDirection(c: Context, d: Key, m0: Move, hash0: map<Field, Move>, ghost done: seq<Entry>)
    returns (hash: map<Field, Move>, m: Move)
    requires ShiftsStayOnBoard(c) && (d == Left || d == Right)
    requires hash0 == FirstWins(done)
    ensures hash == FirstWins(done + Sweep(c, d, m0).0)
    ensures m == Sweep(c, d, m0).1
  {
    hash, m := hash0, m0;
    ghost var recorded: seq<Entry> := [];
    assert done + recorded == done;
    while true
      invariant SweepFrom(c, d, m, recorded) == Sweep(c, d, m0)
      invariant hash == FirstWins(done + recorded)
      decreases Room(d, m)
    {
      var (ok, shifted) := Apply(c, m, d);
      if ok {
        var (_, dropped) := Apply(c, shifted, HardDrop);
        var field := Place(c, dropped);
        FirstWinsSnoc(done + recorded, (field, dropped));
        if field !in hash {
          hash := hash[field := dropped];
        }
        AppendAssoc(done, recorded, [(field, dropped)]);
        recorded := recorded + [(field, dropped)];
        m := dropped.(y := 1);
      } else {
        m := shifted;
        break;
      }
    }
  }

  /** Appending an entry inserts it only when its field is not yet a key. */
  lemma FirstWinsSnoc(t: seq<Entry>, e: Entry)
    ensures FirstWins(t + [e]) == if e.0 in FirstWins(t) then FirstWins(t) else FirstWins(t)[e.0 := e.1]
  {
    assert (t + [e])[..|t + [e]| - 1] == t;
  }

  /**
    One hold x rotation branch of the enumerator: the Left sweep from the
    branch's base move, then the Right sweep from where the Left sweep stopped.
  */
  method SweepBranch(c: Context, base: Move, hash0: map<Field, Move>, ghost done0: seq<Entry>)
    returns (hash: map<Field, Move>)
    requires ShiftsStayOnBoard(c)
    requires hash0 == FirstWins(done0)
    ensures hash == FirstWins(done0 + DirectionSweeps(c, base, |DIRECTIONS|).0)
  {
    hash := hash0;
    var m := base;
    ghost var done := done0;
    assert done0 + DirectionSweeps(c, base, 0).0 == done0;
    for j := 0 to |DIRECTIONS|
      invariant done == done0 + DirectionSweeps(c, base, j).0
      invariant m == DirectionSweeps(c, base, j).1
      invariant hash == FirstWins(done)
    {
      ghost var sweep := Sweep(c, DIRECTIONS[j], m);
      hash, m := SweepDirection(c, DIRECTIONS[j], m, hash, done);
      assert DirectionSweeps(c, base, j + 1).0 == DirectionSweeps(c, base, j).0 + sweep.0;
      AppendAssoc(done0, DirectionSweeps(c, base, j).0, sweep.0);
      done := done + sweep.0;
    }
  }

  /**
    The enumerator. An empty queue gives an empty map; otherwise the map is
    the first-wins map of the entries of every hold x rotation x direction
    sweep, and has at most MAX_PLACEMENTS fields.
  */
  method GenerateMoves(state: State, rules: Rules) returns (hash: map<Field, Move>)
    requires state.pieces != [] ==> HoldAvailable(state) && ShiftsStayOnBoard(ContextOf(state, rules))
    ensures state.pieces == [] ==> hash == map[]
    ensures state.pieces != [] ==> hash == FirstWins(Trace(ContextOf(state, rules)))
    ensures |hash| <= MAX_PLACEMENTS
  {
    if state.pieces == [] {
      return map[];
    }
    hash := map[];
    var c := ContextOf(state, rules);
    ghost var done: seq<Entry> := [];

    for i := 0 to |HOLD_CHOICES|
      invariant done == HoldTrace(c, i)
      invariant hash == FirstWins(done)
    {
      var h := HOLD_CHOICES[i];
      assert done == HoldTrace(c, i) + RotationTrace(c, h, 0);
      for r := 0 to ROTATIONS_TRIED
        invariant done == HoldTrace(c, i) + RotationTrace(c, h, r)
        invariant hash == FirstWins(done)
      {
        var m := c.newMove;
        if h {
          m := Apply(c, m, Hold).1;
        }
        if r == 1 {
          m := Apply(c, m, Cw).1;
        } else if r == 2 {
          m := Apply(c, m, Rot180).1;
        } else if r == 3 {
          m := Apply(c, m, Ccw).1;
        }
        assert m == BaseMove(c, h, r);
        hash := SweepBranch(c, m, hash, done);
        ghost var branch := BranchTrace(c, h, r);
        assert RotationTrace(c, h, r + 1) == RotationTrace(c, h, r) + branch;
        AppendAssoc(HoldTrace(c, i), RotationTrace(c, h, r), branch);
        done := done + branch;
      }
    }
    FirstWinsSize(done);
  }

  lemma AppendAssoc(a: seq<Entry>, b: seq<Entry>, c: seq<Entry>)
    ensures a + (b + c) == a + b + c
  {
  }

  lemma FirstWinsSize(t: seq<Entry>)
    requires |t| <= MAX_PLACEMENTS
    ensures |FirstWins(t)| <= MAX_PLACEMENTS
  {
  }
}
