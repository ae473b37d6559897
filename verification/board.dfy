/**
  The vocabulary shared by the board evaluator and the placement enumerator:
  the 10 x 20 field of bit-mask rows, pieces, keys, moves and the decision state.
*/
module Board {
  const WIDTH: nat := 10
  const HEIGHT: nat := 20

  /** One row of the field: bit x set means that column x is occupied. */
  type Row = bv16

  /** The 20 rows of the field, row 0 on top. */
  type Field = m: seq<Row> | |m| == HEIGHT witness seq(20, _ => 0)

  /** The field with no occupied cell. */
  const EMPTY_FIELD: Field := seq(20, _ => 0)

  /** The cell in row y, column x is occupied (`f.m[y] & (1 << x) > 0`). */
  predicate Filled(f: Field, y: int, x: int)
    requires 0 <= y < HEIGHT && 0 <= x < WIDTH
  {
    RowHas(f[y], x)
  }

  /** Bit x of the row is set. */
  predicate RowHas(a: Row, x: int)
    requires 0 <= x < WIDTH
  {
    a & (1 << x) != 0
  }

  datatype Piece = None | I | O | T | S | Z | J | L

  datatype Key = Left | Right | Cw | Ccw | Rot180 | Hold | HardDrop

  /**
    An in-progress placement. Only the horizontal position `x` and the
    vertical position `y` are used by the enumerator.
  */
  datatype Move = Move(x: int, y: int, rotation: int, held: bool)

  /** Per-decision and cumulative offence/defence counters. */
  datatype Props = Props(atk: int, ds: int, sumAtk: int, sumDs: int, b2b: int, combo: int)

  /** The decision state: field, piece queue, held piece and counters. */
  datatype State = State(field: Field, pieces: seq<Piece>, hold: Piece, props: Props)
}
