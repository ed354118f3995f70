/**
 * Grid geometry of the board. The game keeps positions in float vectors,
 * but every position it creates has whole-numbered components, so a cell is
 * modelled by three integers: x and z span the ground plane and y is the
 * height, which is 1 for everything standing on the board.
 */
module Geometry {

  datatype Pos = Pos(x: int, y: int, z: int)

  /** The height of every snake segment, obstacle and food item. */
  const GROUND_HEIGHT: int := 1

  /** The play radius: the global `mapRadius` (6.0) truncated to an integer. */
  const MAP_RADIUS: nat := 6

  /** The cell at (x, z) on the ground plane. */
  function Ground(x: int, z: int): Pos {
    Pos(x, GROUND_HEIGHT, z)
  }

  function Abs(n: int): nat {
    if n < 0 then -n else n
  }

  /**
   * One coordinate computed from a value `r` returned by the random number
   * generator: `-mr + r % (mr - (-mr) + 1)`. Since `r` is never negative,
   * C++'s truncating `%` agrees with Dafny's here.
   */
  function Coord(mr: nat, r: nat): (c: int)
    ensures -(mr as int) <= c <= mr
  {
    -(mr as int) + r % (2 * mr + 1)
  }

  /** Every coordinate of the play area is produced by some draw. */
  lemma CoordCovers(mr: nat, c: int)
    requires -(mr as int) <= c <= mr
    ensures Coord(mr, (c + mr) as nat) == c
  {
  }

  /** A cell lies within the play radius on both ground axes. */
  predicate InRange(mr: nat, p: Pos) {
    -(mr as int) <= p.x <= mr && -(mr as int) <= p.z <= mr
  }

  /** A cell keeps at least two units from the origin on each ground axis separately. */
  predicate Far(p: Pos) {
    Abs(p.x) >= 2 && Abs(p.z) >= 2
  }
}
