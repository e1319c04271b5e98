/** Coordinates and steps on the square board. The game's adjacency graph links
    every cell to its eight surrounding cells; a walk along that graph in one
    direction is a walk by a fixed unit step, which is how it is written here. */
module Geometry {

  /** A (row, column) pair; row 0 is the top row. */
  type Coord = (int, int)

  /** A step of at most one row and one column. */
  datatype Dir = Dir(dr: int, dc: int)

  predicate IsUnit(d: Dir) {
    -1 <= d.dr <= 1 && -1 <= d.dc <= 1 && d != Dir(0, 0)
  }

  const UpRight := Dir(-1, 1)
  const DownRight := Dir(1, 1)

  /** The direction names the source passes to its neighbour test: four axes
      (a cell's neighbours on both sides) and four single directions. */
  datatype Direction =
    | Vertical | Horiz | TopRight | TopLeft
    | UpperRight | LowerLeft | UpperLeft | LowerRight

  predicate IsAxis(a: Direction) {
    a.Vertical? || a.Horiz? || a.TopRight? || a.TopLeft?
  }

  /** The step along an axis in one direction ... */
  function AxisStep(a: Direction): (d: Dir)
    requires IsAxis(a)
    ensures IsUnit(d)
  {
    if a.Vertical? then Dir(-1, 0)
    else if a.Horiz? then Dir(0, 1)
    else if a.TopRight? then Dir(-1, 1)
    else Dir(-1, -1)
  }

  /** ... and in the other. */
  function AxisBack(a: Direction): (d: Dir)
    requires IsAxis(a)
    ensures IsUnit(d)
  {
    if a.Vertical? then Dir(1, 0)
    else if a.Horiz? then Dir(0, -1)
    else if a.TopRight? then Dir(1, -1)
    else Dir(1, 1)
  }

  /** `i` times the unit component `x`, written without multiplication. */
  function Scale(x: int, i: int): int {
    if x == 0 then 0 else if x > 0 then i else -i
  }

  /** The cell `i` steps of `d` away from `p`. */
  function At(p: Coord, d: Dir, i: int): Coord {
    (p.0 + Scale(d.dr, i), p.1 + Scale(d.dc, i))
  }

  predicate InBounds(k: int, p: Coord) {
    0 <= p.0 < k && 0 <= p.1 < k
  }

  function Min(a: int, b: int): int {
    if a <= b then a else b
  }

  /** How many further steps one coordinate can take in direction `x` and
      stay inside [0, k); a component that does not move is never the limit. */
  function Free(k: int, v: int, x: int): int {
    if x > 0 then k - 1 - v else if x < 0 then v else k
  }

  /** The number of cells from `p` (included) to the board edge along `d`. */
  function Reach(k: int, p: Coord, d: Dir): int {
    1 + Min(Free(k, p.0, d.dr), Free(k, p.1, d.dc))
  }

  /** A measure that drops by at least one on every step that stays on the board. */
  function Room(k: int, p: Coord, d: Dir): int {
    (if d.dr > 0 then k - p.0 else if d.dr < 0 then p.0 + 1 else 0) +
    (if d.dc > 0 then k - p.1 else if d.dc < 0 then p.1 + 1 else 0)
  }

  lemma StepFacts(k: int, p: Coord, d: Dir)
    requires IsUnit(d) && InBounds(k, p)
    ensures 1 <= Reach(k, p, d)
    ensures 0 <= Room(k, p, d)
    ensures InBounds(k, At(p, d, 1)) ==>
              Reach(k, At(p, d, 1), d) == Reach(k, p, d) - 1 && 0 <= Room(k, At(p, d, 1), d) < Room(k, p, d)
    ensures !InBounds(k, At(p, d, 1)) ==> Reach(k, p, d) == 1
    ensures forall i :: At(At(p, d, 1), d, i) == At(p, d, i + 1)
    ensures At(p, d, 0) == p
  {
  }

  /** Cells reached by different numbers of steps are different cells. */
  lemma AtInjective(p: Coord, d: Dir, i: int, j: int)
    requires IsUnit(d) && i != j
    ensures At(p, d, i) != At(p, d, j)
  {
  }

  /** Stepping backwards along an axis is stepping forwards a negative number of times. */
  lemma AtBack(p: Coord, a: Direction, i: int)
    requires IsAxis(a)
    ensures At(p, AxisBack(a), i) == At(p, AxisStep(a), -i)
  {
  }
}
