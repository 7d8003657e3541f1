/** Integer geometry of the gridworld: cells, the four facing directions, and
    the projection of the learner's egocentric R x R window onto the grid. */
module Geometry {

  /** A grid cell. `x` is the first array index and `y` the second, as in the
      environment's `agent_pos` and the teacher's belief arrays. */
  datatype Cell = Cell(x: int, y: int)

  function Add(a: Cell, b: Cell): Cell { Cell(a.x + b.x, a.y + b.y) }

  function Sub(a: Cell, b: Cell): Cell { Cell(a.x - b.x, a.y - b.y) }

  /** `s * k` for a direction-vector component `s` in {-1, 0, 1}, written as
      a selection so that the geometry stays linear arithmetic. */
  function SignTimes(s: int, k: int): (r: int)
    ensures -1 <= s <= 1 ==> r == s * k
  {
    if s == 1 then k else if s == -1 then -k else 0
  }

  /** A direction-like vector scaled by k. */
  function Times(u: Cell, k: int): Cell { Cell(SignTimes(u.x, k), SignTimes(u.y, k)) }

  /** Component of v along a direction-like vector u. */
  function Along(v: Cell, u: Cell): int { SignTimes(u.x, v.x) + SignTimes(u.y, v.y) }

  /** Facing directions are 0 (right), 1 (down), 2 (left), 3 (up). */
  predicate IsDir(d: int) { 0 <= d < 4 }

  /** The environment's direction table: the unit step taken when moving
      forward while facing `d`. */
  function DirVec(d: int): Cell
    requires IsDir(d)
  {
    if d == 0 then Cell(1, 0)
    else if d == 1 then Cell(0, 1)
    else if d == 2 then Cell(-1, 0)
    else Cell(0, -1)
  }

  /** The right-hand basis vector (-dy, dx) of a facing direction. */
  function RightVec(d: int): Cell
    requires IsDir(d)
  {
    Cell(-DirVec(d).y, DirVec(d).x)
  }

  /** Direction after action 0 (turn left); `%` is the non-negative remainder,
      as Python's `%` with a positive divisor. */
  function TurnLeft(d: int): (r: int)
    ensures IsDir(r)
  {
    (d - 1) % 4
  }

  /** Direction after action 1 (turn right). */
  function TurnRight(d: int): (r: int)
    ensures IsDir(r)
  {
    (d + 1) % 4
  }

  predicate InBounds(c: Cell, n: int) { 0 <= c.x < n && 0 <= c.y < n }

  /** A cell with all four neighbours on the grid. The environment surrounds
      every grid with walls, so the learner always stands on such a cell. */
  predicate Interior(c: Cell, n: int) { 1 <= c.x < n - 1 && 1 <= c.y < n - 1 }

  /** Absolute cell of window coordinate (0, 0): `rf - 1` cells ahead and
      `rf / 2` (floor division) cells to the left of the learner. */
  function TopLeft(pos: Cell, d: int, rf: int): Cell
    requires IsDir(d)
  {
    Sub(Add(pos, Times(DirVec(d), rf - 1)), Times(RightVec(d), rf / 2))
  }

  /** Absolute cell of window coordinate (i, j): i counts to the right, j
      counts back towards the learner. */
  function Project(pos: Cell, d: int, rf: int, i: int, j: int): Cell
    requires IsDir(d)
  {
    Add(Sub(TopLeft(pos, d, rf), Times(DirVec(d), j)), Times(RightVec(d), i))
  }

  /** Window coordinates of an absolute cell: its components along the right
      and the backward basis vectors, measured from the window's corner. */
  function Unproject(pos: Cell, d: int, rf: int, c: Cell): (ij: (int, int))
    requires IsDir(d)
  {
    var v := Sub(c, TopLeft(pos, d, rf));
    (Along(v, RightVec(d)), -Along(v, DirVec(d)))
  }

  /** Unprojecting a projected window cell gives its window coordinates back;
      hence distinct window cells land on distinct grid cells. */
  lemma UnprojectProject(pos: Cell, d: int, rf: int, i: int, j: int)
    requires IsDir(d)
    ensures Unproject(pos, d, rf, Project(pos, d, rf, i, j)) == (i, j)
  {
    if d == 0 {
    } else if d == 1 {
    } else if d == 2 {
    } else {
    }
  }

  /** Every grid cell is the projection of its window coordinates. */
  lemma ProjectUnproject(pos: Cell, d: int, rf: int, c: Cell)
    requires IsDir(d)
    ensures var (i, j) := Unproject(pos, d, rf, c); Project(pos, d, rf, i, j) == c
  {
    if d == 0 {
    } else if d == 1 {
    } else if d == 2 {
    } else {
    }
  }

  /** The projection is injective. */
  lemma ProjectInjective(pos: Cell, d: int, rf: int, i1: int, j1: int, i2: int, j2: int)
    requires IsDir(d)
    requires Project(pos, d, rf, i1, j1) == Project(pos, d, rf, i2, j2)
    ensures i1 == i2 && j1 == j2
  {
    UnprojectProject(pos, d, rf, i1, j1);
    UnprojectProject(pos, d, rf, i2, j2);
  }

  /** Window cell (rf / 2, rf - 1) is the learner's own cell and window cell
      (rf / 2, rf - 2) is the cell in front of it. */
  lemma ProjectSelfAndFront(pos: Cell, d: int, rf: int)
    requires IsDir(d)
    ensures Project(pos, d, rf, rf / 2, rf - 1) == pos
    ensures Project(pos, d, rf, rf / 2, rf - 2) == Add(pos, DirVec(d))
  {
    if d == 0 {
    } else if d == 1 {
    } else if d == 2 {
    } else {
    }
  }

  /** The offset `obj_in_front` looks at: its own if-chain over the direction,
      which leaves the offset at (0, 0) for a value outside 0..3. */
  function FrontOffset(d: int): (r: Cell)
    ensures IsDir(d) ==> r == DirVec(d)
    ensures !IsDir(d) ==> r == Cell(0, 0)
  {
    if d == 0 then Cell(1, 0)
    else if d == 2 then Cell(-1, 0)
    else if d == 3 then Cell(0, -1)
    else if d == 1 then Cell(0, 1)
    else Cell(0, 0)
  }

  /** The four neighbours of an interior cell lie on the grid. */
  lemma InteriorNeighbours(c: Cell, n: int, d: int)
    requires Interior(c, n) && IsDir(d)
    ensures InBounds(Add(c, DirVec(d)), n)
  {
  }
}
