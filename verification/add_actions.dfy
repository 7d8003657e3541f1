/** The A*-driven learner turns each transition of a planned path into the
    primitive actions that perform it: turn until facing the next cell, then
    step forward. Directions: 0 faces +x, 1 faces +y, 2 faces -x, 3 faces -y. */
module AddActions {
  import opened Geometry
  import opened LearnerPolicy

  /** Actions that make the learner face +x and step (the `dx < 0` block). */
  function TowardsPlusX(dir: int): seq<nat>
  {
    if dir == 0 then [ActForward]
    else if dir == 1 then [ActLeft, ActForward]
    else if dir == 2 then [ActRight, ActRight, ActForward]
    else if dir == 3 then [ActRight, ActForward]
    else []
  }

  /** Actions that make the learner face -x and step (the `dx > 0` block). */
  function TowardsMinusX(dir: int): seq<nat>
  {
    if dir == 0 then [ActRight, ActRight, ActForward]
    else if dir == 1 then [ActRight, ActForward]
    else if dir == 2 then [ActForward]
    else if dir == 3 then [ActLeft, ActForward]
    else []
  }

  /** Actions that make the learner face +y and step (the `dy < 0` block). */
  function TowardsPlusY(dir: int): seq<nat>
  {
    if dir == 0 then [ActRight, ActForward]
    else if dir == 1 then [ActForward]
    else if dir == 2 then [ActLeft, ActForward]
    else if dir == 3 then [ActRight, ActRight, ActForward]
    else []
  }

  /** Actions that make the learner face -y and step (the `dy > 0` block). */
  function TowardsMinusY(dir: int): seq<nat>
  {
    if dir == 0 then [ActLeft, ActForward]
    else if dir == 1 then [ActRight, ActRight, ActForward]
    else if dir == 2 then [ActRight, ActForward]
    else if dir == 3 then [ActForward]
    else []
  }

  /** The actions queued for the transition from pos to dest. The four
      blocks are independent: each tests the sign of one coordinate
      difference and starts from the same, original direction. */
  function Queue(pos: Cell, dest: Cell, dir: int): (acts: seq<nat>)
    ensures pos == dest ==> acts == []
    ensures |acts| <= 6
    ensures forall i | 0 <= i < |acts| :: acts[i] == ActLeft || acts[i] == ActRight || acts[i] == ActForward
    ensures !IsDir(dir) ==> acts == []
  {
    var dx := pos.x - dest.x;
    var dy := pos.y - dest.y;
    (if dx < 0 then TowardsPlusX(dir) else [])
    + (if dx > 0 then TowardsMinusX(dir) else [])
    + (if dy < 0 then TowardsPlusY(dir) else [])
    + (if dy > 0 then TowardsMinusY(dir) else [])
  }

  /** Where the learner stands and faces after performing the actions on an
      open floor: turns rotate, forward steps one cell along the facing. */
  function Perform(pos: Cell, dir: int, acts: seq<nat>): (r: (Cell, int))
    requires IsDir(dir)
    ensures IsDir(r.1)
    ensures (forall i | 0 <= i < |acts| :: acts[i] != ActLeft && acts[i] != ActRight) ==> r.1 == dir
    ensures (forall i | 0 <= i < |acts| :: acts[i] == ActForward)
            ==> r == (Add(pos, Times(DirVec(dir), |acts|)), dir)
    decreases |acts|
  {
    if |acts| == 0 then (pos, dir)
    else if acts[0] == ActLeft then Perform(pos, TurnLeft(dir), acts[1..])
    else if acts[0] == ActRight then Perform(pos, TurnRight(dir), acts[1..])
    else if acts[0] == ActForward then Perform(Add(pos, DirVec(dir)), dir, acts[1..])
    else Perform(pos, dir, acts[1..])
  }

  /** Fewest quarter turns from one direction to another. */
  function TurnsBetween(from: int, to: int): (k: nat)
    requires IsDir(from) && IsDir(to)
    ensures k <= 2 && (k == 0 <==> from == to)
  {
    var d := (to - from) % 4;
    if d == 0 then 0 else if d == 2 then 2 else 1
  }

  /** The block `add_actions` queues for a step along direction e. */
  function Block(e: int, dir: int): seq<nat>
  {
    if e == 0 then TowardsPlusX(dir)
    else if e == 1 then TowardsPlusY(dir)
    else if e == 2 then TowardsMinusX(dir)
    else TowardsMinusY(dir)
  }

  /** Performing a turn and then the rest. */
  lemma PerformTurn(pos: Cell, dir: int, turn: nat, rest: seq<nat>)
    requires IsDir(dir) && (turn == ActLeft || turn == ActRight)
    ensures Perform(pos, dir, [turn] + rest)
         == Perform(pos, if turn == ActLeft then TurnLeft(dir) else TurnRight(dir), rest)
  {
    assert ([turn] + rest)[1..] == rest;
  }

  /** The block for direction e holds the fewest turns that face e, then one
      forward step, and performing it steps once along e. */
  lemma BlockSteps(pos: Cell, dir: int, e: int)
    requires IsDir(dir) && IsDir(e)
    ensures var acts := Block(e, dir);
            |acts| == TurnsBetween(dir, e) + 1
            && acts[|acts| - 1] == ActForward
            && (forall i | 0 <= i < |acts| - 1 :: acts[i] != ActForward)
            && Perform(pos, dir, acts) == (Add(pos, DirVec(e)), e)
  {
    var acts := Block(e, dir);
    var fwd := Add(pos, DirVec(e));
    assert Perform(pos, e, [ActForward]) == (fwd, e);
    if |acts| == 2 {
      PerformTurn(pos, dir, acts[0], [ActForward]);
      assert acts == [acts[0]] + [ActForward];
    } else if |acts| == 3 {
      PerformTurn(pos, dir, ActRight, [ActRight, ActForward]);
      PerformTurn(pos, TurnRight(dir), ActRight, [ActForward]);
      assert acts == [ActRight] + ([ActRight] + [ActForward]);
    }
  }

  /** For a step to a neighbouring cell only the block for that direction
      fires, so the queue holds the fewest turns that face the neighbour,
      then exactly one forward step, and performing it lands the learner on
      the neighbour, facing it. */
  lemma UnitMove(pos: Cell, dir: int, e: int)
    requires IsDir(dir) && IsDir(e)
    ensures var acts := Queue(pos, Add(pos, DirVec(e)), dir);
            |acts| == TurnsBetween(dir, e) + 1
            && acts[|acts| - 1] == ActForward
            && (forall i | 0 <= i < |acts| - 1 :: acts[i] != ActForward)
            && Perform(pos, dir, acts) == (Add(pos, DirVec(e)), e)
  {
    assert Queue(pos, Add(pos, DirVec(e)), dir) == Block(e, dir);
    BlockSteps(pos, dir, e);
  }

  /** A half turn is always made of two right turns. */
  lemma HalfTurnGoesRight(pos: Cell, dir: int, e: int)
    requires IsDir(dir) && IsDir(e) && TurnsBetween(dir, e) == 2
    ensures Queue(pos, Add(pos, DirVec(e)), dir) == [ActRight, ActRight, ActForward]
  {
    assert Queue(pos, Add(pos, DirVec(e)), dir) == Block(e, dir);
  }

  /** A diagonal transition queues two blocks computed from the same original
      direction, so the second block's turns are relative to a direction the
      learner no longer faces: from (1,1) facing +y, the move to (2,2)
      performs as a walk to (3,1). */
  lemma DiagonalUsesStaleDirection()
    ensures Queue(Cell(1, 1), Cell(2, 2), 1) == [ActLeft, ActForward, ActForward]
    ensures Perform(Cell(1, 1), 1, Queue(Cell(1, 1), Cell(2, 2), 1)) == (Cell(3, 1), 0)
  {
  }
}
