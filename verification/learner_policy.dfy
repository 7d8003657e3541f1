/** The teacher's forward model of the learner: for one hypothesis (goal
    colour g, receptive field) it predicts a distribution over the six actions
    and updates that hypothesis's progress flags and cached distance fields.

    The path search (A*), the distance field computation (Dijkstra) and the
    exponential are not modelled: they are the oracles `pathExists`,
    `distance` and `weight`, the last only assumed strictly positive. */
module LearnerPolicy {
  import opened Geometry
  import opened Encoding
  import opened Probability
  import opened BeliefGrid

  const NumActions := 6
  const ActLeft := 0
  const ActRight := 1
  const ActForward := 2
  const ActPickup := 3
  /** Action 4 (drop) serves as the placeholder first action. */
  const ActDrop := 4
  const ActToggle := 5

  /** The two pursuits: the `obj` argument "subgoal" / "goal" of
      `learner_greedy_policy`. */
  datatype Objective = Subgoal | Goal

  /** A cached distance field. `Unset` is the all-zero array the teacher
      starts with; `Computed` records the obstacle grid and the target cells
      the distance oracle was last run on. */
  datatype DistMap = Unset | Computed(obstacles: seq<seq<bool>>, targets: seq<Cell>)

  /** Per-hypothesis progress flags and the two cached distance fields. */
  datatype Progress = Progress(
    goingToSubgoal: bool,
    goingToGoal: bool,
    reachedSubgoal: bool,
    distSubgoal: DistMap,
    distGoal: DistMap)

  /** The state of every hypothesis at the start of an episode. */
  const Fresh := Progress(false, false, false, Unset, Unset)

  /** Once the key is picked up the learner no longer heads for it. */
  predicate ProgressInv(p: Progress)
  {
    p.reachedSubgoal ==> !p.goingToSubgoal
  }

  /** The collaborators the policy calls but this model does not define. */
  datatype Oracles = Oracles(
    pathExists: (Cell, seq<Cell>, seq<seq<bool>>) -> bool,
    distance: (seq<seq<bool>>, seq<Cell>, Cell) -> real,
    weight: real -> real)

  ghost predicate ValidOracles(o: Oracles)
  {
    forall x :: o.weight(x) > 0.0
  }

  /** What one hypothesis sees: its belief grid, the learner's pose and step
      count, the temperature, and whether the greedy policy measures
      distances relative to the learner's own cell (the derived teacher) or
      not (the base teacher). */
  datatype Context = Context(
    grid: Grid,
    n: nat,
    numColors: nat,
    pos: Cell,
    dir: int,
    stepCount: int,
    lambd: real,
    subtractBaseline: bool)

  predicate ValidContext(ctx: Context, g: nat)
  {
    g < ctx.numColors && Shaped(ctx.grid, ctx.n, ctx.numColors) && IsDir(ctx.dir) &&
    ctx.lambd != 0.0 && (ctx.stepCount != 0 ==> Interior(ctx.pos, ctx.n))
  }

  /** A predicted action distribution and the hypothesis's new progress. */
  datatype Decision = Decision(probs: seq<real>, progress: Progress)

  function PointMass(a: nat): (r: seq<real>)
    requires a < NumActions
    ensures |r| == NumActions && IsDistribution(r) && r[a] == 1.0
    ensures forall b | 0 <= b < NumActions && b != a :: r[b] == 0.0
  {
    var r := OneHot(a, NumActions);
    SumIndicator(r, a);
    r
  }

  /** `obj_in_front`: entry `idx` of the belief vector of the cell ahead. */
  predicate ObjInFront(ctx: Context, g: nat, idx: nat)
    requires ValidContext(ctx, g) && Interior(ctx.pos, ctx.n) && idx < NumCategories(ctx.numColors)
  {
    var f := Add(ctx.pos, FrontOffset(ctx.dir));
    InteriorNeighbours(ctx.pos, ctx.n, ctx.dir);
    ctx.grid[f.x][f.y][idx] == 1.0
  }

  /** The object `obj_in_front` detects is one the path search targets: the
      cell ahead holds category `idx` exactly when it is among the cells
      believed to hold it, so a key ahead is always a known key. */
  lemma ObjInFrontIsTarget(ctx: Context, g: nat, idx: nat)
    requires ValidContext(ctx, g) && Interior(ctx.pos, ctx.n) && idx < NumCategories(ctx.numColors)
    ensures ObjInFront(ctx, g, idx) <==> Add(ctx.pos, DirVec(ctx.dir)) in CellsWith(ctx.grid, ctx.n, ctx.numColors, idx)
    ensures ObjInFront(ctx, g, idx) ==> |CellsWith(ctx.grid, ctx.n, ctx.numColors, idx)| > 0
  {
    var f := Add(ctx.pos, DirVec(ctx.dir));
    InteriorNeighbours(ctx.pos, ctx.n, ctx.dir);
    assert InBounds(f, ctx.n);
    assert f == Add(ctx.pos, FrontOffset(ctx.dir));
  }

  // --------------------------------------------------------------- exploring

  /** `learner_exploration_policy`: turn left or right, and move forward
      only when the cell ahead is known to be empty or holds this colour's
      key. */
  function Exploration(ctx: Context, g: nat): (r: seq<real>)
    requires ValidContext(ctx, g) && Interior(ctx.pos, ctx.n)
    ensures |r| == NumActions && IsDistribution(r)
    ensures var f := Add(ctx.pos, DirVec(ctx.dir));
            InBounds(f, ctx.n) &&
            var v := ctx.grid[f.x][f.y];
            if KnownEmpty(v, ctx.numColors) || v == OneHot(SubgoalCat(g), NumCategories(ctx.numColors))
            then r == [1.0 / 3.0, 1.0 / 3.0, 1.0 / 3.0, 0.0, 0.0, 0.0]
            else r == [0.5, 0.5, 0.0, 0.0, 0.0, 0.0]
  {
    InteriorNeighbours(ctx.pos, ctx.n, ctx.dir);
    var next := Add(ctx.pos, DirVec(ctx.dir));
    var v := ctx.grid[next.x][next.y];
    var forward := if KnownEmpty(v, ctx.numColors) || v == OneHot(SubgoalCat(g), NumCategories(ctx.numColors))
                   then 1.0 else 0.0;
    var u := [1.0, 1.0, forward, 0.0, 0.0, 0.0];
    SumSix(u);
    NormalizeIsDistribution(u);
    Normalize(u)
  }

  // ------------------------------------------------------------------ greedy

  function Lookup(dm: DistMap, o: Oracles, c: Cell): real
  {
    match dm
    case Unset => 0.0
    case Computed(obstacles, targets) => o.distance(obstacles, targets, c)
  }

  function FieldOf(p: Progress, obj: Objective): DistMap
  {
    match obj
    case Subgoal => p.distSubgoal
    case Goal => p.distGoal
  }

  /** Boltzmann weight of stepping onto cell c: the weight of minus its
      distance (less the learner's own distance when `subtractBaseline`)
      over the temperature. */
  function CellWeight(ctx: Context, dm: DistMap, o: Oracles, c: Cell): real
    requires ctx.lambd != 0.0
  {
    var base := if ctx.subtractBaseline then Lookup(dm, o, ctx.pos) else 0.0;
    o.weight(-(Lookup(dm, o, c) - base) / ctx.lambd)
  }

  /** Reference weights, given the weight of every cell: each turn is scored
      as the mean of the cell the turn faces and the one cell behind the
      learner, which both turns share. */
  function WeightsAround(pos: Cell, d: int, w: Cell -> real): seq<real>
    requires IsDir(d)
  {
    var behind := w(Add(pos, DirVec((d + 2) % 4)));
    [ 0.5 * (w(Add(pos, DirVec(TurnLeft(d)))) + behind),
      0.5 * (w(Add(pos, DirVec(TurnRight(d)))) + behind),
      w(Add(pos, DirVec(d))),
      0.0, 0.0, 0.0 ]
  }

  function TurnWeights(ctx: Context, dm: DistMap, o: Oracles): seq<real>
    requires IsDir(ctx.dir) && ctx.lambd != 0.0
  {
    WeightsAround(ctx.pos, ctx.dir, c => CellWeight(ctx, dm, o, c))
  }

  /** Scaling every cell weight by k scales the action weights by k. */
  lemma WeightsAroundScale(pos: Cell, d: int, w: Cell -> real, w': Cell -> real, k: real)
    requires IsDir(d)
    requires forall c :: w'(c) == w(c) * k
    ensures WeightsAround(pos, d, w') == Scale(WeightsAround(pos, d, w), k)
  {
    var u := WeightsAround(pos, d, w);
    var a := w(Add(pos, DirVec(TurnLeft(d))));
    var b := w(Add(pos, DirVec(TurnRight(d))));
    var bw := w(Add(pos, DirVec((d + 2) % 4)));
    forall i | 0 <= i < 6
      ensures WeightsAround(pos, d, w')[i] == Scale(u, k)[i]
    {
      assert Scale(u, k)[i] == u[i] * k;
      assert (a + bw) * k == a * k + bw * k;
      assert (b + bw) * k == b * k + bw * k;
    }
  }

  lemma TurnWeightsPositive(ctx: Context, dm: DistMap, o: Oracles)
    requires IsDir(ctx.dir) && ctx.lambd != 0.0 && ValidOracles(o)
    ensures var u := TurnWeights(ctx, dm, o);
            |u| == NumActions && NonNeg(u) && Sum(u) > 0.0 &&
            u[ActLeft] > 0.0 && u[ActRight] > 0.0 && u[ActForward] > 0.0 &&
            u[ActPickup] == 0.0 && u[ActDrop] == 0.0 && u[ActToggle] == 0.0
  {
    var u := TurnWeights(ctx, dm, o);
    SumSix(u);
  }

  /** `learner_greedy_policy`: Boltzmann-rational choice among turning left,
      turning right and moving forward, with respect to the cached distance
      field of the pursued objective. */
  function Greedy(ctx: Context, p: Progress, obj: Objective, o: Oracles): (r: seq<real>)
    requires IsDir(ctx.dir) && ctx.lambd != 0.0 && ValidOracles(o)
    ensures |r| == NumActions && IsDistribution(r)
    ensures r[ActPickup] == 0.0 && r[ActDrop] == 0.0 && r[ActToggle] == 0.0
    ensures r[ActLeft] > 0.0 && r[ActRight] > 0.0 && r[ActForward] > 0.0
    ensures Sum(TurnWeights(ctx, FieldOf(p, obj), o)) > 0.0
    ensures r == Normalize(TurnWeights(ctx, FieldOf(p, obj), o))
  {
    var dm := FieldOf(p, obj);
    var d := ctx.dir;
    // The two U-turn cells are the same cell, reached through two different
    // direction indices.
    var uTurnLeft := Add(ctx.pos, DirVec((d - 2) % 4));
    var uTurnRight := Add(ctx.pos, DirVec((d + 2) % 4));
    assert uTurnLeft == uTurnRight;
    var u := [ 0.5 * (CellWeight(ctx, dm, o, Add(ctx.pos, DirVec(TurnLeft(d)))) + CellWeight(ctx, dm, o, uTurnLeft)),
               0.5 * (CellWeight(ctx, dm, o, Add(ctx.pos, DirVec(TurnRight(d)))) + CellWeight(ctx, dm, o, uTurnRight)),
               CellWeight(ctx, dm, o, Add(ctx.pos, DirVec(d))),
               0.0, 0.0, 0.0 ];
    assert u == TurnWeights(ctx, dm, o);
    TurnWeightsPositive(ctx, dm, o);
    NormalizeIsDistribution(u);
    NormalizeSign(u, ActLeft);
    NormalizeSign(u, ActRight);
    NormalizeSign(u, ActForward);
    NormalizeSign(u, ActPickup);
    NormalizeSign(u, ActDrop);
    NormalizeSign(u, ActToggle);
    Normalize(u)
  }

  /** The weight of a sum; a separate name keeps the quantifier below from
      instantiating itself on its own results. */
  ghost function WeightOfSum(w: real -> real, a: real, b: real): real
  {
    w(a + b)
  }

  /** A weight function that turns sums into products, as the exponential does. */
  ghost predicate Multiplicative(w: real -> real)
  {
    forall a, b {:trigger WeightOfSum(w, a, b)} :: w(a) * w(b) == WeightOfSum(w, a, b)
  }

  lemma DivideSum(a: real, b: real, l: real)
    requires l != 0.0
    ensures (a + b) / l == a / l + b / l
  {
    var p := a / l;
    var q := b / l;
    assert p * l == a;
    assert q * l == b;
    assert (p + q) * l == a + b;
  }

  /** Subtracting the learner's own distance multiplies every cell weight
      by the same positive factor. */
  lemma CellWeightScales(ctx: Context, dm: DistMap, o: Oracles, c: Cell)
    requires ctx.lambd != 0.0 && Multiplicative(o.weight)
    ensures CellWeight(ctx.(subtractBaseline := true), dm, o, c)
         == CellWeight(ctx.(subtractBaseline := false), dm, o, c) * o.weight(Lookup(dm, o, ctx.pos) / ctx.lambd)
  {
    var x := Lookup(dm, o, c);
    var b := Lookup(dm, o, ctx.pos);
    var l := ctx.lambd;
    DivideSum(-(x - 0.0), b, l);
    assert o.weight(-(x - 0.0) / l) * o.weight(b / l) == WeightOfSum(o.weight, -(x - 0.0) / l, b / l);
  }

  /** With an exponential-like weight, measuring distances relative to the
      learner's own cell does not change the greedy distribution: the base
      teacher and the derived teacher predict the same policy. */
  lemma BaselineCancels(ctx: Context, p: Progress, obj: Objective, o: Oracles)
    requires IsDir(ctx.dir) && ctx.lambd != 0.0 && ValidOracles(o)
    requires Multiplicative(o.weight)
    ensures Greedy(ctx.(subtractBaseline := true), p, obj, o)
         == Greedy(ctx.(subtractBaseline := false), p, obj, o)
  {
    var dm := FieldOf(p, obj);
    var withBase := ctx.(subtractBaseline := true);
    var without := ctx.(subtractBaseline := false);
    var k := o.weight(Lookup(dm, o, ctx.pos) / ctx.lambd);
    var w := c => CellWeight(without, dm, o, c);
    var w' := c => CellWeight(withBase, dm, o, c);
    forall c
      ensures w'(c) == w(c) * k
    {
      CellWeightScales(ctx, dm, o, c);
    }
    WeightsAroundScale(ctx.pos, ctx.dir, w, w', k);
    assert TurnWeights(withBase, dm, o) == Scale(TurnWeights(without, dm, o), k);
    TurnWeightsPositive(without, dm, o);
    NormalizeScaleInvariant(TurnWeights(without, dm, o), k);
  }

  // ----------------------------------------------------------- the policy

  /** The cells the hypothesis believes hold category `cat`. */
  function Targets(ctx: Context, cat: nat): seq<Cell>
    requires Shaped(ctx.grid, ctx.n, ctx.numColors) && cat < NumCategories(ctx.numColors)
  {
    CellsWith(ctx.grid, ctx.n, ctx.numColors, cat)
  }

  /** Whether the path oracle finds a way to one of the target cells over the
      cells believed empty. */
  predicate PathTo(ctx: Context, o: Oracles, cat: nat)
    requires Shaped(ctx.grid, ctx.n, ctx.numColors) && cat < NumCategories(ctx.numColors)
  {
    var t := Targets(ctx, cat);
    o.pathExists(ctx.pos, t, ObstaclesAround(ctx.grid, ctx.n, ctx.numColors, t))
  }

  /** The distance field towards category `cat` (`update_distance_goal` /
      `update_distance_subgoal`). */
  function FieldTo(grid: Grid, n: nat, numColors: nat, cat: nat): (dm: DistMap)
    requires Shaped(grid, n, numColors) && cat < NumCategories(numColors)
    ensures dm.Computed?
  {
    var t := CellsWith(grid, n, numColors, cat);
    Computed(ObstaclesAround(grid, n, numColors, t), t)
  }

  /** Pursuits not yet started; each commitment starts one. */
  function Pending(p: Progress): nat
  {
    (if p.goingToSubgoal then 0 else 1) + (if p.goingToGoal then 0 else 1)
  }

  /** Steps 6-7 of the decision: follow the pursuit in progress, else explore. */
  function Pursue(ctx: Context, p: Progress, g: nat, o: Oracles): (r: Decision)
    requires ValidContext(ctx, g) && Interior(ctx.pos, ctx.n) && ValidOracles(o)
    ensures r.progress == p && |r.probs| == NumActions && IsDistribution(r.probs)
    ensures r.probs[ActPickup] == 0.0 && r.probs[ActDrop] == 0.0 && r.probs[ActToggle] == 0.0
    ensures p.goingToSubgoal ==> r.probs == Greedy(ctx, p, Subgoal, o)
    ensures !p.goingToSubgoal && p.goingToGoal ==> r.probs == Greedy(ctx, p, Goal, o)
    ensures !p.goingToSubgoal && !p.goingToGoal ==> r.probs == Exploration(ctx, g)
  {
    if p.goingToSubgoal then Decision(Greedy(ctx, p, Subgoal, o), p)
    else if p.goingToGoal then Decision(Greedy(ctx, p, Goal, o), p)
    else
      var e := Exploration(ctx, g);
      Decision(e, p)
  }

  /** `learner_policy`: the priority-ordered decision for hypothesis g.
      Step 0 is a point mass on the placeholder action; a key ahead is picked
      up; a door ahead is opened once the key is held; a known, reachable key
      (or, after the key, door) starts a pursuit and the decision is taken
      again; otherwise the pursuit in progress or exploration decides. */
  function Policy(ctx: Context, p: Progress, g: nat, o: Oracles): (r: Decision)
    requires ValidContext(ctx, g) && ValidOracles(o)
    decreases Pending(p)
    ensures |r.probs| == NumActions && IsDistribution(r.probs)
    ensures ProgressInv(p) ==> ProgressInv(r.progress)
    ensures ctx.stepCount == 0 ==> r == Decision(PointMass(ActDrop), p)
    ensures r.probs[ActDrop] > 0.0 ==> ctx.stepCount == 0
    ensures r.probs[ActPickup] > 0.0 ==>
              ctx.stepCount != 0 && ObjInFront(ctx, g, SubgoalCat(g))
    ensures ctx.stepCount != 0 && ObjInFront(ctx, g, SubgoalCat(g)) ==>
              r.probs == PointMass(ActPickup) &&
              r.progress == p.(reachedSubgoal := true, goingToSubgoal := false)
    ensures r.probs[ActToggle] > 0.0 ==>
              ctx.stepCount != 0 && ObjInFront(ctx, g, GoalCat(g)) && p.reachedSubgoal
    ensures ctx.stepCount != 0 && !ObjInFront(ctx, g, SubgoalCat(g)) &&
            ObjInFront(ctx, g, GoalCat(g)) && p.reachedSubgoal ==>
              r.probs == PointMass(ActToggle) && r.progress == p.(goingToGoal := false)
    ensures r.progress.reachedSubgoal ==
              (p.reachedSubgoal || (ctx.stepCount != 0 && ObjInFront(ctx, g, SubgoalCat(g))))
    ensures ctx.stepCount != 0 && !ObjInFront(ctx, g, SubgoalCat(g)) &&
            !(ObjInFront(ctx, g, GoalCat(g)) && p.reachedSubgoal) &&
            !CommitsToSubgoal(ctx, p, g, o) && !CommitsToGoal(ctx, p, g, o) ==>
              r == Pursue(ctx, p, g, o)
  {
    if ctx.stepCount == 0 then
      Decision(PointMass(ActDrop), p)
    else if ObjInFront(ctx, g, SubgoalCat(g)) then
      Decision(PointMass(ActPickup), p.(reachedSubgoal := true, goingToSubgoal := false))
    else if ObjInFront(ctx, g, GoalCat(g)) && p.reachedSubgoal then
      Decision(PointMass(ActToggle), p.(goingToGoal := false))
    else if |Targets(ctx, SubgoalCat(g))| > 0 && !p.reachedSubgoal && !p.goingToSubgoal then
      if PathTo(ctx, o, SubgoalCat(g)) then
        var p' := p.(distSubgoal := FieldTo(ctx.grid, ctx.n, ctx.numColors, SubgoalCat(g)),
                     goingToSubgoal := true);
        Policy(ctx, p', g, o)
      else
        Pursue(ctx, p, g, o)
    else if |Targets(ctx, GoalCat(g))| > 0 && p.reachedSubgoal && !p.goingToGoal then
      if PathTo(ctx, o, GoalCat(g)) then
        var p' := p.(distGoal := FieldTo(ctx.grid, ctx.n, ctx.numColors, GoalCat(g)),
                     goingToGoal := true);
        Policy(ctx, p', g, o)
      else
        Pursue(ctx, p, g, o)
    else
      Pursue(ctx, p, g, o)
  }

  // ------------------------------------------------ one level of recursion

  /** The decision commits to the key: it is known, not yet held, not yet
      pursued, and reachable. */
  predicate CommitsToSubgoal(ctx: Context, p: Progress, g: nat, o: Oracles)
    requires ValidContext(ctx, g)
  {
    ctx.stepCount != 0 && !ObjInFront(ctx, g, SubgoalCat(g)) &&
    !(ObjInFront(ctx, g, GoalCat(g)) && p.reachedSubgoal) &&
    |Targets(ctx, SubgoalCat(g))| > 0 && !p.reachedSubgoal && !p.goingToSubgoal &&
    PathTo(ctx, o, SubgoalCat(g))
  }

  /** The decision commits to the door: the key branch does not apply, the
      door is known, the key is held, the door is not yet pursued, and it is
      reachable. */
  predicate CommitsToGoal(ctx: Context, p: Progress, g: nat, o: Oracles)
    requires ValidContext(ctx, g)
  {
    ctx.stepCount != 0 && !ObjInFront(ctx, g, SubgoalCat(g)) &&
    !(ObjInFront(ctx, g, GoalCat(g)) && p.reachedSubgoal) &&
    !(|Targets(ctx, SubgoalCat(g))| > 0 && !p.reachedSubgoal && !p.goingToSubgoal) &&
    |Targets(ctx, GoalCat(g))| > 0 && p.reachedSubgoal && !p.goingToGoal &&
    PathTo(ctx, o, GoalCat(g))
  }

  /** The progress handed to the recursive call after a commitment. */
  function Committed(ctx: Context, p: Progress, g: nat, o: Oracles): Progress
    requires ValidContext(ctx, g)
    requires CommitsToSubgoal(ctx, p, g, o) || CommitsToGoal(ctx, p, g, o)
  {
    if CommitsToSubgoal(ctx, p, g, o) then
      p.(distSubgoal := FieldTo(ctx.grid, ctx.n, ctx.numColors, SubgoalCat(g)), goingToSubgoal := true)
    else
      p.(distGoal := FieldTo(ctx.grid, ctx.n, ctx.numColors, GoalCat(g)), goingToGoal := true)
  }

  /** A known key that is not held and not yet pursued but unreachable
      defers every commitment for this step: the door is not considered even
      when it is known and reachable, and the flags stay as they were. */
  lemma UnreachableKeyDefers(ctx: Context, p: Progress, g: nat, o: Oracles)
    requires ValidContext(ctx, g) && ValidOracles(o) && ctx.stepCount != 0
    requires !ObjInFront(ctx, g, SubgoalCat(g)) && !(ObjInFront(ctx, g, GoalCat(g)) && p.reachedSubgoal)
    requires |Targets(ctx, SubgoalCat(g))| > 0 && !p.reachedSubgoal && !p.goingToSubgoal
    requires !PathTo(ctx, o, SubgoalCat(g))
    ensures !CommitsToSubgoal(ctx, p, g, o) && !CommitsToGoal(ctx, p, g, o)
    ensures Policy(ctx, p, g, o) == Pursue(ctx, p, g, o) && Policy(ctx, p, g, o).progress == p
  {
  }

  /** After a commitment the recursive call commits to nothing more: it
      returns the pursuit's answer. When the key-held invariant holds, that
      answer is the greedy policy towards the objective just committed to. */
  lemma CommitThenPursue(ctx: Context, p: Progress, g: nat, o: Oracles)
    requires ValidContext(ctx, g) && ValidOracles(o)
    requires CommitsToSubgoal(ctx, p, g, o) || CommitsToGoal(ctx, p, g, o)
    ensures var p' := Committed(ctx, p, g, o);
            !CommitsToSubgoal(ctx, p', g, o) && !CommitsToGoal(ctx, p', g, o) &&
            Policy(ctx, p, g, o) == Pursue(ctx, p', g, o)
    ensures ProgressInv(p) ==>
              Policy(ctx, p, g, o).probs ==
              Greedy(ctx, Committed(ctx, p, g, o),
                     if CommitsToSubgoal(ctx, p, g, o) then Subgoal else Goal, o)
  {
    var p' := Committed(ctx, p, g, o);
    assert Policy(ctx, p, g, o) == Policy(ctx, p', g, o);
  }
}
