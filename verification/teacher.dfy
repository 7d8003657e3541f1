/** The teacher's state and its two per-step operations: `UpdateKnowledge`
    (the learner moved; refresh what each hypothesised learner knows) and
    `Observe` (the learner acted; Bayesian update of the joint posterior
    over goal colour and receptive field).

    One record covers both teachers: the base teacher (`Base`) and the
    derived rational teacher (`Rational`), which differs in honouring the
    visibility mask, in measuring greedy distances relative to the learner's
    own cell, in its prior, in `init_env`, and in letting `UpdateKnowledge`
    touch a single receptive field. */
module Teacher {
  import opened Wrappers
  import opened Geometry
  import opened Encoding
  import opened Probability
  import opened BeliefGrid
  import opened LearnerPolicy

  datatype Variant = Base | Rational

  datatype Pose = Pose(pos: Cell, dir: int)

  /** `beliefs[g][r]` is the posterior weight of (goal colour g, receptive
      field rfValues[r]); `learnerBeliefs[r]` is what a learner with that
      receptive field knows of the map; `progress[g][r]` holds the flags and
      distance fields of that hypothesis. `pose` is `None` until the first
      knowledge update. */
  datatype Teacher = Teacher(
    variant: Variant,
    numColors: nat,
    gridSize: nat,
    rfBasic: seq<int>,
    addFullObs: bool,
    rfValues: seq<int>,
    lambd: real,
    beliefs: seq<seq<real>>,
    learnerBeliefs: seq<Grid>,
    progress: seq<seq<Progress>>,
    stepCount: int,
    pose: Option<Pose>)

  /** The receptive fields tried: the given ones, then the whole grid when
      `addFullObs` (`init_env`). */
  function RfValuesFor(rfBasic: seq<int>, addFullObs: bool, gridSize: nat): (rfs: seq<int>)
    ensures |rfs| == |rfBasic| + (if addFullObs then 1 else 0)
    ensures rfs[..|rfBasic|] == rfBasic
    ensures addFullObs ==> rfs[|rfBasic|] == gridSize
  {
    if addFullObs then rfBasic + [gridSize] else rfBasic
  }

  predicate ValidRf(rfs: seq<int>)
  {
    |rfs| >= 1 && forall r | 0 <= r < |rfs| :: rfs[r] >= 0
  }

  predicate Valid(t: Teacher)
  {
    var numRf := |t.rfValues|;
    t.numColors >= 1 && ValidRf(t.rfValues) &&
    numRf == |t.rfBasic| + (if t.addFullObs then 1 else 0) &&
    |t.beliefs| == t.numColors && Rectangular(t.beliefs, numRf) && NonNeg2(t.beliefs) &&
    |t.learnerBeliefs| == numRf &&
    (forall r | 0 <= r < numRf :: Shaped(t.learnerBeliefs[r], t.gridSize, t.numColors)) &&
    |t.progress| == t.numColors &&
    (forall g | 0 <= g < t.numColors :: |t.progress[g]| == numRf) &&
    (t.pose.Some? ==> IsDir(t.pose.value.dir))
  }

  /** Every hypothesis keeps "holding the key ==> not heading for it". */
  predicate InvAll(t: Teacher)
  {
    forall g, r | 0 <= g < |t.progress| && 0 <= r < |t.progress[g]| :: ProgressInv(t.progress[g][r])
  }

  // ------------------------------------------------------------ initial state

  function Constant(rows: nat, cols: nat, w: real): (m: seq<seq<real>>)
    ensures |m| == rows && Rectangular(m, cols)
    ensures forall i, j | 0 <= i < rows && 0 <= j < cols :: m[i][j] == w
  {
    seq(rows, _ => seq(cols, _ => w))
  }

  /** The uniform prior over numColors x numRf hypotheses. */
  function UniformPrior(numColors: nat, numRf: nat): (m: seq<seq<real>>)
    requires numColors >= 1 && numRf >= 1
    ensures |m| == numColors && Rectangular(m, numRf) && IsDistribution2(m)
    ensures forall g, r | 0 <= g < numColors && 0 <= r < numRf :: m[g][r] == m[0][0]
  {
    var w := 1.0 / ((numColors * numRf) as real);
    var m := Constant(numColors, numRf, w);
    Sum2Constant(m, numRf, w);
    assert (numColors as real) * (numRf as real) * w == 1.0;
    m
  }

  function FreshProgress(numColors: nat, numRf: nat): (p: seq<seq<Progress>>)
    ensures |p| == numColors
    ensures forall g | 0 <= g < numColors :: |p[g]| == numRf && forall r | 0 <= r < numRf :: p[g][r] == Fresh
  {
    seq(numColors, _ => seq(numRf, _ => Fresh))
  }

  /** No learner knows anything yet: every category equally likely in every
      cell, for every receptive field. */
  predicate Ignorant(t: Teacher)
  {
    forall r, x, y, k | 0 <= r < |t.learnerBeliefs| && 0 <= x < |t.learnerBeliefs[r]| &&
                        0 <= y < |t.learnerBeliefs[r][x]| && 0 <= k < |t.learnerBeliefs[r][x][y]| ::
      t.learnerBeliefs[r][x][y][k] == 1.0 / (NumCategories(t.numColors) as real)
  }

  function Uniforms(count: nat, n: nat, numColors: nat): (gs: seq<Grid>)
    ensures |gs| == count && forall r | 0 <= r < count :: gs[r] == Uniform(n, numColors)
  {
    seq(count, _ => Uniform(n, numColors))
  }

  /** `BayesianTeacher.__init__`: uniform prior, ignorant learners, all
      flags cleared, step counter at -1. */
  function BaseInit(numColors: nat, gridSize: nat, rfValues: seq<int>, lambd: real): (t: Teacher)
    requires numColors >= 1 && ValidRf(rfValues)
    ensures Valid(t) && InvAll(t) && Ignorant(t)
    ensures t.variant == Base && t.numColors == numColors && t.rfValues == rfValues && t.lambd == lambd
    ensures IsDistribution2(t.beliefs)
    ensures forall g, r | 0 <= g < numColors && 0 <= r < |rfValues| :: t.beliefs[g][r] == t.beliefs[0][0]
    ensures forall g, r | 0 <= g < numColors && 0 <= r < |rfValues| :: t.progress[g][r] == Fresh
    ensures t.stepCount == -1 && t.pose == None
  {
    Teacher(Base, numColors, gridSize, rfValues, false, rfValues, lambd,
            UniformPrior(numColors, |rfValues|),
            Uniforms(|rfValues|, gridSize, numColors),
            FreshProgress(numColors, |rfValues|), -1, None)
  }

  /** `RationalBayesianTeacher.init_env`: a new map of side `gridSize`.
      The receptive fields are recomputed (the full-grid one follows the new
      size), every learner is ignorant again, all flags are cleared and the
      step counter returns to -1; the posterior is kept. */
  function InitEnv(t: Teacher, gridSize: nat): (t': Teacher)
    requires Valid(t)
    requires forall r | 0 <= r < |t.rfBasic| :: t.rfBasic[r] >= 0
    ensures Valid(t') && InvAll(t') && Ignorant(t')
    ensures t'.rfValues == RfValuesFor(t.rfBasic, t.addFullObs, gridSize)
    ensures t'.gridSize == gridSize && t'.beliefs == t.beliefs && t'.pose == t.pose
    ensures forall g, r | 0 <= g < t.numColors && 0 <= r < |t.rfValues| :: t'.progress[g][r] == Fresh
    ensures t'.stepCount == -1
  {
    var rfs := RfValuesFor(t.rfBasic, t.addFullObs, gridSize);
    assert forall r | 0 <= r < |rfs| :: rfs[r] >= 0 by {
      forall r | 0 <= r < |rfs| ensures rfs[r] >= 0 {
        if r < |t.rfBasic| {
          assert rfs[r] == rfs[..|t.rfBasic|][r];
        }
      }
    }
    t.(gridSize := gridSize, rfValues := rfs,
       learnerBeliefs := Uniforms(|rfs|, gridSize, t.numColors),
       progress := FreshProgress(t.numColors, |rfs|),
       stepCount := -1)
  }

  /** `RationalBayesianTeacher.__init__` with the prior of the base teacher:
      uniform over every hypothesis actually tracked. */
  function RationalInit(numColors: nat, gridSize: nat, rfBasic: seq<int>, lambd: real, addFullObs: bool): (t: Teacher)
    requires numColors >= 1 && |rfBasic| >= 1 && forall r | 0 <= r < |rfBasic| :: rfBasic[r] >= 0
    ensures Valid(t) && InvAll(t) && Ignorant(t)
    ensures t.variant == Rational && t.numColors == numColors
    ensures t.rfValues == RfValuesFor(rfBasic, addFullObs, gridSize)
    ensures IsDistribution2(t.beliefs)
    ensures forall g, r | 0 <= g < numColors && 0 <= r < |t.rfValues| :: t.beliefs[g][r] == t.beliefs[0][0]
    ensures t.stepCount == -1 && t.pose == None
  {
    var numRf := |rfBasic| + (if addFullObs then 1 else 0);
    var shell := Teacher(Rational, numColors, gridSize, rfBasic, addFullObs,
                         RfValuesFor(rfBasic, addFullObs, gridSize), lambd,
                         UniformPrior(numColors, numRf),
                         Uniforms(numRf, gridSize, numColors),
                         FreshProgress(numColors, numRf), -1, None);
    InitEnv(shell, gridSize)
  }

  /** The prior as the rational teacher's constructor writes it: the weight
      is one over colours times the number of GIVEN receptive fields, spread
      over every tracked one, including the full-grid field. */
  function AsWrittenRationalPrior(numColors: nat, rfBasic: seq<int>, addFullObs: bool): (m: seq<seq<real>>)
    requires numColors >= 1 && |rfBasic| >= 1
    ensures |m| == numColors && Rectangular(m, |rfBasic| + (if addFullObs then 1 else 0))
  {
    Constant(numColors, |rfBasic| + (if addFullObs then 1 else 0),
             1.0 / ((numColors * |rfBasic|) as real))
  }

  /** The as-written prior sums to (n+1)/n with the full-grid field added,
      so it is a distribution exactly when that field is not added. */
  lemma AsWrittenPriorSum(numColors: nat, rfBasic: seq<int>, addFullObs: bool)
    requires numColors >= 1 && |rfBasic| >= 1
    ensures var n := |rfBasic| as real;
            Sum2(AsWrittenRationalPrior(numColors, rfBasic, addFullObs))
              == (if addFullObs then (n + 1.0) / n else 1.0)
    ensures IsDistribution2(AsWrittenRationalPrior(numColors, rfBasic, addFullObs)) <==> !addFullObs
  {
    var m := AsWrittenRationalPrior(numColors, rfBasic, addFullObs);
    var c := numColors as real;
    var n := |rfBasic| as real;
    var cols := |rfBasic| + (if addFullObs then 1 else 0);
    var cr := cols as real;
    var w := 1.0 / ((numColors * |rfBasic|) as real);
    assert w == 1.0 / (c * n) && w > 0.0;
    assert Sum2(m) == cr / n by {
      Sum2Constant(m, cols, w);
      PriorMass(c, n, cr);
    }
    assert NonNeg2(m);
    assert cr / n == 1.0 <==> !addFullObs by {
      PriorMass(c, n, cr);
    }
  }

  /** The total of a constant c x cols matrix of weight 1/(c n), as plain
      arithmetic. */
  lemma PriorMass(c: real, n: real, cr: real)
    requires c > 0.0 && n > 0.0
    ensures c * cr * (1.0 / (c * n)) == cr / n
    ensures cr / n == 1.0 <==> cr == n
  {
  }

  /** The default configuration: four colours, fields 3, 5 and 7 plus the
      full grid. The as-written prior totals 4/3. */
  lemma DefaultPriorTotal()
    ensures Sum2(AsWrittenRationalPrior(4, [3, 5, 7], true)) == 4.0 / 3.0
  {
    AsWrittenPriorSum(4, [3, 5, 7], true);
  }

  /** Scaling a constant matrix scales its constant. */
  lemma ScaleConstant(rows: nat, cols: nat, w: real, k: real)
    ensures Scale2(Constant(rows, cols, w), k) == Constant(rows, cols, w * k)
  {
    var m := Constant(rows, cols, w);
    forall i | 0 <= i < rows
      ensures Scale2(m, k)[i] == Constant(rows, cols, w * k)[i]
    {
      assert Scale2(m, k)[i] == Scale(m[i], k);
      assert |Scale(m[i], k)| == cols;
      forall j | 0 <= j < cols
        ensures Scale(m[i], k)[j] == Constant(rows, cols, w * k)[i][j]
      {
        assert Scale(m[i], k)[j] == m[i][j] * k;
      }
    }
  }

  lemma RatioOfShares(c: real, n: real, numRf: real)
    requires c > 0.0 && n > 0.0 && numRf > 0.0
    ensures 1.0 / (c * n) == (1.0 / (c * numRf)) * (numRf / n)
  {
  }

  /** The as-written prior is the uniform one scaled by num_rf / n. */
  lemma AsWrittenIsScaled(numColors: nat, rfBasic: seq<int>, addFullObs: bool)
    requires numColors >= 1 && |rfBasic| >= 1
    ensures var numRf := |rfBasic| + (if addFullObs then 1 else 0);
            AsWrittenRationalPrior(numColors, rfBasic, addFullObs)
              == Scale2(UniformPrior(numColors, numRf), (numRf as real) / (|rfBasic| as real))
  {
    var numRf := |rfBasic| + (if addFullObs then 1 else 0);
    var c := numColors as real;
    var n := |rfBasic| as real;
    var k := (numRf as real) / n;
    var w := 1.0 / (c * (numRf as real));
    assert ((numColors * |rfBasic|) as real) == c * n;
    assert ((numColors * numRf) as real) == c * (numRf as real);
    RatioOfShares(c, n, numRf as real);
    assert 1.0 / ((numColors * |rfBasic|) as real) == w * k;
    ScaleConstant(numColors, numRf, w, k);
    assert Scale2(Constant(numColors, numRf, w), k) == Constant(numColors, numRf, w * k);
  }

  /** Because the as-written prior is a positive multiple of the uniform
      one, the first observation with positive evidence erases the
      difference; only a use of the prior before any observation sees it. */
  lemma AsWrittenPriorWashesOut(t: Teacher, o: Oracles, a: nat)
    requires CanObserve(t, o) && a < NumActions && |t.rfBasic| >= 1
    requires t.beliefs == UniformPrior(t.numColors, |t.rfValues|)
    ensures var t2 := t.(beliefs := AsWrittenRationalPrior(t.numColors, t.rfBasic, t.addFullObs));
            CanObserve(t2, o) &&
            (Observe(t2, o, a).Failure? <==> Observe(t, o, a).Failure?) &&
            (Observe(t, o, a).Success? ==> Observe(t2, o, a) == Observe(t, o, a))
  {
    AsWrittenIsScaled(t.numColors, t.rfBasic, t.addFullObs);
    ObserveScaleInvariant(t, o, a, (|t.rfValues| as real) / (|t.rfBasic| as real));
  }

  // -------------------------------------------------------- update_knowledge

  datatype KnowledgeError = StepMismatch(expected: int, given: int)

  /** One observation per tracked receptive field, each the right size, and
      a proper direction. */
  predicate ViewsFit(t: Teacher, dir: int, views: seq<View>)
  {
    IsDir(dir) && |views| == |t.rfValues| &&
    forall r | 0 <= r < |views| :: WellFormedView(views[r], t.rfValues[r], t.numColors)
  }

  /** What hypothesis r's learner sees. The base teacher ignores the mask. */
  function SightOf(t: Teacher, pos: Cell, dir: int, views: seq<View>, r: nat): (s: Sight)
    requires Valid(t) && ViewsFit(t, dir, views) && r < |t.rfValues|
    ensures WellFormedSight(s, t.numColors)
  {
    var rf := t.rfValues[r];
    var view := if t.variant.Rational? then views[r] else View(views[r].obs, FullMask(rf));
    Sight(pos, dir, rf, view)
  }

  /** Receptive field r is updated: all of them, or only the one asked for. */
  predicate Selected(only: Option<nat>, r: nat)
  {
    only.None? || only.value == r
  }

  /** After new cells were learnt, the distance field of the pursuit in
      progress is recomputed on the new grid; the flags are untouched. */
  function Refresh(p: Progress, h: Grid, n: nat, numColors: nat, g: nat): (p': Progress)
    requires Shaped(h, n, numColors) && g < numColors
    ensures p'.goingToSubgoal == p.goingToSubgoal && p'.goingToGoal == p.goingToGoal
    ensures p'.reachedSubgoal == p.reachedSubgoal
    ensures p.goingToSubgoal && !p.reachedSubgoal ==>
              p'.distSubgoal == FieldTo(h, n, numColors, SubgoalCat(g)) && p'.distGoal == p.distGoal
    ensures !(p.goingToSubgoal && !p.reachedSubgoal) && p.goingToGoal ==>
              p'.distGoal == FieldTo(h, n, numColors, GoalCat(g)) && p'.distSubgoal == p.distSubgoal
    ensures !p.goingToSubgoal && !p.goingToGoal ==> p' == p
    ensures ProgressInv(p) ==> ProgressInv(p')
  {
    if p.goingToSubgoal && !p.reachedSubgoal then
      p.(distSubgoal := FieldTo(h, n, numColors, SubgoalCat(g)))
    else if p.goingToGoal then
      p.(distGoal := FieldTo(h, n, numColors, GoalCat(g)))
    else
      p
  }

  /** Under the key-held invariant, the field a refresh recomputes is the
      one the pursuit in progress follows next: after new cells are learnt,
      the greedy policy reads distances computed on the new grid. */
  lemma RefreshServesPursuit(p: Progress, h: Grid, n: nat, numColors: nat, g: nat)
    requires Shaped(h, n, numColors) && g < numColors && ProgressInv(p)
    ensures var p' := Refresh(p, h, n, numColors, g);
            (p.goingToSubgoal ==> FieldOf(p', Subgoal) == FieldTo(h, n, numColors, SubgoalCat(g))) &&
            (!p.goingToSubgoal && p.goingToGoal ==> FieldOf(p', Goal) == FieldTo(h, n, numColors, GoalCat(g)))
  {
  }

  function RefreshColumn(progress: seq<seq<Progress>>, r: nat, h: Grid, n: nat, numColors: nat): (p': seq<seq<Progress>>)
    requires Shaped(h, n, numColors) && |progress| == numColors
    requires forall g | 0 <= g < numColors :: r < |progress[g]|
    ensures |p'| == numColors
    ensures forall g | 0 <= g < numColors ::
              |p'[g]| == |progress[g]| &&
              forall q | 0 <= q < |progress[g]| ::
                p'[g][q] == if q == r then Refresh(progress[g][q], h, n, numColors, g) else progress[g][q]
  {
    seq(numColors, g requires 0 <= g < numColors =>
      progress[g][r := Refresh(progress[g][r], h, n, numColors, g)])
  }

  /** The grid of receptive field q after the update. */
  function NewGrid(t: Teacher, pos: Cell, dir: int, views: seq<View>, only: Option<nat>, q: nat): Grid
    requires Valid(t) && ViewsFit(t, dir, views) && q < |t.rfValues|
  {
    if Selected(only, q) then Overwritten(t.learnerBeliefs[q], SightOf(t, pos, dir, views, q), t.gridSize, t.numColors)
    else t.learnerBeliefs[q]
  }

  /** Receptive fields below r are updated, the others untouched. */
  ghost predicate FieldsDone(t: Teacher, pos: Cell, dir: int, views: seq<View>, only: Option<nat>,
                             r: nat, grids: seq<Grid>, progress: seq<seq<Progress>>)
    requires Valid(t) && ViewsFit(t, dir, views)
  {
    var numRf := |t.rfValues|;
    r <= numRf && |grids| == numRf && |progress| == t.numColors &&
    (forall g | 0 <= g < t.numColors :: |progress[g]| == numRf) &&
    (forall q | 0 <= q < numRf ::
       grids[q] == if q < r then NewGrid(t, pos, dir, views, only, q) else t.learnerBeliefs[q]) &&
    (forall g, q | 0 <= g < t.numColors && 0 <= q < numRf ::
       progress[g][q] ==
         if q < r && grids[q] != t.learnerBeliefs[q]
         then Refresh(t.progress[g][q], grids[q], t.gridSize, t.numColors, g)
         else t.progress[g][q])
  }

  /** One iteration of the loop over receptive fields. */
  method UpdateField(t: Teacher, pos: Cell, dir: int, views: seq<View>, only: Option<nat>,
                     r: nat, grids: seq<Grid>, progress: seq<seq<Progress>>)
    returns (grids': seq<Grid>, progress': seq<seq<Progress>>)
    requires Valid(t) && ViewsFit(t, dir, views) && r < |t.rfValues|
    requires FieldsDone(t, pos, dir, views, only, r, grids, progress)
    ensures FieldsDone(t, pos, dir, views, only, r + 1, grids', progress')
  {
    grids', progress' := grids, progress;
    if Selected(only, r) {
      var before := t.learnerBeliefs[r];
      var h, newCells := UpdateLearnerBelief(before, SightOf(t, pos, dir, views, r), t.gridSize, t.numColors);
      NoChangeMeansEqual(before, h, t.gridSize);
      grids' := grids[r := h];
      if newCells > 0 {
        progress' := RefreshColumn(progress, r, h, t.gridSize, t.numColors);
      }
    }
    assert grids'[r] == NewGrid(t, pos, dir, views, only, r);
    forall g, q | 0 <= g < t.numColors && 0 <= q < |t.rfValues|
      ensures progress'[g][q] ==
                if q < r + 1 && grids'[q] != t.learnerBeliefs[q]
                then Refresh(t.progress[g][q], grids'[q], t.gridSize, t.numColors, g)
                else t.progress[g][q]
    {
      if q != r {
        assert progress'[g][q] == progress[g][q] && grids'[q] == grids[q];
      }
    }
  }

  /** Refreshing keeps every hypothesis's invariant. */
  lemma FieldsKeepInv(t: Teacher, pos: Cell, dir: int, views: seq<View>, only: Option<nat>,
                      grids: seq<Grid>, progress: seq<seq<Progress>>)
    requires Valid(t) && ViewsFit(t, dir, views) && InvAll(t)
    requires FieldsDone(t, pos, dir, views, only, |t.rfValues|, grids, progress)
    ensures forall g, q | 0 <= g < t.numColors && 0 <= q < |t.rfValues| :: ProgressInv(progress[g][q])
  {
    forall g, q | 0 <= g < t.numColors && 0 <= q < |t.rfValues|
      ensures ProgressInv(progress[g][q])
    {
      assert ProgressInv(t.progress[g][q]);
      if grids[q] != t.learnerBeliefs[q] {
        assert Shaped(grids[q], t.gridSize, t.numColors);
        assert progress[g][q] == Refresh(t.progress[g][q], grids[q], t.gridSize, t.numColors, g);
      }
    }
  }

  /** `update_knowledge`: record the learner's pose, advance the step
      counter (which must then equal the caller's), and update the
      knowledge of every receptive field, or only of `only`. A receptive
      field in which some cell changed has the distance fields of its
      pursuits in progress recomputed. */
  method UpdateKnowledge(t: Teacher, pos: Cell, dir: int, step: int, views: seq<View>, only: Option<nat>)
    returns (res: Result<Teacher, KnowledgeError>)
    requires Valid(t) && ViewsFit(t, dir, views)
    requires only.Some? ==> t.variant == Rational && only.value < |t.rfValues|
    ensures res.Failure? <==> step != t.stepCount + 1
    ensures res.Success? ==>
              var t' := res.value;
              Valid(t') &&
              t' == t.(learnerBeliefs := t'.learnerBeliefs, progress := t'.progress,
                       stepCount := step, pose := Some(Pose(pos, dir))) &&
              (forall q | 0 <= q < |t.rfValues| ::
                 t'.learnerBeliefs[q] ==
                   if Selected(only, q)
                   then Overwritten(t.learnerBeliefs[q], SightOf(t, pos, dir, views, q), t.gridSize, t.numColors)
                   else t.learnerBeliefs[q]) &&
              (forall g, q | 0 <= g < t.numColors && 0 <= q < |t.rfValues| ::
                 t'.progress[g][q] ==
                   if t'.learnerBeliefs[q] != t.learnerBeliefs[q]
                   then Refresh(t.progress[g][q], t'.learnerBeliefs[q], t.gridSize, t.numColors, g)
                   else t.progress[g][q])
    ensures res.Success? && InvAll(t) ==> InvAll(res.value)
  {
    if step != t.stepCount + 1 {
      return Failure(StepMismatch(t.stepCount + 1, step));
    }
    var grids := t.learnerBeliefs;
    var progress := t.progress;
    var r := 0;
    while r < |t.rfValues|
      invariant FieldsDone(t, pos, dir, views, only, r, grids, progress)
    {
      grids, progress := UpdateField(t, pos, dir, views, only, r, grids, progress);
      r := r + 1;
    }
    if InvAll(t) {
      FieldsKeepInv(t, pos, dir, views, only, grids, progress);
    }
    res := Success(t.(learnerBeliefs := grids, progress := progress,
                      stepCount := step, pose := Some(Pose(pos, dir))));
  }

  // ----------------------------------------------------------------- observe

  /** What `observe` needs: a pose from an earlier knowledge update, a
      non-zero temperature, the learner inside the walls once it has moved,
      and a positive weight function. */
  ghost predicate CanObserve(t: Teacher, o: Oracles)
  {
    Valid(t) && t.lambd != 0.0 && t.pose.Some? &&
    (t.stepCount != 0 ==> Interior(t.pose.value.pos, t.gridSize)) &&
    ValidOracles(o)
  }

  /** What hypothesis (g, r) knows, as the policy sees it. */
  function ContextOf(t: Teacher, r: nat): (ctx: Context)
    requires Valid(t) && t.pose.Some? && r < |t.rfValues|
  {
    Context(t.learnerBeliefs[r], t.gridSize, t.numColors, t.pose.value.pos, t.pose.value.dir,
            t.stepCount, t.lambd, t.variant == Rational)
  }

  /** The decision hypothesis (g, r) predicts for the learner. */
  function Decide(t: Teacher, o: Oracles, g: nat, r: nat): (d: Decision)
    requires CanObserve(t, o) && g < t.numColors && r < |t.rfValues|
    ensures |d.probs| == NumActions && IsDistribution(d.probs)
  {
    Policy(ContextOf(t, r), t.progress[g][r], g, o)
  }

  /** The probability hypothesis (g, r) gives to action a. */
  function Likelihood(t: Teacher, o: Oracles, a: nat, g: nat, r: nat): (p: real)
    requires CanObserve(t, o) && a < NumActions && g < t.numColors && r < |t.rfValues|
    ensures p >= 0.0
  {
    Decide(t, o, g, r).probs[a]
  }

  /** The likelihood of action a under every hypothesis. */
  function Likelihoods(t: Teacher, o: Oracles, a: nat): (l: seq<seq<real>>)
    requires CanObserve(t, o) && a < NumActions
    ensures |l| == t.numColors && Rectangular(l, |t.rfValues|) && NonNeg2(l)
    ensures forall g, r | 0 <= g < t.numColors && 0 <= r < |t.rfValues| :: l[g][r] == Likelihood(t, o, a, g, r)
  {
    seq(t.numColors, g requires 0 <= g < t.numColors =>
      seq(|t.rfValues|, r requires 0 <= r < |t.rfValues| => Likelihood(t, o, a, g, r)))
  }

  /** The probability of the observed action under the prior. */
  function Evidence(t: Teacher, o: Oracles, a: nat): (e: real)
    requires CanObserve(t, o) && a < NumActions
    ensures e >= 0.0
  {
    var m := Hadamard(t.beliefs, Likelihoods(t, o, a), |t.rfValues|);
    Sum2NonNeg(m);
    Sum2(m)
  }

  function Decisions(t: Teacher, o: Oracles): (p: seq<seq<Progress>>)
    requires CanObserve(t, o)
    ensures |p| == t.numColors
    ensures forall g | 0 <= g < t.numColors ::
              |p[g]| == |t.rfValues| &&
              forall r | 0 <= r < |t.rfValues| :: p[g][r] == Decide(t, o, g, r).progress
  {
    seq(t.numColors, g requires 0 <= g < t.numColors =>
      seq(|t.rfValues|, r requires 0 <= r < |t.rfValues| => Decide(t, o, g, r).progress))
  }

  /** An action no hypothesis allows: `observe` would divide zero by
      zero. */
  datatype ObserveError = ZeroEvidence

  /** `observe`: every hypothesis predicts the learner's policy (updating
      its own progress), its weight is multiplied by the probability it gave
      the action taken, and the weights are renormalised. */
  function Observe(t: Teacher, o: Oracles, a: nat): (res: Result<Teacher, ObserveError>)
    requires CanObserve(t, o) && a < NumActions
    ensures res.Failure? <==> Evidence(t, o, a) == 0.0
    ensures res.Success? ==>
              var t' := res.value;
              var lik := Likelihoods(t, o, a);
              Valid(t') && IsDistribution2(t'.beliefs) &&
              t' == t.(beliefs := t'.beliefs, progress := t'.progress) &&
              (forall g, r | 0 <= g < t.numColors && 0 <= r < |t.rfValues| ::
                 t'.beliefs[g][r] == Share(t.beliefs[g][r], lik[g][r], Evidence(t, o, a))) &&
              (forall g, r | 0 <= g < t.numColors && 0 <= r < |t.rfValues| ::
                 lik[g][r] == 0.0 ==> t'.beliefs[g][r] == 0.0) &&
              (forall g, r | 0 <= g < t.numColors && 0 <= r < |t.rfValues| ::
                 t'.progress[g][r] == Decide(t, o, g, r).progress)
    ensures res.Success? && InvAll(t) ==> InvAll(res.value)
  {
    if Evidence(t, o, a) == 0.0 then Failure(ZeroEvidence)
    else Success(Updated(t, o, a))
  }

  function Updated(t: Teacher, o: Oracles, a: nat): (t': Teacher)
    requires CanObserve(t, o) && a < NumActions && Evidence(t, o, a) != 0.0
    ensures Valid(t') && IsDistribution2(t'.beliefs)
    ensures t' == t.(beliefs := t'.beliefs, progress := t'.progress)
    ensures forall g, r | 0 <= g < t.numColors && 0 <= r < |t.rfValues| ::
              t'.beliefs[g][r] == Share(t.beliefs[g][r], Likelihoods(t, o, a)[g][r], Evidence(t, o, a))
    ensures forall g, r | 0 <= g < t.numColors && 0 <= r < |t.rfValues| ::
              Likelihoods(t, o, a)[g][r] == 0.0 ==> t'.beliefs[g][r] == 0.0
    ensures forall g, r | 0 <= g < t.numColors && 0 <= r < |t.rfValues| ::
              t'.progress[g][r] == Decide(t, o, g, r).progress
    ensures InvAll(t) ==> InvAll(t')
  {
    var lik := Likelihoods(t, o, a);
    var e := Evidence(t, o, a);
    assert e == Sum2(Hadamard(t.beliefs, lik, |t.rfValues|));
    var post := Posterior(t.beliefs, lik, |t.rfValues|);
    PosteriorEntries(t.beliefs, lik, |t.rfValues|, post, e);
    var t' := t.(beliefs := post, progress := Decisions(t, o));
    assert InvAll(t) ==> InvAll(t') by {
      if InvAll(t) {
        forall g, r | 0 <= g < t.numColors && 0 <= r < |t.rfValues|
          ensures ProgressInv(t'.progress[g][r])
        {
          assert ProgressInv(t.progress[g][r]);
        }
      }
    }
    t'
  }

  /** At step 0 every hypothesis predicts the placeholder action for sure:
      it leaves the posterior as it was, up to normalisation, and any other
      action is impossible. */
  lemma FirstObservation(t: Teacher, o: Oracles, a: nat)
    requires CanObserve(t, o) && a < NumActions && t.stepCount == 0
    ensures a != ActDrop ==> Observe(t, o, a) == Failure(ZeroEvidence)
    ensures a == ActDrop && Sum2(t.beliefs) != 0.0 ==>
              Observe(t, o, a).Success? &&
              Observe(t, o, a).value.beliefs == Normalize2(t.beliefs) &&
              Observe(t, o, a).value.progress == t.progress
  {
    var cols := |t.rfValues|;
    var lik := Likelihoods(t, o, a);
    var w := if a == ActDrop then 1.0 else 0.0;
    forall g, r | 0 <= g < t.numColors && 0 <= r < cols
      ensures lik[g][r] == w
      ensures Decide(t, o, g, r).progress == t.progress[g][r]
    {
      assert Decide(t, o, g, r) == Decision(PointMass(ActDrop), t.progress[g][r]);
    }
    var m := Hadamard(t.beliefs, lik, cols);
    if a != ActDrop {
      Sum2Constant(m, cols, 0.0);
    } else {
      forall g | 0 <= g < t.numColors
        ensures m[g] == t.beliefs[g]
      {
        assert |m[g]| == |t.beliefs[g]|;
      }
      assert m == t.beliefs;
      assert Decisions(t, o) == t.progress by {
        forall g | 0 <= g < t.numColors
          ensures Decisions(t, o)[g] == t.progress[g]
        {
        }
      }
    }
  }

  /** Scaling the prior by a positive factor changes nothing observe
      produces: the likelihoods do not depend on the prior, and the factor
      cancels in the normalisation. */
  lemma ObserveScaleInvariant(t: Teacher, o: Oracles, a: nat, k: real)
    requires CanObserve(t, o) && a < NumActions && k > 0.0
    ensures NonNeg2(Scale2(t.beliefs, k)) && Rectangular(Scale2(t.beliefs, k), |t.rfValues|)
    ensures var t2 := t.(beliefs := Scale2(t.beliefs, k));
            CanObserve(t2, o) &&
            (Observe(t2, o, a).Failure? <==> Observe(t, o, a).Failure?) &&
            (Observe(t, o, a).Success? ==> Observe(t2, o, a) == Observe(t, o, a))
  {
    var cols := |t.rfValues|;
    ScaleNonNeg2(t.beliefs, k);
    var t2 := t.(beliefs := Scale2(t.beliefs, k));
    assert Valid(t2);
    forall g, r | 0 <= g < t.numColors && 0 <= r < cols
      ensures Decide(t2, o, g, r) == Decide(t, o, g, r)
    {
      assert ContextOf(t2, r) == ContextOf(t, r);
    }
    var lik := Likelihoods(t, o, a);
    forall g | 0 <= g < t.numColors
      ensures Likelihoods(t2, o, a)[g] == lik[g]
      ensures Decisions(t2, o)[g] == Decisions(t, o)[g]
    {
    }
    assert Likelihoods(t2, o, a) == lik;
    assert Decisions(t2, o) == Decisions(t, o);
    HadamardScale(t.beliefs, lik, cols, k);
    var m := Hadamard(t.beliefs, lik, cols);
    Sum2Scale(m, k);
    if Sum2(m) != 0.0 {
      Normalize2ScaleInvariant(m, k);
    }
  }

  lemma PosteriorEntries(prior: seq<seq<real>>, lik: seq<seq<real>>, cols: nat, post: seq<seq<real>>, e: real)
    requires |prior| == |lik| && Rectangular(prior, cols) && Rectangular(lik, cols)
    requires NonNeg2(prior) && NonNeg2(lik) && e == Sum2(Hadamard(prior, lik, cols)) && e != 0.0
    requires post == Posterior(prior, lik, cols)
    ensures forall i, j | 0 <= i < |prior| && 0 <= j < cols :: post[i][j] == Share(prior[i][j], lik[i][j], e)
  {
  }
}
