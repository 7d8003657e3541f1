/** The teacher's reconstruction of what a learner with one hypothesised
    receptive field knows about the map: one belief vector per grid cell,
    overwritten whenever the cell is inside the learner's window. */
module BeliefGrid {
  import opened Geometry
  import opened Encoding

  type Vector = seq<real>

  /** g[x][y] is the belief vector of cell (x, y). */
  type Grid = seq<seq<Vector>>

  predicate Square<T>(g: seq<seq<T>>, n: nat)
  {
    |g| == n && forall x | 0 <= x < n :: |g[x]| == n
  }

  predicate Shaped(g: Grid, n: nat, numColors: nat)
  {
    Square(g, n) &&
    forall x, y | 0 <= x < n && 0 <= y < n :: |g[x][y]| == NumCategories(numColors)
  }

  /** The initial grid: every category equally likely in every cell. */
  function Uniform(n: nat, numColors: nat): (g: Grid)
    ensures Shaped(g, n, numColors)
  {
    var k := NumCategories(numColors);
    seq(n, _ => seq(n, _ => seq(k, _ => 1.0 / (k as real))))
  }

  /** What the learner sees this step through a window of side `rf`:
      `obs[i][j]` and `mask[i][j]` for window coordinates (i, j). */
  datatype View = View(obs: seq<seq<Obj>>, mask: seq<seq<bool>>)

  predicate WellFormedView(v: View, rf: int, numColors: nat)
  {
    rf >= 0 && |v.obs| == rf && |v.mask| == rf &&
    forall i | 0 <= i < rf ::
      |v.obs[i]| == rf && |v.mask[i]| == rf &&
      forall j | 0 <= j < rf :: ColorOk(v.obs[i][j], numColors)
  }

  /** The mask of the variant without occlusion: every window cell visible. */
  function FullMask(rf: nat): (m: seq<seq<bool>>)
    ensures |m| == rf && forall i | 0 <= i < rf :: |m[i]| == rf && forall j | 0 <= j < rf :: m[i][j]
  {
    seq(rf, _ => seq(rf, _ => true))
  }

  /** The learner's pose and receptive field together with its view. */
  datatype Sight = Sight(pos: Cell, dir: int, rf: int, view: View)

  predicate WellFormedSight(s: Sight, numColors: nat)
  {
    IsDir(s.dir) && WellFormedView(s.view, s.rf, numColors)
  }

  /** Window coordinates of a grid cell under this sight. */
  function WindowOf(s: Sight, c: Cell): (int, int)
    requires IsDir(s.dir)
  {
    Unproject(s.pos, s.dir, s.rf, c)
  }

  /** A grid cell is overwritten when it is on the grid, inside the window,
      and not masked out. */
  predicate Visible(s: Sight, n: nat, numColors: nat, c: Cell)
    requires WellFormedSight(s, numColors)
  {
    var (i, j) := WindowOf(s, c);
    InBounds(c, n) && 0 <= i < s.rf && 0 <= j < s.rf && s.view.mask[i][j]
  }

  /** The vector a visible cell receives. */
  function Observed(s: Sight, n: nat, numColors: nat, c: Cell): Vector
    requires WellFormedSight(s, numColors) && Visible(s, n, numColors, c)
  {
    var (i, j) := WindowOf(s, c);
    EncodeCell(c == s.pos, s.view.obs[i][j], numColors)
  }

  /** Reference definition of one belief update: visible cells hold their
      encoded observation, every other cell keeps its old vector. */
  function Overwritten(g: Grid, s: Sight, n: nat, numColors: nat): (r: Grid)
    requires Shaped(g, n, numColors) && WellFormedSight(s, numColors)
    ensures Shaped(r, n, numColors)
  {
    seq(n, x requires 0 <= x < n => seq(n, y requires 0 <= y < n =>
      if Visible(s, n, numColors, Cell(x, y)) then Observed(s, n, numColors, Cell(x, y))
      else g[x][y]))
  }

  /** Cells whose vectors differ between two grids. */
  ghost function ChangedCells(g: Grid, h: Grid, n: nat): set<Cell>
    requires Square(g, n) && Square(h, n)
  {
    set x, y | 0 <= x < n && 0 <= y < n && h[x][y] != g[x][y] :: Cell(x, y)
  }

  lemma ChangedCellsMembers(g: Grid, h: Grid, n: nat)
    requires Square(g, n) && Square(h, n)
    ensures forall c :: c in ChangedCells(g, h, n) <==> InBounds(c, n) && h[c.x][c.y] != g[c.x][c.y]
  {
    forall c | InBounds(c, n) && h[c.x][c.y] != g[c.x][c.y]
      ensures c in ChangedCells(g, h, n)
    {
      assert c == Cell(c.x, c.y);
    }
  }

  /** Two square grids are equal exactly when no cell changed. */
  lemma NoChangeMeansEqual(g: Grid, h: Grid, n: nat)
    requires Square(g, n) && Square(h, n)
    ensures ChangedCells(g, h, n) == {} <==> g == h
  {
    ChangedCellsMembers(g, h, n);
    if ChangedCells(g, h, n) == {} {
      forall x | 0 <= x < n
        ensures g[x] == h[x]
      {
        forall y | 0 <= y < n
          ensures g[x][y] == h[x][y]
        {
          assert Cell(x, y) !in ChangedCells(g, h, n);
        }
      }
    }
  }

  // ------------------------------------------------ the loop of the update

  /** Window cell (i, j) comes before (vi, vj) in the loop order of
      `update_learner_belief`: j outer, i inner. */
  predicate Done(ij: (int, int), vi: int, vj: int)
  {
    ij.1 < vj || (ij.1 == vj && ij.0 < vi)
  }

  ghost predicate Progressed(g: Grid, h: Grid, s: Sight, n: nat, numColors: nat, vi: int, vj: int)
    requires Shaped(g, n, numColors) && WellFormedSight(s, numColors)
  {
    Shaped(h, n, numColors) &&
    forall x, y | 0 <= x < n && 0 <= y < n :: h[x][y] == ExpectedCell(g, s, n, numColors, vi, vj, Cell(x, y))
  }

  ghost predicate Tallied(g: Grid, s: Sight, n: nat, numColors: nat, changed: set<Cell>, vi: int, vj: int)
    requires Shaped(g, n, numColors) && WellFormedSight(s, numColors)
  {
    forall c :: c in changed <==> Counted(g, s, n, numColors, vi, vj, c)
  }

  /** Writing one cell of a grid. */
  function Write(h: Grid, c: Cell, v: Vector): (h': Grid)
    requires Square(h, |h|) && InBounds(c, |h|)
    ensures Square(h', |h|)
    ensures forall x, y | 0 <= x < |h| && 0 <= y < |h| :: h'[x][y] == if Cell(x, y) == c then v else h[x][y]
  {
    h[c.x := h[c.x][c.y := v]]
  }

  /** The grid after visiting window cell (vi, vj). */
  function Visit(h: Grid, s: Sight, n: nat, numColors: nat, vi: int, vj: int): Grid
    requires Shaped(h, n, numColors) && WellFormedSight(s, numColors)
    requires 0 <= vi < s.rf && 0 <= vj < s.rf
  {
    var c := Project(s.pos, s.dir, s.rf, vi, vj);
    if s.view.mask[vi][vj] && InBounds(c, n)
    then Write(h, c, EncodeCell(c == s.pos, s.view.obs[vi][vj], numColors))
    else h
  }

  /** Only the projection of (vi, vj) has window coordinates (vi, vj). */
  lemma OnlyProjection(s: Sight, vi: int, vj: int, e: Cell)
    requires IsDir(s.dir)
    ensures WindowOf(s, e) == (vi, vj) <==> e == Project(s.pos, s.dir, s.rf, vi, vj)
  {
    UnprojectProject(s.pos, s.dir, s.rf, vi, vj);
    ProjectUnproject(s.pos, s.dir, s.rf, e);
  }

  /** The entry a cell must hold once the loop has reached (vi, vj). */
  function ExpectedCell(g: Grid, s: Sight, n: nat, numColors: nat, vi: int, vj: int, e: Cell): Vector
    requires Shaped(g, n, numColors) && WellFormedSight(s, numColors) && InBounds(e, n)
  {
    if Visible(s, n, numColors, e) && Done(WindowOf(s, e), vi, vj)
    then Observed(s, n, numColors, e) else g[e.x][e.y]
  }

  /** The visited cell itself. */
  lemma StepHit(g: Grid, h: Grid, s: Sight, n: nat, numColors: nat, vi: int, vj: int)
    requires Shaped(g, n, numColors) && Shaped(h, n, numColors) && WellFormedSight(s, numColors)
    requires 0 <= vi < s.rf && 0 <= vj < s.rf
    requires var c := Project(s.pos, s.dir, s.rf, vi, vj);
             InBounds(c, n) ==> h[c.x][c.y] == ExpectedCell(g, s, n, numColors, vi, vj, c)
    ensures var c := Project(s.pos, s.dir, s.rf, vi, vj);
            InBounds(c, n) ==>
              Visit(h, s, n, numColors, vi, vj)[c.x][c.y] == ExpectedCell(g, s, n, numColors, vi + 1, vj, c)
  {
    var c := Project(s.pos, s.dir, s.rf, vi, vj);
    OnlyProjection(s, vi, vj, c);
    if InBounds(c, n) {
      var w := WindowOf(s, c);
      assert w == (vi, vj) && !Done(w, vi, vj) && Done(w, vi + 1, vj);
      if s.view.mask[vi][vj] {
        assert Visible(s, n, numColors, c);
      } else {
        assert !Visible(s, n, numColors, c);
      }
    }
  }

  /** Any other cell. */
  lemma StepMiss(g: Grid, h: Grid, s: Sight, n: nat, numColors: nat, vi: int, vj: int, e: Cell)
    requires Shaped(g, n, numColors) && Shaped(h, n, numColors) && WellFormedSight(s, numColors)
    requires 0 <= vi < s.rf && 0 <= vj < s.rf && InBounds(e, n)
    requires e != Project(s.pos, s.dir, s.rf, vi, vj)
    requires h[e.x][e.y] == ExpectedCell(g, s, n, numColors, vi, vj, e)
    ensures Visit(h, s, n, numColors, vi, vj)[e.x][e.y] == ExpectedCell(g, s, n, numColors, vi + 1, vj, e)
  {
    OnlyProjection(s, vi, vj, e);
    var w := WindowOf(s, e);
    assert Done(w, vi + 1, vj) == Done(w, vi, vj);
  }

  /** One iteration of the inner loop: window cell (vi, vj) is written if
      visible, and nothing else moves. */
  lemma StepWrite(g: Grid, h: Grid, s: Sight, n: nat, numColors: nat, vi: int, vj: int)
    requires Shaped(g, n, numColors) && WellFormedSight(s, numColors)
    requires 0 <= vi < s.rf && 0 <= vj < s.rf
    requires Progressed(g, h, s, n, numColors, vi, vj)
    ensures Progressed(g, Visit(h, s, n, numColors, vi, vj), s, n, numColors, vi + 1, vj)
  {
    var c := Project(s.pos, s.dir, s.rf, vi, vj);
    var h' := Visit(h, s, n, numColors, vi, vj);
    if InBounds(c, n) {
      assert h[c.x][c.y] == ExpectedCell(g, s, n, numColors, vi, vj, c);
    }
    StepHit(g, h, s, n, numColors, vi, vj);
    forall x, y | 0 <= x < n && 0 <= y < n
      ensures h'[x][y] == ExpectedCell(g, s, n, numColors, vi + 1, vj, Cell(x, y))
    {
      if Cell(x, y) != c {
        assert h[x][y] == ExpectedCell(g, s, n, numColors, vi, vj, Cell(x, y));
        StepMiss(g, h, s, n, numColors, vi, vj, Cell(x, y));
      }
    }
  }

  /** Cell e has been written by the loop before (vi, vj) with a vector
      different from its original one. */
  predicate Counted(g: Grid, s: Sight, n: nat, numColors: nat, vi: int, vj: int, e: Cell)
    requires Shaped(g, n, numColors) && WellFormedSight(s, numColors)
  {
    Visible(s, n, numColors, e) && Done(WindowOf(s, e), vi, vj) &&
    Observed(s, n, numColors, e) != g[e.x][e.y]
  }

  lemma CountMiss(g: Grid, s: Sight, n: nat, numColors: nat, vi: int, vj: int, e: Cell)
    requires Shaped(g, n, numColors) && WellFormedSight(s, numColors)
    requires e != Project(s.pos, s.dir, s.rf, vi, vj)
    ensures Counted(g, s, n, numColors, vi + 1, vj, e) == Counted(g, s, n, numColors, vi, vj, e)
  {
    OnlyProjection(s, vi, vj, e);
    var w := WindowOf(s, e);
    assert Done(w, vi + 1, vj) == Done(w, vi, vj);
  }

  lemma CountHit(g: Grid, h: Grid, s: Sight, n: nat, numColors: nat, vi: int, vj: int)
    requires Shaped(g, n, numColors) && Shaped(h, n, numColors) && WellFormedSight(s, numColors)
    requires 0 <= vi < s.rf && 0 <= vj < s.rf
    requires var c := Project(s.pos, s.dir, s.rf, vi, vj);
             InBounds(c, n) ==> h[c.x][c.y] == ExpectedCell(g, s, n, numColors, vi, vj, c)
    ensures var c := Project(s.pos, s.dir, s.rf, vi, vj);
            !Counted(g, s, n, numColors, vi, vj, c) &&
            if s.view.mask[vi][vj] && InBounds(c, n) then
              Counted(g, s, n, numColors, vi + 1, vj, c) ==
              (h[c.x][c.y] != EncodeCell(c == s.pos, s.view.obs[vi][vj], numColors))
            else
              !Counted(g, s, n, numColors, vi + 1, vj, c)
  {
    var c := Project(s.pos, s.dir, s.rf, vi, vj);
    OnlyProjection(s, vi, vj, c);
    var w := WindowOf(s, c);
    assert w == (vi, vj) && !Done(w, vi, vj) && Done(w, vi + 1, vj);
    if s.view.mask[vi][vj] && InBounds(c, n) {
      assert Visible(s, n, numColors, c);
      assert h[c.x][c.y] == g[c.x][c.y];
    } else {
      assert !Visible(s, n, numColors, c);
    }
  }

  /** Window cell (vi, vj) is visible, on the grid, and brings a vector
      different from the one the grid holds. */
  predicate Changes(h: Grid, s: Sight, n: nat, numColors: nat, vi: int, vj: int)
    requires Shaped(h, n, numColors) && WellFormedSight(s, numColors)
    requires 0 <= vi < s.rf && 0 <= vj < s.rf
  {
    var c := Project(s.pos, s.dir, s.rf, vi, vj);
    s.view.mask[vi][vj] && InBounds(c, n) &&
    h[c.x][c.y] != EncodeCell(c == s.pos, s.view.obs[vi][vj], numColors)
  }

  /** The set of changed cells after visiting window cell (vi, vj). */
  ghost function TallyStep(h: Grid, s: Sight, n: nat, numColors: nat, changed: set<Cell>, vi: int, vj: int): set<Cell>
    requires Shaped(h, n, numColors) && WellFormedSight(s, numColors)
    requires 0 <= vi < s.rf && 0 <= vj < s.rf
  {
    if Changes(h, s, n, numColors, vi, vj) then changed + {Project(s.pos, s.dir, s.rf, vi, vj)} else changed
  }

  /** The count of changed cells follows the same iteration. */
  lemma StepTally(g: Grid, h: Grid, s: Sight, n: nat, numColors: nat, changed: set<Cell>, vi: int, vj: int)
    requires Shaped(g, n, numColors) && WellFormedSight(s, numColors)
    requires 0 <= vi < s.rf && 0 <= vj < s.rf
    requires Progressed(g, h, s, n, numColors, vi, vj)
    requires Tallied(g, s, n, numColors, changed, vi, vj)
    ensures Shaped(h, n, numColors)
    ensures Changes(h, s, n, numColors, vi, vj) ==> Project(s.pos, s.dir, s.rf, vi, vj) !in changed
    ensures Tallied(g, s, n, numColors, TallyStep(h, s, n, numColors, changed, vi, vj), vi + 1, vj)
  {
    var c := Project(s.pos, s.dir, s.rf, vi, vj);
    if InBounds(c, n) {
      assert h[c.x][c.y] == ExpectedCell(g, s, n, numColors, vi, vj, c);
    }
    CountHit(g, h, s, n, numColors, vi, vj);
    var changed' := TallyStep(h, s, n, numColors, changed, vi, vj);
    forall e
      ensures e in changed' <==> Counted(g, s, n, numColors, vi + 1, vj, e)
    {
      if e != c {
        CountMiss(g, s, n, numColors, vi, vj, e);
      }
    }
  }

  /** Visible window cells all lie in rows 0..rf - 1, so the end of one row
      and the start of the next are the same loop position. */
  lemma NextRow(g: Grid, h: Grid, s: Sight, n: nat, numColors: nat, changed: set<Cell>, vj: int)
    requires Shaped(g, n, numColors) && WellFormedSight(s, numColors)
    requires Progressed(g, h, s, n, numColors, s.rf, vj)
    requires Tallied(g, s, n, numColors, changed, s.rf, vj)
    ensures Progressed(g, h, s, n, numColors, 0, vj + 1)
    ensures Tallied(g, s, n, numColors, changed, 0, vj + 1)
  {
  }

  /** After the last row every visible cell has been written. */
  lemma Finished(g: Grid, h: Grid, s: Sight, n: nat, numColors: nat, changed: set<Cell>)
    requires Shaped(g, n, numColors) && WellFormedSight(s, numColors)
    requires Progressed(g, h, s, n, numColors, 0, s.rf)
    requires Tallied(g, s, n, numColors, changed, 0, s.rf)
    ensures h == Overwritten(g, s, n, numColors)
    ensures changed == ChangedCells(g, h, n)
  {
    var o := Overwritten(g, s, n, numColors);
    forall x | 0 <= x < n
      ensures h[x] == o[x]
    {
      assert forall y | 0 <= y < n :: h[x][y] == o[x][y];
    }
    ChangedCellsMembers(g, h, n);
  }

  /** Visiting one window cell advances both loop invariants, and the tally
      grows by one exactly when the cell changes. */
  lemma VisitStep(g: Grid, h: Grid, s: Sight, n: nat, numColors: nat, changed: set<Cell>, vi: int, vj: int)
    requires Shaped(g, n, numColors) && WellFormedSight(s, numColors)
    requires 0 <= vi < s.rf && 0 <= vj < s.rf
    requires Progressed(g, h, s, n, numColors, vi, vj)
    requires Tallied(g, s, n, numColors, changed, vi, vj)
    ensures Shaped(h, n, numColors)
    ensures Progressed(g, Visit(h, s, n, numColors, vi, vj), s, n, numColors, vi + 1, vj)
    ensures Tallied(g, s, n, numColors, TallyStep(h, s, n, numColors, changed, vi, vj), vi + 1, vj)
    ensures |TallyStep(h, s, n, numColors, changed, vi, vj)|
            == |changed| + (if Changes(h, s, n, numColors, vi, vj) then 1 else 0)
  {
    StepWrite(g, h, s, n, numColors, vi, vj);
    StepTally(g, h, s, n, numColors, changed, vi, vj);
    if Changes(h, s, n, numColors, vi, vj) {
      AddFresh(changed, Project(s.pos, s.dir, s.rf, vi, vj));
    }
  }

  lemma AddFresh(changed: set<Cell>, c: Cell)
    requires c !in changed
    ensures |changed + {c}| == |changed| + 1
  {
  }

  /** One iteration of the inner loop of `update_learner_belief`: skip a
      masked or off-grid window cell, otherwise count it if its vector
      changes and overwrite it. */
  method VisitCell(g: Grid, h: Grid, s: Sight, n: nat, numColors: nat, vi: int, vj: int,
                   newCells: nat, ghost changed: set<Cell>)
    returns (h': Grid, newCells': nat, ghost changed': set<Cell>)
    requires Shaped(g, n, numColors) && WellFormedSight(s, numColors)
    requires 0 <= vi < s.rf && 0 <= vj < s.rf
    requires Progressed(g, h, s, n, numColors, vi, vj)
    requires Tallied(g, s, n, numColors, changed, vi, vj) && newCells == |changed|
    ensures Progressed(g, h', s, n, numColors, vi + 1, vj)
    ensures Tallied(g, s, n, numColors, changed', vi + 1, vj) && newCells' == |changed'|
  {
    VisitStep(g, h, s, n, numColors, changed, vi, vj);
    newCells' := if Changes(h, s, n, numColors, vi, vj) then newCells + 1 else newCells;
    h' := Visit(h, s, n, numColors, vi, vj);
    changed' := TallyStep(h, s, n, numColors, changed, vi, vj);
  }

  /** `update_learner_belief`: walk the window column by column, write
      the encoding of every visible in-bounds cell, and count the cells whose
      vector actually changed. Because distinct window cells land on distinct
      grid cells, the result is the reference update and the count is the
      number of cells whose vector differs afterwards. */
  method UpdateLearnerBelief(g: Grid, s: Sight, n: nat, numColors: nat)
    returns (h: Grid, newCells: nat)
    requires Shaped(g, n, numColors) && WellFormedSight(s, numColors)
    ensures h == Overwritten(g, s, n, numColors)
    ensures newCells == |ChangedCells(g, h, n)|
  {
    h := g;
    newCells := 0;
    ghost var changed: set<Cell> := {};
    var vj := 0;
    while vj < s.rf
      invariant 0 <= vj <= s.rf
      invariant Progressed(g, h, s, n, numColors, 0, vj)
      invariant Tallied(g, s, n, numColors, changed, 0, vj)
      invariant newCells == |changed|
    {
      var vi := 0;
      while vi < s.rf
        invariant 0 <= vi <= s.rf
        invariant Progressed(g, h, s, n, numColors, vi, vj)
        invariant Tallied(g, s, n, numColors, changed, vi, vj)
        invariant newCells == |changed|
      {
        h, newCells, changed := VisitCell(g, h, s, n, numColors, vi, vj, newCells, changed);
        vi := vi + 1;
      }
      NextRow(g, h, s, n, numColors, changed, vj);
      vj := vj + 1;
    }
    Finished(g, h, s, n, numColors, changed);
  }

  // ------------------------------------------- obstacles and target cells

  /** The learner believes the cell is empty: its vector is exactly the
      one-hot "empty" vector. Cells still at the uniform prior are not. */
  predicate KnownEmpty(v: Vector, numColors: nat)
  {
    v == OneHot(CatEmpty, NumCategories(numColors))
  }

  /** `compute_obstacle_grid`: an obstacle wherever the cell is not known
      to be empty. */
  function ObstacleGrid(g: Grid, n: nat, numColors: nat): (o: seq<seq<bool>>)
    requires Shaped(g, n, numColors)
    ensures Square(o, n)
  {
    seq(n, x requires 0 <= x < n => seq(n, y requires 0 <= y < n => !KnownEmpty(g[x][y], numColors)))
  }

  /** The obstacle grid with the target cells cleared, as built before every
      path search and distance computation: a cell blocks exactly when it is
      neither known to be empty nor a target. */
  function ObstaclesAround(g: Grid, n: nat, numColors: nat, targets: seq<Cell>): (o: seq<seq<bool>>)
    requires Shaped(g, n, numColors)
    ensures Square(o, n)
    ensures forall x, y | 0 <= x < n && 0 <= y < n ::
              o[x][y] <==> !KnownEmpty(g[x][y], numColors) && Cell(x, y) !in targets
  {
    var base := ObstacleGrid(g, n, numColors);
    seq(n, x requires 0 <= x < n => seq(n, y requires 0 <= y < n => base[x][y] && Cell(x, y) !in targets))
  }

  /** Strict row-major order, the order in which `np.where` lists cells. */
  predicate Before(a: Cell, b: Cell)
  {
    a.x < b.x || (a.x == b.x && a.y < b.y)
  }

  predicate RowMajor(s: seq<Cell>)
  {
    forall i, j | 0 <= i < j < |s| :: Before(s[i], s[j])
  }

  /** Cells (x, y') with y <= y' whose entry `idx` equals 1. */
  function RowCells(g: Grid, n: nat, numColors: nat, idx: nat, x: int, y: int): (r: seq<Cell>)
    requires Shaped(g, n, numColors) && idx < NumCategories(numColors)
    requires 0 <= x < n && 0 <= y <= n
    decreases n - y
    ensures forall c :: c in r <==> c.x == x && y <= c.y < n && g[x][c.y][idx] == 1.0
    ensures RowMajor(r)
  {
    if y == n then []
    else (if g[x][y][idx] == 1.0 then [Cell(x, y)] else []) + RowCells(g, n, numColors, idx, x, y + 1)
  }

  /** Cells in rows x.. whose entry `idx` equals 1, in row-major order. */
  function CellsFrom(g: Grid, n: nat, numColors: nat, idx: nat, x: int): (r: seq<Cell>)
    requires Shaped(g, n, numColors) && idx < NumCategories(numColors)
    requires 0 <= x <= n
    decreases n - x
    ensures forall c :: c in r <==> InBounds(c, n) && x <= c.x && g[c.x][c.y][idx] == 1.0
    ensures RowMajor(r)
  {
    if x == n then []
    else RowCells(g, n, numColors, idx, x, 0) + CellsFrom(g, n, numColors, idx, x + 1)
  }

  /** The cells the learner believes hold category `idx` (`update_distance_goal`'s
      `np.where(beliefs[..., idx] == 1)`): every such cell, once, in
      row-major order. */
  function CellsWith(g: Grid, n: nat, numColors: nat, idx: nat): (r: seq<Cell>)
    requires Shaped(g, n, numColors) && idx < NumCategories(numColors)
    ensures forall c :: c in r <==> InBounds(c, n) && g[c.x][c.y][idx] == 1.0
    ensures RowMajor(r)
  {
    CellsFrom(g, n, numColors, idx, 0)
  }
}
